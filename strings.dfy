/**
 * The few operations on Python `str` that the scraper relies on: the
 * substring test `sub in s`, `s.split(sep)` and `sep.join(pieces)` for a
 * one-character separator, `s.replace(c, '')`, and `'{}'.format(i)` for an
 * integer `i`.
 */
module Strings {

  /** `sub` occurs at position `i` of `s`. */
  predicate OccursAt(s: string, sub: string, i: int) {
    0 <= i && i + |sub| <= |s| && s[i..i + |sub|] == sub
  }

  /** `p` is a prefix of `s`. */
  predicate IsPrefix(p: string, s: string) {
    |p| <= |s| && s[..|p|] == p
  }

  /** Python's `sub in s`: the empty string occurs in every string. */
  predicate Contains(s: string, sub: string)
    decreases |s|
  {
    IsPrefix(sub, s) || (|s| > 0 && Contains(s[1..], sub))
  }

  /** `Contains` agrees with the positional definition of a substring. */
  lemma {:induction false} ContainsIffOccurs(s: string, sub: string)
    ensures Contains(s, sub) <==> exists i :: OccursAt(s, sub, i)
    decreases |s|
  {
    if IsPrefix(sub, s) {
      assert OccursAt(s, sub, 0);
    } else if |s| == 0 {
      assert forall i :: !OccursAt(s, sub, i);
    } else {
      ContainsIffOccurs(s[1..], sub);
      if exists j :: OccursAt(s[1..], sub, j) {
        var j :| OccursAt(s[1..], sub, j);
        assert s[1..][j..j + |sub|] == s[j + 1..j + 1 + |sub|];
        assert OccursAt(s, sub, j + 1);
      }
      if exists i :: OccursAt(s, sub, i) {
        var i :| OccursAt(s, sub, i);
        assert i != 0;
        assert s[1..][i - 1..i - 1 + |sub|] == s[i..i + |sub|];
        assert OccursAt(s[1..], sub, i - 1);
      }
    }
  }

  /** Python's `sep.join(pieces)` for a one-character separator. */
  function Join(pieces: seq<string>, sep: char): string
    decreases |pieces|
  {
    if |pieces| == 0 then ""
    else if |pieces| == 1 then pieces[0]
    else pieces[0] + [sep] + Join(pieces[1..], sep)
  }

  /** Python's `s.split(sep)` for a one-character separator. */
  function Split(s: string, sep: char): (pieces: seq<string>)
    ensures |pieces| >= 1
    decreases |s|
  {
    if |s| == 0 then [""]
    else
      var rest := Split(s[1..], sep);
      if s[0] == sep then [""] + rest
      else [[s[0]] + rest[0]] + rest[1..]
  }

  /** `Split` yields one more piece than there are separators. */
  lemma {:induction false} SplitCount(s: string, sep: char)
    ensures |Split(s, sep)| == multiset(s)[sep] + 1
    decreases |s|
  {
    if |s| > 0 {
      SplitCount(s[1..], sep);
      assert s == [s[0]] + s[1..];
    }
  }

  /** No piece of `Split` holds the separator. */
  lemma {:induction false} SplitPiecesFree(s: string, sep: char)
    ensures forall p | p in Split(s, sep) :: sep !in p
    decreases |s|
  {
    if |s| > 0 {
      SplitPiecesFree(s[1..], sep);
      var rest := Split(s[1..], sep);
      assert rest[0] in rest;
      assert forall p | p in rest[1..] :: p in rest;
    }
  }

  /** Joining the pieces of `Split` gives the string back. */
  lemma {:induction false} JoinSplit(s: string, sep: char)
    ensures Join(Split(s, sep), sep) == s
    decreases |s|
  {
    if |s| > 0 {
      var rest := Split(s[1..], sep);
      JoinSplit(s[1..], sep);
      if s[0] != sep {
        var head := [s[0]] + rest[0];
        if |rest| > 1 {
          assert Split(s, sep)[1..] == rest[1..];
          calc {
            Join(Split(s, sep), sep);
            head + [sep] + Join(rest[1..], sep);
            [s[0]] + (rest[0] + [sep] + Join(rest[1..], sep));
            [s[0]] + s[1..];
          }
        }
      }
    }
  }

  /** Splitting right after a separator-free first piece. */
  lemma {:induction false} SplitAfterPiece(a: string, b: string, sep: char)
    requires sep !in a
    ensures Split(a + [sep] + b, sep) == [a] + Split(b, sep)
    decreases |a|
  {
    var s := a + [sep] + b;
    if |a| == 0 {
      assert s == [sep] + b;
      assert s[1..] == b;
    } else {
      assert s[1..] == a[1..] + [sep] + b;
      SplitAfterPiece(a[1..], b, sep);
      assert [a[0]] + a[1..] == a;
    }
  }

  /** A separator-free string splits into itself alone. */
  lemma SplitWithoutSeparator(s: string, sep: char)
    requires sep !in s
    ensures Split(s, sep) == [s]
  {
    SplitCount(s, sep);
    JoinSplit(s, sep);
  }

  /** The other round trip: splitting a join of separator-free pieces gives the pieces back. */
  lemma {:induction false} SplitJoin(pieces: seq<string>, sep: char)
    requires |pieces| >= 1
    requires forall p | p in pieces :: sep !in p
    ensures Split(Join(pieces, sep), sep) == pieces
    decreases |pieces|
  {
    if |pieces| == 1 {
      SplitWithoutSeparator(pieces[0], sep);
    } else {
      SplitJoin(pieces[1..], sep);
      SplitAfterPiece(pieces[0], Join(pieces[1..], sep), sep);
      assert [pieces[0]] + pieces[1..] == pieces;
    }
  }

  /** A string that splits into two pieces is the first, the separator, then the second. */
  lemma SplitInTwo(s: string, sep: char) returns (x: string, y: string)
    requires |Split(s, sep)| == 2
    ensures Split(s, sep) == [x, y]
    ensures s == x + [sep] + y
    ensures sep !in x && sep !in y
  {
    var pieces := Split(s, sep);
    x, y := pieces[0], pieces[1];
    SplitPiecesFree(s, sep);
    JoinSplit(s, sep);
    assert pieces == [x, y];
    assert Join([x, y], sep) == x + [sep] + y;
  }

  /** Joining the first `k` pieces gives a prefix, and the rest follows after one separator. */
  lemma {:induction false} JoinSplitAt(pieces: seq<string>, k: nat, sep: char)
    requires 1 <= k <= |pieces|
    ensures Join(pieces, sep) ==
      Join(pieces[..k], sep) + (if k < |pieces| then [sep] + Join(pieces[k..], sep) else "")
    decreases k
  {
    if k == |pieces| {
      assert pieces[..k] == pieces;
    } else if k == 1 {
      assert pieces[1..] == pieces[k..];
    } else {
      var tail := pieces[1..];
      JoinSplitAt(tail, k - 1, sep);
      assert pieces[..k][1..] == tail[..k - 1];
      assert tail[k - 1..] == pieces[k..];
      var front := Join(tail[..k - 1], sep);
      var back := [sep] + Join(pieces[k..], sep);
      calc {
        Join(pieces, sep);
        pieces[0] + [sep] + Join(tail, sep);
        pieces[0] + [sep] + (front + back);
        (pieces[0] + [sep] + front) + back;
        Join(pieces[..k], sep) + back;
      }
    }
  }

  /** A join of `n` separator-free pieces holds `n - 1` separators. */
  lemma {:induction false} JoinCount(pieces: seq<string>, sep: char)
    requires |pieces| >= 1
    requires forall p | p in pieces :: sep !in p
    ensures multiset(Join(pieces, sep))[sep] == |pieces| - 1
    decreases |pieces|
  {
    if |pieces| == 1 {
      assert pieces[0] in pieces;
    } else {
      assert pieces[0] in pieces;
      assert forall p | p in pieces[1..] :: p in pieces;
      JoinCount(pieces[1..], sep);
    }
  }

  /**
   * The first `k` pieces of a split, joined back, are the string up to its
   * `k`-th separator: a prefix holding `k - 1` separators, the whole string
   * when no piece is left out, and otherwise followed by a separator.
   */
  lemma HeadOfSplit(s: string, k: nat, sep: char)
    requires 1 <= k <= |Split(s, sep)|
    ensures var head := Join(Split(s, sep)[..k], sep);
      && IsPrefix(head, s)
      && multiset(head)[sep] == k - 1
      && (k == |Split(s, sep)| ==> head == s)
      && (|head| < |s| ==> s[|head|] == sep)
  {
    var pieces := Split(s, sep);
    var head := Join(pieces[..k], sep);
    JoinSplit(s, sep);
    JoinSplitAt(pieces, k, sep);
    assert multiset(head)[sep] == k - 1 by {
      SplitPiecesFree(s, sep);
      assert forall p | p in pieces[..k] :: p in pieces;
      JoinCount(pieces[..k], sep);
    }
    if k == |pieces| {
      assert pieces[..k] == pieces;
    }
  }

  /** Python's `s.replace(c, '')`: every `c` removed. */
  function DeleteAll(s: string, c: char): (r: string)
    ensures c !in r
    ensures c !in s ==> r == s
    decreases |s|
  {
    if |s| == 0 then ""
    else if s[0] == c then DeleteAll(s[1..], c)
    else
      assert s == [s[0]] + s[1..];
      [s[0]] + DeleteAll(s[1..], c)
  }

  /** `DeleteAll` keeps every other character, as often as `s` holds it. */
  lemma {:induction false} DeleteAllKeepsOthers(s: string, c: char)
    ensures multiset(DeleteAll(s, c)) == multiset(s)[c := 0]
    decreases |s|
  {
    if |s| > 0 {
      DeleteAllKeepsOthers(s[1..], c);
      assert s == [s[0]] + s[1..];
    }
  }

  /** Removing `c` from a string that starts with `ch`. */
  lemma DeleteAllCons(ch: char, rest: string, c: char)
    ensures DeleteAll([ch] + rest, c) == if ch == c then DeleteAll(rest, c) else [ch] + DeleteAll(rest, c)
  {
    assert ([ch] + rest)[1..] == rest;
  }

  /** Removing a character distributes over concatenation. */
  lemma {:induction false} DeleteAllConcat(a: string, b: string, c: char)
    ensures DeleteAll(a + b, c) == DeleteAll(a, c) + DeleteAll(b, c)
    decreases |a|
  {
    if |a| > 0 {
      assert (a + b)[0] == a[0];
      assert (a + b)[1..] == a[1..] + b;
      DeleteAllConcat(a[1..], b, c);
    } else {
      assert a + b == b;
    }
  }

  /** The decimal digit `d` as a character. */
  function DigitChar(d: nat): (ch: char)
    requires d < 10
    ensures '0' <= ch <= '9'
  {
    ('0' as int + d) as char
  }

  predicate IsDigits(s: string) {
    forall k | 0 <= k < |s| :: '0' <= s[k] <= '9'
  }

  /** `str(n)` for a natural number: its decimal digits, most significant first. */
  function NatToDecimal(n: nat): (s: string)
    ensures |s| >= 1 && IsDigits(s)
    ensures n > 0 ==> s[0] != '0'
    ensures |s| > 1 ==> s[0] != '0'
    decreases n
  {
    if n < 10 then [DigitChar(n)] else NatToDecimal(n / 10) + [DigitChar(n % 10)]
  }

  /** The number a string of decimal digits denotes. */
  function DecimalValue(s: string): nat
    requires IsDigits(s)
    decreases |s|
  {
    if |s| == 0 then 0
    else 10 * DecimalValue(s[..|s| - 1]) + (s[|s| - 1] as int - '0' as int)
  }

  /** Reading back the digits of `n` gives `n`. */
  lemma {:induction false} DecimalRoundTrip(n: nat)
    ensures DecimalValue(NatToDecimal(n)) == n
    decreases n
  {
    if n >= 10 {
      DecimalRoundTrip(n / 10);
      var s := NatToDecimal(n);
      assert s[..|s| - 1] == NatToDecimal(n / 10);
    }
  }

  /** `'{}'.format(i)` for an integer: a minus sign before the digits of a negative number. */
  function IntToDecimal(i: int): string {
    if i < 0 then "-" + NatToDecimal(-i) else NatToDecimal(i)
  }

  /** Different natural numbers have different digits. */
  lemma NatToDecimalInjective(m: nat, n: nat)
    requires NatToDecimal(m) == NatToDecimal(n)
    ensures m == n
  {
    DecimalRoundTrip(m);
    DecimalRoundTrip(n);
  }

  /** Different integers are formatted differently. */
  lemma IntToDecimalInjective(i: int, j: int)
    requires IntToDecimal(i) == IntToDecimal(j)
    ensures i == j
  {
    var s := IntToDecimal(i);
    var t := IntToDecimal(j);
    assert i < 0 <==> s[0] == '-';
    assert j < 0 <==> t[0] == '-';
    if i < 0 {
      assert s[1..] == NatToDecimal(-i);
      assert t[1..] == NatToDecimal(-j);
      NatToDecimalInjective(-i, -j);
    } else {
      NatToDecimalInjective(i, j);
    }
  }
}
