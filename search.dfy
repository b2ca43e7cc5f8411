/**
 * `run_house_search` (house.py): visit every listing ID of a range in turn,
 * keep the URLs of in-area, suitable, unlisted pages in `potential` and an
 * `(address, url)` entry in `issue_addresses` for every ID whose handling
 * raised. The model follows the loop as written: an out-of-area page leaves
 * `address` as `None`, so the `'Sample Tour' in address` test raises and the
 * ID becomes an issue; the handler records whatever `address` last held,
 * possibly from an earlier ID; and when the very first fetch raises, the
 * handler reads an unassigned `address` and the whole run fails.
 */
module Search {
  import opened Wrappers
  import opened Strings
  import opened House

  /** The marker in the address of a page that has not been filled in yet. */
  const SAMPLE_TOUR := "Sample Tour"

  /** What the outside world answers, per URL or per address. */
  datatype Site = Site(
    titleOf: string -> Outcome<Option<string>>,  // fetching a URL: the text of its first <title>, if any
    sessionOf: string -> Outcome<Listing>,        // opening the browser session on a URL
    redfinOf: string -> RedfinPayload)            // the Redfin client's answers for an address

  /** The arguments of `run_house_search`. */
  datatype Criteria = Criteria(beds: int, location: string, price: real, idStart: int, increments: int)

  /** An `issue_addresses` entry: the value of `address` and the URL. */
  datatype Issue = Issue(address: Option<string>, url: string)

  /** The two lists the run prints at the end. */
  datatype Report = Report(potential: seq<string>, issues: seq<Issue>)

  /** The loop's state: the two lists, and `address` (`None` until first assigned). */
  datatype Scan = Scan(potential: seq<string>, issues: seq<Issue>, address: Option<Option<string>>)

  /** How the `try` block ends for one ID. */
  datatype Fate = Skipped | Matched | Failed

  /** How many IDs `range(id_start, id_start + increments)` holds. */
  function Span(c: Criteria): nat {
    if c.increments > 0 then c.increments else 0
  }

  /** The `try` block for one ID: fetch, location, placeholder, suitability, market status. */
  function FateOf(c: Criteria, site: Site, id: int): Fate {
    var url := PageUrl(id);
    match site.titleOf(url)
    case Raised(_) => Failed
    case Returned(title) =>
      var check := VerifyLocation(title, c.location);
      if check.address.None? then Failed  // `'Sample Tour' in None` raises
      // `if is_in_austin:`; an address is only given in the area, so the second test never decides
      else if Contains(check.address.value, SAMPLE_TOUR) || !check.inArea then Skipped
      else match DetermineIfSuitable(site.sessionOf(url), c.beds, c.price)
        case Raised(_) => Failed
        case Returned(suitable) =>
          if !suitable then Skipped
          else match AddressIsListed(site.redfinOf(check.address.value))
            case Raised(_) => Failed
            case Returned(listed) => if listed then Skipped else Matched
  }

  /**
   * One iteration for `id`: `address` is assigned when the fetch returns,
   * and a failure is recorded with it; the handler itself raises when
   * `address` was never assigned.
   */
  function Visit(c: Criteria, site: Site, s: Scan, id: int): Outcome<Scan> {
    var url := PageUrl(id);
    var address :=
      match site.titleOf(url)
      case Returned(title) => Some(VerifyLocation(title, c.location).address)
      case Raised(_) => s.address;
    match FateOf(c, site, id)
    case Skipped => Returned(s.(address := address))
    case Matched => Returned(Scan(s.potential + [url], s.issues, address))
    case Failed =>
      if address.None? then Raised(OtherError)
      else Returned(Scan(s.potential, s.issues + [Issue(address.value, url)], address))
  }

  /** The state after the first `n` IDs of the range. */
  function Scanned(c: Criteria, site: Site, n: nat): Outcome<Scan>
    decreases n, 0
  {
    if n == 0 then Returned(Scan([], [], None)) else Handled(c, site, n - 1)
  }

  /** The state once the ID at offset `k` of the range has been handled. */
  function Handled(c: Criteria, site: Site, k: nat): Outcome<Scan>
    decreases k, 1
  {
    match Scanned(c, site, k)
    case Raised(e) => Raised(e)
    case Returned(s) => Visit(c, site, s, c.idStart + k)
  }

  /** The whole run. */
  function Search(c: Criteria, site: Site): Outcome<Report> {
    var s :- Scanned(c, site, Span(c));
    Returned(Report(s.potential, s.issues))
  }

  /** Once the run has failed it stays failed. */
  lemma {:induction false} ScannedStaysRaised(c: Criteria, site: Site, m: nat, n: nat)
    requires m <= n
    requires Scanned(c, site, m).Raised?
    ensures Scanned(c, site, n) == Scanned(c, site, m)
    decreases n
  {
    if m < n {
      ScannedStaysRaised(c, site, m, n - 1);
    }
  }

  /**
   * One pass of the loop body, for the ID at offset `n` of the range: the
   * `try` block and its handler, from the accumulators and `address` before
   * it to those after it, or `Raised` when the handler itself raises on an
   * unassigned `address`.
   */
  method HandleId(c: Criteria, site: Site, n: nat, s: Scan) returns (next: Outcome<Scan>)
    requires Scanned(c, site, n) == Returned(s)
    ensures next == Scanned(c, site, n + 1)
  {
    var id := c.idStart + n;
    assert Scanned(c, site, n + 1) == Visit(c, site, s, id);
    var url := PageUrl(id);
    var potential := s.potential;
    var address := s.address;
    var failed := false;
    var fetched := site.titleOf(url);
    if fetched.Raised? {
      failed := true;
      assert FateOf(c, site, id) == Failed;
    } else {
      var check := VerifyLocation(fetched.value, c.location);
      address := Some(check.address);
      if check.address.None? {
        failed := true;  // `'Sample Tour' in None` raises
        assert FateOf(c, site, id) == Failed;
      } else if !Contains(check.address.value, SAMPLE_TOUR) && check.inArea {
        var suitable := DetermineIfSuitable(site.sessionOf(url), c.beds, c.price);
        if suitable.Raised? {
          failed := true;
          assert FateOf(c, site, id) == Failed;
        } else if suitable.value {
          var listed := AddressIsListed(site.redfinOf(check.address.value));
          if listed.Raised? {
            failed := true;
            assert FateOf(c, site, id) == Failed;
          } else if !listed.value {
            potential := potential + [url];
            assert FateOf(c, site, id) == Matched;
          } else {
            assert FateOf(c, site, id) == Skipped;
          }
        } else {
          assert FateOf(c, site, id) == Skipped;
        }
      } else {
        assert FateOf(c, site, id) == Skipped;
      }
    }
    if failed {
      if address.None? {
        return Raised(OtherError);
      }
      return Returned(Scan(potential, s.issues + [Issue(address.value, url)], address));
    }
    return Returned(Scan(potential, s.issues, address));
  }

  /** `run_house_search`: the loop over the ID range with its two accumulators. */
  method RunHouseSearch(beds: int, loc: string, price: real, idStart: int, increments: int, site: Site)
    returns (r: Outcome<Report>)
    ensures r == Search(Criteria(beds, loc, price, idStart, increments), site)
  {
    var c := Criteria(beds, loc, price, idStart, increments);
    // `potential`, `issue_addresses` and `address`, held together
    var scan := Scan([], [], None);
    var n: nat := 0;  // the loop visits `i == idStart + n`
    while n < increments
      invariant n <= Span(c)
      invariant Scanned(c, site, n) == Returned(scan)
    {
      var next := HandleId(c, site, n, scan);
      if next.Raised? {
        ScannedStaysRaised(c, site, n + 1, Span(c));
        return Raised(next.exception);
      }
      scan := next.value;
      n := n + 1;
    }
    r := Returned(Report(scan.potential, scan.issues));
  }

  // ---------------------------------------------------------------------
  // The run described ID by ID
  // ---------------------------------------------------------------------

  /** The IDs among the first `n` of the range whose fate is `fate`, in the order visited. */
  function IdsWhere(c: Criteria, site: Site, n: nat, fate: Fate): seq<int>
    decreases n
  {
    if n == 0 then []
    else
      var id := c.idStart + n - 1;
      IdsWhere(c, site, n - 1, fate) + (if FateOf(c, site, id) == fate then [id] else [])
  }

  /** The page URLs of a list of IDs. */
  function Urls(ids: seq<int>): seq<string> {
    seq(|ids|, k requires 0 <= k < |ids| => PageUrl(ids[k]))
  }

  /** The URLs of a list of issues. */
  function IssueUrls(issues: seq<Issue>): seq<string> {
    seq(|issues|, k requires 0 <= k < |issues| => issues[k].url)
  }

  /**
   * The value `address` holds while the ID at offset `k` is handled: set by
   * that ID's fetch when it returns, otherwise left over from the latest
   * earlier ID whose fetch returned; `None` when no fetch has returned yet.
   */
  function AddressWhile(c: Criteria, site: Site, k: nat): Option<Option<string>>
    decreases k
  {
    match site.titleOf(PageUrl(c.idStart + k))
    case Returned(title) => Some(VerifyLocation(title, c.location).address)
    case Raised(_) => if k == 0 then None else AddressWhile(c, site, k - 1)
  }

  /**
   * The issue recorded for a failing ID. (`address` unassigned only happens
   * in a run that fails as a whole, which records nothing.)
   */
  function IssueFor(c: Criteria, site: Site, id: int): Issue {
    var address := if id < c.idStart then None else AddressWhile(c, site, id - c.idStart);
    Issue(if address.Some? then address.value else None, PageUrl(id))
  }

  /** The issues recorded for a list of failing IDs. */
  function IssuesFor(c: Criteria, site: Site, ids: seq<int>): seq<Issue> {
    seq(|ids|, k requires 0 <= k < |ids| => IssueFor(c, site, ids[k]))
  }

  /** `address` is assigned for good once the first ID's fetch has returned. */
  lemma {:induction false} AddressBoundAfterFirstFetch(c: Criteria, site: Site, k: nat)
    requires site.titleOf(PageUrl(c.idStart)).Returned?
    ensures AddressWhile(c, site, k).Some?
    decreases k
  {
    if k == 0 {
      assert c.idStart + k == c.idStart;
    } else if site.titleOf(PageUrl(c.idStart + k)).Raised? {
      AddressBoundAfterFirstFetch(c, site, k - 1);
    }
  }

  /** The loop state after the first `n` IDs, described ID by ID. */
  predicate PerId(c: Criteria, site: Site, s: Scan, n: nat) {
    && s.potential == Urls(IdsWhere(c, site, n, Matched))
    && s.issues == IssuesFor(c, site, IdsWhere(c, site, n, Failed))
    && s.address == (if n == 0 then None else AddressWhile(c, site, n - 1))
  }

  /**
   * One iteration's `address`: it raises only for the first ID of the
   * range, when that ID's fetch raises, and otherwise leaves `address` as
   * `AddressWhile` says.
   */
  lemma VisitAddress(c: Criteria, site: Site, s: Scan, n: nat)
    requires s.address == (if n == 0 then None else AddressWhile(c, site, n - 1))
    requires n == 0 || site.titleOf(PageUrl(c.idStart)).Returned?
    ensures Visit(c, site, s, c.idStart + n).Raised? <==> n == 0 && site.titleOf(PageUrl(c.idStart)).Raised?
    ensures Visit(c, site, s, c.idStart + n).Raised? ==> Visit(c, site, s, c.idStart + n) == Raised(OtherError)
    ensures Visit(c, site, s, c.idStart + n).Returned? ==> Visit(c, site, s, c.idStart + n).value.address == AddressWhile(c, site, n)
  {
    if n > 0 {
      AddressBoundAfterFirstFetch(c, site, n - 1);
    }
    var address := AddressWhile(c, site, n);
    assert address == match site.titleOf(PageUrl(c.idStart + n))
      case Returned(title) => Some(VerifyLocation(title, c.location).address)
      case Raised(_) => s.address;
  }

  /** One iteration extends the two lists by the ID it handles, as its fate says. */
  lemma VisitLists(c: Criteria, site: Site, s: Scan, n: nat)
    requires PerId(c, site, s, n)
    ensures Visit(c, site, s, c.idStart + n).Returned? ==>
      && Visit(c, site, s, c.idStart + n).value.potential == Urls(IdsWhere(c, site, n + 1, Matched))
      && Visit(c, site, s, c.idStart + n).value.issues == IssuesFor(c, site, IdsWhere(c, site, n + 1, Failed))
  {
    var id := c.idStart + n;
    var url := PageUrl(id);
    var fate := FateOf(c, site, id);
    var matched := IdsWhere(c, site, n, Matched);
    var failed := IdsWhere(c, site, n, Failed);
    assert IdsWhere(c, site, n + 1, Matched) == matched + (if fate == Matched then [id] else []);
    assert IdsWhere(c, site, n + 1, Failed) == failed + (if fate == Failed then [id] else []);
    var address := AddressWhile(c, site, n);
    assert address == match site.titleOf(url)
      case Returned(title) => Some(VerifyLocation(title, c.location).address)
      case Raised(_) => s.address;
    match fate
    case Skipped =>
      assert Visit(c, site, s, id) == Returned(s.(address := address));
    case Matched =>
      assert Visit(c, site, s, id) == Returned(Scan(s.potential + [url], s.issues, address));
      assert Urls(matched + [id]) == Urls(matched) + [url];
    case Failed =>
      if address.Some? {
        assert Visit(c, site, s, id) == Returned(Scan(s.potential, s.issues + [Issue(address.value, url)], address));
        assert IssueFor(c, site, id) == Issue(address.value, url);
        assert IssuesFor(c, site, failed + [id]) == IssuesFor(c, site, failed) + [IssueFor(c, site, id)];
      } else {
        assert Visit(c, site, s, id) == Raised(OtherError);
      }
  }

  /** One more ID keeps the ID-by-ID description of the loop state. */
  lemma ScannedStep(c: Criteria, site: Site, n: nat)
    requires Scanned(c, site, n).Returned? && PerId(c, site, Scanned(c, site, n).value, n)
    requires n == 0 || site.titleOf(PageUrl(c.idStart)).Returned?
    ensures Scanned(c, site, n + 1).Raised? <==> n == 0 && site.titleOf(PageUrl(c.idStart)).Raised?
    ensures Scanned(c, site, n + 1).Raised? ==> Scanned(c, site, n + 1) == Raised(OtherError)
    ensures Scanned(c, site, n + 1).Returned? ==> PerId(c, site, Scanned(c, site, n + 1).value, n + 1)
  {
    var s := Scanned(c, site, n).value;
    assert Scanned(c, site, n + 1) == Visit(c, site, s, c.idStart + n);
    VisitAddress(c, site, s, n);
    VisitLists(c, site, s, n);
  }

  /**
   * The loop, ID by ID: the run fails exactly when the first fetch raises;
   * otherwise `potential` holds the URLs of the matched IDs and
   * `issue_addresses` an entry for each failed ID, both in the order the
   * IDs were visited, and `address` is what the last ID left in it.
   */
  lemma {:induction false} ScanIsPerId(c: Criteria, site: Site, n: nat)
    ensures Scanned(c, site, n).Raised? <==> n > 0 && site.titleOf(PageUrl(c.idStart)).Raised?
    ensures Scanned(c, site, n).Raised? ==> Scanned(c, site, n) == Raised(OtherError)
    ensures Scanned(c, site, n).Returned? ==> PerId(c, site, Scanned(c, site, n).value, n)
    decreases n
  {
    if n > 0 {
      var m := n - 1;
      ScanIsPerId(c, site, m);
      if Scanned(c, site, m).Returned? {
        ScannedStep(c, site, m);
      } else {
        assert Scanned(c, site, n) == Scanned(c, site, m);
      }
    }
  }

  /** Which IDs `IdsWhere` lists: exactly those of the first `n` with that fate. */
  lemma {:induction false} IdsWhereExactly(c: Criteria, site: Site, n: nat, fate: Fate)
    ensures forall id :: id in IdsWhere(c, site, n, fate) <==>
      c.idStart <= id < c.idStart + n && FateOf(c, site, id) == fate
    decreases n
  {
    if n > 0 {
      IdsWhereExactly(c, site, n - 1, fate);
      var ids := IdsWhere(c, site, n - 1, fate);
      var id := c.idStart + n - 1;
      assert forall x :: x in ids + [id] <==> x in ids || x == id;
    }
  }

  /** `IdsWhere` lists IDs of the range in increasing order, each once. */
  lemma {:induction false} IdsWhereIncreasing(c: Criteria, site: Site, n: nat, fate: Fate)
    ensures forall i | 0 <= i < |IdsWhere(c, site, n, fate)| ::
      c.idStart <= IdsWhere(c, site, n, fate)[i] < c.idStart + n
    ensures forall i, j | 0 <= i < j < |IdsWhere(c, site, n, fate)| ::
      IdsWhere(c, site, n, fate)[i] < IdsWhere(c, site, n, fate)[j]
    decreases n
  {
    if n > 0 {
      IdsWhereIncreasing(c, site, n - 1, fate);
      var ids := IdsWhere(c, site, n - 1, fate);
      var id := c.idStart + n - 1;
      var all := IdsWhere(c, site, n, fate);
      assert all == ids + (if FateOf(c, site, id) == fate then [id] else []);
      assert forall i | 0 <= i < |ids| :: all[i] == ids[i];
      assert |all| > |ids| ==> all[|ids|] == id;
      forall i, j | 0 <= i < j < |all|
        ensures all[i] < all[j]
      {
        if j < |ids| {
          assert all[i] == ids[i] && all[j] == ids[j];
        } else {
          assert all[i] == ids[i] < id;
        }
      }
    }
  }

  /** Each ID has one fate, so the matched and failed IDs together are at most the IDs visited. */
  lemma {:induction false} FatesShareRange(c: Criteria, site: Site, n: nat)
    ensures |IdsWhere(c, site, n, Matched)| + |IdsWhere(c, site, n, Failed)| <= n
    decreases n
  {
    if n > 0 {
      FatesShareRange(c, site, n - 1);
    }
  }

  /** A page URL is among the URLs of a list of IDs exactly when its ID is in the list. */
  lemma UrlsMember(ids: seq<int>, id: int)
    ensures PageUrl(id) in Urls(ids) <==> id in ids
  {
    if PageUrl(id) in Urls(ids) {
      var k :| 0 <= k < |ids| && Urls(ids)[k] == PageUrl(id);
      PageUrlInjective(ids[k], id);
    }
    if id in ids {
      var k :| 0 <= k < |ids| && ids[k] == id;
      assert Urls(ids)[k] == PageUrl(id);
    }
  }

  // ---------------------------------------------------------------------
  // What a run reports
  // ---------------------------------------------------------------------

  /**
   * The run fails as a whole exactly when the range is not empty and the
   * first ID's fetch raises; every later failure is recorded and the scan
   * goes on.
   */
  lemma RunFailsOnlyOnFirstFetch(c: Criteria, site: Site)
    ensures Search(c, site).Raised? <==> Span(c) > 0 && site.titleOf(PageUrl(c.idStart)).Raised?
  {
    ScanIsPerId(c, site, Span(c));
  }

  /**
   * `potential` holds, in increasing ID order, the URLs of exactly the IDs
   * of the range whose pages matched.
   */
  lemma MatchesAreMatchedIds(c: Criteria, site: Site)
    requires Search(c, site).Returned?
    ensures Search(c, site).value.potential == Urls(IdsWhere(c, site, Span(c), Matched))
    ensures forall id :: PageUrl(id) in Search(c, site).value.potential <==>
      c.idStart <= id < c.idStart + Span(c) && FateOf(c, site, id) == Matched
  {
    ScanIsPerId(c, site, Span(c));
    IdsWhereExactly(c, site, Span(c), Matched);
    forall id {
      UrlsMember(IdsWhere(c, site, Span(c), Matched), id);
    }
  }

  /**
   * `issue_addresses` holds one entry for exactly the IDs of the range whose
   * handling raised, in increasing ID order, each with the value `address`
   * had at that point.
   */
  lemma IssuesAreFailedIds(c: Criteria, site: Site)
    requires Search(c, site).Returned?
    ensures Search(c, site).value.issues == IssuesFor(c, site, IdsWhere(c, site, Span(c), Failed))
    ensures IssueUrls(Search(c, site).value.issues) == Urls(IdsWhere(c, site, Span(c), Failed))
    ensures forall id :: PageUrl(id) in IssueUrls(Search(c, site).value.issues) <==>
      c.idStart <= id < c.idStart + Span(c) && FateOf(c, site, id) == Failed
  {
    ScanIsPerId(c, site, Span(c));
    var ids := IdsWhere(c, site, Span(c), Failed);
    assert IssueUrls(IssuesFor(c, site, ids)) == Urls(ids);
    IdsWhereExactly(c, site, Span(c), Failed);
    forall id {
      UrlsMember(ids, id);
    }
  }

  /** No URL is both a match and an issue. */
  lemma NoUrlInBothLists(c: Criteria, site: Site)
    requires Search(c, site).Returned?
    ensures forall u | u in Search(c, site).value.potential :: u !in IssueUrls(Search(c, site).value.issues)
  {
    MatchesAreMatchedIds(c, site);
    IssuesAreFailedIds(c, site);
    IdsWhereIncreasing(c, site, Span(c), Matched);
    var matched := IdsWhere(c, site, Span(c), Matched);
    forall u | u in Search(c, site).value.potential
      ensures u !in IssueUrls(Search(c, site).value.issues)
    {
      var k :| 0 <= k < |matched| && Urls(matched)[k] == u;
      assert u == PageUrl(matched[k]);
    }
  }

  /** No entry of `urls` is repeated. */
  predicate NoRepeats(urls: seq<string>) {
    forall i, j | 0 <= i < j < |urls| :: urls[i] != urls[j]
  }

  /** Strictly increasing IDs have pairwise different page URLs. */
  lemma UrlsOfIncreasingIds(ids: seq<int>)
    requires forall i, j | 0 <= i < j < |ids| :: ids[i] < ids[j]
    ensures NoRepeats(Urls(ids))
  {
    forall i, j | 0 <= i < j < |ids|
      ensures Urls(ids)[i] != Urls(ids)[j]
    {
      if Urls(ids)[i] == Urls(ids)[j] {
        PageUrlInjective(ids[i], ids[j]);
      }
    }
  }

  /** Two repeat-free lists with no entry in common make a repeat-free list. */
  lemma NoRepeatsConcat(a: seq<string>, b: seq<string>)
    requires NoRepeats(a) && NoRepeats(b)
    requires forall u | u in a :: u !in b
    ensures NoRepeats(a + b)
  {
    var ab := a + b;
    forall i, j | 0 <= i < j < |ab|
      ensures ab[i] != ab[j]
    {
      if j < |a| {
        assert ab[i] == a[i] && ab[j] == a[j];
      } else if i >= |a| {
        assert ab[i] == b[i - |a|] && ab[j] == b[j - |a|];
      } else {
        assert ab[i] == a[i] && ab[j] == b[j - |a|];
        assert ab[i] in a && ab[j] in b;
      }
    }
  }

  /**
   * Each ID adds at most one entry to the two lists together: no URL is
   * recorded twice, and there are no more entries than IDs in the range.
   */
  lemma AtMostOneRecordPerId(c: Criteria, site: Site)
    requires Search(c, site).Returned?
    ensures NoRepeats(Search(c, site).value.potential + IssueUrls(Search(c, site).value.issues))
    ensures |Search(c, site).value.potential| + |Search(c, site).value.issues| <= Span(c)
  {
    ScanIsPerId(c, site, Span(c));
    FatesShareRange(c, site, Span(c));
    MatchesAreMatchedIds(c, site);
    IssuesAreFailedIds(c, site);
    NoUrlInBothLists(c, site);
    IdsWhereIncreasing(c, site, Span(c), Matched);
    IdsWhereIncreasing(c, site, Span(c), Failed);
    UrlsOfIncreasingIds(IdsWhere(c, site, Span(c), Matched));
    UrlsOfIncreasingIds(IdsWhere(c, site, Span(c), Failed));
    NoRepeatsConcat(Search(c, site).value.potential, IssueUrls(Search(c, site).value.issues));
  }

  /** Every failing ID of the range has its issue in the report. */
  lemma IssueRecorded(c: Criteria, site: Site, id: int)
    requires Search(c, site).Returned?
    requires c.idStart <= id < c.idStart + Span(c)
    requires FateOf(c, site, id) == Failed
    ensures IssueFor(c, site, id) in Search(c, site).value.issues
  {
    IssuesAreFailedIds(c, site);
    IdsWhereExactly(c, site, Span(c), Failed);
    var ids := IdsWhere(c, site, Span(c), Failed);
    assert id in ids;
    var k :| 0 <= k < |ids| && ids[k] == id;
    assert Search(c, site).value.issues[k] == IssueFor(c, site, id);
  }

  /**
   * A fetched page outside the area is recorded as an issue with no
   * address: `verify_location` leaves `address` as `None`, and the
   * `'Sample Tour'` test on it raises.
   */
  lemma OutOfAreaIsIssueWithoutAddress(c: Criteria, site: Site, id: int, title: Option<string>)
    requires Search(c, site).Returned?
    requires c.idStart <= id < c.idStart + Span(c)
    requires site.titleOf(PageUrl(id)) == Returned(title)
    requires !VerifyLocation(title, c.location).inArea
    ensures Issue(None, PageUrl(id)) in Search(c, site).value.issues
  {
    assert FateOf(c, site, id) == Failed;
    assert IssueFor(c, site, id) == Issue(None, PageUrl(id));
    IssueRecorded(c, site, id);
  }

  /**
   * A fetched page in the area whose address holds "Sample Tour" is
   * skipped: it is neither a match nor an issue.
   */
  lemma SampleTourIsSkipped(c: Criteria, site: Site, id: int, title: Option<string>)
    requires Search(c, site).Returned?
    requires site.titleOf(PageUrl(id)) == Returned(title)
    requires VerifyLocation(title, c.location).inArea
    requires Contains(VerifyLocation(title, c.location).address.value, SAMPLE_TOUR)
    ensures PageUrl(id) !in Search(c, site).value.potential
    ensures PageUrl(id) !in IssueUrls(Search(c, site).value.issues)
  {
    MatchesAreMatchedIds(c, site);
    IssuesAreFailedIds(c, site);
  }

  /**
   * The handler reuses a stale address: when an ID's fetch raises right
   * after an ID whose fetch returned, its issue carries that earlier
   * page's address.
   */
  lemma FailedFetchKeepsPreviousAddress(c: Criteria, site: Site, id: int, title: Option<string>)
    requires Search(c, site).Returned?
    requires c.idStart < id < c.idStart + Span(c)
    requires site.titleOf(PageUrl(id - 1)) == Returned(title)
    requires site.titleOf(PageUrl(id)).Raised?
    ensures Issue(VerifyLocation(title, c.location).address, PageUrl(id)) in Search(c, site).value.issues
  {
    var k := id - c.idStart;
    assert AddressWhile(c, site, k) == AddressWhile(c, site, k - 1);
    assert c.idStart + (k - 1) == id - 1;
    assert AddressWhile(c, site, k - 1) == Some(VerifyLocation(title, c.location).address);
    assert IssueFor(c, site, id) == Issue(VerifyLocation(title, c.location).address, PageUrl(id));
    assert FateOf(c, site, id) == Failed;
    IssueRecorded(c, site, id);
  }

  /**
   * An ID matches exactly when its page is fetched, names the location in
   * its title, its address lacks "Sample Tour", it is suitable, and Redfin
   * does not list it.
   */
  lemma MatchedMeans(c: Criteria, site: Site, id: int)
    ensures FateOf(c, site, id) == Matched <==>
      var url := PageUrl(id);
      && site.titleOf(url).Returned?
      && site.titleOf(url).value.Some?
      && Contains(site.titleOf(url).value.value, c.location)
      && var address := VerifyLocation(site.titleOf(url).value, c.location).address.value;
      && !Contains(address, SAMPLE_TOUR)
      && DetermineIfSuitable(site.sessionOf(url), c.beds, c.price) == Returned(true)
      && AddressIsListed(site.redfinOf(address)) == Returned(false)
  {
  }

  /**
   * An ID becomes an issue exactly when its fetch raises, its page is
   * outside the area, or, for an in-area page without "Sample Tour", the
   * suitability check raises or, for a suitable page, Redfin's check does.
   */
  lemma FailedMeans(c: Criteria, site: Site, id: int)
    ensures FateOf(c, site, id) == Failed <==>
      var url := PageUrl(id);
      || site.titleOf(url).Raised?
      || (site.titleOf(url).Returned? && !VerifyLocation(site.titleOf(url).value, c.location).inArea)
      || (&& site.titleOf(url).Returned?
          && VerifyLocation(site.titleOf(url).value, c.location).inArea
          && var address := VerifyLocation(site.titleOf(url).value, c.location).address.value;
          && !Contains(address, SAMPLE_TOUR)
          && var suitable := DetermineIfSuitable(site.sessionOf(url), c.beds, c.price);
          && (suitable.Raised? || (suitable == Returned(true) && AddressIsListed(site.redfinOf(address)).Raised?)))
  {
  }

  /**
   * Short-circuiting: for a page outside the area, neither the browser
   * session nor Redfin has any say in the outcome.
   */
  lemma OutOfAreaIgnoresLaterStages(c: Criteria, site: Site, other: Site, id: int)
    requires site.titleOf(PageUrl(id)) == other.titleOf(PageUrl(id))
    requires site.titleOf(PageUrl(id)).Returned?
    requires !VerifyLocation(site.titleOf(PageUrl(id)).value, c.location).inArea
    ensures FateOf(c, site, id) == FateOf(c, other, id) == Failed
  {
  }

  /**
   * Three IDs from 5000 with "Austin, TX": the first out of the area, the
   * second suitable but listed, the third suitable and unlisted. The third
   * is the one match, and the first is recorded as an issue without an
   * address.
   */
  lemma ThreeIdScenario(site: Site, beds: int, price: real, t0: string, t1: string, t2: string)
    requires site.titleOf(PageUrl(5000)) == Returned(Some(t0)) && !Contains(t0, "Austin, TX")
    requires site.titleOf(PageUrl(5001)) == Returned(Some(t1)) && Contains(t1, "Austin, TX")
    requires site.titleOf(PageUrl(5002)) == Returned(Some(t2)) && Contains(t2, "Austin, TX")
    requires var a1 := VerifyLocation(Some(t1), "Austin, TX").address.value;
      && !Contains(a1, SAMPLE_TOUR)
      && DetermineIfSuitable(site.sessionOf(PageUrl(5001)), beds, price) == Returned(true)
      && AddressIsListed(site.redfinOf(a1)) == Returned(true)
    requires var a2 := VerifyLocation(Some(t2), "Austin, TX").address.value;
      && !Contains(a2, SAMPLE_TOUR)
      && DetermineIfSuitable(site.sessionOf(PageUrl(5002)), beds, price) == Returned(true)
      && AddressIsListed(site.redfinOf(a2)) == Returned(false)
    ensures Search(Criteria(beds, "Austin, TX", price, 5000, 3), site) ==
      Returned(Report([PageUrl(5002)], [Issue(None, PageUrl(5000))]))
  {
    var c := Criteria(beds, "Austin, TX", price, 5000, 3);
    var url0, url1, url2 := PageUrl(5000), PageUrl(5001), PageUrl(5002);
    assert VerifyLocation(Some(t0), c.location).address == None;
    assert FateOf(c, site, 5000) == Failed;
    assert FateOf(c, site, 5001) == Skipped;
    assert FateOf(c, site, 5002) == Matched;
    var s0 := Scan([], [], None);
    var s1 := Scan([], [Issue(None, url0)], Some(None));
    var s2 := s1.(address := Some(VerifyLocation(Some(t1), c.location).address));
    var s3 := Scan([url2], s1.issues, Some(VerifyLocation(Some(t2), c.location).address));
    assert Scanned(c, site, 0) == Returned(s0);
    assert s0.issues + [Issue(None, url0)] == s1.issues;
    assert s2.potential + [url2] == s3.potential;
    assert Visit(c, site, s0, 5000) == Returned(s1);
    assert Scanned(c, site, 1) == Returned(s1);
    assert Visit(c, site, s1, 5001) == Returned(s2);
    assert Scanned(c, site, 2) == Returned(s2);
    assert Visit(c, site, s2, 5002) == Returned(s3);
    assert Scanned(c, site, 3) == Returned(s3);
  }
}
