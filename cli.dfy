/**
 * The command line's location option (cli.py): `CityStateParamType.convert`
 * turns "city, state" into "city, ST", resolving a full state name through a
 * name-to-abbreviation table. The table's contents are not part of this
 * model; it is a parameter.
 */
module Cli {
  import opened Wrappers
  import opened Strings

  /** Why `convert` rejects a location string (its `self.fail` usage errors). */
  datatype CliError = MalformedLocation | UnknownState(state: string)

  /** The message `self.fail` reports for each rejection. */
  function Message(e: CliError): string {
    match e
    case MalformedLocation => "Location string should be provided as city, state."
    case UnknownState(state) => state + " is not a valid state."
  }

  /** `_get_state_abbrev`: look a full state name up in the table, or fail naming it. */
  function StateAbbrev(states: map<string, string>, state: string): (r: Result<string, CliError>)
    ensures r.Ok? <==> state in states
    ensures r.Ok? ==> r.value == states[state]
    ensures r.Err? ==> r.error == UnknownState(state) && Message(r.error) == state + " is not a valid state."
  {
    if state in states then Ok(states[state]) else Err(UnknownState(state))
  }

  /**
   * `convert`: drop every space, split at commas into exactly a city and a
   * state, keep a two-character state as it is and resolve any other one
   * through the table, and answer "city, ST".
   */
  function Convert(value: string, states: map<string, string>): Result<string, CliError> {
    var pieces := Split(DeleteAll(value, ' '), ',');
    if |pieces| != 2 then Err(MalformedLocation)
    else
      var city, state := pieces[0], pieces[1];
      var stateAbbrev :- if |state| == 2 then Ok(state) else StateAbbrev(states, state);
      Ok(city + ", " + stateAbbrev)
  }

  /** A location is rejected as malformed exactly when, without its spaces, it does not hold exactly one comma. */
  lemma ConvertRejectsMalformed(value: string, states: map<string, string>)
    ensures Convert(value, states) == Err(MalformedLocation) <==> multiset(DeleteAll(value, ' '))[','] != 1
  {
    SplitCount(DeleteAll(value, ' '), ',');
  }

  /**
   * A location that reads "city,state" once its spaces are gone gives
   * "city, state" for a two-character state, "city, ABBREV" for a state
   * name in the table, and names the state as invalid otherwise.
   */
  lemma ConvertAccepts(value: string, states: map<string, string>, city: string, state: string)
    requires DeleteAll(value, ' ') == city + "," + state
    requires ',' !in city && ',' !in state
    ensures Convert(value, states) ==
      if |state| == 2 then Ok(city + ", " + state)
      else if state in states then Ok(city + ", " + states[state])
      else Err(UnknownState(state))
  {
    assert Join([city, state], ',') == city + "," + state;
    SplitJoin([city, state], ',');
  }

  /**
   * Spaces inside the city are dropped too: "San Antonio, TX" becomes
   * "SanAntonio, TX", whatever the table holds.
   */
  lemma ConvertDropsSpaceInCity(first: string, second: string, state: string, states: map<string, string>)
    requires ' ' !in first && ' ' !in second && ' ' !in state
    requires ',' !in first && ',' !in second && ',' !in state
    requires |state| == 2
    ensures Convert(first + " " + second + ", " + state, states) == Ok(first + second + ", " + state)
  {
    var stripped := (first + second) + "," + state;
    assert stripped == first + (second + ([','] + state));
    var tail := [','] + ([' '] + state);
    var value := first + ([' '] + (second + tail));
    assert first + " " + second + ", " + state == value;
    DeleteAllCons(' ', state, ' ');
    DeleteAllCons(',', [' '] + state, ' ');
    DeleteAllConcat(second, tail, ' ');
    DeleteAllCons(' ', second + tail, ' ');
    DeleteAllConcat(first, [' '] + (second + tail), ' ');
    assert DeleteAll(value, ' ') == stripped;
    ConvertAccepts(value, states, first + second, state);
  }

  /** Where two strings first hold `sep`, they agree up to it and after it. */
  lemma FirstSeparatorUnique(x: string, y: string, x': string, y': string, sep: char)
    requires x + [sep] + y == x' + [sep] + y'
    requires sep !in x && sep !in x'
    ensures x == x' && y == y'
  {
    var s := x + [sep] + y;
    assert s[|x|] == sep && s[|x'|] == sep;
    assert |x| == |x'|;
    assert x == s[..|x|] == x';
    assert y == s[|x| + 1..] == y';
  }

  /** The city part of a converted location holds no space. */
  lemma ConvertedCityHasNoSpace(value: string, states: map<string, string>, city: string, abbrev: string)
    requires Convert(value, states) == Ok(city + ", " + abbrev)
    requires ',' !in city
    ensures ' ' !in city
  {
    var stripped := DeleteAll(value, ' ');
    var city0, state0 := SplitInTwo(stripped, ',');
    assert ' ' !in city0;
    assert Convert(value, states) == Ok(city0 + ", " + (if |state0| == 2 then state0 else states[state0]));
    var abbrev0 := if |state0| == 2 then state0 else states[state0];
    assert city0 + ", " + abbrev0 == city0 + [','] + (" " + abbrev0);
    assert city + ", " + abbrev == city + [','] + (" " + abbrev);
    FirstSeparatorUnique(city, " " + abbrev, city0, " " + abbrev0, ',');
  }

  /**
   * Converting an already converted location changes nothing, as long as
   * the abbreviation it ended with is two characters with neither a comma
   * nor a space.
   */
  lemma ConvertIdempotent(value: string, states: map<string, string>, city: string, abbrev: string)
    requires Convert(value, states) == Ok(city + ", " + abbrev)
    requires ',' !in city
    requires |abbrev| == 2 && ' ' !in abbrev && ',' !in abbrev
    ensures Convert(city + ", " + abbrev, states) == Ok(city + ", " + abbrev)
  {
    ConvertedCityHasNoSpace(value, states, city, abbrev);
    StripConverted(city, abbrev);
    ConvertAccepts(city + ", " + abbrev, states, city, abbrev);
  }

  /** Dropping the spaces of "city, ST" leaves "city,ST" when neither part holds a space. */
  lemma StripConverted(city: string, abbrev: string)
    requires ' ' !in city && ' ' !in abbrev
    ensures DeleteAll(city + ", " + abbrev, ' ') == city + "," + abbrev
  {
    DeleteAllConcat(city + ", ", abbrev, ' ');
    DeleteAllConcat(city, ", ", ' ');
    assert DeleteAll(", ", ' ') == ",";
  }
}
