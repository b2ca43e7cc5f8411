# seetheproperty-scraper, modelled in Dafny

The scraper walks a range of listing IDs on seetheproperty.com. For each
ID it builds the page URL from `BASE_URL` and reads the page title. It keeps
pages whose title names the wanted location. It opens the listing in a
browser session and checks five fields: property type, listing type, asking
price, bedrooms and size. It then asks Redfin whether the address is on the
market. The URLs of suitable, off-market pages are collected in `potential`.
Every ID whose handling raised adds an `(address, url)` entry to
`issue_addresses`. The command-line front end normalises the `--loc`
option to `"city, ST"` before the search runs.

The model keeps this decision logic and abstracts the I/O:

- `wrappers.dfy` (`Wrappers`): `Option` and `Result`.
- `strings.dfy` (`Strings`): the Python `str` operations the code uses.
  - `sub in s` is `Contains`.
  - `s.split(sep)` and `sep.join(pieces)` are `Split` and `Join`.
  - `s.replace(c, '')` is `DeleteAll`.
  - `'{}'.format(i)` is `IntToDecimal`.
  - Lemmas relate these operations to one another.
- `cli.dfy` (`Cli`): `CityStateParamType.convert` and `_get_state_abbrev`.
  - A `click` failure is a `Result` error carrying its message.
  - The state-name table is a `map` parameter.
  - Spaces are removed from the whole value before the lookup. So a
    multi-word state name is looked up without its spaces.
- `house.dfy` (`House`): `BASE_URL`, `verify_location`, the five
  `_determine_*` checks, `determine_if_suitable` and `address_is_listed`.
  - Python exceptions are modelled as an `Outcome`: `Returned(value)` or
    `Raised(exception)`. The exception is either Selenium's missing element
    or any other error.
  - A page field is the outcome of its element lookup: after the retries
    for the five lookups wrapped in `@retry`, and after the single try
    for the square-feet lookup, which has no `@retry`.
  - The Redfin answers form a record with optional fields.
- `search.dfy` (`Search`): `run_house_search`.
  - The method `RunHouseSearch` is the loop, with its two accumulators and
    the `address` variable held in one `Scan` value. The method `HandleId`
    is one pass of the loop body: the `try` block and its handler.
  - The web site, the browser session and the Redfin client are one `Site`
    value. It holds three functions: URL to title, URL to listing fields,
    address to Redfin answers.
  - The method is proved equal to the function `Search`. Its properties are
    then proved as lemmas about `Search`.

The model follows the code as written, including three behaviours a reader
might not expect:

- `_determine_size`'s lot-size helper has no `return`. So a page that
  shows a lot size makes `None.split(' ')` raise. That exception is not
  caught there, and the ID becomes an issue. Only a page without a lot size
  passes the outdoor check, and the 0.13-acre comparison is never reached.
- For a page outside the area, `verify_location` returns `address = None`.
  The `'Sample Tour' in address` test then raises. So every out-of-area ID
  is recorded as the issue `(None, url)`, not silently skipped. A reader
  might expect such an ID to be skipped; the code records it as an issue,
  and the model follows the code (`ThreeIdScenario`).
- The handler records whatever `address` last held, which may come from an
  earlier ID. If the very first fetch raises, `address` was never assigned.
  The handler itself then raises (`UnboundLocalError`), and the whole run
  fails.

## Model

| member | source | states |
|---|---|---|
| Strings.ContainsIffOccurs | house.py:40 | `sub in s` holds exactly when `sub` occurs at some position of `s` |
| Strings.Split | house.py:44 | `split` always yields at least one piece |
| Strings.SplitCount | cli.py:20 | `split` yields one more piece than the string has separators |
| Strings.SplitPiecesFree | house.py:44 | no piece of `split` holds the separator |
| Strings.JoinSplit | house.py:44-45 | joining the pieces of `split` with the separator gives the string back |
| Strings.SplitJoin | cli.py:20 | splitting a join of separator-free pieces gives those pieces back |
| Strings.SplitInTwo | cli.py:20 | a string that splits into two pieces is the first piece, the separator, then the second, neither holding the separator |
| Strings.HeadOfSplit | house.py:45 | joining the first `k` pieces gives a prefix of the string that holds `k - 1` separators; it is followed by a separator, or it is the whole string when `k` is the piece count |
| Strings.DeleteAll | cli.py:20 | `replace(c, '')` leaves no `c`, and leaves a string without `c` unchanged |
| Strings.DeleteAllKeepsOthers | cli.py:20 | `replace(c, '')` keeps every other character as often as the input holds it |
| Strings.DeleteAllConcat | cli.py:20 | removing a character from a concatenation removes it from each part |
| Strings.NatToDecimal | house.py:172 | formatting a natural number gives a non-empty string of digits without a leading zero |
| Strings.DecimalRoundTrip | house.py:172 | reading back the digits of a formatted natural number gives the number |
| Strings.IntToDecimalInjective | house.py:172 | different integers format to different strings, negative ones included |
| House.PageUrl | house.py:11 | `BASE_URL.format(i)`; it has no contract of its own, and `PageUrlInjective` shows it gives each listing ID its own URL |
| House.PageUrlInjective | house.py:11 | different listing IDs give different page URLs |
| House.VerifyLocation | house.py:31-47 | no title gives `(False, None)`; otherwise the flag holds exactly when the location is a substring of the title; an address is given exactly when the flag holds |
| House.AddressIsTitleHead | house.py:44-45 | a matched address is a prefix of the title holding `min(commas, 2)` commas; it is the whole title when the title has at most two commas, and is otherwise followed by a comma in the title |
| House.DetermineType | house.py:90-102 | passes exactly for "Single Family" or a missing element; raises exactly when the lookup fails otherwise; a missing element never escapes as an exception |
| House.DetermineForSale | house.py:105-118 | passes exactly for "For Sale" or a missing element; raises exactly when the lookup fails otherwise; a missing element never escapes as an exception |
| House.DeterminePrice | house.py:121-135 | fails exactly when a price is shown and is at least the limit; raises exactly when the lookup or the parse fails; a missing element never escapes as an exception |
| House.DetermineBeds | house.py:137-150 | fails exactly when a bedroom count is shown and is at most the asked-for count; raises exactly when the lookup or the parse fails; a missing element never escapes as an exception |
| House.DetermineSize | house.py:61-87 | a shown lot size always raises; raises exactly when a lot size is shown, its lookup fails otherwise, or the interior lookup or parse fails; passes exactly when no lot size is shown and the interior is missing or strictly over 1500 square feet, so a shown interior of at most 1500 fails; a missing element never escapes as an exception |
| House.DetermineIfSuitable | house.py:153-165 | `determine_if_suitable`; it has no contract of its own: `SuitableIffAllPass` says when it returns true and `SuitableRaisesIff` when it raises |
| House.SuitableIffAllPass | house.py:153-165 | a page is suitable exactly when the session opened and each of the five checks passes |
| House.SuitableRaisesIff | house.py:153-165 | the suitability check raises exactly when opening the session raises or one of the five checks raises |
| House.BarePageIsSuitable | house.py:153-165 | a page showing none of the five fields is suitable, because every missing element passes |
| House.ShownLotSizeRaises | house.py:64-73 | a page that shows its lot size is never judged suitable or unsuitable: the check raises |
| House.ThresholdsAreStrict | house.py:83-143 | a price equal to the limit, a bedroom count equal to the asked-for count and exactly 1500 square feet all fail |
| House.AddressIsListed | house.py:16-28 | listed exactly when every Redfin answer is present and `isActivish` is true; returns exactly when the exact match and property ID are present and the AVM flag is present whenever a listing ID is |
| House.NoListingIdIsUnlisted | house.py:22-26 | without a listing ID the address is unlisted, whatever the AVM flag says |
| Search.FateOf | house.py:176-192 | how the `try` block ends for one ID; it has no contract of its own: `MatchedMeans` and `FailedMeans` say exactly when it matches and when it fails |
| Search.Visit | house.py:176-192 | one loop iteration, the `try` block and its handler; it has no contract of its own: `VisitAddress` and `VisitLists` say what it does to `address` and to the two lists, and when it raises |
| Search.Scanned | house.py:171-192 | the loop state after the first `n` IDs; it has no contract of its own: `ScanIsPerId` describes it ID by ID |
| Search.Handled | house.py:171-192 | the loop state once the ID at offset `k` is handled; it has no contract of its own: it is `Scanned` one ID further |
| Search.Search | house.py:168-192 | the whole run; it has no contract of its own: `RunFailsOnlyOnFirstFetch`, `MatchesAreMatchedIds`, `IssuesAreFailedIds` and `AtMostOneRecordPerId` describe its result |
| Search.HandleId | house.py:176-192 | from the state after `n` IDs, one pass of the loop body yields the state after `n + 1` IDs (`next == Scanned(c, site, n + 1)`), raising exactly where the run does |
| Search.VisitAddress | house.py:177-192 | an iteration raises only for the first ID, when its fetch raises, and then with the handler's error; otherwise `address` afterwards is what the ID-by-ID description says |
| Search.VisitLists | house.py:176-192 | an iteration appends the ID's URL to `potential` when it matches and its issue to `issue_addresses` when it fails, and nothing otherwise |
| Search.RunHouseSearch | house.py:168-192 | the loop returns what `Search` describes: each ID of the range visited once, in increasing order, each iteration as in `Visit` |
| Search.ScannedStaysRaised | house.py:191-192 | once the handler itself has raised, the run stays failed |
| Search.ScanIsPerId | house.py:171-192 | after `n` IDs: the run has failed exactly when the first fetch raised; otherwise `potential` and `issue_addresses` list the matched and failed IDs in visiting order, and `address` is what the last fetch that returned left in it |
| Search.IdsWhereExactly | house.py:171 | the IDs listed for a fate are exactly the IDs of the range with that fate |
| Search.IdsWhereIncreasing | house.py:171 | the IDs listed for a fate lie in the range and strictly increase |
| Search.FatesShareRange | house.py:176-192 | the matched and failed IDs together are at most the IDs visited |
| Search.RunFailsOnlyOnFirstFetch | house.py:177-192 | the run fails as a whole exactly when the range is non-empty and the first ID's fetch raises |
| Search.MatchesAreMatchedIds | house.py:183-190 | `potential` holds the URLs of the matched IDs in increasing order; a page URL is in it exactly when its ID is in the range and matched |
| Search.IssuesAreFailedIds | house.py:191-192 | `issue_addresses` holds one entry per failed ID in increasing order, with the address that ID saw; a page URL is among its URLs exactly when its ID is in the range and failed |
| Search.NoUrlInBothLists | house.py:176-192 | no URL is both a match and an issue |
| Search.AtMostOneRecordPerId | house.py:176-192 | no URL is recorded twice across `potential` and the URLs of `issue_addresses`, and the two lists together hold no more entries than the range has IDs |
| Search.OutOfAreaIsIssueWithoutAddress | house.py:177-192 | a fetched page outside the area is recorded as the issue `(None, url)` |
| Search.SampleTourIsSkipped | house.py:179-181 | an in-area page whose address holds "Sample Tour" is neither a match nor an issue |
| Search.FailedFetchKeepsPreviousAddress | house.py:177-192 | a fetch that raises right after a fetch that returned is recorded with the earlier page's address |
| Search.MatchedMeans | house.py:176-190 | an ID matches exactly when its page is fetched, the title names the location, the address lacks "Sample Tour", the page is suitable and Redfin reports it unlisted |
| Search.FailedMeans | house.py:176-192 | an ID becomes an issue exactly when its fetch raises, its page is outside the area, or, for an in-area page without "Sample Tour", the suitability check raises or, for a suitable page, the Redfin check raises |
| Search.OutOfAreaIgnoresLaterStages | house.py:183-186 | for a page outside the area, neither the browser session nor Redfin affects the outcome |
| Search.ThreeIdScenario | house.py:168-192 | IDs 5000 to 5002 with "Austin, TX", one out of the area, one listed and one unlisted: one match, and one issue without an address for the first ID |
| Cli.StateAbbrev | cli.py:10-14 | succeeds exactly when the name is a key of the table, giving its value; otherwise fails with "<state> is not a valid state." |
| Cli.Convert | cli.py:16-27 | `CityStateParamType.convert`; it has no contract of its own: `ConvertRejectsMalformed` and `ConvertAccepts` together give its result for every value |
| Cli.ConvertRejectsMalformed | cli.py:19-22 | rejected as malformed exactly when the value, without spaces, does not hold exactly one comma |
| Cli.ConvertAccepts | cli.py:16-27 | "city,state" without spaces gives "city, state" for a two-character state, "city, ABBREV" for a name in the table, and an invalid-state error otherwise |
| Cli.ConvertDropsSpaceInCity | cli.py:20-27 | spaces inside the city are dropped: "First Second, ST" gives "FirstSecond, ST" |
| Cli.ConvertedCityHasNoSpace | cli.py:20-27 | the city part of a converted location holds no space |
| Cli.ConvertIdempotent | cli.py:16-27 | converting a converted location gives it back, when its abbreviation has two characters and no comma or space |

## Left out

- HTTP and HTML parsing (`requests.get`, BeautifulSoup): the text of a page's first `<title>`, or its absence, is an input. A failed request is an input too.
- Selenium (`init_driver`, `find_element_by_xpath`, `sleep`): each field lookup is an `Outcome` input. A missing element is `Raised(NoSuchElement)` and any other failure is `Raised(OtherError)`. The browser session is never closed by the source. That leak has no counterpart here.
- The `retry` decorator: only its final effect is modelled. The last exception propagates after the second try. The delays are not modelled.
- Number parsing (`float(...)`, `int(...)`, and the removal of `$`, `,` and spaces): the parsed number, or a parse failure, is an input.
- The Redfin client: its answers are a record with optional fields. A missing key and a failed call both give `None`.
- `print` output: the two accumulated lists are returned in a `Report` instead.
- The `click` framework and `self.fail`: a failure is a `Cli.CliError` value with its message.
- The contents of `us_state_abbrev` are not part of this model. The table is a parameter.
- The `cli` command itself only passes its options to `run_house_search`. Its option defaults (1 bed, 500000, from ID 5000, 1000 IDs) are not modelled.
- Floating point: prices and areas are Dafny `real` values.
- Python's distinct exception types: the model only separates Selenium's missing element from every other exception. The one other handler, the `KeyError` catch for a missing listing ID in `address_is_listed`, is modelled by `RedfinPayload.listingId` being `None`.
- A run without a location: `--loc` has no default and is not required, so `loc` can be `None`, and then `location in title` raises `TypeError` for every page with a title. `Search.Criteria.location` is a string, so the model does not cover a run started without `--loc`.
- House.DetermineIfSuitable: `determine_if_suitable` returns `True` or `None`. `None` is modelled as `false`, which is how the caller's `if` reads it.
