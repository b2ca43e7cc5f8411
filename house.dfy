/**
 * The decisions of house.py with the page fetches, the browser session and
 * the Redfin client abstracted: what they return is given as a value, and
 * an exception they raise as `Raised`.
 */
module House {
  import opened Wrappers
  import opened Strings

  /** The exceptions the decisions tell apart: Selenium's missing element, and any other. */
  datatype Exception = NoSuchElement | OtherError

  /** A Python call that returns a value or raises. */
  datatype Outcome<+T> = Returned(value: T) | Raised(exception: Exception) {

    predicate IsFailure() {
      Raised?
    }

    function PropagateFailure<U>(): Outcome<U>
      requires Raised?
    {
      Raised(exception)
    }

    function Extract(): T
      requires Returned?
    {
      value
    }
  }

  /** `BASE_URL`, up to the `{}` the listing ID is formatted into. */
  const BASE_URL := "https://www.seetheproperty.com/story/39"

  /** `BASE_URL.format(id)`. */
  function PageUrl(id: int): string {
    BASE_URL + IntToDecimal(id)
  }

  /** Different listing IDs have different page URLs. */
  lemma PageUrlInjective(i: int, j: int)
    requires PageUrl(i) == PageUrl(j)
    ensures i == j
  {
    assert IntToDecimal(i) == PageUrl(i)[|BASE_URL|..];
    assert IntToDecimal(j) == PageUrl(j)[|BASE_URL|..];
    IntToDecimalInjective(i, j);
  }

  // ---------------------------------------------------------------------
  // Location check (`verify_location`)
  // ---------------------------------------------------------------------

  /** What `verify_location` returns: whether the page is in the area, and its address. */
  datatype LocationCheck = LocationCheck(inArea: bool, address: Option<string>)

  /**
   * `verify_location` given the text of the page's first `<title>` element
   * (`None` when the page has none): in the area when the location occurs
   * in the title, with the first three comma-separated pieces of the title
   * as the address.
   */
  function VerifyLocation(title: Option<string>, location: string): (r: LocationCheck)
    ensures title.None? ==> r == LocationCheck(false, None)
    ensures title.Some? ==> (r.inArea <==> Contains(title.value, location))
    ensures r.address.Some? <==> r.inArea
  {
    match title
    case None => LocationCheck(false, None)
    case Some(text) =>
      if Contains(text, location) then
        var pieces := Split(text, ',');
        LocationCheck(true, Some(Join(pieces[..if |pieces| < 3 then |pieces| else 3], ',')))
      else LocationCheck(false, None)
  }

  /**
   * The address of a matching page is the title up to, and not including,
   * its third comma: a prefix of the title holding at most two commas, the
   * whole title when it has no more than two, and otherwise followed in the
   * title by a comma.
   */
  lemma AddressIsTitleHead(title: string, location: string)
    requires VerifyLocation(Some(title), location).inArea
    ensures var address := VerifyLocation(Some(title), location).address.value;
      && IsPrefix(address, title)
      && multiset(address)[','] == (if multiset(title)[','] < 2 then multiset(title)[','] else 2)
      && (multiset(title)[','] <= 2 ==> address == title)
      && (|address| < |title| ==> title[|address|] == ',')
  {
    var pieces := Split(title, ',');
    SplitCount(title, ',');
    var k := if |pieces| < 3 then |pieces| else 3;
    assert VerifyLocation(Some(title), location).address.value == Join(pieces[..k], ',');
    HeadOfSplit(title, k, ',');
  }

  // ---------------------------------------------------------------------
  // Suitability (`_determine_*` and `determine_if_suitable`)
  // ---------------------------------------------------------------------

  /**
   * The fields the browser session reads off a listing page, each as the
   * outcome of its lookup (after the retries for the five lookups wrapped
   * in `@retry`; the square-feet lookup is tried once):
   * `Raised(NoSuchElement)` when the element is not on the page,
   * `Raised(OtherError)` when the lookup fails otherwise or its text does
   * not parse as a number.
   */
  datatype Listing = Listing(
    propertyType: Outcome<string>,  // the span after "Property Type"
    listingType: Outcome<string>,   // the span after "Listing Type"
    price: Outcome<real>,           // the heading before "asking", `$`, `,` and spaces dropped
    beds: Outcome<int>,             // the heading before "bed"
    lotSize: Outcome<string>,       // the heading before "lot size"
    squareFeet: Outcome<real>)      // the heading before "square feet", `,` dropped

  const SINGLE_FAMILY := "Single Family"
  const FOR_SALE := "For Sale"
  const MIN_SQUARE_FEET: real := 1500.0

  /** `_determine_type`: a single-family house, or a page that does not say. */
  function DetermineType(propertyType: Outcome<string>): (r: Outcome<bool>)
    ensures r == Returned(true) <==>
      propertyType == Raised(NoSuchElement) || propertyType == Returned(SINGLE_FAMILY)
    ensures r.Raised? <==> propertyType == Raised(OtherError)
    ensures r != Raised(NoSuchElement)
  {
    match propertyType
    case Returned(text) => Returned(text == SINGLE_FAMILY)
    case Raised(NoSuchElement) => Returned(true)
    case Raised(OtherError) => Raised(OtherError)
  }

  /** `_determine_if_for_sale`: listed "For Sale", or a page that does not say. */
  function DetermineForSale(listingType: Outcome<string>): (r: Outcome<bool>)
    ensures r == Returned(true) <==>
      listingType == Raised(NoSuchElement) || listingType == Returned(FOR_SALE)
    ensures r.Raised? <==> listingType == Raised(OtherError)
    ensures r != Raised(NoSuchElement)
  {
    match listingType
    case Returned(text) => Returned(text == FOR_SALE)
    case Raised(NoSuchElement) => Returned(true)
    case Raised(OtherError) => Raised(OtherError)
  }

  /** `_determine_price`: strictly below the price limit, or no price shown. */
  function DeterminePrice(price: Outcome<real>, maxPrice: real): (r: Outcome<bool>)
    ensures r == Returned(false) <==> price.Returned? && price.value >= maxPrice
    ensures r.Raised? <==> price == Raised(OtherError)
    ensures r != Raised(NoSuchElement)
  {
    match price
    case Returned(asking) => Returned(asking < maxPrice)
    case Raised(NoSuchElement) => Returned(true)
    case Raised(OtherError) => Raised(OtherError)
  }

  /** `_determine_beds`: strictly more bedrooms than asked for, or no count shown. */
  function DetermineBeds(beds: Outcome<int>, minBeds: int): (r: Outcome<bool>)
    ensures r == Returned(false) <==> beds.Returned? && beds.value <= minBeds
    ensures r.Raised? <==> beds == Raised(OtherError)
    ensures r != Raised(NoSuchElement)
  {
    match beds
    case Returned(count) => Returned(count > minBeds)
    case Raised(NoSuchElement) => Returned(true)
    case Raised(OtherError) => Raised(OtherError)
  }

  /**
   * `_determine_size` as written. Its lot-size `_inner` looks the element
   * up but has no `return`, so a lot size that is found gives `None`, and
   * `None.split(' ')` raises: the 0.13-acre comparison is never reached.
   * Only the missing-element exception is caught, so only a page without
   * a lot size gets as far as the interior check (strictly over 1500 square
   * feet, or no interior size shown).
   */
  function DetermineSize(lotSize: Outcome<string>, squareFeet: Outcome<real>): (r: Outcome<bool>)
    ensures lotSize.Returned? ==> r == Raised(OtherError)
    ensures r.Returned? ==> lotSize == Raised(NoSuchElement)
    ensures r.Raised? <==> lotSize != Raised(NoSuchElement) || squareFeet == Raised(OtherError)
    ensures r == Returned(true) <==>
      && lotSize == Raised(NoSuchElement)
      && (squareFeet == Raised(NoSuchElement) || (squareFeet.Returned? && squareFeet.value > MIN_SQUARE_FEET))
    ensures r != Raised(NoSuchElement)
  {
    var outdoor :-
      match lotSize
      case Returned(_) => Raised(OtherError)
      case Raised(NoSuchElement) => Returned(true)
      case Raised(OtherError) => Raised(OtherError);
    var indoor :-
      match squareFeet
      case Returned(area) => Returned(area > MIN_SQUARE_FEET)
      case Raised(NoSuchElement) => Returned(true)
      case Raised(OtherError) => Raised(OtherError);
    Returned(outdoor && indoor)
  }

  /**
   * `determine_if_suitable`, given the outcome of opening the browser
   * session on the page. The source returns `True` or `None`; `None` is
   * `false` here. The five checks run in order and the first exception
   * propagates.
   */
  function DetermineIfSuitable(page: Outcome<Listing>, minBeds: int, maxPrice: real): Outcome<bool> {
    var fields :- page;
    var isSingleFamily :- DetermineType(fields.propertyType);
    var isForSale :- DetermineForSale(fields.listingType);
    var isInBudget :- DeterminePrice(fields.price, maxPrice);
    var hasEnoughBeds :- DetermineBeds(fields.beds, minBeds);
    var isEnoughSpace :- DetermineSize(fields.lotSize, fields.squareFeet);
    Returned(isSingleFamily && isForSale && isInBudget && hasEnoughBeds && isEnoughSpace)
  }

  /** A page is suitable exactly when the session opened and all five checks pass. */
  lemma SuitableIffAllPass(page: Outcome<Listing>, minBeds: int, maxPrice: real)
    ensures DetermineIfSuitable(page, minBeds, maxPrice) == Returned(true) <==>
      && page.Returned?
      && DetermineType(page.value.propertyType) == Returned(true)
      && DetermineForSale(page.value.listingType) == Returned(true)
      && DeterminePrice(page.value.price, maxPrice) == Returned(true)
      && DetermineBeds(page.value.beds, minBeds) == Returned(true)
      && DetermineSize(page.value.lotSize, page.value.squareFeet) == Returned(true)
  {
  }

  /**
   * The suitability check raises exactly when opening the session raises
   * or one of the five checks does: every check runs before the `and`.
   */
  lemma SuitableRaisesIff(page: Outcome<Listing>, minBeds: int, maxPrice: real)
    ensures DetermineIfSuitable(page, minBeds, maxPrice).Raised? <==>
      || page.Raised?
      || DetermineType(page.value.propertyType).Raised?
      || DetermineForSale(page.value.listingType).Raised?
      || DeterminePrice(page.value.price, maxPrice).Raised?
      || DetermineBeds(page.value.beds, minBeds).Raised?
      || DetermineSize(page.value.lotSize, page.value.squareFeet).Raised?
  {
  }

  /** A page showing no field at all is suitable: every missing field passes. */
  lemma BarePageIsSuitable(minBeds: int, maxPrice: real)
    ensures var bare := Listing(Raised(NoSuchElement), Raised(NoSuchElement), Raised(NoSuchElement),
                                Raised(NoSuchElement), Raised(NoSuchElement), Raised(NoSuchElement));
      DetermineIfSuitable(Returned(bare), minBeds, maxPrice) == Returned(true)
  {
  }

  /**
   * A page that shows its lot size is never judged either way: the
   * suitability check raises, whatever the other fields say.
   */
  lemma ShownLotSizeRaises(fields: Listing, minBeds: int, maxPrice: real)
    requires fields.lotSize.Returned?
    ensures DetermineIfSuitable(Returned(fields), minBeds, maxPrice).Raised?
  {
  }

  /** The limits are strict: a price at the limit, the asked-for bedroom count, or exactly 1500 square feet fail. */
  lemma ThresholdsAreStrict(maxPrice: real, minBeds: int)
    ensures DeterminePrice(Returned(maxPrice), maxPrice) == Returned(false)
    ensures DetermineBeds(Returned(minBeds), minBeds) == Returned(false)
    ensures DetermineSize(Raised(NoSuchElement), Returned(MIN_SQUARE_FEET)) == Returned(false)
  {
  }

  // ---------------------------------------------------------------------
  // Market status (`address_is_listed`)
  // ---------------------------------------------------------------------

  /**
   * What the Redfin client answers for an address: the exact match's URL
   * from the search, the property and listing IDs from its initial info,
   * and the AVM details' "isActivish" flag. A field is `None` when its key
   * is missing from the answer or the call that supplies it fails.
   */
  datatype RedfinPayload = RedfinPayload(
    exactMatchUrl: Option<string>,
    propertyId: Option<string>,
    listingId: Option<string>,
    isActivish: Option<bool>)

  /**
   * `address_is_listed`: a missing listing ID means off the market; a
   * missing exact match, property ID or AVM flag raises.
   */
  function AddressIsListed(payload: RedfinPayload): (r: Outcome<bool>)
    ensures r == Returned(true) <==>
      && payload.exactMatchUrl.Some? && payload.propertyId.Some?
      && payload.listingId.Some? && payload.isActivish == Some(true)
    ensures r.Returned? <==>
      && payload.exactMatchUrl.Some? && payload.propertyId.Some?
      && (payload.listingId.Some? ==> payload.isActivish.Some?)
  {
    if payload.exactMatchUrl.None? || payload.propertyId.None? then Raised(OtherError)
    else if payload.listingId.None? then Returned(false)
    else if payload.isActivish.None? then Raised(OtherError)
    else Returned(payload.isActivish.value)
  }

  /** Without a listing ID the address is unlisted, whatever the AVM flag says. */
  lemma NoListingIdIsUnlisted(payload: RedfinPayload)
    requires payload.exactMatchUrl.Some? && payload.propertyId.Some?
    requires payload.listingId.None?
    ensures AddressIsListed(payload) == Returned(false)
    ensures forall flag: Option<bool> :: AddressIsListed(payload.(isActivish := flag)) == Returned(false)
  {
  }
}
