/**
 * Field extraction from a listing's detail page once the tree searches have
 * been made: the null-safe text accessor, the salary with its gross-then-net
 * preference, the company and the city with their two-tier fallbacks, and the
 * assembly of all values for one listing.
 */
module Fields {
  import opened Wrappers
  import opened Text
  import opened Records

  /** `solve_attr_error`: the node's text, or absent when the node is absent. */
  function SolveAttrError(node: Option<Tag>): (r: Option<string>)
    ensures r.Some? <==> node.Some?
    ensures node.Some? ==> r.value == node.value.text
  {
    match node
    case Some(tag) => Some(tag.text)
    case None => None
  }

  /**
   * `get_salary`: the gross salary text if that node exists, else the net
   * salary text if that one exists, else absent; non-breaking spaces become
   * plain spaces.
   */
  function GetSalary(gross: Option<Tag>, net: Option<Tag>): (r: Option<string>)
    ensures r.Some? <==> gross.Some? || net.Some?
    ensures gross.Some? ==> SpacesNormalized(gross.value.text, r.value)
    ensures gross.None? && net.Some? ==> SpacesNormalized(net.value.text, r.value)
    ensures r.Some? ==> Nbsp !in r.value
  {
    var salaryGross := SolveAttrError(gross);
    var salaryNet := SolveAttrError(net);
    if salaryGross.Some? then Some(ReplaceNbsp(salaryGross.value))
    else if salaryNet.Some? then Some(ReplaceNbsp(salaryNet.value))
    else None
  }

  /**
   * `get_company_name`: the company-name link's text, falling back to the
   * header link's text when the first is missing; both missing raises.
   */
  function GetCompanyName(companyLink: Option<Tag>, companyHeader: Option<Tag>): (r: Result<string, Error>)
    ensures r.Failure? <==> companyLink.None? && companyHeader.None?
    ensures r.Failure? ==> r.error == AttributeError
    ensures companyLink.Some? ==> SpacesNormalized(companyLink.value.text, r.value)
    ensures companyLink.None? && companyHeader.Some? ==> SpacesNormalized(companyHeader.value.text, r.value)
    ensures r.Success? ==> Nbsp !in r.value
  {
    match companyLink
    case Some(tag) => Success(ReplaceNbsp(tag.text))
    case None =>
      match companyHeader
      case Some(tag) => Success(ReplaceNbsp(tag.text))
      case None => Failure(AttributeError)
  }

  /** `r` is the part of `src` before its first comma, or all of `src` when it has none. */
  ghost predicate BeforeFirstComma(src: string, r: string)
  {
    && r <= src
    && ',' !in r
    && (|r| < |src| ==> src[|r|] == ',')
  }

  /** At most one string is the part of `src` before its first comma. */
  lemma BeforeFirstCommaUnique(src: string, r1: string, r2: string)
    requires BeforeFirstComma(src, r1) && BeforeFirstComma(src, r2)
    ensures r1 == r2
  {
  }

  /** Python's `s.index(c)`: the first position of `c`, which must occur. */
  function IndexOf(s: string, c: char): (i: nat)
    requires c in s
    ensures i < |s| && s[i] == c && c !in s[..i]
  {
    if s[0] == c then 0
    else
      assert c in s[1..];
      1 + IndexOf(s[1..], c)
  }

  /** `city[:city.index(',')]` when the city has a comma, else the city unchanged. */
  function TruncateAtComma(city: string): (r: string)
    ensures BeforeFirstComma(city, r)
  {
    if ',' in city then city[..IndexOf(city, ',')] else city
  }

  /** Truncating an already truncated city changes nothing. */
  lemma TruncateAtCommaIdempotent(city: string)
    ensures TruncateAtComma(TruncateAtComma(city)) == TruncateAtComma(city)
  {
  }

  /**
   * `get_city`: the raw-address text, falling back to the location text when
   * the first is missing, cut before its first comma; both missing raises.
   */
  function GetCity(rawAddress: Option<Tag>, location: Option<Tag>): (r: Result<string, Error>)
    ensures r.Failure? <==> rawAddress.None? && location.None?
    ensures r.Failure? ==> r.error == AttributeError
    ensures rawAddress.Some? ==> BeforeFirstComma(rawAddress.value.text, r.value)
    ensures rawAddress.None? && location.Some? ==> BeforeFirstComma(location.value.text, r.value)
  {
    var city :- match rawAddress
      case Some(tag) => Success(tag.text)
      case None =>
        match location
        case Some(tag) => Success(tag.text)
        case None => Failure(AttributeError);
    Success(TruncateAtComma(city))
  }

  /** A city with a district after the comma keeps only the city name. */
  lemma GetCityDropsDistrict()
    ensures GetCity(Some(Tag("Moscow, Central District")), None) == Success("Moscow")
    ensures GetCity(None, Some(Tag("Moscow"))) == Success("Moscow")
  {
    var src := "Moscow, Central District";
    assert src[..6] == "Moscow" && src[6] == ',';
    assert BeforeFirstComma(src, "Moscow");
    BeforeFirstCommaUnique(src, TruncateAtComma(src), "Moscow");
    BeforeFirstCommaUnique("Moscow", TruncateAtComma("Moscow"), "Moscow");
  }

  /**
   * `get_all_values` after the lookups: the link, title and description as
   * found, and the salary, company and city extracted from the detail page;
   * a missing company or city node raises AttributeError.
   */
  function GetAllValues(raw: RawListing): (r: Result<Vacancy, Error>)
    ensures r.Failure? <==> (raw.companyLink.None? && raw.companyHeader.None?) || (raw.rawAddress.None? && raw.location.None?)
    ensures r.Failure? ==> r.error == AttributeError
    ensures r.Success? ==> r.value.link == raw.link && r.value.title == raw.title && r.value.text == raw.text
    ensures r.Success? ==> r.value.salary == GetSalary(raw.salaryGross, raw.salaryNet)
    ensures r.Success? ==> Success(r.value.company) == GetCompanyName(raw.companyLink, raw.companyHeader)
    ensures r.Success? ==> Success(r.value.city) == GetCity(raw.rawAddress, raw.location)
  {
    var salary := GetSalary(raw.salaryGross, raw.salaryNet);
    var company :- GetCompanyName(raw.companyLink, raw.companyHeader);
    var city :- GetCity(raw.rawAddress, raw.location);
    Success(Vacancy(raw.link, raw.title, salary, company, city, raw.text))
  }
}
