/** The culture data the money type relies on.  .NET resolves a culture name
    to a `CultureInfo` and, through its region, to an ISO 4217 currency code;
    that table is foreign library data, so here it is a parameter of type
    `Catalog`.  The only entries the model relies on are the ones the
    repository's tests assert. */
module Cultures {
  import opened Results

  /** A resolved specific culture: its name (as `CultureInfo.Name` reports it)
      and the ISO currency code of its region (`RegionInfo.ISOCurrencySymbol`). */
  datatype Culture = Culture(name: string, isoCurrencySymbol: string)

  /** `new CultureInfo(name)` followed by `new RegionInfo(lcid)`: `None` when the
      name is unknown or names a neutral culture without a region. */
  type Catalog = string -> Option<Culture>

  /** `new CultureInfo(name)` for a possibly null name. */
  function Resolve(catalog: Catalog, name: Option<string>): (r: Result<Culture, Error>)
    ensures name.None? ==> r == Err(ArgumentNull("name"))
    ensures name.Some? && catalog(name.value).None? ==> r == Err(CultureNotFound(name.value))
    ensures r.Ok? <==> name.Some? && catalog(name.value).Some?
    ensures r.Ok? ==> Some(r.value) == catalog(name.value)
  {
    match name
    case None => Err(ArgumentNull("name"))
    case Some(n) =>
      match catalog(n)
      case None => Err(CultureNotFound(n))
      case Some(c) => Ok(c)
  }

  /** The facts the test suite asserts about three cultures: en-CA and fr-CA
      both use CAD, en-US uses USD, and each reports back its own name. */
  ghost predicate AgreesWithTests(catalog: Catalog) {
    && catalog("en-CA") == Some(Culture("en-CA", "CAD"))
    && catalog("fr-CA") == Some(Culture("fr-CA", "CAD"))
    && catalog("en-US") == Some(Culture("en-US", "USD"))
  }

  /** A catalog that knows exactly the three tested cultures. */
  function TestCultures(name: string): Option<Culture> {
    if name == "en-CA" then Some(Culture("en-CA", "CAD"))
    else if name == "fr-CA" then Some(Culture("fr-CA", "CAD"))
    else if name == "en-US" then Some(Culture("en-US", "USD"))
    else None
  }

  /** The test-derived facts are consistent: some catalog satisfies them. */
  lemma TestCulturesAgree()
    ensures AgreesWithTests(TestCultures)
  {
  }
}
