/** The currency-tagged money value of Money/Money.cs: an immutable pair of a
    decimal amount and a culture, whose ISO 4217 currency code comes from the
    culture's region.  Arithmetic and ordering refuse to mix currencies.

    Amounts are exact reals: .NET `decimal` has 28 significant digits and
    rounds inexact quotients, which this model does not. */
module MoneyValue {
  import opened Results
  import opened Cultures

  datatype Money = Money(amount: real, culture: Culture) {

    function Amount(): real {
      amount
    }

    /** `CultureInfo.Name` of the culture the value was built with. */
    function EnglishCultureName(): string {
      culture.name
    }

    function ISOCurrencySymbol(): string {
      culture.isoCurrencySymbol
    }
  }

  /** The catalog resolves `m`'s culture name back to `m`'s own culture, as
      it does for every value built from a name by that catalog. */
  predicate Resolved(catalog: Catalog, m: Money) {
    catalog(m.EnglishCultureName()) == Some(m.culture)
  }

  // ---------------------------------------------------------------------
  // Construction

  /** `new Money(amount, cultureInfo)` (the decimal and the long overloads;
      a long amount is the same real). A null culture is rejected. */
  function FromCulture(amount: real, cultureInfo: Option<Culture>): (r: Result<Money, Error>)
    ensures cultureInfo.None? <==> r.Err?
    ensures r.Err? ==> r.error == ArgumentNull("cultureInfo")
    ensures r.Ok? ==> r.value.Amount() == amount && r.value.culture == cultureInfo.value
  {
    match cultureInfo
    case None => Err(ArgumentNull("cultureInfo"))
    case Some(c) => Ok(Money(amount, c))
  }

  /** `new Money(cultureInfo)`: amount zero. */
  function ZeroFromCulture(cultureInfo: Option<Culture>): (r: Result<Money, Error>)
    ensures cultureInfo.None? <==> r.Err?
    ensures r.Ok? ==> r.value.Amount() == 0.0 && r.value.culture == cultureInfo.value
  {
    FromCulture(0.0, cultureInfo)
  }

  /** `new Money(amount, cultureName)`: the name is resolved through the
      catalog; a null or unknown name is rejected. */
  function FromName(catalog: Catalog, amount: real, cultureName: Option<string>): (r: Result<Money, Error>)
    ensures cultureName.None? ==> r == Err(ArgumentNull("name"))
    ensures r.Ok? <==> cultureName.Some? && catalog(cultureName.value).Some?
    ensures r.Ok? ==> r.value.Amount() == amount && Some(r.value.culture) == catalog(cultureName.value)
  {
    var c :- Resolve(catalog, cultureName);
    FromCulture(amount, Some(c))
  }

  /** `new Money(cultureName)`: amount zero. */
  function ZeroFromName(catalog: Catalog, cultureName: Option<string>): (r: Result<Money, Error>)
    ensures r.Ok? <==> cultureName.Some? && catalog(cultureName.value).Some?
    ensures r.Ok? ==> r.value.Amount() == 0.0 && Some(r.value.culture) == catalog(cultureName.value)
  {
    FromName(catalog, 0.0, cultureName)
  }

  /** `new Money()`, `new Money(amount)`, the implicit conversions from
      decimal and long, and `LocalCurrency`: the ambient current culture is
      passed in explicitly and is never null. */
  function InCurrentCulture(currentCulture: Culture, amount: real): (r: Money)
    ensures r.Amount() == amount
    ensures r.EnglishCultureName() == currentCulture.name
    ensures r.ISOCurrencySymbol() == currentCulture.isoCurrencySymbol
  {
    FromCulture(amount, Some(currentCulture)).value
  }

  // ---------------------------------------------------------------------
  // Currency guard, arithmetic

  /** The condition `AssertSameCurrency` enforces: the two currency codes
      agree, whatever the cultures. */
  function SameCurrency(first: Money, second: Money): (r: bool)
    ensures first.culture == second.culture ==> r
  {
    first.ISOCurrencySymbol() == second.ISOCurrencySymbol()
  }

  /** `first + second`: same currency required; the sum is rebuilt from the
      first operand's culture name. */
  function Add(catalog: Catalog, first: Money, second: Money): (r: Result<Money, Error>)
    ensures !SameCurrency(first, second) ==> r == Err(CurrencyMismatch)
    ensures r.Ok? <==> SameCurrency(first, second) && catalog(first.EnglishCultureName()).Some?
    ensures r.Ok? ==> r.value.Amount() == first.Amount() + second.Amount()
    ensures r.Ok? ==> Some(r.value.culture) == catalog(first.EnglishCultureName())
    ensures SameCurrency(first, second) && Resolved(catalog, first) ==>
              r == Ok(Money(first.Amount() + second.Amount(), first.culture))
  {
    if !SameCurrency(first, second) then Err(CurrencyMismatch)
    else FromName(catalog, first.Amount() + second.Amount(), Some(first.EnglishCultureName()))
  }

  /** `first - second`, with the same guard and culture rule as `Add`. */
  function Subtract(catalog: Catalog, first: Money, second: Money): (r: Result<Money, Error>)
    ensures !SameCurrency(first, second) ==> r == Err(CurrencyMismatch)
    ensures r.Ok? <==> SameCurrency(first, second) && catalog(first.EnglishCultureName()).Some?
    ensures r.Ok? ==> r.value.Amount() == first.Amount() - second.Amount()
    ensures r.Ok? ==> Some(r.value.culture) == catalog(first.EnglishCultureName())
    ensures SameCurrency(first, second) && Resolved(catalog, first) ==>
              r == Ok(Money(first.Amount() - second.Amount(), first.culture))
  {
    if !SameCurrency(first, second) then Err(CurrencyMismatch)
    else FromName(catalog, first.Amount() - second.Amount(), Some(first.EnglishCultureName()))
  }

  /** `money * value`: the product is rounded toward negative infinity
      (`Decimal.Floor`) and the culture is kept. */
  function Multiply(catalog: Catalog, money: Option<Money>, value: real): (r: Result<Money, Error>)
    ensures money.None? ==> r == Err(ArgumentNull("money"))
    ensures r.Ok? <==> money.Some? && catalog(money.value.EnglishCultureName()).Some?
    ensures r.Ok? ==> r.value.Amount() <= money.value.Amount() * value < r.value.Amount() + 1.0
    ensures r.Ok? ==> r.value.Amount() == r.value.Amount().Floor as real
    ensures r.Ok? ==> Some(r.value.culture) == catalog(money.value.EnglishCultureName())
    ensures money.Some? && Resolved(catalog, money.value) ==> r.Ok? && r.value.culture == money.value.culture
  {
    match money
    case None => Err(ArgumentNull("money"))
    case Some(m) => FromName(catalog, (m.Amount() * value).Floor as real, Some(m.EnglishCultureName()))
  }

  /** `money / value`: exact division; a zero divisor fails. */
  function Divide(catalog: Catalog, money: Option<Money>, value: real): (r: Result<Money, Error>)
    ensures money.None? ==> r == Err(ArgumentNull("money"))
    ensures money.Some? && value == 0.0 ==> r == Err(DivideByZero)
    ensures r.Ok? <==> money.Some? && value != 0.0 && catalog(money.value.EnglishCultureName()).Some?
    ensures r.Ok? ==> r.value.Amount() * value == money.value.Amount()
    ensures r.Ok? ==> Some(r.value.culture) == catalog(money.value.EnglishCultureName())
    ensures money.Some? && value != 0.0 && Resolved(catalog, money.value) ==>
              r.Ok? && r.value.culture == money.value.culture
  {
    match money
    case None => Err(ArgumentNull("money"))
    case Some(m) =>
      if value == 0.0 then Err(DivideByZero)
      else FromName(catalog, m.Amount() / value, Some(m.EnglishCultureName()))
  }

  // ---------------------------------------------------------------------
  // Equality

  /** `Equals(Money other)`: same currency code and same amount; null is never
      equal.  The culture itself is not compared. */
  function Equals(self: Money, other: Option<Money>): (r: bool)
    ensures other.None? ==> !r
    ensures r ==> SameCurrency(self, other.value)
    ensures other.Some? && SameCurrency(self, other.value) ==> (r <==> self.Amount() == other.value.Amount())
    ensures other == Some(self) ==> r
  {
    other.Some? && self.ISOCurrencySymbol() == other.value.ISOCurrencySymbol() && self.Amount() == other.value.Amount()
  }

  /** `operator ==`: identical references (here: identical values, including
      two nulls) are equal, null against non-null is not, otherwise currency
      and amount are compared. */
  function OpEquals(first: Option<Money>, second: Option<Money>): (r: bool)
    ensures first.None? ==> (r <==> second.None?)
    ensures first.Some? ==> (r <==> Equals(first.value, second))
    ensures first == second ==> r
  {
    if first == second then true
    else if first.None? || second.None? then false
    else first.value.ISOCurrencySymbol() == second.value.ISOCurrencySymbol()
         && first.value.Amount() == second.value.Amount()
  }

  /** `operator !=`: `!first.Equals(second)`, which dereferences `first`. */
  function OpNotEquals(first: Option<Money>, second: Option<Money>): (r: Result<bool, Error>)
    ensures first.None? <==> r == Err(NullReference)
    ensures first.Some? ==> r == Ok(!OpEquals(first, second))
  {
    match first
    case None => Err(NullReference)
    case Some(f) => Ok(!Equals(f, second))
  }

  // ---------------------------------------------------------------------
  // Ordering

  function Greater(first: Money, second: Money): (r: Result<bool, Error>)
    ensures r.Err? <==> !SameCurrency(first, second)
    ensures r.Err? ==> r.error == CurrencyMismatch
    ensures r.Ok? ==> (r.value <==> first.Amount() > second.Amount())
  {
    if !SameCurrency(first, second) then Err(CurrencyMismatch) else Ok(first.Amount() > second.Amount())
  }

  function GreaterOrEqual(first: Money, second: Money): (r: Result<bool, Error>)
    ensures r.Err? <==> !SameCurrency(first, second)
    ensures r.Err? ==> r.error == CurrencyMismatch
    ensures r.Ok? ==> (r.value <==> first.Amount() >= second.Amount())
  {
    if !SameCurrency(first, second) then Err(CurrencyMismatch) else Ok(first.Amount() >= second.Amount())
  }

  function LessOrEqual(first: Money, second: Money): (r: Result<bool, Error>)
    ensures r.Err? <==> !SameCurrency(first, second)
    ensures r.Err? ==> r.error == CurrencyMismatch
    ensures r.Ok? ==> (r.value <==> first.Amount() <= second.Amount())
  {
    if !SameCurrency(first, second) then Err(CurrencyMismatch) else Ok(first.Amount() <= second.Amount())
  }

  function Less(first: Money, second: Money): (r: Result<bool, Error>)
    ensures r.Err? <==> !SameCurrency(first, second)
    ensures r.Err? ==> r.error == CurrencyMismatch
    ensures r.Ok? ==> (r.value <==> first.Amount() < second.Amount())
  {
    if !SameCurrency(first, second) then Err(CurrencyMismatch) else Ok(first.Amount() < second.Amount())
  }

  /** `CompareTo(Money other)`: -1 if `this < other`, else 1 if `this > other`,
      else 0; both comparisons carry the currency guard. */
  function CompareTo(self: Money, other: Money): (r: Result<int, Error>)
    ensures r.Err? <==> !SameCurrency(self, other)
    ensures r.Err? ==> r.error == CurrencyMismatch
    ensures r.Ok? ==> r.value in {-1, 0, 1}
    ensures r.Ok? ==> (r.value == -1 <==> self.Amount() < other.Amount())
    ensures r.Ok? ==> (r.value == 1 <==> self.Amount() > other.Amount())
    ensures r.Ok? ==> (r.value == 0 <==> Equals(self, Some(other)))
  {
    var less :- Less(self, other);
    if less then Ok(-1)
    else if Greater(self, other).value then Ok(1)
    else Ok(0)
  }

  /** `CompareTo(object obj)` for a null or Money argument: null sorts first. */
  function CompareToObject(self: Money, obj: Option<Money>): (r: Result<int, Error>)
    ensures obj.None? ==> r == Ok(1)
    ensures obj.Some? ==> (r.Ok? <==> SameCurrency(self, obj.value))
    ensures obj.Some? ==> r == CompareTo(self, obj.value)
    ensures r.Ok? ==> r.value in {-1, 0, 1}
  {
    match obj
    case None => Ok(1)
    case Some(other) => CompareTo(self, other)
  }

  // ---------------------------------------------------------------------
  // Copies

  /** `Copy()`: same amount, same culture object. */
  function Copy(self: Money): (r: Money)
    ensures r.Amount() == self.Amount() && r.culture == self.culture
    ensures Equals(r, Some(self)) && Equals(self, Some(r))
  {
    FromCulture(self.Amount(), Some(self.culture)).value
  }

  /** `Clone()`: same culture, amount reset to zero. */
  function Clone(self: Money): (r: Money)
    ensures r.Amount() == 0.0 && r.culture == self.culture
    ensures SameCurrency(r, self)
  {
    ZeroFromCulture(Some(self.culture)).value
  }
}
