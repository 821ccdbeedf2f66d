/** Properties that relate several money operations to each other: equality
    is an equivalence that ignores culture spelling, subtraction undoes
    addition, ordering is antisymmetric and agrees with equality, and the
    worked arithmetic examples. */
module MoneyLaws {
  import opened Results
  import opened Cultures
  import opened MoneyValue

  /** `Equals` is reflexive, symmetric and transitive on non-null values. */
  lemma EqualsIsEquivalence(a: Money, b: Money, c: Money)
    ensures Equals(a, Some(a))
    ensures Equals(a, Some(b)) <==> Equals(b, Some(a))
    ensures Equals(a, Some(b)) && Equals(b, Some(c)) ==> Equals(a, Some(c))
  {
  }

  /** Equality compares currency codes, not culture names: with the tested
      culture data, en-CA and fr-CA amounts are equal (both CAD), while en-CA
      and en-US amounts are not (CAD against USD). */
  lemma EqualityIgnoresCultureSpelling(catalog: Catalog, amount: real)
    requires AgreesWithTests(catalog)
    ensures FromName(catalog, amount, Some("en-CA")).Ok?
    ensures FromName(catalog, amount, Some("fr-CA")).Ok?
    ensures FromName(catalog, amount, Some("en-US")).Ok?
    ensures Equals(FromName(catalog, amount, Some("en-CA")).value, Some(FromName(catalog, amount, Some("fr-CA")).value))
    ensures !Equals(FromName(catalog, amount, Some("en-CA")).value, Some(FromName(catalog, amount, Some("en-US")).value))
    ensures FromName(catalog, amount, Some("en-CA")).value != FromName(catalog, amount, Some("fr-CA")).value
  {
  }

  /** The constructors from a tested culture name report back amount zero,
      the name they were given and the tested currency code. */
  lemma ZeroConstructorsReportTheirCulture(catalog: Catalog)
    requires AgreesWithTests(catalog)
    ensures ZeroFromName(catalog, Some("en-CA")) == Ok(Money(0.0, Culture("en-CA", "CAD")))
    ensures ZeroFromName(catalog, Some("fr-CA")) == Ok(Money(0.0, Culture("fr-CA", "CAD")))
    ensures ZeroFromName(catalog, Some("en-US")) == Ok(Money(0.0, Culture("en-US", "USD")))
    ensures ZeroFromName(catalog, None) == Err(ArgumentNull("name"))
  {
  }

  /** Mixing currencies fails: CAD plus USD. */
  lemma AddAcrossCurrenciesFails(catalog: Catalog, x: real, y: real)
    requires AgreesWithTests(catalog)
    ensures Add(catalog, FromName(catalog, x, Some("en-CA")).value, FromName(catalog, y, Some("en-US")).value)
            == Err(CurrencyMismatch)
    ensures Less(FromName(catalog, x, Some("en-CA")).value, FromName(catalog, y, Some("en-US")).value)
            == Err(CurrencyMismatch)
  {
  }

  /** Worked example: 4.33 + 0.67 is exactly 5.00. */
  lemma AdditionExample(catalog: Catalog)
    requires AgreesWithTests(catalog)
    ensures Add(catalog, Money(4.33, Culture("en-US", "USD")), Money(0.67, Culture("en-US", "USD")))
            == Ok(Money(5.0, Culture("en-US", "USD")))
  {
  }

  /** Worked examples: 10.00 * 0.5 is 5.00; -10.01 * 1 rounds down to -11,
      not toward zero. */
  lemma MultiplicationExamples(catalog: Catalog)
    requires AgreesWithTests(catalog)
    ensures Multiply(catalog, Some(Money(10.0, Culture("en-US", "USD"))), 0.5)
            == Ok(Money(5.0, Culture("en-US", "USD")))
    ensures Multiply(catalog, Some(Money(-10.01, Culture("en-US", "USD"))), 1.0)
            == Ok(Money(-11.0, Culture("en-US", "USD")))
  {
  }

  /** Subtracting what was added gives back the original value, culture and all. */
  lemma SubtractUndoesAdd(catalog: Catalog, a: Money, b: Money)
    requires SameCurrency(a, b) && Resolved(catalog, a)
    ensures Add(catalog, a, b).Ok?
    ensures Subtract(catalog, Add(catalog, a, b).value, b) == Ok(a)
  {
  }

  /** Addition commutes up to `Equals`: the results may carry different
      cultures of the same currency, but their amounts agree. */
  lemma AddCommutesUpToEquals(catalog: Catalog, a: Money, b: Money)
    requires Add(catalog, a, b).Ok? && Add(catalog, b, a).Ok?
    requires Resolved(catalog, a) && Resolved(catalog, b)
    ensures Equals(Add(catalog, a, b).value, Some(Add(catalog, b, a).value))
  {
  }

  /** A clone is the additive identity of its original's currency. */
  lemma CloneIsAdditiveIdentity(catalog: Catalog, m: Money)
    requires Resolved(catalog, m)
    ensures Add(catalog, Clone(m), m) == Ok(m)
    ensures Add(catalog, m, Clone(m)) == Ok(m)
  {
  }

  /** Multiplying by one rounds the amount down to a whole number and is the
      identity exactly on whole amounts. */
  lemma MultiplyByOneRoundsDown(catalog: Catalog, m: Money)
    requires Resolved(catalog, m)
    ensures Multiply(catalog, Some(m), 1.0) == Ok(Money(m.Amount().Floor as real, m.culture))
    ensures Multiply(catalog, Some(m), 1.0) == Ok(m) <==> m.Amount() == m.Amount().Floor as real
  {
  }

  /** Division by a non-zero factor is undone by multiplying back, as long
      as the product is whole (multiplication rounds down). */
  lemma DivideThenMultiply(catalog: Catalog, m: Money, d: real)
    requires Resolved(catalog, m) && d != 0.0
    requires m.Amount() == m.Amount().Floor as real
    ensures Divide(catalog, Some(m), d).Ok?
    ensures Multiply(catalog, Some(Divide(catalog, Some(m), d).value), d) == Ok(m)
  {
    var q := Divide(catalog, Some(m), d).value;
    assert q.culture == m.culture;
    assert Resolved(catalog, q);
    assert q.Amount() * d == m.Amount();
    var r := Multiply(catalog, Some(q), d).value;
    assert r.culture == m.culture;
    var k, n := r.Amount().Floor, m.Amount().Floor;
    assert k as real <= n as real < k as real + 1.0;
    assert k == n;
  }

  /** `!=` is the negation of `==` whenever its left operand is non-null;
      `==` holds between two nulls and never between null and non-null. */
  lemma NotEqualsNegatesEquals(first: Option<Money>, second: Option<Money>)
    ensures first.Some? ==> OpNotEquals(first, second) == Ok(!OpEquals(first, second))
    ensures OpEquals(None, None)
    ensures first.Some? ==> !OpEquals(first, None) && !OpEquals(None, first)
    ensures OpEquals(first, second) == OpEquals(second, first)
  {
  }

  /** `CompareTo` is antisymmetric and fails symmetrically. */
  lemma CompareToAntisymmetric(a: Money, b: Money)
    ensures CompareTo(a, b).Ok? <==> CompareTo(b, a).Ok?
    ensures CompareTo(a, b).Ok? ==> CompareTo(b, a).value == -CompareTo(a, b).value
  {
  }

  /** `CompareTo` agrees with the four comparison operators. */
  lemma CompareToMatchesOperators(a: Money, b: Money)
    requires SameCurrency(a, b)
    ensures CompareTo(a, b) == Ok(-1) <==> Less(a, b) == Ok(true)
    ensures CompareTo(a, b) == Ok(1) <==> Greater(a, b) == Ok(true)
    ensures CompareTo(a, b).value <= 0 <==> LessOrEqual(a, b) == Ok(true)
    ensures CompareTo(a, b).value >= 0 <==> GreaterOrEqual(a, b) == Ok(true)
    ensures CompareTo(a, b) == Ok(0) <==> OpEquals(Some(a), Some(b))
  {
  }

  /** `CompareTo` orders values of one currency transitively. */
  lemma CompareToTransitive(a: Money, b: Money, c: Money)
    requires CompareTo(a, b).Ok? && CompareTo(b, c).Ok?
    requires CompareTo(a, b).value <= 0 && CompareTo(b, c).value <= 0
    ensures CompareTo(a, c).Ok? && CompareTo(a, c).value <= 0
  {
  }

  /** A copy is equal to its original and indistinguishable from it; a clone
      keeps only the culture. */
  lemma CopyAndClone(m: Money)
    ensures Copy(m) == m
    ensures OpEquals(Some(Copy(m)), Some(m))
    ensures Clone(m) == Money(0.0, m.culture)
    ensures OpEquals(Some(Clone(m)), Some(m)) <==> m.Amount() == 0.0
  {
  }
}
