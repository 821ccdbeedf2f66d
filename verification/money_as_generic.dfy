/** The money mapper compared with the generic mapper configured for money:
    two properties (amount, culture name), `GetMap` the money mapper's own
    construction step, copies the identity, immutable.  They agree on every
    write of a money, on every read of two present columns and on property
    access by index 0 or 1; they differ on null (the money mapper writes
    DBNull and reads a partial null as null, the generic one writes nothing
    and hands nulls to `GetMap`) and on property indexes past 1. */
module MoneyAsGeneric {
  import opened Results
  import opened Cultures
  import opened MoneyValue
  import MC = MoneyComposite
  import G = GenericComposite

  function AmountProperty(): G.Property<Money, MC.Scalar> {
    G.Property("Amount", (m: Money) => Some(MC.DecimalValue(m.Amount())), (m: Money, v: Option<MC.Scalar>) => m)
  }

  function CultureProperty(): G.Property<Money, MC.Scalar> {
    G.Property("CultureInfo", (m: Money) => Some(MC.StringValue(m.EnglishCultureName())),
               (m: Money, v: Option<MC.Scalar>) => m)
  }

  /** The generic mapper configured as the money mapper. */
  function MoneyType(catalog: Catalog): (c: G.CompositeType<Money, MC.Scalar>)
    ensures G.PropertyNames(c) == MC.PropertyNames
    ensures !c.isMutable
  {
    G.CompositeType(
      false,
      [AmountProperty(), CultureProperty()],
      Some((values: seq<Option<MC.Scalar>>) => G.Lift(MC.Hydrate(catalog, values))),
      (m: Money) => Some(m))
  }

  /** For a money, both mappers write the same two slots the same way. */
  lemma WritesAgree(catalog: Catalog, parameters: seq<Option<MC.Scalar>>, m: Money, index: nat)
    requires index + 1 < |parameters|
    ensures G.NullSafeSet(MoneyType(catalog), parameters, Some(m), index) == MC.NullSafeSet(parameters, Some(m), index)
  {
  }

  /** For null, the money mapper writes DBNull to both slots; the generic
      mapper writes nothing, so the two differ whenever a slot was set. */
  lemma NullWritesDiffer(catalog: Catalog, parameters: seq<Option<MC.Scalar>>, index: nat)
    requires index + 1 < |parameters|
    ensures G.NullSafeSet(MoneyType(catalog), parameters, None, index) == parameters
    ensures var h := MC.NullSafeSet(parameters, None, index);
            h[index] == None && h[index + 1] == None
    ensures G.NullSafeSet(MoneyType(catalog), parameters, None, index) == MC.NullSafeSet(parameters, None, index)
            <==> parameters[index] == None && parameters[index + 1] == None
  {
  }

  /** With both columns present, both mappers read the same result. */
  lemma ReadsAgreeWhenPresent(catalog: Catalog, columns: seq<Option<MC.Scalar>>)
    requires |columns| == 2 && columns[0].Some? && columns[1].Some?
    ensures G.NullSafeGet(MoneyType(catalog), Some(columns)) == MC.NullSafeGet(catalog, columns)
  {
  }

  /** With a null column, the money mapper reads null (once the other
      column converts) while the generic mapper hands the null to `GetMap`,
      which fails on it. */
  lemma ReadsDifferOnNull(catalog: Catalog, columns: seq<Option<MC.Scalar>>)
    requires |columns| == 2 && (columns[0].None? || columns[1].None?)
    ensures MC.NullSafeGet(catalog, columns) == (if MC.Converts(columns) then Ok(None) else Err(InvalidCast))
    ensures G.NullSafeGet(MoneyType(catalog), Some(columns)).Err?
    ensures columns[0].None? ==> G.NullSafeGet(MoneyType(catalog), Some(columns)) == Err(NullReference)
  {
  }

  /** The generic round trip applies to every money whose culture the
      catalog resolves, and it gives the money mapper's answer. */
  lemma GenericRoundTrip(catalog: Catalog, parameters: seq<Option<MC.Scalar>>, m: Money, index: nat)
    requires index + 1 < |parameters|
    requires Resolved(catalog, m)
    ensures G.Rebuilds(MoneyType(catalog), m)
    ensures G.NullSafeGet(MoneyType(catalog), Some(G.NullSafeSet(MoneyType(catalog), parameters, Some(m), index)[index..index + 2]))
            == Ok(Some(m))
  {
  }

  /** Property access agrees for indexes 0 and 1; past them the money mapper
      still answers with the culture name, the generic one fails. */
  lemma PropertiesAgree(catalog: Catalog, m: Money, property: int)
    ensures 0 <= property < 2 ==>
              G.GetPropertyValue(MoneyType(catalog), m, property) == Ok(Some(MC.GetPropertyValue(m, property)))
    ensures property >= 2 ==>
              G.GetPropertyValue(MoneyType(catalog), m, property) == Err(IndexOutOfRange)
              && MC.GetPropertyValue(m, property) == MC.StringValue(m.EnglishCultureName())
  {
  }

  /** Both refuse property writes; copies, cache hooks and equality agree. */
  lemma HooksAgree(catalog: Catalog, m: Money, property: int, value: Option<MC.Scalar>, x: Option<Money>, y: Option<Money>)
    ensures G.SetPropertyValue(MoneyType(catalog), m, property, value).Err?
    ensures MC.SetPropertyValue(m, property, value).Err?
    ensures G.DeepCopy(MoneyType(catalog), x) == MC.DeepCopy(x)
    ensures G.Assemble(MoneyType(catalog), x) == MC.Assemble(x)
    ensures G.Disassemble(MoneyType(catalog), x) == MC.Disassemble(x)
    ensures G.Equals((a: Money, b: Money) => MoneyValue.Equals(a, Some(b)), x, y) == MC.Equals(x, y)
  {
  }
}
