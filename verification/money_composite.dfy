/** The hand-written two-column mapper for money of
    Money.Storage.NHibernate/MoneyCompositeUserType.cs.  Slot 0 holds the
    amount (a decimal column), slot 1 the culture name (a string column).
    The type is immutable: copies are the value itself and property writes
    are refused. */
module MoneyComposite {
  import opened Results
  import opened Cultures
  import opened MoneyValue

  /** A non-null column value of one of the two declared column types. */
  datatype Scalar = DecimalValue(d: real) | StringValue(s: string)

  /** The declared column types, `NHibernateUtil.Decimal` and `NHibernateUtil.String`. */
  datatype ColumnType = DecimalColumn | StringColumn

  const PropertyNames: seq<string> := ["Amount", "CultureInfo"]

  const PropertyTypes: seq<ColumnType> := [DecimalColumn, StringColumn]

  const IsMutable: bool := false

  /** Whether a non-null column value has the declared column type. */
  predicate OfType(v: Scalar, t: ColumnType) {
    match t
    case DecimalColumn => v.DecimalValue?
    case StringColumn => v.StringValue?
  }

  /** The construction step once both values are in hand: unbox slot 0 as a
      decimal (a null fails as a null dereference), cast slot 1 to a string,
      and build the money from the amount and the culture name. */
  function Hydrate(catalog: Catalog, values: seq<Option<Scalar>>): (r: Result<Money, Error>)
    ensures |values| < 2 ==> r == Err(IndexOutOfRange)
    ensures |values| >= 2 && values[0].None? ==> r == Err(NullReference)
    ensures |values| >= 2 && values[0].Some? && values[0].value.DecimalValue? && values[1].None? ==>
              r == Err(ArgumentNull("name"))
    ensures |values| >= 2 && values[0].Some? && values[0].value.StringValue? ==> r == Err(InvalidCast)
    ensures (|values| >= 2 && values[0].Some? && values[0].value.DecimalValue?
             && values[1].Some? && values[1].value.DecimalValue?) ==>
              r == Err(InvalidCast)
    ensures (|values| >= 2 && values[0].Some? && values[0].value.DecimalValue?
             && values[1].Some? && values[1].value.StringValue? && catalog(values[1].value.s).None?) ==>
              r == Err(CultureNotFound(values[1].value.s))
    ensures r.Ok? <==>
              && |values| >= 2
              && values[0].Some? && OfType(values[0].value, PropertyTypes[0])
              && values[1].Some? && OfType(values[1].value, PropertyTypes[1])
              && catalog(values[1].value.s).Some?
    ensures r.Ok? ==> r.value.Amount() == values[0].value.d
    ensures r.Ok? ==> Some(r.value.culture) == catalog(values[1].value.s)
  {
    if |values| < 2 then Err(IndexOutOfRange)
    else match values[0]
      case None => Err(NullReference)
      case Some(StringValue(_)) => Err(InvalidCast)
      case Some(DecimalValue(amount)) =>
        match values[1]
        case None => FromName(catalog, amount, None)
        case Some(DecimalValue(_)) => Err(InvalidCast)
        case Some(StringValue(name)) => FromName(catalog, amount, Some(name))
  }

  /** Whether both column values convert to their declared column types; a
      null converts to null. */
  predicate Converts(columns: seq<Option<Scalar>>)
    requires |columns| >= 2
  {
    && (columns[0].Some? ==> OfType(columns[0].value, PropertyTypes[0]))
    && (columns[1].Some? ==> OfType(columns[1].value, PropertyTypes[1]))
  }

  /** `NullSafeGet`: the two columns, in the order of the column names, are
      converted to their column types first (a value of the wrong kind fails
      with InvalidCast); then, if either is null the money is absent, and
      otherwise it is built from them. */
  function NullSafeGet(catalog: Catalog, columns: seq<Option<Scalar>>): (r: Result<Option<Money>, Error>)
    requires |columns| >= 2
    ensures !Converts(columns) ==> r == Err(InvalidCast)
    ensures r == Ok(None) <==> Converts(columns) && (columns[0].None? || columns[1].None?)
    ensures r.Ok? && r.value.Some? ==>
              && columns[0] == Some(DecimalValue(r.value.value.Amount()))
              && columns[1].Some? && columns[1].value.StringValue?
              && catalog(columns[1].value.s) == Some(r.value.value.culture)
    ensures columns[0].Some? && columns[1].Some? ==> (r.Err? <==> Hydrate(catalog, columns).Err?)
    ensures columns[0].Some? && columns[1].Some? && Hydrate(catalog, columns).Err? ==>
              r == Err(Hydrate(catalog, columns).error)
  {
    if !Converts(columns) then Err(InvalidCast)
    else if columns[0].None? || columns[1].None? then Ok(None)
    else
      match Hydrate(catalog, columns)
      case Ok(m) => Ok(Some(m))
      case Err(e) => Err(e)
  }

  /** `NullSafeSet`: null writes DBNull to parameters `index` and `index + 1`;
      a money writes its amount and its culture name there.  No other
      parameter changes. */
  function NullSafeSet(parameters: seq<Option<Scalar>>, obj: Option<Money>, index: nat): (r: seq<Option<Scalar>>)
    requires index + 1 < |parameters|
    ensures |r| == |parameters|
    ensures obj.None? ==> r[index] == None && r[index + 1] == None
    ensures obj.Some? ==> r[index] == Some(DecimalValue(obj.value.Amount()))
    ensures obj.Some? ==> r[index + 1] == Some(StringValue(obj.value.EnglishCultureName()))
    ensures forall j :: 0 <= j < |parameters| && j != index && j != index + 1 ==> r[j] == parameters[j]
  {
    match obj
    case None => parameters[index := None][index + 1 := None]
    case Some(src) =>
      parameters[index := Some(DecimalValue(src.Amount()))][index + 1 := Some(StringValue(src.EnglishCultureName()))]
  }

  /** `NullSafeSet` on a command's parameter array. */
  method NullSafeSetInto(cmd: array<Option<Scalar>>, obj: Option<Money>, index: nat)
    requires index + 1 < cmd.Length
    modifies cmd
    ensures cmd[..] == NullSafeSet(old(cmd[..]), obj, index)
  {
    match obj {
      case None =>
        cmd[index] := None;
        cmd[index + 1] := None;
      case Some(src) =>
        cmd[index] := Some(DecimalValue(src.Amount()));
        cmd[index + 1] := Some(StringValue(src.EnglishCultureName()));
    }
  }

  /** `GetPropertyValue`: the amount for property 0, the culture name for
      every other index. */
  function GetPropertyValue(component: Money, property: int): (r: Scalar)
    ensures property == 0 <==> r.DecimalValue?
    ensures OfType(r, PropertyTypes[if property == 0 then 0 else 1])
    ensures r.DecimalValue? ==> r.d == component.Amount()
    ensures r.StringValue? ==> r.s == component.EnglishCultureName()
  {
    if property == 0 then DecimalValue(component.Amount()) else StringValue(component.EnglishCultureName())
  }

  /** `SetPropertyValue`: always refused. */
  function SetPropertyValue(component: Money, property: int, value: Option<Scalar>): (r: Result<Money, Error>)
    ensures r == Err(ImmutableMoney)
  {
    Err(ImmutableMoney)
  }

  /** `Equals(x, y)`: identity, then null, then the money's own `Equals`. */
  function Equals(x: Option<Money>, y: Option<Money>): (r: bool)
    ensures r <==> OpEquals(x, y)
    ensures x.Some? ==> (r <==> MoneyValue.Equals(x.value, y))
  {
    if x == y then true
    else if x.None? || y.None? then false
    else MoneyValue.Equals(x.value, y)
  }

  /** `DeepCopy`: a money is immutable, so the copy may share the value;
      null stays null and a money stays equal to itself. */
  function DeepCopy(value: Option<Money>): (r: Option<Money>)
    ensures r.None? <==> value.None?
    ensures Equals(r, value)
  {
    value
  }

  /** `Assemble`: reading from the cache is a copy of the cached money. */
  function Assemble(cached: Option<Money>): (r: Option<Money>)
    ensures r == DeepCopy(cached)
    ensures Equals(r, cached)
  {
    cached
  }

  /** `Disassemble`: the money itself is cached. */
  function Disassemble(value: Option<Money>): (r: Option<Money>)
    ensures r.None? <==> value.None?
    ensures Assemble(r) == value
  {
    value
  }

  /** `Replace`: merging an immutable value keeps the original and ignores
      the target. */
  function Replace(original: Option<Money>, target: Option<Money>): (r: Option<Money>)
    ensures Equals(r, original)
    ensures r.None? <==> original.None?
  {
    original
  }

  // ---------------------------------------------------------------------
  // Laws

  /** Round trip: reading back what `NullSafeSet` wrote for a money gives an
      identical money, hence an equal one, whenever the catalog resolves the
      stored culture name to the money's culture. */
  lemma ReadAfterWrite(catalog: Catalog, parameters: seq<Option<Scalar>>, m: Money, index: nat)
    requires index + 1 < |parameters|
    requires Resolved(catalog, m)
    ensures NullSafeGet(catalog, NullSafeSet(parameters, Some(m), index)[index..index + 2]) == Ok(Some(m))
    ensures Equals(Some(m), NullSafeGet(catalog, NullSafeSet(parameters, Some(m), index)[index..index + 2]).value)
  {
  }

  /** Writing null and reading it back gives null. */
  lemma ReadAfterNullWrite(catalog: Catalog, parameters: seq<Option<Scalar>>, index: nat)
    requires index + 1 < |parameters|
    ensures NullSafeGet(catalog, NullSafeSet(parameters, None, index)[index..index + 2]) == Ok(None)
  {
  }

  /** The column order is fixed: the same two values in swapped columns are
      not read back as the money but refused as a cast error. */
  lemma SwappedColumnsAreRefused(catalog: Catalog, m: Money)
    ensures NullSafeGet(catalog, [Some(StringValue(m.EnglishCultureName())), Some(DecimalValue(m.Amount()))])
            == Err(InvalidCast)
  {
  }

  /** Property `i`, for `i` in 0 and 1, is the value `NullSafeSet` writes to
      slot `index + i`, of the type declared for property `i`, under the name
      declared for property `i`. */
  lemma PropertyOrderMatchesSlots(parameters: seq<Option<Scalar>>, m: Money, index: nat, i: nat)
    requires index + 1 < |parameters| && i < 2
    ensures Some(GetPropertyValue(m, i)) == NullSafeSet(parameters, Some(m), index)[index + i]
    ensures OfType(GetPropertyValue(m, i), PropertyTypes[i])
    ensures PropertyNames[i] == (if i == 0 then "Amount" else "CultureInfo")
  {
  }

  /** The cache and merge hooks hand back their argument, so they keep
      every value equal to itself; the mapper's equality is an equivalence. */
  lemma CopyHooksAreIdentity(v: Option<Money>, w: Option<Money>, u: Option<Money>)
    ensures DeepCopy(v) == v && Assemble(Disassemble(v)) == v && Replace(v, w) == v
    ensures Equals(DeepCopy(v), v)
    ensures Equals(v, w) ==> Equals(w, v)
    ensures Equals(v, w) && Equals(w, u) ==> Equals(v, u)
    ensures !IsMutable
  {
  }
}
