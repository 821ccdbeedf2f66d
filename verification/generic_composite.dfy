/** The generic N-column mapper of
    Money.Storage.NHibernate/GenericCompositeUserType.cs.  A component of
    type `T` is spread over `n` ordered storage columns, one per mapped
    property.  The reflective property lookup of the source becomes an
    explicit sequence of `Property` accessors, the `GetMap` and
    `DeepCopyMap` delegates become function values.  Both delegates return a
    nullable `T`, as in the source, so either may hand back null.

    Storage is abstract: a data reader presents the component's columns, in
    the order of the column names, as a sequence of optional values (`None`
    is DBNull); a command's parameter collection is a sequence of slots. */
module GenericComposite {
  import opened Results

  /** One mapped property: its name, how to read it off a component and how
      to write it (used only when the type is mutable). */
  datatype Property<!T, !V> = Property(name: string, getter: T -> Option<V>, setter: (T, Option<V>) -> T)

  /** The mapper's configuration, fixed at construction: the mutability
      flag, the properties in column order, the optional `GetMap` builder and
      the `DeepCopyMap` duplicator. */
  datatype CompositeType<!T, !V> = CompositeType(
    isMutable: bool,
    properties: seq<Property<T, V>>,
    getMap: Option<seq<Option<V>> -> Result<Option<T>, Error>>,
    deepCopyMethod: T -> Option<T>)

  /** The property values of `component`, in column order. */
  function Values<T, V>(c: CompositeType<T, V>, component: T): (r: seq<Option<V>>)
    ensures |r| == |c.properties|
  {
    seq(|c.properties|, i requires 0 <= i < |c.properties| => c.properties[i].getter(component))
  }

  /** `PropertyNames`: the property names, left to right in column order. */
  function PropertyNames<T, V>(c: CompositeType<T, V>): (r: seq<string>)
    ensures |r| == |c.properties|
    ensures forall i :: 0 <= i < |r| ==> r[i] == c.properties[i].name
  {
    seq(|c.properties|, i requires 0 <= i < |c.properties| => c.properties[i].name)
  }

  /** A builder's non-null outcome as the nullable object a `GetMap` returns. */
  function Lift<T>(built: Result<T, Error>): Result<Option<T>, Error> {
    match built
    case Ok(t) => Ok(Some(t))
    case Err(e) => Err(e)
  }

  // ---------------------------------------------------------------------
  // Reading and writing columns

  /** `NullSafeGet`: a null reader gives null; otherwise one value per
      property is read, value `i` from column `i`, and the list goes to
      `GetMap`, whose answer (null included) is returned unchecked.  No
      column value is checked for null.  Without a `GetMap` the source falls
      back on reflection, which is modelled as a failure. */
  function NullSafeGet<T, V>(c: CompositeType<T, V>, reader: Option<seq<Option<V>>>): (r: Result<Option<T>, Error>)
    requires reader.Some? ==> |c.properties| <= |reader.value|
    ensures reader.None? ==> r == Ok(None)
    ensures reader.Some? && c.getMap.None? ==> r == Err(MissingGetMap)
    ensures reader.Some? && c.getMap.Some? ==>
              r == c.getMap.value(reader.value[..|c.properties|])
  {
    match reader
    case None => Ok(None)
    case Some(columns) =>
      match c.getMap
      case None => Err(MissingGetMap)
      case Some(build) => build(columns[..|c.properties|])
  }

  /** Writes property `i` of `t`, for every `i`, into slot `at + i`, one
      property after the other as the source's loop does. */
  function WriteFrom<T, V>(props: seq<Property<T, V>>, slots: seq<Option<V>>, t: T, at: nat): (r: seq<Option<V>>)
    requires at + |props| <= |slots|
    ensures |r| == |slots|
    ensures forall i :: 0 <= i < |props| ==> r[at + i] == props[i].getter(t)
    ensures forall j :: 0 <= j < |slots| && !(at <= j < at + |props|) ==> r[j] == slots[j]
    decreases |props|
  {
    if |props| == 0 then slots
    else WriteFrom(props[1..], slots[at := props[0].getter(t)], t, at + 1)
  }

  /** `NullSafeSet`: a null component writes nothing; otherwise property `i`
      goes to parameter `index + i` and every other parameter is unchanged. */
  function NullSafeSet<T, V>(c: CompositeType<T, V>, parameters: seq<Option<V>>, value: Option<T>, index: nat)
    : (r: seq<Option<V>>)
    requires index + |c.properties| <= |parameters|
    ensures |r| == |parameters|
    ensures value.None? ==> r == parameters
    ensures value.Some? ==> r[index..index + |c.properties|] == Values(c, value.value)
    ensures forall j :: 0 <= j < |parameters| && !(index <= j < index + |c.properties|) ==> r[j] == parameters[j]
  {
    match value
    case None => parameters
    case Some(t) => WriteFrom(c.properties, parameters, t, index)
  }

  /** `NullSafeSet` on a command's parameter array, written as the source's
      loop with its running parameter index. */
  method NullSafeSetInto<T, V>(c: CompositeType<T, V>, cmd: array<Option<V>>, value: Option<T>, index: nat)
    requires index + |c.properties| <= cmd.Length
    modifies cmd
    ensures cmd[..] == NullSafeSet(c, old(cmd[..]), value, index)
  {
    if value.None? {
      return;
    }
    var t := value.value;
    var propIndexer := index;
    for i := 0 to |c.properties|
      invariant propIndexer == index + i
      invariant forall k :: 0 <= k < i ==> cmd[index + k] == c.properties[k].getter(t)
      invariant forall j :: 0 <= j < cmd.Length && !(index <= j < index + i) ==> cmd[j] == old(cmd[j])
    {
      cmd[propIndexer] := c.properties[i].getter(t);
      propIndexer := propIndexer + 1;
    }
  }

  // ---------------------------------------------------------------------
  // Properties, equality, copies

  /** `GetPropertyValue`: accessor `property` applied to the component; an
      index outside the property list fails. */
  function GetPropertyValue<T, V>(c: CompositeType<T, V>, component: T, property: int): (r: Result<Option<V>, Error>)
    ensures r.Ok? <==> 0 <= property < |c.properties|
    ensures r.Err? ==> r.error == IndexOutOfRange
    ensures r.Ok? ==> r.value == Values(c, component)[property]
  {
    if 0 <= property < |c.properties| then Ok(c.properties[property].getter(component)) else Err(IndexOutOfRange)
  }

  /** `SetPropertyValue`: refused outright for an immutable type, whatever
      the index; otherwise property `property` is written. */
  function SetPropertyValue<T, V>(c: CompositeType<T, V>, component: T, property: int, value: Option<V>)
    : (r: Result<T, Error>)
    ensures !c.isMutable ==> r == Err(ImmutableComponent)
    ensures c.isMutable ==> (r.Ok? <==> 0 <= property < |c.properties|)
    ensures r.Err? && c.isMutable ==> r.error == IndexOutOfRange
    ensures r.Ok? ==> r.value == c.properties[property].setter(component, value)
  {
    if !c.isMutable then Err(ImmutableComponent)
    else if 0 <= property < |c.properties| then Ok(c.properties[property].setter(component, value))
    else Err(IndexOutOfRange)
  }

  /** `Equals(x, y)`: identity is equal, null against non-null is not,
      otherwise the component type's own equality `eq` decides. */
  function Equals<T(==)>(eq: (T, T) -> bool, x: Option<T>, y: Option<T>): (r: bool)
    ensures x == y ==> r
    ensures x.None? != y.None? ==> !r
    ensures x.Some? && y.Some? && x != y ==> (r <==> eq(x.value, y.value))
  {
    if x == y then true
    else if x.None? || y.None? then false
    else eq(x.value, y.value)
  }

  /** `DeepCopy`: null passes through, anything else goes to `DeepCopyMap`,
      whose answer (null included) is returned unchecked. */
  function DeepCopy<T, V>(c: CompositeType<T, V>, value: Option<T>): (r: Option<T>)
    ensures value.None? ==> r.None?
    ensures value.Some? ==> r == c.deepCopyMethod(value.value)
  {
    match value
    case None => None
    case Some(t) => c.deepCopyMethod(t)
  }

  /** `Disassemble`: the cache-store path, exactly `DeepCopy`. */
  function Disassemble<T, V>(c: CompositeType<T, V>, value: Option<T>): (r: Option<T>)
    ensures r == DeepCopy(c, value)
  {
    DeepCopy(c, value)
  }

  /** `Assemble`: the cache-read path, exactly `DeepCopy`. */
  function Assemble<T, V>(c: CompositeType<T, V>, cached: Option<T>): (r: Option<T>)
    ensures r == DeepCopy(c, cached)
  {
    DeepCopy(c, cached)
  }

  // ---------------------------------------------------------------------
  // Laws

  /** The documented obligation on `GetMap`, for one component: the values
      passed in hydrate the new instance, so rebuilding from `t`'s own
      property values gives `t` back. */
  ghost predicate Rebuilds<T, V>(c: CompositeType<T, V>, t: T) {
    c.getMap.Some? && c.getMap.value(Values(c, t)) == Ok(Some(t))
  }

  /** Round trip: reading back the slots `NullSafeSet` wrote rebuilds the
      component, provided `GetMap` hydrates it. */
  lemma ReadAfterWrite<T, V>(c: CompositeType<T, V>, parameters: seq<Option<V>>, t: T, index: nat)
    requires index + |c.properties| <= |parameters|
    requires Rebuilds(c, t)
    ensures NullSafeGet(c, Some(NullSafeSet(c, parameters, Some(t), index)[index..index + |c.properties|]))
            == Ok(Some(t))
  {
    var n := |c.properties|;
    var slots := NullSafeSet(c, parameters, Some(t), index)[index..index + n];
    assert slots[..n] == slots == Values(c, t);
  }

  /** Writing null leaves the slots as they were, so reading them back hands
      the old contents to `GetMap`: null comes back only if `GetMap` itself
      answers null for those contents. */
  lemma NullWriteReadsOldContents<T, V>(c: CompositeType<T, V>, parameters: seq<Option<V>>, index: nat)
    requires index + |c.properties| <= |parameters|
    requires c.getMap.Some?
    ensures NullSafeSet(c, parameters, None, index) == parameters
    ensures NullSafeGet(c, Some(NullSafeSet(c, parameters, None, index)[index..index + |c.properties|]))
            == c.getMap.value(parameters[index..index + |c.properties|])
    ensures NullSafeGet(c, Some(NullSafeSet(c, parameters, None, index)[index..index + |c.properties|])) == Ok(None)
            <==> c.getMap.value(parameters[index..index + |c.properties|]) == Ok(None)
  {
    var n := |c.properties|;
    assert parameters[index..index + n][..n] == parameters[index..index + n];
  }

  /** What `GetPropertyValue` reports for property `i` is what `NullSafeSet`
      writes into slot `index + i`. */
  lemma PropertyValueIsWrittenSlot<T, V>(c: CompositeType<T, V>, parameters: seq<Option<V>>, t: T, index: nat, i: nat)
    requires index + |c.properties| <= |parameters| && i < |c.properties|
    ensures GetPropertyValue(c, t, i) == Ok(NullSafeSet(c, parameters, Some(t), index)[index + i])
  {
  }

  /** Accessors and setters that behave like fields: reading a property
      after writing it gives the written value, and writing one property
      leaves the others alone. */
  ghost predicate FieldLike<T(!new), V(!new)>(c: CompositeType<T, V>) {
    forall i, t, v, k :: 0 <= i < |c.properties| && 0 <= k < |c.properties| ==>
      c.properties[k].getter(c.properties[i].setter(t, v)) == (if k == i then v else c.properties[k].getter(t))
  }

  /** On a mutable type with field-like properties, `SetPropertyValue`
      changes property `property` and nothing else; on an immutable type it
      fails and the component is untouched. */
  lemma SetChangesOnlyThatProperty<T(!new), V(!new)>(c: CompositeType<T, V>, component: T, property: nat, value: Option<V>)
    requires property < |c.properties|
    requires c.isMutable ==> FieldLike(c)
    ensures !c.isMutable ==> SetPropertyValue(c, component, property, value).Err?
    ensures c.isMutable ==>
              var updated := SetPropertyValue(c, component, property, value).value;
              Values(c, updated) == Values(c, component)[property := value]
  {
  }

  /** With an equivalence `eq`, the mapper's `Equals` is an equivalence on
      nullable components. */
  lemma EqualsIsEquivalence<T>(eq: (T, T) -> bool, x: Option<T>, y: Option<T>, z: Option<T>)
    requires forall a :: eq(a, a)
    requires forall a, b :: eq(a, b) ==> eq(b, a)
    requires forall a, b, d :: eq(a, b) && eq(b, d) ==> eq(a, d)
    ensures Equals(eq, x, x)
    ensures Equals(eq, x, y) ==> Equals(eq, y, x)
    ensures Equals(eq, x, y) && Equals(eq, y, z) ==> Equals(eq, x, z)
  {
  }

  /** A cache round trip (disassemble, then assemble) keeps null as null and
      yields a component equal to the original when `DeepCopyMap` never
      answers null and preserves an equivalence `eq`. */
  lemma CacheRoundTrip<T(!new), V>(c: CompositeType<T, V>, eq: (T, T) -> bool, value: Option<T>)
    requires forall a :: c.deepCopyMethod(a).Some? && eq(c.deepCopyMethod(a).value, a)
    requires forall a, b, d :: eq(a, b) && eq(b, d) ==> eq(a, d)
    ensures value.None? ==> Assemble(c, Disassemble(c, value)) == None
    ensures Equals(eq, Assemble(c, Disassemble(c, value)), value)
  {
  }

  /** A duplicator that answers null for a component loses it in the cache:
      the round trip of that component gives null. */
  lemma NullCopyIsCachedAsNull<T, V>(c: CompositeType<T, V>, t: T)
    requires c.deepCopyMethod(t).None?
    ensures Disassemble(c, Some(t)) == None
    ensures Assemble(c, Disassemble(c, Some(t))) == None
  {
  }
}
