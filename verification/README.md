# Money and composite column mappers, in Dafny

This project models the core of a small C# library with three parts:

- **`Money`**: an immutable pair of a decimal amount and a culture. The ISO 4217 currency code comes from the culture's region.
  - Addition, subtraction and the four comparison operators refuse to mix currencies.
  - Multiplication rounds the product down, and division is exact.
  - Equality means "same currency code and same amount".
- **`MoneyCompositeUserType`**: the hand-written NHibernate mapper. It stores a `Money` in two columns: the amount, then the culture name.
- **`GenericCompositeUserType<T>`**: the generic mapper. It spreads a component over `n` ordered columns, one per mapped property. A `GetMap` builder rebuilds the component, and a `DeepCopyMap` duplicator copies it.

Modelling choices:

- A .NET `null` becomes `None`, and a thrown exception becomes `Err` (see `results.dfy`).
- Amounts are exact `real`s.
- A `Cultures.Catalog` parameter stands in for the culture and region tables. It is a function from a culture name to a resolved `Culture`, which holds the culture's name and the region's currency code.
  - The catalog is a parameter because that data belongs to .NET, not to this library.
  - The test suite asserts facts about three cultures. These are the predicate `Cultures.AgreesWithTests`: en-CA and fr-CA map to CAD, and en-US maps to USD. Lemmas that need those facts assume it.
- Storage is abstract:
  - A data reader is the component's column values, in the order of the column names, as `seq<Option<V>>`. `None` is DBNull.
  - A command's parameters are a sequence of slots. `NullSafeSet` returns the updated sequence. `NullSafeSetInto` does the same write in place on an array.
- Reference identity (`ReferenceEquals`, `x == y` on objects) is modelled as value identity. For `Money` this changes no result, because identical values are always `Equals`.
- The generic mapper's reflective property lookup is replaced by a sequence of `Property` values. Each has a name, a getter and a setter. `GetMap` and `DeepCopyMap` are function values.

Files:

- `results.dfy`: `Option`, `Result` and the shared `Error` type.
- `cultures.dfy`: the culture catalog.
- `money.dfy`: the `Money` operations.
- `money_laws.dfy`: lemmas that relate the `Money` operations.
- `generic_composite.dfy`: the generic mapper.
- `money_composite.dfy`: the money mapper.
- `money_as_generic.dfy`: the generic mapper configured for `Money`, compared with the hand-written one.

Behaviours of the code that the model keeps as written:

- The generic `NullSafeGet` does not treat a partly null row as absent (GenericCompositeUserType.cs:206-221). It returns null for a null reader, hands null column values on to `GetMap`, and returns whatever `GetMap` answers, null included.
- The generic `NullSafeSet` of null writes nothing (GenericCompositeUserType.cs:246-247). The money mapper writes DBNull to both slots instead (MoneyCompositeUserType.cs:34-38).
- `GetMap` and `DeepCopyMap` return a nullable `T` (GenericCompositeUserType.cs:135, 142), and their answers are passed on unchecked (:220, :275). The model's delegates may answer null too.
- The mappers' `Equals` methods and `Money`'s `==` are written separately. The model proves they agree (`MoneyComposite.Equals`).

## Model

| member | source | states |
|---|---|---|
| Cultures.Resolve | Money/Money.cs:28-29 | Resolving a culture name fails with ArgumentNull for null and CultureNotFound for an unknown name; otherwise it yields the catalog's culture |
| Cultures.TestCulturesAgree | Money.Specs/When_creating_a_new_Money_with_no_args.cs:95-143 | The test facts (en-CA and fr-CA are CAD, en-US is USD) are consistent: a catalog with those entries exists |
| MoneyValue.Money.Amount | Money/Money.cs:53-56 | The decimal amount the value was built with |
| MoneyValue.Money.EnglishCultureName | Money/Money.cs:45-48 | The culture's `CultureInfo.Name`, such as "fr-CA", which is the culture code and not the English display name |
| MoneyValue.Money.ISOCurrencySymbol | Money/Money.cs:49-52 | The region's ISO 4217 currency code, fixed at construction |
| MoneyValue.FromCulture | Money/Money.cs:31-44 | Construction from a culture object reports back the given amount and culture; a null culture fails with ArgumentNull("cultureInfo") |
| MoneyValue.ZeroFromCulture | Money/Money.cs:30 | The culture-only constructor gives amount 0 with that culture; null is rejected |
| MoneyValue.FromName | Money/Money.cs:29 | Construction from a name succeeds exactly when the name is non-null and resolves; the amount is the given one and the culture is the resolved one |
| MoneyValue.ZeroFromName | Money/Money.cs:28 | The name-only constructor gives amount 0 and succeeds exactly when the name resolves |
| MoneyValue.InCurrentCulture | Money/Money.cs:25-27 | The ambient-culture constructors report the given amount, the current culture's name and its currency code |
| MoneyValue.Add | Money/Money.cs:81-89 | Fails with CurrencyMismatch exactly when the currency codes differ; otherwise the amount is the sum and the culture is the catalog's culture for the first operand's name, which is the first operand's own culture when the catalog resolves it back |
| MoneyValue.Subtract | Money/Money.cs:90-98 | Same guard as Add; the amount is the difference and the culture is looked up again from the first operand's name |
| MoneyValue.Multiply | Money/Money.cs:135-143 | Null money fails with ArgumentNull; the result amount r is a whole number with r <= amount*factor < r+1, and the culture is looked up again from the operand's name, so kept whenever the catalog resolves it back |
| MoneyValue.Divide | Money/Money.cs:144-152 | Null money fails with ArgumentNull and a zero divisor with DivideByZero; otherwise result*divisor equals the amount, and the culture is looked up again from the operand's name, so kept whenever the catalog resolves it back |
| MoneyValue.SameCurrency | Money/Money.cs:115-119 | The currency guard compares currency codes, so two values of one culture always pass it |
| MoneyValue.Equals | Money/Money.cs:120-124 | Null is never equal; equal values share a currency; within one currency, equality is equality of amounts; every value equals itself |
| MoneyValue.OpEquals | Money/Money.cs:125-130 | `==` holds between two nulls, never between null and non-null, and otherwise exactly when `Equals` holds |
| MoneyValue.OpNotEquals | Money/Money.cs:131-134 | `!=` dereferences its left operand, so null fails with NullReference; otherwise it is the negation of `==` |
| MoneyValue.Greater | Money/Money.cs:61-65 | Fails exactly on a currency mismatch; otherwise it is true iff the first amount is larger |
| MoneyValue.GreaterOrEqual | Money/Money.cs:66-70 | Fails exactly on a currency mismatch; otherwise it compares amounts with >= |
| MoneyValue.LessOrEqual | Money/Money.cs:71-75 | Fails exactly on a currency mismatch; otherwise it compares amounts with <= |
| MoneyValue.Less | Money/Money.cs:76-80 | Fails exactly on a currency mismatch; otherwise it compares amounts with < |
| MoneyValue.CompareTo | Money/Money.cs:173-184 | Fails exactly on a currency mismatch; otherwise it returns one of -1, 0 or 1: -1 iff less, 1 iff greater, 0 iff `Equals` |
| MoneyValue.CompareToObject | Money/Money.cs:161-172 | Comparing with null gives 1; comparing with a money gives exactly CompareTo's answer, failure included |
| MoneyValue.Copy | Money/Money.cs:153-156 | A copy has the same amount and culture, and is `Equals` to the original in both directions |
| MoneyValue.Clone | Money/Money.cs:157-160 | A clone keeps the culture (so the currency) and has amount 0 |
| MoneyLaws.EqualsIsEquivalence | Money/Money.cs:120-124 | `Equals` is reflexive, symmetric and transitive |
| MoneyLaws.EqualityIgnoresCultureSpelling | Money/Money.cs:120-130 | With the tested culture data, en-CA and fr-CA values of one amount are equal though their cultures differ; en-CA and en-US values are not equal |
| MoneyLaws.ZeroConstructorsReportTheirCulture | Money.Specs/When_creating_a_new_Money_with_no_args.cs:95-143 | With the tested culture data, `new Money(name)` gives amount 0 and the tested culture and currency; a null name fails |
| MoneyLaws.AddAcrossCurrenciesFails | Money/Money.cs:115-119 | CAD plus USD, and CAD < USD, fail with CurrencyMismatch |
| MoneyLaws.AdditionExample | Money/Money.cs:81-89 | 4.33 + 0.67 = 5.00 exactly, in the first operand's culture |
| MoneyLaws.MultiplicationExamples | Money/Money.cs:135-139 | 10.00 * 0.5 = 5.00; -10.01 * 1 = -11, rounding toward negative infinity |
| MoneyLaws.SubtractUndoesAdd | Money/Money.cs:81-98 | (a + b) - b gives back a exactly, culture included |
| MoneyLaws.AddCommutesUpToEquals | Money/Money.cs:81-89 | a + b and b + a are `Equals`, though their cultures may differ |
| MoneyLaws.CloneIsAdditiveIdentity | Money/Money.cs:157-160 | Adding a clone, on either side, gives back the original |
| MoneyLaws.MultiplyByOneRoundsDown | Money/Money.cs:135-139 | Multiplying by 1 gives the floor of the amount, so it is the identity exactly on whole amounts |
| MoneyLaws.DivideThenMultiply | Money/Money.cs:135-152 | For a whole amount, dividing by d and multiplying back by d gives back the original |
| MoneyLaws.NotEqualsNegatesEquals | Money/Money.cs:125-134 | For a non-null left operand `!=` is the negation of `==`; `==` is symmetric, true for two nulls and false for null against non-null |
| MoneyLaws.CompareToAntisymmetric | Money/Money.cs:173-184 | CompareTo(a, b) fails iff CompareTo(b, a) fails, and otherwise CompareTo(b, a) = -CompareTo(a, b) |
| MoneyLaws.CompareToMatchesOperators | Money/Money.cs:61-80 | Within one currency, CompareTo's sign matches `<`, `>`, `<=`, `>=`, and 0 matches `==` |
| MoneyLaws.CompareToTransitive | Money/Money.cs:173-184 | CompareTo orders values of one currency transitively |
| MoneyLaws.CopyAndClone | Money/Money.cs:153-160 | A copy is identical and `==` to its original; a clone is `==` to it iff the original's amount is 0 |
| GenericComposite.PropertyNames | Money.Storage.NHibernate/GenericCompositeUserType.cs:287-293 | The names are listed left to right, one per mapped property |
| GenericComposite.NullSafeGet | Money.Storage.NHibernate/GenericCompositeUserType.cs:204-221 | A null reader gives null. Otherwise the first n columns, in order and without null checks, go to GetMap and its answer, null included, is returned; a missing GetMap fails |
| GenericComposite.WriteFrom | Money.Storage.NHibernate/GenericCompositeUserType.cs:248-265 | Writing the properties one after another with a running index puts property i in slot at+i and leaves every other slot unchanged |
| GenericComposite.NullSafeSet | Money.Storage.NHibernate/GenericCompositeUserType.cs:244-266 | Null writes nothing. Otherwise slots index..index+n hold the component's property values in order, and every other slot is unchanged |
| GenericComposite.NullSafeSetInto | Money.Storage.NHibernate/GenericCompositeUserType.cs:244-266 | The in-place loop over the parameter array leaves exactly what NullSafeSet describes |
| GenericComposite.GetPropertyValue | Money.Storage.NHibernate/GenericCompositeUserType.cs:145-160 | Property i is accessor i applied to the component; an index outside the list fails with IndexOutOfRange |
| GenericComposite.SetPropertyValue | Money.Storage.NHibernate/GenericCompositeUserType.cs:162-183 | An immutable type refuses every write with ImmutableComponent; a mutable one refuses an out-of-range index and otherwise gives the component as setter i leaves it |
| GenericComposite.Equals | Money.Storage.NHibernate/GenericCompositeUserType.cs:185-190 | Identity is equal, null against non-null is not, and otherwise the component type's own equality decides |
| GenericComposite.DeepCopy | Money.Storage.NHibernate/GenericCompositeUserType.cs:268-276 | Null passes through; otherwise the result is DeepCopyMap's answer for the value, null included |
| GenericComposite.Disassemble | Money.Storage.NHibernate/GenericCompositeUserType.cs:278-281 | Disassemble is exactly DeepCopy |
| GenericComposite.Assemble | Money.Storage.NHibernate/GenericCompositeUserType.cs:283-286 | Assemble is exactly DeepCopy |
| GenericComposite.ReadAfterWrite | Money.Storage.NHibernate/GenericCompositeUserType.cs:106-116 | If GetMap hydrates a component from its own property values, as its documentation requires, then reading back the written slots returns that component |
| GenericComposite.NullWriteReadsOldContents | Money.Storage.NHibernate/GenericCompositeUserType.cs:246-247 | Writing null leaves the slots as they were, so reading them back gives GetMap's answer for the old contents, and null only if GetMap answers null for them |
| GenericComposite.PropertyValueIsWrittenSlot | Money.Storage.NHibernate/GenericCompositeUserType.cs:252-265 | GetPropertyValue(i) is exactly what NullSafeSet writes to slot index+i |
| GenericComposite.SetChangesOnlyThatProperty | Money.Storage.NHibernate/GenericCompositeUserType.cs:162-183 | An immutable type refuses the write. On a mutable type with field-like properties, the write changes property i to the new value and no other property |
| GenericComposite.EqualsIsEquivalence | Money.Storage.NHibernate/GenericCompositeUserType.cs:185-190 | If the component type's equality is an equivalence, the mapper's Equals on nullable components is one too |
| GenericComposite.CacheRoundTrip | Money.Storage.NHibernate/GenericCompositeUserType.cs:278-286 | Disassembling then assembling keeps null as null, and gives an equal component when DeepCopyMap never answers null and preserves equality |
| GenericComposite.NullCopyIsCachedAsNull | Money.Storage.NHibernate/GenericCompositeUserType.cs:268-286 | A component for which DeepCopyMap answers null comes back from the cache round trip as null |
| MoneyComposite.Hydrate | Money.Storage.NHibernate/MoneyCompositeUserType.cs:27-29 | Building from two values succeeds exactly when slot 0 is a decimal and slot 1 a resolvable name; the amount is slot 0 and the culture is the one slot 1 resolves to; a null amount fails with NullReference, a null name with ArgumentNull("name"), a value of the wrong kind with InvalidCast and an unknown stored name with CultureNotFound |
| MoneyComposite.NullSafeGet | Money.Storage.NHibernate/MoneyCompositeUserType.cs:22-30 | Both columns are converted before the null test, so a value of the wrong kind fails with InvalidCast even beside a null. The result is null exactly when both convert and either is null. Otherwise it is a money whose amount is column 0 and whose culture is what column 1's name resolves to, or exactly the construction step's error |
| MoneyComposite.NullSafeSet | Money.Storage.NHibernate/MoneyCompositeUserType.cs:32-45 | Null writes DBNull to slots index and index+1; a money writes its amount and culture name there; no other slot changes |
| MoneyComposite.NullSafeSetInto | Money.Storage.NHibernate/MoneyCompositeUserType.cs:32-45 | The in-place write on the parameter array leaves exactly what NullSafeSet describes |
| MoneyComposite.GetPropertyValue | Money.Storage.NHibernate/MoneyCompositeUserType.cs:61-68 | Property 0 is the amount (a decimal); every other index is the culture name (a string) |
| MoneyComposite.SetPropertyValue | Money.Storage.NHibernate/MoneyCompositeUserType.cs:70-72 | Every property write fails with ImmutableMoney |
| MoneyComposite.Equals | Money.Storage.NHibernate/MoneyCompositeUserType.cs:11-16 | The mapper's equality coincides with Money's `==` operator, and for a non-null left side with Money.Equals |
| MoneyComposite.PropertyNames | Money.Storage.NHibernate/MoneyCompositeUserType.cs:47-50 | The column order is Amount, then CultureInfo |
| MoneyComposite.PropertyTypes | Money.Storage.NHibernate/MoneyCompositeUserType.cs:52-59 | Column 0 is a decimal column and column 1 a string column |
| MoneyComposite.IsMutable | Money.Storage.NHibernate/MoneyCompositeUserType.cs:20 | The money type is immutable |
| MoneyComposite.DeepCopy | Money.Storage.NHibernate/MoneyCompositeUserType.cs:18 | The copy of null is null and the copy of a money is equal to it |
| MoneyComposite.Assemble | Money.Storage.NHibernate/MoneyCompositeUserType.cs:74-77 | Reading a money from the cache is its DeepCopy: null stays null and a money comes back equal |
| MoneyComposite.Disassemble | Money.Storage.NHibernate/MoneyCompositeUserType.cs:79-82 | Storing a money in the cache keeps null as null, and Assemble gives the stored value back |
| MoneyComposite.Replace | Money.Storage.NHibernate/MoneyCompositeUserType.cs:89-92 | A merge keeps the original, equal to it and null exactly when it is |
| MoneyComposite.ReadAfterWrite | Money.Storage.NHibernate/MoneyCompositeUserType.cs:22-45 | Reading back the two slots written for a money gives that very money, hence an equal one, when the catalog resolves its culture name back to its culture |
| MoneyComposite.ReadAfterNullWrite | Money.Storage.NHibernate/MoneyCompositeUserType.cs:34-38 | Writing null and reading back gives null |
| MoneyComposite.SwappedColumnsAreRefused | Money.Storage.NHibernate/MoneyCompositeUserType.cs:24-25 | A money's two values presented in swapped columns are refused rather than read back; InvalidCast stands in for the conversion failure of NHibernate's decimal and string column types |
| MoneyComposite.PropertyOrderMatchesSlots | Money.Storage.NHibernate/MoneyCompositeUserType.cs:47-59 | Property i has the declared name and column type for position i, and is what NullSafeSet writes to slot index+i |
| MoneyComposite.CopyHooksAreIdentity | Money.Storage.NHibernate/MoneyCompositeUserType.cs:74-92 | DeepCopy, Assemble, Disassemble and Replace return their argument; the mapper's Equals is reflexive on it, symmetric and transitive; the type is immutable |
| MoneyAsGeneric.MoneyType | Money.Storage.NHibernate/MoneyCompositeUserType.cs:47-59 | The generic mapper configured for money has the money mapper's property names and is immutable |
| MoneyAsGeneric.WritesAgree | Money.Storage.NHibernate/MoneyCompositeUserType.cs:39-44 | For a money, the generic and the hand-written NullSafeSet produce the same parameters |
| MoneyAsGeneric.NullWritesDiffer | Money.Storage.NHibernate/MoneyCompositeUserType.cs:34-38 | For null, the hand-written mapper writes DBNull to both slots while the generic one writes nothing; the results agree iff both slots were already DBNull |
| MoneyAsGeneric.ReadsAgreeWhenPresent | Money.Storage.NHibernate/MoneyCompositeUserType.cs:24-29 | With both columns present, the two NullSafeGet results are identical |
| MoneyAsGeneric.ReadsDifferOnNull | Money.Storage.NHibernate/MoneyCompositeUserType.cs:24-26 | With a null column, the hand-written mapper reads null (or InvalidCast, if the other column has the wrong kind) while the generic one fails inside GetMap |
| MoneyAsGeneric.GenericRoundTrip | Money.Storage.NHibernate/GenericCompositeUserType.cs:212-221 | The generic round trip holds for every money whose culture the catalog resolves |
| MoneyAsGeneric.PropertiesAgree | Money.Storage.NHibernate/MoneyCompositeUserType.cs:61-68 | Property access agrees for indexes 0 and 1; past 1 the hand-written mapper returns the culture name while the generic one fails |
| MoneyAsGeneric.HooksAgree | Money.Storage.NHibernate/MoneyCompositeUserType.cs:11-18 | Both mappers refuse property writes; DeepCopy, Assemble, Disassemble and Equals agree |

## Left out

- Formatting is not modelled: `ToString()`, `ToString(format)` and `DecimalDigits` (Money/Money.cs:57-60, 185-192) depend on .NET locale formatting data.
- Hashing is not modelled: `GetHashCode` (Money/Money.cs:111-114, Money.Storage.NHibernate/MoneyCompositeUserType.cs:84-87). It hashes the culture while equality compares the currency code, so equal en-CA and fr-CA values may hash differently.
- The ambient current culture is not modelled. `new Money()`, `new Money(amount)`, the implicit conversions and `LocalCurrency` take the current culture as an explicit parameter (`MoneyValue.InCurrentCulture`).
- Culture data is not modelled. The catalog is a parameter. Neutral cultures, whose `RegionInfo` cannot be built, count as unresolvable names.
- MoneyValue.FromCulture: a culture object without a region (a neutral culture or the invariant culture) cannot be represented, so the failure of `new RegionInfo(cultureInfo.LCID)` (Money/Money.cs:35, 42) is not modelled. The model fails only on a null culture.
- MoneyValue.ZeroFromCulture: it has the same gap as FromCulture, since it delegates to it (Money/Money.cs:30).
- MoneyValue.InCurrentCulture: it has the same gap. `new Money()` under an invariant current culture throws in the source, but the model always succeeds.
- Decimal precision is not modelled. Amounts are exact reals, so 28-digit precision, overflow and rounding of inexact quotients such as 1/3 are absent. The long overloads are the decimal ones with a whole amount.
- GenericComposite.Equals: reference identity is modelled as value identity. If the component type's own equality were not reflexive, two distinct but identical components would compare differently than in the source.
- Null operands of `+`, `-`, `<`, `<=`, `>`, `>=` and `CompareTo(Money)` are not modelled; those operands are non-null `Money` values. The source fails on them with a null dereference. For `CompareTo(Money other)`, a null `other` reaches `second.ISOCurrencySymbol` through `this < other` (Money/Money.cs:175, 117). `CompareTo(object)` returns 1 for null instead (`MoneyValue.CompareToObject`).
- MoneyComposite.GetPropertyValue: a null component is not modelled; the component is a `Money`. In the source, the cast at MoneyCompositeUserType.cs:63 lets null through, and reading `src.Amount` or `src.EnglishCultureName` (:65, :67) throws NullReferenceException.
- GenericComposite.GetPropertyValue: a null component is not modelled; the component is a `T`. In the source, `prop.GetValue(null, null)` on an instance property (GenericCompositeUserType.cs:151-159) throws TargetException.
- GenericComposite.SetPropertyValue: a null component is not modelled. On a mutable type, the source's `prop.SetValue(null, value, null)` on an instance property (GenericCompositeUserType.cs:174-181) throws TargetException. An immutable type refuses the write before touching the component, as modelled.
- Arguments that are neither null nor `Money` are not modelled. `CompareTo(object)` throws ArgumentException for them and `Equals(object)` returns false.
- Reflection is not modelled.
  - Property lookup by name (GenericCompositeUserType.cs:147-150, 170-173, 254) is replaced by explicit accessors.
  - The `Activator.CreateInstance` fallback (GenericCompositeUserType.cs:224-234) is replaced by the failure `MissingGetMap`.
  - The static-property workaround is left out. It has a defect: in `NullSafeSet` (GenericCompositeUserType.cs:256-258), once a static property sets `target` to null, it stays null, so every later instance property is read against a null target.
- GenericComposite.DeepCopy: the component type T is taken to be a reference type, as `Money` is. For a value type T, the cast `(T)value` at GenericCompositeUserType.cs:270 throws on null before the null test at :271. So `DeepCopy`, `Disassemble` and `Assemble` of null fail in the source but give null in the model, and `GenericComposite.CacheRoundTrip`'s "null stays null" is for reference types only.
- A null `DeepCopyMap` delegate is not modelled. In the source, it fails on the first copy of a non-null value.
- Column types are not modelled. NHibernate's per-type conversion of column values (`PropertyTypes[i].NullSafeGet/NullSafeSet`) is absent. The generic mapper passes values through unchanged. The money mapper refuses a value of the wrong kind with InvalidCast, before its null test, as the source converts both columns first (MoneyCompositeUserType.cs:24-26).
- The generic mapper's column types are not modelled: `CompositeType` has no `PropertyTypes` array. The source's constructor stores its arrays unchecked (GenericCompositeUserType.cs:95-105). So a `PropertyTypes` array shorter than the property list, which fails with an index out of range at GenericCompositeUserType.cs:215 and :263, cannot arise in the model.
- A column-name array shorter than the property list is not modelled. In the source it indexes out of range. The model requires at least as many columns as properties, and enough parameter slots.
- The NHibernate session and owner arguments, `ReturnedClass`, schema export, the Fluent mapping of `Product` and the test runner are not modelled. They are persistence plumbing outside the core.
