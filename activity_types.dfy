/** Data model of the activity feed: the JSON-like values of an audit record,
    plain JavaScript objects (as their entries, in iteration order), the
    modification records, the entity and action configuration tables, and
    the presentable activity that the pipeline produces. */
module ActivityTypes {

  datatype Option<+T> = None | Some(value: T) {
    /** `x || default` for an optional object or array (both are truthy when present). */
    function GetOr(default: T): (v: T) {
      match this
      case Some(v) => v
      case None => default
    }
  }

  /** A JSON value as delivered by the server, plus JavaScript's `undefined`. */
  datatype Value =
    | Undefined
    | Null
    | Bool(b: bool)
    | Num(n: int)
    | Str(s: string)
    | Arr(items: seq<Value>)
    | Obj(props: seq<(string, Value)>)

  /** A plain JavaScript object, given by its entries in `Object.entries` order. */
  type Entries<T> = seq<(string, T)>

  /** `Object.keys(o)`. */
  function Keys<T>(o: Entries<T>): (ks: seq<string>)
    ensures |ks| == |o|
  {
    seq(|o|, i requires 0 <= i < |o| => o[i].0)
  }

  /** The entries of a JavaScript object have pairwise distinct names, that is,
      `Distinct(Keys(o))` (see `UniqueKeysDistinct`). */
  predicate UniqueKeys<T>(o: Entries<T>) {
    forall i, j :: 0 <= i < j < |o| ==> o[i].0 != o[j].0
  }

  /** A sequence of names without repetitions. */
  predicate Distinct(names: seq<string>) {
    forall i, j :: 0 <= i < j < |names| ==> names[i] != names[j]
  }

  /** `o[k]`: the value stored under `k`, or `None` for `undefined`. */
  function Lookup<T>(o: Entries<T>, k: string): (r: Option<T>)
    ensures r.Some? <==> k in Keys(o)
    ensures r.Some? ==> exists i :: 0 <= i < |o| && o[i] == (k, r.value)
  {
    if o == [] then None
    else
      assert Keys(o) == [o[0].0] + Keys(o[1..]);
      if o[0].0 == k then Some(o[0].1) else Lookup(o[1..], k)
  }

  /** Reading a non-empty object: its first entry, or else the rest. */
  /** Distinct entry names are exactly a repetition-free key list. */
  lemma UniqueKeysDistinct<T>(o: Entries<T>)
    ensures UniqueKeys(o) <==> Distinct(Keys(o))
  {
    forall i, j | 0 <= i < j < |o|
      ensures Keys(o)[i] == o[i].0 && Keys(o)[j] == o[j].0
    {
    }
  }

  lemma LookupCons<T>(o: Entries<T>)
    requires o != []
    ensures Keys(o) == [o[0].0] + Keys(o[1..])
    ensures forall k :: Lookup(o, k) == if o[0].0 == k then Some(o[0].1) else Lookup(o[1..], k)
  {
  }

  /** `o[k] = x`: replaces the value of an existing property in place,
      otherwise adds a new property at the end of the iteration order. */
  function Put<T>(o: Entries<T>, k: string, x: T): (r: Entries<T>)
    ensures k in Keys(o) ==> Keys(r) == Keys(o)
    ensures k !in Keys(o) ==> r == o + [(k, x)]
    ensures Lookup(r, k) == Some(x)
    ensures forall k' :: k' != k ==> Lookup(r, k') == Lookup(o, k')
  {
    if o == [] then [(k, x)]
    else if o[0].0 == k then
      var r := [(k, x)] + o[1..];
      assert r[1..] == o[1..];
      LookupCons(o);
      LookupCons(r);
      r
    else
      assert [o[0]] + (o[1..] + [(k, x)]) == o + [(k, x)];
      var rest := Put(o[1..], k, x);
      var r := [o[0]] + rest;
      assert r[1..] == rest;
      LookupCons(o);
      LookupCons(r);
      r
  }

  lemma {:induction false} LookupUnique<T>(o: Entries<T>, i: nat)
    requires UniqueKeys(o) && i < |o|
    ensures Lookup(o, o[i].0) == Some(o[i].1)
  {
    if i > 0 {
      assert o[0].0 != o[i].0;
      assert o[1..][i - 1] == o[i];
      LookupUnique(o[1..], i - 1);
    }
  }

  // ---------------------------------------------------------------------
  // Audit records

  /** One entry of a modifications map: the value before and after the change. */
  datatype DiffValue = DiffValue(oldValue: Value, newValue: Value)

  /** Field name -> `{old, new}`. */
  type Modifications = Entries<DiffValue>

  /** A modified entity of a revision. `description` and `relations`
      (the describing relations) are not read by the pipeline itself;
      they are there for the `references` callback. */
  datatype ModifiedEntity = ModifiedEntity(
    entityId: int,
    modifications: Option<Modifications>,
    description: Option<Entries<Value>>,
    relations: Option<Entries<Value>>)

  /** One revision as the activity endpoint returns it. */
  datatype ActivityModel = ActivityModel(
    activityType: string,
    counts: Option<Entries<int>>,
    modifiedEntities: Option<Entries<seq<ModifiedEntity>>>)

  // ---------------------------------------------------------------------
  // References

  /** A typed pointer to another domain object. `kind` is the `type` tag,
      `languages` the list a `key` reference accumulates, `props` every
      other property (the key name, the language name, ...). */
  datatype Reference = Reference(
    kind: string,
    id: int,
    languages: Option<seq<Value>>,
    props: Entries<Value>)

  // ---------------------------------------------------------------------
  // Configuration

  /** The object form of a field option: a display label and an optional
      function deriving the shown value from all values of one side. */
  datatype FieldOptions = FieldOptions(
    labelKey: Option<string>,
    compute: Option<Entries<Value> -> Value>)

  /** A field entry of an entity configuration: a falsy value, a truthy
      value that is not an object (such as `true`), or an options object. */
  datatype FieldSetting = Disabled | Enabled | Configured(options: FieldOptions)

  /** The configuration of one entity type: its label, its fields in
      declared order, and an optional reference-extraction callback. */
  datatype EntityOptions = EntityOptions(
    labelKey: Option<string>,
    fields: Entries<FieldSetting>,
    references: Option<ModifiedEntity -> seq<Reference>>)

  /** What an action declares for one entity type: a falsy value, a truthy
      flag (every configured field), or an explicit list of field names. */
  datatype EntitySelection = Excluded | AllFields | Subset(fields: seq<string>)

  /** The configuration of one action type. */
  datatype ActionOptions = ActionOptions(
    labelKey: Option<string>,
    entities: Option<Entries<EntitySelection>>)

  /** The two static tables, per action type and per entity type. */
  datatype Configuration = Configuration(
    actions: Entries<ActionOptions>,
    entities: Entries<EntityOptions>)

  // ---------------------------------------------------------------------
  // Output

  datatype Field = Field(name: string, value: DiffValue, labelKey: Option<string>, options: FieldOptions)

  datatype Entity = Entity(
    entityType: string,
    options: EntityOptions,
    fields: seq<Field>,
    references: seq<Reference>)

  datatype Activity = Activity(
    translationKey: Option<string>,
    activityType: string,
    entities: seq<Entity>,
    references: seq<Reference>,
    counts: Entries<int>,
    options: Option<ActionOptions>)
}
