/** The activity assembler: builds the presentable activity of one revision,
    choosing the entity types to process, building every modified entity of
    those types and reducing their pooled references once. */
module ActivityAssembler {
  import opened ActivityTypes
  import opened FieldResolver
  import opened EntityBuilder
  import opened ReferenceReducer

  /** `options?.entities || {}`. */
  function ActionEntities(action: Option<ActionOptions>): (entities: Entries<EntitySelection>) {
    if action.Some? then action.value.entities.GetOr([]) else []
  }

  /** `options?.entities?.[entityName]`, a missing entry being falsy. */
  function Selection(action: Option<ActionOptions>, entityName: string): (selection: EntitySelection) {
    Lookup(ActionEntities(action), entityName).GetOr(Excluded)
  }

  /** The entity types visited: those the action declares when filtering,
      otherwise those present in the revision. */
  function ProcessedTypes(action: Option<ActionOptions>, modifiedEntities: Entries<seq<ModifiedEntity>>, filter: bool): (types: seq<string>) {
    if filter then Keys(ActionEntities(action)) else Keys(modifiedEntities)
  }

  /** The fields considered for an entity type: the action's list when
      filtering and the action gives one, otherwise every configured field. */
  function SelectedFields(action: Option<ActionOptions>, entityName: string, entityOptions: Option<EntityOptions>, filter: bool): (fields: seq<string>) {
    if filter && Selection(action, entityName).Subset? then Selection(action, entityName).fields
    else if entityOptions.Some? then Keys(entityOptions.value.fields)
    else []
  }

  // ---------------------------------------------------------------------
  // Specification

  /** One built entity per instance, in order. */
  function BuiltInstances(entityName: string, options: EntityOptions, selectedFields: seq<string>, values: seq<ModifiedEntity>): (entities: seq<Entity>) {
    if values == [] then []
    else
      BuiltInstances(entityName, options, selectedFields, values[..|values| - 1])
        + [BuiltEntity(entityName, values[|values| - 1], options, selectedFields)]
  }

  /** The entities one visited type contributes. */
  function EntitiesOfType(
    config: Configuration, action: Option<ActionOptions>, modifiedEntities: Entries<seq<ModifiedEntity>>,
    filter: bool, entityName: string): (entities: seq<Entity>)
  {
    if filter && Selection(action, entityName).Excluded? then []
    else
      var entityOptions := Lookup(config.entities, entityName);
      match Lookup(modifiedEntities, entityName)
      case None => []
      case Some(values) =>
        if entityOptions.None? then []
        else BuiltInstances(entityName, entityOptions.value, SelectedFields(action, entityName, entityOptions, filter), values)
  }

  /** The lists `f(n)` for the names `n` of `names`, concatenated in order. */
  function ConcatMap<T>(names: seq<string>, f: string -> seq<T>): (r: seq<T>) {
    if names == [] then []
    else ConcatMap(names[..|names| - 1], f) + f(names[|names| - 1])
  }

  /** The entities of the visited types `names`, type after type. */
  function BuiltEntities(
    config: Configuration, action: Option<ActionOptions>, modifiedEntities: Entries<seq<ModifiedEntity>>,
    filter: bool, names: seq<string>): (entities: seq<Entity>)
  {
    ConcatMap(names, name => EntitiesOfType(config, action, modifiedEntities, filter, name))
  }

  /** The references of the entities, concatenated in build order. */
  function PooledReferences(entities: seq<Entity>): (refs: seq<Reference>) {
    if entities == [] then []
    else PooledReferences(entities[..|entities| - 1]) + entities[|entities| - 1].references
  }

  /** The entities of an activity built from `data`. */
  function ActivityEntities(config: Configuration, data: ActivityModel, filter: bool): (entities: seq<Entity>) {
    match data.modifiedEntities
    case None => []
    case Some(modified) =>
      var action := Lookup(config.actions, data.activityType);
      BuiltEntities(config, action, modified, filter, ProcessedTypes(action, modified, filter))
  }

  lemma BuiltEntitiesStep(
    config: Configuration, action: Option<ActionOptions>, modified: Entries<seq<ModifiedEntity>>,
    filter: bool, names: seq<string>, i: nat)
    requires i < |names|
    ensures BuiltEntities(config, action, modified, filter, names[..i + 1])
      == BuiltEntities(config, action, modified, filter, names[..i]) + EntitiesOfType(config, action, modified, filter, names[i])
  {
    assert names[..i + 1][..i] == names[..i];
  }

  lemma BuiltInstancesStep(entityName: string, options: EntityOptions, selectedFields: seq<string>, values: seq<ModifiedEntity>, j: nat)
    requires j < |values|
    ensures BuiltInstances(entityName, options, selectedFields, values[..j + 1])
      == BuiltInstances(entityName, options, selectedFields, values[..j]) + [BuiltEntity(entityName, values[j], options, selectedFields)]
  {
    assert values[..j + 1][..j] == values[..j];
  }

  lemma PooledReferencesSnoc(entities: seq<Entity>, e: Entity)
    ensures PooledReferences(entities + [e]) == PooledReferences(entities) + e.references
  {
    assert (entities + [e])[..|entities|] == entities;
  }

  // ---------------------------------------------------------------------
  // Implementation

  /** The `values?.forEach` callback: builds one entity per instance of a
      configured type, appending it and pooling its references. */
  method BuildInstances(
    entityName: string, entityOptions: EntityOptions, selectedFields: seq<string>, instances: seq<ModifiedEntity>,
    entities: seq<Entity>, allReferences: seq<Reference>)
    returns (entities': seq<Entity>, allReferences': seq<Reference>)
    requires allReferences == PooledReferences(entities)
    ensures entities' == entities + BuiltInstances(entityName, entityOptions, selectedFields, instances)
    ensures allReferences' == PooledReferences(entities')
  {
    entities', allReferences' := entities, allReferences;
    for j := 0 to |instances|
      invariant entities' == entities + BuiltInstances(entityName, entityOptions, selectedFields, instances[..j])
      invariant allReferences' == PooledReferences(entities')
    {
      BuiltInstancesStep(entityName, entityOptions, selectedFields, instances, j);
      var entity := BuildEntity(entityName, instances[j], entityOptions, selectedFields);
      PooledReferencesSnoc(entities', entity);
      ghost var built := BuiltInstances(entityName, entityOptions, selectedFields, instances[..j]);
      assert entities' + [entity] == entities + (built + [entity]);
      entities' := entities' + [entity];
      allReferences' := allReferences' + entity.references;
    }
    assert instances[..|instances|] == instances;
  }

  /** The `entities.forEach` callback for one entity type. */
  method VisitEntityType(
    config: Configuration, options: Option<ActionOptions>, modified: Entries<seq<ModifiedEntity>>, filter: bool,
    entityName: string, entities: seq<Entity>, allReferences: seq<Reference>)
    returns (entities': seq<Entity>, allReferences': seq<Reference>)
    requires allReferences == PooledReferences(entities)
    ensures entities' == entities + EntitiesOfType(config, options, modified, filter, entityName)
    ensures allReferences' == PooledReferences(entities')
  {
    entities', allReferences' := entities, allReferences;
    if filter && Selection(options, entityName).Excluded? {
      assert entities' == entities + [];
      return;
    }
    var entityOptions := Lookup(config.entities, entityName);
    var selectedFields := SelectedFields(options, entityName, entityOptions, filter);
    var values := Lookup(modified, entityName);
    if values.Some? && entityOptions.Some? {
      entities', allReferences' := BuildInstances(entityName, entityOptions.value, selectedFields, values.value, entities, allReferences);
    } else {
      assert entities' == entities + [];
    }
  }

  /** `buildActivity`. */
  method BuildActivity(config: Configuration, data: ActivityModel, filter: bool) returns (result: Activity)
    ensures var action := Lookup(config.actions, data.activityType);
      && result.options == action
      && result.translationKey == (if action.Some? then action.value.labelKey else None)
      && result.activityType == data.activityType
      && result.counts == data.counts.GetOr([])
      && result.entities == ActivityEntities(config, data, filter)
      && result.references == (if data.modifiedEntities.None? then [] else ReducedReferences(PooledReferences(result.entities)))
  {
    var options := Lookup(config.actions, data.activityType);
    var translationKey := if options.Some? then options.value.labelKey else None;
    var entities: seq<Entity> := [];
    var references: seq<Reference> := [];
    var allReferences: seq<Reference> := [];

    if data.modifiedEntities.Some? {
      var modified := data.modifiedEntities.value;
      var names := ProcessedTypes(options, modified, filter);
      for i := 0 to |names|
        invariant entities == BuiltEntities(config, options, modified, filter, names[..i])
        invariant allReferences == PooledReferences(entities)
      {
        BuiltEntitiesStep(config, options, modified, filter, names, i);
        entities, allReferences := VisitEntityType(config, options, modified, filter, names[i], entities, allReferences);
      }
      assert names[..|names|] == names;
      references := ReduceReferences(allReferences);
    }

    result := Activity(translationKey, data.activityType, entities, references, data.counts.GetOr([]), options);
  }

  // ---------------------------------------------------------------------
  // Properties

  /** Every instance of a type yields exactly one entity, in instance order. */
  lemma {:induction false} BuiltInstancesOnePerInstance(
    entityName: string, options: EntityOptions, selectedFields: seq<string>, values: seq<ModifiedEntity>)
    ensures var es := BuiltInstances(entityName, options, selectedFields, values);
      && |es| == |values|
      && forall j :: 0 <= j < |values| ==> es[j] == BuiltEntity(entityName, values[j], options, selectedFields)
  {
    if values != [] {
      var prefix := values[..|values| - 1];
      BuiltInstancesOnePerInstance(entityName, options, selectedFields, prefix);
      var es := BuiltInstances(entityName, options, selectedFields, values);
      forall j | 0 <= j < |values| ensures es[j] == BuiltEntity(entityName, values[j], options, selectedFields) {
        if j < |prefix| {
          assert values[j] == prefix[j];
        }
      }
    }
  }

  lemma {:induction false} ConcatMapAppend<T>(a: seq<string>, b: seq<string>, f: string -> seq<T>)
    ensures ConcatMap(a + b, f) == ConcatMap(a, f) + ConcatMap(b, f)
  {
    if b == [] {
      assert a + b == a;
    } else {
      var b' := b[..|b| - 1];
      assert (a + b)[..|a + b| - 1] == a + b';
      ConcatMapAppend(a, b', f);
    }
  }

  /** Visiting two lists of types one after the other builds the entities of
      the first list followed by those of the second. */
  lemma BuiltEntitiesAppend(
    config: Configuration, action: Option<ActionOptions>, modified: Entries<seq<ModifiedEntity>>,
    filter: bool, a: seq<string>, b: seq<string>)
    ensures BuiltEntities(config, action, modified, filter, a + b)
      == BuiltEntities(config, action, modified, filter, a) + BuiltEntities(config, action, modified, filter, b)
  {
    ConcatMapAppend(a, b, name => EntitiesOfType(config, action, modified, filter, name));
  }

  /** The entities of the k-th visited type sit between those of the types
      visited before it and those visited after it. */
  lemma BuiltEntitiesSegment(
    config: Configuration, action: Option<ActionOptions>, modified: Entries<seq<ModifiedEntity>>,
    filter: bool, names: seq<string>, k: nat)
    requires k < |names|
    ensures BuiltEntities(config, action, modified, filter, names)
      == BuiltEntities(config, action, modified, filter, names[..k])
         + EntitiesOfType(config, action, modified, filter, names[k])
         + BuiltEntities(config, action, modified, filter, names[k + 1..])
  {
    assert names == names[..k] + [names[k]] + names[k + 1..];
    BuiltEntitiesAppend(config, action, modified, filter, names[..k] + [names[k]], names[k + 1..]);
    BuiltEntitiesAppend(config, action, modified, filter, names[..k], [names[k]]);
    assert [names[k]][..0] == [];
  }

  /** Every built entity comes from a visited type that has an entity
      configuration, that the action declares (with a truthy value) when
      filtering, and that is present in the revision; it is the entity built
      from one of that type's instances with the fields selected for it. */
  lemma {:induction false} BuiltEntitiesOrigin(
    config: Configuration, action: Option<ActionOptions>, modified: Entries<seq<ModifiedEntity>>,
    filter: bool, names: seq<string>)
    ensures forall e :: e in BuiltEntities(config, action, modified, filter, names) ==>
      && e.entityType in names
      && Lookup(config.entities, e.entityType) == Some(e.options)
      && (filter ==> !Selection(action, e.entityType).Excluded?)
      && Lookup(modified, e.entityType).Some?
      && exists v :: (v in Lookup(modified, e.entityType).value
           && e == BuiltEntity(e.entityType, v, e.options, SelectedFields(action, e.entityType, Some(e.options), filter)))
  {
    if names != [] {
      var prefix := names[..|names| - 1];
      var name := names[|names| - 1];
      BuiltEntitiesOrigin(config, action, modified, filter, prefix);
      var es := EntitiesOfType(config, action, modified, filter, name);
      if es != [] {
        var options := Lookup(config.entities, name).value;
        var values := Lookup(modified, name).value;
        var selected := SelectedFields(action, name, Some(options), filter);
        BuiltInstancesOnePerInstance(name, options, selected, values);
        forall e | e in es
          ensures exists v :: (v in values && e == BuiltEntity(name, v, options, selected))
        {
          var j :| 0 <= j < |es| && es[j] == e;
          assert values[j] in values;
        }
      }
    }
  }

  lemma EntitiesOfTypeHaveType(
    config: Configuration, action: Option<ActionOptions>, modified: Entries<seq<ModifiedEntity>>,
    filter: bool, name: string)
    ensures forall e :: e in EntitiesOfType(config, action, modified, filter, name) ==> e.entityType == name
  {
    var es := EntitiesOfType(config, action, modified, filter, name);
    if es != [] {
      var options := Lookup(config.entities, name).value;
      var values := Lookup(modified, name).value;
      BuiltInstancesOnePerInstance(name, options, SelectedFields(action, name, Some(options), filter), values);
    }
  }

  /** The position of the first occurrence of a name: `EntityBuilder.IndexOf`
      taken on a plain list of names (see `PositionOfIndexOf`), recursing from
      the front as the ordering proofs below need. */
  function PositionOf(names: seq<string>, name: string): (position: nat) {
    if names == [] then 0
    else if names[0] == name then 0
    else 1 + PositionOf(names[1..], name)
  }

  lemma {:induction false} PositionOfAt(names: seq<string>, k: nat)
    requires Distinct(names) && k < |names|
    ensures PositionOf(names, names[k]) == k
  {
    if k > 0 {
      assert names[0] != names[k];
      assert names[1..][k - 1] == names[k];
      PositionOfAt(names[1..], k - 1);
    }
  }

  /** On an object with distinct keys, the position of an entry's name among
      the keys is that entry's index, whichever end the search starts from. */
  lemma PositionOfIndexOf(fields: Entries<FieldSetting>, k: nat)
    requires UniqueKeys(fields) && k < |fields|
    ensures PositionOf(Keys(fields), fields[k].0) == IndexOf(fields, fields[k].0) == k
  {
    var name := fields[k].0;
    assert name == Keys(fields)[k];
    IndexOfBounds(fields, name);
    UniqueKeysDistinct(fields);
    PositionOfAt(Keys(fields), k);
  }

  /** Entities come out grouped by type, the types in the order they are
      visited (the action's declared order when filtering). */
  lemma {:induction false} BuiltEntitiesTypeOrder(
    config: Configuration, action: Option<ActionOptions>, modified: Entries<seq<ModifiedEntity>>,
    filter: bool, names: seq<string>)
    requires Distinct(names)
    ensures var es := BuiltEntities(config, action, modified, filter, names);
      forall i, j :: 0 <= i < j < |es| ==> PositionOf(names, es[i].entityType) <= PositionOf(names, es[j].entityType)
  {
    if names != [] {
      var prefix := names[..|names| - 1];
      var name := names[|names| - 1];
      assert Distinct(prefix);
      BuiltEntitiesTypeOrder(config, action, modified, filter, prefix);
      BuiltEntitiesTypesVisited(config, action, modified, filter, prefix);
      EntitiesOfTypeHaveType(config, action, modified, filter, name);
      var head := BuiltEntities(config, action, modified, filter, prefix);
      var tail := EntitiesOfType(config, action, modified, filter, name);
      assert BuiltEntities(config, action, modified, filter, names) == head + tail;
      TypeOrderStep(names, head, tail);
    }
  }

  /** Every built entity's type is one of the visited types. */
  lemma {:induction false} BuiltEntitiesTypesVisited(
    config: Configuration, action: Option<ActionOptions>, modified: Entries<seq<ModifiedEntity>>,
    filter: bool, names: seq<string>)
    ensures forall e :: e in BuiltEntities(config, action, modified, filter, names) ==> e.entityType in names
  {
    if names != [] {
      var prefix := names[..|names| - 1];
      var name := names[|names| - 1];
      BuiltEntitiesTypesVisited(config, action, modified, filter, prefix);
      EntitiesOfTypeHaveType(config, action, modified, filter, name);
      assert BuiltEntities(config, action, modified, filter, names)
        == BuiltEntities(config, action, modified, filter, prefix) + EntitiesOfType(config, action, modified, filter, name);
      forall x | x in prefix ensures x in names {
        var k :| 0 <= k < |prefix| && prefix[k] == x;
        assert names[k] == x;
      }
    }
  }

  /** Appending entities of the last visited type to entities ordered by the
      earlier types keeps them ordered by type. */
  lemma TypeOrderStep(names: seq<string>, head: seq<Entity>, tail: seq<Entity>)
    requires Distinct(names) && names != []
    requires forall e :: e in head ==> e.entityType in names[..|names| - 1]
    requires forall e :: e in tail ==> e.entityType == names[|names| - 1]
    requires forall i, j :: 0 <= i < j < |head| ==>
      PositionOf(names[..|names| - 1], head[i].entityType) <= PositionOf(names[..|names| - 1], head[j].entityType)
    ensures var es := head + tail;
      forall i, j :: 0 <= i < j < |es| ==> PositionOf(names, es[i].entityType) <= PositionOf(names, es[j].entityType)
  {
    var prefix := names[..|names| - 1];
    var es := head + tail;
    PositionOfAt(names, |names| - 1);
    forall i | 0 <= i < |es|
      ensures i < |head| ==> PositionOf(names, es[i].entityType) == PositionOf(prefix, head[i].entityType) < |names| - 1
      ensures |head| <= i ==> PositionOf(names, es[i].entityType) == |names| - 1
    {
      if i < |head| {
        var e := head[i];
        assert es[i] == e && e in head;
        var k :| 0 <= k < |prefix| && prefix[k] == e.entityType;
        assert names[k] == prefix[k];
        PositionOfAt(names, k);
        PositionOfPrefix(names, e.entityType);
      } else {
        assert es[i] == tail[i - |head|] && es[i] in tail;
      }
    }
  }

  lemma {:induction false} PositionOfPrefix(names: seq<string>, name: string)
    requires names != [] && name in names[..|names| - 1]
    ensures PositionOf(names, name) == PositionOf(names[..|names| - 1], name)
  {
    if names[0] != name {
      assert names[1..][..|names| - 2] == names[..|names| - 1][1..];
      PositionOfPrefix(names[1..], name);
    }
  }

  /** Types without an entity configuration produce no entities, whether or
      not the activity is filtered. */
  lemma UnconfiguredTypesOmitted(config: Configuration, data: ActivityModel, filter: bool, entityName: string)
    requires Lookup(config.entities, entityName).None?
    ensures forall e :: e in ActivityEntities(config, data, filter) ==> e.entityType != entityName
  {
    if data.modifiedEntities.Some? {
      var modified := data.modifiedEntities.value;
      var action := Lookup(config.actions, data.activityType);
      BuiltEntitiesOrigin(config, action, modified, filter, ProcessedTypes(action, modified, filter));
    }
  }

  /** When filtering, only types the action declares with a truthy value are
      processed, and a type declared with a list of field names shows only
      fields of that list. */
  lemma FilteredEntitiesFollowAction(config: Configuration, data: ActivityModel)
    ensures var action := Lookup(config.actions, data.activityType);
      forall e :: e in ActivityEntities(config, data, true) ==>
        && e.entityType in Keys(ActionEntities(action))
        && !Selection(action, e.entityType).Excluded?
        && (Selection(action, e.entityType).Subset? ==>
              forall f :: f in e.fields ==> f.name in Selection(action, e.entityType).fields)
  {
    if data.modifiedEntities.Some? {
      var modified := data.modifiedEntities.value;
      var action := Lookup(config.actions, data.activityType);
      var names := ProcessedTypes(action, modified, true);
      BuiltEntitiesOrigin(config, action, modified, true, names);
      forall e | e in ActivityEntities(config, data, true)
        ensures Selection(action, e.entityType).Subset? ==>
              forall f :: f in e.fields ==> f.name in Selection(action, e.entityType).fields
      {
        var selected := SelectedFields(action, e.entityType, Some(e.options), true);
        EntityFieldsSound(e.options.fields, selected, (var v :| v in Lookup(modified, e.entityType).value
           && e == BuiltEntity(e.entityType, v, e.options, selected); v).modifications);
      }
    }
  }

  /** A revision modifying the `name` of one `Key`, under a configuration
      that exposes `name` without `compute`, yields one `Key` entity with the
      single field `name` carrying the change. */
  lemma SingleKeyRename()
    ensures
      var options := EntityOptions(None, [("name", Enabled)], None);
      var config := Configuration([], [("Key", options)]);
      var change := DiffValue(Str("a"), Str("b"));
      var data := ActivityModel("KEY_NAME_EDIT", None,
        Some([("Key", [ModifiedEntity(1, Some([("name", change)]), None, None)])]));
      ActivityEntities(config, data, false)
        == [Entity("Key", options, [Field("name", change, None, FieldOptions(None, None))], [])]
  {
    var options := EntityOptions(None, [("name", Enabled)], None);
    var config := Configuration([], [("Key", options)]);
    var change := DiffValue(Str("a"), Str("b"));
    var instance := ModifiedEntity(1, Some([("name", change)]), None, None);
    var modified := [("Key", [instance])];
    var field := Field("name", change, None, FieldOptions(None, None));
    assert Keys(modified) == ["Key"];
    assert Lookup(config.entities, "Key") == Some(options);
    assert Lookup(modified, "Key") == Some([instance]);
    assert Keys(options.fields) == ["name"];
    assert GetFieldValue("name", instance.modifications, FieldOptions(None, None)) == Some(change);
    assert EntityFields(options.fields, ["name"], instance.modifications) == [field] by {
      assert options.fields[..0] == [];
    }
    assert BuiltInstances("Key", options, ["name"], [instance]) == [BuiltEntity("Key", instance, options, ["name"])] by {
      assert [instance][..0] == [];
    }
    assert BuiltEntities(config, None, modified, false, ["Key"])
      == EntitiesOfType(config, None, modified, false, "Key") by {
      assert ["Key"][..0] == [];
    }
  }
}
