/** The entity builder: turns one modified entity into the presentable
    entity of its type, keeping the configured fields that are selected and
    have a value, in the configuration's declared order. */
module EntityBuilder {
  import opened ActivityTypes
  import opened FieldResolver

  /** `typeof o === 'object' ? o : {}` for a truthy field option. */
  function OptionsObj(setting: FieldSetting): (options: FieldOptions) {
    match setting
    case Configured(options) => options
    case _ => FieldOptions(None, None)
  }

  // ---------------------------------------------------------------------
  // Specification

  /** The field (none or one) that one configured entry contributes. */
  function FieldFor(entry: (string, FieldSetting), selectedFields: seq<string>, modifications: Option<Modifications>): (fs: seq<Field>) {
    var (fieldName, setting) := entry;
    if fieldName !in selectedFields || setting.Disabled? then []
    else
      match GetFieldValue(fieldName, modifications, OptionsObj(setting))
      case None => []
      case Some(value) => [BuildField(value, OptionsObj(setting), fieldName)]
  }

  /** The fields of a built entity, for configured fields `fields`. */
  function EntityFields(fields: Entries<FieldSetting>, selectedFields: seq<string>, modifications: Option<Modifications>): (fs: seq<Field>) {
    if fields == [] then []
    else
      EntityFields(fields[..|fields| - 1], selectedFields, modifications)
        + FieldFor(fields[|fields| - 1], selectedFields, modifications)
  }

  /** `options.references?.(entityData) || []`. */
  function EntityReferences(options: EntityOptions, entityData: ModifiedEntity): (refs: seq<Reference>) {
    match options.references
    case None => []
    case Some(extract) => extract(entityData)
  }

  /** The entity `buildEntity` returns. */
  function BuiltEntity(entityType: string, entityData: ModifiedEntity, options: EntityOptions, selectedFields: seq<string>): (entity: Entity) {
    Entity(entityType, options, EntityFields(options.fields, selectedFields, entityData.modifications),
           EntityReferences(options, entityData))
  }

  // ---------------------------------------------------------------------
  // Implementation

  /** `buildEntity`. */
  method BuildEntity(entityType: string, entityData: ModifiedEntity, options: EntityOptions, selectedFields: seq<string>)
    returns (result: Entity)
    ensures result == BuiltEntity(entityType, entityData, options, selectedFields)
    ensures result.entityType == entityType && result.options == options
    ensures result.references == (if options.references.None? then [] else options.references.value(entityData))
  {
    var fields: seq<Field> := [];
    var references := if options.references.Some? then options.references.value(entityData) else [];
    var entries := options.fields;
    for i := 0 to |entries|
      invariant fields == EntityFields(entries[..i], selectedFields, entityData.modifications)
    {
      EntityFieldsSnoc(entries[..i], entries[i], selectedFields, entityData.modifications);
      assert entries[..i + 1] == entries[..i] + [entries[i]];
      ghost var contribution := FieldFor(entries[i], selectedFields, entityData.modifications);
      var (fieldName, o) := entries[i];
      if fieldName in selectedFields && !o.Disabled? {
        var optionsObj := OptionsObj(o);
        var fieldData := GetFieldValue(fieldName, entityData.modifications, optionsObj);
        if fieldData.Some? {
          assert contribution == [BuildField(fieldData.value, optionsObj, fieldName)];
          fields := fields + [BuildField(fieldData.value, optionsObj, fieldName)];
        } else {
          assert contribution == [];
          assert fields + [] == fields;
        }
      } else {
        assert contribution == [];
        assert fields + [] == fields;
      }
    }
    assert entries[..|entries|] == entries;
    result := Entity(entityType, options, fields, references);
  }

  // ---------------------------------------------------------------------
  // Properties

  /** The index of the first configured field of that name. */
  function IndexOf(fields: Entries<FieldSetting>, name: string): (index: nat) {
    if fields == [] then 0
    else if fields[|fields| - 1].0 == name && name !in Keys(fields[..|fields| - 1]) then |fields| - 1
    else IndexOf(fields[..|fields| - 1], name)
  }

  lemma EntityFieldsSnoc(fields: Entries<FieldSetting>, e: (string, FieldSetting), selected: seq<string>, m: Option<Modifications>)
    ensures EntityFields(fields + [e], selected, m) == EntityFields(fields, selected, m) + FieldFor(e, selected, m)
  {
    assert (fields + [e])[..|fields|] == fields;
  }

  /** Every emitted field is a selected, enabled configured field, carrying
      the value the resolver gives it and the options (and label) of its
      configuration entry. */
  lemma {:induction false} EntityFieldsSound(fields: Entries<FieldSetting>, selected: seq<string>, m: Option<Modifications>)
    ensures |EntityFields(fields, selected, m)| <= |fields|
    ensures forall f :: f in EntityFields(fields, selected, m) ==>
      && f.name in selected
      && f.labelKey == f.options.labelKey
      && exists k :: (0 <= k < |fields| && fields[k].0 == f.name && !fields[k].1.Disabled?
           && f.options == OptionsObj(fields[k].1)
           && GetFieldValue(f.name, m, f.options) == Some(f.value))
    decreases |fields|, 1
  {
    if fields != [] {
      var prefix := fields[..|fields| - 1];
      var last := fields[|fields| - 1];
      assert prefix + [last] == fields;
      EntityFieldsSoundStep(prefix, last, selected, m);
    }
  }

  lemma {:induction false} EntityFieldsSoundStep(prefix: Entries<FieldSetting>, last: (string, FieldSetting), selected: seq<string>, m: Option<Modifications>)
    ensures var fields := prefix + [last];
      && |EntityFields(fields, selected, m)| <= |fields|
      && forall f :: f in EntityFields(fields, selected, m) ==>
        && f.name in selected
        && f.labelKey == f.options.labelKey
        && exists k :: (0 <= k < |fields| && fields[k].0 == f.name && !fields[k].1.Disabled?
             && f.options == OptionsObj(fields[k].1)
             && GetFieldValue(f.name, m, f.options) == Some(f.value))
    decreases |prefix| + 1, 0
  {
    var fields := prefix + [last];
    EntityFieldsSnoc(prefix, last, selected, m);
    EntityFieldsSound(prefix, selected, m);
    forall f | f in EntityFields(fields, selected, m)
      ensures exists k :: (0 <= k < |fields| && fields[k].0 == f.name && !fields[k].1.Disabled?
             && f.options == OptionsObj(fields[k].1)
             && GetFieldValue(f.name, m, f.options) == Some(f.value))
    {
      if f in EntityFields(prefix, selected, m) {
        var k :| 0 <= k < |prefix| && prefix[k].0 == f.name && !prefix[k].1.Disabled?
             && f.options == OptionsObj(prefix[k].1)
             && GetFieldValue(f.name, m, f.options) == Some(f.value);
        assert fields[k] == prefix[k];
      } else {
        assert fields[|prefix|] == last;
      }
    }
  }

  /** Every selected, enabled configured field whose resolved value exists
      is emitted. */
  lemma {:induction false} EntityFieldsComplete(fields: Entries<FieldSetting>, selected: seq<string>, m: Option<Modifications>, k: nat)
    requires k < |fields|
    requires fields[k].0 in selected && !fields[k].1.Disabled?
    requires GetFieldValue(fields[k].0, m, OptionsObj(fields[k].1)).Some?
    ensures BuildField(GetFieldValue(fields[k].0, m, OptionsObj(fields[k].1)).value, OptionsObj(fields[k].1), fields[k].0)
      in EntityFields(fields, selected, m)
  {
    var prefix := fields[..|fields| - 1];
    var last := fields[|fields| - 1];
    assert prefix + [last] == fields;
    EntityFieldsSnoc(prefix, last, selected, m);
    if k < |prefix| {
      assert prefix[k] == fields[k];
      EntityFieldsComplete(prefix, selected, m, k);
    }
  }

  lemma {:induction false} IndexOfBounds(fields: Entries<FieldSetting>, name: string)
    requires name in Keys(fields)
    ensures IndexOf(fields, name) < |fields| && fields[IndexOf(fields, name)].0 == name
  {
    var prefix := fields[..|fields| - 1];
    assert Keys(fields) == Keys(prefix) + [fields[|fields| - 1].0];
    if !(fields[|fields| - 1].0 == name && name !in Keys(prefix)) {
      IndexOfBounds(prefix, name);
    }
  }

  lemma IndexOfExtend(prefix: Entries<FieldSetting>, last: (string, FieldSetting), name: string)
    requires name in Keys(prefix)
    ensures IndexOf(prefix + [last], name) == IndexOf(prefix, name)
  {
    var fields := prefix + [last];
    assert fields[..|fields| - 1] == prefix;
  }

  /** Fields come out in the configuration's declared order. */
  lemma {:induction false} EntityFieldsOrdered(fields: Entries<FieldSetting>, selected: seq<string>, m: Option<Modifications>)
    requires UniqueKeys(fields)
    ensures var r := EntityFields(fields, selected, m);
      forall i, j :: 0 <= i < j < |r| ==> IndexOf(fields, r[i].name) < IndexOf(fields, r[j].name)
  {
    if fields != [] {
      var prefix := fields[..|fields| - 1];
      var last := fields[|fields| - 1];
      assert prefix + [last] == fields;
      assert UniqueKeys(prefix);
      EntityFieldsOrdered(prefix, selected, m);
      EntityFieldsSnoc(prefix, last, selected, m);
      EntityFieldsSound(prefix, selected, m);
      var head := EntityFields(prefix, selected, m);
      forall f | f in head ensures f.name in Keys(prefix) {
        var k :| 0 <= k < |prefix| && prefix[k].0 == f.name;
        assert Keys(prefix)[k] == f.name;
      }
      OrderedSnoc(prefix, last, head, FieldFor(last, selected, m));
    }
  }

  /** Appending the field of a new last entry to fields ordered by the
      earlier entries keeps them ordered. */
  lemma OrderedSnoc(prefix: Entries<FieldSetting>, last: (string, FieldSetting), head: seq<Field>, extra: seq<Field>)
    requires UniqueKeys(prefix + [last])
    requires forall f :: f in head ==> f.name in Keys(prefix)
    requires forall i, j :: 0 <= i < j < |head| ==> IndexOf(prefix, head[i].name) < IndexOf(prefix, head[j].name)
    requires |extra| <= 1 && forall f :: f in extra ==> f.name == last.0
    ensures var r := head + extra;
      forall i, j :: 0 <= i < j < |r| ==> IndexOf(prefix + [last], r[i].name) < IndexOf(prefix + [last], r[j].name)
  {
    var fields := prefix + [last];
    var r := head + extra;
    assert fields[..|fields| - 1] == prefix;
    assert last.0 !in Keys(prefix) by {
      forall k | 0 <= k < |prefix| ensures Keys(prefix)[k] != last.0 {
        assert fields[k] == prefix[k] && fields[|prefix|] == last;
      }
    }
    assert IndexOf(fields, last.0) == |prefix|;
    forall i | 0 <= i < |head| ensures IndexOf(fields, head[i].name) == IndexOf(prefix, head[i].name) < |prefix| {
      assert head[i] in head;
      IndexOfExtend(prefix, last, head[i].name);
      IndexOfBounds(prefix, head[i].name);
    }
    if |extra| == 1 {
      assert r[|head|] == extra[0] && extra[0] in extra;
    }
  }

  /** A computed field whose callback gives `undefined` on both sides is
      left out of the entity. */
  lemma ComputedUndefinedFieldOmitted(fields: Entries<FieldSetting>, selected: seq<string>, m: Option<Modifications>, k: nat)
    requires UniqueKeys(fields) && k < |fields|
    requires OptionsObj(fields[k].1).compute.Some?
    requires OptionsObj(fields[k].1).compute.value(DiffVersion(New, m)) == Undefined
    requires OptionsObj(fields[k].1).compute.value(DiffVersion(Old, m)) == Undefined
    ensures forall f :: f in EntityFields(fields, selected, m) ==> f.name != fields[k].0
  {
    EntityFieldsSound(fields, selected, m);
    forall f | f in EntityFields(fields, selected, m) ensures f.name != fields[k].0 {
      var k' :| 0 <= k' < |fields| && fields[k'].0 == f.name && !fields[k'].1.Disabled?
           && f.options == OptionsObj(fields[k'].1)
           && GetFieldValue(f.name, m, f.options) == Some(f.value);
    }
  }
}
