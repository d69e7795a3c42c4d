/** The field resolver of the activity pipeline: projecting a modifications
    map on one side of the change, and resolving the before/after value of
    one configured field, raw or through the field's `compute` callback. */
module FieldResolver {
  import opened ActivityTypes

  /** Which side of each `{old, new}` entry to read. */
  datatype Version = Old | New

  /** `value[version]` for one `{old, new}` entry. */
  function Side(d: DiffValue, v: Version): (side: Value) {
    match v
    case Old => d.oldValue
    case New => d.newValue
  }

  /** The object with the same properties as the modifications map, each
      holding the chosen side of its entry; an absent map projects to `{}`. */
  function DiffVersion(v: Version, modifications: Option<Modifications>): (r: Entries<Value>)
    ensures modifications.None? ==> r == []
    ensures Keys(r) == Keys(modifications.GetOr([]))
    ensures forall i :: 0 <= i < |r| ==> r[i].1 == Side(modifications.GetOr([])[i].1, v)
  {
    var m := modifications.GetOr([]);
    seq(|m|, i requires 0 <= i < |m| => (m[i].0, Side(m[i].1, v)))
  }

  /** `getDiffVersion`: fills a fresh object property by property. */
  method GetDiffVersion(v: Version, modifications: Option<Modifications>) returns (result: Entries<Value>)
    requires UniqueKeys(modifications.GetOr([]))
    ensures result == DiffVersion(v, modifications)
  {
    var entries := modifications.GetOr([]);
    result := [];
    for i := 0 to |entries|
      invariant result == DiffVersion(v, Some(entries[..i]))
    {
      var (key, value) := entries[i];
      assert key !in Keys(result) by {
        forall k | 0 <= k < i ensures Keys(result)[k] != key {
          assert Keys(result)[k] == entries[k].0;
        }
      }
      DiffVersionSnoc(v, entries[..i], entries[i]);
      assert entries[..i + 1] == entries[..i] + [entries[i]];
      result := Put(result, key, Side(value, v));
    }
    assert entries[..|entries|] == entries;
  }

  lemma DiffVersionSnoc(v: Version, m: Modifications, e: (string, DiffValue))
    ensures DiffVersion(v, Some(m + [e])) == DiffVersion(v, Some(m)) + [(e.0, Side(e.1, v))]
  {
  }

  /** A property of the projection is the chosen side of the entry of the
      same name in the modifications map, and is absent exactly when that
      entry is. */
  lemma {:induction false} DiffVersionLookup(v: Version, m: Modifications, k: string)
    ensures Lookup(m, k).None? ==> Lookup(DiffVersion(v, Some(m)), k).None?
    ensures Lookup(m, k).Some? ==> Lookup(DiffVersion(v, Some(m)), k) == Some(Side(Lookup(m, k).value, v))
  {
    if m != [] {
      var r := DiffVersion(v, Some(m));
      assert DiffVersion(v, Some(m[1..])) == r[1..];
      DiffVersionLookup(v, m[1..], k);
    }
  }

  /** `getFieldValue`: without `compute`, the raw entry of the field; with
      `compute`, the callback applied to the whole new side and the whole
      old side, unless both results are `undefined`. */
  function GetFieldValue(fieldName: string, modifications: Option<Modifications>, options: FieldOptions): (r: Option<DiffValue>)
    ensures options.compute.None? ==> r == Lookup(modifications.GetOr([]), fieldName)
    ensures options.compute.Some? ==>
      var compute := options.compute.value;
      var after := compute(DiffVersion(New, modifications));
      var before := compute(DiffVersion(Old, modifications));
      && (r.None? <==> after == Undefined && before == Undefined)
      && (r.Some? ==> r.value == DiffValue(before, after))
  {
    match options.compute
    case None =>
      if modifications.None? then None else Lookup(modifications.value, fieldName)
    case Some(compute) =>
      var newValues := DiffVersion(New, modifications);
      var oldValues := DiffVersion(Old, modifications);
      var result := DiffValue(compute(oldValues), compute(newValues));
      if result.newValue == Undefined && result.oldValue == Undefined then None else Some(result)
  }

  /** Without `compute`, the value of a field is exactly the field's own
      entry in the modifications map, and there is none when the field was
      not modified. */
  lemma RawFieldValue(fieldName: string, m: Modifications, options: FieldOptions, i: nat)
    requires options.compute.None?
    requires UniqueKeys(m) && i < |m| && m[i].0 == fieldName
    ensures GetFieldValue(fieldName, Some(m), options) == Some(m[i].1)
    ensures GetFieldValue(fieldName, None, options).None?
  {
    LookupUnique(m, i);
  }

  /** A computed field sees the modifications only through the two
      projections, and not through its own name: maps with equal projections
      give equal values under any two field names. */
  lemma {:induction false} ComputedFieldDependsOnProjections(
    name1: string, name2: string, m1: Option<Modifications>, m2: Option<Modifications>, options: FieldOptions)
    requires options.compute.Some?
    requires DiffVersion(Old, m1) == DiffVersion(Old, m2)
    requires DiffVersion(New, m1) == DiffVersion(New, m2)
    ensures GetFieldValue(name1, m1, options) == GetFieldValue(name2, m2, options)
  {
  }

  /** `buildField`: the presented field carries the field name, the resolved
      value, and the label taken from the field's options. */
  function BuildField(value: DiffValue, options: FieldOptions, name: string): (f: Field) {
    Field(name, value, options.labelKey, options)
  }
}
