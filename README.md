# Activity reconstruction, modelled in Dafny

This project models how the web application's activity feed turns one
revision into a presentable activity. A revision is a batch of changes made by
one user action. For each modified entity it holds the changed fields with
their old and new values, and per-type counts.

The pipeline has four parts:

- **Field resolver** (`FieldResolver`). It projects a modifications map onto
  its old or new side (`getDiffVersion`). It resolves the value of one
  configured field (`getFieldValue`): the raw `{old, new}` entry, or the
  field's `compute` callback applied to each whole side, dropped when both
  sides compute to `undefined`. It also builds the presented field
  (`buildField`).
- **Entity builder** (`EntityBuilder`). For one modified entity it keeps the
  configured fields that are selected, enabled and have a value, in the
  configuration's declared order. It attaches the references given by the
  entity type's `references` callback (`buildEntity`).
- **Reference reducer** (`ReferenceReducer`). It merges all `key` references
  with the same id into the first one seen, concatenating their language
  lists. Every other reference follows, in input order (`reduceReferences`
  and its inner `mergeReference`).
- **Activity assembler** (`ActivityAssembler`). It chooses the entity types
  to visit: those the action declares when filtering, otherwise those present
  in the revision. It builds an entity for every instance of a configured
  type, then reduces the pooled references once (`buildActivity`).

The model keeps the program's style. A JavaScript object is the sequence of
its entries in iteration order (`Entries<T>`), read with `Lookup` and written
with `Put`. Loops that fill a result step by step are `method`s with `for`
loops. Each is proved equal to a specification function, and the lemmas state
the properties of those functions. The two static configuration tables are a
`Configuration` value passed as a parameter. The `compute` and `references`
callbacks are function-typed fields of that configuration.

## Model

| member | source | states |
|---|---|---|
| ActivityTypes.Lookup | webapp/src/component/activity/activityTools.ts:49 | `o[k]` is defined exactly when `k` is one of the object's keys, and it is then the value of an entry named `k` |
| ActivityTypes.Put | webapp/src/component/activity/activityTools.ts:23 | `o[k] = x` keeps the key list when `k` exists and appends `(k, x)` otherwise; afterwards `o[k]` is `x` and every other property reads as before |
| ActivityTypes.LookupUnique | webapp/src/component/activity/activityTools.ts:49 | in an object with distinct keys, reading the name of any entry gives that entry's value |
| FieldResolver.DiffVersion | webapp/src/component/activity/activityTools.ts:17-26 | the projection has the same keys, in the same order, as the modifications map (none when the map is absent), and each value is the chosen side (`Side`, the `value[version]` read of line 23) of the entry at that position |
| FieldResolver.GetDiffVersion | webapp/src/component/activity/activityTools.ts:17-26 | filling a fresh object one property at a time yields exactly the projection `DiffVersion` |
| FieldResolver.DiffVersionLookup | webapp/src/component/activity/activityTools.ts:17-26 | a property of the projection is absent exactly when the modification is, and otherwise holds the chosen side of that modification |
| FieldResolver.GetFieldValue | webapp/src/component/activity/activityTools.ts:43-64 | without `compute`, the result is the raw entry of the field; with `compute`, it is undefined exactly when the callback gives `undefined` on both projections, and otherwise it holds the old-side and new-side results |
| FieldResolver.RawFieldValue | webapp/src/component/activity/activityTools.ts:48-50 | without `compute`, a modified field resolves to its own `{old, new}` entry, and an absent modifications map resolves to nothing |
| FieldResolver.ComputedFieldDependsOnProjections | webapp/src/component/activity/activityTools.ts:52-63 | a computed value depends only on the two projections: any two field names and maps with equal projections resolve alike |
| EntityBuilder.BuildEntity | webapp/src/component/activity/activityTools.ts:108-141 | the loop over the configured fields builds exactly `BuiltEntity`; the type and options are the arguments, and the references are `EntityReferences`: the optional `references` callback's result, or an empty list when there is no callback (line 118) |
| EntityBuilder.EntityFieldsSound | webapp/src/component/activity/activityTools.ts:121-138 | no more fields than configured entries; every emitted field is selected, comes from an enabled entry whose options are `OptionsObj` of its setting (an options object itself, `{}` for plain `true`, line 127), carries the value the resolver gives, and is labelled from those options as `buildField` does (lines 28-41) |
| EntityBuilder.EntityFieldsComplete | webapp/src/component/activity/activityTools.ts:121-138 | every selected, enabled configured field whose value resolves is emitted, built by `buildField` (lines 28-41) from that value and `OptionsObj` of its setting (line 127) |
| EntityBuilder.EntityFieldsOrdered | webapp/src/component/activity/activityTools.ts:121-123 | emitted fields follow the configuration's declared order (strictly increasing positions), whatever the order of the modifications |
| EntityBuilder.ComputedUndefinedFieldOmitted | webapp/src/component/activity/activityTools.ts:129-137 | a computed field whose callback is `undefined` on both sides does not appear among the entity's fields |
| ReferenceReducer.MergeReference | webapp/src/component/activity/activityTools.ts:70-84 | a new id is inserted at the end of the map's order with the incoming reference; an existing id keeps its place and its entry becomes `merge(existing, incoming)` |
| ReferenceReducer.MergeKeyStep | webapp/src/component/activity/activityTools.ts:89-97 | merging one more reference into a merged group with `MergeKey` (the merge callback of lines 89-97: the existing reference with the incoming languages appended) gives the merge of the extended group |
| ReferenceReducer.VisitKeyReference | webapp/src/component/activity/activityTools.ts:86-98 | visiting a `key` reference keeps the map equal to one merged entry per id seen so far, in first-seen order |
| ReferenceReducer.VisitOtherReference | webapp/src/component/activity/activityTools.ts:100-101 | visiting any other reference leaves the map alone and appends it to the other references |
| ReferenceReducer.ReduceReferences | webapp/src/component/activity/activityTools.ts:66-106 | the loop, passing `MergeKey` (lines 89-97) to `mergeReference`, and the final concatenation compute exactly `ReducedReferences` |
| ReferenceReducer.KeyRefsWithMembers | webapp/src/component/activity/activityTools.ts:75-83 | the group of an id holds exactly the input's `key` references with that id |
| ReferenceReducer.KeyIdsMembers | webapp/src/component/activity/activityTools.ts:75-83 | an id is listed exactly when it is the id of some `key` reference, that is, when its group is non-empty |
| ReferenceReducer.KeyIdsDistinct | webapp/src/component/activity/activityTools.ts:75-83 | no id is listed twice |
| ReferenceReducer.KeyIdsCount | webapp/src/component/activity/activityTools.ts:67-83 | the number of listed ids is the number of distinct `key` ids |
| ReferenceReducer.GroupStartsAtFirstOccurrence | webapp/src/component/activity/activityTools.ts:76-83 | a group's first reference is the first `key` reference with that id in the input |
| ReferenceReducer.KeyIdsInFirstOccurrenceOrder | webapp/src/component/activity/activityTools.ts:105 | merged references come in first-occurrence order: a listed id occurs before any occurrence of every id listed after it |
| ReferenceReducer.OthersMultiset | webapp/src/component/activity/activityTools.ts:100-101 | every non-`key` reference is kept as often as it occurs, and no `key` reference is among the others |
| ReferenceReducer.ReducedShape | webapp/src/component/activity/activityTools.ts:105 | the output holds one merged `key` reference per distinct id, followed by all other references in input order, never interleaved |
| ReferenceReducer.ReducedKeysUnique | webapp/src/component/activity/activityTools.ts:75-83 | no two output `key` references share an id |
| ReferenceReducer.ReducedMergedEntry | webapp/src/component/activity/activityTools.ts:89-97 | a merged reference is the first-seen reference of its id, in kind, id and other properties; its languages are its own when alone, otherwise all languages of the group concatenated in input order, duplicates kept, an absent list counting as empty (`LanguagesOf`: `languages`, or `[]` when absent, lines 93-94) |
| ReferenceReducer.TwoKeyReferencesMerge | webapp/src/component/activity/activityTools.ts:88-97 | two `key` references with the same id reduce to the first one carrying both language lists concatenated, an absent list counting as empty (`LanguagesOf`, lines 93-94) |
| ActivityAssembler.BuildActivity | webapp/src/component/activity/activityTools.ts:143-199 | the translation key, type, counts (`{}` when absent) and options come from the action configuration and the revision; the entities are `ActivityEntities`; the references are the reduction of the pooled entity references, or none without modified entities |
| ActivityAssembler.BuildInstances | webapp/src/component/activity/activityTools.ts:180-192 | the loop over a configured type's instances appends exactly `BuiltInstances` to the entities built so far and keeps the pooled references equal to the concatenation of their references |
| ActivityAssembler.VisitEntityType | webapp/src/component/activity/activityTools.ts:161-193 | visiting one type appends exactly `EntitiesOfType`: nothing when filtering excludes it (`Selection` is `Excluded` for a missing or falsy declaration, line 166), when it has no configuration or when the revision has no instance of it; the types visited are `ProcessedTypes` (the keys of `ActionEntities`, that is `options?.entities` or `{}`, when filtering, else the revision's, lines 161-163) |
| ActivityAssembler.BuiltEntitiesTypesVisited | webapp/src/component/activity/activityTools.ts:161-193 | every built entity's type is one of the visited types |
| ActivityAssembler.BuiltInstancesOnePerInstance | webapp/src/component/activity/activityTools.ts:180-192 | each instance of a configured type yields exactly one entity, in instance order |
| ActivityAssembler.EntitiesOfTypeHaveType | webapp/src/component/activity/activityTools.ts:182-189 | the entities built for a type all carry that type |
| ActivityAssembler.BuiltEntitiesAppend | webapp/src/component/activity/activityTools.ts:165-193 | visiting two lists of types in turn gives the entities of the first followed by those of the second |
| ActivityAssembler.BuiltEntitiesSegment | webapp/src/component/activity/activityTools.ts:165-193 | the entities of the k-th visited type sit between those of the earlier and the later types |
| ActivityAssembler.BuiltEntitiesOrigin | webapp/src/component/activity/activityTools.ts:165-192 | every entity's type was visited, is configured with the entity's options, is declared with a truthy value when filtering, and is present in the revision; the entity is built from one of that type's instances with `SelectedFields` (the declared list when it is an array, otherwise all configured fields, lines 173-176) |
| ActivityAssembler.BuiltEntitiesTypeOrder | webapp/src/component/activity/activityTools.ts:161-165 | entities are grouped by type, with types in the order visited |
| ActivityAssembler.UnconfiguredTypesOmitted | webapp/src/component/activity/activityTools.ts:169-181 | a type without an entity configuration contributes no entity, filtered or not |
| ActivityAssembler.FilteredEntitiesFollowAction | webapp/src/component/activity/activityTools.ts:161-176 | when filtering, only types the action declares with a truthy value appear: those of `ActionEntities` (`options?.entities` or `{}`, lines 162, 166, 174) whose `Selection` is not `Excluded` (line 166), and a type declared with a field list shows only fields from that list (`SelectedFields`, lines 173-176) |
| ActivityAssembler.SingleKeyRename | webapp/src/component/activity/activityTools.ts:143-199 | one `Key` whose `name` changed from "a" to "b", under a configuration exposing `name`, yields one `Key` entity with the single field `name` carrying that change |

## Left out

- The two configuration tables, imported from `'./configuration'` (activityTools.ts:2), are not part of this model. They are the `Configuration` parameter, and the bodies of their `compute` and `references` callbacks are arbitrary total functions.
- The UI components, the activity types file and the API schema are not part of this model. Only the records the pipeline reads are modelled.
- A property name such as `constructor` would hit the JavaScript prototype chain. The model does not capture this: an object holds only its own entries.
- `Object.entries` and `Object.keys` list integer-like keys first. The model takes each object's entries in the given order, which is the iteration order.
- Truthiness is modelled only at the tests the pipeline makes:
  - a field option is `Disabled`, `Enabled` or an options object;
  - an action's entity declaration is `Excluded`, `AllFields` or a field list (`Array.isArray`);
  - a resolved field value is present or `undefined`.
- Numbers are integers. Floating-point values in the revision are not modelled.
- The map identificator `` `${type}:${id}` `` is modelled by the integer id of a `key` reference. Only `key` references reach the map, and distinct integer ids give distinct identificators. An id that is a string such as `"5"` would collide with the number `5` in the source; the model does not capture that.
- The result object and its arrays are modelled as values. Mutation in place and sharing of the `options` object with the configuration are not modelled.
- The callbacks are modelled as pure functions. Side effects of a `compute` or `references` callback, and the order of the two `compute` calls, are not modelled.
- `options!` on an unknown action type is an unchecked cast in the source. The model keeps that case as `None` in `Activity.options`.
- GetDiffVersion: requires the modifications map to have distinct keys, as every JavaScript object does, so that the step-by-step fill equals the positional projection.
- RawFieldValue, EntityFieldsOrdered, ComputedUndefinedFieldOmitted: require distinct configured or modified keys, as every JavaScript object has.
- BuiltEntitiesTypeOrder: requires distinct visited types, which holds because they are the keys of an object.
- `ModifiedEntity` omits the server record's `entityClass` (ActivityModifiedEntity.kt:27-28) and `revisionType` (ActivityModifiedEntity.kt:43-44). The pipeline itself reads only `modifications` (activityTools.ts:131). The id, description and relations are kept for the `references` callback, which receives the whole record (activityTools.ts:118); the model's callback therefore cannot depend on `entityClass` or `revisionType`.
