/** The reference reducer: merges the `key` references that point at the
    same key into one, accumulating their language lists, and appends every
    other reference after the merged ones. */
module ReferenceReducer {
  import opened ActivityTypes

  /** The one mergeable reference type. */
  predicate IsKey(r: Reference) {
    r.kind == "key"
  }

  predicate IsKeyWithId(r: Reference, id: int) {
    IsKey(r) && r.id == id
  }

  /** `r.languages || []`. */
  function LanguagesOf(r: Reference): (languages: seq<Value>) {
    r.languages.GetOr([])
  }

  // ---------------------------------------------------------------------
  // Specification

  /** The `key` references with the given id, in input order. */
  function KeyRefsWith(refs: seq<Reference>, id: int): (group: seq<Reference>) {
    if refs == [] then []
    else
      var last := refs[|refs| - 1];
      KeyRefsWith(refs[..|refs| - 1], id) + (if IsKeyWithId(last, id) then [last] else [])
  }

  /** The ids of the `key` references, each once, in order of first occurrence. */
  function KeyIds(refs: seq<Reference>): (ids: seq<int>) {
    if refs == [] then []
    else
      var last := refs[|refs| - 1];
      var ids := KeyIds(refs[..|refs| - 1]);
      if IsKey(last) && last.id !in ids then ids + [last.id] else ids
  }

  /** The set of ids of the `key` references. */
  function KeyIdSet(refs: seq<Reference>): (ids: set<int>) {
    if refs == [] then {}
    else
      var last := refs[|refs| - 1];
      KeyIdSet(refs[..|refs| - 1]) + (if IsKey(last) then {last.id} else {})
  }

  /** The references that are not `key` references, in input order. */
  function Others(refs: seq<Reference>): (others: seq<Reference>) {
    if refs == [] then []
    else
      var last := refs[|refs| - 1];
      Others(refs[..|refs| - 1]) + (if IsKey(last) then [] else [last])
  }

  /** All language lists of a group of references, concatenated in order,
      absent lists counting as empty. */
  function AllLanguages(group: seq<Reference>): (languages: seq<Value>) {
    if group == [] then []
    else AllLanguages(group[..|group| - 1]) + LanguagesOf(group[|group| - 1])
  }

  /** The one reference a group of same-id `key` references becomes: the
      first one itself when it is alone, otherwise the first one with the
      concatenation of all the group's language lists. */
  function MergedOf(group: seq<Reference>): (merged: Reference)
    requires group != []
  {
    if |group| == 1 then group[0]
    else group[0].(languages := Some(AllLanguages(group)))
  }

  /** What `reduceReferences` returns for `refs`. */
  function ReducedReferences(refs: seq<Reference>): (out: seq<Reference>) {
    var ids := KeyIds(refs);
    KeyIdsHaveGroups(refs);
    seq(|ids|, i requires 0 <= i < |ids| => MergedOf(KeyRefsWith(refs, ids[i]))) + Others(refs)
  }

  // ---------------------------------------------------------------------
  // Facts about the specification functions

  lemma Snoc(done: seq<Reference>, r: Reference)
    ensures forall id :: KeyRefsWith(done + [r], id) == KeyRefsWith(done, id) + (if IsKeyWithId(r, id) then [r] else [])
    ensures KeyIds(done + [r]) == if IsKey(r) && r.id !in KeyIds(done) then KeyIds(done) + [r.id] else KeyIds(done)
    ensures KeyIdSet(done + [r]) == KeyIdSet(done) + (if IsKey(r) then {r.id} else {})
    ensures Others(done + [r]) == if IsKey(r) then Others(done) else Others(done) + [r]
  {
    assert (done + [r])[..|done|] == done;
  }

  /** A group holds exactly the `key` references with its id. */
  lemma {:induction false} KeyRefsWithMembers(refs: seq<Reference>, id: int)
    ensures forall x :: x in KeyRefsWith(refs, id) <==> x in refs && IsKeyWithId(x, id)
  {
    if refs != [] {
      var prefix := refs[..|refs| - 1];
      Snoc(prefix, refs[|refs| - 1]);
      assert prefix + [refs[|refs| - 1]] == refs;
      KeyRefsWithMembers(prefix, id);
    }
  }

  /** Listed ids, ids of the set, and ids with a non-empty group coincide. */
  lemma {:induction false} KeyIdsMembers(refs: seq<Reference>, id: int)
    ensures id in KeyIds(refs) <==> id in KeyIdSet(refs)
    ensures id in KeyIds(refs) <==> KeyRefsWith(refs, id) != []
  {
    if refs != [] {
      var prefix := refs[..|refs| - 1];
      Snoc(prefix, refs[|refs| - 1]);
      assert prefix + [refs[|refs| - 1]] == refs;
      KeyIdsMembers(prefix, id);
    }
  }

  lemma KeyIdsHaveGroups(refs: seq<Reference>)
    ensures forall id :: id in KeyIds(refs) ==> KeyRefsWith(refs, id) != []
  {
    forall id | id in KeyIds(refs) ensures KeyRefsWith(refs, id) != [] {
      KeyIdsMembers(refs, id);
    }
  }

  /** No id is listed twice. */
  lemma {:induction false} KeyIdsDistinct(refs: seq<Reference>)
    ensures forall i, j :: 0 <= i < j < |KeyIds(refs)| ==> KeyIds(refs)[i] != KeyIds(refs)[j]
  {
    if refs != [] {
      var prefix := refs[..|refs| - 1];
      Snoc(prefix, refs[|refs| - 1]);
      assert prefix + [refs[|refs| - 1]] == refs;
      KeyIdsDistinct(prefix);
    }
  }

  // ---------------------------------------------------------------------
  // Implementation

  /** The merge function passed for `key` references: keeps everything of
      the reference already in the map and concatenates the language lists. */
  function MergeKey(existingRef: Reference, newRef: Reference): (merged: Reference) {
    existingRef.(languages := Some(LanguagesOf(existingRef) + LanguagesOf(newRef)))
  }

  /** `mergeReference`: the map keyed by `key:<id>` is kept as its insertion
      order `order` and its contents `unified`. A new id is inserted at the
      end of the order; an id already present keeps its place and its entry
      is merged with the incoming reference. */
  method MergeReference(
    order: seq<int>, unified: map<int, Reference>,
    id: int, reference: Reference, merge: (Reference, Reference) -> Reference)
    returns (order': seq<int>, unified': map<int, Reference>)
    ensures id in unified ==> order' == order && unified' == unified[id := merge(unified[id], reference)]
    ensures id !in unified ==> order' == order + [id] && unified' == unified[id := reference]
  {
    if id in unified {
      order', unified' := order, unified[id := merge(unified[id], reference)];
    } else {
      order', unified' := order + [id], unified[id := reference];
    }
  }

  /** Merging one more reference into a merged group gives the merged group
      extended by that reference. */
  lemma MergeKeyStep(group: seq<Reference>, r: Reference)
    requires group != []
    ensures MergeKey(MergedOf(group), r) == MergedOf(group + [r])
  {
    var g := group + [r];
    assert g[..|g| - 1] == group;
    assert AllLanguages(g) == AllLanguages(group) + LanguagesOf(r);
    if |group| == 1 {
      assert group[..0] == [];
      assert AllLanguages(group) == LanguagesOf(group[0]);
    }
  }

  /** What the map and the other-references list hold once the references
      `done` have been visited. */
  ghost predicate Summarizes(done: seq<Reference>, order: seq<int>, unified: map<int, Reference>, others: seq<Reference>) {
    && order == KeyIds(done)
    && (forall id :: id in unified <==> id in order)
    && (forall id :: id in order ==>
          KeyRefsWith(done, id) != [] && unified[id] == MergedOf(KeyRefsWith(done, id)))
    && others == Others(done)
  }

  /** The entry for one id after a `key` reference has been merged in. */
  lemma VisitKeyReferenceAt(
    done: seq<Reference>, unified: map<int, Reference>, r: Reference, unified': map<int, Reference>, id: int)
    requires IsKey(r)
    requires id in unified ==> KeyRefsWith(done, id) != [] && unified[id] == MergedOf(KeyRefsWith(done, id))
    requires id !in unified ==> KeyRefsWith(done, id) == []
    requires r.id in unified ==> unified' == unified[r.id := MergeKey(unified[r.id], r)]
    requires r.id !in unified ==> unified' == unified[r.id := r]
    requires id in unified'
    ensures KeyRefsWith(done + [r], id) != [] && unified'[id] == MergedOf(KeyRefsWith(done + [r], id))
  {
    Snoc(done, r);
    if id != r.id {
      assert id in unified && unified'[id] == unified[id];
      assert KeyRefsWith(done + [r], id) == KeyRefsWith(done, id);
    } else if id in unified {
      MergeKeyStep(KeyRefsWith(done, id), r);
    } else {
      assert KeyRefsWith(done + [r], id) == [r];
    }
  }

  lemma VisitKeyReference(
    done: seq<Reference>, order: seq<int>, unified: map<int, Reference>, others: seq<Reference>,
    r: Reference, order': seq<int>, unified': map<int, Reference>)
    requires Summarizes(done, order, unified, others) && IsKey(r)
    requires r.id in unified ==> order' == order && unified' == unified[r.id := MergeKey(unified[r.id], r)]
    requires r.id !in unified ==> order' == order + [r.id] && unified' == unified[r.id := r]
    ensures Summarizes(done + [r], order', unified', others)
  {
    Snoc(done, r);
    forall id | id in order'
      ensures KeyRefsWith(done + [r], id) != [] && unified'[id] == MergedOf(KeyRefsWith(done + [r], id))
    {
      KeyIdsMembers(done, id);
      VisitKeyReferenceAt(done, unified, r, unified', id);
    }
  }

  lemma VisitOtherReference(
    done: seq<Reference>, order: seq<int>, unified: map<int, Reference>, others: seq<Reference>, r: Reference)
    requires Summarizes(done, order, unified, others) && !IsKey(r)
    ensures Summarizes(done + [r], order, unified, others + [r])
  {
    Snoc(done, r);
    forall id ensures KeyRefsWith(done + [r], id) == KeyRefsWith(done, id) {
      assert KeyRefsWith(done, id) + [] == KeyRefsWith(done, id);
    }
  }

  /** `reduceReferences`. */
  method ReduceReferences(allReferences: seq<Reference>) returns (result: seq<Reference>)
    ensures result == ReducedReferences(allReferences)
  {
    var order: seq<int> := [];
    var unified: map<int, Reference> := map[];
    var otherReferences: seq<Reference> := [];
    for i := 0 to |allReferences|
      invariant Summarizes(allReferences[..i], order, unified, otherReferences)
    {
      var reference := allReferences[i];
      assert allReferences[..i + 1] == allReferences[..i] + [reference];
      if reference.kind == "key" {
        var order', unified' := MergeReference(order, unified, reference.id, reference, MergeKey);
        VisitKeyReference(allReferences[..i], order, unified, otherReferences, reference, order', unified');
        order, unified := order', unified';
      } else {
        VisitOtherReference(allReferences[..i], order, unified, otherReferences, reference);
        otherReferences := otherReferences + [reference];
      }
    }
    assert allReferences[..|allReferences|] == allReferences;
    assert forall id :: id in order ==> id in unified;
    var merged: seq<Reference> := [];
    for j := 0 to |order|
      invariant |merged| == j
      invariant forall k :: 0 <= k < j ==>
        KeyRefsWith(allReferences, order[k]) != [] && merged[k] == MergedOf(KeyRefsWith(allReferences, order[k]))
    {
      assert order[j] in order;
      merged := merged + [unified[order[j]]];
    }
    result := merged + otherReferences;
  }

  // ---------------------------------------------------------------------
  // Properties of the reduction

  /** The first reference of a group is the first `key` reference with that
      id in the input. */
  lemma {:induction false} GroupStartsAtFirstOccurrence(refs: seq<Reference>, id: int)
    requires KeyRefsWith(refs, id) != []
    ensures exists p :: (0 <= p < |refs| && refs[p] == KeyRefsWith(refs, id)[0]
      && forall q :: 0 <= q < p ==> !IsKeyWithId(refs[q], id))
  {
    var prefix := refs[..|refs| - 1];
    var last := refs[|refs| - 1];
    var group := KeyRefsWith(refs, id);
    assert group == KeyRefsWith(prefix, id) + (if IsKeyWithId(last, id) then [last] else []);
    if KeyRefsWith(prefix, id) != [] {
      assert group[0] == KeyRefsWith(prefix, id)[0];
      GroupStartsAtFirstOccurrence(prefix, id);
      var p :| 0 <= p < |prefix| && prefix[p] == KeyRefsWith(prefix, id)[0]
        && forall q :: 0 <= q < p ==> !IsKeyWithId(prefix[q], id);
      forall q | 0 <= q < p ensures !IsKeyWithId(refs[q], id) {
        assert refs[q] == prefix[q];
      }
      assert refs[p] == group[0];
      FirstOccurrenceWitness(refs, id, p);
    } else {
      assert group == [last];
      KeyRefsWithMembers(prefix, id);
      forall q | 0 <= q < |refs| - 1 ensures !IsKeyWithId(refs[q], id) {
        assert refs[q] == prefix[q] && prefix[q] in prefix;
      }
      assert refs[|refs| - 1] == group[0];
      FirstOccurrenceWitness(refs, id, |refs| - 1);
    }
  }

  lemma FirstOccurrenceWitness(refs: seq<Reference>, id: int, p: nat)
    requires KeyRefsWith(refs, id) != [] && p < |refs| && refs[p] == KeyRefsWith(refs, id)[0]
    requires forall q :: 0 <= q < p ==> !IsKeyWithId(refs[q], id)
    ensures exists p :: (0 <= p < |refs| && refs[p] == KeyRefsWith(refs, id)[0]
      && forall q :: 0 <= q < p ==> !IsKeyWithId(refs[q], id))
  {
  }

  /** The ids are listed in order of their first occurrence: for two listed
      ids, the first one occurs before any occurrence of the second. */
  lemma {:induction false} KeyIdsInFirstOccurrenceOrder(refs: seq<Reference>, i: nat, j: nat)
    requires i < j < |KeyIds(refs)|
    ensures exists p :: (0 <= p < |refs| && IsKeyWithId(refs[p], KeyIds(refs)[i])
      && forall q :: 0 <= q <= p ==> !IsKeyWithId(refs[q], KeyIds(refs)[j]))
  {
    var prefix := refs[..|refs| - 1];
    var last := refs[|refs| - 1];
    var ids := KeyIds(refs);
    assert ids == if IsKey(last) && last.id !in KeyIds(prefix) then KeyIds(prefix) + [last.id] else KeyIds(prefix);
    if j < |KeyIds(prefix)| {
      assert ids[i] == KeyIds(prefix)[i] && ids[j] == KeyIds(prefix)[j];
      KeyIdsInFirstOccurrenceOrder(prefix, i, j);
      var p :| 0 <= p < |prefix| && IsKeyWithId(prefix[p], ids[i])
        && forall q :: 0 <= q <= p ==> !IsKeyWithId(prefix[q], ids[j]);
      forall q | 0 <= q <= p ensures !IsKeyWithId(refs[q], ids[j]) {
        assert refs[q] == prefix[q];
      }
      assert refs[p] == prefix[p];
      FirstOccurrenceOrderWitness(refs, ids[i], ids[j], p);
    } else {
      // ids[j] is the id of `last`, seen for the first time
      assert ids[i] in KeyIds(prefix);
      KeyIdsMembers(prefix, ids[i]);
      KeyIdsMembers(prefix, ids[j]);
      KeyRefsWithMembers(prefix, ids[i]);
      KeyRefsWithMembers(prefix, ids[j]);
      var x := KeyRefsWith(prefix, ids[i])[0];
      assert x in KeyRefsWith(prefix, ids[i]);
      var p :| 0 <= p < |prefix| && prefix[p] == x;
      forall q | 0 <= q <= p ensures !IsKeyWithId(refs[q], ids[j]) {
        assert refs[q] == prefix[q] && prefix[q] in prefix;
      }
      assert refs[p] == x;
      FirstOccurrenceOrderWitness(refs, ids[i], ids[j], p);
    }
  }

  lemma FirstOccurrenceOrderWitness(refs: seq<Reference>, a: int, b: int, p: nat)
    requires p < |refs| && IsKeyWithId(refs[p], a)
    requires forall q :: 0 <= q <= p ==> !IsKeyWithId(refs[q], b)
    ensures exists p :: (0 <= p < |refs| && IsKeyWithId(refs[p], a)
      && forall q :: 0 <= q <= p ==> !IsKeyWithId(refs[q], b))
  {
  }

  /** The list holds every distinct id of the `key` references once. */
  lemma {:induction false} KeyIdsCount(refs: seq<Reference>)
    ensures |KeyIds(refs)| == |KeyIdSet(refs)|
  {
    if refs != [] {
      var prefix := refs[..|refs| - 1];
      var last := refs[|refs| - 1];
      KeyIdsCount(prefix);
      KeyIdsMembers(prefix, last.id);
      if !IsKey(last) {
        assert KeyIds(refs) == KeyIds(prefix);
        assert KeyIdSet(refs) == KeyIdSet(prefix) + {};
      } else if last.id in KeyIdSet(prefix) {
        assert KeyIds(refs) == KeyIds(prefix);
        assert KeyIdSet(refs) == KeyIdSet(prefix) + {last.id} == KeyIdSet(prefix);
      } else {
        assert KeyIds(refs) == KeyIds(prefix) + [last.id];
        assert KeyIdSet(refs) == KeyIdSet(prefix) + {last.id};
        assert |KeyIdSet(prefix) + {last.id}| == |KeyIdSet(prefix)| + 1;
      }
    }
  }

  /** Others keeps every non-`key` reference as often as it occurs, and
      nothing else. */
  lemma {:induction false} OthersMultiset(refs: seq<Reference>)
    ensures forall x :: !IsKey(x) ==> multiset(Others(refs))[x] == multiset(refs)[x]
    ensures forall x :: IsKey(x) ==> x !in Others(refs)
  {
    if refs != [] {
      var prefix := refs[..|refs| - 1];
      var last := refs[|refs| - 1];
      assert prefix + [last] == refs;
      assert multiset(refs) == multiset(prefix) + multiset{last};
      Snoc(prefix, last);
      OthersMultiset(prefix);
      if IsKey(last) {
        assert Others(refs) == Others(prefix);
      } else {
        assert multiset(Others(refs)) == multiset(Others(prefix)) + multiset{last};
      }
    }
  }

  /** One output reference per distinct `key` id, plus one per other reference. */
  lemma ReducedLength(refs: seq<Reference>)
    ensures |ReducedReferences(refs)| == |KeyIds(refs)| + |Others(refs)|
    ensures |ReducedReferences(refs)| == |KeyIdSet(refs)| + |Others(refs)|
  {
    KeyIdsCount(refs);
  }

  /** The first part of the output holds the merged `key` references, one per
      listed id, in the order of the list. */
  lemma ReducedKeyPart(refs: seq<Reference>, i: nat)
    requires i < |KeyIds(refs)|
    ensures i < |ReducedReferences(refs)| && IsKeyWithId(ReducedReferences(refs)[i], KeyIds(refs)[i])
  {
    var ids := KeyIds(refs);
    KeyIdsHaveGroups(refs);
    var group := KeyRefsWith(refs, ids[i]);
    KeyRefsWithMembers(refs, ids[i]);
    assert group[0] in group;
    assert ReducedReferences(refs)[i] == MergedOf(group);
  }

  /** The rest of the output is the other references, in input order. */
  lemma ReducedOtherPart(refs: seq<Reference>, i: nat)
    requires |KeyIds(refs)| <= i < |ReducedReferences(refs)|
    ensures ReducedReferences(refs)[i] == Others(refs)[i - |KeyIds(refs)|]
    ensures !IsKey(ReducedReferences(refs)[i])
  {
    var ids := KeyIds(refs);
    OthersMultiset(refs);
    assert Others(refs)[i - |ids|] in Others(refs);
  }

  /** The layout of the result: one merged `key` reference per distinct id,
      in first-occurrence order, then every other reference in input order;
      never interleaved. */
  lemma ReducedShape(refs: seq<Reference>)
    ensures var out := ReducedReferences(refs);
      var ids := KeyIds(refs);
      && |out| == |ids| + |Others(refs)|
      && |out| == |KeyIdSet(refs)| + |Others(refs)|
      && (forall i :: 0 <= i < |ids| ==> IsKeyWithId(out[i], ids[i]))
      && (forall i :: |ids| <= i < |out| ==> !IsKey(out[i]) && out[i] == Others(refs)[i - |ids|])
  {
    var out := ReducedReferences(refs);
    var ids := KeyIds(refs);
    ReducedLength(refs);
    forall i | 0 <= i < |ids| ensures IsKeyWithId(out[i], ids[i]) {
      ReducedKeyPart(refs, i);
    }
    forall i | |ids| <= i < |out| ensures !IsKey(out[i]) && out[i] == Others(refs)[i - |ids|] {
      ReducedOtherPart(refs, i);
    }
  }

  /** At most one reference per `key` id survives the reduction. */
  lemma ReducedKeysUnique(refs: seq<Reference>)
    ensures var out := ReducedReferences(refs);
      forall i, j :: 0 <= i < |out| && 0 <= j < |out| && IsKey(out[i]) && IsKey(out[j]) && out[i].id == out[j].id
        ==> i == j
  {
    ReducedShape(refs);
    KeyIdsDistinct(refs);
  }

  /** The merged reference of an id is its first-seen `key` reference with,
      when there were several, the concatenation of all their language lists
      in input order (absent lists as empty, duplicates kept). */
  lemma ReducedMergedEntry(refs: seq<Reference>, i: nat)
    requires i < |KeyIds(refs)|
    ensures var out := ReducedReferences(refs);
      var group := KeyRefsWith(refs, KeyIds(refs)[i]);
      && group != []
      && (forall x :: x in group <==> x in refs && IsKeyWithId(x, KeyIds(refs)[i]))
      && out[i].kind == group[0].kind && out[i].id == group[0].id && out[i].props == group[0].props
      && out[i].languages == (if |group| == 1 then group[0].languages else Some(AllLanguages(group)))
      && exists p :: (0 <= p < |refs| && refs[p] == group[0]
           && forall q :: 0 <= q < p ==> !IsKeyWithId(refs[q], KeyIds(refs)[i]))
  {
    KeyIdsHaveGroups(refs);
    KeyRefsWithMembers(refs, KeyIds(refs)[i]);
    GroupStartsAtFirstOccurrence(refs, KeyIds(refs)[i]);
  }

  /** Two `key` references to the same key are merged into one, their
      language lists concatenated. */
  lemma TwoKeyReferencesMerge(a: Reference, b: Reference)
    requires IsKey(a) && IsKey(b) && a.id == b.id
    ensures ReducedReferences([a, b]) == [a.(languages := Some(LanguagesOf(a) + LanguagesOf(b)))]
  {
    Snoc([], a);
    Snoc([a], b);
    assert [a] + [b] == [a, b];
    assert [] + [a] == [a];
    MergeKeyStep([a], b);
  }
}
