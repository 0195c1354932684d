/** The main results about `plan`. */
module GroupMergeTheorems {
  import opened Common
  import opened Forest
  import opened ConnectionGroups
  import opened GroupOrder
  import opened GroupMerge
  import opened GroupMergeProofs

  lemma {:induction false} KeepsLocalAfter(local: seq<ConnectionGroup>, order: seq<ConnectionGroup>,
                                           overwrite: bool, n: nat)
    requires n <= |order| && After(local, order, overwrite, n).Ok?
    ensures KeepsLocal(local, After(local, order, overwrite, n).value, n)
  {
    if n > 0 {
      KeepsLocalAfter(local, order, overwrite, n - 1);
      KeepsLocalStep(local, After(local, order, overwrite, n - 1).value, n - 1, order[n - 1], overwrite);
    }
  }

  /** A successful merge comes from a draft that satisfies the loop invariant at its end. */
  lemma MergeDraft(local: seq<ConnectionGroup>, imported: seq<ConnectionGroup>, overwrite: bool)
    returns (order: seq<ConnectionGroup>, d: Draft, slots: seq<nat>)
    requires Merge(local, imported, overwrite).Some?
    ensures order == ParentFirst(imported) && After(local, order, overwrite, |order|) == Ok(d)
    ensures slots == Slots(local, order, overwrite, |order|) && |slots| == |order|
    ensures Merge(local, imported, overwrite).value == MergePlan(d.groups, d.mapping, d.conflicts)
    ensures DistinctIds(local)
    ensures Drafted(local, order, overwrite, d, slots)
  {
    order := ParentFirst(imported);
    d := After(local, order, overwrite, |order|).value;
    slots := Slots(local, order, overwrite, |order|);
    OrderFacts(imported);
    KeepsLocalAfter(local, order, overwrite, |order|);
    PrefixDistinct(local, d.groups);
    hide Drafted;
    DraftedAfter(local, order, overwrite, |order|);
  }

  lemma PrefixDistinct(local: seq<ConnectionGroup>, groups: seq<ConnectionGroup>)
    requires DistinctIds(groups) && |local| <= |groups|
    requires forall i :: 0 <= i < |local| ==> groups[i].id == local[i].id
    ensures DistinctIds(local)
  {
  }

  /** The target of an imported group, field by field: a created one is the imported group below the image of its
      parent, and an overwritten one has everything but the id and creation time from it. */
  ghost predicate Carries(local: seq<ConnectionGroup>, r: MergePlan, overwrite: bool, g: ConnectionGroup) {
    && g.id in r.mapping && r.mapping[g.id] in RowsOf(r.groups)
    && (g.parentId.Some? ==> g.parentId.value in r.mapping)
    && var row := RowsOf(r.groups)[r.mapping[g.id]];
       var parentId := if g.parentId.None? then None else Some(r.mapping[g.parentId.value]);
       && row.id == r.mapping[g.id]
       && (overwrite || !HasId(local, row.id) ==>
             && row.name == g.name && row.parentId == parentId && row.sortOrder == g.sortOrder && row.color == g.color
             && row.updatedAt == g.updatedAt)
       && (!HasId(local, row.id) ==> row.id == g.id && row.createdAt == g.createdAt)
  }

  /** Which local group that is: the one with the id, or else the one with the name below the image of the parent. In
      skip mode no other one has that name there. */
  ghost predicate Meets(local: seq<ConnectionGroup>, mapping: map<Id, Id>, overwrite: bool, g: ConnectionGroup) {
    && g.id in mapping && (g.parentId.Some? ==> g.parentId.value in mapping)
    && var target := mapping[g.id];
       var parentId := if g.parentId.None? then None else Some(mapping[g.parentId.value]);
       && (HasId(local, g.id) ==> target == g.id)
       && (HasId(local, target) && target != g.id ==>
             exists i :: 0 <= i < |local| && local[i].id == target
                         && local[i].name == g.name && local[i].parentId == parentId)
       && (!overwrite ==>
             forall i :: 0 <= i < |local| && local[i].name == g.name && local[i].parentId == parentId ==>
               local[i].id == target)
  }

  /** A successful plan is a valid forest, keeps every local group in its place, maps the imported groups
      one to one, and puts each of them below the image of its parent. */
  lemma MergeCorrect(local: seq<ConnectionGroup>, imported: seq<ConnectionGroup>, overwrite: bool)
    requires Merge(local, imported, overwrite).Some?
    ensures var r := Merge(local, imported, overwrite).value;
      && ValidForest(r.groups)
      && r.conflicts <= |imported|
      && |r.groups| == |local| + |imported| - r.conflicts
      && (forall i :: 0 <= i < |local| ==> r.groups[i].id == local[i].id && r.groups[i].createdAt == local[i].createdAt)
      && (!overwrite ==> r.groups[..|local|] == local)
      && (forall i :: 0 <= i < |local| && local[i].id !in r.mapping.Values ==> r.groups[i] == local[i])
      && (forall id :: id in r.mapping <==> HasId(imported, id))
      && (forall x, y :: x in r.mapping && y in r.mapping && x != y ==> r.mapping[x] != r.mapping[y])
      && (forall g :: g in imported ==> Carries(local, r, overwrite, g) && Meets(local, r.mapping, overwrite, g))
  {
    var order, d, slots := MergeDraft(local, imported, overwrite);
    OrderFacts(imported);
    MappingShape(imported, order, d);
    MatchesStay(local, order, overwrite, |order|);
    AllCommute(local, imported, order, overwrite, d, slots);
    UntouchedStay(local, order, overwrite, d, slots);
    hide Carries, Meets, Injection, Landings, ParentFirst, After, Merge;
  }

  lemma AllCommute(local: seq<ConnectionGroup>, imported: seq<ConnectionGroup>, order: seq<ConnectionGroup>,
                   overwrite: bool, d: Draft, slots: seq<nat>)
    requires Drafted(local, order, overwrite, d, slots) && |slots| == |order|
    requires ValidForest(d.groups) && MatchesLocal(local, order, d, slots)
    requires forall g :: g in imported <==> g in order
    ensures var r := MergePlan(d.groups, d.mapping, d.conflicts);
            forall g :: g in imported ==> Carries(local, r, overwrite, g) && Meets(local, r.mapping, overwrite, g)
  {
    var r := MergePlan(d.groups, d.mapping, d.conflicts);
    forall g | g in imported ensures Carries(local, r, overwrite, g) && Meets(local, r.mapping, overwrite, g) {
      hide Carries, Meets, LandedAt, Injection, ValidForest;
      var k :| 0 <= k < |order| && order[k] == g;
      assert LandedAt(local, overwrite, d, order[k], slots[k]);
      CarriesAt(local, order, overwrite, d, slots, k);
      MeetsAt(local, order, overwrite, d, slots, k);
    }
  }

  lemma MappingShape(imported: seq<ConnectionGroup>, order: seq<ConnectionGroup>, d: Draft)
    requires Injection(order, d.mapping, d.targets, |order|)
    requires forall g :: g in imported <==> g in order
    ensures forall id :: id in d.mapping <==> HasId(imported, id)
    ensures forall x, y :: x in d.mapping && y in d.mapping && x != y ==> d.mapping[x] != d.mapping[y]
  {
    assert order[..|order|] == order;
    forall id ensures HasId(order, id) <==> HasId(imported, id) {
      if HasId(order, id) {
        var k :| 0 <= k < |order| && order[k].id == id;
        assert order[k] in imported;
      }
      if HasId(imported, id) {
        var k :| 0 <= k < |imported| && imported[k].id == id;
        assert imported[k] in order;
      }
    }
    forall x, y | x in d.mapping && y in d.mapping && x != y ensures d.mapping[x] != d.mapping[y] {
      assert HasId(order[..|order|], x) && HasId(order[..|order|], y);
      var j :| 0 <= j < |order| && order[j].id == x;
      var k :| 0 <= k < |order| && order[k].id == y;
    }
  }

  lemma CarriesAt(local: seq<ConnectionGroup>, order: seq<ConnectionGroup>, overwrite: bool, d: Draft,
                  slots: seq<nat>, k: nat)
    requires Drafted(local, order, overwrite, d, slots) && k < |slots|
    requires LandedAt(local, overwrite, d, order[k], slots[k]) && ValidForest(d.groups)
    ensures Carries(local, MergePlan(d.groups, d.mapping, d.conflicts), overwrite, order[k])
  {
    var s := slots[k];
    LocalSlots(local, order, overwrite, d, slots);
    ValidRows(d.groups);
    assert d.groups[s] in d.groups;
    LocalIsSlot(local, d.groups, s);
    hide Drafted, ValidForest, DistinctIds, RowsOf, HasId, Matched;
  }

  lemma MeetsAt(local: seq<ConnectionGroup>, order: seq<ConnectionGroup>, overwrite: bool, d: Draft,
                slots: seq<nat>, k: nat)
    requires Drafted(local, order, overwrite, d, slots) && MatchesLocal(local, order, d, slots) && k < |slots|
    requires LandedAt(local, overwrite, d, order[k], slots[k]) && ValidForest(d.groups)
    ensures Meets(local, d.mapping, overwrite, order[k])
  {
    var g, s := order[k], slots[k];
    LocalSlots(local, order, overwrite, d, slots);
    LocalIsSlot(local, d.groups, s);
    assert s < |local| ==> MatchesAt(local, d, g, s);
    if !overwrite {
      SkippedKey(local, d, g, s);
    }
    hide Drafted, ValidForest, RestKept, MatchesLocal;
    LandedMeets(local, overwrite, d, g, s);
  }

  lemma LandedMeets(local: seq<ConnectionGroup>, overwrite: bool, d: Draft, g: ConnectionGroup, s: nat)
    requires LandedAt(local, overwrite, d, g, s) && (s < |local| ==> MatchesAt(local, d, g, s))
    requires forall i :: 0 <= i < |local| ==> d.groups[i].id == local[i].id
    requires HasId(local, d.groups[s].id) <==> s < |local|
    requires !overwrite ==>
               forall i :: 0 <= i < |local| && SiblingKey(local[i]) == SiblingKey(Mapped(d.mapping, g)) ==> i == s
    ensures Meets(local, d.mapping, overwrite, g)
  {
    hide Matched;
    if HasId(local, g.id) {
      var j :| 0 <= j < |local| && local[j].id == g.id;
      assert j == s;
    }
    hide HasId;
    forall i | 0 <= i < |local| ensures
      SiblingKey(local[i]) == SiblingKey(Mapped(d.mapping, g)) <==>
      local[i].name == g.name && local[i].parentId == MapParent(d.mapping, g.parentId)
    {
    }
  }

  lemma LocalIsSlot(local: seq<ConnectionGroup>, groups: seq<ConnectionGroup>, s: nat)
    requires DistinctIds(groups) && s < |groups| && |local| <= |groups|
    requires forall i :: 0 <= i < |local| ==> groups[i].id == local[i].id
    ensures HasId(local, groups[s].id) <==> s < |local|
  {
    if HasId(local, groups[s].id) {
      var i :| 0 <= i < |local| && local[i].id == groups[s].id;
      assert groups[i].id == groups[s].id;
    }
    assert s < |local| ==> local[s].id == groups[s].id;
  }

  lemma SkippedKey(local: seq<ConnectionGroup>, d: Draft, g: ConnectionGroup, s: nat)
    requires LandedAt(local, false, d, g, s) && DistinctSiblings(d.groups)
    requires forall i :: 0 <= i < |local| ==> d.groups[i] == local[i]
    ensures forall i :: 0 <= i < |local| && SiblingKey(local[i]) == SiblingKey(Mapped(d.mapping, g)) ==> i == s
  {
    forall i | 0 <= i < |local| && SiblingKey(local[i]) == SiblingKey(Mapped(d.mapping, g)) ensures i == s {
      assert SiblingKey(d.groups[i]) == SiblingKey(d.groups[s]);
    }
  }

  lemma LocalSlots(local: seq<ConnectionGroup>, order: seq<ConnectionGroup>, overwrite: bool, d: Draft,
                   slots: seq<nat>)
    requires Drafted(local, order, overwrite, d, slots)
    ensures |local| <= |d.groups| && forall i :: 0 <= i < |local| ==> d.groups[i].id == local[i].id
    ensures !overwrite ==> forall i :: 0 <= i < |local| ==> d.groups[i] == local[i]
  {
    if !overwrite {
      forall i | 0 <= i < |local| ensures d.groups[i] == local[i] {
        assert d.groups[..|local|][i] == local[i];
      }
    }
  }

  /** A local group that no turn has matched is as it was. */
  ghost predicate RestKept(local: seq<ConnectionGroup>, d: Draft, slots: seq<nat>) {
    |local| <= |d.groups| && forall j :: 0 <= j < |local| && j !in slots ==> d.groups[j] == local[j]
  }

  lemma RestStep(local: seq<ConnectionGroup>, overwrite: bool, d: Draft, slots: seq<nat>, g: ConnectionGroup)
    requires RestKept(local, d, slots) && Place(d, g, overwrite).Ok?
    ensures RestKept(local, Place(d, g, overwrite).value, slots + [Slot(d, g)])
  {
  }

  lemma {:induction false} RestStays(local: seq<ConnectionGroup>, order: seq<ConnectionGroup>, overwrite: bool, n: nat)
    requires n <= |order| && After(local, order, overwrite, n).Ok?
    ensures RestKept(local, After(local, order, overwrite, n).value, Slots(local, order, overwrite, n))
  {
    hide Place, Slot;
    if n > 0 {
      RestStays(local, order, overwrite, n - 1);
      Unfold(local, order, overwrite, n);
      hide RestKept;
      RestStep(local, overwrite, After(local, order, overwrite, n - 1).value, Slots(local, order, overwrite, n - 1),
               order[n - 1]);
    }
  }

  /** A matched local group had the id, or else the name below the image of the parent. */
  ghost predicate MatchesLocal(local: seq<ConnectionGroup>, order: seq<ConnectionGroup>, d: Draft, slots: seq<nat>) {
    |slots| <= |order| && RestKept(local, d, slots) && forall k :: 0 <= k < |slots| && slots[k] < |local| ==>
      MatchesAt(local, d, order[k], slots[k])
  }

  ghost predicate MatchesAt(local: seq<ConnectionGroup>, d: Draft, g: ConnectionGroup, s: nat)
    requires s < |local|
  {
    ParentMapped(d.mapping, g)
    && (local[s].id == g.id || SiblingKey(local[s]) == SiblingKey(Mapped(d.mapping, g)))
  }

  lemma MatchesStep(local: seq<ConnectionGroup>, order: seq<ConnectionGroup>, overwrite: bool, d: Draft,
                    slots: seq<nat>)
    requires Drafted(local, order, overwrite, d, slots) && MatchesLocal(local, order, d, slots)
    requires |slots| < |order| && DistinctIds(order) && order[|slots|].parentId != Some(order[|slots|].id)
    requires Place(d, order[|slots|], overwrite).Ok?
    ensures MatchesLocal(local, order, Place(d, order[|slots|], overwrite).value, slots + [Slot(d, order[|slots|])])
  {
    var n := |slots|;
    var g := order[n];
    var next := Place(d, g, overwrite).value;
    RestStep(local, overwrite, d, slots, g);
    FreshKey(order, d.mapping, d.targets, n);
    SlotIsNew(local, order, overwrite, d, slots);
    hide Drafted, DistinctIds, RestKept, Place, Slot, MatchesAt;
    forall k | 0 <= k < n && slots[k] < |local| ensures MatchesAt(local, next, order[k], slots[k]) {
      assert MatchesAt(local, d, order[k], slots[k]);
      MatchKept(local, overwrite, d, order[k], slots[k], g);
    }
    if Slot(d, g) < |local| {
      MatchNew(local, overwrite, d, slots, g);
    }
    MatchesPush(local, order, next, slots, Slot(d, g));
  }

  lemma MatchesPush(local: seq<ConnectionGroup>, order: seq<ConnectionGroup>, d: Draft, slots: seq<nat>, s: nat)
    requires |slots| < |order| && RestKept(local, d, slots + [s])
    requires forall k :: 0 <= k < |slots| && slots[k] < |local| ==> MatchesAt(local, d, order[k], slots[k])
    requires s < |local| ==> MatchesAt(local, d, order[|slots|], s)
    ensures MatchesLocal(local, order, d, slots + [s])
  {
    hide RestKept, MatchesAt;
    var all := slots + [s];
    forall k | 0 <= k < |all| && all[k] < |local| ensures MatchesAt(local, d, order[k], all[k]) {
      assert k < |slots| ==> all[k] == slots[k];
    }
  }

  lemma MatchKept(local: seq<ConnectionGroup>, overwrite: bool, d: Draft, e: ConnectionGroup, s: nat,
                  g: ConnectionGroup)
    requires s < |local| && MatchesAt(local, d, e, s) && g.id !in d.mapping && Place(d, g, overwrite).Ok?
    ensures MatchesAt(local, Place(d, g, overwrite).value, e, s)
  {
    assert Mapped(Place(d, g, overwrite).value.mapping, e) == Mapped(d.mapping, e);
  }

  lemma MatchNew(local: seq<ConnectionGroup>, overwrite: bool, d: Draft, slots: seq<nat>, g: ConnectionGroup)
    requires RestKept(local, d, slots) && g.id !in d.mapping && g.parentId != Some(g.id)
    requires Place(d, g, overwrite).Ok? && Slot(d, g) !in slots && Slot(d, g) < |local|
    ensures MatchesAt(local, Place(d, g, overwrite).value, g, Slot(d, g))
  {
    assert Mapped(Place(d, g, overwrite).value.mapping, g) == Mapped(d.mapping, g);
    assert d.groups[Slot(d, g)] == local[Slot(d, g)];
  }

  lemma SlotIsNew(local: seq<ConnectionGroup>, order: seq<ConnectionGroup>, overwrite: bool, d: Draft, slots: seq<nat>)
    requires Drafted(local, order, overwrite, d, slots) && |slots| < |order|
    requires Place(d, order[|slots|], overwrite).Ok?
    ensures Slot(d, order[|slots|]) !in slots
  {
    var s := Slot(d, order[|slots|]);
    forall k | 0 <= k < |slots| ensures slots[k] < |d.groups| && d.groups[slots[k]].id in d.targets {
      assert LandedAt(local, overwrite, d, order[k], slots[k]);
    }
    hide Drafted;
    assert s < |d.groups| ==> d.groups[s].id !in d.targets;
  }

  lemma {:induction false} MatchesStay(local: seq<ConnectionGroup>, order: seq<ConnectionGroup>, overwrite: bool,
                                       n: nat)
    requires n <= |order| && DistinctIds(local) && DistinctIds(order)
    requires forall k :: 0 <= k < |order| ==> order[k].parentId != Some(order[k].id)
    requires After(local, order, overwrite, n).Ok?
    ensures MatchesLocal(local, order, After(local, order, overwrite, n).value, Slots(local, order, overwrite, n))
  {
    hide Drafted, Place, Slot, DistinctIds;
    if n > 0 {
      MatchesStay(local, order, overwrite, n - 1);
      DraftedAfter(local, order, overwrite, n - 1);
      Unfold(local, order, overwrite, n);
      hide MatchesLocal;
      MatchesStep(local, order, overwrite, After(local, order, overwrite, n - 1).value,
                  Slots(local, order, overwrite, n - 1));
    }
  }

  /** A local group that is nobody's target is as it was. */
  lemma UntouchedStay(local: seq<ConnectionGroup>, order: seq<ConnectionGroup>, overwrite: bool, d: Draft,
                      slots: seq<nat>)
    requires Drafted(local, order, overwrite, d, slots) && RestKept(local, d, slots)
    ensures forall i :: 0 <= i < |local| && local[i].id !in d.mapping.Values ==> d.groups[i] == local[i]
  {
    forall i | 0 <= i < |local| && local[i].id !in d.mapping.Values ensures d.groups[i] == local[i] {
      forall k | 0 <= k < |slots| ensures slots[k] != i {
        assert LandedAt(local, overwrite, d, order[k], slots[k]);
        assert d.mapping[order[k].id] in d.mapping.Values;
      }
    }
  }

  lemma {:induction false} MappingCovers(local: seq<ConnectionGroup>, order: seq<ConnectionGroup>, overwrite: bool,
                                         n: nat)
    requires n <= |order| && After(local, order, overwrite, n).Ok?
    ensures forall k :: 0 <= k < n ==> order[k].id in After(local, order, overwrite, n).value.mapping
  {
    hide FindId, FindSibling;
    if n > 0 {
      MappingCovers(local, order, overwrite, n - 1);
    }
  }

  /** The "parent mapping missing" error is unreachable, in both modes and for any local groups. */
  lemma {:induction false} ParentAlwaysMapped(local: seq<ConnectionGroup>, order: seq<ConnectionGroup>,
                                              overwrite: bool, n: nat)
    requires n <= |order| && ParentsFirst(order, {})
    ensures After(local, order, overwrite, n).Err? ==>
      After(local, order, overwrite, n).error in {Ambiguous, DuplicateTarget}
  {
    if n > 0 {
      ParentAlwaysMapped(local, order, overwrite, n - 1);
      if After(local, order, overwrite, n - 1).Ok? {
        MappingCovers(local, order, overwrite, n - 1);
        var g := order[n - 1];
        if g.parentId.Some? {
          assert HasId(order[..n - 1], g.parentId.value);
        }
      }
    }
  }

  /** In skip mode a turn keeps the planned groups a valid forest. */
  lemma SkipStep(d: Draft, g: ConnectionGroup)
    requires ValidForest(d.groups) && ProperlyNamed(g)
    requires forall id :: id in d.mapping ==> HasId(d.groups, d.mapping[id])
    requires Place(d, g, false).Ok?
    ensures ValidForest(Place(d, g, false).value.groups)
    ensures var d' := Place(d, g, false).value; forall id :: id in d'.mapping ==> HasId(d'.groups, d'.mapping[id])
  {
    hide ValidForest;
    var d' := Place(d, g, false).value;
    var m := Mapped(d.mapping, g);
    if Slot(d, g) == |d.groups| {
      assert d'.groups == d.groups + [m];
      PushKeepsValid(d.groups, m);
      forall id | id in d'.mapping ensures HasId(d'.groups, d'.mapping[id]) {
        HasIdPush(d.groups, m, d'.mapping[id]);
      }
    } else {
      assert d'.groups == d.groups;
      assert HasId(d.groups, d.groups[Slot(d, g)].id);
    }
  }

  lemma {:induction false} SkipStaysValid(local: seq<ConnectionGroup>, order: seq<ConnectionGroup>, n: nat)
    requires ValidForest(local) && n <= |order| && After(local, order, false, n).Ok?
    requires forall k :: 0 <= k < |order| ==> ProperlyNamed(order[k])
    ensures var d := After(local, order, false, n).value;
      ValidForest(d.groups) && forall id :: id in d.mapping ==> HasId(d.groups, d.mapping[id])
  {
    hide ValidForest, Place, ProperlyNamed, HasId;
    if n > 0 {
      SkipStaysValid(local, order, n - 1);
      SkipStep(After(local, order, false, n - 1).value, order[n - 1]);
    }
  }

  /** Skip mode with valid inputs: the final validation cannot fail, so the only ways to fail are the
      two ambiguities. */
  lemma SkipFailsOnlyOnAmbiguity(local: seq<ConnectionGroup>, imported: seq<ConnectionGroup>)
    requires ValidForest(local) && ValidForest(imported)
    ensures var order := ParentFirst(imported); var end := After(local, order, false, |order|);
      && (end.Ok? <==> Merge(local, imported, false).Some?)
      && (end.Err? ==> end.error in {Ambiguous, DuplicateTarget})
  {
    hide ValidForest, ParentFirst, After;
    SkipEnds(local, imported);
  }

  lemma SkipEnds(local: seq<ConnectionGroup>, imported: seq<ConnectionGroup>)
    requires ValidForest(local) && ValidForest(imported)
    ensures var order := ParentFirst(imported); var end := After(local, order, false, |order|);
      && |order| == |imported|
      && (end.Ok? ==> ValidForest(end.value.groups))
      && (end.Err? ==> end.error in {Ambiguous, DuplicateTarget})
  {
    hide ValidForest, ParentFirst, ParentsFirst, DistinctIds, DistinctSiblings, After, ProperlyNamed;
    var order := ParentFirst(imported);
    OrderFacts(imported);
    ParentAlwaysMapped(local, order, false, |order|);
    if After(local, order, false, |order|).Ok? {
      SkipStaysValid(local, order, |order|);
    }
  }

  /** The part of the final mapping that the first `n` groups of `order` account for. */
  ghost function MappingOf(order: seq<ConnectionGroup>, mapping: map<Id, Id>, n: nat): map<Id, Id>
    requires n <= |order|
  {
    map id | id in mapping && HasId(order[..n], id) :: mapping[id]
  }

  ghost function TargetsOf(order: seq<ConnectionGroup>, mapping: map<Id, Id>, n: nat): set<Id>
    requires n <= |order| && forall k :: 0 <= k < n ==> order[k].id in mapping
  {
    set k | 0 <= k < n :: mapping[order[k].id]
  }

  /** The invariant of a second merge: nothing but the bookkeeping moves. */
  ghost function Replayed(order: seq<ConnectionGroup>, d: Draft, n: nat): Draft
    requires n <= |order| && forall k :: 0 <= k < n ==> order[k].id in d.mapping
  {
    Draft(d.groups, MappingOf(order, d.mapping, n), TargetsOf(order, d.mapping, n), n)
  }

  /** In the merged forest, whatever carries the id of an imported group is the group's own slot. */
  lemma SameIdSameSlot(local: seq<ConnectionGroup>, order: seq<ConnectionGroup>, overwrite: bool, d: Draft,
                       slots: seq<nat>, n: nat, j: nat)
    requires Drafted(local, order, overwrite, d, slots) && |slots| == |order| && n < |order|
    requires DistinctIds(order)
    requires j < |d.groups| && d.groups[j].id == order[n].id
    ensures j == slots[n]
  {
    assert LandedAt(local, overwrite, d, order[n], slots[n]);
    if j < |local| {
      assert local[j].id == order[n].id;
    } else {
      assert j in slots;
      var k :| 0 <= k < |slots| && slots[k] == j;
      assert LandedAt(local, overwrite, d, order[k], slots[k]);
      assert k == n;
    }
  }

  /** The same for the sibling key under the mapped parent. */
  lemma SameKeySameSlot(local: seq<ConnectionGroup>, order: seq<ConnectionGroup>, overwrite: bool, d: Draft,
                        slots: seq<nat>, n: nat, j: nat)
    requires Drafted(local, order, overwrite, d, slots) && |slots| == |order| && n < |order|
    requires DistinctSiblings(order) && DistinctSiblings(d.groups)
    requires ParentMapped(d.mapping, order[n])
    requires j < |d.groups| && SiblingKey(d.groups[j]) == SiblingKey(Mapped(d.mapping, order[n]))
    ensures j == slots[n]
  {
    var s := slots[n];
    assert LandedAt(local, overwrite, d, order[n], s);
    if SiblingKey(d.groups[s]) != SiblingKey(Mapped(d.mapping, order[n])) {
      assert !overwrite && s < |local|;
      assert d.groups[..|local|] == local;
      assert d.groups[s] == local[s];
      assert Matched(local, Mapped(d.mapping, order[n]), s);
      assert j >= |local|;
      assert j in slots;
      var k :| 0 <= k < |slots| && slots[k] == j;
      CreatedKeyIsOwn(local, order, overwrite, d, slots, n, k);
    }
  }

  /** A created group carries the sibling key of no imported group but its own. */
  lemma CreatedKeyIsOwn(local: seq<ConnectionGroup>, order: seq<ConnectionGroup>, overwrite: bool, d: Draft,
                        slots: seq<nat>, n: nat, k: nat)
    requires Drafted(local, order, overwrite, d, slots) && |slots| == |order| && n < |order| && k < |order|
    requires DistinctSiblings(order)
    requires ParentMapped(d.mapping, order[n])
    requires |local| <= slots[k] < |d.groups|
    requires SiblingKey(d.groups[slots[k]]) == SiblingKey(Mapped(d.mapping, order[n]))
    ensures k == n
  {
    assert LandedAt(local, overwrite, d, order[k], slots[k]);
    ParentsInjective(order, d, order[k], order[n]);
    assert SiblingKey(order[k]) == SiblingKey(order[n]);
  }

  lemma ParentsInjective(order: seq<ConnectionGroup>, d: Draft, a: ConnectionGroup, b: ConnectionGroup)
    requires Injection(order, d.mapping, d.targets, |order|)
    requires ParentMapped(d.mapping, a) && ParentMapped(d.mapping, b)
    requires MapParent(d.mapping, a.parentId) == MapParent(d.mapping, b.parentId)
    ensures a.parentId == b.parentId
  {
    MappingShape(order, order, d);
  }

  /** One turn of the second merge finds the slot of the first. */
  lemma SecondHit(local: seq<ConnectionGroup>, order: seq<ConnectionGroup>, overwrite: bool, d: Draft, slots: seq<nat>,
                  n: nat, mapping: map<Id, Id>)
    requires Drafted(local, order, overwrite, d, slots) && |slots| == |order| && n < |order|
    requires DistinctIds(order) && DistinctSiblings(order) && DistinctSiblings(d.groups)
    requires ParentMapped(mapping, order[n]) && ParentMapped(d.mapping, order[n])
    requires Mapped(mapping, order[n]) == Mapped(d.mapping, order[n])
    ensures var byId := FindId(d.groups, order[n].id);
      var byName := FindSibling(d.groups, SiblingKey(Mapped(mapping, order[n])));
      && (byId.Some? || byName.Some?)
      && (byId.Some? ==> byId.value == slots[n])
      && (byName.Some? ==> byName.value == slots[n])
  {
    var byId := FindId(d.groups, order[n].id);
    var byName := FindSibling(d.groups, SiblingKey(Mapped(mapping, order[n])));
    if byId.Some? {
      SameIdSameSlot(local, order, overwrite, d, slots, n, byId.value);
    }
    if byName.Some? {
      SameKeySameSlot(local, order, overwrite, d, slots, n, byName.value);
    }
    SlotMatches(local, order, overwrite, d, slots, n);
  }

  lemma SlotMatches(local: seq<ConnectionGroup>, order: seq<ConnectionGroup>, overwrite: bool, d: Draft,
                    slots: seq<nat>, n: nat)
    requires Drafted(local, order, overwrite, d, slots) && n < |slots|
    ensures slots[n] < |d.groups| && ParentMapped(d.mapping, order[n])
    ensures var row := d.groups[slots[n]];
      row.id == order[n].id || SiblingKey(row) == SiblingKey(Mapped(d.mapping, order[n]))
  {
    assert LandedAt(local, overwrite, d, order[n], slots[n]);
    assert !overwrite && slots[n] < |local| ==> d.groups[..|local|][slots[n]] == local[slots[n]];
  }

  /** Writing a group into its slot a second time changes nothing. */
  lemma SecondWrite(local: seq<ConnectionGroup>, order: seq<ConnectionGroup>, d: Draft, slots: seq<nat>, n: nat)
    requires Drafted(local, order, true, d, slots) && n < |slots|
    ensures slots[n] < |d.groups| && ParentMapped(d.mapping, order[n])
    ensures Rewritten(d.groups[slots[n]], Mapped(d.mapping, order[n])) == d.groups[slots[n]]
    ensures d.groups[slots[n] := d.groups[slots[n]]] == d.groups
  {
    assert LandedAt(local, true, d, order[n], slots[n]);
  }

  lemma TargetsOfStep(order: seq<ConnectionGroup>, mapping: map<Id, Id>, targets: set<Id>, n: nat)
    requires n < |order| && Injection(order, mapping, targets, |order|)
    ensures TargetsOf(order, mapping, n + 1) == TargetsOf(order, mapping, n) + {mapping[order[n].id]}
    ensures mapping[order[n].id] !in TargetsOf(order, mapping, n)
  {
    hide HasId;
  }

  lemma MappingOfStep(order: seq<ConnectionGroup>, mapping: map<Id, Id>, targets: set<Id>, n: nat)
    requires n < |order| && DistinctIds(order) && Injection(order, mapping, targets, |order|)
    ensures MappingOf(order, mapping, n + 1) == MappingOf(order, mapping, n)[order[n].id := mapping[order[n].id]]
    ensures TargetsOf(order, mapping, n + 1) == TargetsOf(order, mapping, n) + {mapping[order[n].id]}
    ensures mapping[order[n].id] !in TargetsOf(order, mapping, n)
  {
    TargetsOfStep(order, mapping, targets, n);
    assert order[..n + 1] == order[..n] + [order[n]];
    hide TargetsOf, DistinctIds;
    forall id ensures HasId(order[..n + 1], id) <==> HasId(order[..n], id) || id == order[n].id {
      HasIdPush(order[..n], order[n], id);
    }
  }

  lemma ReplayStep(local: seq<ConnectionGroup>, order: seq<ConnectionGroup>, overwrite: bool, d: Draft,
                   slots: seq<nat>, n: nat)
    requires Drafted(local, order, overwrite, d, slots) && |slots| == |order| && n < |order|
    requires DistinctIds(order) && DistinctSiblings(order) && ParentsFirst(order, {}) && DistinctSiblings(d.groups)
    ensures Place(Replayed(order, d, n), order[n], overwrite) == Ok(Replayed(order, d, n + 1))
  {
    hide Drafted, DistinctIds, DistinctSiblings, ParentsFirst, LandedAt;
    hide Injection, FindId, FindSibling, TargetsOf, MappingOf;
    var g := order[n];
    SlotMatches(local, order, overwrite, d, slots, n);
    EarlierParentMapped(order, d, n);
    DraftInjection(local, order, overwrite, d, slots);
    MappingOfStep(order, d.mapping, d.targets, n);
    SecondHit(local, order, overwrite, d, slots, n, MappingOf(order, d.mapping, n));
    if overwrite {
      SecondWrite(local, order, d, slots, n);
    }
    SlotTarget(local, order, overwrite, d, slots, n);
  }

  lemma DraftInjection(local: seq<ConnectionGroup>, order: seq<ConnectionGroup>, overwrite: bool, d: Draft,
                       slots: seq<nat>)
    requires Drafted(local, order, overwrite, d, slots)
    ensures Injection(order, d.mapping, d.targets, |slots|)
    ensures forall k :: 0 <= k < |slots| ==> order[k].id in d.mapping
  {
  }

  lemma SlotTarget(local: seq<ConnectionGroup>, order: seq<ConnectionGroup>, overwrite: bool, d: Draft,
                   slots: seq<nat>, n: nat)
    requires Drafted(local, order, overwrite, d, slots) && n < |slots|
    ensures slots[n] < |d.groups| && order[n].id in d.mapping && d.mapping[order[n].id] == d.groups[slots[n]].id
  {
    assert LandedAt(local, overwrite, d, order[n], slots[n]);
  }

  lemma EarlierParentMapped(order: seq<ConnectionGroup>, d: Draft, n: nat)
    requires n < |order| && ParentsFirst(order, {})
    requires ParentMapped(d.mapping, order[n])
    ensures ParentMapped(MappingOf(order, d.mapping, n), order[n])
    ensures Mapped(MappingOf(order, d.mapping, n), order[n]) == Mapped(d.mapping, order[n])
  {
    if order[n].parentId.Some? {
      assert HasId(order[..n], order[n].parentId.value);
    }
  }

  lemma {:induction false} ReplayAfter(local: seq<ConnectionGroup>, order: seq<ConnectionGroup>, overwrite: bool,
                                       d: Draft, slots: seq<nat>, n: nat)
    requires Drafted(local, order, overwrite, d, slots) && |slots| == |order| && n <= |order|
    requires DistinctIds(order) && DistinctSiblings(order) && ParentsFirst(order, {}) && DistinctSiblings(d.groups)
    ensures forall k :: 0 <= k < |order| ==> order[k].id in d.mapping
    ensures After(d.groups, order, overwrite, n) == Ok(Replayed(order, d, n))
  {
    hide Drafted, DistinctIds, DistinctSiblings, ParentsFirst, Place;
    DraftInjection(local, order, overwrite, d, slots);
    if n > 0 {
      ReplayAfter(local, order, overwrite, d, slots, n - 1);
      ReplayStep(local, order, overwrite, d, slots, n - 1);
    } else {
      assert MappingOf(order, d.mapping, 0) == map[];
      assert TargetsOf(order, d.mapping, 0) == {};
    }
  }

  /** Importing the same groups into the result changes nothing: the same groups in the same positions and
      the same mapping, with every imported group now a conflict. */
  lemma MergeIdempotent(local: seq<ConnectionGroup>, imported: seq<ConnectionGroup>, overwrite: bool)
    requires Merge(local, imported, overwrite).Some?
    ensures var r := Merge(local, imported, overwrite).value;
      Merge(r.groups, imported, overwrite) == Some(MergePlan(r.groups, r.mapping, |imported|))
  {
    var order, d, slots := MergeDraft(local, imported, overwrite);
    OrderFacts(imported);
    assert ValidForest(d.groups);
    ReplayEnd(local, imported, order, overwrite, d, slots);
    hide ValidForest, ParentFirst, Drafted, After, DistinctIds, DistinctSiblings, ParentsFirst, ProperlyNamed;
  }

  lemma ReplayEnd(local: seq<ConnectionGroup>, imported: seq<ConnectionGroup>, order: seq<ConnectionGroup>,
                  overwrite: bool, d: Draft, slots: seq<nat>)
    requires Drafted(local, order, overwrite, d, slots) && |slots| == |order| && |order| == |imported|
    requires DistinctIds(order) && DistinctSiblings(order) && ParentsFirst(order, {}) && DistinctSiblings(d.groups)
    ensures After(d.groups, order, overwrite, |order|).Ok?
    ensures var end := After(d.groups, order, overwrite, |order|).value;
      end.groups == d.groups && end.mapping == d.mapping && end.conflicts == |imported|
  {
    hide DistinctIds, DistinctSiblings, ParentsFirst, After, Place, Landings;
    ReplayAfter(local, order, overwrite, d, slots, |order|);
    assert order[..|order|] == order;
  }

  // ---- overwrite mode ----

  /** Rewriting a group in place keeps ids and names apart. */
  lemma RewriteStaysSeparate(groups: seq<ConnectionGroup>, g: ConnectionGroup, at: nat)
    requires Separate(groups) && at < |groups| && groups[at].id == g.id && ProperlyNamed(g)
    requires forall j :: 0 <= j < |groups| && j != at ==> SiblingKey(groups[j]) != SiblingKey(g)
    ensures Separate(groups[at := g])
  {
    hide ProperlyNamed;
    var next := groups[at := g];
    assert forall j :: 0 <= j < |groups| ==> next[j].id == groups[j].id;
  }

  lemma PushStaysSeparate(groups: seq<ConnectionGroup>, g: ConnectionGroup)
    requires Separate(groups) && ProperlyNamed(g) && !HasId(groups, g.id) && !HasSibling(groups, SiblingKey(g))
    ensures Separate(groups + [g])
  {
    WellNamedPush(groups, g);
    DistinctIdsPush(groups, g);
    DistinctSiblingsPush(groups, g);
    hide WellNamed, DistinctIds, DistinctSiblings, HasId, HasSibling, ProperlyNamed;
  }

  /** The place that a turn rewrites is the only one with the id, and no other one has the key. */
  lemma HitIsAlone(d: Draft, g: ConnectionGroup)
    requires Separate(d.groups) && Place(d, g, true).Ok? && Slot(d, g) < |d.groups|
    ensures var m := Mapped(d.mapping, g);
            forall j :: 0 <= j < |d.groups| && j != Slot(d, g) ==> SiblingKey(d.groups[j]) != SiblingKey(m)
  {
    hide WellNamed, DistinctIds;
  }

  lemma OverwriteStep(d: Draft, g: ConnectionGroup)
    requires Separate(d.groups) && ProperlyNamed(g) && Place(d, g, true).Ok?
    ensures Separate(Place(d, g, true).value.groups)
  {
    var next := Place(d, g, true).value;
    var m := Mapped(d.mapping, g);
    var slot := Slot(d, g);
    if slot == |d.groups| {
      assert next.groups == d.groups + [m];
      hide Separate;
      PushStaysSeparate(d.groups, m);
    } else {
      var row := Rewritten(d.groups[slot], m);
      assert next.groups == d.groups[slot := row];
      HitIsAlone(d, g);
      hide Separate;
      RewriteStaysSeparate(d.groups, row, slot);
    }
  }

  lemma {:induction false} OverwriteStaysSeparate(local: seq<ConnectionGroup>, order: seq<ConnectionGroup>, n: nat)
    requires Separate(local) && n <= |order| && After(local, order, true, n).Ok?
    requires forall k :: 0 <= k < |order| ==> ProperlyNamed(order[k])
    ensures Separate(After(local, order, true, n).value.groups)
  {
    hide Separate, Place, ProperlyNamed;
    if n > 0 {
      OverwriteStaysSeparate(local, order, n - 1);
      OverwriteStep(After(local, order, true, n - 1).value, order[n - 1]);
    }
  }

  /** A rank for the merged groups: the turn that placed a group, and above all turns the local rank. */
  ghost function MergedRank(order: seq<ConnectionGroup>, mapping: map<Id, Id>, rank: map<Id, nat>, id: Id): nat {
    if exists k: nat :: k < |order| && Targets(order, mapping, k, id) then
      var k: nat :| k < |order| && Targets(order, mapping, k, id); k
    else |order| + (if id in rank then rank[id] else 0)
  }

  ghost predicate Targets(order: seq<ConnectionGroup>, mapping: map<Id, Id>, k: nat, id: Id)
    requires k < |order|
  {
    order[k].id in mapping && mapping[order[k].id] == id
  }

  lemma TurnIsRank(order: seq<ConnectionGroup>, d: Draft, rank: map<Id, nat>, n: nat, k: nat)
    requires n <= |order| && Injection(order, d.mapping, d.targets, n) && k < n && DistinctIds(order)
    ensures order[k].id in d.mapping
    ensures MergedRank(order, d.mapping, rank, d.mapping[order[k].id]) == k
  {
    assert Targets(order, d.mapping, k, d.mapping[order[k].id]);
    forall j: nat | j < |order| && Targets(order, d.mapping, j, d.mapping[order[k].id]) ensures j == k {
      assert HasId(order[..n], order[j].id);
      var i :| 0 <= i < |order[..n]| && order[..n][i].id == order[j].id;
      assert i == j;
    }
  }

  lemma TargetIsPlaced(local: seq<ConnectionGroup>, order: seq<ConnectionGroup>, d: Draft, slots: seq<nat>, k: nat,
                       id: Id)
    requires Drafted(local, order, true, d, slots) && DistinctIds(order)
    requires k < |order| && Targets(order, d.mapping, k, id)
    ensures k < |slots| && slots[k] < |d.groups| && d.groups[slots[k]].id == id
  {
    assert HasId(order[..|slots|], order[k].id);
    var i :| 0 <= i < |order[..|slots|]| && order[..|slots|][i].id == order[k].id;
    assert i == k;
    assert LandedAt(local, true, d, order[k], slots[k]);
  }

  /** The id of a group that no turn placed is ranked above all turns. */
  lemma RestRank(local: seq<ConnectionGroup>, order: seq<ConnectionGroup>, d: Draft, slots: seq<nat>,
                 rank: map<Id, nat>, j: nat)
    requires Drafted(local, order, true, d, slots) && DistinctIds(d.groups) && DistinctIds(order)
    requires j < |d.groups| && j !in slots && d.groups[j].id in rank
    ensures MergedRank(order, d.mapping, rank, d.groups[j].id) == |order| + rank[d.groups[j].id]
  {
    var id := d.groups[j].id;
    if exists k: nat :: k < |order| && Targets(order, d.mapping, k, id) {
      var k: nat :| k < |order| && Targets(order, d.mapping, k, id);
      TargetIsPlaced(local, order, d, slots, k, id);
      assert false;
    }
  }

  lemma RankBound(order: seq<ConnectionGroup>, mapping: map<Id, Id>, rank: map<Id, nat>, id: Id)
    requires id in rank
    ensures MergedRank(order, mapping, rank, id) <= |order| + rank[id]
  {
  }

  /** The parent of a group that a turn placed was placed by an earlier turn. */
  lemma PlacedBelow(local: seq<ConnectionGroup>, order: seq<ConnectionGroup>, d: Draft, slots: seq<nat>,
                    rank: map<Id, nat>, k: nat)
    requires Drafted(local, order, true, d, slots) && DistinctIds(order) && ParentsFirst(order, {}) && k < |slots|
    requires slots[k] < |d.groups| && d.groups[slots[k]].parentId.Some?
    ensures var row := d.groups[slots[k]];
            && HasId(d.groups, row.parentId.value)
            && MergedRank(order, d.mapping, rank, row.parentId.value) < MergedRank(order, d.mapping, rank, row.id)
  {
    assert LandedAt(local, true, d, order[k], slots[k]);
    var parent := order[k].parentId.value;
    assert HasId(order[..k], parent);
    var j :| 0 <= j < |order[..k]| && order[..k][j].id == parent;
    assert LandedAt(local, true, d, order[j], slots[j]);
    hide LandedAt, Landings, MergedRank, Injection;
    TurnIsRank(order, d, rank, |slots|, j);
    TurnIsRank(order, d, rank, |slots|, k);
  }

  /** The parent of a group that no turn placed is the local one. */
  lemma RestBelow(local: seq<ConnectionGroup>, order: seq<ConnectionGroup>, d: Draft, slots: seq<nat>,
                  rank: map<Id, nat>, j: nat)
    requires Drafted(local, order, true, d, slots) && RestKept(local, d, slots)
    requires DistinctIds(d.groups) && DistinctIds(order) && DistinctIds(local)
    requires Ranks(ParentsOf(RowsOf(local)), rank)
    requires j < |d.groups| && j !in slots && d.groups[j].parentId.Some?
    ensures var row := d.groups[j];
            && HasId(d.groups, row.parentId.value)
            && MergedRank(order, d.mapping, rank, row.parentId.value) < MergedRank(order, d.mapping, rank, row.id)
  {
    assert j < |local| && d.groups[j] == local[j];
    RowsOfSound(local);
    var parent := local[j].parentId.value;
    assert ParentsOf(RowsOf(local))[local[j].id] == Some(parent);
    HasIdIsRow(local, parent);
    var i :| 0 <= i < |local| && local[i].id == parent;
    assert d.groups[i].id == parent;
    hide Drafted, MergedRank;
    RestRank(local, order, d, slots, rank, j);
    RankBound(order, d.mapping, rank, parent);
  }

  /** The planned groups are a forest after every turn: placed groups hang as imported, the others as before. */
  lemma OverwriteIsForest(local: seq<ConnectionGroup>, order: seq<ConnectionGroup>, d: Draft, slots: seq<nat>)
    requires Drafted(local, order, true, d, slots) && RestKept(local, d, slots)
    requires DistinctIds(d.groups) && DistinctIds(order) && DistinctIds(local) && ParentsFirst(order, {})
    requires IsForest(ParentsOf(RowsOf(local)))
    ensures IsForest(ParentsOf(RowsOf(d.groups)))
  {
    var rank :| Ranks(ParentsOf(RowsOf(local)), rank);
    var p := ParentsOf(RowsOf(d.groups));
    RowsOfSound(d.groups);
    var merged: map<Id, nat> := map id | id in p :: MergedRank(order, d.mapping, rank, id);
    hide Drafted, RestKept, MergedRank, HasId, RowsOf, ParentsFirst, DistinctIds;
    forall id | id in p && p[id].Some? ensures p[id].value in p && merged[p[id].value] < merged[id] {
      var j :| 0 <= j < |d.groups| && d.groups[j] == RowsOf(d.groups)[id];
      ParentBelow(local, order, d, slots, rank, j);
      HasIdIsRow(d.groups, p[id].value);
    }
    assert Ranks(p, merged);
  }

  lemma ParentBelow(local: seq<ConnectionGroup>, order: seq<ConnectionGroup>, d: Draft, slots: seq<nat>,
                    rank: map<Id, nat>, j: nat)
    requires Drafted(local, order, true, d, slots) && RestKept(local, d, slots)
    requires DistinctIds(d.groups) && DistinctIds(order) && DistinctIds(local) && ParentsFirst(order, {})
    requires Ranks(ParentsOf(RowsOf(local)), rank) && j < |d.groups| && d.groups[j].parentId.Some?
    ensures var row := d.groups[j];
            && HasId(d.groups, row.parentId.value)
            && MergedRank(order, d.mapping, rank, row.parentId.value) < MergedRank(order, d.mapping, rank, row.id)
  {
    if j in slots {
      var k :| 0 <= k < |slots| && slots[k] == j;
      hide Drafted, RestKept, MergedRank, HasId, Ranks, RowsOf, ParentsFirst, DistinctIds;
      PlacedBelow(local, order, d, slots, rank, k);
    } else {
      hide Drafted, RestKept, MergedRank, HasId, Ranks, RowsOf, ParentsFirst, DistinctIds;
      RestBelow(local, order, d, slots, rank, j);
    }
  }

  /** In overwrite mode, too, a turn keeps the planned groups a valid forest. */
  lemma OverwriteStaysValid(local: seq<ConnectionGroup>, order: seq<ConnectionGroup>, n: nat)
    requires ValidForest(local) && n <= |order| && After(local, order, true, n).Ok?
    requires DistinctIds(order) && ParentsFirst(order, {})
    requires forall k :: 0 <= k < |order| ==> ProperlyNamed(order[k]) && order[k].parentId != Some(order[k].id)
    ensures ValidForest(After(local, order, true, n).value.groups)
  {
    hide After, Slots, Drafted, RestKept, ParentsFirst, ProperlyNamed, RowsOf, ParentsOf, IsForest;
    OverwriteStaysSeparate(local, order, n);
    hide WellNamed, DistinctIds, DistinctSiblings;
    DraftedAfter(local, order, true, n);
    RestStays(local, order, true, n);
    OverwriteIsForest(local, order, After(local, order, true, n).value, Slots(local, order, true, n));
  }

  /** Overwrite mode with valid inputs: the final validation cannot fail here either. */
  lemma OverwriteFailsOnlyOnAmbiguity(local: seq<ConnectionGroup>, imported: seq<ConnectionGroup>)
    requires ValidForest(local) && ValidForest(imported)
    ensures var order := ParentFirst(imported);
            var end := After(local, order, true, |order|);
            && (end.Ok? <==> Merge(local, imported, true).Some?)
            && (end.Err? ==> end.error in {Ambiguous, DuplicateTarget})
  {
    var order := ParentFirst(imported);
    OrderFacts(imported);
    hide ValidForest, ParentFirst, ParentsFirst, DistinctIds, DistinctSiblings, After, ProperlyNamed;
    ParentAlwaysMapped(local, order, true, |order|);
    if After(local, order, true, |order|).Ok? {
      OverwriteStaysValid(local, order, |order|);
    }
  }
}
