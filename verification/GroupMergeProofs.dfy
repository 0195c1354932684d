/** What a merge plan guarantees, and that planning it again changes nothing. */
module GroupMergeProofs {
  import opened Common
  import opened Forest
  import opened ConnectionGroups
  import opened GroupOrder
  import opened GroupMerge

  /** The position at which one turn of the loop puts a group. */
  ghost function Slot(d: Draft, g: ConnectionGroup): nat
    requires ParentMapped(d.mapping, g)
  {
    var byId := FindId(d.groups, g.id);
    var byName := FindSibling(d.groups, SiblingKey(Mapped(d.mapping, g)));
    if byId.Some? then byId.value else if byName.Some? then byName.value else |d.groups|
  }

  ghost function Slots(local: seq<ConnectionGroup>, order: seq<ConnectionGroup>, overwrite: bool, n: nat): seq<nat>
    requires n <= |order| && After(local, order, overwrite, n).Ok?
  {
    if n == 0 then []
    else
      Slots(local, order, overwrite, n - 1)
      + [Slot(After(local, order, overwrite, n - 1).value, order[n - 1])]
  }

  /** The planned list grows by what was created; local groups keep their place, id and creation time. */
  ghost predicate KeepsLocal(local: seq<ConnectionGroup>, d: Draft, n: nat) {
    && |local| <= |d.groups|
    && |d.groups| + d.conflicts == |local| + n
    && forall i :: 0 <= i < |local| ==> d.groups[i].id == local[i].id && d.groups[i].createdAt == local[i].createdAt
  }

  /** The mapping is total on the first `n` groups of `order`, injective, and its image is `targets`. */
  ghost predicate Injection(order: seq<ConnectionGroup>, mapping: map<Id, Id>, targets: set<Id>, n: nat)
    requires n <= |order|
  {
    && (forall k :: 0 <= k < n ==> order[k].id in mapping && mapping[order[k].id] in targets)
    && (forall id :: id in mapping ==> HasId(order[..n], id))
    && (forall j, k :: 0 <= j < k < n ==> mapping[order[j].id] != mapping[order[k].id])
    && (forall t :: t in targets ==> t in mapping.Values)
  }

  /** Where `g` ended up, by mode and by whether it matched a local group. */
  ghost predicate LandedAt(local: seq<ConnectionGroup>, overwrite: bool, d: Draft, g: ConnectionGroup, s: nat) {
    && |local| <= |d.groups| && s < |d.groups|
    && ParentMapped(d.mapping, g)
    && g.id in d.mapping && d.mapping[g.id] == d.groups[s].id
    && (s >= |local| ==> d.groups[s] == Mapped(d.mapping, g))
    && (s < |local| && overwrite ==> d.groups[s] == Rewritten(local[s], Mapped(d.mapping, g)))
    && (s < |local| && !overwrite ==> Matched(local, Mapped(d.mapping, g), s))
    && (forall j :: 0 <= j < |local| && local[j].id == g.id ==> j == s)
  }

  /** In skip mode a matched local group has the id, or else the sibling key, and no other one has the key. */
  ghost predicate Matched(local: seq<ConnectionGroup>, m: ConnectionGroup, s: nat)
    requires s < |local|
  {
    && (local[s].id == m.id || SiblingKey(local[s]) == SiblingKey(m))
    && (SiblingKey(local[s]) != SiblingKey(m) ==>
          forall j :: 0 <= j < |local| ==> SiblingKey(local[j]) != SiblingKey(m))
  }

  ghost predicate Landings(local: seq<ConnectionGroup>, order: seq<ConnectionGroup>, overwrite: bool, d: Draft,
                           slots: seq<nat>)
  {
    && |slots| <= |order|
    && (forall k :: 0 <= k < |slots| ==> LandedAt(local, overwrite, d, order[k], slots[k]))
    && (forall j :: |local| <= j < |d.groups| ==> j in slots)
    && (!overwrite ==> |local| <= |d.groups| && d.groups[..|local|] == local)
  }

  ghost predicate Drafted(local: seq<ConnectionGroup>, order: seq<ConnectionGroup>, overwrite: bool, d: Draft,
                          slots: seq<nat>)
  {
    && |slots| <= |order|
    && KeepsLocal(local, d, |slots|)
    && Injection(order, d.mapping, d.targets, |slots|)
    && Landings(local, order, overwrite, d, slots)
  }

  lemma KeepsLocalStep(local: seq<ConnectionGroup>, d: Draft, n: nat, g: ConnectionGroup, overwrite: bool)
    requires KeepsLocal(local, d, n) && Place(d, g, overwrite).Ok?
    ensures KeepsLocal(local, Place(d, g, overwrite).value, n + 1)
  {
  }

  lemma MappedStep(order: seq<ConnectionGroup>, mapping: map<Id, Id>, targets: set<Id>, n: nat, target: Id)
    requires n < |order|
    requires forall k :: 0 <= k < n ==> order[k].id in mapping && mapping[order[k].id] in targets
    ensures var mapping' := mapping[order[n].id := target];
            forall k :: 0 <= k < n + 1 ==> order[k].id in mapping' && mapping'[order[k].id] in targets + {target}
  {
  }

  lemma DomainStep(placed: seq<ConnectionGroup>, g: ConnectionGroup, mapping: map<Id, Id>, next: map<Id, Id>)
    requires next.Keys == mapping.Keys + {g.id} && forall id :: id in mapping ==> HasId(placed, id)
    ensures forall id :: id in next ==> HasId(placed + [g], id)
  {
    forall id | id in next ensures HasId(placed + [g], id) {
      HasIdPush(placed, g, id);
    }
  }

  lemma ImagesStep(order: seq<ConnectionGroup>, mapping: map<Id, Id>, targets: set<Id>, n: nat, target: Id)
    requires n < |order| && target !in targets && order[n].id !in mapping
    requires forall k :: 0 <= k < n ==> order[k].id in mapping && mapping[order[k].id] in targets
    requires forall j, k :: 0 <= j < k < n ==> mapping[order[j].id] != mapping[order[k].id]
    ensures var mapping' := mapping[order[n].id := target];
            forall j, k :: 0 <= j < k < n + 1 ==>
              order[j].id in mapping' && order[k].id in mapping' && mapping'[order[j].id] != mapping'[order[k].id]
  {
    var mapping' := mapping[order[n].id := target];
    forall k | 0 <= k < n ensures mapping'[order[k].id] == mapping[order[k].id] {
      assert order[k].id in mapping;
    }
  }

  lemma InjectionStep(order: seq<ConnectionGroup>, mapping: map<Id, Id>, targets: set<Id>, n: nat, target: Id)
    requires n < |order| && DistinctIds(order) && Injection(order, mapping, targets, n)
    requires target !in targets
    ensures Injection(order, mapping[order[n].id := target], targets + {target}, n + 1)
  {
    FreshKey(order, mapping, targets, n);
    hide HasId, DistinctIds;
    MappedStep(order, mapping, targets, n, target);
    DomainStep(order[..n], order[n], mapping, mapping[order[n].id := target]);
    assert order[..n + 1] == order[..n] + [order[n]];
    ImagesStep(order, mapping, targets, n, target);
    ValuesStep(mapping, targets, order[n].id, target);
  }

  lemma ValuesStep(mapping: map<Id, Id>, targets: set<Id>, id: Id, target: Id)
    requires id !in mapping && forall t :: t in targets ==> t in mapping.Values
    ensures forall t :: t in targets + {target} ==> t in mapping[id := target].Values
  {
    var mapping' := mapping[id := target];
    forall t | t in targets + {target} ensures t in mapping'.Values {
      if t in targets {
        var x :| x in mapping && mapping[x] == t;
        assert mapping'[x] == t;
      } else {
        assert mapping'[id] == t;
      }
    }
  }

  lemma FreshKey(order: seq<ConnectionGroup>, mapping: map<Id, Id>, targets: set<Id>, n: nat)
    requires n < |order| && DistinctIds(order) && Injection(order, mapping, targets, n)
    ensures order[n].id !in mapping
  {
    assert order[n].id in mapping ==> HasId(order[..n], order[n].id);
  }

  /** A turn leaves every earlier landing as it was. */
  lemma LandedAtKept(local: seq<ConnectionGroup>, overwrite: bool, d: Draft, e: ConnectionGroup, s: nat,
                     g: ConnectionGroup)
    requires LandedAt(local, overwrite, d, e, s) && d.groups[s].id in d.targets
    requires g.id !in d.mapping
    requires Place(d, g, overwrite).Ok?
    ensures LandedAt(local, overwrite, Place(d, g, overwrite).value, e, s)
  {
    var d' := Place(d, g, overwrite).value;
    assert Mapped(d'.mapping, e) == Mapped(d.mapping, e);
    assert s != Slot(d, g);
    assert d'.groups[s] == d.groups[s];
  }

  /** A turn lands its own group. */
  lemma LandedAtNew(local: seq<ConnectionGroup>, overwrite: bool, d: Draft, n: nat, g: ConnectionGroup)
    requires KeepsLocal(local, d, n) && DistinctIds(local)
    requires forall j :: |local| <= j < |d.groups| ==> d.groups[j].id in d.targets
    requires !overwrite ==> d.groups[..|local|] == local
    requires g.id !in d.mapping && ParentMapped(d.mapping, g) && g.parentId != Some(g.id)
    requires Place(d, g, overwrite).Ok?
    ensures LandedAt(local, overwrite, Place(d, g, overwrite).value, g, Slot(d, g))
  {
    var d' := Place(d, g, overwrite).value;
    var s := Slot(d, g);
    assert Mapped(d'.mapping, g) == Mapped(d.mapping, g);
    forall j | 0 <= j < |local| && local[j].id == g.id ensures j == s {
      assert d.groups[j].id == g.id;
      var i := FindId(d.groups, g.id).value;
      assert i <= j by { FirstId(d.groups, g.id, j); }
      assert local[i].id == local[j].id;
    }
    if s < |local| && !overwrite {
      forall j | 0 <= j < |local| ensures local[j] == d.groups[j] {
        assert d.groups[..|local|][j] == local[j];
      }
      assert Matched(local, Mapped(d.mapping, g), s);
    }
  }

  lemma {:induction false} FirstId(groups: seq<ConnectionGroup>, id: Id, j: nat, from: nat := 0)
    requires from <= j < |groups| && groups[j].id == id
    ensures FindId(groups, id, from).Some? && FindId(groups, id, from).value <= j
    decreases j - from
  {
    if from < j && groups[from].id != id {
      FirstId(groups, id, j, from + 1);
    }
  }

  /** The invariant of the planning loop. */
  lemma {:induction false} DraftedAfter(local: seq<ConnectionGroup>, order: seq<ConnectionGroup>, overwrite: bool,
                                        n: nat)
    requires n <= |order| && DistinctIds(local) && DistinctIds(order)
    requires forall k :: 0 <= k < |order| ==> order[k].parentId != Some(order[k].id)
    requires After(local, order, overwrite, n).Ok?
    ensures Drafted(local, order, overwrite, After(local, order, overwrite, n).value, Slots(local, order, overwrite, n))
    ensures |Slots(local, order, overwrite, n)| == n
  {
    hide Drafted, Place, Slot, DistinctIds;
    if n > 0 {
      DraftedAfter(local, order, overwrite, n - 1);
      var d := After(local, order, overwrite, n - 1).value;
      var slots := Slots(local, order, overwrite, n - 1);
      Unfold(local, order, overwrite, n);
      DraftedStep(local, order, overwrite, d, slots);
    } else {
      DraftedInitially(local, order, overwrite);
    }
  }

  lemma DraftedInitially(local: seq<ConnectionGroup>, order: seq<ConnectionGroup>, overwrite: bool)
    ensures Drafted(local, order, overwrite, Draft(local, map[], {}, 0), [])
  {
  }

  lemma Unfold(local: seq<ConnectionGroup>, order: seq<ConnectionGroup>, overwrite: bool, n: nat)
    requires 0 < n <= |order| && After(local, order, overwrite, n).Ok?
    ensures After(local, order, overwrite, n - 1).Ok?
    ensures var d := After(local, order, overwrite, n - 1).value;
      && ParentMapped(d.mapping, order[n - 1])
      && After(local, order, overwrite, n) == Place(d, order[n - 1], overwrite)
      && Slots(local, order, overwrite, n) == Slots(local, order, overwrite, n - 1) + [Slot(d, order[n - 1])]
  {
  }

  lemma DraftedStep(local: seq<ConnectionGroup>, order: seq<ConnectionGroup>, overwrite: bool, d: Draft,
                    slots: seq<nat>)
    requires DistinctIds(local) && DistinctIds(order)
    requires Drafted(local, order, overwrite, d, slots) && |slots| < |order|
    requires order[|slots|].parentId != Some(order[|slots|].id)
    requires Place(d, order[|slots|], overwrite).Ok?
    ensures Drafted(local, order, overwrite, Place(d, order[|slots|], overwrite).value,
                    slots + [Slot(d, order[|slots|])])
  {
    var n := |slots|;
    var g := order[n];
    KeepsLocalStep(local, d, n, g, overwrite);
    FreshKey(order, d.mapping, d.targets, n);
    var d' := Place(d, g, overwrite).value;
    InjectionStep(order, d.mapping, d.targets, n, d'.mapping[g.id]);
    LandingsStep(local, order, overwrite, d, slots);
  }

  lemma LandingsStep(local: seq<ConnectionGroup>, order: seq<ConnectionGroup>, overwrite: bool, d: Draft,
                     slots: seq<nat>)
    requires DistinctIds(local)
    requires Drafted(local, order, overwrite, d, slots) && |slots| < |order|
    requires order[|slots|].parentId != Some(order[|slots|].id) && order[|slots|].id !in d.mapping
    requires Place(d, order[|slots|], overwrite).Ok?
    ensures Landings(local, order, overwrite, Place(d, order[|slots|], overwrite).value,
                     slots + [Slot(d, order[|slots|])])
  {
    hide LandedAt, Injection, KeepsLocal, DistinctIds, FindId, FindSibling;
    var n := |slots|;
    var g := order[n];
    var d' := Place(d, g, overwrite).value;
    var slots' := slots + [Slot(d, g)];
    PushedAreTargets(local, order, overwrite, d, slots);
    LandedAtNew(local, overwrite, d, n, g);
    EarlierLandings(local, order, overwrite, d, slots);
    SlotsCover(|local|, |d.groups|, |d'.groups|, slots, Slot(d, g));
    assert forall k :: 0 <= k < n ==> slots'[k] == slots[k];
  }

  lemma EarlierLandings(local: seq<ConnectionGroup>, order: seq<ConnectionGroup>, overwrite: bool, d: Draft,
                        slots: seq<nat>)
    requires Drafted(local, order, overwrite, d, slots) && |slots| < |order|
    requires order[|slots|].id !in d.mapping && Place(d, order[|slots|], overwrite).Ok?
    ensures forall k :: 0 <= k < |slots| ==>
      LandedAt(local, overwrite, Place(d, order[|slots|], overwrite).value, order[k], slots[k])
  {
    forall k | 0 <= k < |slots|
      ensures LandedAt(local, overwrite, Place(d, order[|slots|], overwrite).value, order[k], slots[k])
    {
      assert d.mapping[order[k].id] in d.targets;
      LandedAtKept(local, overwrite, d, order[k], slots[k], order[|slots|]);
    }
  }

  lemma SlotsCover(from: nat, to: nat, to': nat, slots: seq<nat>, s: nat)
    requires forall j :: from <= j < to ==> j in slots
    requires to' == if s == to then to + 1 else to
    ensures forall j :: from <= j < to' ==> j in slots + [s]
  {
  }

  lemma PushedAreTargets(local: seq<ConnectionGroup>, order: seq<ConnectionGroup>, overwrite: bool, d: Draft,
                         slots: seq<nat>)
    requires Drafted(local, order, overwrite, d, slots)
    ensures forall j :: |local| <= j < |d.groups| ==> d.groups[j].id in d.targets
  {
    forall j | |local| <= j < |d.groups| ensures d.groups[j].id in d.targets {
      assert j in slots;
      var k :| 0 <= k < |slots| && slots[k] == j;
      assert LandedAt(local, overwrite, d, order[k], slots[k]);
    }
  }
}
