/** `ordered`: parents before children. */
module GroupOrder {
  import opened Common
  import opened Forest
  import opened ConnectionGroups

  predicate Ready(g: ConnectionGroup, seen: set<Id>) {
    g.parentId.None? || g.parentId.value in seen
  }

  /** One `retain` pass: what it moves to the result, what it keeps, and the ids it has seen. */
  datatype Pass = Pass(placed: seq<ConnectionGroup>, kept: seq<ConnectionGroup>, seen: set<Id>)

  /** The pass over the first `n` remaining groups; `seen` grows while the pass is under way. */
  function PassOver(remaining: seq<ConnectionGroup>, seen: set<Id>, n: nat): Pass
    requires n <= |remaining|
  {
    if n == 0 then Pass([], [], seen)
    else
      var before := PassOver(remaining, seen, n - 1);
      var g := remaining[n - 1];
      if Ready(g, before.seen) then
        Pass(before.placed + [g], before.kept, before.seen + {g.id})
      else
        Pass(before.placed, before.kept + [g], before.seen)
  }

  lemma {:induction false} PassAccounts(remaining: seq<ConnectionGroup>, seen: set<Id>, n: nat)
    requires n <= |remaining|
    ensures var pass := PassOver(remaining, seen, n);
      && multiset(pass.placed) + multiset(pass.kept) == multiset(remaining[..n])
      && |pass.placed| + |pass.kept| == n
      && seen <= pass.seen
      && (forall g :: g in pass.placed ==> g.id in pass.seen)
      && (forall id :: id in pass.seen && id !in seen ==> HasId(pass.placed, id))
  {
    if n > 0 {
      PassAccounts(remaining, seen, n - 1);
      assert remaining[..n] == remaining[..n - 1] + [remaining[n - 1]];
      var before := PassOver(remaining, seen, n - 1);
      var g := remaining[n - 1];
      if Ready(g, before.seen) {
        forall id | id in before.seen + {g.id} && id !in seen
          ensures HasId(before.placed + [g], id)
        {
          HasIdPush(before.placed, g, id);
        }
      }
    }
  }

  lemma HasIdPush(groups: seq<ConnectionGroup>, g: ConnectionGroup, id: Id)
    ensures HasId(groups + [g], id) <==> HasId(groups, id) || g.id == id
  {
    assert (groups + [g])[|groups|] == g;
    if HasId(groups, id) {
      var i :| 0 <= i < |groups| && groups[i].id == id;
      assert (groups + [g])[i].id == id;
    }
  }

  /** Every group comes after its parent, where `before` holds the ids placed earlier. */
  ghost predicate ParentsFirst(groups: seq<ConnectionGroup>, before: set<Id>) {
    forall i :: 0 <= i < |groups| && groups[i].parentId.Some? ==>
      groups[i].parentId.value in before || HasId(groups[..i], groups[i].parentId.value)
  }

  lemma {:induction false} PassParentsFirst(remaining: seq<ConnectionGroup>, seen: set<Id>, n: nat)
    requires n <= |remaining|
    ensures ParentsFirst(PassOver(remaining, seen, n).placed, seen)
  {
    if n > 0 {
      PassParentsFirst(remaining, seen, n - 1);
      PassAccounts(remaining, seen, n - 1);
      var before := PassOver(remaining, seen, n - 1);
      var placed := PassOver(remaining, seen, n).placed;
      forall i | 0 <= i < |placed| && placed[i].parentId.Some?
        ensures placed[i].parentId.value in seen || HasId(placed[..i], placed[i].parentId.value)
      {
        if i < |before.placed| {
          assert placed[..i] == before.placed[..i];
        } else {
          assert placed[..i] == before.placed;
        }
      }
    }
  }

  /** A ready group in the remaining list is placed, so the pass makes progress. */
  lemma {:induction false} ReadyIsPlaced(remaining: seq<ConnectionGroup>, seen: set<Id>, n: nat, j: nat)
    requires j < n <= |remaining| && Ready(remaining[j], seen)
    ensures |PassOver(remaining, seen, n).kept| < n
  {
    PassAccounts(remaining, seen, n - 1);
    if j < n - 1 {
      ReadyIsPlaced(remaining, seen, n - 1, j);
    }
  }

  /** The state of the outer loop, run until nothing remains or a pass places nothing. */
  ghost function OrderFrom(remaining: seq<ConnectionGroup>, seen: set<Id>,
                           result: seq<ConnectionGroup>): seq<ConnectionGroup>
    decreases |remaining|
  {
    var pass := PassOver(remaining, seen, |remaining|);
    PassAccounts(remaining, seen, |remaining|);
    if |pass.placed| == 0 then result
    else OrderFrom(pass.kept, pass.seen, result + pass.placed)
  }

  /** The parent-first order that `ordered` computes. */
  ghost function ParentFirst(groups: seq<ConnectionGroup>): seq<ConnectionGroup> {
    OrderFrom(groups, {}, [])
  }

  /** The invariant of the outer loop. */
  ghost predicate Ordering(groups: seq<ConnectionGroup>, remaining: seq<ConnectionGroup>, seen: set<Id>,
                           result: seq<ConnectionGroup>) {
    && multiset(result) + multiset(remaining) == multiset(groups)
    && (forall g :: g in result ==> g.id in seen)
    && (forall id :: id in seen ==> HasId(result, id))
    && ParentsFirst(result, {})
  }

  lemma HasIdConcat(a: seq<ConnectionGroup>, b: seq<ConnectionGroup>, id: Id)
    ensures HasId(a + b, id) <==> HasId(a, id) || HasId(b, id)
  {
    if HasId(a, id) {
      var i :| 0 <= i < |a| && a[i].id == id;
      assert (a + b)[i].id == id;
    }
    if HasId(b, id) {
      var i :| 0 <= i < |b| && b[i].id == id;
      assert (a + b)[|a| + i].id == id;
    }
  }

  lemma ParentsFirstConcat(a: seq<ConnectionGroup>, b: seq<ConnectionGroup>, seen: set<Id>)
    requires ParentsFirst(a, {}) && ParentsFirst(b, seen)
    requires forall id :: id in seen ==> HasId(a, id)
    ensures ParentsFirst(a + b, {})
  {
    var all := a + b;
    forall i | 0 <= i < |all| && all[i].parentId.Some?
      ensures HasId(all[..i], all[i].parentId.value)
    {
      if i < |a| {
        assert all[..i] == a[..i];
      } else {
        assert all[..i] == a + b[..i - |a|];
        HasIdConcat(a, b[..i - |a|], all[i].parentId.value);
      }
    }
  }

  lemma OrderingStep(groups: seq<ConnectionGroup>, remaining: seq<ConnectionGroup>, seen: set<Id>,
                     result: seq<ConnectionGroup>)
    requires Ordering(groups, remaining, seen, result)
    ensures var pass := PassOver(remaining, seen, |remaining|);
      Ordering(groups, pass.kept, pass.seen, result + pass.placed)
  {
    var pass := PassOver(remaining, seen, |remaining|);
    PassAccounts(remaining, seen, |remaining|);
    PassParentsFirst(remaining, seen, |remaining|);
    ParentsFirstConcat(result, pass.placed, seen);
    assert remaining[..|remaining|] == remaining;
    forall id | id in pass.seen ensures HasId(result + pass.placed, id) {
      HasIdConcat(result, pass.placed, id);
    }
  }

  /** In a valid forest some remaining group is always ready: the remaining one of least rank. */
  lemma {:induction false} SomeReady(groups: seq<ConnectionGroup>, remaining: seq<ConnectionGroup>, seen: set<Id>,
                  result: seq<ConnectionGroup>, rank: map<Id, nat>, j: nat) returns (ready: nat)
    requires ValidForest(groups) && Ordering(groups, remaining, seen, result)
    requires Ranks(ParentsOf(RowsOf(groups)), rank)
    requires j < |remaining| && remaining[j].id in rank
    ensures ready < |remaining| && Ready(remaining[ready], seen)
    decreases rank[remaining[j].id]
  {
    if Ready(remaining[j], seen) {
      ready := j;
    } else {
      var k := UnseenParentRemains(groups, remaining, seen, result, rank, j);
      ready := SomeReady(groups, remaining, seen, result, rank, k);
    }
  }

  lemma UnseenParentRemains(groups: seq<ConnectionGroup>, remaining: seq<ConnectionGroup>, seen: set<Id>,
                            result: seq<ConnectionGroup>, rank: map<Id, nat>, j: nat) returns (k: nat)
    requires ValidForest(groups) && Ordering(groups, remaining, seen, result)
    requires Ranks(ParentsOf(RowsOf(groups)), rank)
    requires j < |remaining| && !Ready(remaining[j], seen) && remaining[j].id in rank
    ensures k < |remaining| && remaining[k].id in rank && rank[remaining[k].id] < rank[remaining[j].id]
  {
    var g := remaining[j];
    InGroups(groups, remaining, result, g);
    ValidRows(groups);
    var p := ParentsOf(RowsOf(groups));
    assert p[g.id] == g.parentId;
    var parent := RowsOf(groups)[g.parentId.value];
    InGroups(groups, remaining, result, parent);
    k :| 0 <= k < |remaining| && remaining[k] == parent;
  }

  lemma InGroups(groups: seq<ConnectionGroup>, remaining: seq<ConnectionGroup>, result: seq<ConnectionGroup>,
                 g: ConnectionGroup)
    requires multiset(result) + multiset(remaining) == multiset(groups)
    ensures g in groups <==> g in result || g in remaining
  {
    assert g in multiset(groups) <==> g in multiset(result) || g in multiset(remaining);
  }

  lemma ValidRows(groups: seq<ConnectionGroup>)
    requires ValidForest(groups)
    ensures forall g :: g in groups ==> g.id in RowsOf(groups) && RowsOf(groups)[g.id] == g
    ensures forall id :: id in RowsOf(groups) ==> RowsOf(groups)[id].id == id && RowsOf(groups)[id] in groups
  {
    RowsOfSound(groups);
  }

  lemma PassProgresses(groups: seq<ConnectionGroup>, remaining: seq<ConnectionGroup>, seen: set<Id>,
                       result: seq<ConnectionGroup>)
    requires ValidForest(groups) && Ordering(groups, remaining, seen, result) && remaining != []
    ensures |PassOver(remaining, seen, |remaining|).kept| < |remaining|
  {
    var rank :| Ranks(ParentsOf(RowsOf(groups)), rank);
    InGroups(groups, remaining, result, remaining[0]);
    ValidRows(groups);
    var j := SomeReady(groups, remaining, seen, result, rank, 0);
    ReadyIsPlaced(remaining, seen, |remaining|, j);
  }

  /** `ordered` succeeds exactly on valid forests; its "cannot resolve order" error is unreachable. */
  method Ordered(groups: seq<ConnectionGroup>) returns (r: Result<seq<ConnectionGroup>, GroupError>)
    ensures r.Ok? <==> ValidForest(groups)
    ensures r.Ok? ==> r.value == ParentFirst(groups)
    ensures r.Ok? ==> multiset(r.value) == multiset(groups) && ParentsFirst(r.value, {})
    ensures r.Err? ==> r.error in {Invalid, NameConflict, Cycle, ParentMissing}
  {
    var _ :- ValidateTree(groups);
    var remaining := groups;
    var result: seq<ConnectionGroup> := [];
    var seen: set<Id> := {};
    while remaining != []
      invariant Ordering(groups, remaining, seen, result)
      invariant OrderFrom(remaining, seen, result) == ParentFirst(groups)
      decreases |remaining|
    {
      PassProgresses(groups, remaining, seen, result);
      PassAccounts(remaining, seen, |remaining|);
      OrderingStep(groups, remaining, seen, result);
      var before := |remaining|;
      remaining, seen, result := Retain(remaining, seen, result);
      if before == |remaining| {
        return Err(OrderUnresolved);
      }
    }
    return Ok(result);
  }

  /** `remaining.retain(...)` with its side effects on `seen` and `result`. */
  method Retain(remaining: seq<ConnectionGroup>, seen: set<Id>, result: seq<ConnectionGroup>)
    returns (kept: seq<ConnectionGroup>, seen': set<Id>, result': seq<ConnectionGroup>)
    ensures var pass := PassOver(remaining, seen, |remaining|);
      kept == pass.kept && seen' == pass.seen && result' == result + pass.placed
  {
    kept, seen', result' := [], seen, result;
    for i := 0 to |remaining|
      invariant PassOver(remaining, seen, i).kept == kept
      invariant PassOver(remaining, seen, i).seen == seen'
      invariant result + PassOver(remaining, seen, i).placed == result'
    {
      var group := remaining[i];
      if Ready(group, seen') {
        seen' := seen' + {group.id};
        result' := result' + [group];
      } else {
        kept := kept + [group];
      }
    }
  }

  /** The specification function has the promised properties for every valid forest. */
  lemma ParentFirstSound(groups: seq<ConnectionGroup>)
    requires ValidForest(groups)
    ensures multiset(ParentFirst(groups)) == multiset(groups)
    ensures ParentsFirst(ParentFirst(groups), {})
    ensures |ParentFirst(groups)| == |groups|
  {
    OrderFromSound(groups, groups, {}, []);
    assert |multiset(ParentFirst(groups))| == |multiset(groups)|;
  }

  lemma {:induction false} OrderFromSound(groups: seq<ConnectionGroup>, remaining: seq<ConnectionGroup>, seen: set<Id>,
                       result: seq<ConnectionGroup>)
    requires ValidForest(groups) && Ordering(groups, remaining, seen, result)
    ensures multiset(OrderFrom(remaining, seen, result)) == multiset(groups)
    ensures ParentsFirst(OrderFrom(remaining, seen, result), {})
    decreases |remaining|
  {
    if remaining != [] {
      var pass := PassOver(remaining, seen, |remaining|);
      PassProgresses(groups, remaining, seen, result);
      PassAccounts(remaining, seen, |remaining|);
      OrderingStep(groups, remaining, seen, result);
      OrderFromSound(groups, pass.kept, pass.seen, result + pass.placed);
    }
  }

  /** The order holds the same groups, so it inherits their distinctness. */
  lemma ReorderedDistinct(groups: seq<ConnectionGroup>, order: seq<ConnectionGroup>)
    requires multiset(groups) == multiset(order)
    requires DistinctIds(groups) && DistinctSiblings(groups)
    ensures DistinctIds(order) && DistinctSiblings(order)
  {
    forall i, j | 0 <= i < j < |order|
      ensures order[i].id != order[j].id && SiblingKey(order[i]) != SiblingKey(order[j])
    {
      assert order[i] in multiset(groups) && order[j] in multiset(groups);
      if order[i] == order[j] {
        CountedOnce(groups, order[i]);
        CountedTwice(order, i, j);
        assert false;
      }
    }
  }

  lemma {:induction false} CountedOnce(groups: seq<ConnectionGroup>, g: ConnectionGroup)
    requires DistinctIds(groups)
    ensures multiset(groups)[g] <= 1
  {
    if groups != [] {
      var n := |groups| - 1;
      assert groups == groups[..n] + [groups[n]];
      CountedOnce(groups[..n], g);
      assert groups[n] == g ==> g !in groups[..n];
    }
  }

  lemma CountedTwice(groups: seq<ConnectionGroup>, i: nat, j: nat)
    requires i < j < |groups| && groups[i] == groups[j]
    ensures multiset(groups)[groups[i]] >= 2
  {
    assert groups == groups[..i] + [groups[i]] + groups[i + 1..j] + [groups[j]] + groups[j + 1..];
  }

  lemma NoSelfParent(groups: seq<ConnectionGroup>)
    requires ValidForest(groups)
    ensures forall g :: g in groups ==> g.parentId != Some(g.id)
  {
    ValidRows(groups);
    var p := ParentsOf(RowsOf(groups));
    var rank :| Ranks(p, rank);
    forall g | g in groups ensures g.parentId != Some(g.id) {
      assert p[g.id] == g.parentId;
    }
  }

  /** Everything the later proofs use about the parent-first order. */
  lemma OrderFacts(groups: seq<ConnectionGroup>)
    requires ValidForest(groups)
    ensures var order := ParentFirst(groups);
      && multiset(order) == multiset(groups) && |order| == |groups|
      && DistinctIds(order) && DistinctSiblings(order) && ParentsFirst(order, {})
      && (forall g :: g in groups <==> g in order)
      && (forall k :: 0 <= k < |order| ==> ProperlyNamed(order[k]) && order[k].parentId != Some(order[k].id))
  {
    var order := ParentFirst(groups);
    ParentFirstSound(groups);
    ReorderedDistinct(groups, order);
    NoSelfParent(groups);
    assert forall g :: g in groups <==> g in multiset(groups);
    assert forall g :: g in order <==> g in multiset(order);
    forall k | 0 <= k < |order| ensures ProperlyNamed(order[k]) && order[k].parentId != Some(order[k].id) {
      assert order[k] in order;
      assert order[k] in groups;
    }
  }
}
