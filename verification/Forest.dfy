/** Parent graphs: every node names at most one parent. */
module Forest {
  import opened Common

  type Id = string
  type Parents = map<Id, Option<Id>>

  /** A rank that strictly decreases along every parent edge, and every parent exists. */
  ghost predicate Ranks(p: Parents, rank: map<Id, nat>) {
    forall id :: id in p ==>
      id in rank && (p[id].Some? ==> p[id].value in p && p[id].value in rank && rank[p[id].value] < rank[id])
  }

  ghost predicate IsForest(p: Parents) {
    exists rank: map<Id, nat> :: Ranks(p, rank)
  }

  /** The ancestor `k` parent edges above `id`; None when the path is shorter. */
  ghost function Up(p: Parents, id: Id, k: nat): Option<Id>
    decreases k
  {
    if k == 0 then Some(id)
    else if id in p && p[id].Some? then Up(p, p[id].value, k - 1)
    else None
  }

  /** `id` is `start` or one of its ancestors. */
  ghost predicate AtOrAbove(p: Parents, start: Id, id: Id) {
    exists k: nat :: Up(p, start, k) == Some(id)
  }

  /** `id` reaches a node without a parent in exactly `k` steps through existing nodes. */
  ghost predicate RootedIn(p: Parents, id: Id, k: nat)
    decreases k
  {
    id in p && if k == 0 then p[id].None? else p[id].Some? && RootedIn(p, p[id].value, k - 1)
  }

  ghost predicate Rooted(p: Parents, id: Id) {
    exists k: nat :: RootedIn(p, id, k)
  }

  lemma {:induction false} RootedOnce(p: Parents, id: Id, j: nat, k: nat)
    requires RootedIn(p, id, j) && RootedIn(p, id, k)
    ensures j == k
    decreases k
  {
    if j > 0 && k > 0 {
      RootedOnce(p, p[id].value, j - 1, k - 1);
    }
  }

  /** When every node reaches a root, the distance to the root is a rank. */
  lemma RootedIsForest(p: Parents)
    requires forall id :: id in p ==> Rooted(p, id)
    ensures IsForest(p)
  {
    forall id | id in p ensures exists k: nat :: RootedIn(p, id, k) {
      assert Rooted(p, id);
    }
    var rank: map<Id, nat> := map id | id in p :: var k: nat :| RootedIn(p, id, k); k;
    forall id | id in p && p[id].Some?
      ensures p[id].value in p && rank[p[id].value] < rank[id]
    {
      assert RootedIn(p, id, rank[id]) && RootedIn(p, p[id].value, rank[id] - 1);
      RootedOnce(p, p[id].value, rank[id] - 1, rank[p[id].value]);
    }
    assert Ranks(p, rank);
  }

  lemma {:induction false} UpDecreases(p: Parents, rank: map<Id, nat>, id: Id, k: nat)
    requires Ranks(p, rank) && id in p && Up(p, id, k).Some?
    ensures Up(p, id, k).value in p
    ensures rank[Up(p, id, k).value] + k <= rank[id]
    decreases k
  {
    if k > 0 {
      UpDecreases(p, rank, p[id].value, k - 1);
    }
  }

  lemma {:induction false} UpExtend(p: Parents, id: Id, k: nat, a: Id)
    requires Up(p, id, k) == Some(a) && a in p && p[a].Some?
    ensures Up(p, id, k + 1) == p[a]
    decreases k
  {
    if k > 0 {
      UpExtend(p, p[id].value, k - 1, a);
    } else {
      assert Up(p, p[id].value, 0) == p[a];
    }
  }

  /** Redirecting `id` below `parent` leaves a path that avoids `id` as it was. */
  lemma {:induction false} UpUnchanged(p: Parents, id: Id, parent: Id, start: Id, k: nat)
    requires Up(p, start, k) == Some(id)
    requires forall j: nat :: j < k ==> Up(p, start, j) != Some(id)
    ensures Up(p[id := Some(parent)], start, k) == Some(id)
    decreases k
  {
    if k > 0 {
      assert Up(p, start, 0) != Some(id);
      forall j: nat | j < k - 1
        ensures Up(p, p[start].value, j) != Some(id)
      {
        assert Up(p, start, j + 1) == Up(p, p[start].value, j);
      }
      UpUnchanged(p, id, parent, p[start].value, k - 1);
    }
  }

  lemma {:induction false} FirstHit(p: Parents, start: Id, id: Id, k: nat) returns (m: nat)
    requires Up(p, start, k) == Some(id)
    ensures Up(p, start, m) == Some(id)
    ensures forall j: nat :: j < m ==> Up(p, start, j) != Some(id)
  {
    if j: nat :| j < k && Up(p, start, j) == Some(id) {
      m := FirstHit(p, start, id, j);
    } else {
      m := k;
    }
  }

  /** The cycle test of the SQL triggers is exact: hanging `id` below an existing `parent` keeps a forest
      a forest if and only if `id` is not `parent` or one of its ancestors. */
  lemma ReparentExact(p: Parents, id: Id, parent: Id)
    requires IsForest(p) && parent in p
    ensures IsForest(p[id := Some(parent)]) <==> !AtOrAbove(p, parent, id)
  {
    if AtOrAbove(p, parent, id) {
      var k: nat :| Up(p, parent, k) == Some(id);
      var m := FirstHit(p, parent, id, k);
      UpUnchanged(p, id, parent, parent, m);
      var q := p[id := Some(parent)];
      if IsForest(q) {
        var rank :| Ranks(q, rank);
        assert Up(q, id, m + 1) == Some(id);
        UpDecreases(q, rank, id, m + 1);
        assert false;
      }
    } else {
      ReparentKeepsForest(p, id, parent);
    }
  }

  lemma ReparentKeepsForest(p: Parents, id: Id, parent: Id)
    requires IsForest(p) && parent in p && !AtOrAbove(p, parent, id)
    ensures IsForest(p[id := Some(parent)])
  {
    var rank :| Ranks(p, rank);
    var q := p[id := Some(parent)];
    // Everything at or below `id` moves up by more than the new parent's rank.
    var lifted := map x | x in q ::
      if x == id then (if id in p then rank[id] else 0) + rank[parent] + 1
      else if AtOrAbove(p, x, id) then rank[x] + rank[parent] + 1
      else rank[x];
    assert parent != id by {
      assert Up(p, parent, 0) == Some(parent);
    }
    forall x | x in q && q[x].Some?
      ensures q[x].value in q && lifted[q[x].value] < lifted[x]
    {
      if x != id {
        var y := p[x].value;
        BelowThroughParent(p, x, id);
        assert Up(p, y, 0) == Some(y);
      }
    }
    assert Ranks(q, lifted);
  }

  lemma BelowThroughParent(p: Parents, x: Id, id: Id)
    requires x in p && p[x].Some? && x != id
    ensures AtOrAbove(p, x, id) <==> AtOrAbove(p, p[x].value, id)
  {
    if AtOrAbove(p, x, id) {
      var k: nat :| Up(p, x, k) == Some(id);
      assert Up(p, p[x].value, k - 1) == Some(id);
    }
    if AtOrAbove(p, p[x].value, id) {
      var k: nat :| Up(p, p[x].value, k) == Some(id);
      assert Up(p, x, k + 1) == Some(id);
    }
  }

  /** Detaching a node, or adding one without a parent, keeps a forest. */
  lemma DetachKeepsForest(p: Parents, id: Id)
    requires IsForest(p)
    ensures IsForest(p[id := None])
  {
    var rank :| Ranks(p, rank);
    var q := p[id := None];
    var rank' := map x | x in q :: if x in p then rank[x] else 0;
    assert Ranks(q, rank');
  }
}
