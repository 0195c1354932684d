/** The groups that the legacy migration produces, and why their validation cannot fail on structure. */
module GroupLegacyPlan {
  import opened Common
  import opened Forest
  import opened ConnectionGroups
  import opened LegacyCycles
  import opened GroupLegacy
  import opened GroupTable
  import opened GroupPersist
  import opened GroupOperations
  import GroupMerge
  import Text

  /** How many of the first `n` rows have the given parent: the next free place below it. */
  function Placed(parents: seq<Option<Index>>, n: nat, parent: Option<Index>): nat
    requires n <= |parents|
  {
    if n == 0 then 0 else Placed(parents, n - 1, parent) + (if parents[n - 1] == parent then 1 else 0)
  }

  function CreatedAt(groups: seq<ConnectionGroup>, id: Id, now: string): string {
    if groups == [] then now
    else if groups[0].id == id then groups[0].createdAt
    else CreatedAt(groups[1..], id, now)
  }

  function ParentId(a: Assignment, i: nat): Option<Id>
    requires i < |a.parents| == |a.targets| && InRange(a.parents)
  {
    if a.parents[i].Some? then Some(a.targets[a.parents[i].value]) else None
  }

  /** The group that a row becomes. */
  function GroupFor(local: seq<ConnectionGroup>, rows: seq<LegacyRow>, a: Assignment, now: string,
                    i: nat): ConnectionGroup
    requires a.For(rows) && i < |rows|
  {
    ConnectionGroup(
      a.targets[i],
      a.names[i],
      ParentId(a, i),
      Placed(a.parents, i, a.parents[i]),
      rows[i].color,
      CreatedAt(local, a.targets[i], now),
      now)
  }

  /** Local groups keep their ids, positions and creation times, those that are no target stay as they are, and
      only targets are added. */
  ghost predicate KeepsPlaces(local: seq<ConnectionGroup>, targets: seq<Id>, groups: seq<ConnectionGroup>) {
    && |local| <= |groups|
    && (forall k :: 0 <= k < |local| ==> groups[k].id == local[k].id && groups[k].createdAt == local[k].createdAt)
    && (forall k :: 0 <= k < |local| && local[k].id !in targets ==> groups[k] == local[k])
    && (forall k :: |local| <= k < |groups| ==> groups[k].id in targets)
  }

  ghost predicate HoldsRows(local: seq<ConnectionGroup>, rows: seq<LegacyRow>, a: Assignment, now: string, n: nat,
                            groups: seq<ConnectionGroup>)
    requires a.For(rows) && n <= |rows|
  {
    forall i :: 0 <= i < n ==> GroupFor(local, rows, a, now, i) in groups
  }

  /** The first `n` rows applied: a row's group stands where the local group with its id stood, or behind them
      all; every other local group is untouched; nothing else is there. */
  ghost predicate Assembled(local: seq<ConnectionGroup>, rows: seq<LegacyRow>, a: Assignment, now: string, n: nat,
                            groups: seq<ConnectionGroup>)
    requires a.For(rows) && n <= |rows|
  {
    KeepsPlaces(local, a.targets[..n], groups) && HoldsRows(local, rows, a, now, n, groups) && DistinctIds(groups)
  }

  /** The last loop of `plan` as a function of its first `n` turns. */
  ghost function Assembly(local: seq<ConnectionGroup>, rows: seq<LegacyRow>, a: Assignment, now: string, n: nat):
    seq<ConnectionGroup>
    requires a.For(rows) && n <= |rows|
  {
    if n == 0 then local
    else
      var before := Assembly(local, rows, a, now, n - 1);
      var at := GroupMerge.FindId(before, a.targets[n - 1]);
      if at.Some? then before[at.value := GroupFor(local, rows, a, now, n - 1)]
      else before + [GroupFor(local, rows, a, now, n - 1)]
  }

  lemma {:induction false} CreatedAtOf(groups: seq<ConnectionGroup>, k: nat, now: string)
    requires DistinctIds(groups) && k < |groups|
    ensures CreatedAt(groups, groups[k].id, now) == groups[k].createdAt
  {
    if k > 0 {
      assert groups[0].id != groups[k].id;
      CreatedAtOf(groups[1..], k - 1, now);
    }
  }

  lemma {:induction false} CreatedNow(groups: seq<ConnectionGroup>, id: Id, now: string)
    requires !HasId(groups, id)
    ensures CreatedAt(groups, id, now) == now
  {
    if groups != [] {
      assert groups[0].id != id;
      forall k | 0 <= k < |groups[1..]| ensures groups[1..][k].id != id {
        assert groups[k + 1].id != id;
      }
      CreatedNow(groups[1..], id, now);
    }
  }

  lemma PlaceOf(local: seq<ConnectionGroup>, targets: seq<Id>, target: Id, groups: seq<ConnectionGroup>, at: nat)
    requires KeepsPlaces(local, targets, groups) && target !in targets
    requires at < |groups| && groups[at].id == target
    ensures at < |local| && groups[at] == local[at]
  {
  }

  lemma ReplaceKeepsPlaces(local: seq<ConnectionGroup>, targets: seq<Id>, g: ConnectionGroup,
                           groups: seq<ConnectionGroup>, at: nat)
    requires KeepsPlaces(local, targets, groups) && at < |local| && groups[at] == local[at]
    requires g.id == groups[at].id && g.createdAt == groups[at].createdAt
    ensures KeepsPlaces(local, targets + [g.id], groups[at := g])
  {
  }

  lemma ReplaceKeepsDistinct(groups: seq<ConnectionGroup>, g: ConnectionGroup, at: nat)
    requires DistinctIds(groups) && at < |groups| && groups[at].id == g.id
    ensures DistinctIds(groups[at := g])
  {
    var next := groups[at := g];
    assert forall k :: 0 <= k < |groups| ==> next[k].id == groups[k].id;
  }

  lemma ReplaceHoldsRows(local: seq<ConnectionGroup>, rows: seq<LegacyRow>, a: Assignment, now: string, n: nat,
                         groups: seq<ConnectionGroup>, at: nat)
    requires a.For(rows) && n < |rows| && Distinct(a.targets) && HoldsRows(local, rows, a, now, n, groups)
    requires at < |groups| && groups[at].id == a.targets[n]
    ensures HoldsRows(local, rows, a, now, n + 1, groups[at := GroupFor(local, rows, a, now, n)])
  {
    hide GroupFor;
    var next := groups[at := GroupFor(local, rows, a, now, n)];
    forall i | 0 <= i < n + 1 ensures GroupFor(local, rows, a, now, i) in next {
      var h := GroupFor(local, rows, a, now, i);
      if i < n {
        GroupForId(local, rows, a, now, i);
        var k :| 0 <= k < |groups| && groups[k] == h;
        assert a.targets[i] != a.targets[n];
        assert next[k] == h;
      } else {
        assert next[at] == h;
      }
    }
  }

  lemma TargetsUpTo(a: Assignment, n: nat)
    requires n < |a.targets|
    ensures a.targets[..n + 1] == a.targets[..n] + [a.targets[n]]
    ensures Distinct(a.targets) ==> a.targets[n] !in a.targets[..n]
  {
  }

  /** A row whose target has a place takes it. */
  lemma ReplaceAssembles(local: seq<ConnectionGroup>, rows: seq<LegacyRow>, a: Assignment, now: string, n: nat,
                         groups: seq<ConnectionGroup>, at: nat)
    requires a.For(rows) && n < |rows| && Distinct(a.targets) && DistinctIds(local)
    requires Assembled(local, rows, a, now, n, groups)
    requires at < |groups| && groups[at].id == a.targets[n]
    ensures at < |local| && groups[at] == local[at]
    ensures CreatedAt(local, a.targets[n], now) == groups[at].createdAt
    ensures Assembled(local, rows, a, now, n + 1, groups[at := GroupFor(local, rows, a, now, n)])
  {
    hide GroupFor, KeepsPlaces, HoldsRows, DistinctIds, CreatedAt, Distinct;
    TargetsUpTo(a, n);
    PlaceOf(local, a.targets[..n], a.targets[n], groups, at);
    CreatedAtOf(local, at, now);
    var g := GroupFor(local, rows, a, now, n);
    GroupForId(local, rows, a, now, n);
    ReplaceKeepsPlaces(local, a.targets[..n], g, groups, at);
    ReplaceKeepsDistinct(groups, g, at);
    ReplaceHoldsRows(local, rows, a, now, n, groups, at);
  }

  lemma GroupForId(local: seq<ConnectionGroup>, rows: seq<LegacyRow>, a: Assignment, now: string, i: nat)
    requires a.For(rows) && i < |rows|
    ensures GroupFor(local, rows, a, now, i).id == a.targets[i]
    ensures GroupFor(local, rows, a, now, i).name == a.names[i]
    ensures GroupFor(local, rows, a, now, i).parentId == ParentId(a, i)
    ensures GroupFor(local, rows, a, now, i).createdAt == CreatedAt(local, a.targets[i], now)
  {
  }

  lemma PushKeepsPlaces(local: seq<ConnectionGroup>, targets: seq<Id>, g: ConnectionGroup, groups: seq<ConnectionGroup>)
    requires KeepsPlaces(local, targets, groups) && !HasId(groups, g.id)
    ensures KeepsPlaces(local, targets + [g.id], groups + [g]) && !HasId(local, g.id)
  {
    forall k | 0 <= k < |local| ensures local[k].id != g.id {
      assert groups[k].id != g.id;
    }
  }

  lemma PushHoldsRows(local: seq<ConnectionGroup>, rows: seq<LegacyRow>, a: Assignment, now: string, n: nat,
                      groups: seq<ConnectionGroup>)
    requires a.For(rows) && n < |rows| && HoldsRows(local, rows, a, now, n, groups)
    ensures HoldsRows(local, rows, a, now, n + 1, groups + [GroupFor(local, rows, a, now, n)])
  {
    hide GroupFor;
    var g := GroupFor(local, rows, a, now, n);
    forall i | 0 <= i < n + 1 ensures GroupFor(local, rows, a, now, i) in groups + [g] {
      if i < n {
        assert GroupFor(local, rows, a, now, i) in groups;
      }
    }
  }

  /** A row with a new target goes to the end. */
  lemma PushAssembles(local: seq<ConnectionGroup>, rows: seq<LegacyRow>, a: Assignment, now: string, n: nat,
                      groups: seq<ConnectionGroup>)
    requires a.For(rows) && n < |rows|
    requires Assembled(local, rows, a, now, n, groups) && !HasId(groups, a.targets[n])
    ensures CreatedAt(local, a.targets[n], now) == now
    ensures Assembled(local, rows, a, now, n + 1, groups + [GroupFor(local, rows, a, now, n)])
  {
    hide GroupFor, KeepsPlaces, HoldsRows, DistinctIds, CreatedAt, HasId;
    var g := GroupFor(local, rows, a, now, n);
    GroupForId(local, rows, a, now, n);
    TargetsUpTo(a, n);
    PushKeepsPlaces(local, a.targets[..n], g, groups);
    CreatedNow(local, a.targets[n], now);
    PushHoldsRows(local, rows, a, now, n, groups);
    DistinctIdsPush(groups, g);
  }

  // ---- the parent relation of the result ----

  /** The parents of the result: rows stand below rows, the other local groups where they stood. */
  ghost predicate Joined(local: seq<ConnectionGroup>, a: Assignment, p: Parents) {
    && |a.parents| == |a.targets| && InRange(a.parents)
    && (forall i :: 0 <= i < |a.targets| ==> a.targets[i] in p && p[a.targets[i]] == ParentId(a, i))
    && (forall k :: 0 <= k < |local| && local[k].id !in a.targets ==>
          local[k].id in p && p[local[k].id] == local[k].parentId)
    && (forall id :: id in p ==> id in a.targets || HasId(local, id))
    && (forall k :: 0 <= k < |local| ==> local[k].id in p)
  }

  lemma AssembledJoins(local: seq<ConnectionGroup>, rows: seq<LegacyRow>, a: Assignment, now: string,
                       groups: seq<ConnectionGroup>)
    requires a.For(rows) && Assembled(local, rows, a, now, |rows|, groups)
    ensures Joined(local, a, ParentsOf(RowsOf(groups)))
  {
    hide GroupFor, DistinctIds;
    RowsOfSound(groups);
    var table := RowsOf(groups);
    assert a.targets[..|rows|] == a.targets;
    forall i | 0 <= i < |a.targets| ensures a.targets[i] in table && table[a.targets[i]].parentId == ParentId(a, i) {
      var g := GroupFor(local, rows, a, now, i);
      GroupForId(local, rows, a, now, i);
      assert g in groups;
      var k :| 0 <= k < |groups| && groups[k] == g;
      assert table[groups[k].id] == groups[k];
    }
    forall k | 0 <= k < |local| ensures local[k].id in table
                                && (local[k].id !in a.targets ==> table[local[k].id].parentId == local[k].parentId)
    {
      assert table[groups[k].id] == groups[k];
    }
    forall id | id in table ensures id in a.targets || HasId(local, id) {
      var k :| 0 <= k < |groups| && groups[k] == table[id];
      if k < |local| {
        assert local[k].id == id;
      }
    }
  }

  lemma RowParent(local: seq<ConnectionGroup>, a: Assignment, p: Parents, i: Index)
    requires Joined(local, a, p) && i < |a.parents|
    ensures |a.targets| == |a.parents| && InRange(a.parents) && a.targets[i] in p && p[a.targets[i]] == ParentId(a, i)
  {
  }

  lemma {:induction false} RowIsRooted(local: seq<ConnectionGroup>, a: Assignment, p: Parents, i: Index, k: nat)
    requires Joined(local, a, p) && i < |a.parents| && Walk(a.parents, i, k).None?
    ensures |a.targets| == |a.parents| && Rooted(p, a.targets[i])
    decreases k
  {
    hide Joined;
    RowParent(local, a, p, i);
    if a.parents[i].None? {
      assert RootedIn(p, a.targets[i], 0);
    } else {
      var j := a.parents[i].value;
      RowIsRooted(local, a, p, j, k - 1);
      var m: nat :| RootedIn(p, a.targets[j], m);
      assert RootedIn(p, a.targets[i], m + 1);
    }
  }

  /** A local group reaches a root: along its old parents until one of them became a row's group. */
  lemma {:induction false} LocalIsRooted(local: seq<ConnectionGroup>, a: Assignment, p: Parents, rank: map<Id, nat>,
                                         id: Id)
    requires Joined(local, a, p) && HasId(local, id) && DistinctIds(local)
    requires Ranks(ParentsOf(RowsOf(local)), rank) && id in rank
    requires forall i :: 0 <= i < |a.parents| ==> Ends(a.parents, i)
    ensures Rooted(p, id)
    decreases rank[id]
  {
    if id in a.targets {
      var i :| 0 <= i < |a.targets| && a.targets[i] == id;
      var n := WalkEnds(a.parents, i);
      RowIsRooted(local, a, p, i, n);
    } else {
      var k :| 0 <= k < |local| && local[k].id == id;
      RowsOfSound(local);
      assert ParentsOf(RowsOf(local))[id] == local[k].parentId == p[id];
      if p[id].None? {
        assert RootedIn(p, id, 0);
      } else {
        var parent := p[id].value;
        HasIdIsRow(local, parent);
        LocalIsRooted(local, a, p, rank, parent);
        var m: nat :| RootedIn(p, parent, m);
        assert RootedIn(p, id, m + 1);
      }
    }
  }

  /** The result is a forest exactly when no walk along the parent rows runs in a circle, whatever rows meet
      whatever local groups. */
  lemma ResultIsForest(local: seq<ConnectionGroup>, rows: seq<LegacyRow>, a: Assignment, now: string,
                       groups: seq<ConnectionGroup>)
    requires a.For(rows) && Assembled(local, rows, a, now, |rows|, groups) && ValidForest(local)
    ensures IsForest(ParentsOf(RowsOf(groups))) <==> forall i :: 0 <= i < |a.parents| ==> Ends(a.parents, i)
  {
    var p := ParentsOf(RowsOf(groups));
    AssembledJoins(local, rows, a, now, groups);
    LocalForest(local);
    hide Assembled, Ends, ValidForest, Joined, ParentsOf, RowsOf, Rooted, Ranks;
    if forall i :: 0 <= i < |a.parents| ==> Ends(a.parents, i) {
      var rank: map<Id, nat> :| Ranks(ParentsOf(RowsOf(local)), rank);
      forall id | id in p ensures Rooted(p, id) {
        AnyIsRooted(local, a, p, rank, id);
      }
      RootedIsForest(p);
    }
    if rank: map<Id, nat> :| Ranks(p, rank) {
      forall i | 0 <= i < |a.parents| ensures Ends(a.parents, i) {
        RankedRowEnds(local, a, p, rank, i);
      }
    }
  }

  lemma RankedRowEnds(local: seq<ConnectionGroup>, a: Assignment, p: Parents, rank: map<Id, nat>, i: Index)
    requires Joined(local, a, p) && i < |a.parents| && Ranks(p, rank)
    ensures Ends(a.parents, i)
  {
    RowParent(local, a, p, i);
    assert a.targets[i] in rank;
    RankedWalk(local, a, p, rank, i, rank[a.targets[i]]);
  }

  lemma {:induction false} RankedWalk(local: seq<ConnectionGroup>, a: Assignment, p: Parents, rank: map<Id, nat>,
                                      i: Index, n: nat)
    requires Joined(local, a, p) && i < |a.parents| && Ranks(p, rank)
    requires |a.targets| == |a.parents| && a.targets[i] in rank && rank[a.targets[i]] <= n
    ensures Walk(a.parents, i, n + 1).None?
    decreases n
  {
    hide Joined;
    RowParent(local, a, p, i);
    if a.parents[i].Some? {
      var j := a.parents[i].value;
      RowParent(local, a, p, j);
      assert p[a.targets[i]] == Some(a.targets[j]);
      RankedWalk(local, a, p, rank, j, n - 1);
    }
  }

  lemma AnyIsRooted(local: seq<ConnectionGroup>, a: Assignment, p: Parents, rank: map<Id, nat>, id: Id)
    requires Joined(local, a, p) && DistinctIds(local) && id in p
    requires Ranks(ParentsOf(RowsOf(local)), rank)
    requires forall i :: 0 <= i < |a.parents| ==> Ends(a.parents, i)
    ensures Rooted(p, id)
  {
    hide Rooted, Ends;
    if id in a.targets {
      var i :| 0 <= i < |a.targets| && a.targets[i] == id;
      var k := WalkEnds(a.parents, i);
      RowIsRooted(local, a, p, i, k);
    } else {
      HasIdIsRow(local, id);
      LocalIsRooted(local, a, p, rank, id);
    }
  }

  lemma LocalForest(local: seq<ConnectionGroup>)
    requires ValidForest(local)
    ensures DistinctIds(local) && DistinctSiblings(local) && WellNamed(local) && IsForest(ParentsOf(RowsOf(local)))
  {
  }

  lemma WalkEnds(parents: seq<Option<Index>>, i: Index) returns (k: nat)
    requires Ends(parents, i)
    ensures Walk(parents, i, k).None?
  {
    k :| Walk(parents, i, k).None?;
  }

  // ---- names ----

  /** Where a group of the result comes from. */
  lemma Origin(local: seq<ConnectionGroup>, rows: seq<LegacyRow>, a: Assignment, now: string,
               groups: seq<ConnectionGroup>, k: nat)
    returns (row: Option<nat>)
    requires a.For(rows) && Assembled(local, rows, a, now, |rows|, groups) && k < |groups|
    ensures row.Some? ==> row.value < |rows| && groups[k] == GroupFor(local, rows, a, now, row.value)
    ensures row.None? ==> k < |local| && groups[k] == local[k] && local[k].id !in a.targets
  {
    hide GroupFor;
    assert a.targets[..|rows|] == a.targets;
    if groups[k].id in a.targets {
      var i :| 0 <= i < |a.targets| && a.targets[i] == groups[k].id;
      var g := GroupFor(local, rows, a, now, i);
      GroupForId(local, rows, a, now, i);
      assert g in groups;
      var j :| 0 <= j < |groups| && groups[j] == g;
      assert j == k;
      row := Some(i);
    } else {
      assert k < |local|;
      row := None;
    }
  }

  /** The automatic branch: unambiguous matches, and their parents with the cycles broken. */
  ghost predicate RepairedMatch(local: seq<ConnectionGroup>, rows: seq<LegacyRow>, fresh_: seq<Id>, m: Assignment,
                                a: Assignment)
  {
    && AutomaticallyMatched(local, rows, fresh_, m)
    && a.names == m.names && a.targets == m.targets && a.For(rows)
    && Repaired(m.parents, a.parents)
  }

  lemma NamesakeIsTarget(local: seq<ConnectionGroup>, id: Id, name: string, fresh_: Id, target: Id, k: nat)
    requires Matchable(local, id, name) && Matched(local, id, name, fresh_, target)
    requires k < |local| && local[k].name == name
    ensures local[k].id == target
  {
    var n :| 0 <= n < |local| && local[n].name == name && local[n].id == target;
    assert !(n < k) && !(k < n);
  }

  /** No row's name is the name of a local group that is not its target. */
  lemma NamesStayApart(local: seq<ConnectionGroup>, rows: seq<LegacyRow>, fresh_: seq<Id>, m: Assignment,
                       a: Assignment, i: nat, k: nat)
    requires RepairedMatch(local, rows, fresh_, m, a) && i < |rows| && k < |local|
    requires local[k].name == a.names[i]
    ensures local[k].id in a.targets
  {
    hide RowsDistinct, ParentFound, Repaired, Matchable, Matched;
    assert RowMatched(local, rows, rows[i], a.names[i], fresh_[i], m.parents[i], a.targets[i]);
    NamesakeIsTarget(local, rows[i].id, a.names[i], fresh_[i], a.targets[i], k);
    assert a.targets[i] in a.targets;
  }

  lemma SiblingsStayApart(local: seq<ConnectionGroup>, rows: seq<LegacyRow>, fresh_: seq<Id>, m: Assignment,
                          a: Assignment, now: string, groups: seq<ConnectionGroup>, j: nat, k: nat)
    requires a.For(rows) && Assembled(local, rows, a, now, |rows|, groups) && DistinctSiblings(local)
    requires RepairedMatch(local, rows, fresh_, m, a) && j < k < |groups|
    ensures SiblingKey(groups[j]) != SiblingKey(groups[k])
  {
    hide GroupFor, MatchedUpTo, Repaired;
    var first := Origin(local, rows, a, now, groups, j);
    var second := Origin(local, rows, a, now, groups, k);
    if first.Some? {
      GroupForId(local, rows, a, now, first.value);
    }
    if second.Some? {
      GroupForId(local, rows, a, now, second.value);
    }
    NamesDistinct(rows);
    if first.Some? && second.Some? {
      assert groups[j].id != groups[k].id;
      assert first.value != second.value;
    } else if first.Some? {
      if local[k].name == a.names[first.value] {
        NamesStayApart(local, rows, fresh_, m, a, first.value, k);
      }
    } else if second.Some? {
      if local[j].name == a.names[second.value] {
        NamesStayApart(local, rows, fresh_, m, a, second.value, j);
      }
    }
  }

  lemma TrimmedNameIsTrimmed(rows: seq<LegacyRow>, i: nat)
    requires i < |rows|
    ensures Text.Trim(TrimmedNames(rows)[i]) == TrimmedNames(rows)[i]
  {
    Text.TrimIsTrimmed(rows[i].name);
  }

  lemma NamesProper(local: seq<ConnectionGroup>, rows: seq<LegacyRow>, fresh_: seq<Id>, m: Assignment,
                    a: Assignment, now: string, groups: seq<ConnectionGroup>)
    requires a.For(rows) && Assembled(local, rows, a, now, |rows|, groups) && WellNamed(local)
    requires RepairedMatch(local, rows, fresh_, m, a) && FreshIds(fresh_, local, rows)
    ensures WellNamed(groups) <==> forall i :: 0 <= i < |rows| ==> a.names[i] != ""
  {
    hide GroupFor, RowsDistinct, Repaired;
    if forall i :: 0 <= i < |rows| ==> a.names[i] != "" {
      forall k | 0 <= k < |groups| ensures ProperlyNamed(groups[k]) {
        var row := Origin(local, rows, a, now, groups, k);
        if row.Some? {
          GroupForId(local, rows, a, now, row.value);
          TargetIsUsable(local, rows, fresh_, m, a, row.value);
          TrimmedNameIsTrimmed(rows, row.value);
        }
      }
    } else {
      var i :| 0 <= i < |rows| && a.names[i] == "";
      GroupForId(local, rows, a, now, i);
      assert GroupFor(local, rows, a, now, i) in groups;
      var k :| 0 <= k < |groups| && groups[k] == GroupFor(local, rows, a, now, i);
      assert !ProperlyNamed(groups[k]);
    }
  }

  lemma TargetIsUsable(local: seq<ConnectionGroup>, rows: seq<LegacyRow>, fresh_: seq<Id>, m: Assignment,
                       a: Assignment, i: nat)
    requires RepairedMatch(local, rows, fresh_, m, a) && FreshIds(fresh_, local, rows) && WellNamed(local) && i < |rows|
    ensures a.targets[i] != ""
  {
    hide RowsDistinct, ParentFound, Matchable, Repaired;
    assert RowMatched(local, rows, rows[i], a.names[i], fresh_[i], m.parents[i], a.targets[i]);
  }

  /** In the automatic branch validation fails on a blank name and on nothing else: neither a cycle, nor a
      missing parent, nor a name conflict, nor a repeated id is possible. */
  lemma OnlyBlankNamesFail(local: seq<ConnectionGroup>, rows: seq<LegacyRow>, fresh_: seq<Id>, m: Assignment,
                           a: Assignment, now: string, groups: seq<ConnectionGroup>)
    requires ValidForest(local) && FreshIds(fresh_, local, rows) && RepairedMatch(local, rows, fresh_, m, a)
    requires Assembled(local, rows, a, now, |rows|, groups)
    ensures ValidForest(groups) <==> forall i :: 0 <= i < |rows| ==> a.names[i] != ""
  {
    LocalForest(local);
    NoCyclesLeft(m.parents, a.parents);
    ResultIsForest(local, rows, a, now, groups);
    NamesProper(local, rows, fresh_, m, a, now, groups);
    hide IsForest, WellNamed, AutomaticallyMatched, Repaired;
    forall j, k | 0 <= j < k < |groups| ensures SiblingKey(groups[j]) != SiblingKey(groups[k]) {
      SiblingsStayApart(local, rows, fresh_, m, a, now, groups, j, k);
    }
  }

  lemma NoCyclesLeft(p: seq<Option<Index>>, q: seq<Option<Index>>)
    requires Repaired(p, q)
    ensures forall i :: 0 <= i < |q| ==> Ends(q, i)
  {
  }

  // ---- the plan ----

  /** A row may not move a local group that has a parent, nor recolour one that has a colour of its own. */
  predicate Fits(g: ConnectionGroup, parentId: Option<Id>, color: string) {
    && (g.parentId.Some? ==> g.parentId == parentId)
    && (g.color != DEFAULT_COLOR ==> g.color == color)
  }

  ghost predicate AllFit(local: seq<ConnectionGroup>, rows: seq<LegacyRow>, a: Assignment, n: nat)
    requires a.For(rows) && n <= |rows|
  {
    forall i, k :: 0 <= i < n && 0 <= k < |local| && local[k].id == a.targets[i] ==>
      Fits(local[k], ParentId(a, i), rows[i].color)
  }

  /** In automatic mode a row fits if and only if the local group it becomes, if any, keeps the parent it has and the
      colour it was given. */
  lemma AllFitExactly(local: seq<ConnectionGroup>, rows: seq<LegacyRow>, a: Assignment)
    requires a.For(rows)
    ensures AllFit(local, rows, a, |rows|) <==>
            forall i, k :: 0 <= i < |rows| && 0 <= k < |local| && local[k].id == a.targets[i] ==>
              && (local[k].parentId.Some? ==>
                    a.parents[i].Some? && local[k].parentId.value == a.targets[a.parents[i].value])
              && (local[k].color != "#64748b" ==> local[k].color == rows[i].color)
  {
  }

  lemma OneMoreFits(local: seq<ConnectionGroup>, rows: seq<LegacyRow>, a: Assignment, n: nat, at: Option<nat>)
    requires a.For(rows) && n < |rows| && DistinctIds(local) && AllFit(local, rows, a, n)
    requires at.Some? ==> at.value < |local| && local[at.value].id == a.targets[n]
    requires at.None? ==> !HasId(local, a.targets[n])
    ensures AllFit(local, rows, a, n + 1) <==> at.None? || Fits(local[at.value], ParentId(a, n), rows[n].color)
  {
    if at.Some? {
      forall k | 0 <= k < |local| && local[k].id == a.targets[n] ensures k == at.value {
      }
    }
  }

  /** The orders given out so far, by parent row. */
  ghost predicate OrdersCount(orders: map<Option<Index>, nat>, parents: seq<Option<Index>>, n: nat)
    requires n <= |parents|
  {
    forall parent :: (if parent in orders then orders[parent] else 0) == Placed(parents, n, parent)
  }

  /** The last loop of `plan`. */
  method Assemble(local: seq<ConnectionGroup>, rows: seq<LegacyRow>, a: Assignment, now: string, automatic: bool)
    returns (r: Result<seq<ConnectionGroup>, LegacyIssue>)
    requires a.For(rows) && Distinct(a.targets) && DistinctIds(local)
    ensures r.Ok? ==> r.value == Assembly(local, rows, a, now, |rows|)
    ensures r.Ok? ==> Assembled(local, rows, a, now, |rows|, r.value)
    ensures r.Ok? <==> !automatic || AllFit(local, rows, a, |rows|)
    ensures r.Err? ==> r.error in {PlacementConflict, ColorConflict}
  {
    hide Assembled, AllFit, Distinct, DistinctIds, OrdersCount;
    var groups := local;
    var orders: map<Option<Index>, nat> := map[];
    StartAssembly(local, rows, a, now);
    for i := 0 to |rows|
      invariant Assembled(local, rows, a, now, i, groups) && groups == Assembly(local, rows, a, now, i)
      invariant OrdersCount(orders, a.parents, i)
      invariant automatic ==> AllFit(local, rows, a, i)
    {
      var parentId := ParentId(a, i);
      OrderIs(orders, a.parents, i);
      var order := if a.parents[i] in orders then orders[a.parents[i]] else 0;
      var existing := IndexOfId(groups, a.targets[i]);
      if existing.Some? {
        ReplaceAssembles(local, rows, a, now, i, groups, existing.value);
      } else {
        PushAssembles(local, rows, a, now, i, groups);
        NotLocal(local, rows, a, now, i, groups);
      }
      if automatic {
        OneMoreFits(local, rows, a, i, existing);
        if existing.Some? {
          var g := groups[existing.value];
          if g.parentId.Some? && g.parentId != parentId {
            NotAllFit(local, rows, a, i + 1);
            return Err(PlacementConflict);
          }
          if g.color != DEFAULT_COLOR && g.color != rows[i].color {
            NotAllFit(local, rows, a, i + 1);
            return Err(ColorConflict);
          }
        }
      }
      var createdAt := if existing.Some? then groups[existing.value].createdAt else now;
      var group := ConnectionGroup(a.targets[i], a.names[i], parentId, order, rows[i].color, createdAt, now);
      orders := orders[a.parents[i] := order + 1];
      if existing.Some? {
        groups := groups[existing.value := group];
      } else {
        groups := groups + [group];
      }
    }
    r := Ok(groups);
  }

  lemma StartAssembly(local: seq<ConnectionGroup>, rows: seq<LegacyRow>, a: Assignment, now: string)
    requires a.For(rows) && DistinctIds(local)
    ensures Assembled(local, rows, a, now, 0, local) && OrdersCount(map[], a.parents, 0) && AllFit(local, rows, a, 0)
  {
  }

  lemma OrderIs(orders: map<Option<Index>, nat>, parents: seq<Option<Index>>, n: nat)
    requires n < |parents| && OrdersCount(orders, parents, n)
    ensures var order := if parents[n] in orders then orders[parents[n]] else 0;
            order == Placed(parents, n, parents[n]) && OrdersCount(orders[parents[n] := order + 1], parents, n + 1)
  {
  }

  lemma NotLocal(local: seq<ConnectionGroup>, rows: seq<LegacyRow>, a: Assignment, now: string, n: nat,
                 groups: seq<ConnectionGroup>)
    requires a.For(rows) && n < |rows| && Assembled(local, rows, a, now, n, groups) && !HasId(groups, a.targets[n])
    ensures !HasId(local, a.targets[n])
  {
    hide GroupFor;
    forall k | 0 <= k < |local| ensures local[k].id != a.targets[n] {
      assert groups[k].id != a.targets[n];
    }
  }

  lemma NotAllFit(local: seq<ConnectionGroup>, rows: seq<LegacyRow>, a: Assignment, n: nat)
    requires a.For(rows) && n <= |rows| && !AllFit(local, rows, a, n)
    ensures !AllFit(local, rows, a, |rows|)
  {
  }

  type LegacyMapping = (Id, Id)

  function Mappings(rows: seq<LegacyRow>, a: Assignment): seq<LegacyMapping>
    requires a.For(rows)
  {
    seq(|rows|, i requires 0 <= i < |rows| => (rows[i].id, a.targets[i]))
  }

  // ---- the result, field by field ----

  /** The group that a row became. */
  ghost predicate Applied(local: seq<ConnectionGroup>, rows: seq<LegacyRow>, a: Assignment, now: string, i: nat,
                          g: ConnectionGroup)
    requires a.For(rows) && i < |rows|
  {
    && g.id == a.targets[i] && g.name == a.names[i] && g.color == rows[i].color && g.updatedAt == now
    && g.parentId == (if a.parents[i].None? then None else Some(a.targets[a.parents[i].value]))
    && g.sortOrder == |RowsBelow(a.parents, i, a.parents[i])|
    && (forall k :: 0 <= k < |local| && local[k].id == g.id ==> g.createdAt == local[k].createdAt)
    && (!HasId(local, g.id) ==> g.createdAt == now)
  }

  /** The rows among the first `n` that have the given parent row. */
  ghost function RowsBelow(parents: seq<Option<Index>>, n: nat, parent: Option<Index>): set<nat>
    requires n <= |parents|
  {
    set j: nat | j < n && parents[j] == parent
  }

  lemma {:induction false} PlacedCounts(parents: seq<Option<Index>>, n: nat, parent: Option<Index>)
    requires n <= |parents|
    ensures Placed(parents, n, parent) == |RowsBelow(parents, n, parent)|
  {
    if n == 0 {
      assert RowsBelow(parents, 0, parent) == {};
    } else {
      PlacedCounts(parents, n - 1, parent);
      OneMoreBelow(parents, n - 1, parent);
      hide RowsBelow;
    }
  }

  lemma OneMoreBelow(parents: seq<Option<Index>>, n: nat, parent: Option<Index>)
    requires n < |parents|
    ensures |RowsBelow(parents, n + 1, parent)| ==
            |RowsBelow(parents, n, parent)| + (if parents[n] == parent then 1 else 0)
  {
    var before := RowsBelow(parents, n, parent);
    if parents[n] == parent {
      assert RowsBelow(parents, n + 1, parent) == before + {n};
      assert n !in before;
    } else {
      assert RowsBelow(parents, n + 1, parent) == before;
    }
  }

  lemma RowIsApplied(local: seq<ConnectionGroup>, rows: seq<LegacyRow>, a: Assignment, now: string, i: nat)
    requires a.For(rows) && i < |rows| && DistinctIds(local)
    ensures Applied(local, rows, a, now, i, GroupFor(local, rows, a, now, i))
  {
    PlacedCounts(a.parents, i, a.parents[i]);
    forall k | 0 <= k < |local| && local[k].id == a.targets[i]
      ensures CreatedAt(local, a.targets[i], now) == local[k].createdAt
    {
      CreatedAtOf(local, k, now);
    }
    if !HasId(local, a.targets[i]) {
      CreatedNow(local, a.targets[i], now);
    }
  }

  /** The groups by id: every row's group is there, every other group is as it was, and nothing else came. */
  ghost predicate TableApplied(local: seq<ConnectionGroup>, rows: seq<LegacyRow>, a: Assignment, now: string,
                               before: map<Id, ConnectionGroup>, after: map<Id, ConnectionGroup>)
    requires a.For(rows)
  {
    && (forall i :: 0 <= i < |rows| ==>
          a.targets[i] in after && Applied(local, rows, a, now, i, after[a.targets[i]]))
    && (forall id :: id in before && id !in a.targets ==> id in after && after[id] == before[id])
    && (forall id :: id in after ==> id in before || id in a.targets)
  }

  lemma RowInstalled(local: seq<ConnectionGroup>, rows: seq<LegacyRow>, a: Assignment, now: string,
                     groups: seq<ConnectionGroup>, i: nat)
    requires a.For(rows) && i < |rows| && DistinctIds(local) && Assembled(local, rows, a, now, |rows|, groups)
    ensures a.targets[i] in RowsOf(groups) && Applied(local, rows, a, now, i, RowsOf(groups)[a.targets[i]])
  {
    RowsOfSound(groups);
    hide RowsOf, GroupFor, Applied, KeepsPlaces;
    RowIsApplied(local, rows, a, now, i);
    GroupForId(local, rows, a, now, i);
    var g := GroupFor(local, rows, a, now, i);
    assert g in groups;
    var k :| 0 <= k < |groups| && groups[k] == g;
    assert RowsOf(groups)[groups[k].id] == groups[k];
  }

  lemma OthersInstalled(local: seq<ConnectionGroup>, targets: seq<Id>, groups: seq<ConnectionGroup>)
    requires DistinctIds(local) && DistinctIds(groups) && KeepsPlaces(local, targets, groups)
    ensures var before, after := RowsOf(local), RowsOf(groups);
            && (forall id :: id in before && id !in targets ==> id in after && after[id] == before[id])
            && (forall id :: id in after ==> id in before || id in targets)
  {
    RowsOfSound(local);
    RowsOfSound(groups);
    hide RowsOf;
    var before, after := RowsOf(local), RowsOf(groups);
    forall id | id in before && id !in targets ensures id in after && after[id] == before[id] {
      var k :| 0 <= k < |local| && local[k] == before[id];
      assert after[groups[k].id] == groups[k];
    }
    forall id | id in after ensures id in before || id in targets {
      var k :| 0 <= k < |groups| && groups[k] == after[id];
      assert k < |local| ==> local[k].id in before;
    }
  }

  lemma InstalledApplies(local: seq<ConnectionGroup>, rows: seq<LegacyRow>, a: Assignment, now: string,
                         groups: seq<ConnectionGroup>)
    requires a.For(rows) && DistinctIds(local) && Assembled(local, rows, a, now, |rows|, groups)
    ensures TableApplied(local, rows, a, now, RowsOf(local), RowsOf(groups))
  {
    assert a.targets[..|rows|] == a.targets;
    OthersInstalled(local, a.targets, groups);
    hide DistinctIds, RowsOf, Applied, Assembled;
    forall i | 0 <= i < |rows|
      ensures a.targets[i] in RowsOf(groups) && Applied(local, rows, a, now, i, RowsOf(groups)[a.targets[i]])
    {
      RowInstalled(local, rows, a, now, groups, i);
    }
  }

  /** The legacy id of every row beside the id of its group. */
  ghost predicate Maps(rows: seq<LegacyRow>, a: Assignment, mappings: seq<LegacyMapping>)
    requires a.For(rows)
  {
    |mappings| == |rows| && forall i :: 0 <= i < |rows| ==> mappings[i].0 == rows[i].id && mappings[i].1 == a.targets[i]
  }

  /** A matched assignment with the cycles among its parent rows cut. */
  ghost function WithoutCycles(m: Assignment): Assignment
    requires InRange(m.parents)
  {
    Assignment(m.names, Cut(m.parents), m.targets)
  }

  ghost predicate AutomaticallyChosen(local: seq<ConnectionGroup>, rows: seq<LegacyRow>, fresh_: seq<Id>,
                                      a: Assignment)
  {
    exists m: Assignment :: AutomaticallyMatched(local, rows, fresh_, m) && a == WithoutCycles(m)
  }

  /** The assignment that `plan` works with: the confirmed one, or the matched one without its cycles. */
  ghost predicate Chosen(local: seq<ConnectionGroup>, rows: seq<LegacyRow>, resolutions: Option<seq<Resolution>>,
                         fresh_: seq<Id>, a: Assignment)
  {
    match resolutions
    case Some(confirmed) => Resolved(confirmed, local, fresh_, a)
    case None => AutomaticallyChosen(local, rows, fresh_, a)
  }

  /** There is such an assignment: every row is confirmed, or no row is ambiguous. */
  ghost predicate Choosable(local: seq<ConnectionGroup>, rows: seq<LegacyRow>, resolutions: Option<seq<Resolution>>) {
    match resolutions
    case Some(confirmed) => Resolvable(local, |rows|, confirmed)
    case None => Unambiguous(local, rows)
  }

  /** The inputs determine it. */
  lemma ChosenOnce(local: seq<ConnectionGroup>, rows: seq<LegacyRow>, resolutions: Option<seq<Resolution>>,
                   fresh_: seq<Id>, a: Assignment, b: Assignment)
    requires DistinctIds(local)
    requires Chosen(local, rows, resolutions, fresh_, a) && Chosen(local, rows, resolutions, fresh_, b)
    ensures a == b
  {
    hide Resolved, AutomaticallyChosen, DistinctIds;
    match resolutions {
      case Some(confirmed) => ResolvedOnce(confirmed, local, fresh_, a, b);
      case None => AutomaticallyChosenOnce(local, rows, fresh_, a, b);
    }
  }

  lemma AutomaticallyChosenOnce(local: seq<ConnectionGroup>, rows: seq<LegacyRow>, fresh_: seq<Id>, a: Assignment,
                                b: Assignment)
    requires DistinctIds(local)
    requires AutomaticallyChosen(local, rows, fresh_, a) && AutomaticallyChosen(local, rows, fresh_, b)
    ensures a == b
  {
    hide Cut, RowsDistinct, MatchedUpTo, TrimmedNames;
    var m: Assignment :| AutomaticallyMatched(local, rows, fresh_, m) && a == WithoutCycles(m);
    var n: Assignment :| AutomaticallyMatched(local, rows, fresh_, n) && b == WithoutCycles(n);
    MatchedOnce(local, rows, fresh_, m, n);
  }

  /** What a confirmed mapping makes of row `i`. */
  ghost predicate Confirmed(resolution: Resolution, local: seq<ConnectionGroup>, fresh_: seq<Id>, a: Assignment, i: nat)
    requires i < |fresh_| == |a.names| == |a.parents| == |a.targets|
  {
    && resolution.index == i
    && a.names[i] == Text.Trim(resolution.name) && a.parents[i] == resolution.parentIndex
    && match resolution.targetId
       case Some(target) => a.targets[i] == target && HasId(local, target)
       case None => a.targets[i] == fresh_[i]
  }

  ghost predicate ConfirmedBySome(confirmed: seq<Resolution>, local: seq<ConnectionGroup>, fresh_: seq<Id>,
                                  a: Assignment, i: nat)
    requires i < |fresh_| == |a.names| == |a.parents| == |a.targets|
  {
    exists k :: 0 <= k < |confirmed| && Confirmed(confirmed[k], local, fresh_, a, i)
  }

  /** With confirmed mappings every row gets the trimmed name, the parent row and the group of its own mapping, and a
      new id where none is named. */
  lemma ConfirmedChoice(local: seq<ConnectionGroup>, rows: seq<LegacyRow>, confirmed: seq<Resolution>,
                        fresh_: seq<Id>, a: Assignment)
    requires Chosen(local, rows, Some(confirmed), fresh_, a) && a.For(rows)
    ensures |confirmed| == |rows| == |fresh_|
    ensures forall i :: 0 <= i < |rows| ==> ConfirmedBySome(confirmed, local, fresh_, a, i)
  {
    hide HasId, Text.Trim;
    var byIndex :| IndexedBy(confirmed, byIndex) && FollowsAll(byIndex, local, fresh_, a);
    forall i | 0 <= i < |rows| ensures ConfirmedBySome(confirmed, local, fresh_, a, i) {
      assert Follows(byIndex[i], local, fresh_[i], a.names[i], a.parents[i], a.targets[i]);
      assert byIndex[i] in confirmed;
      var k :| 0 <= k < |confirmed| && confirmed[k] == byIndex[i];
      assert Confirmed(confirmed[k], local, fresh_, a, i);
    }
  }

  /** The parent row of every row: the one with its parent id, if there is one. */
  ghost predicate ParentRows(rows: seq<LegacyRow>, parents: seq<Option<Index>>) {
    && |parents| == |rows|
    && forall i :: 0 <= i < |rows| ==>
         match parents[i]
         case Some(p) => p < |rows| && rows[i].parentId == Some(rows[p].id)
         case None => forall k :: 0 <= k < |rows| ==> rows[i].parentId != Some(rows[k].id)
  }

  /** Without them every row keeps its trimmed name, gets the only local group of that name or else a new id, and stands
      below the row with its parent id, but for the edges that are cut. */
  lemma AutomaticChoice(local: seq<ConnectionGroup>, rows: seq<LegacyRow>, fresh_: seq<Id>, a: Assignment)
    requires Chosen(local, rows, None, fresh_, a) && a.For(rows)
    ensures |fresh_| == |rows| && forall i :: 0 <= i < |rows| ==> a.names[i] == Text.Trim(rows[i].name)
    ensures forall i, k :: 0 <= i < |rows| && 0 <= k < |local| && local[k].name == a.names[i] ==>
              a.targets[i] == local[k].id
    ensures forall i :: 0 <= i < |rows| && (forall k :: 0 <= k < |local| ==> local[k].name != a.names[i]) ==>
              a.targets[i] == fresh_[i] && !HasId(local, rows[i].id)
    ensures exists parents :: ParentRows(rows, parents) && InRange(parents) && a.parents == Cut(parents)
  {
    hide HasId, Text.Trim, Cut;
    var m: Assignment :| AutomaticallyMatched(local, rows, fresh_, m) && a == WithoutCycles(m);
    forall i | 0 <= i < |rows|
      ensures RowMatched(local, rows, rows[i], a.names[i], fresh_[i], m.parents[i], a.targets[i])
      ensures a.names[i] == Text.Trim(rows[i].name)
    {
    }
    forall i, k | 0 <= i < |rows| && 0 <= k < |local| && local[k].name == a.names[i]
      ensures a.targets[i] == local[k].id
    {
      NamesakeIsTarget(local, rows[i].id, a.names[i], fresh_[i], a.targets[i], k);
    }
    assert ParentRows(rows, m.parents) by {
      hide Matchable, Matched;
    }
  }

  /** When `plan` goes through with its assignment: the targets differ, in the automatic branch the rows fit, and
      the groups are a valid forest. */
  ghost predicate Plannable(local: seq<ConnectionGroup>, rows: seq<LegacyRow>, automatic: bool, a: Assignment,
                            now: string)
  {
    && a.For(rows) && Distinct(a.targets)
    && (automatic ==> AllFit(local, rows, a, |rows|))
    && ValidForest(Assembly(local, rows, a, now, |rows|))
  }

  /** The same for the automatic branch on a valid local forest, in terms of the rows alone. */
  ghost predicate Migratable(local: seq<ConnectionGroup>, rows: seq<LegacyRow>, a: Assignment) {
    && Unambiguous(local, rows)
    && a.For(rows) && AllFit(local, rows, a, |rows|)
    && forall i :: 0 <= i < |rows| ==> Text.Trim(rows[i].name) != ""
  }

  /** What a method that returns an assignment beside its result promises about it. */
  ghost predicate PlannedFor(local: seq<ConnectionGroup>, rows: seq<LegacyRow>, resolutions: Option<seq<Resolution>>,
                             fresh_: seq<Id>, a: Assignment)
  {
    Choosable(local, rows, resolutions) ==> a.For(rows) && Chosen(local, rows, resolutions, fresh_, a)
  }

  /** The choice of `plan`: confirmed mappings, or matches with their cycles cut. */
  method Choose(local: seq<ConnectionGroup>, rows: seq<LegacyRow>, resolutions: Option<seq<Resolution>>,
                fresh_: seq<Id>)
    returns (r: Result<Assignment, LegacyIssue>, ghost m: Assignment)
    requires DistinctIds(local) && FreshIds(fresh_, local, rows)
    ensures r.Ok? <==> Choosable(local, rows, resolutions)
    ensures r.Ok? ==> r.value.For(rows) && Chosen(local, rows, resolutions, fresh_, r.value)
    ensures r.Ok? && resolutions.None? ==> RepairedMatch(local, rows, fresh_, m, r.value) && Distinct(r.value.targets)
    ensures r.Err? ==> !r.error.InvalidTree?
  {
    hide DistinctIds, Distinct, Resolved, Resolvable, AutomaticallyMatched, Unambiguous, Repaired, FreshIds;
    FreshSize(fresh_, local, rows);
    m := Assignment([], [], []);
    if resolutions.Some? {
      r := AssignExplicitly(local, rows, resolutions.value, fresh_);
      return;
    }
    var found := MatchAutomatically(local, rows, fresh_);
    if found.Err? {
      return Err(found.error), m;
    }
    m := found.value;
    MatchedShape(local, rows, fresh_, m);
    var parents := new Option<Index>[|rows|](i requires 0 <= i < |rows| => found.value.parents[i]);
    assert parents[..] == m.parents;
    var cut := BreakCycles(parents);
    var a := Assignment(found.value.names, parents[..], found.value.targets);
    assert a == WithoutCycles(m);
    TargetsAreDistinct(local, rows, fresh_, m);
    r := Ok(a);
  }

  /** `plan`. It goes through if and only if there is an assignment and the groups it leads to are acceptable; the
      result is then the local groups with the rows applied, a valid forest in which the local groups keep
      their ids, positions and creation times. On a valid local forest the automatic branch depends on the rows
      alone, and its final validation fails for a blank name only. */
  method Plan(local: seq<ConnectionGroup>, rows: seq<LegacyRow>, resolutions: Option<seq<Resolution>>,
              fresh_: seq<Id>, now: string)
    returns (r: Result<(seq<ConnectionGroup>, seq<LegacyMapping>), LegacyIssue>, ghost a: Assignment)
    requires DistinctIds(local) && FreshIds(fresh_, local, rows)
    ensures PlannedFor(local, rows, resolutions, fresh_, a)
    ensures r.Ok? <==> Choosable(local, rows, resolutions) && Plannable(local, rows, resolutions.None?, a, now)
    ensures r.Ok? ==> r.value == (Assembly(local, rows, a, now, |rows|), Mappings(rows, a))
    ensures r.Ok? ==> Assembled(local, rows, a, now, |rows|, r.value.0)
    ensures r.Ok? ==> TableApplied(local, rows, a, now, RowsOf(local), RowsOf(r.value.0)) && Maps(rows, a, r.value.1)
    ensures resolutions.None? && ValidForest(local) ==> (r.Ok? <==> Migratable(local, rows, a))
    ensures resolutions.None? && ValidForest(local) && r.Err? && r.error.InvalidTree? ==>
              exists i :: 0 <= i < |rows| && Text.Trim(rows[i].name) == ""
  {
    hide ValidForest, Assembled, Assembly, AllFit, Distinct, DistinctIds, Chosen, Choosable, RepairedMatch, FreshIds;
    hide Text.Trim, Unambiguous;
    a := Assignment([], [], []);
    AutomaticMeansUnambiguous(local, rows);
    var chosen, m := Choose(local, rows, resolutions, fresh_);
    if chosen.Err? {
      return Err(chosen.error), a;
    }
    a := chosen.value;
    var shared := SharesTarget(chosen.value.targets);
    if shared {
      return Err(SharedTarget), a;
    }
    var groups := Assemble(local, rows, chosen.value, now, resolutions.None?);
    if groups.Err? {
      return Err(groups.error), a;
    }
    if resolutions.None? && ValidForest(local) {
      OnlyBlankNamesFail(local, rows, fresh_, m, a, now, groups.value);
      NamesAreTrimmed(local, rows, fresh_, m, a);
    }
    var valid := ValidateTree(groups.value);
    if valid.Err? {
      return Err(InvalidTree(valid.error)), a;
    }
    InstalledApplies(local, rows, a, now, groups.value);
    hide TableApplied, RowsOf;
    r := Ok((groups.value, Mappings(rows, chosen.value)));
  }

  lemma AutomaticMeansUnambiguous(local: seq<ConnectionGroup>, rows: seq<LegacyRow>)
    ensures Choosable(local, rows, None) <==> Unambiguous(local, rows)
  {
  }

  lemma NamesAreTrimmed(local: seq<ConnectionGroup>, rows: seq<LegacyRow>, fresh_: seq<Id>, m: Assignment,
                        a: Assignment)
    requires RepairedMatch(local, rows, fresh_, m, a)
    ensures |a.names| == |rows| && forall i :: 0 <= i < |rows| ==> a.names[i] == Text.Trim(rows[i].name)
  {
    hide Text.Trim, MatchedUpTo, RowsDistinct, Repaired;
  }

  /** The group part of `migrate_legacy_groups`: it succeeds if and only if the plan goes through and, when there
      are rows, its texts can be stored; the table is then exactly the planned forest. Otherwise the transaction
      is rolled back. */
  method MigrateLegacyGroups(table: ConnectionGroupTable, rows: seq<LegacyRow>, resolutions: Option<seq<Resolution>>,
                             fresh_: seq<Id>, now: string)
    returns (r: Result<seq<LegacyMapping>, LegacyIssue>, ghost local: seq<ConnectionGroup>, ghost a: Assignment)
    requires Schema(table.rows) && |fresh_| == |rows|
    requires forall i :: 0 <= i < |fresh_| ==> fresh_[i] != "" && fresh_[i] !in table.rows
    requires Distinct(fresh_)
    modifies table
    ensures Schema(table.rows) && old(table.rows).Keys <= table.rows.Keys
    ensures DistinctIds(local) && RowsOf(local) == old(table.rows)
    ensures PlannedFor(local, rows, resolutions, fresh_, a)
    ensures var planned := Choosable(local, rows, resolutions) && Plannable(local, rows, resolutions.None?, a, now);
            && (r.Ok? <==> planned && (rows == [] || AllStorable(Assembly(local, rows, a, now, |rows|))))
            && (r.Err? && planned ==> r.error == WriteRefused)
    ensures r.Err? ==> table.rows == old(table.rows)
    ensures r.Ok? ==> r.value == Mappings(rows, a) && table.rows == RowsOf(Assembly(local, rows, a, now, |rows|))
    ensures r.Ok? ==> TableApplied(local, rows, a, now, old(table.rows), table.rows) && Maps(rows, a, r.value)
    ensures r.Ok? ==> ValidForest(Assembly(local, rows, a, now, |rows|))
    ensures resolutions.None? && ValidForest(local) && r.Ok? ==> Migratable(local, rows, a)
  {
    hide ValidForest, Assembled, Assembly, AllFit, DistinctIds, Distinct;
    hide Migratable, Installed, RowsOf, AllStorable, PlannedFor;
    hide Choosable, TableApplied;
    var stored := table.List();
    local := stored;
    var before := table.rows;
    StillFresh(fresh_, local, rows);
    var planned;
    planned, a := Plan(stored, rows, resolutions, fresh_, now);
    if planned.Err? {
      return Err(planned.error), local, a;
    }
    var groups := planned.value.0;
    if rows == [] {
      NothingToApply(local, rows, a, now, groups);
    } else {
      PlanFeedsPersist(local, rows, a, now, groups, before);
      var written := Persist(table, groups);
      if written.Err? {
        table.rows := before;
        return Err(WriteRefused), local, a;
      }
      InstalledExactly(before, groups, table.rows);
    }
    r := Ok(planned.value.1);
  }

  lemma StillFresh(fresh_: seq<Id>, local: seq<ConnectionGroup>, rows: seq<LegacyRow>)
    requires |fresh_| == |rows| && Distinct(fresh_)
    requires forall i :: 0 <= i < |fresh_| ==> fresh_[i] != "" && fresh_[i] !in RowsOf(local)
    ensures FreshIds(fresh_, local, rows)
  {
    forall i | 0 <= i < |fresh_| ensures !HasId(local, fresh_[i]) {
      HasIdIsRow(local, fresh_[i]);
    }
  }

  lemma NothingToApply(local: seq<ConnectionGroup>, rows: seq<LegacyRow>, a: Assignment, now: string,
                       groups: seq<ConnectionGroup>)
    requires rows == [] && a.For(rows) && Assembled(local, rows, a, now, |rows|, groups)
    ensures groups == local
  {
    hide HoldsRows;
    assert a.targets[..|rows|] == [];
    if groups != [] {
      var last := groups[|groups| - 1];
    }
    assert forall k :: 0 <= k < |local| ==> groups[k] == local[k];
  }

  lemma PlanFeedsPersist(local: seq<ConnectionGroup>, rows: seq<LegacyRow>, a: Assignment, now: string,
                         groups: seq<ConnectionGroup>, before: map<Id, ConnectionGroup>)
    requires a.For(rows) && Assembled(local, rows, a, now, |rows|, groups)
    requires DistinctIds(local) && RowsOf(local) == before
    ensures DistinctIds(groups) && before.Keys <= IdsOf(groups)
    ensures forall g :: g in groups && g.id in before ==> g.createdAt == before[g.id].createdAt
  {
    hide HoldsRows, DistinctIds, RowsOf;
    LocalSurvives(local, groups, before);
  }

  lemma FreshSize(fresh_: seq<Id>, local: seq<ConnectionGroup>, rows: seq<LegacyRow>)
    requires FreshIds(fresh_, local, rows)
    ensures |fresh_| == |rows|
  {
  }

  lemma MatchedShape(local: seq<ConnectionGroup>, rows: seq<LegacyRow>, fresh_: seq<Id>, m: Assignment)
    requires AutomaticallyMatched(local, rows, fresh_, m)
    ensures m.For(rows)
  {
  }

  method SharesTarget(targets: seq<Id>) returns (shared: bool)
    ensures shared <==> !Distinct(targets)
  {
    var seen: set<Id> := {};
    for i := 0 to |targets|
      invariant forall id :: id in seen ==> exists k :: 0 <= k < i && targets[k] == id
      invariant forall k :: 0 <= k < i ==> targets[k] in seen
      invariant forall j, k :: 0 <= j < k < i ==> targets[j] != targets[k]
    {
      if targets[i] in seen {
        return true;
      }
      seen := seen + {targets[i]};
    }
    shared := false;
  }
}
