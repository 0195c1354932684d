/** The exact order that `ordered` puts groups in: by the pass that reaches them, and in each pass as they came. */
module GroupRounds {
  import opened Common
  import opened Forest
  import opened ConnectionGroups
  import opened GroupOrder

  /** The pass that reaches each group: the first one for a root; for a child that of its parent if the parent comes
      before it in the list, and the next one otherwise. */
  ghost predicate Rounds(groups: seq<ConnectionGroup>, round: seq<nat>) {
    && |round| == |groups|
    && (forall i :: 0 <= i < |groups| && groups[i].parentId.None? ==> round[i] == 0)
    && (forall i, j :: 0 <= i < |groups| && 0 <= j < |groups| && groups[i].parentId == Some(groups[j].id) ==>
          round[i] == round[j] + (if j < i then 0 else 1))
  }

  predicate Within(places: seq<nat>, size: nat) {
    forall k :: 0 <= k < |places| ==> places[k] < size
  }

  function Pick(groups: seq<ConnectionGroup>, places: seq<nat>): seq<ConnectionGroup>
    requires Within(places, |groups|)
  {
    seq(|places|, k requires 0 <= k < |places| => groups[places[k]])
  }

  /** In the order of passes, and of places within a pass. */
  ghost predicate Sorted(round: seq<nat>, places: seq<nat>) {
    && Within(places, |round|)
    && forall a, b :: 0 <= a < b < |places| ==>
         || round[places[a]] < round[places[b]]
         || (round[places[a]] == round[places[b]] && places[a] < places[b])
  }

  ghost predicate Increasing(places: seq<nat>) {
    forall a, b :: 0 <= a < b < |places| ==> places[a] < places[b]
  }

  /** Before pass `k`: what earlier passes have placed, and what is left in its old order. */
  ghost predicate Stage(groups: seq<ConnectionGroup>, round: seq<nat>, k: nat, done: seq<nat>, left: seq<nat>,
                        seen: set<Id>)
  {
    && |round| == |groups|
    && (forall x: nat :: x < |groups| <==> x in done || x in left)
    && (forall x :: x in done ==> round[x] < k && x !in left)
    && (forall x :: x in left ==> round[x] >= k)
    && (forall x: nat :: x < |groups| ==> (groups[x].id in seen <==> x in done))
    && Increasing(left) && Sorted(round, done)
  }

  /** Of the first `n` places those whose pass this is, or those of a later one, in their old order. */
  ghost predicate Sifted(round: seq<nat>, k: nat, left: seq<nat>, n: nat, places: seq<nat>, now: bool)
    requires n <= |left| && Within(left, |round|)
  {
    && (forall x :: x in places <==> x in left[..n] && x < |round| && (if now then round[x] == k else round[x] > k))
    && Increasing(places)
  }

  /** After the first `n` groups of a pass. */
  ghost predicate InPass(groups: seq<ConnectionGroup>, round: seq<nat>, k: nat, done: seq<nat>, left: seq<nat>, n: nat,
                         placed: seq<nat>, kept: seq<nat>, seen: set<Id>)
    requires n <= |left| && |round| == |groups| && Within(left, |groups|)
  {
    && Sifted(round, k, left, n, placed, true) && Sifted(round, k, left, n, kept, false)
    && (forall x: nat :: x < |groups| ==> (groups[x].id in seen <==> x in done || x in placed))
  }

  lemma PickPush(groups: seq<ConnectionGroup>, places: seq<nat>, x: nat)
    requires x < |groups| && Within(places, |groups|)
    ensures Pick(groups, places + [x]) == Pick(groups, places) + [groups[x]]
  {
  }

  lemma PickConcat(groups: seq<ConnectionGroup>, a: seq<nat>, b: seq<nat>)
    requires Within(a, |groups|) && Within(b, |groups|)
    ensures Pick(groups, a + b) == Pick(groups, a) + Pick(groups, b)
  {
  }

  /** A group that is left is ready exactly when this pass is the one that reaches it. */
  lemma ReadyExactly(groups: seq<ConnectionGroup>, round: seq<nat>, k: nat, done: seq<nat>, left: seq<nat>,
                     before: set<Id>, n: nat, placed: seq<nat>, kept: seq<nat>, seen: set<Id>)
    requires ValidForest(groups) && Rounds(groups, round) && Stage(groups, round, k, done, left, before)
    requires Within(left, |groups|) && n < |left| && InPass(groups, round, k, done, left, n, placed, kept, seen)
    ensures left[n] < |groups| && (Ready(groups[left[n]], seen) <==> round[left[n]] == k)
  {
    var x := left[n];
    assert x in left;
    var g := groups[x];
    if g.parentId.Some? {
      var y := ParentPlace(groups, x);
      assert round[x] == round[y] + (if y < x then 0 else 1);
      hide ValidForest, Rounds, Sorted;
      if y in placed {
        var m :| 0 <= m < |left[..n]| && left[..n][m] == y;
        assert left[m] < left[n];
      } else if y in left && y < x {
        var m :| 0 <= m < |left| && left[m] == y;
        assert m < n;
        assert left[..n][m] == y;
      }
    } else {
      assert round[x] == 0;
    }
  }

  lemma ParentPlace(groups: seq<ConnectionGroup>, x: nat) returns (y: nat)
    requires ValidForest(groups) && x < |groups| && groups[x].parentId.Some?
    ensures y < |groups| && groups[x].parentId == Some(groups[y].id) && y != x
  {
    var rank :| Ranks(ParentsOf(RowsOf(groups)), rank);
    RowsOfSound(groups);
    var p := ParentsOf(RowsOf(groups));
    assert p[groups[x].id] == groups[x].parentId;
    var parent := RowsOf(groups)[groups[x].parentId.value];
    y :| 0 <= y < |groups| && groups[y] == parent;
  }

  lemma SiftOne(round: seq<nat>, k: nat, left: seq<nat>, n: nat, places: seq<nat>, now: bool)
    requires n < |left| && Within(left, |round|) && Increasing(left) && Sifted(round, k, left, n, places, now)
    ensures (if now then round[left[n]] == k else round[left[n]] > k) ==>
              Sifted(round, k, left, n + 1, places + [left[n]], now)
    ensures !(if now then round[left[n]] == k else round[left[n]] > k) ==> Sifted(round, k, left, n + 1, places, now)
  {
    var x := left[n];
    assert left[..n + 1] == left[..n] + [x];
    forall y | y in left[..n] ensures y < x {
      var m :| 0 <= m < n && left[..n][m] == y;
    }
    forall a | 0 <= a < |places| ensures places[a] < x {
      assert places[a] in places;
    }
  }

  lemma Advance(groups: seq<ConnectionGroup>, round: seq<nat>, k: nat, done: seq<nat>, left: seq<nat>, n: nat,
                placed: seq<nat>, kept: seq<nat>, seen: set<Id>)
    requires |round| == |groups| && Within(left, |groups|)
    requires n < |left| && InPass(groups, round, k, done, left, n, placed, kept, seen)
    requires Increasing(left) && round[left[n]] >= k && DistinctIds(groups)
    ensures round[left[n]] == k ==>
              InPass(groups, round, k, done, left, n + 1, placed + [left[n]], kept, seen + {groups[left[n]].id})
    ensures round[left[n]] > k ==> InPass(groups, round, k, done, left, n + 1, placed, kept + [left[n]], seen)
  {
    SiftOne(round, k, left, n, placed, true);
    SiftOne(round, k, left, n, kept, false);
    hide Sifted, Increasing;
    assert forall y: nat :: y < |groups| && groups[y].id == groups[left[n]].id ==> y == left[n];
  }

  lemma {:induction false} PassExactly(groups: seq<ConnectionGroup>, round: seq<nat>, k: nat, done: seq<nat>,
                                       left: seq<nat>, seen: set<Id>, n: nat)
    returns (placed: seq<nat>, kept: seq<nat>)
    requires ValidForest(groups) && Rounds(groups, round) && Stage(groups, round, k, done, left, seen)
    requires n <= |left| && Within(left, |groups|)
    ensures Within(placed, |groups|) && Within(kept, |groups|)
    ensures var pass := PassOver(Pick(groups, left), seen, n);
            && InPass(groups, round, k, done, left, n, placed, kept, pass.seen)
            && pass.placed == Pick(groups, placed) && pass.kept == Pick(groups, kept)
  {
    hide ValidForest, Rounds, InPass, Sorted, Increasing;
    if n == 0 {
      placed, kept := [], [];
      NothingPassed(groups, round, k, done, left, seen);
    } else {
      placed, kept := PassExactly(groups, round, k, done, left, seen, n - 1);
      var before := PassOver(Pick(groups, left), seen, n - 1);
      var x := left[n - 1];
      assert x in left && Pick(groups, left)[n - 1] == groups[x];
      ReadyExactly(groups, round, k, done, left, seen, n - 1, placed, kept, before.seen);
      IdsDiffer(groups);
      Advance(groups, round, k, done, left, n - 1, placed, kept, before.seen);
      PassedWithin(groups, round, k, done, left, n - 1, placed, kept, before.seen);
      if round[x] == k {
        PickPush(groups, placed, x);
        placed := placed + [x];
      } else {
        PickPush(groups, kept, x);
        kept := kept + [x];
      }
    }
  }

  lemma IdsDiffer(groups: seq<ConnectionGroup>)
    requires ValidForest(groups)
    ensures DistinctIds(groups)
  {
  }

  lemma NothingPassed(groups: seq<ConnectionGroup>, round: seq<nat>, k: nat, done: seq<nat>, left: seq<nat>,
                      seen: set<Id>)
    requires Stage(groups, round, k, done, left, seen) && Within(left, |groups|)
    ensures InPass(groups, round, k, done, left, 0, [], [], seen)
  {
  }

  lemma PassedWithin(groups: seq<ConnectionGroup>, round: seq<nat>, k: nat, done: seq<nat>, left: seq<nat>, n: nat,
                     placed: seq<nat>, kept: seq<nat>, seen: set<Id>)
    requires |round| == |groups| && Within(left, |groups|)
    requires n <= |left| && InPass(groups, round, k, done, left, n, placed, kept, seen)
    ensures Within(placed, |groups|) && Within(kept, |groups|)
  {
    forall a | 0 <= a < |placed| ensures placed[a] < |groups| {
      assert placed[a] in placed;
    }
    forall a | 0 <= a < |kept| ensures kept[a] < |groups| {
      assert kept[a] in kept;
    }
  }

  /** A whole pass leads to the next stage. */
  lemma NextStage(groups: seq<ConnectionGroup>, round: seq<nat>, k: nat, done: seq<nat>, left: seq<nat>,
                  before: set<Id>, placed: seq<nat>, kept: seq<nat>, seen: set<Id>)
    requires Stage(groups, round, k, done, left, before) && Within(left, |groups|)
    requires InPass(groups, round, k, done, left, |left|, placed, kept, seen)
    ensures Stage(groups, round, k + 1, done + placed, kept, seen)
  {
    assert left[..|left|] == left;
    SortedConcat(round, k, done, placed);
  }

  lemma SortedConcat(round: seq<nat>, k: nat, done: seq<nat>, placed: seq<nat>)
    requires Sorted(round, done) && Increasing(placed)
    requires forall x :: x in done ==> x < |round| && round[x] < k
    requires forall x :: x in placed ==> x < |round| && round[x] == k
    ensures Sorted(round, done + placed)
  {
    var all := done + placed;
    assert forall a :: 0 <= a < |done| ==> all[a] == done[a] && done[a] in done;
    assert forall a :: |done| <= a < |all| ==> all[a] == placed[a - |done|] && placed[a - |done|] in placed;
    assert Within(all, |round|);
  }

  lemma {:induction false} OrderFromExactly(groups: seq<ConnectionGroup>, round: seq<nat>, k: nat, done: seq<nat>,
                                            left: seq<nat>, seen: set<Id>)
    returns (places: seq<nat>)
    requires ValidForest(groups) && Rounds(groups, round) && Stage(groups, round, k, done, left, seen)
    requires Within(left, |groups|) && Within(done, |groups|)
    requires Ordering(groups, Pick(groups, left), seen, Pick(groups, done))
    ensures Sorted(round, places) && Within(places, |groups|) && (forall x: nat :: x < |groups| <==> x in places)
    ensures OrderFrom(Pick(groups, left), seen, Pick(groups, done)) == Pick(groups, places)
    decreases |left|
  {
    hide Rounds, Ordering, ValidForest, PassOver, OrderFrom;
    Unfolded(Pick(groups, left), seen, Pick(groups, done));
    if left == [] {
      places := done;
      StageEnds(groups, round, k, done, left, seen);
      NothingToPass(Pick(groups, left), seen);
    } else {
      hide Stage, Sorted, Pick, Within;
      var placed, kept := StagePasses(groups, round, k, done, left, seen);
      places := OrderFromExactly(groups, round, k + 1, done + placed, kept,
                                 PassOver(Pick(groups, left), seen, |left|).seen);
    }
  }

  lemma Unfolded(remaining: seq<ConnectionGroup>, seen: set<Id>, result: seq<ConnectionGroup>)
    ensures var pass := PassOver(remaining, seen, |remaining|);
            OrderFrom(remaining, seen, result) ==
            if |pass.placed| == 0 then result else OrderFrom(pass.kept, pass.seen, result + pass.placed)
  {
    hide PassOver;
  }

  lemma NothingToPass(remaining: seq<ConnectionGroup>, seen: set<Id>)
    requires remaining == []
    ensures PassOver(remaining, seen, |remaining|).placed == []
  {
  }

  lemma StagePasses(groups: seq<ConnectionGroup>, round: seq<nat>, k: nat, done: seq<nat>, left: seq<nat>,
                    seen: set<Id>)
    returns (placed: seq<nat>, kept: seq<nat>)
    requires ValidForest(groups) && Rounds(groups, round) && Stage(groups, round, k, done, left, seen) && left != []
    requires Within(left, |groups|) && Within(done, |groups|)
    requires Ordering(groups, Pick(groups, left), seen, Pick(groups, done))
    ensures Within(kept, |groups|) && Within(done + placed, |groups|) && |kept| < |left| == |Pick(groups, left)|
    ensures var pass := PassOver(Pick(groups, left), seen, |left|);
            && Stage(groups, round, k + 1, done + placed, kept, pass.seen)
            && Ordering(groups, Pick(groups, kept), pass.seen, Pick(groups, done + placed))
            && |pass.placed| > 0 && pass.kept == Pick(groups, kept)
            && Pick(groups, done) + pass.placed == Pick(groups, done + placed)
  {
    var remaining, result := Pick(groups, left), Pick(groups, done);
    placed, kept := PassExactly(groups, round, k, done, left, seen, |left|);
    var pass := PassOver(remaining, seen, |remaining|);
    hide ValidForest, Rounds, PassOver, Ordering;
    PassedWithin(groups, round, k, done, left, |left|, placed, kept, pass.seen);
    NextStage(groups, round, k, done, left, seen, placed, kept, pass.seen);
    hide Stage, InPass;
    PassAccounts(remaining, seen, |remaining|);
    PassProgresses(groups, remaining, seen, result);
    OrderingStep(groups, remaining, seen, result);
    PickConcat(groups, done, placed);
  }

  lemma StageEnds(groups: seq<ConnectionGroup>, round: seq<nat>, k: nat, done: seq<nat>, left: seq<nat>, seen: set<Id>)
    requires Stage(groups, round, k, done, left, seen) && left == []
    ensures Sorted(round, done) && (forall x: nat :: x < |groups| <==> x in done)
  {
  }

  /** The result lists all groups by pass, and within a pass in their old order. */
  lemma OrderedByRounds(groups: seq<ConnectionGroup>, round: seq<nat>) returns (places: seq<nat>)
    requires ValidForest(groups) && Rounds(groups, round)
    ensures Sorted(round, places) && Within(places, |groups|) && forall x: nat :: x < |groups| <==> x in places
    ensures ParentFirst(groups) == Pick(groups, places)
  {
    var left := seq(|groups|, i requires 0 <= i < |groups| => i as nat);
    FirstStage(groups, round, left);
    hide Stage, Rounds, Sorted, ValidForest, Ordering;
    places := OrderFromExactly(groups, round, 0, [], left, {});
  }

  lemma FirstStage(groups: seq<ConnectionGroup>, round: seq<nat>, left: seq<nat>)
    requires |round| == |groups| == |left| && forall i :: 0 <= i < |left| ==> left[i] == i
    ensures Stage(groups, round, 0, [], left, {}) && Within(left, |groups|)
    ensures Pick(groups, left) == groups && Pick(groups, []) == []
    ensures Ordering(groups, groups, {}, [])
  {
    assert Pick(groups, left) == groups;
    forall x: nat ensures x < |groups| <==> x in left {
      assert x < |groups| ==> left[x] == x;
    }
  }

  // ---- every valid forest has such passes ----

  ghost predicate Upward(up: seq<Option<nat>>, height: seq<nat>) {
    && |up| == |height|
    && forall i :: 0 <= i < |up| && up[i].Some? ==> up[i].value < |up| && height[up[i].value] < height[i]
  }

  ghost function RoundOf(up: seq<Option<nat>>, height: seq<nat>, i: nat): nat
    requires Upward(up, height) && i < |up|
    decreases height[i]
  {
    if up[i].None? then 0 else RoundOf(up, height, up[i].value) + (if up[i].value < i then 0 else 1)
  }

  /** `up` names the place of every parent. */
  ghost predicate Places(groups: seq<ConnectionGroup>, up: seq<Option<nat>>) {
    && |up| <= |groups|
    && forall i :: 0 <= i < |up| ==> PlaceAt(groups, i, up[i])
  }

  ghost predicate PlaceAt(groups: seq<ConnectionGroup>, i: nat, parent: Option<nat>)
    requires i < |groups|
  {
    if parent.None? then groups[i].parentId.None?
    else parent.value < |groups| && groups[i].parentId == Some(groups[parent.value].id)
  }

  lemma {:induction false} PlacesUpTo(groups: seq<ConnectionGroup>, n: nat) returns (up: seq<Option<nat>>)
    requires ValidForest(groups) && n <= |groups|
    ensures Places(groups, up) && |up| == n
  {
    hide ValidForest;
    up := [];
    if n > 0 {
      up := PlacesUpTo(groups, n - 1);
      var place: Option<nat> := None;
      if groups[n - 1].parentId.Some? {
        var j := ParentPlace(groups, n - 1);
        place := Some(j);
      }
      assert PlaceAt(groups, n - 1, place);
      hide PlaceAt;
      up := up + [place];
    }
  }

  lemma HeightsFall(groups: seq<ConnectionGroup>, up: seq<Option<nat>>) returns (height: seq<nat>)
    requires ValidForest(groups) && Places(groups, up) && |up| == |groups|
    ensures Upward(up, height)
  {
    var p := ParentsOf(RowsOf(groups));
    var rank :| Ranks(p, rank);
    RowsOfSound(groups);
    hide RowsOf;
    height := seq(|groups|, i requires 0 <= i < |groups| => if groups[i].id in rank then rank[groups[i].id] else 0);
    forall i | 0 <= i < |up| && up[i].Some? ensures up[i].value < |up| && height[up[i].value] < height[i] {
      assert PlaceAt(groups, i, up[i]);
      assert p[groups[i].id] == groups[i].parentId;
    }
  }

  lemma RoundsAreThere(groups: seq<ConnectionGroup>, up: seq<Option<nat>>, height: seq<nat>) returns (round: seq<nat>)
    requires DistinctIds(groups) && Places(groups, up) && |up| == |groups| && Upward(up, height)
    ensures Rounds(groups, round)
  {
    round := seq(|groups|, i requires 0 <= i < |groups| => RoundOf(up, height, i));
    forall i | 0 <= i < |groups| && groups[i].parentId.None? ensures round[i] == 0 {
      assert PlaceAt(groups, i, up[i]);
    }
    forall i, j | 0 <= i < |groups| && 0 <= j < |groups| && groups[i].parentId == Some(groups[j].id)
      ensures round[i] == round[j] + (if j < i then 0 else 1)
    {
      assert PlaceAt(groups, i, up[i]);
      assert up[i] == Some(j as nat);
    }
  }

  /** The order of a valid forest, in full: its passes exist, and the order goes by them. */
  lemma OrderIsExact(groups: seq<ConnectionGroup>) returns (round: seq<nat>, places: seq<nat>)
    requires ValidForest(groups)
    ensures Rounds(groups, round) && Sorted(round, places) && Within(places, |groups|)
    ensures (forall x: nat :: x < |groups| <==> x in places) && ParentFirst(groups) == Pick(groups, places)
  {
    IdsDiffer(groups);
    hide ValidForest, Places, DistinctIds, Rounds, Sorted, Upward, RoundOf;
    var up := PlacesUpTo(groups, |groups|);
    var height := HeightsFall(groups, up);
    round := RoundsAreThere(groups, up, height);
    places := OrderedByRounds(groups, round);
  }
}
