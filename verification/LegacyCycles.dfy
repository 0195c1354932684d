/** The cycle-breaking loop of the legacy group migration. */
module LegacyCycles {
  import opened Common

  type Index = nat

  /** Every parent index is in range. */
  predicate InRange(p: seq<Option<Index>>) {
    forall i :: 0 <= i < |p| && p[i].Some? ==> p[i].value < |p|
  }

  /** The node `k` parent edges above `i`. */
  ghost function Walk(p: seq<Option<Index>>, i: Index, k: nat): Option<Index>
    decreases k
  {
    if k == 0 then Some(i)
    else if i < |p| && p[i].Some? then Walk(p, p[i].value, k - 1)
    else None
  }

  ghost predicate Reaches(p: seq<Option<Index>>, i: Index, j: Index) {
    exists k: nat :: Walk(p, i, k) == Some(j)
  }

  ghost predicate OnCycle(p: seq<Option<Index>>, i: Index) {
    exists k: nat :: k > 0 && Walk(p, i, k) == Some(i)
  }

  ghost predicate Ends(p: seq<Option<Index>>, i: Index) {
    exists k: nat :: Walk(p, i, k).None?
  }

  /** `q` is `p` with some edges removed, all of them edges of nodes on a cycle of `p`. */
  ghost predicate CutFrom(p: seq<Option<Index>>, q: seq<Option<Index>>) {
    |q| == |p| && forall i :: 0 <= i < |p| ==> q[i] == p[i] || (q[i].None? && OnCycle(p, i))
  }

  ghost predicate IsCut(p: seq<Option<Index>>, q: seq<Option<Index>>, i: Index) {
    i < |p| && i < |q| && q[i] != p[i]
  }

  /** No cycle of `p` has lost two edges. */
  ghost predicate CutsApart(p: seq<Option<Index>>, q: seq<Option<Index>>) {
    forall i, j :: IsCut(p, q, i) && IsCut(p, q, j) && Reaches(p, i, j) ==> i == j
  }

  lemma {:induction false} WalkCompose(p: seq<Option<Index>>, i: Index, a: nat, b: nat)
    requires Walk(p, i, a).Some?
    ensures Walk(p, i, a + b) == Walk(p, Walk(p, i, a).value, b)
    decreases a
  {
    if a > 0 {
      WalkCompose(p, p[i].value, a - 1, b);
    }
  }

  lemma {:induction false} WalkPrefix(p: seq<Option<Index>>, i: Index, a: nat, b: nat)
    requires a <= b && Walk(p, i, b).Some?
    ensures Walk(p, i, a).Some?
    decreases a
  {
    if a > 0 {
      WalkPrefix(p, p[i].value, a - 1, b - 1);
    }
  }

  /** A walk on a cycle never ends. */
  lemma {:induction false} CycleForever(p: seq<Option<Index>>, c: Index, m: nat, k: nat)
    requires m > 0 && Walk(p, c, m) == Some(c)
    ensures Walk(p, c, k).Some?
    decreases k
  {
    if k < m {
      WalkPrefix(p, c, k, m);
    } else {
      CycleForever(p, c, m, k - m);
      WalkCompose(p, c, m, k - m);
    }
  }

  /** Whatever a node on a cycle reaches lies on the same cycle. */
  lemma CycleReturns(p: seq<Option<Index>>, i: Index, j: Index)
    requires OnCycle(p, i) && Reaches(p, i, j)
    ensures Reaches(p, j, i)
  {
    var m: nat :| m > 0 && Walk(p, i, m) == Some(i);
    var k: nat :| Walk(p, i, k) == Some(j);
    var n := LaterReturn(p, i, m, k);
    WalkCompose(p, i, k, n - k);
    assert Walk(p, j, n - k) == Some(i);
  }

  lemma {:induction false} LaterReturn(p: seq<Option<Index>>, i: Index, m: nat, k: nat) returns (n: nat)
    requires m > 0 && Walk(p, i, m) == Some(i)
    ensures n >= k && Walk(p, i, n) == Some(i)
    decreases k
  {
    if k <= m {
      n := m;
    } else {
      var n' := LaterReturn(p, i, m, k - m);
      WalkCompose(p, i, m, n');
      n := m + n';
    }
  }

  /** A walk in the cut graph is a walk in the original one. */
  lemma {:induction false} WalkInOriginal(p: seq<Option<Index>>, q: seq<Option<Index>>, i: Index, k: nat)
    requires CutFrom(p, q) && Walk(q, i, k).Some?
    ensures Walk(p, i, k) == Walk(q, i, k)
    decreases k
  {
    if k > 0 {
      WalkInOriginal(p, q, q[i].value, k - 1);
    }
  }

  /** A node on a cycle of the cut graph reaches no edge that has been cut. */
  lemma IntactCycle(p: seq<Option<Index>>, q: seq<Option<Index>>, c: Index, m: nat, j: Index)
    requires CutFrom(p, q) && m > 0 && Walk(q, c, m) == Some(c)
    requires IsCut(p, q, j)
    ensures !Reaches(p, c, j)
  {
    if Reaches(p, c, j) {
      var k: nat :| Walk(p, c, k) == Some(j);
      CycleForever(q, c, m, k);
      WalkInOriginal(p, q, c, k);
      CycleForever(q, c, m, k + 1);
      WalkCompose(q, c, k, 1);
      assert false;
    }
  }

  /** Cutting the edge of `c` ends every walk that passes `c`. */
  lemma {:induction false} PassingEnds(q: seq<Option<Index>>, c: Index, i: Index, n: nat)
    requires c < |q| && Walk(q, i, n) == Some(c)
    ensures Ends(q[c := None], i)
    decreases n
  {
    var q' := q[c := None];
    if i == c {
      assert Walk(q', c, 1).None?;
    } else {
      PassingEnds(q, c, q[i].value, n - 1);
      var k: nat :| Walk(q', q[i].value, k).None?;
      assert Walk(q', i, k + 1).None?;
    }
  }

  /** Cutting an edge does not prolong a walk that ended. */
  lemma {:induction false} StillEnds(q: seq<Option<Index>>, c: Index, i: Index, n: nat)
    requires c < |q| && Walk(q, i, n).None?
    ensures Walk(q[c := None], i, n).None?
    decreases n
  {
    if i < |q| && q[i].Some? && i != c {
      StillEnds(q, c, q[i].value, n - 1);
    }
  }

  /** One cut on an intact cycle keeps everything the loop relies on. */
  lemma CutStep(p: seq<Option<Index>>, q: seq<Option<Index>>, c: Index, m: nat)
    requires InRange(p) && CutFrom(p, q) && CutsApart(p, q)
    requires c < |q| && m > 0 && Walk(q, c, m) == Some(c)
    ensures CutFrom(p, q[c := None]) && CutsApart(p, q[c := None])
    ensures q[c].Some? && IsCut(p, q[c := None], c) && !IsCut(p, q, c)
  {
    var q' := q[c := None];
    WalkInOriginal(p, q, c, m);
    assert OnCycle(p, c);
    forall i, j | IsCut(p, q', i) && IsCut(p, q', j) && Reaches(p, i, j) ensures i == j {
      if i == c && j != c {
        IntactCycle(p, q, c, m, j);
      } else if j == c && i != c {
        CycleReturns(p, i, j);
        IntactCycle(p, q, c, m, i);
      }
    }
  }

  /** The promise of the repair: the result has no cycle, each original cycle lost exactly one edge, and
      every node off the cycles kept its parent. */
  ghost predicate Repaired(p: seq<Option<Index>>, q: seq<Option<Index>>) {
    && CutFrom(p, q)
    && (forall i :: 0 <= i < |q| ==> Ends(q, i))
    && (forall i :: 0 <= i < |p| && OnCycle(p, i) ==> exists j :: IsCut(p, q, j) && Reaches(p, i, j))
    && CutsApart(p, q)
  }

  /** A cycle that lost no edge would still be there. */
  lemma EveryCycleCut(p: seq<Option<Index>>, q: seq<Option<Index>>, i: Index)
    requires InRange(p) && CutFrom(p, q) && i < |p| && OnCycle(p, i) && Ends(q, i)
    ensures exists j :: IsCut(p, q, j) && Reaches(p, i, j)
  {
    var m: nat :| m > 0 && Walk(p, i, m) == Some(i);
    var k: nat :| Walk(q, i, k).None?;
    CycleForever(p, i, m, k);
    var j, n := FirstDifference(p, q, i, k);
    assert Walk(p, i, n) == Some(j);
  }

  lemma {:induction false} FirstDifference(p: seq<Option<Index>>, q: seq<Option<Index>>, i: Index, k: nat)
    returns (j: Index, n: nat)
    requires CutFrom(p, q) && Walk(p, i, k).Some? && Walk(q, i, k).None?
    ensures IsCut(p, q, j) && Walk(p, i, n) == Some(j) && n < k
    decreases k
  {
    if q[i] != p[i] {
      j, n := i, 0;
    } else {
      j, n := FirstDifference(p, q, p[i].value, k - 1);
      n := n + 1;
    }
  }

  // ---- where a cycle is cut ----

  /** The walk from `i` enters a cycle at `c`: no node before is on one. */
  ghost predicate Enters(p: seq<Option<Index>>, i: Index, c: Index) {
    exists n: nat :: EntersAfter(p, i, c, n)
  }

  ghost predicate EntersAfter(p: seq<Option<Index>>, i: Index, c: Index, n: nat) {
    && Walk(p, i, n) == Some(c) && OnCycle(p, c)
    && forall m: nat, x :: m < n && Walk(p, i, m) == Some(x) ==> !OnCycle(p, x)
  }

  /** The first row that leads into the cycle enters it here. */
  ghost predicate CutPlace(p: seq<Option<Index>>, c: Index) {
    exists i :: 0 <= i < |p| && Enters(p, i, c) && forall x :: 0 <= x < i ==> !Reaches(p, x, c)
  }

  /** A walk on a cycle stays among the nodes of one turn. */
  lemma {:induction false} OrbitStays(p: seq<Option<Index>>, c: Index, period: nat, k: nat) returns (r: nat)
    requires period > 0 && Walk(p, c, period) == Some(c)
    ensures r < period && Walk(p, c, r) == Walk(p, c, k)
    decreases k
  {
    if k < period {
      r := k;
    } else {
      r := OrbitStays(p, c, period, k - period);
      WalkCompose(p, c, period, k - period);
    }
  }

  /** `seen` holds the first `steps` nodes of the walk from `start`, all of them different. */
  ghost predicate Walked(p: seq<Option<Index>>, start: Index, steps: nat, seen: set<Index>) {
    && (forall m: nat :: m < steps ==> Walk(p, start, m).Some? && Walk(p, start, m).value in seen)
    && (forall s :: s in seen ==> exists m: nat :: m < steps && Walk(p, start, m) == Some(s))
    && (forall m: nat, n: nat :: m < n < steps ==> Walk(p, start, m) != Walk(p, start, n))
  }

  lemma AllDifferent(p: seq<Option<Index>>, start: Index, steps: nat, seen: set<Index>, m: nat, n: nat)
    requires Walked(p, start, steps, seen) && m < n < steps
    ensures Walk(p, start, m) != Walk(p, start, n)
  {
  }

  /** No node before the entry of the cycle is on one: the cycle would come back to it. */
  lemma BeforeEntry(p: seq<Option<Index>>, start: Index, steps: nat, seen: set<Index>, a: nat, c: Index, m: nat,
                    x: Index)
    requires Walked(p, start, steps, seen) && m < a < steps
    requires Walk(p, start, a) == Some(c) && Walk(p, start, steps) == Some(c) && Walk(p, start, m) == Some(x)
    ensures !OnCycle(p, x)
  {
    hide Walked, Walk;
    if OnCycle(p, x) {
      WalkCompose(p, start, a, steps - a);
      WalkCompose(p, start, m, a - m);
      assert Reaches(p, x, c);
      CycleReturns(p, x, c);
      var k: nat :| Walk(p, c, k) == Some(x);
      var r := OrbitStays(p, c, steps - a, k);
      WalkCompose(p, start, a, r);
      AllDifferent(p, start, steps, seen, m, a + r);
      assert false;
    }
  }

  lemma SeenAt(p: seq<Option<Index>>, start: Index, steps: nat, seen: set<Index>, s: Index) returns (a: nat)
    requires Walked(p, start, steps, seen) && s in seen
    ensures a < steps && Walk(p, start, a) == Some(s)
  {
    a :| a < steps && Walk(p, start, a) == Some(s);
  }

  /** The first node that is met again is where the walk enters its cycle. */
  lemma FirstRepeatedEnters(p: seq<Option<Index>>, start: Index, steps: nat, seen: set<Index>, c: Index)
    requires Walked(p, start, steps, seen) && Walk(p, start, steps) == Some(c) && c in seen
    ensures Enters(p, start, c)
  {
    hide Walked, Walk;
    var a := SeenAt(p, start, steps, seen, c);
    WalkCompose(p, start, a, steps - a);
    assert OnCycle(p, c);
    forall m: nat, x | m < a && Walk(p, start, m) == Some(x) ensures !OnCycle(p, x) {
      BeforeEntry(p, start, steps, seen, a, c, m, x);
    }
    assert EntersAfter(p, start, c, a);
  }

  lemma OneMoreWalked(p: seq<Option<Index>>, start: Index, steps: nat, seen: set<Index>, c: Index)
    requires Walked(p, start, steps, seen) && Walk(p, start, steps) == Some(c) && c !in seen
    ensures Walked(p, start, steps + 1, seen + {c})
  {
    hide Walk;
    forall m: nat, n: nat | m < n < steps + 1 ensures Walk(p, start, m) != Walk(p, start, n) {
      if n == steps {
        assert Walk(p, start, m).value in seen;
      }
    }
  }

  lemma {:induction false} RepeatedEnters(p: seq<Option<Index>>, start: Index, steps: nat, current: Option<Index>,
                                          seen: set<Index>)
    requires InRange(p) && (current.Some? ==> current.value < |p|)
    requires Walked(p, start, steps, seen) && Walk(p, start, steps) == current
    ensures Repeated(p, current, seen).Some? ==> Enters(p, start, Repeated(p, current, seen).value)
    decreases Below(|p|) - seen, current.Some?
  {
    if current.Some? {
      if current.value in seen {
        FirstRepeatedEnters(p, start, steps, seen, current.value);
      } else {
        OneMoreWalked(p, start, steps, seen, current.value);
        WalkCompose(p, start, steps, 1);
        NextOnWalk(p, current.value);
        hide Walked, Enters;
        RepeatedEnters(p, start, steps + 1, p[current.value], seen + {current.value});
      }
    }
  }

  lemma NextOnWalk(p: seq<Option<Index>>, i: Index)
    requires i < |p|
    ensures Walk(p, i, 1) == p[i]
  {
    if p[i].Some? {
      assert Walk(p, p[i].value, 0) == p[i];
    }
  }

  /** A node of the walk that is on a cycle of the original graph is on one of the cut graph, if that is where the
      walk in the cut graph leads. */
  lemma CycleIsIntact(p: seq<Option<Index>>, q: seq<Option<Index>>, c: Index, x: Index, k: nat)
    requires CutFrom(p, q) && OnCycle(q, c) && OnCycle(p, x) && Walk(q, x, k) == Some(c) && k > 0
    ensures OnCycle(q, x)
  {
    WalkInOriginal(p, q, x, k);
    CycleReturns(p, x, c);
    var back: nat :| Walk(p, c, back) == Some(x);
    var m: nat :| m > 0 && Walk(q, c, m) == Some(c);
    CycleForever(q, c, m, back);
    WalkInOriginal(p, q, c, back);
    WalkCompose(q, x, k, back);
    assert Walk(q, x, k + back) == Some(x);
  }

  /** Rows whose walks end in the cut graph lead to no intact cycle. */
  lemma EndedLeadsElsewhere(p: seq<Option<Index>>, q: seq<Option<Index>>, c: Index, x: Index)
    requires CutFrom(p, q) && OnCycle(q, c) && Ends(q, x)
    ensures !Reaches(p, x, c)
  {
    if Reaches(p, x, c) {
      var k: nat :| Walk(p, x, k) == Some(c);
      var m: nat :| m > 0 && Walk(q, c, m) == Some(c);
      if Walk(q, x, k).Some? {
        WalkInOriginal(p, q, x, k);
        var end: nat :| Walk(q, x, end).None?;
        NeverEnds(q, x, k, c, m, end);
        assert false;
      } else {
        var j, n := FirstDifference(p, q, x, k);
        WalkCompose(p, x, n, k - n);
        assert Reaches(p, j, c);
        CycleReturns(p, j, c);
        IntactCycle(p, q, c, m, j);
        assert false;
      }
    }
  }

  lemma NeverEnds(q: seq<Option<Index>>, x: Index, k: nat, c: Index, m: nat, end: nat)
    requires Walk(q, x, k) == Some(c) && m > 0 && Walk(q, c, m) == Some(c)
    ensures Walk(q, x, end).Some?
  {
    if end <= k {
      WalkPrefix(q, x, end, k);
    } else {
      WalkCompose(q, x, k, end - k);
      CycleForever(q, c, m, end - k);
    }
  }

  lemma PlaceOfCut(p: seq<Option<Index>>, q: seq<Option<Index>>, i: Index, c: Index)
    requires CutFrom(p, q) && i < |p| && Enters(q, i, c) && forall x :: 0 <= x < i ==> Ends(q, x)
    ensures CutPlace(p, c)
  {
    var n: nat :| EntersAfter(q, i, c, n);
    WalkInOriginal(p, q, i, n);
    var period: nat :| period > 0 && Walk(q, c, period) == Some(c);
    WalkInOriginal(p, q, c, period);
    assert OnCycle(p, c);
    hide Walk;
    forall m: nat, x | m < n && Walk(p, i, m) == Some(x) ensures !OnCycle(p, x) {
      WalkPrefix(q, i, m, n);
      WalkInOriginal(p, q, i, m);
      WalkCompose(q, i, m, n - m);
      if OnCycle(p, x) {
        CycleIsIntact(p, q, c, x, n - m);
        assert false;
      }
    }
    assert EntersAfter(p, i, c, n);
    assert Enters(p, i, c);
    forall x: Index | 0 <= x < i ensures !Reaches(p, x, c) {
      EndedLeadsElsewhere(p, q, c, x);
    }
  }

  /** Where a turn of the loop cuts. */
  lemma TurnCutsThere(p: seq<Option<Index>>, q: seq<Option<Index>>, i: Index, c: Index)
    requires InRange(q) && CutFrom(p, q) && i < |p| && Repeated(q, Some(i), {}) == Some(c)
    requires forall x :: 0 <= x < i ==> Ends(q, x)
    ensures CutPlace(p, c)
  {
    assert |q| == |p|;
    hide Ends, CutFrom, Enters, Repeated, CutPlace;
    assert Walked(q, i, 0, {}) && Walk(q, i, 0) == Some(i);
    RepeatedEnters(q, i, 0, Some(i), {});
    PlaceOfCut(p, q, i, c);
  }

  /** The loop of `plan` that breaks cycles; `repairs` lists the rows whose parent edge it removed. */
  method BreakCycles(parents: array<Option<Index>>) returns (repairs: seq<Index>)
    requires InRange(parents[..])
    modifies parents
    ensures Repaired(old(parents[..]), parents[..])
    ensures parents[..] == Cut(old(parents[..]))
    ensures forall c :: IsCut(old(parents[..]), parents[..], c) ==> CutPlace(old(parents[..]), c)
    ensures forall i :: i in repairs <==> IsCut(old(parents[..]), parents[..], i)
    ensures forall i, j :: 0 <= i < j < |repairs| ==> repairs[i] != repairs[j]
  {
    hide CutPlace, Repeated;
    repairs := [];
    ghost var p := parents[..];
    for i := 0 to parents.Length
      invariant CutFrom(p, parents[..]) && CutsApart(p, parents[..]) && parents[..] == CutUpTo(p, i)
      invariant forall x :: 0 <= x < i ==> Ends(parents[..], x)
      invariant forall c :: IsCut(p, parents[..], c) ==> CutPlace(p, c)
      invariant forall x :: x in repairs <==> IsCut(p, parents[..], x)
      invariant forall x, y :: 0 <= x < y < |repairs| ==> repairs[x] != repairs[y]
    {
      ghost var q := parents[..];
      var repeated := FindRepeated(parents, i);
      if repeated.Some? {
        var index := repeated.value;
        ghost var n: nat :| Walk(q, i, n) == Some(index);
        ghost var m: nat :| m > 0 && Walk(q, index, m) == Some(index);
        CutStep(p, q, index, m);
        TurnCutsThere(p, q, i, index);
        PassingEnds(q, index, i, n);
        parents[index] := None;
        assert parents[..] == q[index := None];
        repairs := repairs + [index];
        EarlierStillEnd(q, index, i);
      }
    }
    forall i | 0 <= i < |p| && OnCycle(p, i) ensures exists j :: IsCut(p, parents[..], j) && Reaches(p, i, j) {
      EveryCycleCut(p, parents[..], i);
    }
  }

  /** The loop as a function: where the walk from `current` meets a node of `seen` or of its own. */
  ghost function Repeated(p: seq<Option<Index>>, current: Option<Index>, seen: set<Index>): Option<Index>
    requires InRange(p) && (current.Some? ==> current.value < |p|)
    decreases Below(|p|) - seen, current.Some?
  {
    if current.None? then None
    else if current.value in seen then current
    else Repeated(p, p[current.value], seen + {current.value})
  }

  /** The parents after the first `n` turns of the loop. */
  ghost function CutUpTo(p: seq<Option<Index>>, n: nat): (q: seq<Option<Index>>)
    requires InRange(p) && n <= |p|
    ensures |q| == |p| && InRange(q)
  {
    if n == 0 then p
    else
      var before := CutUpTo(p, n - 1);
      var repeated := Repeated(before, Some(n - 1), {});
      if repeated.Some? && repeated.value < |p| then before[repeated.value := None] else before
  }

  /** The parents with every cycle cut where the loop cuts it. */
  ghost function Cut(p: seq<Option<Index>>): (q: seq<Option<Index>>)
    requires InRange(p)
    ensures |q| == |p| && InRange(q)
  {
    CutUpTo(p, |p|)
  }

  lemma EarlierStillEnd(q: seq<Option<Index>>, c: Index, n: nat)
    requires c < |q| && n <= |q| && forall x :: 0 <= x < n ==> Ends(q, x)
    ensures var q' := q[c := None]; forall x :: 0 <= x < n ==> Ends(q', x)
  {
    var q' := q[c := None];
    forall x | 0 <= x < n ensures Ends(q', x) {
      assert Ends(q, x);
      var k: nat :| Walk(q, x, k).None?;
      StillEnds(q, c, x, k);
    }
  }

  ghost function Below(n: nat): (r: set<Index>)
    ensures forall x: Index :: x in r <==> x < n
  {
    if n == 0 then {} else Below(n - 1) + {n - 1}
  }

  /** The inner loop: follow the parents of `start` until they end or meet a node again. */
  method FindRepeated(parents: array<Option<Index>>, start: Index) returns (repeated: Option<Index>)
    requires InRange(parents[..]) && start < parents.Length
    ensures repeated == Repeated(parents[..], Some(start), {})
    ensures repeated.None? ==> Ends(parents[..], start)
    ensures repeated.Some? ==> repeated.value < parents.Length
    ensures repeated.Some? ==> Reaches(parents[..], start, repeated.value) && OnCycle(parents[..], repeated.value)
  {
    ghost var q := parents[..];
    var seen: set<Index> := {};
    var current: Option<Index> := Some(start);
    ghost var steps: nat := 0;
    while current.Some?
      invariant current.Some? ==> current.value < |q|
      invariant Repeated(q, Some(start), {}) == Repeated(q, current, seen)
      invariant Walk(q, start, steps) == current
      invariant current.Some? ==> forall s :: s in seen ==> Leads(q, s, current.value)
      invariant forall s :: s in seen ==> s < |q|
      decreases current.Some?, Below(|q|) - seen
    {
      var index := current.value;
      if index in seen {
        return Some(index);
      }
      WalkCompose(q, start, steps, 1);
      var next := parents[index];
      if next.Some? {
        forall s | s in seen + {index} ensures Leads(q, s, next.value) {
          if s == index {
            assert Walk(q, index, 1) == next;
          } else {
            var m: nat :| m > 0 && Walk(q, s, m) == Some(index);
            WalkCompose(q, s, m, 1);
          }
        }
      }
      seen := seen + {index};
      current := next;
      steps := steps + 1;
    }
    return None;
  }

  /** `s` leads to `i` in at least one step. */
  ghost predicate Leads(q: seq<Option<Index>>, s: Index, i: Index) {
    exists m: nat :: m > 0 && Walk(q, s, m) == Some(i)
  }
}
