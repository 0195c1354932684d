/** Removing a remote tree over SFTP with an explicit stack of steps. */
module RemoteTree {
  import opened Common

  type Path = seq<string>

  datatype Kind = File | Directory

  type Entries = map<Path, Kind>

  datatype RemoveStep = Enter(path: Path) | RemoveDirectory(path: Path)

  datatype RemoveError = RemoveFailed

  /** Everything has its parents, and they are directories. */
  ghost predicate IsTree(entries: Entries) {
    forall p, k: nat :: p in entries && k < |p| ==> p[..k] in entries && entries[p[..k]] == Directory
  }

  predicate Child(p: Path, q: Path) {
    |q| == |p| + 1 && p <= q
  }

  /** What a step is still going to remove. */
  predicate Owns(step: RemoveStep, q: Path) {
    if step.Enter? then step.path <= q else step.path == q
  }

  ghost predicate OwnedIn(steps: seq<RemoveStep>, from: nat, q: Path) {
    exists i :: from <= i < |steps| && Owns(steps[i], q)
  }

  /** The steps are about existing entries below the root; those to be removed as directories are such. */
  ghost predicate StepsExist(pending: seq<RemoveStep>, entries: Entries, root: Path) {
    forall i :: 0 <= i < |pending| ==>
      && pending[i].path in entries && root <= pending[i].path
      && (pending[i].RemoveDirectory? ==> entries[pending[i].path] == Directory)
  }

  /** No entry is owned twice. */
  ghost predicate StepsApart(pending: seq<RemoveStep>, entries: Entries) {
    forall i, j, q :: 0 <= i < j < |pending| && q in entries ==> !(Owns(pending[i], q) && Owns(pending[j], q))
  }

  /** Every entry below the root is owned. */
  ghost predicate StepsCover(pending: seq<RemoveStep>, entries: Entries, root: Path) {
    forall q :: q in entries && root <= q ==> OwnedIn(pending, 0, q)
  }

  /** What lies inside a directory to be removed is owned by a step nearer the top of the stack. */
  ghost predicate InsideFirst(pending: seq<RemoveStep>, entries: Entries) {
    forall i, q :: 0 <= i < |pending| && q in entries && pending[i].RemoveDirectory?
                   && pending[i].path <= q && pending[i].path != q ==>
      OwnedIn(pending, i + 1, q)
  }

  ghost predicate Plan(pending: seq<RemoveStep>, entries: Entries, root: Path) {
    && StepsExist(pending, entries, root)
    && StepsApart(pending, entries)
    && StepsCover(pending, entries, root)
    && InsideFirst(pending, entries)
  }

  lemma StillOwned(pending: seq<RemoveStep>, top: RemoveStep, from: nat, q: Path)
    requires OwnedIn(pending + [top], from, q) && !Owns(top, q)
    ensures OwnedIn(pending, from, q)
  {
    var i :| from <= i < |pending + [top]| && Owns((pending + [top])[i], q);
    assert i < |pending| && Owns(pending[i], q);
  }

  /** Removing the one entry that the top step owns. */
  lemma PopKeepsPlan(pending: seq<RemoveStep>, top: RemoveStep, entries: Entries, root: Path)
    requires Plan(pending + [top], entries, root) && IsTree(entries)
    requires forall q :: q in entries && Owns(top, q) ==> q == top.path
    ensures Plan(pending, entries - {top.path}, root)
  {
    hide IsTree, OwnedIn;
    var all := pending + [top];
    var next := entries - {top.path};
    assert Owns(top, top.path) && all[|pending|] == top;
    assert forall i :: 0 <= i < |pending| ==> all[i] == pending[i];
    forall i | 0 <= i < |pending| ensures pending[i].path in next {
      assert Owns(all[i], all[i].path);
      assert all[|pending|].path in entries;
    }
    forall q | q in next && root <= q ensures OwnedIn(pending, 0, q) {
      StillOwned(pending, top, 0, q);
    }
    forall i, q | 0 <= i < |pending| && q in next && pending[i].RemoveDirectory?
                  && pending[i].path <= q && pending[i].path != q
      ensures OwnedIn(pending, i + 1, q)
    {
      assert all[i] == pending[i];
      StillOwned(pending, top, i + 1, q);
    }
  }

  lemma RemovalKeepsTree(entries: Entries, p: Path)
    requires IsTree(entries) && forall q :: q in entries && p <= q ==> q == p
    ensures IsTree(entries - {p})
  {
    forall q, k: nat | q in entries - {p} && k < |q| ensures q[..k] in entries - {p} && entries[q[..k]] == Directory {
      assert q[..k] <= q;
    }
  }

  /** A directory is empty when its turn to be removed comes. */
  lemma EmptyByThen(pending: seq<RemoveStep>, p: Path, entries: Entries, root: Path)
    requires Plan(pending + [RemoveDirectory(p)], entries, root)
    ensures p in entries && entries[p] == Directory
    ensures forall q :: q in entries && p <= q ==> q == p
  {
    var all := pending + [RemoveDirectory(p)];
    assert all[|pending|] == RemoveDirectory(p);
    forall q | q in entries && p <= q ensures q == p {
      assert q != p ==> OwnedIn(all, |pending| + 1, q);
    }
  }

  lemma FileIsAlone(p: Path, entries: Entries)
    requires IsTree(entries) && p in entries && entries[p] == File
    ensures forall q :: q in entries && p <= q ==> q == p
  {
    forall q | q in entries && p <= q ensures q == p {
      assert q[..|p|] == p;
    }
  }

  function Enters(children: seq<Path>): seq<RemoveStep> {
    seq(|children|, i requires 0 <= i < |children| => Enter(children[i]))
  }

  ghost predicate Listing(children: seq<Path>, p: Path, entries: Entries) {
    && (forall q :: q in children <==> q in entries && Child(p, q))
    && (forall i, j :: 0 <= i < j < |children| ==> children[i] != children[j])
  }

  /** Whatever lies in a directory lies at or below one of its listed children. */
  lemma BelowAChild(children: seq<Path>, p: Path, entries: Entries, q: Path) returns (i: nat)
    requires IsTree(entries) && Listing(children, p, entries) && q in entries && p <= q && p != q
    ensures i < |children| && children[i] <= q
  {
    var child := q[..|p| + 1];
    assert child in entries by {
      if |q| == |p| + 1 {
        assert child == q;
      }
    }
    assert Child(p, child);
    i :| 0 <= i < |children| && children[i] == child;
  }

  /** Who owns what after a directory was entered: itself by its removal, its content by the children. */
  lemma ExpandedOwners(pending: seq<RemoveStep>, p: Path, children: seq<Path>, entries: Entries, q: Path)
    requires IsTree(entries) && Listing(children, p, entries) && q in entries && p <= q
    ensures q == p ==> OwnedIn(pending + [RemoveDirectory(p)] + Enters(children), |pending|, q)
    ensures q != p ==> OwnedIn(pending + [RemoveDirectory(p)] + Enters(children), |pending| + 1, q)
  {
    hide IsTree, Listing;
    var all := pending + [RemoveDirectory(p)] + Enters(children);
    if q == p {
      assert Owns(all[|pending|], q);
    } else {
      var i := BelowAChild(children, p, entries, q);
      assert Owns(all[|pending| + 1 + i], q);
    }
  }

  lemma OwnedMonotone(steps: seq<RemoveStep>, from: nat, to: nat, q: Path)
    requires from <= to && OwnedIn(steps, to, q)
    ensures OwnedIn(steps, from, q)
  {
  }

  lemma OwnedExtends(pending: seq<RemoveStep>, rest: seq<RemoveStep>, from: nat, q: Path)
    requires OwnedIn(pending, from, q)
    ensures OwnedIn(pending + rest, from, q)
  {
    var i :| from <= i < |pending| && Owns(pending[i], q);
    assert Owns((pending + rest)[i], q);
  }

  /** The step of the expanded stack that owns an entry is a step of the old stack, or lies in `p`. */
  lemma ExpandedWithin(pending: seq<RemoveStep>, p: Path, children: seq<Path>, entries: Entries, i: nat, q: Path)
    requires Listing(children, p, entries) && i < |pending| + 1 + |children|
    ensures var all := pending + [RemoveDirectory(p)] + Enters(children);
            Owns(all[i], q) ==>
              && (i < |pending| ==> Owns(pending[i], q))
              && (i >= |pending| ==> p <= q)
              && (i == |pending| ==> p == q)
              && (i > |pending| ==> children[i - |pending| - 1] <= q && Child(p, children[i - |pending| - 1]))
  {
    if i > |pending| {
      assert children[i - |pending| - 1] in children;
    }
  }

  lemma ExpandedApart(pending: seq<RemoveStep>, p: Path, children: seq<Path>, entries: Entries, root: Path)
    requires Plan(pending + [Enter(p)], entries, root) && Listing(children, p, entries)
    ensures StepsApart(pending + [RemoveDirectory(p)] + Enters(children), entries)
  {
    hide StepsExist, StepsCover, InsideFirst, Listing;
    var old_ := pending + [Enter(p)];
    var all := pending + [RemoveDirectory(p)] + Enters(children);
    forall i, j, q | 0 <= i < j < |all| && q in entries ensures !(Owns(all[i], q) && Owns(all[j], q)) {
      ExpandedWithin(pending, p, children, entries, i, q);
      ExpandedWithin(pending, p, children, entries, j, q);
      if i < |pending| {
        assert old_[i] == pending[i] && old_[|pending|] == Enter(p);
        assert !(Owns(old_[i], q) && Owns(old_[|pending|], q));
        if j < |pending| {
          assert old_[j] == pending[j];
          assert !(Owns(old_[i], q) && Owns(old_[j], q));
        }
      } else if i > |pending| {
        ChildrenApart(children, p, entries, i - |pending| - 1, j - |pending| - 1, q);
      }
    }
  }

  lemma ChildrenApart(children: seq<Path>, p: Path, entries: Entries, i: nat, j: nat, q: Path)
    requires Listing(children, p, entries) && i < j < |children|
    ensures !(children[i] <= q && children[j] <= q)
  {
    assert children[i] in children && children[j] in children;
    if children[i] <= q {
      assert q[..|children[i]|] == children[i] && |children[i]| == |children[j]|;
      assert children[i] != children[j];
    }
  }

  /** Entering a directory replaces its step by its removal under the entries of its content. */
  lemma ExpandKeepsPlan(pending: seq<RemoveStep>, p: Path, children: seq<Path>, entries: Entries, root: Path)
    requires Plan(pending + [Enter(p)], entries, root) && IsTree(entries)
    requires p in entries && entries[p] == Directory && Listing(children, p, entries)
    ensures Plan(pending + [RemoveDirectory(p)] + Enters(children), entries, root)
  {
    hide IsTree, OwnedIn, StepsApart;
    ExpandedApart(pending, p, children, entries, root);
    var before := pending + [Enter(p)];
    var all := pending + [RemoveDirectory(p)] + Enters(children);
    assert before[|pending|] == Enter(p);
    forall i | 0 <= i < |all| ensures all[i].path in entries && root <= all[i].path
                                && (all[i].RemoveDirectory? ==> entries[all[i].path] == Directory)
    {
      if i < |pending| {
        assert before[i] == all[i];
      } else if i > |pending| {
        assert children[i - |pending| - 1] in children;
      }
    }
    forall q | q in entries && root <= q ensures OwnedIn(all, 0, q) {
      ExpandedOwned(pending, p, children, entries, 0, q);
    }
    forall i, q | 0 <= i < |all| && q in entries && all[i].RemoveDirectory? && all[i].path <= q && all[i].path != q
      ensures OwnedIn(all, i + 1, q)
    {
      if i < |pending| {
        assert before[i] == all[i];
        ExpandedOwned(pending, p, children, entries, i + 1, q);
      } else {
        assert i == |pending|;
        ExpandedOwners(pending, p, children, entries, q);
      }
    }
  }

  lemma ExpandedOwned(pending: seq<RemoveStep>, p: Path, children: seq<Path>, entries: Entries, from: nat, q: Path)
    requires IsTree(entries) && Listing(children, p, entries) && q in entries && from <= |pending|
    requires OwnedIn(pending + [Enter(p)], from, q)
    ensures OwnedIn(pending + [RemoveDirectory(p)] + Enters(children), from, q)
  {
    hide IsTree, Listing, OwnedIn;
    var all := pending + [RemoveDirectory(p)] + Enters(children);
    if p <= q {
      ExpandedOwners(pending, p, children, entries, q);
      if q == p {
        OwnedMonotone(all, from, |pending|, q);
      } else {
        OwnedMonotone(all, from, |pending| + 1, q);
      }
    } else {
      StillOwned(pending, Enter(p), from, q);
      OwnedExtends(pending, [RemoveDirectory(p)] + Enters(children), from, q);
      assert pending + ([RemoveDirectory(p)] + Enters(children)) == all;
    }
  }

  // ---- the removal ----

  /** The directories that were entered and are still there have their removal on the stack. */
  ghost predicate EnteredWait(entered: set<Path>, pending: seq<RemoveStep>, entries: Entries) {
    forall p :: p in entered && p in entries ==> RemoveDirectory(p) in pending
  }

  lemma NotEnteredTwice(entered: set<Path>, pending: seq<RemoveStep>, p: Path, entries: Entries, root: Path)
    requires Plan(pending + [Enter(p)], entries, root) && EnteredWait(entered, pending + [Enter(p)], entries)
    ensures p !in entered
  {
    hide Plan;
    NoRemovalYet(pending, p, entries, root);
  }

  lemma NoRemovalYet(pending: seq<RemoveStep>, p: Path, entries: Entries, root: Path)
    requires Plan(pending + [Enter(p)], entries, root)
    ensures p in entries && RemoveDirectory(p) !in pending + [Enter(p)]
  {
    hide StepsCover, InsideFirst;
    var all := pending + [Enter(p)];
    assert all[|pending|] == Enter(p);
    forall i | 0 <= i < |pending| ensures pending[i] != RemoveDirectory(p) {
      assert all[i] == pending[i];
      assert !(Owns(all[i], p) && Owns(all[|pending|], p));
    }
  }

  /** Nothing at or below the root is left, nothing else has gone. */
  ghost predicate WithoutSubtree(before: Entries, after: Entries, root: Path) {
    forall q :: (q in after <==> q in before && !(root <= q)) && (q in after ==> after[q] == before[q])
  }

  /** Only entries at or below the root have gone. */
  ghost predicate PartlyRemoved(before: Entries, after: Entries, root: Path) {
    && (forall q :: q in after ==> q in before && after[q] == before[q])
    && (forall q :: q in before && q !in after ==> root <= q)
  }

  /** The remote side; when it is not reliable any call may fail. */
  class Remote {
    var entries: Entries
    const reliable: bool

    constructor (entries: Entries, reliable: bool)
      ensures this.entries == entries && this.reliable == reliable
    {
      this.entries, this.reliable := entries, reliable;
    }

    method Fails() returns (failed: bool)
      ensures reliable ==> !failed
    {
      failed := *;
      failed := failed && !reliable;
    }

    method Metadata(path: Path) returns (r: Result<Kind, RemoveError>)
      ensures r.Ok? ==> path in entries && entries[path] == r.value
      ensures reliable && path in entries ==> r.Ok?
    {
      var failed := Fails();
      r := if failed || path !in entries then Err(RemoveFailed) else Ok(entries[path]);
    }

    /** The children of a directory, in whatever order the server lists them. */
    method ReadDir(path: Path) returns (r: Result<seq<Path>, RemoveError>)
      requires path in entries && entries[path] == Directory
      ensures r.Ok? ==> Listing(r.value, path, entries)
      ensures reliable ==> r.Ok?
    {
      var failed := Fails();
      if failed {
        return Err(RemoveFailed);
      }
      var children: seq<Path> := [];
      var left := set q | q in entries && Child(path, q);
      ghost var total := left;
      while left != {}
        invariant left <= total
        invariant forall q :: q in children <==> q in total && q !in left
        invariant forall i, j :: 0 <= i < j < |children| ==> children[i] != children[j]
        decreases |left|
      {
        var q :| q in left;
        children := children + [q];
        left := left - {q};
      }
      r := Ok(children);
    }

    method RemoveFile(path: Path) returns (ok: bool)
      requires path in entries && entries[path] == File
      modifies this`entries
      ensures entries == if ok then old(entries) - {path} else old(entries)
      ensures reliable ==> ok
    {
      var failed := Fails();
      ok := !failed;
      if ok {
        entries := entries - {path};
      }
    }

    /** A server refuses to remove a directory that is not empty; no call asks it to. */
    method RemoveDir(path: Path) returns (ok: bool)
      requires path in entries && entries[path] == Directory
      requires forall q :: q in entries && path <= q ==> q == path
      modifies this`entries
      ensures entries == if ok then old(entries) - {path} else old(entries)
      ensures reliable ==> ok
    {
      var failed := Fails();
      ok := !failed;
      if ok {
        entries := entries - {path};
      }
    }

    /** `remove_remote_tree_sftp`. */
    method RemoveTree(root: Path) returns (r: Result<Done, RemoveError>)
      requires IsTree(entries)
      modifies this`entries
      ensures IsTree(entries)
      ensures r.Ok? ==> WithoutSubtree(old(entries), entries, root)
      ensures r.Err? ==> PartlyRemoved(old(entries), entries, root)
      ensures reliable ==> (r.Ok? <==> root in old(entries))
    {
      hide IsTree, Plan, Listing, EnteredWait, PartlyRemoved, WithoutSubtree, Enters;
      NothingRemoved(entries, root);
      if root !in entries {
        return Err(RemoveFailed);
      }
      var pending := [Enter(root)];
      ghost var entered: set<Path> := {};
      StartPlan(entries, root);
      NoneEntered(pending, entries);
      while pending != []
        invariant IsTree(entries)
        invariant Plan(pending, entries, root)
        invariant PartlyRemoved(old(entries), entries, root)
        invariant EnteredWait(entered, pending, entries)
        decreases |entries.Keys - entered|, |entries|
      {
        var step := pending[|pending| - 1];
        var rest := pending[..|pending| - 1];
        assert pending == rest + [step];
        TopExists(rest, step, entries, root);
        pending := rest;
        RemovesBelow(old(entries), entries, root, step.path);
        match step {
          case Enter(current) =>
            NotEnteredTwice(entered, rest, current, entries, root);
            var kind :- Metadata(current);
            if kind == Directory {
              var children :- ReadDir(current);
              ExpandKeepsPlan(rest, current, children, entries, root);
              EnterOneMore(entered, rest, current, children, entries);
              pending := rest + [RemoveDirectory(current)] + Enters(children);
              entered := entered + {current};
            } else {
              FileIsAlone(current, entries);
              PopKeepsPlan(rest, step, entries, root);
              RemovalKeepsTree(entries, current);
              OneLess(entered, entries, current);
              StillWaiting(entered, rest, step, entries);
              var ok := RemoveFile(current);
              if !ok {
                return Err(RemoveFailed);
              }
            }
          case RemoveDirectory(current) =>
            EmptyByThen(rest, current, entries, root);
            PopKeepsPlan(rest, step, entries, root);
            RemovalKeepsTree(entries, current);
            OneLess(entered, entries, current);
            StillWaiting(entered, rest, step, entries);
            var ok := RemoveDir(current);
            if !ok {
              return Err(RemoveFailed);
            }
        }
      }
      NothingLeft(entries, root);
      AllRemoved(old(entries), entries, root);
      r := Ok(Done);
    }
  }

  lemma StartPlan(entries: Entries, root: Path)
    requires root in entries
    ensures Plan([Enter(root)], entries, root)
  {
    hide OwnedIn;
    forall q | q in entries && root <= q ensures OwnedIn([Enter(root)], 0, q) {
      StartOwned(root, q);
    }
  }

  lemma StartOwned(root: Path, q: Path)
    requires root <= q
    ensures OwnedIn([Enter(root)], 0, q)
  {
    assert Owns([Enter(root)][0], q);
  }

  lemma NoneEntered(pending: seq<RemoveStep>, entries: Entries)
    ensures EnteredWait({}, pending, entries)
  {
  }

  lemma NothingRemoved(entries: Entries, root: Path)
    ensures PartlyRemoved(entries, entries, root)
  {
  }

  lemma RemovesBelow(before: Entries, now: Entries, root: Path, p: Path)
    requires PartlyRemoved(before, now, root) && root <= p
    ensures PartlyRemoved(before, now - {p}, root)
  {
  }

  lemma AllRemoved(before: Entries, now: Entries, root: Path)
    requires PartlyRemoved(before, now, root) && forall q :: q in now ==> !(root <= q)
    ensures WithoutSubtree(before, now, root)
  {
  }

  lemma TopExists(rest: seq<RemoveStep>, step: RemoveStep, entries: Entries, root: Path)
    requires Plan(rest + [step], entries, root)
    ensures step.path in entries && root <= step.path
  {
    assert (rest + [step])[|rest|] == step;
  }

  lemma NothingLeft(entries: Entries, root: Path)
    requires Plan([], entries, root)
    ensures forall q :: q in entries ==> !(root <= q)
  {
    hide StepsExist, StepsApart, InsideFirst;
  }

  lemma EnterOneMore(entered: set<Path>, rest: seq<RemoveStep>, p: Path, children: seq<Path>, entries: Entries)
    requires p in entries && p !in entered && EnteredWait(entered, rest + [Enter(p)], entries)
    ensures EnteredWait(entered + {p}, rest + [RemoveDirectory(p)] + Enters(children), entries)
    ensures |entries.Keys - (entered + {p})| < |entries.Keys - entered|
  {
    Fewer(entries.Keys - entered, entries.Keys - (entered + {p}), p);
  }

  lemma Fewer<T>(a: set<T>, b: set<T>, x: T)
    requires b <= a && x in a && x !in b
    ensures |b| < |a|
  {
    assert a == b + (a - b) && x in a - b;
    assert |a| == |b| + |a - b|;
  }

  lemma OneLess(entered: set<Path>, entries: Entries, p: Path)
    requires p in entries
    ensures |(entries - {p}).Keys - entered| <= |entries.Keys - entered|
    ensures p !in entered ==> |(entries - {p}).Keys - entered| < |entries.Keys - entered|
    ensures |entries - {p}| < |entries|
  {
    var a, b := entries.Keys - entered, (entries - {p}).Keys - entered;
    if p in entered {
      assert a == b;
    } else {
      Fewer(a, b, p);
    }
    assert (entries - {p}).Keys == entries.Keys - {p};
  }

  lemma StillWaiting(entered: set<Path>, rest: seq<RemoveStep>, step: RemoveStep, entries: Entries)
    requires EnteredWait(entered, rest + [step], entries)
    ensures EnteredWait(entered, rest, entries - {step.path})
  {
    forall p | p in entered && p in entries - {step.path} ensures RemoveDirectory(p) in rest {
      assert RemoveDirectory(p) in rest + [step];
    }
  }
}
