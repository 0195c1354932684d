/** The remote exec session pool: the sections that run under its lock, and every interleaving of the
    tasks that run them. */
module SessionPool {
  type ConnectionId = string

  /** The identity of an opened session, as `Arc::ptr_eq` sees it. */
  type SessionId = nat

  datatype Config = Config(connectionId: ConnectionId, signature: string)
  datatype Handle = Handle(signature: string, connectionId: ConnectionId, session: SessionId)

  type Sessions = map<ConnectionId, Handle>

  /** What a lock section leaves: the new map, and the handles its caller must close. */
  datatype Section = Section(sessions: Sessions, owed: seq<Handle>)

  /** `sessions.remove(id)`. */
  function Removed(sessions: Sessions, id: ConnectionId): Section {
    if id in sessions then Section(sessions - {id}, [sessions[id]]) else Section(sessions, [])
  }

  /** The section of `invalidate_handle`: remove the entry only if it still holds this very session. */
  function Invalidated(sessions: Sessions, id: ConnectionId, session: SessionId): Section {
    if id in sessions && sessions[id].session == session then Removed(sessions, id) else Section(sessions, [])
  }

  /** The section of `connect_and_store`: an existing session for the same configuration wins. */
  function Stored(sessions: Sessions, h: Handle): Section {
    var id := h.connectionId;
    if id !in sessions then Section(sessions[id := h], [])
    else if sessions[id].signature == h.signature then Section(sessions, [h])
    else Section(sessions[id := h], [sessions[id]])
  }

  /** The handle that `connect_and_store` returns: what the map holds for the connection afterwards. */
  function StoredHandle(sessions: Sessions, h: Handle): Handle {
    if h.connectionId in sessions && sessions[h.connectionId].signature == h.signature
    then sessions[h.connectionId] else h
  }

  /** How many entries `prune_extra_sessions` asks to remove. */
  function Surplus(count: nat, max: nat): nat {
    if max == 0 || count < max then 0 else count - (max - 1)
  }

  /** `evicted` is a choice that the pruning section may make, in any order of ids. */
  ghost predicate Evicts(sessions: Sessions, active: ConnectionId, max: nat, evicted: seq<ConnectionId>) {
    var others := sessions.Keys - {active};
    var surplus := Surplus(|sessions|, max);
    && (forall i :: 0 <= i < |evicted| ==> evicted[i] in others)
    && (forall i, j :: 0 <= i < j < |evicted| ==> evicted[i] != evicted[j])
    && |evicted| == if surplus <= |others| then surplus else |others|
  }

  /** Removing ids one after the other. */
  function Evicted(sessions: Sessions, ids: seq<ConnectionId>): Section {
    if ids == [] then Section(sessions, [])
    else
      var before := Evicted(sessions, ids[..|ids| - 1]);
      var last := Removed(before.sessions, ids[|ids| - 1]);
      Section(last.sessions, before.owed + last.owed)
  }

  /** What a task is about to do. Callers run `exec`; `retry` says whether one reconnect is left. */
  datatype Task =
    | Start(config: Config, retry: bool)
    | PruningIdle(config: Config, retry: bool, snapshot: seq<Handle>)
    | LookingUp(config: Config, retry: bool)
    | Stale(config: Config, retry: bool, handle: Handle)
    | Connecting(config: Config, retry: bool)
    | Opened(config: Config, retry: bool, session: SessionId)
    | Storing(config: Config, retry: bool, session: SessionId)
    | Using(config: Config, retry: bool, handle: Handle)
    | ExecFailed(config: Config, retry: bool, handle: Handle)
    | InvalidatingConnection(connectionId: ConnectionId)
    | TimerFired(handle: Handle)
    | Closing(pending: seq<Handle>, next: Task)
    | Finished

  /** `closed` counts how often each session has been closed. */
  datatype Pool = Pool(sessions: Sessions, tasks: seq<Task>, connected: set<SessionId>, closed: multiset<SessionId>)

  function Moved(p: Pool, i: nat, task: Task): Pool
    requires i < |p.tasks|
  {
    p.(tasks := p.tasks[i := task])
  }

  /** Task `i` runs a lock section, and then closes what the section removed before going on. */
  function Ran(p: Pool, i: nat, section: Section, next: Task): Pool
    requires i < |p.tasks|
  {
    p.(sessions := section.sessions, tasks := p.tasks[i := Closing(section.owed, next)])
  }

  predicate Begins(task: Task) {
    task.Start? || task.InvalidatingConnection? || task.TimerFired?
  }

  /** One step of task `i`; the scheduler, the clock, the network and the map's iteration order choose. */
  ghost predicate Step(max: nat, p: Pool, i: nat, p': Pool) {
    i < |p.tasks| && |p'.tasks| == |p.tasks| &&
    match p.tasks[i]
    case Finished => Begins(p'.tasks[i]) && p' == Moved(p, i, p'.tasks[i])
    case Start(c, r) =>
      var task := p'.tasks[i];
      && task.PruningIdle? && task.config == c && task.retry == r
      && (forall h :: h in task.snapshot ==> h in p.sessions.Values)
      && p' == Moved(p, i, task)
    case PruningIdle(c, r, snapshot) =>
      if snapshot == [] then p' == Moved(p, i, LookingUp(c, r))
      else
        var rest := PruningIdle(c, r, snapshot[1..]);
        || p' == Moved(p, i, rest)
        || p' == Ran(p, i, Invalidated(p.sessions, snapshot[0].connectionId, snapshot[0].session), rest)
    case LookingUp(c, r) =>
      if c.connectionId !in p.sessions then p' == Moved(p, i, Connecting(c, r))
      else
        var existing := p.sessions[c.connectionId];
        || (existing.signature == c.signature && p' == Moved(p, i, Using(c, r, existing)))
        || p' == Moved(p, i, Stale(c, r, existing))
    case Stale(c, r, h) => p' == Ran(p, i, Invalidated(p.sessions, c.connectionId, h.session), Connecting(c, r))
    case Connecting(c, r) =>
      || p' == Moved(p, i, Finished)
      || (var task := p'.tasks[i];
          && task.Opened? && task == Opened(c, r, task.session) && task.session !in p.connected
          && p' == Moved(p, i, task).(connected := p.connected + {task.session}))
    case Opened(c, r, s) =>
      (exists evicted :: Evicts(p.sessions, c.connectionId, max, evicted)
                         && p' == Ran(p, i, Evicted(p.sessions, evicted), Storing(c, r, s)))
    case Storing(c, r, s) =>
      var h := Handle(c.signature, c.connectionId, s);
      p' == Ran(p, i, Stored(p.sessions, h), Using(c, r, StoredHandle(p.sessions, h)))
    case Using(c, r, h) =>
      p' == Moved(p, i, Finished) || p' == Moved(p, i, ExecFailed(c, r, h))
    case ExecFailed(c, r, h) =>
      p' == Ran(p, i, Invalidated(p.sessions, c.connectionId, h.session), if r then Connecting(c, false) else Finished)
    case InvalidatingConnection(id) => p' == Ran(p, i, Removed(p.sessions, id), Finished)
    case TimerFired(h) =>
      || p' == Moved(p, i, Finished)
      || p' == Ran(p, i, Invalidated(p.sessions, h.connectionId, h.session), Finished)
    case Closing(pending, next) =>
      if pending == [] then p' == Moved(p, i, next)
      else p' == Moved(p, i, Closing(pending[1..], next)).(closed := p.closed + multiset{pending[0].session})
  }

  function Count(b: bool): nat {
    if b then 1 else 0
  }

  /** How many of the handles are for session `x`. */
  function InHandles(handles: seq<Handle>, x: SessionId): nat {
    if handles == [] then 0 else Count(handles[0].session == x) + InHandles(handles[1..], x)
  }

  /** How often a task answers for session `x`: because it has just opened it, or still has to close it. */
  function OwedBy(task: Task, x: SessionId): nat {
    match task
    case Opened(_, _, s) => Count(s == x)
    case Storing(_, _, s) => Count(s == x)
    case Closing(pending, next) => InHandles(pending, x) + OwedBy(next, x)
    case _ => 0
  }

  function OwedByAll(tasks: seq<Task>, x: SessionId): nat {
    if tasks == [] then 0 else OwedBy(tasks[0], x) + OwedByAll(tasks[1..], x)
  }

  /** Each entry is filed under its own connection id, and no two entries share a session. */
  ghost predicate Filed(sessions: Sessions) {
    && (forall id :: id in sessions ==> sessions[id].connectionId == id)
    && (forall a, b :: a in sessions && b in sessions && a != b ==> sessions[a].session != sessions[b].session)
  }

  ghost predicate Mapped(sessions: Sessions, x: SessionId) {
    exists id :: id in sessions && sessions[id].session == x
  }

  /** In how many places session `x` is: with its tasks, in the map, or closed, counted with repetition. */
  ghost function Places(p: Pool, x: SessionId): nat {
    OwedByAll(p.tasks, x) + Count(Mapped(p.sessions, x)) + p.closed[x]
  }

  /** Conservation: every connected session is in exactly one place, once, and nothing else is anywhere. */
  ghost predicate Conserved(p: Pool) {
    Filed(p.sessions) && forall x :: Places(p, x) == Count(x in p.connected)
  }

  lemma {:induction false} OwedUpdate(tasks: seq<Task>, i: nat, task: Task, x: SessionId)
    requires i < |tasks|
    ensures OwedByAll(tasks[i := task], x) + OwedBy(tasks[i], x) == OwedByAll(tasks, x) + OwedBy(task, x)
  {
    if i > 0 {
      assert tasks[i := task][1..] == tasks[1..][i - 1 := task];
      OwedUpdate(tasks[1..], i - 1, task, x);
    } else {
      assert tasks[0 := task][1..] == tasks[1..];
    }
  }

  /** A lock section moves session `x` between the map and its caller's hands, and loses nothing. */
  ghost predicate Balanced(sessions: Sessions, added: nat, section: Section, x: SessionId) {
    Count(Mapped(section.sessions, x)) + InHandles(section.owed, x) == Count(Mapped(sessions, x)) + added
  }

  lemma RemovedBalanced(sessions: Sessions, id: ConnectionId, x: SessionId)
    requires Filed(sessions)
    ensures Filed(Removed(sessions, id).sessions) && Balanced(sessions, 0, Removed(sessions, id), x)
  {
    var after := Removed(sessions, id).sessions;
    if Mapped(sessions, x) {
      var a :| a in sessions && sessions[a].session == x;
      assert a != id ==> a in after && after[a].session == x;
    }
  }

  lemma StoredBalanced(sessions: Sessions, h: Handle, x: SessionId)
    requires Filed(sessions) && !Mapped(sessions, h.session)
    ensures Filed(Stored(sessions, h).sessions) && Balanced(sessions, Count(h.session == x), Stored(sessions, h), x)
  {
    var after := Stored(sessions, h).sessions;
    if Mapped(sessions, x) {
      var a :| a in sessions && sessions[a].session == x;
      assert a != h.connectionId ==> a in after && after[a].session == x;
    }
    if h.connectionId in after && after[h.connectionId] == h {
      assert Mapped(after, h.session);
    }
  }

  lemma {:induction false} InHandlesConcat(a: seq<Handle>, b: seq<Handle>, x: SessionId)
    ensures InHandles(a + b, x) == InHandles(a, x) + InHandles(b, x)
  {
    if a == [] {
      assert a + b == b;
    } else {
      assert (a + b)[1..] == a[1..] + b;
      InHandlesConcat(a[1..], b, x);
    }
  }

  lemma {:induction false} EvictedBalanced(sessions: Sessions, ids: seq<ConnectionId>, x: SessionId)
    requires Filed(sessions)
    ensures Filed(Evicted(sessions, ids).sessions) && Balanced(sessions, 0, Evicted(sessions, ids), x)
    decreases |ids|
  {
    if ids != [] {
      var before := Evicted(sessions, ids[..|ids| - 1]);
      EvictedBalanced(sessions, ids[..|ids| - 1], x);
      RemovedBalanced(before.sessions, ids[|ids| - 1], x);
      InHandlesConcat(before.owed, Removed(before.sessions, ids[|ids| - 1]).owed, x);
    }
  }

  /** A task that hands what it gives up to a balanced section keeps every session accounted for. */
  lemma RanConserves(p: Pool, i: nat, section: Section, next: Task)
    requires Conserved(p) && i < |p.tasks| && Filed(section.sessions)
    requires forall x :: OwedBy(next, x) <= OwedBy(p.tasks[i], x)
    requires forall x :: Balanced(p.sessions, OwedBy(p.tasks[i], x) - OwedBy(next, x), section, x)
    ensures Conserved(Ran(p, i, section, next))
  {
    var p' := Ran(p, i, section, next);
    forall x ensures Places(p', x) == Count(x in p'.connected) {
      OwedUpdate(p.tasks, i, Closing(section.owed, next), x);
      assert Places(p, x) == Count(x in p.connected);
      assert Balanced(p.sessions, OwedBy(p.tasks[i], x) - OwedBy(next, x), section, x);
    }
  }

  lemma MovedConserves(p: Pool, i: nat, task: Task)
    requires Conserved(p) && i < |p.tasks|
    requires forall x :: OwedBy(task, x) == OwedBy(p.tasks[i], x)
    ensures Conserved(Moved(p, i, task))
  {
    forall x ensures Places(Moved(p, i, task), x) == Count(x in p.connected) {
      OwedUpdate(p.tasks, i, task, x);
      assert Places(p, x) == Count(x in p.connected);
    }
  }

  lemma {:induction false} OwedWithin(tasks: seq<Task>, i: nat, x: SessionId)
    requires i < |tasks|
    ensures OwedBy(tasks[i], x) <= OwedByAll(tasks, x)
  {
    if i > 0 {
      OwedWithin(tasks[1..], i - 1, x);
    }
  }

  lemma RemovalConserves(p: Pool, i: nat, id: ConnectionId, next: Task)
    requires Conserved(p) && i < |p.tasks|
    requires forall x :: OwedBy(next, x) == 0 && OwedBy(p.tasks[i], x) == 0
    ensures Conserved(Ran(p, i, Removed(p.sessions, id), next))
    ensures Conserved(Ran(p, i, Section(p.sessions, []), next))
  {
    forall x ensures Balanced(p.sessions, OwedBy(p.tasks[i], x) - OwedBy(next, x), Removed(p.sessions, id), x) {
      RemovedBalanced(p.sessions, id, x);
    }
    RemovedBalanced(p.sessions, id, 0);
    RanConserves(p, i, Removed(p.sessions, id), next);
    RanConserves(p, i, Section(p.sessions, []), next);
  }

  lemma EvictionConserves(p: Pool, i: nat, evicted: seq<ConnectionId>)
    requires Conserved(p) && i < |p.tasks| && p.tasks[i].Opened?
    ensures var task := p.tasks[i];
      Conserved(Ran(p, i, Evicted(p.sessions, evicted), Storing(task.config, task.retry, task.session)))
  {
    var task := p.tasks[i];
    var next := Storing(task.config, task.retry, task.session);
    forall x ensures Balanced(p.sessions, OwedBy(task, x) - OwedBy(next, x), Evicted(p.sessions, evicted), x) {
      EvictedBalanced(p.sessions, evicted, x);
    }
    EvictedBalanced(p.sessions, evicted, 0);
    RanConserves(p, i, Evicted(p.sessions, evicted), next);
  }

  lemma StoreConserves(p: Pool, i: nat, next: Task)
    requires Conserved(p) && i < |p.tasks| && p.tasks[i].Storing? && next.Using?
    ensures var task := p.tasks[i];
            var h := Handle(task.config.signature, task.config.connectionId, task.session);
            Conserved(Ran(p, i, Stored(p.sessions, h), next))
  {
    var task := p.tasks[i];
    var h := Handle(task.config.signature, task.config.connectionId, task.session);
    OwedWithin(p.tasks, i, h.session);
    assert Places(p, h.session) == Count(h.session in p.connected);
    forall x ensures Balanced(p.sessions, OwedBy(task, x) - OwedBy(next, x), Stored(p.sessions, h), x) {
      StoredBalanced(p.sessions, h, x);
    }
    StoredBalanced(p.sessions, h, 0);
    RanConserves(p, i, Stored(p.sessions, h), next);
  }

  lemma ConnectConserves(p: Pool, i: nat, task: Task)
    requires Conserved(p) && i < |p.tasks| && p.tasks[i].Connecting?
    requires task.Opened? && task.session !in p.connected
    ensures Conserved(Moved(p, i, task).(connected := p.connected + {task.session}))
  {
    var p' := Moved(p, i, task).(connected := p.connected + {task.session});
    forall x ensures Places(p', x) == Count(x in p'.connected) {
      OwedUpdate(p.tasks, i, task, x);
      assert Places(p, x) == Count(x in p.connected);
    }
  }

  lemma CloseConserves(p: Pool, i: nat)
    requires Conserved(p) && i < |p.tasks| && p.tasks[i].Closing? && p.tasks[i].pending != []
    ensures var task := p.tasks[i];
            var closed := p.closed + multiset{task.pending[0].session};
            Conserved(Moved(p, i, Closing(task.pending[1..], task.next)).(closed := closed))
  {
    var task := p.tasks[i];
    var next := Closing(task.pending[1..], task.next);
    var p' := Moved(p, i, next).(closed := p.closed + multiset{task.pending[0].session});
    forall x ensures Places(p', x) == Count(x in p'.connected) {
      OwedUpdate(p.tasks, i, next, x);
      assert Places(p, x) == Count(x in p.connected);
    }
  }

  /** Every step of every task keeps every session in exactly one place. */
  lemma StepConserves(max: nat, p: Pool, i: nat, p': Pool)
    requires Conserved(p) && Step(max, p, i, p')
    ensures Conserved(p')
  {
    hide Conserved, Evicts;
    match p.tasks[i]
    case Finished => MovedConserves(p, i, p'.tasks[i]);
    case Start(c, r) => MovedConserves(p, i, p'.tasks[i]);
    case PruningIdle(c, r, snapshot) =>
      if snapshot == [] || p' == Moved(p, i, PruningIdle(c, r, snapshot[1..])) {
        MovedConserves(p, i, p'.tasks[i]);
      } else {
        RemovalConserves(p, i, snapshot[0].connectionId, PruningIdle(c, r, snapshot[1..]));
      }
    case LookingUp(c, r) => MovedConserves(p, i, p'.tasks[i]);
    case Stale(c, r, h) => RemovalConserves(p, i, c.connectionId, Connecting(c, r));
    case Connecting(c, r) =>
      if p' == Moved(p, i, Finished) {
        MovedConserves(p, i, Finished);
      } else {
        ConnectConserves(p, i, p'.tasks[i]);
      }
    case Opened(c, r, s) =>
      var evicted :| Evicts(p.sessions, c.connectionId, max, evicted)
        && p' == Ran(p, i, Evicted(p.sessions, evicted), Storing(c, r, s));
      EvictionConserves(p, i, evicted);
    case Storing(c, r, s) =>
      StoreConserves(p, i, Using(c, r, StoredHandle(p.sessions, Handle(c.signature, c.connectionId, s))));
    case Using(c, r, h) => MovedConserves(p, i, p'.tasks[i]);
    case ExecFailed(c, r, h) => RemovalConserves(p, i, c.connectionId, if r then Connecting(c, false) else Finished);
    case InvalidatingConnection(id) => RemovalConserves(p, i, id, Finished);
    case TimerFired(h) =>
      if p' == Moved(p, i, Finished) {
        MovedConserves(p, i, Finished);
      } else {
        RemovalConserves(p, i, h.connectionId, Finished);
      }
    case Closing(pending, next) =>
      if pending == [] {
        MovedConserves(p, i, next);
      } else {
        CloseConserves(p, i);
      }
  }

  /** A run: each state follows from the one before by a step of some task. */
  ghost predicate IsRun(max: nat, run: seq<Pool>) {
    && |run| > 0
    && Initial(run[0])
    && forall k :: 0 < k < |run| ==> SomeStep(max, run[k - 1], run[k])
  }

  ghost predicate SomeStep(max: nat, p: Pool, p': Pool) {
    exists i: nat :: Step(max, p, i, p')
  }

  ghost predicate Initial(p: Pool) {
    p.sessions == map[] && p.connected == {} && p.closed == multiset{} && forall t :: t in p.tasks ==> t == Finished
  }

  lemma {:induction false} NothingOwed(tasks: seq<Task>, x: SessionId)
    requires forall t :: t in tasks ==> t == Finished
    ensures OwedByAll(tasks, x) == 0
  {
    if tasks != [] {
      assert tasks[0] in tasks;
      assert forall t :: t in tasks[1..] ==> t in tasks;
      NothingOwed(tasks[1..], x);
    }
  }

  /** In every state of every interleaving each connected session is in exactly one place. */
  lemma {:induction false} RunConserves(max: nat, run: seq<Pool>, k: nat)
    requires IsRun(max, run) && k < |run|
    ensures Conserved(run[k])
  {
    if k == 0 {
      forall x ensures Places(run[0], x) == 0 {
        NothingOwed(run[0].tasks, x);
      }
    } else {
      RunConserves(max, run, k - 1);
      var i: nat :| Step(max, run[k - 1], i, run[k]);
      StepConserves(max, run[k - 1], i, run[k]);
    }
  }

  /** No session is closed twice, none that the map still offers is closed, and once all tasks are
      finished every connected session is in the map or has been closed. */
  lemma SessionsAccountedFor(max: nat, run: seq<Pool>, k: nat)
    requires IsRun(max, run) && k < |run|
    ensures var p := run[k];
      && (forall x :: p.closed[x] <= 1)
      && (forall id :: id in p.sessions ==>
            p.sessions[id].session in p.connected && p.sessions[id].session !in p.closed)
      && ((forall t :: t in p.tasks ==> t == Finished) ==>
            forall x :: x in p.connected ==> Mapped(p.sessions, x) || p.closed[x] == 1)
  {
    RunConserves(max, run, k);
    var p := run[k];
    forall x ensures p.closed[x] <= 1 && (Mapped(p.sessions, x) ==> x in p.connected && x !in p.closed) {
      assert Places(p, x) == Count(x in p.connected);
    }
    forall id | id in p.sessions ensures Mapped(p.sessions, p.sessions[id].session) {}
    if forall t :: t in p.tasks ==> t == Finished {
      forall x | x in p.connected ensures Mapped(p.sessions, x) || p.closed[x] == 1 {
        NothingOwed(p.tasks, x);
        assert Places(p, x) == 1;
      }
    }
  }

  /** A task that is running `exec`, as opposed to a timer or an explicit invalidation. */
  predicate IsCaller(task: Task) {
    match task
    case Closing(_, next) => IsCaller(next)
    case _ => !task.Finished? && !task.InvalidatingConnection? && !task.TimerFired?
  }

  /** A caller that has pruned for capacity and has not yet stored its session. */
  predicate IsStoring(task: Task) {
    match task
    case Closing(_, next) => IsStoring(next)
    case _ => task.Storing?
  }

  function Callers(tasks: seq<Task>): nat {
    if tasks == [] then 0 else Count(IsCaller(tasks[0])) + Callers(tasks[1..])
  }

  function StoringTasks(tasks: seq<Task>): nat {
    if tasks == [] then 0 else Count(IsStoring(tasks[0])) + StoringTasks(tasks[1..])
  }

  lemma {:induction false} StoringUpdate(tasks: seq<Task>, i: nat, task: Task)
    requires i < |tasks|
    ensures StoringTasks(tasks[i := task]) + Count(IsStoring(tasks[i])) == StoringTasks(tasks) + Count(IsStoring(task))
  {
    if i > 0 {
      assert tasks[i := task][1..] == tasks[1..][i - 1 := task];
      StoringUpdate(tasks[1..], i - 1, task);
    } else {
      assert tasks[0 := task][1..] == tasks[1..];
    }
  }

  lemma StoringIsCaller(task: Task)
    ensures IsStoring(task) ==> IsCaller(task)
  {
  }

  lemma {:induction false} StoringWithinCallers(tasks: seq<Task>)
    ensures StoringTasks(tasks) <= Callers(tasks)
  {
    if tasks != [] {
      StoringIsCaller(tasks[0]);
      StoringWithinCallers(tasks[1..]);
    }
  }

  lemma {:induction false} EvictedSize(sessions: Sessions, ids: seq<ConnectionId>)
    requires forall i :: 0 <= i < |ids| ==> ids[i] in sessions
    requires forall i, j :: 0 <= i < j < |ids| ==> ids[i] != ids[j]
    ensures |Evicted(sessions, ids).sessions| == |sessions| - |ids|
    ensures forall id :: id in sessions && id !in ids ==> id in Evicted(sessions, ids).sessions
    decreases |ids|
  {
    if ids != [] {
      var init, last := ids[..|ids| - 1], ids[|ids| - 1];
      EvictedSize(sessions, init);
      assert last !in init;
      var before := Evicted(sessions, init).sessions;
      assert |before - {last}| == |before| - 1 by {
        assert (before - {last}).Keys == before.Keys - {last};
      }
    }
  }

  /** Pruning for capacity makes room for one. */
  lemma EvictsMakesRoom(sessions: Sessions, active: ConnectionId, max: nat, evicted: seq<ConnectionId>)
    requires max >= 2 && Evicts(sessions, active, max, evicted)
    ensures |Evicted(sessions, evicted).sessions| <= max - 1
  {
    EvictedSize(sessions, evicted);
    assert |sessions.Keys - {active}| >= |sessions| - 1 by {
      if active in sessions {
        assert sessions.Keys == (sessions.Keys - {active}) + {active};
      } else {
        assert sessions.Keys == sessions.Keys - {active};
      }
    }
  }

  lemma RemovalShrinks(sessions: Sessions, id: ConnectionId, session: SessionId)
    ensures |Removed(sessions, id).sessions| <= |sessions|
    ensures |Invalidated(sessions, id, session).sessions| <= |sessions|
  {
    if id in sessions {
      assert (sessions - {id}).Keys == sessions.Keys - {id};
    }
  }

  lemma StoredGrows(sessions: Sessions, h: Handle)
    ensures |Stored(sessions, h).sessions| <= |sessions| + 1
  {
    assert sessions[h.connectionId := h].Keys == sessions.Keys + {h.connectionId};
  }

  /** The capacity invariant: the map and those about to store fit together. */
  ghost predicate WithinCapacity(max: nat, callers: nat, p: Pool) {
    |p.sessions| + StoringTasks(p.tasks) <= max - 1 + callers
  }

  lemma StepWithinCapacity(max: nat, callers: nat, p: Pool, i: nat, p': Pool)
    requires max >= 2 && WithinCapacity(max, callers, p) && Step(max, p, i, p') && Callers(p'.tasks) <= callers
    ensures WithinCapacity(max, callers, p')
  {
    StoringUpdate(p.tasks, i, p'.tasks[i]);
    assert p'.tasks == p.tasks[i := p'.tasks[i]];
    hide StoringTasks, Callers;
    if p.tasks[i].Opened? {
      var task := p.tasks[i];
      hide Evicts, Evicted;
      var evicted :| Evicts(p.sessions, task.config.connectionId, max, evicted)
        && p' == Ran(p, i, Evicted(p.sessions, evicted), Storing(task.config, task.retry, task.session));
      EvictsMakesRoom(p.sessions, task.config.connectionId, max, evicted);
      StoringWithinCallers(p'.tasks);
    } else {
      OtherStepsShrink(max, p, i, p');
      hide Step;
    }
  }

  /** Only the storing section makes the map larger, and it ends a storing task. */
  lemma OtherStepsShrink(max: nat, p: Pool, i: nat, p': Pool)
    requires Step(max, p, i, p') && !p.tasks[i].Opened?
    ensures |p'.sessions| + Count(IsStoring(p'.tasks[i])) <= |p.sessions| + Count(IsStoring(p.tasks[i]))
  {
    hide Evicts, Evicted, Removed, Invalidated, Stored, StoredHandle;
    var task := p.tasks[i];
    if task.Storing? {
      StoredGrows(p.sessions, Handle(task.config.signature, task.config.connectionId, task.session));
    } else if task.PruningIdle? && task.snapshot != [] {
      RemovalShrinks(p.sessions, task.snapshot[0].connectionId, task.snapshot[0].session);
    } else if task.Stale? || task.ExecFailed? {
      RemovalShrinks(p.sessions, task.config.connectionId, task.handle.session);
    } else if task.InvalidatingConnection? {
      RemovalShrinks(p.sessions, task.connectionId, 0);
    } else if task.TimerFired? {
      RemovalShrinks(p.sessions, task.handle.connectionId, task.handle.session);
    }
  }

  /** With a limit of at least two and at most `callers` concurrent callers, the pool never holds more
      than the limit less one plus the callers; for a single caller, that is the limit. */
  lemma {:induction false} CapacityBound(max: nat, callers: nat, run: seq<Pool>, k: nat)
    requires max >= 2 && IsRun(max, run) && k < |run|
    requires forall j :: 0 <= j < |run| ==> Callers(run[j].tasks) <= callers
    ensures WithinCapacity(max, callers, run[k])
    ensures |run[k].sessions| <= max - 1 + callers
    decreases k
  {
    if k == 0 {
      StoringWithinCallers(run[0].tasks);
    } else {
      CapacityBound(max, callers, run, k - 1);
      var i: nat :| Step(max, run[k - 1], i, run[k]);
      StepWithinCapacity(max, callers, run[k - 1], i, run[k]);
    }
  }

  /** A task only ever uses a session that was opened for its own connection and configuration. */
  predicate Matches(task: Task) {
    match task
    case Using(c, _, h) => h.connectionId == c.connectionId && h.signature == c.signature
    case ExecFailed(c, _, h) => h.connectionId == c.connectionId && h.signature == c.signature
    case Closing(_, next) => Matches(next)
    case _ => true
  }

  ghost predicate AllMatch(p: Pool) {
    Filed(p.sessions) && forall i :: 0 <= i < |p.tasks| ==> Matches(p.tasks[i])
  }

  lemma StepMatches(max: nat, p: Pool, i: nat, p': Pool)
    requires AllMatch(p) && Conserved(p') && Step(max, p, i, p')
    ensures AllMatch(p')
  {
    hide Places;
    NextMatches(max, p, i, p');
    assert p'.tasks == p.tasks[i := p'.tasks[i]];
    hide Step;
  }

  lemma NextMatches(max: nat, p: Pool, i: nat, p': Pool)
    requires AllMatch(p) && Step(max, p, i, p')
    ensures Matches(p'.tasks[i])
  {
    hide Evicts, Evicted, Removed, Invalidated, Stored;
    assert Matches(p.tasks[i]);
    match p.tasks[i]
    case Finished => assert Begins(p'.tasks[i]);
    case LookingUp(c, r) =>
    case Storing(c, r, s) =>
    case Using(c, r, h) =>
    case Closing(pending, next) =>
    case _ =>
  }

  /** Also after a lost connect race, the session a caller runs its command on carries the caller's own
      configuration signature. */
  lemma {:induction false} HandlesMatch(max: nat, run: seq<Pool>, k: nat)
    requires IsRun(max, run) && k < |run|
    ensures AllMatch(run[k])
  {
    RunConserves(max, run, k);
    if k == 0 {
      forall i | 0 <= i < |run[0].tasks| ensures Matches(run[0].tasks[i]) {
        assert run[0].tasks[i] in run[0].tasks;
      }
    } else {
      HandlesMatch(max, run, k - 1);
      var i: nat :| Step(max, run[k - 1], i, run[k]);
      StepMatches(max, run[k - 1], i, run[k]);
    }
  }

  // ---- one entry under one step ----

  /** The task is about to give up session `s` of connection `id`. */
  predicate GivesUp(task: Task, id: ConnectionId, s: SessionId) {
    match task
    case PruningIdle(_, _, snapshot) => snapshot != [] && snapshot[0].connectionId == id && snapshot[0].session == s
    case Stale(c, _, h) => c.connectionId == id && h.session == s
    case ExecFailed(c, _, h) => c.connectionId == id && h.session == s
    case TimerFired(h) => h.connectionId == id && h.session == s
    case _ => false
  }

  /** Pointer identity decides: a task that gives up a session leaves every entry with another session alone, a newer
      one under the same id first; if it runs its section, the session is gone from that id and owed a close. */
  lemma GivingUpIsExact(max: nat, p: Pool, i: nat, p': Pool, id: ConnectionId, s: SessionId)
    requires Step(max, p, i, p') && GivesUp(p.tasks[i], id, s)
    ensures forall other :: other in p'.sessions ==>
              other in p.sessions && p'.sessions[other] == p.sessions[other]
    ensures forall other :: other in p.sessions && !(other == id && p.sessions[other].session == s) ==>
              other in p'.sessions
    ensures p'.tasks[i].Closing? ==>
              && (id in p'.sessions ==> p'.sessions[id].session != s)
              && p'.tasks[i].pending ==
                 (if id in p.sessions && p.sessions[id].session == s then [p.sessions[id]] else [])
    ensures p.tasks[i].Stale? || p.tasks[i].ExecFailed? ==> p'.tasks[i].Closing?
  {
    hide Evicts, Evicted, Stored, StoredHandle;
  }

  /** A stored session replaces one with another configuration; one with the same configuration stays, is used, and the
      new session is owed a close. */
  lemma StoringIsExact(max: nat, p: Pool, i: nat, p': Pool)
    requires Step(max, p, i, p') && p.tasks[i].Storing?
    ensures var Storing(c, r, s) := p.tasks[i];
            var h := Handle(c.signature, c.connectionId, s);
            var id := c.connectionId;
            if id in p.sessions && p.sessions[id].signature == c.signature then
              p'.sessions == p.sessions && p'.tasks[i] == Closing([h], Using(c, r, p.sessions[id]))
            else
              && p'.sessions == p.sessions[id := h]
              && p'.tasks[i] == Closing(if id in p.sessions then [p.sessions[id]] else [], Using(c, r, h))
  {
    hide Evicts, Evicted, Removed, Invalidated;
  }

  lemma {:induction false} EvictedExactly(sessions: Sessions, ids: seq<ConnectionId>)
    requires forall k :: 0 <= k < |ids| ==> ids[k] in sessions
    requires forall j, k :: 0 <= j < k < |ids| ==> ids[j] != ids[k]
    ensures Evicted(sessions, ids).sessions == sessions - (set id | id in ids)
    ensures |Evicted(sessions, ids).owed| == |ids|
    ensures forall k :: 0 <= k < |ids| ==> Evicted(sessions, ids).owed[k] == sessions[ids[k]]
    decreases |ids|
  {
    if ids != [] {
      var init, last := ids[..|ids| - 1], ids[|ids| - 1];
      EvictedExactly(sessions, init);
      assert last !in init;
      assert (set id | id in ids) == (set id | id in init) + {last};
    }
  }

  /** Before a caller stores, the pool is cut to one less than the limit, or to the caller's own entry; below the limit
      nothing goes. Every session that goes is owed a close. */
  lemma EvictionIsExact(max: nat, p: Pool, i: nat, p': Pool)
    requires Step(max, p, i, p') && p.tasks[i].Opened?
    ensures var active := p.tasks[i].config.connectionId;
            && (forall id :: id in p'.sessions ==> id in p.sessions && p'.sessions[id] == p.sessions[id])
            && (active in p.sessions ==> active in p'.sessions)
            && (max == 0 || |p.sessions| < max ==> p'.sessions == p.sessions)
            && (0 < max <= |p.sessions| ==> |p'.sessions| == max - 1 || (max == 1 && p'.sessions.Keys == {active}))
            && p'.tasks[i].Closing?
            && (forall id :: id in p.sessions && id !in p'.sessions ==> p.sessions[id] in p'.tasks[i].pending)
            && (forall h :: h in p'.tasks[i].pending ==> h in p.sessions.Values)
  {
    hide Step, Evicts, Evicted;
    var evicted := OpenedEvicts(max, p, i, p');
    EvictsExactly(p.sessions, p.tasks[i].config.connectionId, max, evicted);
    OwedAre(p.sessions, evicted, p'.tasks[i].pending);
  }

  lemma OpenedEvicts(max: nat, p: Pool, i: nat, p': Pool) returns (evicted: seq<ConnectionId>)
    requires Step(max, p, i, p') && p.tasks[i].Opened?
    ensures i < |p.tasks| && Evicts(p.sessions, p.tasks[i].config.connectionId, max, evicted)
    ensures var task := p.tasks[i];
            p' == Ran(p, i, Evicted(p.sessions, evicted), Storing(task.config, task.retry, task.session))
  {
    hide Evicts, Evicted;
    var Opened(c, r, s) := p.tasks[i];
    evicted :| Evicts(p.sessions, c.connectionId, max, evicted)
      && p' == Ran(p, i, Evicted(p.sessions, evicted), Storing(c, r, s));
  }

  lemma OwedAre(sessions: Sessions, evicted: seq<ConnectionId>, owed: seq<Handle>)
    requires |owed| == |evicted|
    requires forall k :: 0 <= k < |evicted| ==> evicted[k] in sessions && owed[k] == sessions[evicted[k]]
    ensures forall id :: id in sessions && id in evicted ==> sessions[id] in owed
    ensures forall h :: h in owed ==> h in sessions.Values
  {
    forall id | id in sessions && id in evicted ensures sessions[id] in owed {
      var k :| 0 <= k < |evicted| && evicted[k] == id;
      assert owed[k] == sessions[id];
    }
  }

  lemma EvictsExactly(sessions: Sessions, active: ConnectionId, max: nat, evicted: seq<ConnectionId>)
    requires Evicts(sessions, active, max, evicted)
    ensures var after := Evicted(sessions, evicted);
            && after.sessions == sessions - (set id | id in evicted)
            && |after.owed| == |evicted|
            && (forall k :: 0 <= k < |evicted| ==> evicted[k] in sessions && after.owed[k] == sessions[evicted[k]])
            && active !in evicted
            && (max == 0 || |sessions| < max ==> evicted == [])
            && (0 < max <= |sessions| ==> |after.sessions| == max - 1 || (max == 1 && after.sessions.Keys == {active}))
  {
    EvictedExactly(sessions, evicted);
    EvictedSize(sessions, evicted);
    var after := Evicted(sessions, evicted).sessions;
    if 0 < max <= |sessions| && |after| != max - 1 {
      assert sessions.Keys == (sessions.Keys - {active}) + (if active in sessions then {active} else {});
      assert |after.Keys| == 1 && active in after.Keys;
      var rest := after.Keys - {active};
      assert |rest| == 0;
      assert after.Keys == {active};
    }
  }

  /** The only reasons for an entry to go or change: its session is given up, its connection is invalidated, another
      connection's caller evicts it from a full pool, or a caller with another configuration replaces it. Whoever
      takes it owes it a close. */
  lemma EntryGoes(max: nat, p: Pool, i: nat, p': Pool, id: ConnectionId)
    requires Step(max, p, i, p') && id in p.sessions
    requires id in p'.sessions ==> p'.sessions[id] != p.sessions[id]
    ensures var task := p.tasks[i];
            var h := p.sessions[id];
            || GivesUp(task, id, h.session)
            || task == InvalidatingConnection(id)
            || (task.Opened? && task.config.connectionId != id && 0 < max <= |p.sessions|)
            || (task.Storing? && task.config.connectionId == id && task.config.signature != h.signature)
    ensures p'.tasks[i].Closing? && p.sessions[id] in p'.tasks[i].pending
  {
    var task := p.tasks[i];
    hide Step;
    if task.Opened? {
      EvictionIsExact(max, p, i, p');
    } else if task.Storing? {
      StoringIsExact(max, p, i, p');
    } else {
      OtherSections(max, p, i, p');
    }
  }

  /** What the remaining steps do to the map: nothing, the removal of one connection, or giving up a session. */
  lemma OtherSections(max: nat, p: Pool, i: nat, p': Pool)
    requires Step(max, p, i, p') && !p.tasks[i].Opened? && !p.tasks[i].Storing?
    ensures forall id :: id in p'.sessions ==> id in p.sessions && p'.sessions[id] == p.sessions[id]
    ensures forall id :: id in p.sessions && id !in p'.sessions ==>
              && (GivesUp(p.tasks[i], id, p.sessions[id].session) || p.tasks[i] == InvalidatingConnection(id))
              && p'.tasks[i].Closing? && p.sessions[id] in p'.tasks[i].pending
  {
    hide Evicts, Evicted, Stored, StoredHandle;
  }

  /** The only way for an entry to come: a caller stores the session that it opened for its own configuration. */
  lemma EntryComes(max: nat, p: Pool, i: nat, p': Pool, id: ConnectionId)
    requires Step(max, p, i, p') && id in p'.sessions
    requires id in p.sessions ==> p'.sessions[id] != p.sessions[id]
    ensures p.tasks[i].Storing? && p.tasks[i].config.connectionId == id
    ensures p'.sessions[id] == Handle(p.tasks[i].config.signature, id, p.tasks[i].session)
  {
    var task := p.tasks[i];
    hide Step;
    if task.Opened? {
      EvictionIsExact(max, p, i, p');
    } else if task.Storing? {
      StoringIsExact(max, p, i, p');
    } else {
      OtherSections(max, p, i, p');
    }
  }

  // ---- one call ----

  /** How often a task may still run its command. */
  function ExecsLeft(task: Task): nat {
    match task
    case Finished => 0
    case InvalidatingConnection(_) => 0
    case TimerFired(_) => 0
    case Closing(_, next) => ExecsLeft(next)
    case ExecFailed(_, retry, _) => Count(retry)
    case _ => 1 + Count(task.retry)
  }

  lemma StepSpendsExecs(max: nat, p: Pool, i: nat, p': Pool)
    requires Step(max, p, i, p') && !p.tasks[i].Finished?
    ensures ExecsLeft(p'.tasks[i]) + Count(p.tasks[i].Using?) <= ExecsLeft(p.tasks[i])
  {
    hide Evicts, Evicted, Removed, Invalidated, Stored, StoredHandle;
    if p.tasks[i].Opened? {
      var evicted := OpenedEvicts(max, p, i, p');
    } else if p.tasks[i].PruningIdle? || p.tasks[i].Closing? {
      assert p'.tasks[i].PruningIdle? || p'.tasks[i].LookingUp? || p'.tasks[i].Closing?
          || p'.tasks[i] == p.tasks[i].next;
    }
  }

  /** How often task `i` has run its command in a stretch of states: it leaves `Using` when the command returns. */
  ghost function ExecsOf(run: seq<Pool>, i: nat): nat
    requires forall k :: 0 <= k < |run| ==> i < |run[k].tasks|
  {
    if |run| < 2 then 0
    else Count(run[0].tasks[i].Using? && !run[1].tasks[i].Using?) + ExecsOf(run[1..], i)
  }

  lemma OthersKeepTask(max: nat, p: Pool, j: nat, p': Pool, i: nat)
    requires Step(max, p, j, p') && j != i && i < |p.tasks|
    ensures p'.tasks[i] == p.tasks[i]
  {
    hide Evicts, Evicted, Removed, Invalidated, Stored, StoredHandle;
  }

  /** A call runs its command at most twice, and at most once without a retry. */
  lemma {:induction false} ExecsBounded(max: nat, run: seq<Pool>, i: nat)
    requires run != [] && forall k :: 0 <= k < |run| ==> i < |run[k].tasks|
    requires forall k :: 0 < k < |run| ==> SomeStep(max, run[k - 1], run[k])
    requires forall k :: 0 <= k < |run| - 1 ==> !run[k].tasks[i].Finished?
    ensures ExecsOf(run, i) <= ExecsLeft(run[0].tasks[i]) <= 2
    ensures run[0].tasks[i].Start? && !run[0].tasks[i].retry ==> ExecsOf(run, i) <= 1
    decreases run
  {
    if |run| >= 2 {
      assert SomeStep(max, run[0], run[1]);
      var j: nat :| Step(max, run[0], j, run[1]);
      hide Step;
      if j == i {
        StepSpendsExecs(max, run[0], i, run[1]);
      } else {
        OthersKeepTask(max, run[0], j, run[1], i);
      }
      forall k | 0 < k < |run[1..]| ensures SomeStep(max, run[1..][k - 1], run[1..][k]) {
        assert SomeStep(max, run[k], run[k + 1]);
      }
      ExecsBounded(max, run[1..], i);
    }
    ExecsAtMostTwo(run[0].tasks[i]);
  }

  lemma ExecsAtMostTwo(task: Task)
    ensures ExecsLeft(task) <= 2
  {
  }

  /** Whose call a task is, if it is one. */
  function CallOf(task: Task): set<Config> {
    match task
    case Finished => {}
    case InvalidatingConnection(_) => {}
    case TimerFired(_) => {}
    case Closing(_, next) => CallOf(next)
    case _ => {task.config}
  }

  /** A call works for its own configuration from its start to its end. */
  lemma CallKeepsConfig(max: nat, p: Pool, i: nat, p': Pool)
    requires Step(max, p, i, p') && !p.tasks[i].Finished?
    ensures CallOf(p'.tasks[i]) <= CallOf(p.tasks[i])
  {
    hide Evicts, Evicted, Removed, Invalidated, Stored, StoredHandle;
    if p.tasks[i].Opened? {
      var evicted := OpenedEvicts(max, p, i, p');
    }
  }

  lemma {:induction false} SomeOf(ids: set<ConnectionId>, n: nat) returns (some: seq<ConnectionId>)
    requires n <= |ids|
    ensures |some| == n && forall k :: 0 <= k < n ==> some[k] in ids
    ensures forall j, k :: 0 <= j < k < n ==> some[j] != some[k]
  {
    some := [];
    if n > 0 {
      var id :| id in ids;
      some := SomeOf(ids - {id}, n - 1);
      some := some + [id];
    }
  }

  lemma SomethingToEvict(sessions: Sessions, active: ConnectionId, max: nat) returns (evicted: seq<ConnectionId>)
    ensures Evicts(sessions, active, max, evicted)
  {
    var others := sessions.Keys - {active};
    var surplus := Surplus(|sessions|, max);
    evicted := SomeOf(others, if surplus <= |others| then surplus else |others|);
  }

  /** No task is ever stuck: whatever the others have done, it can take its next step. */
  lemma NoTaskIsStuck(max: nat, p: Pool, i: nat) returns (p': Pool)
    requires i < |p.tasks|
    ensures Step(max, p, i, p')
  {
    hide Evicts, Evicted, Removed, Invalidated, Stored, StoredHandle;
    match p.tasks[i]
    case Finished => p' := Moved(p, i, TimerFired(Handle("", "", 0)));
    case Start(c, r) => p' := Moved(p, i, PruningIdle(c, r, []));
    case PruningIdle(c, r, snapshot) =>
      p' := Moved(p, i, if snapshot == [] then LookingUp(c, r) else PruningIdle(c, r, snapshot[1..]));
    case LookingUp(c, r) =>
      p' := Moved(p, i, if c.connectionId in p.sessions then Stale(c, r, p.sessions[c.connectionId])
                        else Connecting(c, r));
    case Stale(c, r, h) => p' := Ran(p, i, Invalidated(p.sessions, c.connectionId, h.session), Connecting(c, r));
    case Connecting(c, r) => p' := Moved(p, i, Finished);
    case Opened(c, r, s) =>
      var evicted := SomethingToEvict(p.sessions, c.connectionId, max);
      p' := Ran(p, i, Evicted(p.sessions, evicted), Storing(c, r, s));
    case Storing(c, r, s) =>
      var h := Handle(c.signature, c.connectionId, s);
      p' := Ran(p, i, Stored(p.sessions, h), Using(c, r, StoredHandle(p.sessions, h)));
    case Using(c, r, h) => p' := Moved(p, i, Finished);
    case ExecFailed(c, r, h) =>
      p' := Ran(p, i, Invalidated(p.sessions, c.connectionId, h.session),
                if r then Connecting(c, false) else Finished);
    case InvalidatingConnection(id) => p' := Ran(p, i, Removed(p.sessions, id), Finished);
    case TimerFired(h) => p' := Moved(p, i, Finished);
    case Closing(pending, next) =>
      p' := if pending == [] then Moved(p, i, next)
            else Moved(p, i, Closing(pending[1..], next)).(closed := p.closed + multiset{pending[0].session});
  }
}
