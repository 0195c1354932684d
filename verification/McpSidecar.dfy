/** The remote MCP sidecar: one recorded child, several callers, and processes that may exit or get lost. */
module McpSidecar {
  import opened Common

  type Pid = nat

  const REMOTE_HEALTH_FAILURE_THRESHOLD: nat := 3
  const MAX_COUNT: nat := 0xFFFF_FFFF

  /** The settings a section looks at; `signature` is what `remote_service_signature` makes of them. */
  datatype Settings = Settings(remoteEnabled: bool, tokenHash: Option<string>, signature: string)

  datatype Runtime = Runtime(
    child: Option<Pid>,
    signature: Option<string>,
    consecutiveFailures: nat,
    restartCount: nat,
    healthy: bool,
    updatePreparing: bool,
    shuttingDown: bool)

  /** The runtime beside the processes it is about: those alive, those whose handle was dropped because asking
      for their state failed, and all process ids given out so far. */
  datatype World = World(runtime: Runtime, live: set<Pid>, lost: set<Pid>, used: set<Pid>)

  const START := World(Runtime(None, None, 0, 0, false, false, false), {}, {}, {})

  /** The answer of `try_wait`. */
  datatype Poll = StillRunning | Exited | PollFailed

  /** The sections under the lock, and a process exiting on its own. `restart` is `Stop` and then `Reconcile`,
      with anything in between. */
  datatype Event =
    | Reconcile(settings: Settings, poll: Poll, spawned: Option<Pid>)
    | Status(settings: Settings, poll: Poll)
    | Stop
    | MarkHealth(healthy: bool)
    | MarkAutomaticRestart
    | Shutdown
    | PrepareForUpdate
    | ResumeAfterUpdateFailure
    | Exit(pid: Pid)

  function Increment(n: nat): nat {
    if n < MAX_COUNT then n + 1 else n
  }

  /** `refresh_remote_child`. */
  function Refreshed(w: World, remoteEnabled: bool, poll: Poll): World {
    if w.runtime.child.None? || poll == StillRunning then w
    else
      w.(runtime := w.runtime.(
           child := None,
           signature := None,
           healthy := w.runtime.healthy && poll == Exited && !remoteEnabled),
         lost := if poll == PollFailed then w.lost + {w.runtime.child.value} else w.lost)
  }

  /** `stop_remote_child`: kill, then wait. */
  function Killed(w: World): World {
    w.(runtime := w.runtime.(child := None, signature := None),
       live := if w.runtime.child.Some? then w.live - {w.runtime.child.value} else w.live)
  }

  function Spawned(w: World, settings: Settings, pid: Pid): World {
    w.(runtime := w.runtime.(
         child := Some(pid),
         signature := Some(settings.signature),
         consecutiveFailures := 0,
         healthy := true),
       live := w.live + {pid},
       used := w.used + {pid})
  }

  predicate Wanted(w: World, settings: Settings) {
    !w.runtime.shuttingDown && settings.remoteEnabled && settings.tokenHash.Some?
  }

  function Reconciled(w: World, settings: Settings, poll: Poll, spawned: Option<Pid>): World {
    var now := Refreshed(w, settings.remoteEnabled, poll);
    if !Wanted(now, settings) then Killed(now)
    else if now.runtime.child.Some? && now.runtime.signature == Some(settings.signature) then now
    else if spawned.None? then Killed(now)
    else Spawned(Killed(now), settings, spawned.value)
  }

  function Next(w: World, event: Event): World {
    match event
    case Reconcile(settings, poll, spawned) => Reconciled(w, settings, poll, spawned)
    case Status(settings, poll) => Refreshed(w, settings.remoteEnabled, poll)
    case Stop => Killed(w)
    case MarkHealth(healthy) =>
      w.(runtime := w.runtime.(
           healthy := healthy,
           consecutiveFailures := if healthy then 0 else Increment(w.runtime.consecutiveFailures)))
    case MarkAutomaticRestart =>
      w.(runtime := w.runtime.(restartCount := Increment(w.runtime.restartCount), consecutiveFailures := 0))
    case Shutdown =>
      var stopped := Killed(w);
      stopped.(runtime := stopped.runtime.(shuttingDown := true, healthy := false))
    case PrepareForUpdate =>
      var stopped := Killed(w);
      stopped.(runtime := stopped.runtime.(updatePreparing := true, healthy := false))
    case ResumeAfterUpdateFailure => w.(runtime := w.runtime.(updatePreparing := false))
    case Exit(pid) => w.(live := w.live - {pid})
  }

  /** What the system can answer: `try_wait` does not lie, and process ids are new. */
  predicate Truthful(w: World, poll: Poll) {
    w.runtime.child.Some? ==>
      && (poll == Exited ==> w.runtime.child.value !in w.live)
      && (poll == StillRunning ==> w.runtime.child.value in w.live)
  }

  predicate Possible(w: World, event: Event) {
    match event
    case Reconcile(_, poll, spawned) => Truthful(w, poll) && (spawned.Some? ==> spawned.value !in w.used)
    case Status(_, poll) => Truthful(w, poll)
    case Exit(pid) => pid in w.live
    case _ => true
  }

  predicate PollFails(w: World, event: Event) {
    && w.runtime.child.Some?
    && ((event.Reconcile? && event.poll == PollFailed) || (event.Status? && event.poll == PollFailed))
  }

  /** A child is recorded exactly when a signature is; whatever is alive is the recorded child or was lost; and
      nothing is recorded any more once shutting down. */
  predicate Sound(w: World) {
    && (w.runtime.child.Some? <==> w.runtime.signature.Some?)
    && w.live <= w.lost + (if w.runtime.child.Some? then {w.runtime.child.value} else {})
    && (w.runtime.child.Some? ==> w.runtime.child.value in w.used && w.runtime.child.value !in w.lost)
    && w.lost <= w.used
    && (w.runtime.shuttingDown ==> w.runtime.child.None?)
  }

  lemma StepKeepsSound(w: World, event: Event)
    requires Sound(w) && Possible(w, event)
    ensures Sound(Next(w, event))
  {
  }

  /** A new child appears only when the old one is not alive any more, or was lost. */
  lemma SpawnsAfterTheOldOne(w: World, event: Event, pid: Pid)
    requires Sound(w) && Possible(w, event)
    requires pid in Next(w, event).live && pid !in w.live
    ensures event.Reconcile? && !w.runtime.shuttingDown && Next(w, event).runtime.child == Some(pid)
    ensures Next(w, event).runtime.signature == Some(event.settings.signature)
    ensures Next(w, event).live - {pid} <= Next(w, event).lost
    ensures w.runtime.child.Some? ==>
              var old_ := w.runtime.child.value;
              old_ !in Next(w, event).live || (old_ in Next(w, event).lost && PollFails(w, event))
  {
  }

  /** A run of possible events and the worlds it goes through. */
  ghost predicate Run(worlds: seq<World>, events: seq<Event>) {
    && |worlds| == |events| + 1
    && worlds[0] == START
    && forall i :: 0 <= i < |events| ==> Possible(worlds[i], events[i]) && worlds[i + 1] == Next(worlds[i], events[i])
  }

  lemma {:induction false} RunKeepsSound(worlds: seq<World>, events: seq<Event>, i: nat)
    requires Run(worlds, events) && i < |worlds|
    ensures Sound(worlds[i])
  {
    if i > 0 {
      RunKeepsSound(worlds, events, i - 1);
      StepKeepsSound(worlds[i - 1], events[i - 1]);
    }
  }

  /** Shutting down is final: from then on no child is recorded, no process is started, and only lost ones can
      still be alive. */
  lemma {:induction false} ShutdownIsFinal(worlds: seq<World>, events: seq<Event>, i: nat, j: nat)
    requires Run(worlds, events) && i <= j < |worlds| && worlds[i].runtime.shuttingDown
    ensures worlds[j].runtime.shuttingDown && worlds[j].runtime.child.None?
    ensures worlds[j].live <= worlds[i].live && worlds[j].live <= worlds[j].lost
    ensures worlds[j].used == worlds[i].used
    decreases j - i
  {
    RunKeepsSound(worlds, events, j);
    if i < j {
      ShutdownIsFinal(worlds, events, i, j - 1);
    }
  }

  ghost predicate NoPollFails(worlds: seq<World>, events: seq<Event>)
    requires |worlds| == |events| + 1
  {
    forall i :: 0 <= i < |events| ==> !PollFails(worlds[i], events[i])
  }

  lemma {:induction false} NothingLost(worlds: seq<World>, events: seq<Event>, i: nat)
    requires Run(worlds, events) && NoPollFails(worlds, events) && i < |worlds|
    ensures worlds[i].lost == {}
  {
    if i > 0 {
      NothingLost(worlds, events, i - 1);
      assert !PollFails(worlds[i - 1], events[i - 1]);
    }
  }

  /** As long as asking for a child's state never fails, at most the recorded child is alive, so none at all
      once shutting down. */
  lemma OneSidecar(worlds: seq<World>, events: seq<Event>, i: nat)
    requires Run(worlds, events) && NoPollFails(worlds, events) && i < |worlds|
    ensures worlds[i].live == {} || (worlds[i].runtime.child.Some? && worlds[i].live == {worlds[i].runtime.child.value})
    ensures worlds[i].runtime.shuttingDown ==> worlds[i].live == {}
  {
    RunKeepsSound(worlds, events, i);
    NothingLost(worlds, events, i);
  }

  predicate Single(w: World) {
    forall p, q :: p in w.live && q in w.live ==> p == q
  }

  /** The section starts a process: the service is wanted, no child with this signature is recorded after the
      refresh, and the executable starts. */
  predicate Starts(w: World, event: Event) {
    && event.Reconcile? && event.spawned.Some?
    && var now := Refreshed(w, event.settings.remoteEnabled, event.poll);
       && Wanted(now, event.settings)
       && !(now.runtime.child.Some? && now.runtime.signature == Some(event.settings.signature))
  }

  /** A process is started beside one that is still alive and out of reach: lost earlier, or by this very
      section's failing state query. */
  predicate StartsBesideLost(w: World, event: Event) {
    Starts(w, event) && exists p :: p in w.live && (p in w.lost || PollFails(w, event))
  }

  lemma LiveIsUsed(w: World)
    requires Sound(w)
    ensures w.live <= w.used
  {
  }

  /** What a section that starts a process leaves alive: the new one and the lost ones. */
  lemma StartLeaves(w: World, event: Event)
    requires Sound(w) && Possible(w, event) && Starts(w, event)
    ensures event.spawned.value !in w.live
    ensures forall p :: p in Next(w, event).live <==>
              p == event.spawned.value || (p in w.live && (p in w.lost || PollFails(w, event)))
  {
    LiveIsUsed(w);
  }

  lemma OthersStartNothing(w: World, event: Event)
    requires Sound(w) && Possible(w, event) && !Starts(w, event)
    ensures Next(w, event).live <= w.live
  {
  }

  /** The exact condition for a second live process: one step makes two of at most one if and only if it starts
      a process beside a lost one. */
  lemma SecondSidecarExactly(w: World, event: Event)
    requires Sound(w) && Possible(w, event) && Single(w)
    ensures !Single(Next(w, event)) <==> StartsBesideLost(w, event)
  {
    if Starts(w, event) {
      StartLeaves(w, event);
      hide Next, Sound, Possible, PollFails, Starts;
      if p :| p in w.live && (p in w.lost || PollFails(w, event)) {
        assert p in Next(w, event).live && event.spawned.value in Next(w, event).live;
      }
    } else {
      OthersStartNothing(w, event);
    }
  }

  /** Over whole runs, in both directions: at most one process is alive in every state up to `n` if and only if
      no step before it started a process beside a lost one. */
  lemma {:induction false} SingleExactly(worlds: seq<World>, events: seq<Event>, n: nat)
    requires Run(worlds, events) && n < |worlds|
    ensures (forall i :: 0 <= i <= n ==> Single(worlds[i])) <==>
            (forall i :: 0 <= i < n ==> !StartsBesideLost(worlds[i], events[i]))
  {
    hide Next, Possible, StartsBesideLost;
    if n > 0 {
      SingleExactly(worlds, events, n - 1);
      RunKeepsSound(worlds, events, n - 1);
      assert worlds[n] == Next(worlds[n - 1], events[n - 1]);
      if Single(worlds[n - 1]) {
        SecondSidecarExactly(worlds[n - 1], events[n - 1]);
      }
    }
  }

  /** The condition is met: a dropped handle leaves its process running, and the next start adds a second. */
  lemma TwoSidecars(settings: Settings)
    requires settings.remoteEnabled && settings.tokenHash.Some?
    ensures var first := Next(START, Reconcile(settings, StillRunning, Some(1)));
            var second := Reconcile(settings, PollFailed, Some(2));
            Possible(START, Reconcile(settings, StillRunning, Some(1))) && Possible(first, second)
            && StartsBesideLost(first, second) && Next(first, second).live == {1, 2}
  {
    var first := Next(START, Reconcile(settings, StillRunning, Some(1)));
    assert first.live == {1};
    assert Next(first, Reconcile(settings, PollFailed, Some(2))).live == {1} + {2};
    assert 1 in first.live;
  }

  // ---- what each section does ----

  /** The recorded child as it is after its state was asked for. */
  predicate Gone(w: World, poll: Poll) {
    w.runtime.child.Some? && poll != StillRunning
  }

  /** Reconciling stops the child while shutting down, when the service is switched off and without a token; leaves a
      running child with the right signature alone; and otherwise stops it and starts one, if that succeeds. */
  lemma ReconcileSettles(w: World, settings: Settings, poll: Poll, spawned: Option<Pid>)
    requires Sound(w) && Possible(w, Reconcile(settings, poll, spawned))
    ensures var next := Next(w, Reconcile(settings, poll, spawned));
            var before, after := w.runtime, next.runtime;
            var wanted := !before.shuttingDown && settings.remoteEnabled && settings.tokenHash.Some?;
            var kept := wanted && !Gone(w, poll) && before.child.Some? && before.signature == Some(settings.signature);
            var started := wanted && !kept && spawned.Some?;
            && after.child == (if kept then before.child else if started then spawned else None)
            && after.signature == (if kept || started then Some(settings.signature) else None)
            && next.live == (if kept || before.child.None? || poll == PollFailed then w.live
                             else w.live - {before.child.value}) + (if started then {spawned.value} else {})
            && next.lost == w.lost + (if before.child.Some? && poll == PollFailed then {before.child.value} else {})
            && next.used == w.used + (if started then {spawned.value} else {})
            && after.consecutiveFailures == (if started then 0 else before.consecutiveFailures)
            && (after.healthy <==>
                  started || (before.healthy && (Gone(w, poll) ==> poll == Exited && !settings.remoteEnabled)))
            && after.restartCount == before.restartCount
            && after.updatePreparing == before.updatePreparing && after.shuttingDown == before.shuttingDown
  {
  }

  /** Asking for the status forgets a child that is gone and changes nothing else. */
  lemma StatusForgets(w: World, settings: Settings, poll: Poll)
    ensures var next := Next(w, Status(settings, poll));
            var before, after := w.runtime, next.runtime;
            && (!Gone(w, poll) ==> next == w)
            && (Gone(w, poll) ==>
                  && after.child.None? && after.signature.None? && next.live == w.live && next.used == w.used
                  && after.healthy == (before.healthy && poll == Exited && !settings.remoteEnabled)
                  && next.lost == (if poll == PollFailed then w.lost + {before.child.value} else w.lost)
                  && after.consecutiveFailures == before.consecutiveFailures
                  && after.restartCount == before.restartCount
                  && after.updatePreparing == before.updatePreparing && after.shuttingDown == before.shuttingDown)
  {
  }

  /** Stopping, shutting down and preparing an update kill the recorded child; the latter two set their flag for good
      or until resumed, and none of them touches another process or the counters. */
  lemma StopsAreExact(w: World, event: Event)
    requires event.Stop? || event.Shutdown? || event.PrepareForUpdate?
    ensures var next := Next(w, event);
            var before, after := w.runtime, next.runtime;
            && after.child.None? && after.signature.None?
            && next.live == w.live - (if before.child.Some? then {before.child.value} else {})
            && next.lost == w.lost && next.used == w.used
            && after.healthy == (before.healthy && event.Stop?)
            && after.shuttingDown == (before.shuttingDown || event.Shutdown?)
            && after.updatePreparing == (before.updatePreparing || event.PrepareForUpdate?)
            && after.consecutiveFailures == before.consecutiveFailures && after.restartCount == before.restartCount
  {
  }

  /** The other sections leave child and processes alone. */
  lemma MarksAreExact(w: World, event: Event)
    requires event.MarkHealth? || event.MarkAutomaticRestart? || event.ResumeAfterUpdateFailure?
    ensures var next := Next(w, event);
            var before, after := w.runtime, next.runtime;
            && after.child == before.child && after.signature == before.signature
            && next.live == w.live && next.lost == w.lost && next.used == w.used
            && after.healthy == (if event.MarkHealth? then event.healthy else before.healthy)
            && after.shuttingDown == before.shuttingDown
            && after.updatePreparing == (before.updatePreparing && !event.ResumeAfterUpdateFailure?)
            && (before.restartCount < 0xFFFF_FFFF ==>
                  after.restartCount == before.restartCount + (if event.MarkAutomaticRestart? then 1 else 0))
            && (before.restartCount == 0xFFFF_FFFF ==> after.restartCount == 0xFFFF_FFFF)
  {
  }

  // ---- counting failures ----

  /** What starts the count of failures afresh: a healthy mark, an automatic restart, or a new process. */
  predicate Clears(w: World, event: Event) {
    event == MarkHealth(true) || event.MarkAutomaticRestart? || Next(w, event).used != w.used
  }

  /** The unhealthy marks since then. */
  ghost function UnhealthySince(worlds: seq<World>, events: seq<Event>, i: nat): nat
    requires i <= |events| < |worlds|
  {
    if i == 0 || Clears(worlds[i - 1], events[i - 1]) then 0
    else UnhealthySince(worlds, events, i - 1) + (if events[i - 1] == MarkHealth(false) then 1 else 0)
  }

  lemma FailuresStep(w: World, event: Event)
    requires Possible(w, event)
    ensures Next(w, event).runtime.consecutiveFailures ==
            if Clears(w, event) then 0
            else if event == MarkHealth(false) && w.runtime.consecutiveFailures < 0xFFFF_FFFF then
              w.runtime.consecutiveFailures + 1
            else w.runtime.consecutiveFailures
  {
    if event.Reconcile? && event.spawned.Some? {
      assert event.spawned.value !in w.used;
    }
  }

  /** The failure count is exactly that number, up to the width of the counter, so the supervisor restarts only after
      three unhealthy checks in a row. */
  lemma {:induction false} FailuresAreConsecutive(worlds: seq<World>, events: seq<Event>, i: nat)
    requires Run(worlds, events) && i < |worlds|
    ensures var count := UnhealthySince(worlds, events, i);
            worlds[i].runtime.consecutiveFailures == if count < 0xFFFF_FFFF then count else 0xFFFF_FFFF
  {
    hide Next, Clears;
    if i > 0 {
      FailuresAreConsecutive(worlds, events, i - 1);
      FailuresStep(worlds[i - 1], events[i - 1]);
    }
  }

  /** The manager with the sections of its methods. */
  class McpRemoteServiceManager {
    var child: Option<Pid>
    var signature: Option<string>
    var consecutiveFailures: nat
    var restartCount: nat
    var healthy: bool
    var updatePreparing: bool
    var shuttingDown: bool
    // the operating system's side
    var live: set<Pid>
    var lost: set<Pid>
    var used: set<Pid>

    constructor ()
      ensures State() == START
    {
      child, signature, consecutiveFailures, restartCount := None, None, 0, 0;
      healthy, updatePreparing, shuttingDown := false, false, false;
      live, lost, used := {}, {}, {};
    }

    function State(): World
      reads this
    {
      World(Runtime(child, signature, consecutiveFailures, restartCount, healthy, updatePreparing, shuttingDown),
            live, lost, used)
    }

    /** `try_wait`. */
    method TryWait() returns (poll: Poll)
      ensures Truthful(State(), poll)
    {
      var fails: bool := *;
      poll := if fails then PollFailed else if child.Some? && child.value in live then StillRunning else Exited;
    }

    /** Starting the executable may fail; a started process has an id of its own. */
    method Spawn() returns (pid: Option<Pid>)
      ensures pid.Some? ==> pid.value !in used
    {
      var fails: bool := *;
      if fails {
        return None;
      }
      var next: Pid := 0;
      var taken := used;
      while next in taken
        invariant taken <= used
        invariant forall p :: p in used && p !in taken ==> p < next
        decreases |taken|
      {
        taken := taken - {next};
        next := next + 1;
      }
      pid := Some(next);
    }

    /** `refresh_remote_child`. */
    method Refresh(settings: Settings) returns (poll: Poll)
      modifies this
      ensures Truthful(old(State()), poll)
      ensures State() == Refreshed(old(State()), settings.remoteEnabled, poll)
    {
      poll := TryWait();
      if child.None? {
        return;
      }
      match poll {
        case Exited =>
          child, signature := None, None;
          if settings.remoteEnabled {
            healthy := false;
          }
        case StillRunning =>
        case PollFailed =>
          lost := lost + {child.value};
          child, signature := None, None;
          healthy := false;
      }
    }

    /** `stop_remote_child`. */
    method StopChild()
      modifies this
      ensures State() == Killed(old(State()))
    {
      if child.Some? {
        live := live - {child.value};
        child := None;
      }
      signature := None;
    }

    method ReconcileSection(settings: Settings) returns (ghost event: Event)
      modifies this
      ensures event.Reconcile? && event.settings == settings && Possible(old(State()), event)
      ensures State() == Next(old(State()), event)
    {
      var poll := Refresh(settings);
      event := Reconcile(settings, poll, None);
      if shuttingDown || !settings.remoteEnabled || settings.tokenHash.None? {
        StopChild();
        return;
      }
      if child.Some? && signature == Some(settings.signature) {
        return;
      }
      StopChild();
      var pid := Spawn();
      if pid.Some? {
        child, signature := pid, Some(settings.signature);
        consecutiveFailures, healthy := 0, true;
        live, used := live + {pid.value}, used + {pid.value};
        event := Reconcile(settings, poll, pid);
      }
    }

    method StatusSection(settings: Settings) returns (running: bool, ghost event: Event)
      modifies this
      ensures event.Status? && event.settings == settings && Possible(old(State()), event)
      ensures State() == Next(old(State()), event) && running == child.Some?
    {
      var poll := Refresh(settings);
      event := Status(settings, poll);
      running := child.Some?;
    }

    method StopSection()
      modifies this
      ensures State() == Next(old(State()), Stop)
    {
      StopChild();
    }

    /** Tells whether the supervisor is to restart the service. */
    method MarkHealthSection(isHealthy: bool) returns (restart: bool)
      modifies this
      ensures State() == Next(old(State()), MarkHealth(isHealthy))
      ensures restart <==> !isHealthy && old(consecutiveFailures) + 1 >= 3
    {
      healthy := isHealthy;
      if isHealthy {
        consecutiveFailures := 0;
        return false;
      }
      consecutiveFailures := Increment(consecutiveFailures);
      restart := consecutiveFailures >= REMOTE_HEALTH_FAILURE_THRESHOLD;
    }

    method MarkAutomaticRestartSection()
      modifies this
      ensures State() == Next(old(State()), MarkAutomaticRestart)
    {
      restartCount, consecutiveFailures := Increment(restartCount), 0;
    }

    method ShutdownSection()
      modifies this
      ensures State() == Next(old(State()), Shutdown)
    {
      shuttingDown := true;
      StopChild();
      healthy := false;
    }

    method PrepareForUpdateSection()
      modifies this
      ensures State() == Next(old(State()), PrepareForUpdate)
    {
      updatePreparing := true;
      StopChild();
      healthy := false;
    }

    method ResumeSection()
      modifies this
      ensures State() == Next(old(State()), ResumeAfterUpdateFailure)
    {
      updatePreparing := false;
    }
  }
}
