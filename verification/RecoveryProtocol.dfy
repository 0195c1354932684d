/** The journal that makes the vault file and the database change together: its steps, what a finished
    recovery would make of any disk, what a crash between any two steps does, and what other commands can
    do to it meanwhile. */
module RecoveryProtocol {
  import opened Common

  type Vault = map<string, string>
  type Tables = string
  type TransactionId = string

  /** Commands that run a transfer or a recovery; each opens the repository for itself. */
  type Client = nat

  /** A file that is copied or written in place can be found torn after a crash. */
  datatype File<+T> = Absent | Torn | Whole(content: T)

  datatype Journal = Journal(version: nat, transactionId: TransactionId, vaultExisted: bool)

  /** What COMMIT makes durable in one step; `lastCommit` is the commit key in `app_settings`. */
  datatype Database = Database(tables: Tables, lastCommit: Option<TransactionId>)

  /** How far a client is: in `begin`, after it saw no journal; at work under its journal; past its COMMIT;
      reading a journal it found; putting the vault back; done with that; removing the files. */
  datatype Phase =
    | Beginning(existed: bool, copied: bool)
    | Working(id: TransactionId)
    | Past
    | Recovering
    | Restoring
    | Restored
    | Cleaning

  /** `tx` is the open transaction; it is lost in a crash, as are the clients. `temps` are the temporary files
      of journals, one for each transaction. `issued` holds the ids handed out so far. */
  datatype Disk = Disk(
    vault: File<Vault>,
    backup: File<Vault>,
    journal: File<Journal>,
    temps: map<TransactionId, File<Journal>>,
    db: Database,
    tx: Option<Database>,
    issued: set<TransactionId>,
    clients: map<Client, Phase>)

  datatype Act =
    | Look
    | Issue(id: TransactionId)
    | TearBackup
    | CopyBackup
    | TearTemp(tempId: TransactionId)
    | WriteTemp(journal: Journal)
    | RemoveTemp(tempId: TransactionId)
    | PublishJournal(journalId: TransactionId)
    | OpenTx(contents: Database)
    | CloseTx
    | CommitTx
    | WriteVault(vault: Vault)
    | StartRecovery
    | TearVault
    | RestoreVault
    | RemoveVault
    | FindNoVault
    | RemoveJournal
    | RemoveBackup
    | Leave

  /** A step of a client, an ordinary save of another command, or a crash. */
  datatype Event =
    | By(client: Client, act: Act)
    | SaveVault(saved: Vault)
    | SaveTables(tables: Tables)
    | Crash

  /** The commit key in the database names the journal's transaction. */
  predicate Committed(d: Disk) {
    d.journal.Whole? && d.db.lastCommit == Some(d.journal.content.transactionId)
  }

  predicate Pending(d: Disk) {
    d.journal.Whole? && !Committed(d)
  }

  /** The vault as a journal says it was before its transfer. */
  function OriginalOf(journal: Journal, backup: File<Vault>): File<Vault> {
    if journal.vaultExisted then backup else Absent
  }

  function Original(d: Disk): File<Vault>
    requires d.journal.Whole?
  {
    OriginalOf(d.journal.content, d.backup)
  }

  predicate InPhase(d: Disk, c: Client, phase: Phase) {
    c in d.clients && d.clients[c] == phase
  }

  /** The client may put the vault back: its own transfer failed, or it found a transfer that never committed. */
  predicate MayRestore(d: Disk, c: Client) {
    && d.journal.Whole? && c in d.clients
    && (d.clients[c].Working? || d.clients[c].Restoring? || (d.clients[c].Recovering? && Pending(d)))
  }

  /** What a client may do next: the order of its own statements and what it can see on the disk. Nothing here
      looks at what other commands do. Nobody commits under the fresh id of a client before it does. */
  predicate MayAct(d: Disk, c: Client, act: Act) {
    match act
    case Look => c !in d.clients && d.journal.Absent?
    case Issue(id) => id !in d.issued
    case TearBackup => c in d.clients && d.clients[c].Beginning? && d.clients[c].existed && d.vault.Whole?
    case CopyBackup => c in d.clients && d.clients[c].Beginning? && d.clients[c].existed && d.vault.Whole?
    case TearTemp(_) => c in d.clients && d.clients[c].Beginning?
    case WriteTemp(j) =>
      && c in d.clients && d.clients[c].Beginning?
      && j.version == 1 && j.transactionId in d.issued && j.vaultExisted == d.clients[c].existed
    case RemoveTemp(_) => c in d.clients && d.clients[c].Beginning?
    case PublishJournal(id) =>
      && c in d.clients && d.clients[c].Beginning? && (d.clients[c].existed ==> d.clients[c].copied)
      && id in d.temps && d.temps[id].Whole? && d.temps[id].content.transactionId == id
      && d.temps[id].content.vaultExisted == d.clients[c].existed
      && d.db.lastCommit != Some(id)
    case OpenTx(contents) =>
      && c in d.clients && d.clients[c].Working?
      && (contents.lastCommit == d.db.lastCommit || contents.lastCommit == Some(d.clients[c].id))
    case CloseTx => true
    case CommitTx =>
      c in d.clients && d.clients[c].Working? && d.tx.Some? && d.tx.value.lastCommit == Some(d.clients[c].id)
    case WriteVault(_) => c in d.clients && d.clients[c].Working?
    case StartRecovery => c !in d.clients && d.journal.Whole?
    case TearVault => MayRestore(d, c) && d.journal.content.vaultExisted && !d.backup.Absent?
    case RestoreVault => MayRestore(d, c) && d.journal.content.vaultExisted && !d.backup.Absent?
    case RemoveVault => MayRestore(d, c) && !d.journal.content.vaultExisted
    case FindNoVault => MayRestore(d, c) && !d.journal.content.vaultExisted && d.vault.Absent?
    case RemoveJournal =>
      && d.journal.Whole? && c in d.clients
      && (d.clients[c].Restored? || d.clients[c].Past? || (d.clients[c].Recovering? && Committed(d)))
    case RemoveBackup => c in d.clients && (d.clients[c].Cleaning? || d.clients[c].Beginning?)
    case Leave => true
  }

  predicate Enabled(d: Disk, e: Event) {
    e.By? ==> MayAct(d, e.client, e.act)
  }

  function Enter(d: Disk, c: Client, phase: Phase): Disk {
    d.(clients := d.clients[c := phase])
  }

  function ApplyAct(d: Disk, c: Client, act: Act): Disk
    requires MayAct(d, c, act)
  {
    match act
    case Look => Enter(d, c, Beginning(!d.vault.Absent?, false))
    case Issue(id) => d.(issued := d.issued + {id})
    case TearBackup => Enter(d, c, Beginning(true, false)).(backup := Torn)
    case CopyBackup => Enter(d, c, Beginning(true, true)).(backup := d.vault)
    case TearTemp(id) => d.(temps := d.temps[id := Torn])
    case WriteTemp(j) => d.(temps := d.temps[j.transactionId := Whole(j)])
    case RemoveTemp(id) => d.(temps := d.temps - {id})
    case PublishJournal(id) => Enter(d, c, Working(id)).(journal := d.temps[id], temps := d.temps - {id})
    case OpenTx(contents) => d.(tx := Some(contents))
    case CloseTx => d.(tx := None)
    case CommitTx => Enter(d, c, Past).(db := d.tx.value, tx := None)
    case WriteVault(v) => d.(vault := Whole(v))
    case StartRecovery => Enter(d, c, Recovering)
    case TearVault => Enter(d, c, Restoring).(vault := Torn)
    case RestoreVault => Enter(d, c, Restored).(vault := d.backup)
    case RemoveVault => Enter(d, c, Restored).(vault := Absent)
    case FindNoVault => Enter(d, c, Restored)
    case RemoveJournal => Enter(d, c, Cleaning).(journal := Absent)
    case RemoveBackup => d.(backup := Absent, clients := Uncopied(d.clients, c))
    case Leave => d.(clients := d.clients - {c})
  }

  /** A client in `begin` that removes the backup has no copy any more. */
  function Uncopied(clients: map<Client, Phase>, c: Client): map<Client, Phase> {
    if c in clients && clients[c].Beginning? then clients[c := Beginning(clients[c].existed, false)] else clients
  }

  function Apply(d: Disk, e: Event): Disk
    requires Enabled(d, e)
  {
    match e
    case By(c, act) => ApplyAct(d, c, act)
    case SaveVault(v) => d.(vault := Whole(v))
    case SaveTables(t) => d.(db := d.db.(tables := t))
    case Crash => d.(tx := None, clients := map[])
  }

  /** What the user sees of the two stores. */
  datatype Store = Store(vault: File<Vault>, tables: Tables)

  /** What the two stores would be once recovery has completed on this disk. */
  function View(d: Disk): Store {
    Store(if Pending(d) then Original(d) else d.vault, d.db.tables)
  }

  // ---- one client at a time ----

  /** No other client is between its `begin` and its end. */
  ghost predicate Alone(d: Disk, e: Event) {
    e.By? ==> forall c :: c in d.clients ==> c == e.client
  }

  /** What a client can rely on in each phase while it is alone, whatever other commands save. */
  predicate PhaseSound(d: Disk, phase: Phase) {
    match phase
    case Beginning(existed, copied) =>
      d.journal.Absent? && (existed ==> d.vault.Whole?) && (copied ==> existed && d.backup.Whole?)
    case Working(id) => Pending(d) && d.journal.content.transactionId == id && !d.vault.Torn?
    case Past => Committed(d)
    case Recovering => d.journal.Whole?
    case Restoring => Pending(d)
    case Restored => Pending(d) && !d.vault.Torn?
    case Cleaning => d.journal.Absent?
  }

  ghost predicate PhasesSound(d: Disk) {
    && (forall c, c' :: c in d.clients && c' in d.clients ==> c == c')
    && (forall c :: c in d.clients ==> PhaseSound(d, d.clients[c]))
  }

  /** The journal is absent or complete; while it is pending the backup it needs is complete, and
      otherwise the vault itself is. Every id in use has been issued. */
  predicate FilesSound(d: Disk) {
    && !d.journal.Torn?
    && !View(d).vault.Torn?
    && (d.journal.Whole? ==> d.journal.content.version == 1 && d.journal.content.transactionId in d.issued)
    && (Pending(d) && d.journal.content.vaultExisted ==> d.backup.Whole?)
    && (d.db.lastCommit.Some? ==> d.db.lastCommit.value in d.issued)
    && (d.tx.Some? && d.tx.value.lastCommit.Some? ==> d.tx.value.lastCommit.value in d.issued)
  }

  ghost predicate TempsSound(d: Disk) {
    forall id :: id in d.temps && d.temps[id].Whole? ==>
      d.temps[id].content.version == 1 && d.temps[id].content.transactionId == id && id in d.issued
  }

  ghost predicate Sound(d: Disk) {
    FilesSound(d) && TempsSound(d) && PhasesSound(d)
  }

  /** The specification: a pair of stores that changes in single steps. A transfer changes both halves at COMMIT;
      an ordinary save changes one half, but does not count while a transfer is pending. Where commands overlap
      two more steps move the vault half: publishing a journal takes it back to the copy made before, and
      removing a pending journal accepts the file as it is. */
  function AtomicStep(s: Store, d: Disk, e: Event): Store
    requires Enabled(d, e)
  {
    match e
    case SaveVault(v) => if Pending(d) then s else s.(vault := Whole(v))
    case SaveTables(t) => s.(tables := t)
    case Crash => s
    case By(_, PublishJournal(id)) => s.(vault := OriginalOf(d.temps[id].content, d.backup))
    case By(_, CommitTx) => Store(d.vault, d.tx.value.tables)
    case By(_, RemoveJournal) => if Pending(d) then s.(vault := d.vault) else s
    case By(_, _) => s
  }

  predicate BeginAct(act: Act) {
    || act.Look? || act.Issue? || act.TearBackup? || act.CopyBackup? || act.TearTemp? || act.WriteTemp?
    || act.RemoveTemp? || act.PublishJournal?
  }

  predicate RestoreAct(act: Act) {
    || act.StartRecovery? || act.TearVault? || act.RestoreVault? || act.RemoveVault? || act.FindNoVault?
    || act.RemoveJournal? || act.RemoveBackup?
  }

  /** What the client that acts may rely on. */
  predicate ActorSound(d: Disk, c: Client) {
    c in d.clients ==> PhaseSound(d, d.clients[c])
  }

  lemma BeginKeepsFiles(d: Disk, c: Client, act: Act)
    requires FilesSound(d) && TempsSound(d) && ActorSound(d, c) && MayAct(d, c, act) && BeginAct(act)
    ensures FilesSound(ApplyAct(d, c, act))
    ensures View(ApplyAct(d, c, act)) == AtomicStep(View(d), d, By(c, act))
    ensures ActorSound(ApplyAct(d, c, act), c)
  {
  }

  lemma RestoreKeepsFiles(d: Disk, c: Client, act: Act)
    requires FilesSound(d) && ActorSound(d, c) && MayAct(d, c, act) && RestoreAct(act)
    ensures FilesSound(ApplyAct(d, c, act))
    ensures View(ApplyAct(d, c, act)) == AtomicStep(View(d), d, By(c, act))
    ensures ActorSound(ApplyAct(d, c, act), c)
  {
  }

  lemma WorkKeepsFiles(d: Disk, c: Client, act: Act)
    requires FilesSound(d) && ActorSound(d, c) && MayAct(d, c, act) && !BeginAct(act) && !RestoreAct(act)
    ensures FilesSound(ApplyAct(d, c, act))
    ensures View(ApplyAct(d, c, act)) == AtomicStep(View(d), d, By(c, act))
    ensures ActorSound(ApplyAct(d, c, act), c)
  {
  }

  lemma OthersKeepFiles(d: Disk, e: Event)
    requires FilesSound(d) && !e.By?
    ensures FilesSound(Apply(d, e))
    ensures View(Apply(d, e)) == AtomicStep(View(d), d, e)
    ensures Apply(d, e).clients == d.clients || Apply(d, e).clients == map[]
    ensures forall phase :: PhaseSound(d, phase) ==> PhaseSound(Apply(d, e), phase)
  {
  }

  lemma FilesStaySound(d: Disk, e: Event)
    requires Sound(d) && Enabled(d, e) && Alone(d, e)
    ensures FilesSound(Apply(d, e))
    ensures View(Apply(d, e)) == AtomicStep(View(d), d, e)
    ensures e.By? ==> ActorSound(Apply(d, e), e.client)
  {
    hide FilesSound, TempsSound, View, AtomicStep, MayAct, ApplyAct, PhaseSound;
    if e.By? {
      if BeginAct(e.act) {
        BeginKeepsFiles(d, e.client, e.act);
      } else if RestoreAct(e.act) {
        RestoreKeepsFiles(d, e.client, e.act);
      } else {
        WorkKeepsFiles(d, e.client, e.act);
      }
    } else {
      OthersKeepFiles(d, e);
    }
  }

  lemma ActTouchesOwnPhase(d: Disk, c: Client, act: Act)
    requires MayAct(d, c, act)
    ensures ApplyAct(d, c, act).clients.Keys <= d.clients.Keys + {c}
  {
  }

  lemma TempsStaySound(d: Disk, e: Event)
    requires Sound(d) && Enabled(d, e)
    ensures TempsSound(Apply(d, e))
  {
    hide FilesSound, PhasesSound;
  }

  lemma PhasesStaySound(d: Disk, e: Event)
    requires Sound(d) && Enabled(d, e) && Alone(d, e)
    ensures PhasesSound(Apply(d, e))
  {
    FilesStaySound(d, e);
    hide FilesSound, TempsSound, View, AtomicStep, MayAct, ApplyAct, PhaseSound;
    if e.By? {
      ActTouchesOwnPhase(d, e.client, e.act);
    } else {
      OthersKeepFiles(d, e);
    }
  }

  /** Every step keeps the disk sound, whatever other commands save meanwhile, and what recovery would make of it
      moves as the specification says. */
  lemma StepRefines(d: Disk, e: Event)
    requires Sound(d) && Enabled(d, e) && Alone(d, e)
    ensures Sound(Apply(d, e))
    ensures View(Apply(d, e)) == AtomicStep(View(d), d, e)
  {
    FilesStaySound(d, e);
    TempsStaySound(d, e);
    PhasesStaySound(d, e);
    hide FilesSound, TempsSound, PhasesSound;
  }

  ghost predicate Legal(d: Disk, run: seq<Event>)
    decreases run
  {
    run == [] || (Enabled(d, run[0]) && Legal(Apply(d, run[0]), run[1..]))
  }

  ghost function Replay(d: Disk, run: seq<Event>): Disk
    requires Legal(d, run)
    decreases run
  {
    if run == [] then d else Replay(Apply(d, run[0]), run[1..])
  }

  /** A legal run in which every client is alone from its `begin` to its end. Saves of other commands may fall
      anywhere. */
  ghost predicate Exclusive(d: Disk, run: seq<Event>)
    ensures Exclusive(d, run) ==> Legal(d, run)
    decreases run
  {
    run == [] || (Enabled(d, run[0]) && Alone(d, run[0]) && Exclusive(Apply(d, run[0]), run[1..]))
  }

  ghost function AtomicReplay(s: Store, d: Disk, run: seq<Event>): Store
    requires Legal(d, run)
    decreases run
  {
    if run == [] then s else AtomicReplay(AtomicStep(s, d, run[0]), Apply(d, run[0]), run[1..])
  }

  /** Over any run of any length, saves and crashes included, the disk stays sound and recovers to the
      specification's stores. */
  lemma {:induction false} RunRefines(d: Disk, run: seq<Event>)
    requires Sound(d) && Exclusive(d, run)
    ensures Sound(Replay(d, run))
    ensures View(Replay(d, run)) == AtomicReplay(View(d), d, run)
    decreases run
  {
    hide Sound, Enabled, Alone, Apply, View, AtomicStep;
    if run != [] {
      StepRefines(d, run[0]);
      RunRefines(Apply(d, run[0]), run[1..]);
    }
  }

  lemma {:induction false} LegalConcat(d: Disk, a: seq<Event>, b: seq<Event>)
    ensures Legal(d, a + b) <==> Legal(d, a) && Legal(Replay(d, a), b)
    ensures Exclusive(d, a + b) <==> Exclusive(d, a) && Exclusive(Replay(d, a), b)
    ensures Legal(d, a + b) ==> Replay(d, a + b) == Replay(Replay(d, a), b)
    decreases a
  {
    hide Enabled, Alone, Apply;
    if a == [] {
      assert a + b == b;
    } else {
      assert (a + b)[1..] == a[1..] + b;
      if Enabled(d, a[0]) {
        LegalConcat(Apply(d, a[0]), a[1..], b);
      }
    }
  }

  lemma OneStep(d: Disk, e: Event)
    ensures Legal(d, [e]) <==> Enabled(d, e)
    ensures Exclusive(d, [e]) <==> Enabled(d, e) && Alone(d, e)
    ensures Enabled(d, e) ==> Replay(d, [e]) == Apply(d, e)
  {
    hide Enabled, Alone, Apply;
    assert [e][1..] == [];
  }

  // ---- undisturbed transfers ----

  predicate IsCommit(e: Event) {
    e.By? && e.act.CommitTx?
  }

  predicate Saves(e: Event) {
    e.SaveVault? || e.SaveTables?
  }

  function Commits(run: seq<Event>): nat {
    if run == [] then 0 else (if IsCommit(run[0]) then 1 else 0) + Commits(run[1..])
  }

  /** A run that belongs to one transfer: no ordinary save in between and at most one COMMIT. */
  ghost predicate OneTransfer(run: seq<Event>) {
    (forall e :: e in run ==> !Saves(e)) && Commits(run) <= 1
  }

  /** No save has come between a client and what it last did to the vault or its copy. */
  predicate PhaseCalm(d: Disk, phase: Phase) {
    match phase
    case Beginning(existed, copied) => (copied ==> d.backup == d.vault) && (!existed ==> d.vault.Absent?)
    case Restored => d.journal.Whole? ==> d.vault == Original(d)
    case _ => true
  }

  ghost predicate Calm(d: Disk) {
    forall c :: c in d.clients ==> PhaseCalm(d, d.clients[c])
  }

  ghost predicate OnlyClient(d: Disk, c: Client) {
    forall c' :: c' in d.clients ==> c' == c
  }

  predicate ActorCalm(d: Disk, c: Client) {
    c in d.clients ==> PhaseCalm(d, d.clients[c])
  }

  lemma CalmBegin(d: Disk, c: Client, act: Act)
    requires FilesSound(d) && ActorSound(d, c) && OnlyClient(d, c) && MayAct(d, c, act) && BeginAct(act)
    requires ActorCalm(d, c)
    ensures ActorCalm(ApplyAct(d, c, act), c)
    ensures !act.CommitTx? ==> AtomicStep(View(d), d, By(c, act)) == View(d)
  {
  }

  lemma CalmRestore(d: Disk, c: Client, act: Act)
    requires FilesSound(d) && ActorSound(d, c) && OnlyClient(d, c) && MayAct(d, c, act) && RestoreAct(act)
    requires ActorCalm(d, c)
    ensures ActorCalm(ApplyAct(d, c, act), c)
    ensures !act.CommitTx? ==> AtomicStep(View(d), d, By(c, act)) == View(d)
  {
  }

  lemma CalmWork(d: Disk, c: Client, act: Act)
    requires FilesSound(d) && ActorSound(d, c) && OnlyClient(d, c)
    requires MayAct(d, c, act) && !BeginAct(act) && !RestoreAct(act)
    requires ActorCalm(d, c)
    ensures ActorCalm(ApplyAct(d, c, act), c)
    ensures !act.CommitTx? ==> AtomicStep(View(d), d, By(c, act)) == View(d)
  {
  }

  lemma StepStaysCalm(d: Disk, e: Event)
    requires Sound(d) && Calm(d) && Enabled(d, e) && Alone(d, e) && !Saves(e)
    ensures Calm(Apply(d, e))
    ensures !IsCommit(e) ==> View(Apply(d, e)) == View(d)
  {
    FilesStaySound(d, e);
    hide FilesSound, TempsSound, View, AtomicStep, MayAct, ApplyAct, PhaseSound, PhaseCalm;
    if e.By? {
      ActTouchesOwnPhase(d, e.client, e.act);
      if BeginAct(e.act) {
        CalmBegin(d, e.client, e.act);
      } else if RestoreAct(e.act) {
        CalmRestore(d, e.client, e.act);
      } else {
        CalmWork(d, e.client, e.act);
      }
    } else {
      CrashIsPossible(d);
    }
  }

  lemma {:induction false} CalmRun(d: Disk, run: seq<Event>)
    requires Sound(d) && Calm(d) && Exclusive(d, run) && forall e :: e in run ==> !Saves(e)
    ensures Calm(Replay(d, run)) && Sound(Replay(d, run))
    ensures Commits(run) == 0 ==> View(Replay(d, run)) == View(d)
    decreases run
  {
    hide Sound, Calm, Enabled, Alone, Apply, View, AtomicStep, Saves, IsCommit;
    if run != [] {
      assert run[0] in run;
      StepRefines(d, run[0]);
      StepStaysCalm(d, run[0]);
      CalmRun(Apply(d, run[0]), run[1..]);
    }
  }

  lemma {:induction false} CommitsConcat(a: seq<Event>, b: seq<Event>)
    ensures Commits(a + b) == Commits(a) + Commits(b)
  {
    if a == [] {
      assert a + b == b;
    } else {
      assert (a + b)[1..] == a[1..] + b;
      CommitsConcat(a[1..], b);
    }
  }

  /** Crash atomicity: wherever a transfer is cut, recovery leads to the stores from before it or to the stores
      from after it, never to a mixture, provided its client is alone and no other command saves between its
      steps. */
  lemma CrashAtomicity(d: Disk, run: seq<Event>, n: nat)
    requires Sound(d) && Calm(d) && Exclusive(d, run) && OneTransfer(run) && n <= |run|
    ensures Exclusive(d, run[..n] + [Crash])
    ensures var cut := Replay(d, run[..n] + [Crash]);
      && Sound(cut)
      && (View(cut) == View(d) || View(cut) == View(Replay(d, run)))
  {
    hide Sound, Calm, Apply, View, Enabled, Alone;
    assert run[..n] + run[n..] == run;
    LegalConcat(d, run[..n], run[n..]);
    LegalConcat(d, run[..n], [Crash]);
    CommitsConcat(run[..n], run[n..]);
    CalmRun(d, run[..n]);
    var mid := Replay(d, run[..n]);
    CrashIsPossible(mid);
    OneStep(mid, Crash);
    StepRefines(mid, Crash);
    CalmRun(mid, run[n..]);
  }

  lemma CrashIsPossible(d: Disk)
    ensures Enabled(d, Crash) && Alone(d, Crash)
    ensures AtomicStep(View(d), d, Crash) == View(d)
  {
  }

  // ---- ordinary saves ----

  /** A journal is published whose transfer started from something else than `v`. */
  predicate PublishesOther(d: Disk, e: Event, v: Vault) {
    e.By? && e.act.PublishJournal? && Enabled(d, e)
    && OriginalOf(d.temps[e.act.journalId].content, d.backup) != Whole(v)
  }

  ghost predicate OnlyPublishes(d: Disk, run: seq<Event>, v: Vault)
    requires Legal(d, run)
    decreases run
  {
    run == [] || (!PublishesOther(d, run[0], v) && OnlyPublishes(Apply(d, run[0]), run[1..], v))
  }

  /** The client removes the journal before it leaves or the machine crashes. */
  predicate RemovesNext(run: seq<Event>, c: Client)
    decreases run
  {
    && run != []
    && (run[0] == By(c, RemoveJournal) || (run[0] != Crash && run[0] != By(c, Leave) && RemovesNext(run[1..], c)))
  }

  /** A client that has already put the vault back is about to accept the file as it is. */
  ghost predicate Accepts(d: Disk, run: seq<Event>) {
    exists c :: c in d.clients && d.clients[c].Restored? && RemovesNext(run, c)
  }

  predicate ChangesVault(e: Event) {
    e.SaveVault? || IsCommit(e)
  }

  /** Recovery leads to `v`, and no removal is about to change that. */
  ghost predicate Safe(d: Disk, v: Vault) {
    View(d).vault == Whole(v)
    && forall c :: c in d.clients && d.clients[c].Restored? ==> d.vault == Whole(v)
  }

  /** Recovery does not lead to `v`, and nothing on the disk can bring it back. */
  ghost predicate Gone(d: Disk, v: Vault) {
    && View(d).vault != Whole(v)
    && forall c :: c in d.clients ==>
         && (d.clients[c].Restored? ==> d.vault != Whole(v))
         && (d.clients[c].Beginning? && d.clients[c].copied ==> d.backup != Whole(v))
  }

  /** `v` is in the file, which a client that has put the vault back is about to accept. */
  ghost predicate Held(d: Disk, v: Vault, c: Client) {
    InPhase(d, c, Restored) && d.vault == Whole(v) && View(d).vault != Whole(v)
  }

  lemma SafeBegin(d: Disk, c: Client, act: Act, v: Vault)
    requires FilesSound(d) && ActorSound(d, c) && OnlyClient(d, c) && MayAct(d, c, act) && BeginAct(act)
    requires !act.CommitTx? && Safe(d, v)
    ensures if PublishesOther(d, By(c, act), v) then Gone(ApplyAct(d, c, act), v) else Safe(ApplyAct(d, c, act), v)
  {
  }

  lemma SafeRestore(d: Disk, c: Client, act: Act, v: Vault)
    requires FilesSound(d) && ActorSound(d, c) && OnlyClient(d, c) && MayAct(d, c, act) && RestoreAct(act)
    requires !act.CommitTx? && Safe(d, v)
    ensures if PublishesOther(d, By(c, act), v) then Gone(ApplyAct(d, c, act), v) else Safe(ApplyAct(d, c, act), v)
  {
  }

  lemma SafeWork(d: Disk, c: Client, act: Act, v: Vault)
    requires FilesSound(d) && ActorSound(d, c) && OnlyClient(d, c)
    requires MayAct(d, c, act) && !BeginAct(act) && !RestoreAct(act)
    requires !act.CommitTx? && Safe(d, v)
    ensures if PublishesOther(d, By(c, act), v) then Gone(ApplyAct(d, c, act), v) else Safe(ApplyAct(d, c, act), v)
  {
  }

  lemma GoneBegin(d: Disk, c: Client, act: Act, v: Vault)
    requires FilesSound(d) && ActorSound(d, c) && OnlyClient(d, c) && MayAct(d, c, act) && BeginAct(act)
    requires !act.CommitTx? && Gone(d, v)
    ensures Gone(ApplyAct(d, c, act), v)
  {
  }

  lemma GoneRestore(d: Disk, c: Client, act: Act, v: Vault)
    requires FilesSound(d) && ActorSound(d, c) && OnlyClient(d, c) && MayAct(d, c, act) && RestoreAct(act)
    requires !act.CommitTx? && Gone(d, v)
    ensures Gone(ApplyAct(d, c, act), v)
  {
  }

  lemma GoneWork(d: Disk, c: Client, act: Act, v: Vault)
    requires FilesSound(d) && ActorSound(d, c) && OnlyClient(d, c)
    requires MayAct(d, c, act) && !BeginAct(act) && !RestoreAct(act)
    requires !act.CommitTx? && Gone(d, v)
    ensures Gone(ApplyAct(d, c, act), v)
  {
  }

  lemma OthersLeaveAlone(d: Disk, e: Event, v: Vault)
    requires FilesSound(d) && !e.By? && !ChangesVault(e)
    ensures Safe(d, v) ==> Safe(Apply(d, e), v)
    ensures Gone(d, v) ==> Gone(Apply(d, e), v)
  {
  }

  lemma SafeStep(d: Disk, e: Event, v: Vault)
    requires Sound(d) && Enabled(d, e) && Alone(d, e) && !ChangesVault(e) && Safe(d, v)
    ensures if PublishesOther(d, e, v) then Gone(Apply(d, e), v) else Safe(Apply(d, e), v)
  {
    hide FilesSound, TempsSound, Safe, Gone, MayAct, ApplyAct, PhaseSound;
    if !e.By? {
      OthersLeaveAlone(d, e, v);
    } else if BeginAct(e.act) {
      SafeBegin(d, e.client, e.act, v);
    } else if RestoreAct(e.act) {
      SafeRestore(d, e.client, e.act, v);
    } else {
      SafeWork(d, e.client, e.act, v);
    }
  }

  lemma GoneStep(d: Disk, e: Event, v: Vault)
    requires Sound(d) && Enabled(d, e) && Alone(d, e) && !ChangesVault(e) && Gone(d, v)
    ensures Gone(Apply(d, e), v)
  {
    hide FilesSound, TempsSound, Safe, Gone, MayAct, ApplyAct, PhaseSound;
    if !e.By? {
      OthersLeaveAlone(d, e, v);
    } else if BeginAct(e.act) {
      GoneBegin(d, e.client, e.act, v);
    } else if RestoreAct(e.act) {
      GoneRestore(d, e.client, e.act, v);
    } else {
      GoneWork(d, e.client, e.act, v);
    }
  }

  lemma HeldStep(d: Disk, e: Event, v: Vault, c: Client)
    requires Sound(d) && Enabled(d, e) && Alone(d, e) && !ChangesVault(e) && Held(d, v, c)
    ensures !PublishesOther(d, e, v)
    ensures if e == By(c, RemoveJournal) then Safe(Apply(d, e), v)
            else if e == Crash || e == By(c, Leave) then Gone(Apply(d, e), v)
            else Held(Apply(d, e), v, c)
  {
    hide TempsSound;
    assert PhaseSound(d, d.clients[c]);
  }

  lemma {:induction false} GoneForGood(d: Disk, run: seq<Event>, v: Vault)
    requires Sound(d) && Exclusive(d, run) && Gone(d, v) && forall e :: e in run ==> !ChangesVault(e)
    ensures View(Replay(d, run)).vault != Whole(v)
    decreases run
  {
    hide Sound, Enabled, Alone, Apply, ChangesVault;
    if run != [] {
      assert run[0] in run;
      StepRefines(d, run[0]);
      GoneStep(d, run[0], v);
      hide Gone, View;
      GoneForGood(Apply(d, run[0]), run[1..], v);
    }
  }

  lemma {:induction false} SafeUntilPublished(d: Disk, run: seq<Event>, v: Vault)
    requires Sound(d) && Exclusive(d, run) && Safe(d, v) && forall e :: e in run ==> !ChangesVault(e)
    ensures View(Replay(d, run)).vault == Whole(v) <==> OnlyPublishes(d, run, v)
    decreases run
  {
    hide Sound, Enabled, Alone, Apply, ChangesVault, PublishesOther;
    if run != [] {
      assert run[0] in run;
      StepRefines(d, run[0]);
      SafeStep(d, run[0], v);
      hide Gone, Safe, View;
      if PublishesOther(d, run[0], v) {
        GoneForGood(Apply(d, run[0]), run[1..], v);
      } else {
        SafeUntilPublished(Apply(d, run[0]), run[1..], v);
      }
    }
  }

  lemma {:induction false} HeldUntilAccepted(d: Disk, run: seq<Event>, v: Vault, c: Client)
    requires Sound(d) && Exclusive(d, run) && Held(d, v, c) && forall e :: e in run ==> !ChangesVault(e)
    ensures View(Replay(d, run)).vault == Whole(v) <==> RemovesNext(run, c) && OnlyPublishes(d, run, v)
    decreases run
  {
    hide Sound, Enabled, Alone, Apply, ChangesVault, PublishesOther;
    if run != [] {
      assert run[0] in run;
      StepRefines(d, run[0]);
      HeldStep(d, run[0], v, c);
      hide Gone, Safe, Held, View;
      if run[0] == By(c, RemoveJournal) {
        SafeUntilPublished(Apply(d, run[0]), run[1..], v);
      } else if run[0] == Crash || run[0] == By(c, Leave) {
        GoneForGood(Apply(d, run[0]), run[1..], v);
      } else {
        HeldUntilAccepted(Apply(d, run[0]), run[1..], v, c);
      }
    }
  }

  /** An ordinary vault save is not guarded by the journal in the source. Whatever follows short of another vault
      save or a COMMIT, crashes, recoveries and further transfers included, it survives if and only if no
      uncommitted transfer was pending (or it saved what recovery restores, or the client that has already put the
      vault back goes on to remove the journal) and every journal published afterwards belongs to a transfer
      that copied the saved vault. */
  lemma SaveSurvives(d: Disk, v: Vault, later: seq<Event>)
    requires Sound(d) && Exclusive(d, [SaveVault(v)] + later)
    requires forall e :: e in later ==> !ChangesVault(e)
    ensures var saved := Apply(d, SaveVault(v));
            && Legal(saved, later)
            && (View(Replay(saved, later)).vault == Whole(v) <==>
                && (!Pending(d) || Original(d) == Whole(v) || Accepts(d, later))
                && OnlyPublishes(saved, later, v))
  {
    var saved := Apply(d, SaveVault(v));
    StepRefines(d, SaveVault(v));
    assert ([SaveVault(v)] + later)[1..] == later;
    SavedPhases(d, v);
    hide Sound, Exclusive, Legal, Replay, View, Original, Pending, OnlyPublishes, RemovesNext, PhaseSound;
    if Safe(saved, v) {
      SafeUntilPublished(saved, later, v);
      SafeMeans(d, v);
    } else if c :| Held(saved, v, c) {
      HeldUntilAccepted(saved, later, v, c);
      HeldMeans(d, v, c, later);
    } else {
      GoneForGood(saved, later, v);
      GoneMeans(d, v);
    }
  }

  /** After a save exactly one of three things is the case. */
  lemma SavedPhases(d: Disk, v: Vault)
    requires Sound(d)
    ensures var saved := Apply(d, SaveVault(v));
            Safe(saved, v) || Gone(saved, v) || exists c :: Held(saved, v, c)
  {
    var saved := Apply(d, SaveVault(v));
    if c :| c in d.clients {
      assert PhaseSound(d, d.clients[c]);
      assert d.clients[c].Restored? && !Safe(saved, v) ==> Held(saved, v, c);
    }
  }

  lemma SafeMeans(d: Disk, v: Vault)
    requires Sound(d) && Safe(Apply(d, SaveVault(v)), v)
    ensures !Pending(d) || Original(d) == Whole(v)
  {
  }

  lemma GoneMeans(d: Disk, v: Vault)
    requires Sound(d) && Gone(Apply(d, SaveVault(v)), v)
    ensures Pending(d) && Original(d) != Whole(v) && forall c :: c in d.clients ==> !d.clients[c].Restored?
  {
  }

  lemma HeldMeans(d: Disk, v: Vault, c: Client, later: seq<Event>)
    requires Sound(d) && Held(Apply(d, SaveVault(v)), v, c)
    ensures Pending(d) && Original(d) != Whole(v)
    ensures Accepts(d, later) <==> RemovesNext(later, c)
  {
    assert c in d.clients && d.clients[c].Restored?;
  }

  // ---- runs that go wrong ----

  lemma Go(d: Disk, run: seq<Event>, e: Event)
    requires Legal(d, run) && Enabled(Replay(d, run), e)
    ensures Legal(d, run + [e]) && Replay(d, run + [e]) == Apply(Replay(d, run), e)
    ensures Exclusive(d, run) && Alone(Replay(d, run), e) ==> Exclusive(d, run + [e])
  {
    hide Enabled, Alone, Apply;
    OneStep(Replay(d, run), e);
    LegalConcat(d, run, [e]);
  }

  function Start(vault: Vault, tables: Tables): Disk {
    Disk(Whole(vault), Absent, Absent, map[], Database(tables, None), None, {}, map[])
  }

  /** The disk under a journal that its client has left behind. */
  function Abandoned(before: Vault, now: Vault, tables: Tables, id: TransactionId): Disk {
    Disk(Whole(now), Whole(before), Whole(Journal(1, id, true)), map[], Database(tables, None), None, {id}, map[])
  }

  /** What the next unlock does. */
  function RecoveryBy(c: Client): seq<Event> {
    [By(c, StartRecovery), By(c, RestoreVault), By(c, RemoveJournal), By(c, RemoveBackup), By(c, Leave)]
  }

  lemma Empty(d: Disk)
    ensures Exclusive(d, []) && Replay(d, []) == d
  {
  }

  lemma ReadsJournal(d: Disk, c: Client)
    requires d.clients == map[] && d.journal.Whole?
    ensures Enabled(d, By(c, StartRecovery))
    ensures Apply(d, By(c, StartRecovery)) == d.(clients := map[c := Recovering])
  {
  }

  lemma PutsBack(d: Disk, c: Client)
    requires d.clients == map[c := Recovering] && Pending(d) && d.journal.content.vaultExisted && d.backup.Whole?
    ensures Enabled(d, By(c, RestoreVault))
    ensures Apply(d, By(c, RestoreVault)) == d.(clients := map[c := Restored], vault := d.backup)
  {
  }

  lemma ForgetsJournal(d: Disk, c: Client)
    requires d.clients == map[c := Restored] && d.journal.Whole?
    ensures Enabled(d, By(c, RemoveJournal))
    ensures Apply(d, By(c, RemoveJournal)) == d.(clients := map[c := Cleaning], journal := Absent)
  {
  }

  lemma ForgetsBackup(d: Disk, c: Client)
    requires d.clients == map[c := Cleaning]
    ensures Enabled(d, By(c, RemoveBackup)) && Apply(d, By(c, RemoveBackup)) == d.(backup := Absent)
  {
  }

  lemma StaysPending(d: Disk, d': Disk)
    requires Pending(d) && d'.journal == d.journal && d'.db == d.db
    ensures Pending(d')
  {
  }

  lemma LastOneLeaves(d: Disk, c: Client)
    requires d.clients.Keys == {c}
    ensures Enabled(d, By(c, Leave)) && Apply(d, By(c, Leave)) == d.(clients := map[])
  {
  }

  lemma RecoveryRuns(d: Disk, c: Client)
    requires d.clients == map[] && Pending(d) && d.journal.content.vaultExisted && d.backup.Whole?
    ensures Exclusive(d, RecoveryBy(c))
    ensures Replay(d, RecoveryBy(c)) == d.(vault := d.backup, backup := Absent, journal := Absent)
  {
    hide Legal, Exclusive, Replay, Enabled, Apply, Pending;
    var d1 := d.(clients := map[c := Recovering]);
    var d2 := d.(clients := map[c := Restored], vault := d.backup);
    var d3 := d2.(clients := map[c := Cleaning], journal := Absent);
    StaysPending(d, d1);
    ReadsJournal(d, c);
    PutsBack(d1, c);
    ForgetsJournal(d2, c);
    ForgetsBackup(d3, c);
    LastOneLeaves(d3.(backup := Absent), c);
    Empty(d);
    var r1 := [] + [By(c, StartRecovery)];
    Go(d, [], By(c, StartRecovery));
    var r2 := r1 + [By(c, RestoreVault)];
    Go(d, r1, By(c, RestoreVault));
    var r3 := r2 + [By(c, RemoveJournal)];
    Go(d, r2, By(c, RemoveJournal));
    var r4 := r3 + [By(c, RemoveBackup)];
    Go(d, r3, By(c, RemoveBackup));
    Go(d, r4, By(c, Leave));
    assert r4 + [By(c, Leave)] == RecoveryBy(c);
  }

  /** `begin` up to the copy of the vault, and from there to an early return. */
  function BeginByZero(id: TransactionId): seq<Event> {
    [By(0, Look), By(0, Issue(id)), By(0, CopyBackup)]
  }

  function PublishByZero(id: TransactionId): seq<Event> {
    [By(0, WriteTemp(Journal(1, id, true))), By(0, PublishJournal(id)), By(0, Leave)]
  }

  /** The disk after the first of these, with whatever has been saved since. */
  function Copied(before: Vault, now: Vault, tables: Tables, id: TransactionId): Disk {
    Disk(Whole(now), Whole(before), Absent, map[], Database(tables, None), None, {id}, map[0 := Beginning(true, true)])
  }

  lemma BeginRuns(before: Vault, tables: Tables, id: TransactionId)
    ensures Exclusive(Start(before, tables), BeginByZero(id))
    ensures Replay(Start(before, tables), BeginByZero(id)) == Copied(before, before, tables, id)
  {
    hide Legal, Exclusive, Replay;
    var d := Start(before, tables);
    Empty(d);
    var r1 := [] + [By(0, Look)];
    Go(d, [], By(0, Look));
    var r2 := r1 + [By(0, Issue(id))];
    Go(d, r1, By(0, Issue(id)));
    Go(d, r2, By(0, CopyBackup));
    assert r2 + [By(0, CopyBackup)] == BeginByZero(id);
  }

  lemma PublishRuns(before: Vault, now: Vault, tables: Tables, id: TransactionId)
    ensures Exclusive(Copied(before, now, tables, id), PublishByZero(id))
    ensures Replay(Copied(before, now, tables, id), PublishByZero(id)) == Abandoned(before, now, tables, id)
  {
    hide Legal, Exclusive, Replay;
    var d := Copied(before, now, tables, id);
    Empty(d);
    var write := By(0, WriteTemp(Journal(1, id, true)));
    var r1 := [] + [write];
    Go(d, [], write);
    var r2 := r1 + [By(0, PublishJournal(id))];
    Go(d, r1, By(0, PublishJournal(id)));
    Go(d, r2, By(0, Leave));
    assert r2 + [By(0, Leave)] == PublishByZero(id);
    assert map[id := Whole(Journal(1, id, true))] - {id} == map[];
    assert map[0 := Working(id)] - {0} == map[];
  }

  /** A save is lost: the transfer left its journal behind without writing anything, the save succeeded, and recovery
      takes it back. */
  lemma SaveIsLost(before: Vault, saved: Vault, tables: Tables, id: TransactionId)
    ensures var d := Start(before, tables);
            var run := BeginByZero(id) + PublishByZero(id) + [SaveVault(saved)];
            && Exclusive(d, run + RecoveryBy(1))
            && Exclusive(d, run) && Replay(d, run).vault == Whole(saved)
            && Replay(d, run + RecoveryBy(1)).vault == Whole(before)
            && Replay(d, run + RecoveryBy(1)).journal.Absent?
  {
    var d := Start(before, tables);
    BeginRuns(before, tables, id);
    PublishRuns(before, before, tables, id);
    var left := BeginByZero(id) + PublishByZero(id);
    var now := Abandoned(before, saved, tables, id);
    OneStep(Abandoned(before, before, tables, id), SaveVault(saved));
    RecoveryRuns(now, 1);
    hide Legal, Exclusive, Replay, RecoveryBy, BeginByZero, PublishByZero;
    LegalConcat(d, BeginByZero(id), PublishByZero(id));
    LegalConcat(d, left, [SaveVault(saved)]);
    LegalConcat(d, left + [SaveVault(saved)], RecoveryBy(1));
  }

  /** A save is lost although no journal existed when it was made: it fell between the copy of the vault and the
      publication of the journal. */
  lemma SaveInsideBeginIsLost(before: Vault, saved: Vault, tables: Tables, id: TransactionId)
    ensures var d := Start(before, tables);
            var run := BeginByZero(id) + [SaveVault(saved)];
            var whole := run + PublishByZero(id) + RecoveryBy(1);
            && Exclusive(d, whole)
            && Exclusive(d, run) && !Pending(Replay(d, run)) && View(Replay(d, run)).vault == Whole(saved)
            && Replay(d, whole).vault == Whole(before) && Replay(d, whole).journal.Absent?
  {
    var d := Start(before, tables);
    BeginRuns(before, tables, id);
    OneStep(Copied(before, before, tables, id), SaveVault(saved));
    PublishRuns(before, saved, tables, id);
    var now := Abandoned(before, saved, tables, id);
    RecoveryRuns(now, 1);
    hide Legal, Exclusive, Replay, RecoveryBy, BeginByZero, PublishByZero;
    var run := BeginByZero(id) + [SaveVault(saved)];
    LegalConcat(d, BeginByZero(id), [SaveVault(saved)]);
    LegalConcat(d, run, PublishByZero(id));
    LegalConcat(d, run + PublishByZero(id), RecoveryBy(1));
  }

  /** Two transfers begin at once, the second publishes its journal over the first one's, the first commits. */
  function TwoCopies(a: TransactionId, b: TransactionId): seq<Event> {
    [By(0, Look), By(1, Look), By(0, Issue(a)), By(1, Issue(b)), By(0, CopyBackup), By(1, CopyBackup)]
  }

  function TwoJournals(a: TransactionId, b: TransactionId): seq<Event> {
    [By(0, WriteTemp(Journal(1, a, true))), By(1, WriteTemp(Journal(1, b, true))),
     By(0, PublishJournal(a)), By(1, PublishJournal(b))]
  }

  function TwoBegins(a: TransactionId, b: TransactionId): seq<Event> {
    TwoCopies(a, b) + TwoJournals(a, b)
  }

  function CommitOfFirst(a: TransactionId, vault: Vault, tables: Tables): seq<Event> {
    [By(0, OpenTx(Database(tables, Some(a)))), By(0, WriteVault(vault)), By(0, CommitTx), Crash]
  }

  function BothCopied(before: Vault, tables: Tables, a: TransactionId, b: TransactionId): Disk {
    Disk(Whole(before), Whole(before), Absent, map[], Database(tables, None), None, {a, b},
         map[0 := Beginning(true, true), 1 := Beginning(true, true)])
  }

  lemma TwoCopiesRun(before: Vault, tables: Tables, a: TransactionId, b: TransactionId)
    requires a != b
    ensures var d := Start(before, tables);
            Legal(d, TwoCopies(a, b)) && Replay(d, TwoCopies(a, b)) == BothCopied(before, tables, a, b)
  {
    hide Legal, Exclusive, Replay;
    var d := Start(before, tables);
    Empty(d);
    var r1 := [] + [By(0, Look)];
    Go(d, [], By(0, Look));
    var r2 := r1 + [By(1, Look)];
    Go(d, r1, By(1, Look));
    var r3 := r2 + [By(0, Issue(a))];
    Go(d, r2, By(0, Issue(a)));
    var r4 := r3 + [By(1, Issue(b))];
    Go(d, r3, By(1, Issue(b)));
    var r5 := r4 + [By(0, CopyBackup)];
    Go(d, r4, By(0, CopyBackup));
    Go(d, r5, By(1, CopyBackup));
    assert r5 + [By(1, CopyBackup)] == TwoCopies(a, b);
  }

  lemma WritesOwnTemp(d: Disk, c: Client, journal: Journal)
    requires InPhase(d, c, Beginning(true, true)) && journal.version == 1 && journal.vaultExisted
    requires journal.transactionId in d.issued
    ensures var e := By(c, WriteTemp(journal));
            Enabled(d, e) && Apply(d, e) == d.(temps := d.temps[journal.transactionId := Whole(journal)])
  {
  }

  /** Publishing looks neither at a journal that is already there nor at the vault. */
  lemma PublishesOverAnything(d: Disk, c: Client, journal: Journal)
    requires InPhase(d, c, Beginning(true, true)) && journal.vaultExisted && d.db.lastCommit.None?
    requires var id := journal.transactionId; id in d.temps && d.temps[id] == Whole(journal)
    ensures var id := journal.transactionId;
            var e := By(c, PublishJournal(id));
            && Enabled(d, e)
            && Apply(d, e) ==
               d.(journal := Whole(journal), temps := d.temps - {id}, clients := d.clients[c := Working(id)])
  {
  }

  lemma TwoJournalsRun(before: Vault, tables: Tables, a: TransactionId, b: TransactionId)
    requires a != b
    ensures var d := BothCopied(before, tables, a, b);
            && Legal(d, TwoJournals(a, b))
            && Replay(d, TwoJournals(a, b)) ==
               d.(journal := Whole(Journal(1, b, true)), clients := map[0 := Working(a), 1 := Working(b)])
  {
    hide Legal, Exclusive, Replay, Enabled, Apply, Alone;
    var d := BothCopied(before, tables, a, b);
    var ja, jb := Journal(1, a, true), Journal(1, b, true);
    var r1, r2 := [By(0, WriteTemp(ja))], [By(0, WriteTemp(ja)), By(1, WriteTemp(jb))];
    var r3 := r2 + [By(0, PublishJournal(a))];
    var d1 := d.(temps := map[a := Whole(ja)]);
    var d2 := d.(temps := map[a := Whole(ja), b := Whole(jb)]);
    var d3 := d2.(journal := Whole(ja), temps := d2.temps - {a}, clients := d2.clients[0 := Working(a)]);
    Empty(d);
    WritesOwnTemp(d, 0, ja);
    Go(d, [], By(0, WriteTemp(ja)));
    assert [] + [By(0, WriteTemp(ja))] == r1;
    WritesOwnTemp(d1, 1, jb);
    Go(d, r1, By(1, WriteTemp(jb)));
    assert r1 + [By(1, WriteTemp(jb))] == r2;
    PublishesOverAnything(d2, 0, ja);
    Go(d, r2, By(0, PublishJournal(a)));
    PublishesOverAnything(d3, 1, jb);
    Go(d, r3, By(1, PublishJournal(b)));
    assert r3 + [By(1, PublishJournal(b))] == TwoJournals(a, b);
    assert d3.temps - {b} == map[];
  }

  lemma TwoBeginsRun(before: Vault, tables: Tables, a: TransactionId, b: TransactionId)
    requires a != b
    ensures var d := Start(before, tables);
            && Legal(d, TwoBegins(a, b)) && !Exclusive(d, TwoBegins(a, b))
            && Replay(d, TwoBegins(a, b)) ==
               Disk(Whole(before), Whole(before), Whole(Journal(1, b, true)), map[], Database(tables, None), None,
                    {a, b}, map[0 := Working(a), 1 := Working(b)])
  {
    var d := Start(before, tables);
    TwoCopiesRun(before, tables, a, b);
    TwoJournalsRun(before, tables, a, b);
    NotAloneAtOnce(d, TwoCopies(a, b));
    hide Legal, Exclusive, Replay, TwoCopies, TwoJournals;
    LegalConcat(d, TwoCopies(a, b), TwoJournals(a, b));
  }

  lemma NotAloneAtOnce(d: Disk, run: seq<Event>)
    requires d.clients == map[] && d.journal.Absent? && |run| >= 2 && run[0] == By(0, Look) && run[1] == By(1, Look)
    ensures !Exclusive(d, run)
  {
    var next := Apply(d, By(0, Look));
    assert 0 in next.clients;
    assert run[1..][0] == By(1, Look);
    assert !Alone(next, By(1, Look));
  }

  lemma CommitRuns(d: Disk, a: TransactionId, vault: Vault, tables: Tables)
    requires InPhase(d, 0, Working(a))
    ensures Legal(d, CommitOfFirst(a, vault, tables))
    ensures Replay(d, CommitOfFirst(a, vault, tables)) ==
            d.(vault := Whole(vault), db := Database(tables, Some(a)), tx := None, clients := map[])
  {
    hide Legal, Exclusive, Replay;
    Empty(d);
    var openTx := By(0, OpenTx(Database(tables, Some(a))));
    var r1 := [] + [openTx];
    Go(d, [], openTx);
    var r2 := r1 + [By(0, WriteVault(vault))];
    Go(d, r1, By(0, WriteVault(vault)));
    var r3 := r2 + [By(0, CommitTx)];
    Go(d, r2, By(0, CommitTx));
    Go(d, r3, Crash);
    assert r3 + [Crash] == CommitOfFirst(a, vault, tables);
  }

  /** Without the condition that a client is alone atomicity fails: recovery leads to the old vault beside the new
      tables. */
  lemma TwoTransfersMix(before: Vault, after: Vault, tables: Tables, newTables: Tables, a: TransactionId,
                        b: TransactionId)
    requires a != b
    ensures var d := Start(before, tables);
            var run := TwoBegins(a, b) + CommitOfFirst(a, after, newTables);
            && Sound(d) && Legal(d, run + RecoveryBy(2)) && !Exclusive(d, run + RecoveryBy(2))
            && View(Replay(d, run + RecoveryBy(2))) == Store(Whole(before), newTables)
            && Replay(d, run + RecoveryBy(2)).journal.Absent?
  {
    var d := Start(before, tables);
    TwoBeginsRun(before, tables, a, b);
    var begun := Replay(d, TwoBegins(a, b));
    CommitRuns(begun, a, after, newTables);
    var torn := Replay(begun, CommitOfFirst(a, after, newTables));
    RecoveryRuns(torn, 2);
    hide Legal, Exclusive, Replay, RecoveryBy, TwoBegins, CommitOfFirst;
    var run := TwoBegins(a, b) + CommitOfFirst(a, after, newTables);
    LegalConcat(d, TwoBegins(a, b), CommitOfFirst(a, after, newTables));
    LegalConcat(d, run, RecoveryBy(2));
  }
}
