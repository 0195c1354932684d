/** The code that drives the recovery journal: begin, commit, abort, recover, and its two clients.
    Any file or database operation may fail; every method records the protocol steps it takes, so that a
    crash after any of them is a prefix of the recorded run. */
module TransferRecovery {
  import opened Common
  import opened RecoveryProtocol

  datatype RecoveryError =
    | RecoveryFailed
    | BackupMissing
    | QueryFailed
    | ImportFailed
    | SecretFailed

  type SecretWrite = (string, string)
  type SecretBackup = (string, Option<string>)

  /** The secret store after the first `n` writes. */
  function Stored(memory: Vault, writes: seq<SecretWrite>, n: nat): Vault
    requires n <= |writes|
  {
    if n == 0 then memory else Stored(memory, writes, n - 1)[writes[n - 1].0 := writes[n - 1].1]
  }

  /** A slot holds what was written to it last, and what it held before when nothing was. */
  lemma {:induction false} StoredExactly(memory: Vault, writes: seq<SecretWrite>, n: nat, slot: string)
    requires n <= |writes|
    ensures slot in Stored(memory, writes, n) <==> slot in memory || exists k :: 0 <= k < n && writes[k].0 == slot
    ensures forall k :: 0 <= k < n && writes[k].0 == slot && (forall j :: k < j < n ==> writes[j].0 != slot) ==>
              Stored(memory, writes, n)[slot] == writes[k].1
    ensures slot in memory && (forall k :: 0 <= k < n ==> writes[k].0 != slot) ==>
              Stored(memory, writes, n)[slot] == memory[slot]
  {
    if n > 0 {
      StoredExactly(memory, writes, n - 1, slot);
    }
  }

  function Previous(memory: Vault, slot: string): Option<string> {
    if slot in memory then Some(memory[slot]) else None
  }

  /** The backups recorded before the first `n` writes: each slot's value just before its write. */
  function Backups(memory: Vault, writes: seq<SecretWrite>, n: nat): seq<SecretBackup>
    requires n <= |writes|
  {
    if n == 0 then []
    else Backups(memory, writes, n - 1) + [(writes[n - 1].0, Previous(Stored(memory, writes, n - 1), writes[n - 1].0))]
  }

  function Undo(memory: Vault, backup: SecretBackup): Vault {
    if backup.1.Some? then memory[backup.0 := backup.1.value] else memory - {backup.0}
  }

  /** Replaying backups from the last to the first. */
  function Undone(memory: Vault, backups: seq<SecretBackup>): Vault
    decreases |backups|
  {
    if backups == [] then memory
    else Undone(Undo(memory, backups[|backups| - 1]), backups[..|backups| - 1])
  }

  /** The undo log restores the original store from any prefix of the writes, repeated slots included,
      with slots that were absent absent again. */
  lemma {:induction false} UndoRestores(memory: Vault, writes: seq<SecretWrite>, n: nat)
    requires n <= |writes|
    ensures |Backups(memory, writes, n)| == n
    ensures Undone(Stored(memory, writes, n), Backups(memory, writes, n)) == memory
  {
    if n > 0 {
      UndoRestores(memory, writes, n - 1);
      var before := Stored(memory, writes, n - 1);
      var (slot, value) := writes[n - 1];
      assert Backups(memory, writes, n)[..n - 1] == Backups(memory, writes, n - 1);
      assert Undo(before[slot := value], (slot, Previous(before, slot))) == before;
    }
  }

  /** The sync import records every backup before it writes anything. */
  function FirstBackups(memory: Vault, writes: seq<SecretWrite>, n: nat): seq<SecretBackup>
    requires n <= |writes|
  {
    if n == 0 then []
    else FirstBackups(memory, writes, n - 1) + [(writes[n - 1].0, Previous(memory, writes[n - 1].0))]
  }

  ghost predicate Named(writes: seq<SecretWrite>, slot: string) {
    exists k :: 0 <= k < |writes| && writes[k].0 == slot
  }

  ghost predicate AgreeElsewhere(a: Vault, b: Vault, writes: seq<SecretWrite>) {
    forall slot :: !Named(writes, slot) ==> Previous(a, slot) == Previous(b, slot)
  }

  lemma SameVault(a: Vault, b: Vault)
    requires forall slot :: Previous(a, slot) == Previous(b, slot)
    ensures a == b
  {
    forall slot ensures slot in a <==> slot in b {
      assert Previous(a, slot) == Previous(b, slot);
    }
    forall slot | slot in a ensures a[slot] == b[slot] {
      assert Previous(a, slot) == Previous(b, slot);
    }
  }

  /** Such a log also restores the original store from any prefix of the writes. */
  lemma {:induction false} FirstUndoRestores(current: Vault, memory: Vault, writes: seq<SecretWrite>, n: nat)
    requires n <= |writes| && AgreeElsewhere(current, memory, writes[..n])
    ensures |FirstBackups(memory, writes, n)| == n
    ensures Undone(current, FirstBackups(memory, writes, n)) == memory
    decreases n
  {
    if n == 0 {
      assert forall slot :: !Named(writes[..0], slot);
      SameVault(current, memory);
    } else {
      var slot := writes[n - 1].0;
      var undone := Undo(current, (slot, Previous(memory, slot)));
      assert writes[..n] == writes[..n - 1] + [writes[n - 1]];
      forall x | !Named(writes[..n - 1], x) ensures Previous(undone, x) == Previous(memory, x) {
        if x != slot {
          assert !Named(writes[..n], x);
        }
      }
      FirstUndoRestores(undone, memory, writes, n - 1);
      assert FirstBackups(memory, writes, n)[..n - 1] == FirstBackups(memory, writes, n - 1);
    }
  }

  lemma {:induction false} StoredAgrees(memory: Vault, writes: seq<SecretWrite>, n: nat)
    requires n <= |writes|
    ensures AgreeElsewhere(Stored(memory, writes, n), memory, writes)
  {
    if n > 0 {
      StoredAgrees(memory, writes, n - 1);
    }
  }

  /** The vault file after `n` saves: every save stores the whole unlocked vault, whatever the file held. */
  function Written(file: File<Vault>, memory: Vault, n: nat): File<Vault> {
    if n == 0 then file else Whole(memory)
  }

  /** The command that a directory object belongs to. */
  const ME: Client := 0

  /** What a client started from: whether its journal was published, and the unlocked vault and the vault file when
      `begin` returned. */
  datatype Entry = Entry(begun: bool, memory: Vault, file: File<Vault>)

  class DataDirectory {
    var disk: Disk
    /** The unlocked vault in memory, which all commands share. */
    var memory: Vault
    /** The disk at the start, and every step taken since. */
    ghost const origin: Disk
    ghost var run: seq<Event>
    /** When set, no operation fails and every secret names a known kind of entry. */
    const reliable: bool
    /** When set, no other command saves a secret while `begin` is under way. */
    const alone: bool

    constructor (disk: Disk, memory: Vault, reliable: bool, alone: bool)
      requires Sound(disk)
      ensures Valid() && this.disk == disk && this.memory == memory && origin == disk && run == []
      ensures this.reliable == reliable && this.alone == alone
    {
      this.disk, this.memory, this.reliable, this.alone := disk, memory, reliable, alone;
      origin, run := disk, [];
    }

    ghost predicate Valid()
      reads this
    {
      Sound(origin) && Exclusive(origin, run) && Replay(origin, run) == disk && Sound(disk)
    }

    /** No client is between its `begin` and its end. */
    predicate Idle()
      reads this
    {
      disk.clients == map[]
    }

    predicate At(phase: Phase)
      reads this
    {
      disk.clients == map[ME := phase]
    }

    /** This command's journal is published and its transaction not committed. */
    predicate AtWork()
      reads this
    {
      disk.clients.Keys == {ME} && disk.clients[ME].Working?
    }

    /** Whether an operation of the system succeeds. */
    method Try() returns (ok: bool)
      ensures reliable ==> ok
    {
      ok := *;
      ok := ok || reliable;
    }

    /** Take one step of the protocol. */
    method Step(e: Event)
      requires Valid() && Enabled(disk, e) && Alone(disk, e)
      modifies this`disk, this`run
      ensures Valid() && disk == Apply(old(disk), e) && run == old(run) + [e]
      ensures View(disk) == AtomicStep(View(old(disk)), old(disk), e)
    {
      LegalConcat(origin, run, [e]);
      OneStep(disk, e);
      StepRefines(disk, e);
      hide Sound, Enabled, Alone, View, AtomicStep, Legal, Exclusive, Replay;
      disk := Apply(disk, e);
      run := run + [e];
    }

    /** Take one step of this command. */
    method Do(act: Act)
      requires Valid() && MayAct(disk, ME, act) && disk.clients.Keys <= {ME}
      modifies this`disk, this`run
      ensures Valid() && disk == ApplyAct(old(disk), ME, act) && run == old(run) + [By(ME, act)]
      ensures View(disk) == AtomicStep(View(old(disk)), old(disk), By(ME, act))
      ensures !act.CommitTx? ==> Quiet(old(run), run)
    {
      hide Sound, View, AtomicStep, Legal, Exclusive, Replay, ApplyAct, MayAct;
      Step(By(ME, act));
    }

    /** Nothing more is done by this command. */
    method Finish()
      requires Valid() && disk.clients.Keys <= {ME}
      modifies this`disk, this`run
      ensures Valid() && Quiet(old(run), run) && View(disk) == View(old(disk))
      ensures disk == old(disk).(clients := map[])
    {
      hide Sound, Legal, Exclusive, Replay, View, Quiet;
      Do(Leave);
      assert disk.clients == map[];
    }

    /** What other commands do to the vault while this one runs: saves of the shared unlocked vault, of which the
        last one that reached the file counts. */
    method Others()
      requires Valid() && disk.journal.Absent?
      modifies this`disk, this`run, this`memory
      ensures Valid() && disk == old(disk).(vault := disk.vault)
      ensures disk.vault == old(disk).vault || disk.vault == Whole(memory)
      ensures alone ==> disk == old(disk) && run == old(run) && memory == old(memory)
    {
      hide Sound, Legal, Exclusive, Replay;
      var idle: bool := *;
      if !alone && !idle {
        var changed: Vault := *;
        var saved: bool := *;
        memory := changed;
        if saved {
          Step(SaveVault(memory));
        }
      }
    }

    /** `write_json_document` for the journal: a temporary file of its own, then rename. It does not look at the
        vault or at other journals. */
    method WriteJournal(journal: Journal) returns (ok: bool)
      requires Valid() && disk.clients.Keys == {ME} && disk.clients[ME].Beginning?
      requires disk.clients[ME].existed ==> disk.clients[ME].copied
      requires journal.version == 1 && journal.transactionId in disk.issued
      requires journal.vaultExisted == disk.clients[ME].existed
      requires disk.db.lastCommit != Some(journal.transactionId)
      modifies this`disk, this`run
      ensures Valid() && Quiet(old(run), run)
      ensures ok ==> disk == old(disk).(journal := Whole(journal), temps := disk.temps, clients := disk.clients)
      ensures ok ==> At(Working(journal.transactionId))
      ensures ok ==> View(disk) == View(old(disk)).(vault := OriginalOf(journal, old(disk).backup))
      ensures !ok ==> disk == old(disk).(temps := disk.temps) && View(disk) == View(old(disk))
      ensures reliable ==> ok
    {
      hide Sound, Legal, Exclusive, Replay, View;
      ok := false;
      var id := journal.transactionId;
      var created := Try();
      var written := Try();
      var renamed := Try();
      if created {
        Do(TearTemp(id));
      }
      if created && written {
        Do(WriteTemp(journal));
        if renamed {
          Do(PublishJournal(id));
          return true;
        }
      }
      Do(RemoveTemp(id));
    }

    /** `fs::copy(vault, backup)`. */
    method CopyVaultToBackup() returns (ok: bool)
      requires Valid() && At(Beginning(true, false)) && disk.vault.Whole?
      modifies this`disk, this`run
      ensures Valid() && Quiet(old(run), run) && View(disk) == View(old(disk))
      ensures disk == old(disk).(backup := disk.backup, clients := disk.clients) && At(Beginning(true, ok))
      ensures ok ==> disk.backup == disk.vault
      ensures reliable ==> ok
    {
      hide Sound, Legal, Exclusive, Replay, View;
      ok := false;
      var started := Try();
      var copied := Try();
      if started {
        Do(TearBackup);
        if copied {
          Do(CopyBackup);
          ok := true;
        }
      }
    }

    /** The first half of `begin`: no journal, and a copy of the vault if there is one. */
    method TakeCopy() returns (ok: bool)
      requires Valid() && Idle() && disk.journal.Absent?
      modifies this`disk, this`run
      ensures Valid() && Quiet(old(run), run) && View(disk) == View(old(disk))
      ensures disk == old(disk).(backup := disk.backup, clients := disk.clients)
      ensures ok ==> At(Beginning(disk.vault.Whole?, disk.vault.Whole?))
      ensures ok && disk.vault.Whole? ==> disk.backup == disk.vault
      ensures !ok ==> Idle()
      ensures reliable ==> ok
    {
      WholeWithoutJournal(disk);
      hide Sound, Legal, Exclusive, Replay, View, Quiet;
      ghost var first := run;
      Do(Look);
      ghost var before := run;
      ok := Try();
      if ok && !disk.vault.Absent? {
        ok := CopyVaultToBackup();
        QuietThen(first, before, run);
        before := run;
      }
      if !ok {
        Finish();
        QuietThen(first, before, run);
      }
    }

    /** `ConnectionTransferRecovery::begin`. The journal it publishes goes back to the vault it copied, whatever
        other commands have saved since. */
    method Begin(freshId: TransactionId) returns (r: Result<Done, RecoveryError>)
      requires Valid() && Idle() && freshId !in disk.issued
      modifies this`disk, this`run, this`memory
      ensures Valid()
      ensures disk == old(disk).(
                        vault := disk.vault, backup := disk.backup, journal := disk.journal, temps := disk.temps,
                        issued := disk.issued, clients := disk.clients)
      ensures disk.vault == old(disk).vault || disk.vault == Whole(memory)
      ensures r.Ok? ==> old(disk).journal.Absent? && At(Working(freshId)) && View(disk) == View(old(disk))
      ensures r.Ok? ==> Pending(disk) && disk.journal.content.transactionId == freshId
      ensures r.Ok? ==> Original(disk) == old(disk).vault
      ensures r.Err? ==> Idle() && disk.journal == old(disk).journal
      ensures old(disk).journal.Whole? ==> r.Err? && disk == old(disk) && memory == old(memory) && run == old(run)
      ensures alone ==> Quiet(old(run), run) && disk.vault == old(disk).vault && memory == old(memory)
      ensures alone ==> View(disk) == View(old(disk))
      ensures reliable && old(disk).journal.Absent? ==> r.Ok?
    {
      FreshInDatabase(disk, freshId);
      WholeWithoutJournal(disk);
      QuietStart(run);
      hide Sound, Legal, Exclusive, Replay, Quiet;
      if !disk.journal.Absent? {
        return Err(RecoveryFailed);
      }
      var copied := TakeCopy();
      if !copied {
        return Err(RecoveryFailed);
      }
      ghost var before := run;
      Others();
      var existed := disk.clients[ME].existed;
      r := Publish(freshId, existed);
      if alone {
        QuietThen(old(run), before, run);
      }
    }

    /** The second half of `begin`: an id and the journal; when that fails, the backup goes. */
    method Publish(freshId: TransactionId, existed: bool) returns (r: Result<Done, RecoveryError>)
      requires Valid() && disk.journal.Absent? && freshId !in disk.issued && disk.db.lastCommit != Some(freshId)
      requires At(Beginning(existed, existed))
      modifies this`disk, this`run
      ensures Valid() && Quiet(old(run), run)
      ensures disk == old(disk).(
                        backup := disk.backup, journal := disk.journal, temps := disk.temps, issued := disk.issued,
                        clients := disk.clients)
      ensures r.Ok? ==> At(Working(freshId)) && disk.journal == Whole(Journal(1, freshId, existed))
      ensures r.Ok? ==> disk.backup == old(disk).backup
      ensures r.Err? ==> Idle() && disk.journal.Absent?
      ensures reliable ==> r.Ok?
    {
      hide Sound, Legal, Exclusive, Replay, View, Quiet;
      ghost var first := run;
      Do(Issue(freshId));
      ghost var before := run;
      var removed := Try();
      var written := WriteJournal(Journal(1, freshId, existed));
      QuietThen(first, before, run);
      if written {
        return Ok(Done);
      }
      before := run;
      if removed {
        Do(RemoveBackup);
        QuietThen(first, before, run);
        before := run;
      }
      Finish();
      QuietThen(first, before, run);
      r := Err(RecoveryFailed);
    }

    /** `cleanup_recovery_files`: the journal first, then the backup. */
    method Cleanup() returns (r: Result<Done, RecoveryError>)
      requires Valid() && MayAct(disk, ME, RemoveJournal) && disk.clients.Keys == {ME}
      requires Pending(disk) ==> disk.vault == Original(disk)
      modifies this`disk, this`run
      ensures Valid() && Idle() && Quiet(old(run), run) && View(disk) == View(old(disk))
      ensures disk == old(disk).(journal := disk.journal, backup := disk.backup, clients := map[])
      ensures r.Ok? ==> disk.journal.Absent? && disk.backup.Absent?
      ensures disk.journal in {Absent, old(disk).journal}
      ensures r.Err? ==> r.error == RecoveryFailed
      ensures reliable ==> r.Ok?
    {
      hide Sound, Legal, Exclusive, Replay, Quiet;
      ghost var first := run;
      var journalRemoved := Try();
      var backupRemoved := Try();
      if !journalRemoved {
        Finish();
        return Err(RecoveryFailed);
      }
      Do(RemoveJournal);
      ghost var before := run;
      r := Ok(Done);
      if !disk.backup.Absent? {
        if backupRemoved {
          Do(RemoveBackup);
          QuietThen(first, before, run);
          before := run;
        } else {
          r := Err(RecoveryFailed);
        }
      }
      Finish();
      QuietThen(first, before, run);
    }

    /** Copy the backup over the vault; the copy may stop half-way. */
    method CopyBack() returns (ok: bool)
      requires Valid() && MayAct(disk, ME, RestoreVault) && disk.clients.Keys == {ME}
      modifies this`disk, this`run
      ensures Valid() && Quiet(old(run), run) && View(disk) == View(old(disk))
      ensures disk == old(disk).(vault := disk.vault, clients := disk.clients) && disk.clients.Keys == {ME}
      ensures ok ==> disk.vault == disk.backup && At(Restored)
      ensures reliable ==> ok
    {
      QuietStart(run);
      hide Sound, Legal, Exclusive, Replay, View, Quiet;
      ghost var first := run;
      var started := Try();
      var finished := Try();
      if started {
        Do(TearVault);
      } else {
        return false;
      }
      ok := finished;
      if ok {
        ghost var before := run;
        Do(RestoreVault);
        QuietThen(first, before, run);
      }
    }

    /** `restore_vault_backup_with_state`. The "backup is missing" error cannot occur. */
    method Restore(vaultExisted: bool) returns (r: Result<Done, RecoveryError>)
      requires Valid() && Pending(disk) && vaultExisted == disk.journal.content.vaultExisted
      requires AtWork() || At(Recovering)
      modifies this`disk, this`run
      ensures Valid() && Quiet(old(run), run) && View(disk) == View(old(disk))
      ensures disk == old(disk).(vault := disk.vault, clients := disk.clients) && disk.clients.Keys == {ME}
      ensures r.Ok? ==> disk.vault == Original(disk) && At(Restored)
      ensures r != Err(BackupMissing)
      ensures reliable ==> r.Ok?
    {
      BackupIsThere(disk);
      QuietStart(run);
      hide Sound, Legal, Exclusive, Replay, View, Quiet, ApplyAct;
      if vaultExisted {
        if disk.backup.Absent? {
          return Err(BackupMissing);
        }
        var copied := CopyBack();
        return if copied then Ok(Done) else Err(RecoveryFailed);
      }
      if disk.vault.Absent? {
        Do(FindNoVault);
        return Ok(Done);
      }
      var removed := Try();
      if !removed {
        return Err(RecoveryFailed);
      }
      Do(RemoveVault);
      return Ok(Done);
    }

    /** Put the vault back and remove the files, or leave them for the next attempt. */
    method RestoreAndClean() returns (r: Result<Done, RecoveryError>)
      requires Valid() && Pending(disk) && (AtWork() || At(Recovering))
      modifies this`disk, this`run
      ensures Valid() && Idle() && Quiet(old(run), run) && View(disk) == View(old(disk))
      ensures disk == old(disk).(
                        vault := disk.vault, journal := disk.journal, backup := disk.backup, clients := map[])
      ensures disk.journal.Absent? ==> disk.vault == Original(old(disk))
      ensures r.Ok? ==> disk.journal.Absent? && disk.backup.Absent?
      ensures r != Err(BackupMissing)
      ensures reliable ==> r.Ok?
    {
      hide Sound, Legal, Exclusive, Replay, View, Quiet;
      ghost var first := run;
      r := Restore(disk.journal.content.vaultExisted);
      ghost var before := run;
      if r.Err? {
        Finish();
      } else {
        r := Cleanup();
      }
      QuietThen(first, before, run);
    }

    /** `abort`. */
    method Abort() returns (r: Result<Done, RecoveryError>)
      requires Valid() && AtWork()
      modifies this`disk, this`run
      ensures Valid() && Idle() && Quiet(old(run), run) && View(disk) == View(old(disk))
      ensures disk == old(disk).(
                        vault := disk.vault, journal := disk.journal, backup := disk.backup, clients := map[])
      ensures Pending(old(disk)) && (disk.journal.Absent? ==> disk.vault == Original(old(disk)))
      ensures r.Ok? ==> disk.journal.Absent? && disk.backup.Absent?
      ensures reliable ==> r.Ok?
    {
      WorkIsPending(disk);
      hide Sound, Legal, Exclusive, Replay, View, Quiet;
      var readable := Try();
      if !readable {
        Finish();
        return Err(RecoveryFailed);
      }
      r := RestoreAndClean();
    }

    /** `recover_pending_connection_transfer`, run when the vault is unlocked. When it completes, the two
        stores are what the last atomic step made them; when it fails, that is still what recovery leads to. */
    method Recover() returns (r: Result<Done, RecoveryError>)
      requires Valid() && Idle()
      modifies this`disk, this`run
      ensures Valid() && Idle() && Quiet(old(run), run) && View(disk) == View(old(disk))
      ensures r.Ok? ==> disk.journal.Absent? && Store(disk.vault, disk.db.tables) == View(old(disk))
      ensures r.Ok? ==>
                disk.vault ==
                if old(disk).journal.Absent? then old(disk).vault
                else
                  var journal := old(disk).journal.content;
                  if old(disk).db.lastCommit == Some(journal.transactionId) then old(disk).vault
                  else if journal.vaultExisted then old(disk).backup else Absent
      ensures r != Err(BackupMissing)
      ensures reliable ==> r.Ok?
    {
      JournalIsComplete(disk);
      QuietStart(run);
      hide Sound, Legal, Exclusive, Replay, Quiet;
      if disk.journal.Absent? {
        return Ok(Done);
      }
      ghost var first := run;
      Do(StartRecovery);
      ghost var before := run;
      var readable := Try();
      var queried := Try();
      var journal := disk.journal.content;
      if !readable || journal.version != 1 || !queried {
        Finish();
        r := Err(RecoveryFailed);
      } else if disk.db.lastCommit == Some(journal.transactionId) {
        r := Cleanup();
      } else {
        r := RestoreAndClean();
      }
      QuietThen(first, before, run);
    }

    /** `set_secret`: the unlocked vault changes first, then the file is replaced atomically. */
    method SecretSet(slot: string, value: string) returns (ok: bool)
      requires Valid() && AtWork()
      modifies this`disk, this`run, this`memory
      ensures Valid() && AtWork() && Quiet(old(run), run) && View(disk) == View(old(disk))
      ensures memory == old(memory)[slot := value]
      ensures disk == old(disk).(vault := if ok then Whole(memory) else old(disk).vault)
      ensures reliable ==> ok
    {
      QuietStart(run);
      hide Sound, Legal, Exclusive, Replay, View, Quiet;
      memory := memory[slot := value];
      ok := Try();
      if ok {
        Do(WriteVault(memory));
      }
    }

    /** `delete_secret`. */
    method SecretDelete(slot: string) returns (ok: bool)
      requires Valid() && AtWork()
      modifies this`disk, this`run, this`memory
      ensures Valid() && AtWork() && Quiet(old(run), run) && View(disk) == View(old(disk))
      ensures memory == old(memory) - {slot}
      ensures disk == old(disk).(vault := if ok then Whole(memory) else old(disk).vault)
      ensures reliable ==> ok
    {
      QuietStart(run);
      hide Sound, Legal, Exclusive, Replay, View, Quiet;
      memory := memory - {slot};
      ok := Try();
      if ok {
        Do(WriteVault(memory));
      }
    }

    /** An ordinary `set_secret` outside any transfer. It looks at no journal: while one is pending, the save is
        not part of what recovery leads to. A failed save leaves the unlocked vault ahead of the file. */
    method SaveSecret(slot: string, value: string) returns (ok: bool)
      requires Valid()
      modifies this`disk, this`run, this`memory
      ensures Valid() && memory == old(memory)[slot := value]
      ensures disk == old(disk).(vault := if ok then Whole(memory) else old(disk).vault)
      ensures View(disk) ==
              if ok && !Pending(old(disk)) then View(old(disk)).(vault := Whole(memory)) else View(old(disk))
      ensures reliable ==> ok
    {
      hide Sound, Legal, Exclusive, Replay, View, Pending;
      memory := memory[slot := value];
      ok := Try();
      if ok {
        Step(SaveVault(memory));
      }
    }

    /** `restore_secret_backups`: from the last backup to the first, stopping at the first failure. */
    method RestoreSecrets(backups: seq<SecretBackup>) returns (r: Result<Done, RecoveryError>)
      requires Valid() && AtWork()
      modifies this`disk, this`run, this`memory
      ensures Valid() && Quiet(old(run), run) && View(disk) == View(old(disk))
      ensures disk == old(disk).(vault := disk.vault)
      ensures r.Ok? ==> memory == Undone(old(memory), backups)
      ensures reliable ==> r.Ok?
    {
      QuietStart(run);
      hide Sound, Legal, Exclusive, Replay, View, Quiet;
      var i := |backups|;
      assert backups[..|backups|] == backups;
      while i > 0
        invariant 0 <= i <= |backups|
        invariant Valid() && Quiet(old(run), run) && View(disk) == View(old(disk))
        invariant disk == old(disk).(vault := disk.vault)
        invariant Undone(memory, backups[..i]) == Undone(old(memory), backups)
      {
        i := i - 1;
        var (slot, previous) := backups[i];
        assert backups[..i + 1][..i] == backups[..i];
        ghost var before := run;
        var ok: bool;
        if previous.Some? {
          ok := SecretSet(slot, previous.value);
        } else {
          ok := SecretDelete(slot);
        }
        QuietThen(old(run), before, run);
        if !ok {
          return Err(SecretFailed);
        }
      }
      return Ok(Done);
    }

    /** The failure path of both clients: undo the secrets, then abort. */
    method Undo(backups: seq<SecretBackup>) returns (r: Result<Done, RecoveryError>)
      requires Valid() && AtWork()
      modifies this`disk, this`run, this`memory
      ensures Valid() && Idle() && Quiet(old(run), run) && View(disk) == View(old(disk)) && Pending(old(disk))
      ensures disk.db == old(disk).db && disk.issued == old(disk).issued && disk.tx.None?
      ensures disk.journal.Absent? ==> memory == Undone(old(memory), backups) && disk.vault == Original(old(disk))
      ensures r.Ok? ==> disk.journal.Absent?
      ensures reliable ==> r.Ok?
    {
      WorkIsPending(disk);
      hide Sound, Legal, Exclusive, Replay, View, Quiet, Undone;
      ghost var first := run;
      Do(CloseTx);
      ghost var before := run;
      r := RestoreSecrets(backups);
      QuietThen(first, before, run);
      before := run;
      if r.Err? {
        Finish();
      } else {
        r := Abort();
      }
      QuietThen(first, before, run);
    }

    /** Undo and report the failure. */
    method Fail(backups: seq<SecretBackup>) returns (r: Result<Done, RecoveryError>)
      requires Valid() && AtWork()
      modifies this`disk, this`run, this`memory
      ensures Valid() && Idle() && Quiet(old(run), run) && View(disk) == View(old(disk)) && disk.db == old(disk).db
      ensures Pending(old(disk))
      ensures disk.journal.Absent? ==> memory == Undone(old(memory), backups) && disk.vault == Original(old(disk))
      ensures r.Err?
    {
      hide Sound, Legal, Exclusive, Replay, View, Quiet, Undone;
      r := Undo(backups);
      r := if r.Err? then r else Err(ImportFailed);
    }

    /** The loop over the secrets: back up, then write; undo everything at the first failure. */
    method WriteSecrets(writes: seq<SecretWrite>) returns (r: Result<seq<SecretBackup>, RecoveryError>)
      requires Valid() && AtWork()
      modifies this`disk, this`run, this`memory
      ensures Valid() && Quiet(old(run), run) && View(disk) == View(old(disk)) && disk.db == old(disk).db
      ensures Pending(old(disk))
      ensures r.Ok? ==> r.value == Backups(old(memory), writes, |writes|)
      ensures r.Ok? ==> memory == Stored(old(memory), writes, |writes|)
      ensures r.Ok? ==> disk == old(disk).(vault := Written(old(disk).vault, memory, |writes|))
      ensures r.Err? ==> Idle()
      ensures r.Err? && disk.journal.Absent? ==> memory == old(memory) && disk.vault == Original(old(disk))
      ensures reliable ==> r.Ok?
    {
      WorkIsPending(disk);
      BackupsStart(memory, writes);
      hide Sound, Legal, Exclusive, Replay, View, Quiet, Undone, Stored, Backups, Pending, Original;
      var backups: seq<SecretBackup> := [];
      QuietStart(run);
      for n := 0 to |writes|
        invariant Valid() && Quiet(old(run), run) && View(disk) == View(old(disk))
        invariant disk == old(disk).(vault := Written(old(disk).vault, memory, n))
        invariant memory == Stored(old(memory), writes, n)
        invariant backups == Backups(old(memory), writes, n)
      {
        var (slot, value) := writes[n];
        var named := Try();
        var readable := Try();
        ghost var before := run;
        if !named {
          // The kind of the entry is unknown: an early return that leaves journal and transaction behind.
          Finish();
          QuietThen(old(run), before, run);
          return Err(SecretFailed);
        }
        if !readable {
          UndoRestores(old(memory), writes, n);
          var _ := Fail(backups);
          QuietThen(old(run), before, run);
          return Err(ImportFailed);
        }
        BackupsStep(old(memory), writes, n);
        backups := backups + [(slot, Previous(memory, slot))];
        var ok := SecretSet(slot, value);
        QuietThen(old(run), before, run);
        if !ok {
          before := run;
          UndoRestores(old(memory), writes, n + 1);
          var _ := Fail(backups);
          QuietThen(old(run), before, run);
          return Err(ImportFailed);
        }
      }
      return Ok(backups);
    }

    /** `apply_transfer_data`, from `begin` on. The database work is opaque: it may fail, and otherwise it
        leaves `tables` in the open transaction. */
    method ApplyTransfer(freshId: TransactionId, tables: Tables, writes: seq<SecretWrite>)
      returns (r: Result<Done, RecoveryError>, ghost entry: Entry)
      requires Valid() && Idle() && freshId !in disk.issued
      modifies this`disk, this`run, this`memory
      ensures Valid() && Idle() && Entered(old(disk), old(memory), entry)
      ensures Outcome(old(disk), entry, freshId, tables, writes)
      ensures alone ==> TransferRun(old(run), run)
      ensures r.Ok? ==> disk.db.lastCommit == Some(freshId) && disk.journal.Absent?
      ensures reliable && old(disk).journal.Absent? ==> r.Ok?
      ensures old(disk).journal.Whole? ==> r.Err? && disk == old(disk) && memory == old(memory)
    {
      FreshInDatabase(disk, freshId);
      hide Sound, Legal, Exclusive, Replay, View, Enabled, Quiet, TransferRun;
      r := Begin(freshId);
      ghost var begun := run;
      entry := Entry(r.Ok?, memory, disk.vault);
      if alone {
        QuietIsTransfer(old(run), run);
      }
      if r.Err? {
        return;
      }
      var queried := Try();
      var locked := Try();
      if !queried || !locked {
        r := Err(if !queried then QueryFailed else ImportFailed);
        Finish();
        QuietIsTransfer(begun, run);
      } else {
        r := RunTransaction(freshId, tables, writes);
      }
      if alone {
        QuietFirst(old(run), begun, run);
      }
    }

    /** From `BEGIN IMMEDIATE` to `COMMIT`. */
    method RunTransaction(freshId: TransactionId, tables: Tables, writes: seq<SecretWrite>)
      returns (r: Result<Done, RecoveryError>)
      requires Valid() && At(Working(freshId)) && Pending(disk)
      modifies this`disk, this`run, this`memory
      ensures Valid() && Idle() && TransferRun(old(run), run)
      ensures Finished(old(disk), old(memory), freshId, tables, writes)
      ensures r.Ok? ==> disk.db.lastCommit == Some(freshId) && disk.journal.Absent?
      ensures reliable ==> r.Ok?
    {
      WorkIsPending(disk);
      hide Sound, Legal, Exclusive, Replay, View, Enabled, Quiet, TransferRun;
      hide Stored, Backups, Undone;
      Do(OpenTx(disk.db));
      ghost var started := run;
      var worked := Try();
      var committed := Try();
      if !worked {
        r := Fail([]);
        assert Undone(old(memory), []) == old(memory) by { NothingUndone(old(memory)); }
        QuietThen(old(run), started, run);
        QuietIsTransfer(old(run), run);
        return;
      }
      Do(OpenTx(Database(tables, Some(freshId))));
      QuietThen(old(run), started, run);
      ghost var filled := run;
      var written := WriteSecrets(writes);
      QuietThen(old(run), filled, run);
      ghost var secrets := run;
      if written.Err? {
        QuietIsTransfer(old(run), run);
        return Err(written.error);
      }
      if !committed {
        UndoRestores(old(memory), writes, |writes|);
        r := Fail(written.value);
        QuietThen(old(run), secrets, run);
        QuietIsTransfer(old(run), run);
        return;
      }
      r := CommitTransfer(freshId, tables);
      CommitAfterQuiet(old(run), secrets, run);
    }

    /** COMMIT, then `commit`: the one step at which both stores change. */
    method CommitTransfer(id: TransactionId, tables: Tables) returns (r: Result<Done, RecoveryError>)
      requires Valid() && At(Working(id)) && disk.tx == Some(Database(tables, Some(id)))
      modifies this`disk, this`run
      ensures Valid() && Idle() && Quiet(old(run) + [By(ME, CommitTx)], run)
      ensures disk.db == Database(tables, Some(id)) && disk.vault == old(disk).vault
      ensures View(disk) == Store(disk.vault, tables)
      ensures r.Ok? ==> disk.journal.Absent?
      ensures reliable ==> r.Ok?
    {
      WorkIsPending(disk);
      hide Sound, Legal, Exclusive, Replay, View, Enabled, Quiet;
      Do(CommitTx);
      r := Cleanup();
    }

    /** The collecting loop of `sync_import_transaction::apply`; nothing is written yet. */
    method CollectBackups(writes: seq<SecretWrite>) returns (backups: seq<SecretBackup>, ok: bool)
      ensures |backups| <= |writes| && backups == FirstBackups(memory, writes, |backups|)
      ensures ok ==> |backups| == |writes|
      ensures reliable ==> ok
    {
      backups, ok := [], true;
      for n := 0 to |writes|
        invariant |backups| == n && backups == FirstBackups(memory, writes, n)
      {
        var readable := Try();
        if !readable {
          ok := false;
          return;
        }
        backups := backups + [(writes[n].0, Previous(memory, writes[n].0))];
      }
    }

    /** `import_sync_secrets`: stops at the first failing write. */
    method ImportSecrets(writes: seq<SecretWrite>) returns (ok: bool, ghost n: nat)
      requires Valid() && AtWork()
      modifies this`disk, this`run, this`memory
      ensures Valid() && AtWork() && Quiet(old(run), run) && View(disk) == View(old(disk))
      ensures n <= |writes| && memory == Stored(old(memory), writes, n)
      ensures disk == old(disk).(vault := disk.vault)
      ensures ok ==> n == |writes| && disk.vault == Written(old(disk).vault, memory, n)
      ensures reliable ==> ok
    {
      hide Sound, Legal, Exclusive, Replay, View, Quiet;
      QuietStart(run);
      n := 0;
      for i := 0 to |writes|
        invariant Valid() && AtWork() && Quiet(old(run), run) && View(disk) == View(old(disk))
        invariant disk == old(disk).(vault := Written(old(disk).vault, memory, i))
        invariant n == i && memory == Stored(old(memory), writes, i)
      {
        var named := Try();
        if !named {
          return false, n;
        }
        ghost var before := run;
        ok := SecretSet(writes[i].0, writes[i].1);
        QuietThen(old(run), before, run);
        n := i + 1;
        if !ok {
          return;
        }
      }
      ok := true;
    }

    /** The secret half of the sync import: whichever way it stops, its log undoes it. */
    method ReplaceSecrets(writes: seq<SecretWrite>) returns (backups: seq<SecretBackup>, ok: bool)
      requires Valid() && AtWork()
      modifies this`disk, this`run, this`memory
      ensures Valid() && AtWork() && Quiet(old(run), run) && View(disk) == View(old(disk))
      ensures disk == old(disk).(vault := disk.vault)
      ensures Undone(memory, backups) == old(memory)
      ensures ok ==> memory == Stored(old(memory), writes, |writes|)
      ensures ok ==> disk.vault == Written(old(disk).vault, memory, |writes|)
      ensures reliable ==> ok
    {
      QuietStart(run);
      hide Sound, Legal, Exclusive, Replay, View, Quiet;
      backups, ok := CollectBackups(writes);
      ghost var n := 0;
      ghost var recorded := |backups|;
      if ok {
        ok, n := ImportSecrets(writes);
      }
      PartialUndo(old(memory), writes, recorded, n);
    }

    /** `sync_import_transaction::apply`: the snapshot replaces all tables in its own transaction, which
        also stores the commit key. */
    method ApplySync(freshId: TransactionId, tables: Tables, writes: seq<SecretWrite>)
      returns (r: Result<Done, RecoveryError>, ghost entry: Entry)
      requires Valid() && Idle() && freshId !in disk.issued
      modifies this`disk, this`run, this`memory
      ensures Valid() && Idle() && Entered(old(disk), old(memory), entry)
      ensures Outcome(old(disk), entry, freshId, tables, writes)
      ensures alone ==> TransferRun(old(run), run)
      ensures r.Ok? ==> disk.db.lastCommit == Some(freshId) && disk.journal.Absent?
      ensures reliable && old(disk).journal.Absent? ==> r.Ok?
      ensures old(disk).journal.Whole? ==> r.Err? && disk == old(disk) && memory == old(memory)
    {
      FreshInDatabase(disk, freshId);
      hide Sound, Legal, Exclusive, Replay, View, Enabled, Quiet, TransferRun;
      r := Begin(freshId);
      ghost var begun := run;
      entry := Entry(r.Ok?, memory, disk.vault);
      if alone {
        QuietIsTransfer(old(run), run);
      }
      if r.Err? {
        return;
      }
      r := ReplaceAll(freshId, tables, writes);
      if alone {
        QuietFirst(old(run), begun, run);
      }
    }

    method ReplaceAll(freshId: TransactionId, tables: Tables, writes: seq<SecretWrite>)
      returns (r: Result<Done, RecoveryError>)
      requires Valid() && At(Working(freshId)) && Pending(disk)
      modifies this`disk, this`run, this`memory
      ensures Valid() && Idle() && TransferRun(old(run), run)
      ensures Finished(old(disk), old(memory), freshId, tables, writes)
      ensures r.Ok? ==> disk.db.lastCommit == Some(freshId) && disk.journal.Absent?
      ensures reliable ==> r.Ok?
    {
      WorkIsPending(disk);
      hide Sound, Legal, Exclusive, Replay, View, Enabled, Quiet, TransferRun;
      hide Stored, Backups, Undone;
      var replaced := Try();
      var backups, ok := ReplaceSecrets(writes);
      ghost var before := run;
      if ok {
        Do(OpenTx(Database(tables, Some(freshId))));
        QuietThen(old(run), before, run);
        before := run;
        if replaced {
          r := CommitTransfer(freshId, tables);
          CommitAfterQuiet(old(run), before, run);
          return;
        }
      }
      r := Fail(backups);
      QuietThen(old(run), before, run);
      QuietIsTransfer(old(run), run);
    }

    /** How a client entered its transfer: nobody else saved, or the last save is what it holds. */
    predicate Entered(before: Disk, secrets: Vault, entry: Entry) {
      && (entry.file == before.vault || entry.file == Whole(entry.memory))
      && (alone ==> entry.memory == secrets && entry.file == before.vault)
    }

    /** What the rest of a transfer leaves, from a published journal on: after a COMMIT the stores recover to the new
        pair, otherwise to the old one; and with the journal gone and no COMMIT the secrets and the vault are
        those from before. */
    twostate predicate Finished(begun: Disk, secrets: Vault, id: TransactionId, tables: Tables,
                                writes: seq<SecretWrite>)
      requires begun.journal.Whole?
      reads this
    {
      if disk.db.lastCommit == Some(id) then
        && disk.db == Database(tables, Some(id))
        && memory == Stored(secrets, writes, |writes|)
        && View(disk) == Store(if writes == [] then begun.vault else Whole(memory), tables)
      else
        && disk.db == begun.db
        && View(disk) == View(begun)
        && (disk.journal.Absent? ==> memory == secrets && disk.vault == Original(begun))
    }

    /** What either client leaves, however it returns. A save of another command that fell inside `begin` is in the
        unlocked vault, and with the first write in the file; when the transfer fails the file goes back to
        what it was before. */
    twostate predicate Outcome(before: Disk, entry: Entry, id: TransactionId, tables: Tables, writes: seq<SecretWrite>)
      reads this
    {
      if disk.db.lastCommit == Some(id) then
        && disk.db == Database(tables, Some(id))
        && memory == Stored(entry.memory, writes, |writes|)
        && View(disk) == Store(if writes == [] then entry.file else Whole(memory), tables)
      else if entry.begun then
        && disk.db == before.db
        && View(disk) == View(before)
        && (disk.journal.Absent? ==> memory == entry.memory && disk.vault == before.vault)
      else
        && disk.db == before.db && disk.journal == before.journal
        && memory == entry.memory && disk.vault == entry.file
    }
  }

  lemma NothingUndone(memory: Vault)
    ensures Undone(memory, []) == memory
  {
  }

  lemma BackupsStart(memory: Vault, writes: seq<SecretWrite>)
    ensures Stored(memory, writes, 0) == memory && Backups(memory, writes, 0) == []
  {
  }

  lemma BackupsStep(memory: Vault, writes: seq<SecretWrite>, n: nat)
    requires n < |writes|
    ensures var before := Stored(memory, writes, n);
            && Stored(memory, writes, n + 1) == before[writes[n].0 := writes[n].1]
            && Backups(memory, writes, n + 1) ==
               Backups(memory, writes, n) + [(writes[n].0, Previous(before, writes[n].0))]
  {
  }

  lemma FreshInDatabase(d: Disk, id: TransactionId)
    requires Sound(d) && id !in d.issued
    ensures d.db.lastCommit != Some(id)
  {
  }

  lemma WholeWithoutJournal(d: Disk)
    requires Sound(d)
    ensures !d.journal.Torn? && (d.journal.Absent? ==> !d.vault.Torn?)
  {
  }

  lemma BackupIsThere(d: Disk)
    requires Sound(d) && Pending(d)
    ensures d.journal.content.vaultExisted ==> d.backup.Whole?
  {
  }

  lemma JournalIsComplete(d: Disk)
    requires Sound(d)
    ensures !d.journal.Torn? && (d.journal.Whole? ==> d.journal.content.version == 1)
  {
  }

  lemma WorkIsPending(d: Disk)
    requires Sound(d) && ME in d.clients && d.clients[ME].Working?
    ensures Pending(d) && d.journal.content.transactionId == d.clients[ME].id && !d.vault.Torn?
  {
  }

  /** Whichever way the import stopped, its log undoes it. */
  lemma PartialUndo(memory: Vault, writes: seq<SecretWrite>, recorded: nat, n: nat)
    requires n <= |writes| && recorded <= |writes| && (recorded < |writes| ==> n == 0)
    ensures Undone(Stored(memory, writes, n), FirstBackups(memory, writes, recorded)) == memory
  {
    assert writes[..|writes|] == writes;
    StoredAgrees(memory, writes, n);
    assert n == 0 ==> AgreeElsewhere(memory, memory, writes[..recorded]);
    FirstUndoRestores(Stored(memory, writes, n), memory, writes, recorded);
  }

  /** `after` extends `before` by steps of which none is a COMMIT or an ordinary save. */
  ghost predicate Quiet(before: seq<Event>, after: seq<Event>) {
    before <= after && forall e :: e in after[|before|..] ==> !IsCommit(e) && !Saves(e)
  }

  /** `after` extends `before` by at most one COMMIT among quiet steps. */
  ghost predicate TransferRun(before: seq<Event>, after: seq<Event>) {
    Quiet(before, after) || exists middle :: Quiet(before, middle) && Quiet(middle + [By(ME, CommitTx)], after)
  }

  lemma QuietThen(a: seq<Event>, b: seq<Event>, c: seq<Event>)
    requires Quiet(a, b) && Quiet(b, c)
    ensures Quiet(a, c)
  {
    assert c[|a|..] == b[|a|..] + c[|b|..];
  }

  lemma QuietFirst(a: seq<Event>, b: seq<Event>, c: seq<Event>)
    requires Quiet(a, b) && TransferRun(b, c)
    ensures TransferRun(a, c)
  {
    if Quiet(b, c) {
      QuietThen(a, b, c);
    } else {
      var middle :| Quiet(b, middle) && Quiet(middle + [By(ME, CommitTx)], c);
      QuietThen(a, b, middle);
    }
  }

  lemma CommitAfterQuiet(a: seq<Event>, b: seq<Event>, c: seq<Event>)
    requires Quiet(a, b) && Quiet(b + [By(ME, CommitTx)], c)
    ensures TransferRun(a, c)
  {
  }

  lemma {:induction false} NoCommits(run: seq<Event>)
    requires forall e :: e in run ==> !IsCommit(e)
    ensures Commits(run) == 0
  {
    if run != [] {
      assert run[0] in run;
      NoCommits(run[1..]);
    }
  }

  /** The steps a client records are those of one transfer, so crash atomicity applies to every prefix. */
  lemma TransferRunIsOneTransfer(before: seq<Event>, after: seq<Event>)
    requires TransferRun(before, after)
    ensures before <= after && OneTransfer(after[|before|..])
  {
    if Quiet(before, after) {
      NoCommits(after[|before|..]);
    } else {
      var middle :| Quiet(before, middle) && Quiet(middle + [By(ME, CommitTx)], after);
      var first, last := middle[|before|..], after[|middle| + 1..];
      assert after[|before|..] == first + [By(ME, CommitTx)] + last;
      OneCommit(first, last);
    }
  }

  lemma OneCommit(first: seq<Event>, last: seq<Event>)
    requires forall e :: e in first ==> !IsCommit(e) && !Saves(e)
    requires forall e :: e in last ==> !IsCommit(e) && !Saves(e)
    ensures OneTransfer(first + [By(ME, CommitTx)] + last)
  {
    NoCommits(first);
    NoCommits(last);
    CommitsConcat(first, [By(ME, CommitTx)]);
    CommitsConcat(first + [By(ME, CommitTx)], last);
    assert [By(ME, CommitTx)][1..] == [];
  }

  lemma QuietIsTransfer(a: seq<Event>, b: seq<Event>)
    requires Quiet(a, b)
    ensures TransferRun(a, b)
  {
  }

  lemma QuietStart(run: seq<Event>)
    ensures Quiet(run, run)
  {
  }

  /** A crash after any prefix of the steps that an undisturbed client recorded: what recovery then reads off the
      disk is what was there before the client started or what was there when it returned. */
  lemma CrashInClient(origin: Disk, start: seq<Event>, end: seq<Event>, n: nat)
    requires Sound(origin) && Exclusive(origin, end) && TransferRun(start, end)
    requires Exclusive(origin, start) && Replay(origin, start).clients == map[]
    requires |start| <= n <= |end|
    ensures Exclusive(origin, end[..n] + [Crash])
    ensures Sound(Replay(origin, end[..n] + [Crash]))
    ensures View(Replay(origin, end[..n] + [Crash])) in {View(Replay(origin, start)), View(Replay(origin, end))}
  {
    TransferRunIsOneTransfer(start, end);
    hide Sound, Legal, Exclusive, Replay, View, TransferRun, OneTransfer;
    var steps := end[|start|..];
    assert end == start + steps;
    LegalConcat(origin, start, steps);
    RunRefines(origin, start);
    NobodyIsCalm(Replay(origin, start));
    CrashAtomicity(Replay(origin, start), steps, n - |start|);
    assert end[..n] + [Crash] == start + (steps[..n - |start|] + [Crash]);
    LegalConcat(origin, start, steps[..n - |start|] + [Crash]);
  }

  lemma NobodyIsCalm(d: Disk)
    requires d.clients == map[]
    ensures Calm(d)
  {
  }
}
