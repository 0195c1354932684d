/** Moving the data of the old brand into place: copy, two renames, a marker, and the way back. */
module BrandMigration {
  import opened Common

  type Bytes = seq<bv8>
  type Files = map<string, Bytes>
  type Token = nat

  /** `.nexaterm-brand-migration.json`: a write that failed may have left any fragment. */
  datatype Marker = NoMarker | Torn | Recorded(backup: Option<Token>)

  datatype Tree = Tree(files: Files, marker: Marker)

  const EMPTY := Tree(map[], NoMarker)

  datatype Name =
    | Legacy
    | Current
    | Stage(token: Token)
    | Backup(token: Token)
    | Failed(token: Token)
    | RolledBack(token: Token)

  type Volume = map<Name, Tree>

  datatype MigrationError =
    | SourceMissing
    | TargetNotEmpty
    | InspectFailed
    | StageFailed
    | CopyFailed
    | DatabaseInvalid
    | BackupFailed
    | ReplaceFailed
    | MarkerFailed
    | RollbackUnavailable
    | RollbackFailed

  /** What SQLite says about a database file, and what its checkpoint makes of staged files. */
  datatype Database = Database(
    hasUserData: Bytes -> Option<bool>,
    checkpoint: Files -> Option<Files>)

  const DATABASE_FILE := "mxterm.db"

  const LEGACY_PAYLOAD_FILES := {
    "mxterm.db", "mxterm.db-wal", "mxterm.db-shm", "connections.json", "connections.json.migrated.bak",
    "credentials.json", "credentials.json.migrated.bak", "known_hosts.json", "known_hosts.json.migrated.bak",
    "tunnels.json", "tunnels.json.migrated.bak", "secrets.enc", "secrets.enc.bak", "secrets.local.key", ".data-version"}

  const USER_FILES := {"connections.json", "credentials.json", "known_hosts.json", "tunnels.json", "secrets.enc"}

  function Content(volume: Volume, name: Name): Tree {
    if name in volume then volume[name] else EMPTY
  }

  function Payload(files: Files): Files {
    map name | name in files && name in LEGACY_PAYLOAD_FILES :: files[name]
  }

  /** `target_has_user_data`. */
  function TargetHasUserData(db: Database, current: Tree): Option<bool> {
    if exists name :: name in USER_FILES && name in current.files then Some(true)
    else if DATABASE_FILE in current.files then db.hasUserData(current.files[DATABASE_FILE])
    else Some(false)
  }

  /** `preview_for_root` with the two checks that follow it. */
  function Preview(db: Database, volume: Volume): Result<Done, MigrationError> {
    var current := Content(volume, Current);
    if current.marker != NoMarker || Payload(Content(volume, Legacy).files) == map[] then
      if current.marker == NoMarker && TargetHasUserData(db, current).None? then Err(InspectFailed)
      else Err(SourceMissing)
    else
      var occupied := TargetHasUserData(db, current);
      if occupied.None? then Err(InspectFailed)
      else if occupied.value then Err(TargetNotEmpty)
      else Ok(Done)
  }

  /** The files that a migration of the legacy directory produces, if its database is sound. */
  function Migrated(db: Database, legacy: Files): Option<Files> {
    if DATABASE_FILE in Payload(legacy) then db.checkpoint(Payload(legacy)) else Some(Payload(legacy))
  }

  // ---- what they come to ----

  predicate IsPayload(name: string) {
    || name == "mxterm.db" || name == "mxterm.db-wal" || name == "mxterm.db-shm"
    || name == "connections.json" || name == "connections.json.migrated.bak"
    || name == "credentials.json" || name == "credentials.json.migrated.bak"
    || name == "known_hosts.json" || name == "known_hosts.json.migrated.bak"
    || name == "tunnels.json" || name == "tunnels.json.migrated.bak"
    || name == "secrets.enc" || name == "secrets.enc.bak" || name == "secrets.local.key" || name == ".data-version"
  }

  predicate IsUserFile(name: string) {
    || name == "connections.json" || name == "credentials.json" || name == "known_hosts.json"
    || name == "tunnels.json" || name == "secrets.enc"
  }

  ghost predicate OnlyPayload(legacy: Files, files: Files) {
    forall name ::
      && (name in files <==> name in legacy && IsPayload(name))
      && (name in files ==> files[name] == legacy[name])
  }

  /** The payload is the known files of the old directory, with their contents. Without a database that is what a
      migration installs; with one it is what the checkpoint makes of it. */
  lemma MigratedExactly(db: Database, legacy: Files)
    ensures OnlyPayload(legacy, Payload(legacy))
    ensures "mxterm.db" !in legacy ==>
              Migrated(db, legacy).Some? && OnlyPayload(legacy, Migrated(db, legacy).value)
    ensures "mxterm.db" in legacy ==>
              exists files :: OnlyPayload(legacy, files) && Migrated(db, legacy) == db.checkpoint(files)
  {
    PayloadNames();
    assert OnlyPayload(legacy, Payload(legacy));
  }

  lemma PayloadNames()
    ensures forall name :: name in LEGACY_PAYLOAD_FILES <==> IsPayload(name)
    ensures forall name :: name in USER_FILES <==> IsUserFile(name)
  {
  }

  /** The current directory shows data of a user, shows none, or cannot be read. */
  ghost predicate ShowsUserData(db: Database, current: Tree) {
    || (exists name :: name in current.files && IsUserFile(name))
    || ("mxterm.db" in current.files && db.hasUserData(current.files["mxterm.db"]) == Some(true))
  }

  ghost predicate Unreadable(db: Database, current: Tree) {
    && (forall name :: name in current.files ==> !IsUserFile(name))
    && "mxterm.db" in current.files && db.hasUserData(current.files["mxterm.db"]).None?
  }

  /** A migration is allowed exactly when none has been recorded, the old directory has something to migrate, and the
      current one is readable and shows no data; every refusal has its reason. */
  lemma PreviewExactly(db: Database, volume: Volume)
    ensures var current := Content(volume, Current);
            var fresh_ := current.marker == NoMarker;
            var available := exists name :: name in Content(volume, Legacy).files && IsPayload(name);
            Preview(db, volume) ==
            if fresh_ && Unreadable(db, current) then Err(InspectFailed)
            else if !fresh_ || !available then Err(SourceMissing)
            else if ShowsUserData(db, current) then Err(TargetNotEmpty)
            else Ok(Done)
  {
    PayloadNames();
    hide IsPayload, IsUserFile;
    var legacy := Content(volume, Legacy).files;
    if name :| name in legacy && IsPayload(name) {
      assert name in Payload(legacy);
    }
    if Payload(legacy) != map[] {
      var name :| name in Payload(legacy);
      assert name in legacy && IsPayload(name);
    }
  }

  // ---- what the operations mean for the whole volume ----

  ghost predicate Elsewhere(before: Volume, after: Volume, touched: set<Name>) {
    forall name :: name !in touched ==>
      && (name in before <==> name in after)
      && (name in before && name in after ==> before[name] == after[name])
  }

  ghost predicate Applied(before: Volume, after: Volume, token: Token, files: Files) {
    && Current in after
    && after[Current] == Tree(files, Recorded(if Current in before then Some(token) else None))
    && (Current in before ==> Backup(token) in after && after[Backup(token)] == before[Current])
    && Elsewhere(before, after, {Current, Backup(token), Stage(token)})
  }

  ghost predicate AppliedFrom(db: Database, before: Volume, after: Volume, token: Token) {
    var files := Migrated(db, Content(before, Legacy).files);
    files.Some? && Applied(before, after, token, files.value)
  }

  ghost predicate Reverted(before: Volume, after: Volume, token: Token) {
    && Current in before && before[Current].marker.Recorded?
    && Current in after && RolledBack(token) in after && after[RolledBack(token)] == before[Current]
    && match before[Current].marker.backup
       case Some(saved) =>
         && Backup(saved) in before && after[Current] == before[Backup(saved)]
         && Elsewhere(before, after, {Current, Backup(saved), RolledBack(token)})
       case None =>
         && after[Current] == EMPTY
         && Elsewhere(before, after, {Current, RolledBack(token)})
  }

  /** What a user may do to the migrated data before rolling back: anything to the files of the current directory
      and to the directories named in `touched`, as long as the marker and the backup stay. */
  ghost predicate WorkedOn(migrated: Volume, used: Volume, token: Token, touched: set<Name>) {
    && Current in migrated && Current in used && used[Current].marker == migrated[Current].marker
    && (Backup(token) in migrated ==> Backup(token) in used && used[Backup(token)] == migrated[Backup(token)])
    && Elsewhere(migrated, used, touched + {Current})
  }

  /** A migration and a later rollback restore the current directory (absent counting as empty), keep the migrated
      tree with everything done to it aside, and leave every directory that was not touched in between, the
      legacy one first, as it was. */
  lemma RollbackUndoesApply(start: Volume, migrated: Volume, used: Volume, end: Volume, token: Token, later: Token,
                            files: Files, touched: set<Name>)
    requires Applied(start, migrated, token, files) && WorkedOn(migrated, used, token, touched)
    requires Reverted(used, end, later)
    ensures Content(end, Current) == Content(start, Current)
    ensures Content(end, RolledBack(later)) == Content(used, Current)
    ensures Elsewhere(start, end, {Current, Stage(token), Backup(token), RolledBack(later)} + touched)
    ensures Legacy !in touched ==> Content(end, Legacy) == Content(start, Legacy)
  {
    var names := {Current, Stage(token), Backup(token), RolledBack(later)} + touched;
    forall name | name !in names
      ensures (name in start <==> name in end) && (name in start && name in end ==> start[name] == end[name])
    {
      assert name in start <==> name in migrated;
      assert name in migrated <==> name in used;
      assert name in used <==> name in end;
    }
  }

  /** The legacy directory is as it was, and the old current tree is at its place or at the backup. */
  predicate Intact(start: Volume, now: Volume, token: Token) {
    && Content(now, Legacy) == Content(start, Legacy)
    && (Current in start ==>
          || (Current in now && now[Current] == start[Current])
          || (Backup(token) in now && now[Backup(token)] == start[Current]))
  }

  ghost predicate EveryIntact(start: Volume, states: seq<Volume>, token: Token) {
    forall k :: 0 <= k < |states| ==> Intact(start, states[k], token)
  }

  lemma OneMoreIntact(start: Volume, states: seq<Volume>, now: Volume, token: Token)
    requires EveryIntact(start, states, token) && Intact(start, now, token)
    ensures EveryIntact(start, states + [now], token)
  {
    hide Intact;
  }

  lemma Unchanged(start: Volume, token: Token)
    ensures Intact(start, start, token) && EveryIntact(start, [], token)
  {
  }

  lemma Chain(a: Volume, b: Volume, c: Volume, first: set<Name>, second: set<Name>, both: set<Name>)
    requires Elsewhere(a, b, first) && (Elsewhere(b, c, second) || b == c) && first <= both && second <= both
    ensures Elsewhere(a, c, both)
  {
  }

  lemma Away(a: Volume, b: Volume, touched: set<Name>, name: Name)
    requires Elsewhere(a, b, touched) && name !in touched
    ensures name in a <==> name in b
    ensures name in a ==> a[name] == b[name]
  {
  }

  lemma StageIsIntact(start: Volume, now: Volume, token: Token)
    requires Elsewhere(start, now, {Stage(token)})
    ensures Intact(start, now, token)
  {
  }

  lemma SameCurrent(start: Volume, now: Volume, token: Token)
    requires Elsewhere(start, now, {Stage(token)})
    ensures Content(now, Current) == Content(start, Current) && (Current in start <==> Current in now)
  {
  }

  lemma SameLegacy(start: Volume, now: Volume, token: Token)
    requires Elsewhere(start, now, {Stage(token)})
    ensures Content(now, Legacy) == Content(start, Legacy)
  {
  }

  /** Only the stage differs: the other names of this migration are still free, and current is current. */
  lemma InPlace(start: Volume, now: Volume, token: Token)
    requires Elsewhere(start, now, {Stage(token)})
    ensures Current in start <==> Current in now
    ensures Current in start ==> start[Current] == now[Current]
    ensures Backup(token) in start <==> Backup(token) in now
    ensures Failed(token) in start <==> Failed(token) in now
  {
  }

  lemma BackupIsIntact(start: Volume, now: Volume, token: Token, touched: set<Name>)
    requires Elsewhere(start, now, touched) && Legacy !in touched
    requires Current in start && Backup(token) in now && now[Backup(token)] == start[Current]
    ensures Intact(start, now, token)
  {
  }

  lemma BackOrBackup(start: Volume, now: Volume, token: Token, touched: set<Name>)
    requires Elsewhere(start, now, touched) && Legacy !in touched && Current in start
    requires || (Current in now && now[Current] == start[Current])
             || (Backup(token) in now && now[Backup(token)] == start[Current])
    ensures Intact(start, now, token)
  {
  }

  lemma NothingToLose(start: Volume, now: Volume, token: Token, touched: set<Name>)
    requires Elsewhere(start, now, touched) && Legacy !in touched && Current !in start
    ensures Intact(start, now, token)
  {
  }

  lemma NothingCopied(source: Files)
    ensures Payload(source) - LEGACY_PAYLOAD_FILES == map[]
  {
  }

  lemma CopyOne(source: Files, names: set<string>, name: string)
    requires name in names && names <= LEGACY_PAYLOAD_FILES
    ensures Payload(source) - (names - {name}) ==
            if name in source then (Payload(source) - names)[name := source[name]] else Payload(source) - names
  {
  }

  /** While rolling back, the migrated tree and the saved one are at one of their two places each. */
  ghost predicate Kept(start: Volume, now: Volume, token: Token) {
    && Content(now, Legacy) == Content(start, Legacy)
    && (Current in start ==>
          || (Current in now && now[Current] == start[Current])
          || (RolledBack(token) in now && now[RolledBack(token)] == start[Current]))
    && (forall saved :: Backup(saved) in start ==>
          || (Backup(saved) in now && now[Backup(saved)] == start[Backup(saved)])
          || (Current in now && now[Current] == start[Backup(saved)]))
  }

  ghost predicate EveryKept(start: Volume, states: seq<Volume>, token: Token) {
    forall k :: 0 <= k < |states| ==> Kept(start, states[k], token)
  }

  lemma OneMoreKept(start: Volume, states: seq<Volume>, now: Volume, token: Token)
    requires EveryKept(start, states, token) && Kept(start, now, token)
    ensures EveryKept(start, states + [now], token)
  {
    hide Kept;
  }

  lemma AllKeptAtStart(start: Volume, token: Token)
    ensures Kept(start, start, token) && EveryKept(start, [], token)
  {
  }

  /** The volume after the migrated tree was put aside. */
  function PutAside(start: Volume, token: Token): Volume
    requires Current in start
  {
    (start - {Current})[RolledBack(token) := start[Current]]
  }

  lemma AsideIsKept(start: Volume, token: Token)
    requires Current in start && RolledBack(token) !in start
    ensures Kept(start, PutAside(start, token), token)
  {
  }

  lemma RestoredIsKept(start: Volume, token: Token, saved: Token)
    requires Current in start && RolledBack(token) !in start && Backup(saved) in start
    requires start[Current].marker == Recorded(Some(saved))
    ensures var aside := PutAside(start, token);
            var now := (aside - {Backup(saved)})[Current := aside[Backup(saved)]];
            Kept(start, now, token) && Reverted(start, now, token)
  {
  }

  lemma EmptiedIsKept(start: Volume, token: Token)
    requires Current in start && RolledBack(token) !in start && start[Current].marker == Recorded(None)
    ensures var now := PutAside(start, token)[Current := EMPTY];
            Kept(start, now, token) && Reverted(start, now, token)
  {
  }

  lemma BackAgain(start: Volume, token: Token)
    requires Current in start && RolledBack(token) !in start
    ensures var aside := PutAside(start, token);
            (aside - {RolledBack(token)})[Current := aside[RolledBack(token)]] == start
  {
  }

  class AppData {
    var dirs: Volume
    /** The states the directories have been in during the current operation. */
    ghost var trace: seq<Volume>
    /** Whether every step that takes something back succeeded. */
    ghost var compensated: bool
    /** When set, no operation of the file system fails that could succeed. */
    const reliable: bool

    constructor (dirs: Volume, reliable: bool)
      ensures this.dirs == dirs && trace == [] && this.reliable == reliable
    {
      this.dirs, this.trace, this.compensated, this.reliable := dirs, [], true, reliable;
    }

    /** Whether an operation of the file system succeeds. */
    method Try() returns (ok: bool)
      ensures reliable ==> ok
    {
      ok := *;
      ok := ok || reliable;
    }

    /** `fs::rename` of a directory: the target is absent or empty, and either everything moves or nothing. */
    method Rename(from: Name, to: Name) returns (ok: bool)
      requires from != to
      modifies this`dirs, this`trace
      ensures trace == old(trace) + [dirs]
      ensures ok ==> from in old(dirs) && (to in old(dirs) ==> old(dirs)[to] == EMPTY)
      ensures reliable && from in old(dirs) && (to in old(dirs) ==> old(dirs)[to] == EMPTY) ==> ok
      ensures ok ==> dirs == (old(dirs) - {from})[to := old(dirs)[from]]
      ensures !ok ==> dirs == old(dirs)
      ensures Elsewhere(old(dirs), dirs, {from, to})
    {
      var works := Try();
      ok := works && from in dirs && (to in dirs ==> dirs[to] == EMPTY);
      if ok {
        dirs := (dirs - {from})[to := dirs[from]];
      }
      trace := trace + [dirs];
    }

    /** `fs::create_dir_all`. */
    method CreateDir(name: Name) returns (ok: bool)
      modifies this`dirs, this`trace
      ensures trace == old(trace) + [dirs]
      ensures dirs == if ok && name !in old(dirs) then old(dirs)[name := EMPTY] else old(dirs)
      ensures Elsewhere(old(dirs), dirs, {name})
      ensures reliable ==> ok
    {
      ok := Try();
      if ok && name !in dirs {
        dirs := dirs[name := EMPTY];
      }
      trace := trace + [dirs];
    }

    method Put(name: Name, tree: Tree)
      modifies this`dirs, this`trace
      ensures trace == old(trace) + [dirs] && dirs == old(dirs)[name := tree]
      ensures Elsewhere(old(dirs), dirs, {name})
    {
      dirs := dirs[name := tree];
      trace := trace + [dirs];
    }

    /** `fs::remove_dir_all`, result ignored: any part of the tree may stay. */
    method RemoveAll(name: Name)
      modifies this`dirs, this`trace
      ensures trace == old(trace) + [dirs] && Elsewhere(old(dirs), dirs, {name})
    {
      var gone: bool := *;
      if gone {
        dirs := dirs - {name};
      } else if name in dirs {
        var left: Files := *;
        dirs := dirs[name := Tree(left, NoMarker)];
      }
      trace := trace + [dirs];
    }

    /** `copy_legacy_payload` and `validate_staged_database`: on success the stage holds the migrated files. */
    method FillStage(db: Database, token: Token, ghost start: Volume) returns (r: Result<Done, MigrationError>)
      requires Stage(token) in dirs && dirs[Stage(token)] == EMPTY
      requires Elsewhere(start, dirs, {Stage(token)}) && EveryIntact(start, trace, token)
      modifies this`dirs, this`trace
      ensures Elsewhere(start, dirs, {Stage(token)}) && EveryIntact(start, trace, token)
      ensures Stage(token) in dirs && dirs[Stage(token)].marker == NoMarker
      ensures r.Ok? ==> Migrated(db, Content(start, Legacy).files) == Some(dirs[Stage(token)].files)
      ensures reliable ==> (r.Ok? <==> Migrated(db, Content(start, Legacy).files).Some?)
    {
      hide Elsewhere, EveryIntact, Intact, Payload;
      SameLegacy(start, dirs, token);
      var source := Content(dirs, Legacy).files;
      var names := LEGACY_PAYLOAD_FILES;
      NothingCopied(source);
      while names != {}
        invariant names <= LEGACY_PAYLOAD_FILES
        invariant Elsewhere(start, dirs, {Stage(token)}) && EveryIntact(start, trace, token)
        invariant Stage(token) in dirs && dirs[Stage(token)].marker == NoMarker
        invariant dirs[Stage(token)].files == Payload(source) - names
        decreases |names|
      {
        var name :| name in names;
        CopyOne(source, names, name);
        names := names - {name};
        if name in source {
          var copied := Try();
          if !copied {
            var torn: Bytes := *;
            PutStage(token, dirs[Stage(token)].files[name := torn], start);
            return Err(CopyFailed);
          }
          PutStage(token, dirs[Stage(token)].files[name := source[name]], start);
        }
      }
      assert Payload(source) - {} == Payload(source);
      var staged := dirs[Stage(token)].files;
      if DATABASE_FILE in staged {
        var merged := db.checkpoint(staged);
        if merged.None? {
          return Err(DatabaseInvalid);
        }
        PutStage(token, merged.value, start);
      }
      r := Ok(Done);
    }

    method PutStage(token: Token, files: Files, ghost start: Volume)
      requires Elsewhere(start, dirs, {Stage(token)}) && EveryIntact(start, trace, token)
      modifies this`dirs, this`trace
      ensures Elsewhere(start, dirs, {Stage(token)}) && EveryIntact(start, trace, token)
      ensures Stage(token) in dirs && dirs[Stage(token)] == Tree(files, NoMarker)
    {
      hide EveryIntact, Intact;
      Put(Stage(token), Tree(files, NoMarker));
      StageIsIntact(start, dirs, token);
      OneMoreIntact(start, old(trace), dirs, token);
    }

    /** `apply_for_root`. */
    method Apply(db: Database, token: Token) returns (r: Result<Done, MigrationError>)
      requires Stage(token) !in dirs && Backup(token) !in dirs && Failed(token) !in dirs
      modifies this
      ensures EveryIntact(old(dirs), trace, token) && Intact(old(dirs), dirs, token)
      ensures Preview(db, old(dirs)).Err? ==> r == Preview(db, old(dirs)) && dirs == old(dirs)
      ensures r.Ok? ==> AppliedFrom(db, old(dirs), dirs, token)
      ensures r.Err? && compensated ==> Content(dirs, Current) == Content(old(dirs), Current)
      ensures reliable ==> compensated
      ensures reliable ==>
                (r.Ok? <==> Preview(db, old(dirs)).Ok? && Migrated(db, Content(old(dirs), Legacy).files).Some?)
    {
      hide Elsewhere, EveryIntact, Intact, Preview, Migrated;
      trace, compensated := [], true;
      ghost var start := dirs;
      Unchanged(start, token);
      var allowed := Preview(db, dirs);
      if allowed.Err? {
        return allowed;
      }
      var created := CreateDir(Stage(token));
      StageIsIntact(start, dirs, token);
      OneMoreIntact(start, [], dirs, token);
      assert [] + [dirs] == trace;
      if !created {
        SameCurrent(start, dirs, token);
        return Err(StageFailed);
      }
      var filled := FillStage(db, token, start);
      StageIsIntact(start, dirs, token);
      SameCurrent(start, dirs, token);
      if filled.Err? {
        DropStage(token, start);
        return filled;
      }
      if Current in dirs {
        r := SwapIn(token, start);
      } else {
        r := MoveIn(token, start);
      }
      if r.Ok? {
        assert AppliedFrom(db, start, dirs, token);
      }
    }

    method DropStage(token: Token, ghost start: Volume)
      requires Elsewhere(start, dirs, {Stage(token)}) && EveryIntact(start, trace, token)
      modifies this`dirs, this`trace
      ensures Elsewhere(start, dirs, {Stage(token)}) && EveryIntact(start, trace, token)
      ensures Intact(start, dirs, token) && Content(dirs, Current) == Content(start, Current)
    {
      hide EveryIntact, Intact, Elsewhere;
      RemoveAll(Stage(token));
      Chain(start, old(dirs), dirs, {Stage(token)}, {Stage(token)}, {Stage(token)});
      StageIsIntact(start, dirs, token);
      SameCurrent(start, dirs, token);
      OneMoreIntact(start, old(trace), dirs, token);
    }

    /** The switch when there is a current directory: it becomes the backup first. */
    method SwapIn(token: Token, ghost start: Volume) returns (r: Result<Done, MigrationError>)
      requires Current in dirs && Stage(token) in dirs && dirs[Stage(token)].marker == NoMarker && compensated
      requires Stage(token) !in start && Backup(token) !in start && Failed(token) !in start
      requires Elsewhere(start, dirs, {Stage(token)}) && EveryIntact(start, trace, token)
      modifies this
      ensures EveryIntact(start, trace, token) && Intact(start, dirs, token)
      ensures r.Ok? ==> Applied(start, dirs, token, old(dirs)[Stage(token)].files)
      ensures r.Err? && compensated ==> Content(dirs, Current) == Content(start, Current)
      ensures reliable ==> r.Ok? && compensated
    {
      hide EveryIntact, Intact, Elsewhere;
      ghost var staged := dirs;
      var all: set<Name> := {Current, Backup(token), Stage(token)};
      InPlace(start, dirs, token);
      var moved := Rename(Current, Backup(token));
      ghost var backedUp := dirs;
      if !moved {
        Chain(start, staged, dirs, {Stage(token)}, {}, {Stage(token)});
        StageIsIntact(start, dirs, token);
        OneMoreIntact(start, old(trace), dirs, token);
        DropStage(token, start);
        return Err(BackupFailed);
      }
      Chain(start, staged, dirs, {Stage(token)}, {Current, Backup(token)}, all);
      BackupIsIntact(start, dirs, token, all);
      OneMoreIntact(start, old(trace), dirs, token);
      label Moved:
      var replaced := Rename(Stage(token), Current);
      ghost var switched := dirs;
      Chain(start, backedUp, dirs, all, {Stage(token), Current}, all);
      BackupIsIntact(start, dirs, token, all);
      OneMoreIntact(start, old@Moved(trace), dirs, token);
      label Switched:
      if !replaced {
        var back := Rename(Backup(token), Current);
        compensated := back;
        Chain(start, switched, dirs, all, {Backup(token), Current}, all);
        BackOrBackup(start, dirs, token, all);
        OneMoreIntact(start, old@Switched(trace), dirs, token);
        label Returned:
        ghost var returned := dirs;
        RemoveAll(Stage(token));
        Chain(start, returned, dirs, all, {Stage(token)}, all);
        Away(returned, dirs, {Stage(token)}, Current);
        Away(returned, dirs, {Stage(token)}, Backup(token));
        BackOrBackup(start, dirs, token, all);
        OneMoreIntact(start, old@Returned(trace), dirs, token);
        return Err(ReplaceFailed);
      }
      r := Finish(token, start);
    }

    /** The end of the switch: the migrated tree is in place, the old one is the backup. */
    method Finish(token: Token, ghost start: Volume) returns (r: Result<Done, MigrationError>)
      requires Current in dirs && dirs[Current].marker == NoMarker && Current in start && compensated
      requires Backup(token) in dirs && dirs[Backup(token)] == start[Current]
      requires Elsewhere(start, dirs, {Current, Backup(token), Stage(token)}) && EveryIntact(start, trace, token)
      modifies this
      ensures EveryIntact(start, trace, token) && Intact(start, dirs, token)
      ensures r.Ok? ==> Applied(start, dirs, token, old(dirs)[Current].files)
      ensures r.Err? && compensated ==> Content(dirs, Current) == Content(start, Current)
      ensures reliable ==> r.Ok? && compensated
    {
      hide EveryIntact, Intact, Elsewhere;
      ghost var switched := dirs;
      var all: set<Name> := {Current, Backup(token), Stage(token)};
      var written := Try();
      if !written {
        Put(Current, dirs[Current].(marker := Torn));
        ghost var tornState := dirs;
        var wide: set<Name> := {Current, Backup(token), Stage(token), Failed(token)};
        Chain(start, switched, dirs, all, {Current}, wide);
        BackupIsIntact(start, dirs, token, wide);
        OneMoreIntact(start, old(trace), dirs, token);
        label Marked:
        var aside := Rename(Current, Failed(token));
        ghost var asideState := dirs;
        Chain(start, tornState, dirs, wide, {Current, Failed(token)}, wide);
        BackupIsIntact(start, dirs, token, wide);
        OneMoreIntact(start, old@Marked(trace), dirs, token);
        label Aside:
        var restored := Rename(Backup(token), Current);
        Chain(start, asideState, dirs, wide, {Backup(token), Current}, wide);
        BackOrBackup(start, dirs, token, wide);
        OneMoreIntact(start, old@Aside(trace), dirs, token);
        compensated := aside && restored;
        return Err(MarkerFailed);
      }
      Put(Current, dirs[Current].(marker := Recorded(Some(token))));
      Chain(start, switched, dirs, all, {Current}, all);
      BackupIsIntact(start, dirs, token, all);
      OneMoreIntact(start, old(trace), dirs, token);
      r := Ok(Done);
    }

    /** The switch when there is none. */
    method MoveIn(token: Token, ghost start: Volume) returns (r: Result<Done, MigrationError>)
      requires Current !in dirs && Stage(token) in dirs && dirs[Stage(token)].marker == NoMarker && compensated
      requires Stage(token) !in start && Backup(token) !in start && Failed(token) !in start
      requires Elsewhere(start, dirs, {Stage(token)}) && EveryIntact(start, trace, token)
      modifies this
      ensures EveryIntact(start, trace, token) && Intact(start, dirs, token)
      ensures r.Ok? ==> Applied(start, dirs, token, old(dirs)[Stage(token)].files)
      ensures r.Err? && compensated ==> Content(dirs, Current) == Content(start, Current)
      ensures reliable ==> r.Ok? && compensated
    {
      hide EveryIntact, Intact, Elsewhere;
      ghost var staged := dirs;
      var all: set<Name> := {Current, Backup(token), Stage(token)};
      InPlace(start, dirs, token);
      var replaced := Rename(Stage(token), Current);
      ghost var switched := dirs;
      Chain(start, staged, dirs, {Stage(token)}, {Stage(token), Current}, all);
      NothingToLose(start, dirs, token, all);
      OneMoreIntact(start, old(trace), dirs, token);
      label Switched:
      if !replaced {
        Chain(start, staged, dirs, {Stage(token)}, {}, {Stage(token)});
        DropStage(token, start);
        return Err(ReplaceFailed);
      }
      var written := Try();
      if !written {
        Put(Current, dirs[Current].(marker := Torn));
        ghost var tornState := dirs;
        var wide: set<Name> := {Current, Backup(token), Stage(token), Failed(token)};
        Chain(start, switched, dirs, all, {Current}, wide);
        NothingToLose(start, dirs, token, wide);
        OneMoreIntact(start, old@Switched(trace), dirs, token);
        label Marked:
        var aside := Rename(Current, Failed(token));
        ghost var asideState := dirs;
        Chain(start, tornState, dirs, wide, {Current, Failed(token)}, wide);
        NothingToLose(start, dirs, token, wide);
        OneMoreIntact(start, old@Marked(trace), dirs, token);
        label Aside:
        var restored := CreateDir(Current);
        Chain(start, asideState, dirs, wide, {Current}, wide);
        NothingToLose(start, dirs, token, wide);
        OneMoreIntact(start, old@Aside(trace), dirs, token);
        compensated := aside && restored;
        return Err(MarkerFailed);
      }
      Put(Current, dirs[Current].(marker := Recorded(None)));
      Chain(start, switched, dirs, all, {Current}, all);
      NothingToLose(start, dirs, token, all);
      OneMoreIntact(start, old@Switched(trace), dirs, token);
      r := Ok(Done);
    }

    /** `rollback_for_root`. */
    method Rollback(token: Token) returns (r: Result<bool, MigrationError>)
      requires RolledBack(token) !in dirs
      modifies this
      ensures EveryKept(old(dirs), trace, token) && Kept(old(dirs), dirs, token)
      ensures r.Ok? ==> Reverted(old(dirs), dirs, token) && (r.value <==> old(dirs)[Current].marker.backup.Some?)
      ensures r.Err? && compensated ==> dirs == old(dirs)
      ensures reliable ==> compensated
      ensures reliable ==>
                (r.Ok? <==>
                  && Current in old(dirs) && old(dirs)[Current].marker.Recorded?
                  && var backup := old(dirs)[Current].marker.backup;
                     backup.Some? ==> Backup(backup.value) in old(dirs))
    {
      hide EveryKept, Kept, Elsewhere, Reverted;
      trace, compensated := [], true;
      ghost var start := dirs;
      AllKeptAtStart(start, token);
      var readable := Try();
      if !readable || !Content(dirs, Current).marker.Recorded? {
        return Err(RollbackUnavailable);
      }
      var marker := dirs[Current].marker;
      var preserved := Rename(Current, RolledBack(token));
      if !preserved {
        OneMoreKept(start, [], dirs, token);
        assert [] + [dirs] == trace;
        return Err(RollbackFailed);
      }
      ghost var aside := dirs;
      AsideIsKept(start, token);
      OneMoreKept(start, [], dirs, token);
      assert [] + [dirs] == trace;
      label Aside:
      var ok;
      if marker.backup.Some? {
        ok := Rename(Backup(marker.backup.value), Current);
        if ok {
          RestoredIsKept(start, token, marker.backup.value);
        }
      } else {
        ok := CreateDir(Current);
        if ok {
          EmptiedIsKept(start, token);
        }
      }
      OneMoreKept(start, old@Aside(trace), dirs, token);
      label Tried:
      if !ok {
        compensated := Rename(RolledBack(token), Current);
        if compensated {
          BackAgain(start, token);
        }
        OneMoreKept(start, old@Tried(trace), dirs, token);
        return Err(RollbackFailed);
      }
      r := Ok(marker.backup.Some?);
    }
  }
}
