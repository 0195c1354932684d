/** `persist` and `save_connection_group`: writing a planned forest into the table, row by row. */
module GroupPersist {
  import opened Common
  import opened Forest
  import opened ConnectionGroups
  import opened GroupOrder
  import opened GroupTable

  /** The prefix of the temporary names; what follows stands for a fresh UUID. */
  const TEMPORARY_PREFIX := "wf04a-"

  function Zeros(n: nat): string {
    if n == 0 then "" else Zeros(n - 1) + "0"
  }

  lemma {:induction false} ZerosLength(n: nat)
    ensures |Zeros(n)| == n
  {
    if n > 0 {
      ZerosLength(n - 1);
    }
  }

  lemma {:induction false} LongerThanAll(names: set<string>) returns (n: nat)
    ensures forall s :: s in names ==> |s| < n
  {
    if names == {} {
      n := 0;
    } else {
      var s :| s in names;
      var m := LongerThanAll(names - {s});
      n := if m <= |s| then |s| + 1 else m;
      assert forall x :: x in names ==> x == s || x in names - {s};
    }
  }

  predicate Temporary(name: string) {
    TEMPORARY_PREFIX <= name
  }

  /** The retry loop around `Uuid::new_v4`: any temporary name that is not in use. */
  method FreshName(names: set<string>) returns (name: string)
    ensures Temporary(name) && name !in names
  {
    ghost var n := LongerThanAll(names);
    ZerosLength(n);
    assert Temporary(TEMPORARY_PREFIX + Zeros(n)) && TEMPORARY_PREFIX + Zeros(n) !in names;
    name :| Temporary(name) && name !in names;
  }

  lemma TemporaryPassesChecks(g: ConnectionGroup, name: string)
    requires TextChecks(g) && Temporary(name)
    ensures TextChecks(g.(name := name, parentId := None))
  {
    assert name[0] == TEMPORARY_PREFIX[0] == 'w';
    SqlTrimKeepsFirst(name);
    SqlLengthPositive(SqlTrim(name));
  }

  /** `after` is `before` with every row in `ids` moved to the root under a name outside `taken`. */
  ghost predicate Parked(before: Rows, after: Rows, ids: set<Id>, taken: set<string>) {
    && after.Keys == before.Keys
    && forall id :: id in before ==>
      if id in ids then
        after[id] == before[id].(name := after[id].name, parentId := None) && after[id].name !in taken
      else after[id] == before[id]
  }

  ghost predicate NamesIn(rows: Rows, names: set<string>) {
    forall id :: id in rows ==> rows[id].name in names
  }

  lemma ParkAccepted(rows: Rows, id: Id, name: string, names: set<string>)
    requires Schema(rows) && id in rows && NamesIn(rows, names) && name !in names && Temporary(name)
    ensures UpsertAccepted(rows, rows[id].(name := name, parentId := None))
  {
    TemporaryPassesChecks(rows[id], name);
  }

  lemma ParkStep(before: Rows, rows: Rows, ids: set<Id>, taken: set<string>, names: set<string>, id: Id, name: string)
    requires Schema(rows) && Parked(before, rows, ids, taken) && NamesIn(rows, names) && taken <= names
    requires id in before && id !in ids && name !in names && Temporary(name)
    ensures id in rows && UpsertAccepted(rows, rows[id].(name := name, parentId := None))
    ensures var rows' := rows[id := rows[id].(name := name, parentId := None)];
      Parked(before, rows', ids + {id}, taken) && NamesIn(rows', names + {name})
  {
    ParkAccepted(rows, id, name, names);
  }

  /** The first loop of `persist`: every existing row goes to the root under a temporary name. */
  method ParkAll(table: ConnectionGroupTable, existing: seq<ConnectionGroup>, taken: set<string>) returns (ok: bool)
    requires Schema(table.rows) && NamesIn(table.rows, taken)
    requires DistinctIds(existing) && RowsOf(existing) == table.rows
    modifies table
    ensures ok && Schema(table.rows)
    ensures Parked(old(table.rows), table.rows, old(table.rows).Keys, taken)
  {
    var names := taken;
    AllIds(existing);
    hide Schema, NamesIn, Parked, DistinctIds, RowsOf, UpsertAccepted;
    ParkedInitially(table.rows, taken);
    for i := 0 to |existing|
      invariant Schema(table.rows)
      invariant taken <= names && NamesIn(table.rows, names)
      invariant Parked(old(table.rows), table.rows, IdsOf(existing[..i]), taken)
    {
      var temporary := FreshName(names);
      var id := existing[i].id;
      NextId(existing, i);
      ParkStep(old(table.rows), table.rows, IdsOf(existing[..i]), taken, names, id, temporary);
      names := names + {temporary};
      ok := table.Park(id, temporary);
      if !ok {
        return;
      }
    }
    assert existing[..|existing|] == existing;
    ok := true;
  }

  function IdsOf(groups: seq<ConnectionGroup>): set<Id> {
    set g | g in groups :: g.id
  }

  lemma AllIds(groups: seq<ConnectionGroup>)
    ensures IdsOf(groups) == RowsOf(groups).Keys
  {
    RowsOfSound(groups);
    assert forall id :: id in RowsOf(groups) ==> RowsOf(groups)[id] in groups;
  }

  lemma NextId(groups: seq<ConnectionGroup>, i: nat)
    requires DistinctIds(groups) && i < |groups|
    ensures groups[i].id !in IdsOf(groups[..i]) && groups[i].id in RowsOf(groups)
    ensures IdsOf(groups[..i + 1]) == IdsOf(groups[..i]) + {groups[i].id}
  {
    assert groups[..i + 1] == groups[..i] + [groups[i]];
    IdsPush(groups[..i], groups[i]);
    AllIds(groups);
    assert groups[i] in groups;
  }

  lemma IdsPush(groups: seq<ConnectionGroup>, g: ConnectionGroup)
    ensures IdsOf(groups + [g]) == IdsOf(groups) + {g.id}
  {
    assert forall x :: x in groups + [g] <==> x in groups || x == g;
  }

  lemma ParkedInitially(rows: Rows, taken: set<string>)
    ensures Parked(rows, rows, IdsOf([]), taken)
  {
  }

  /** The names a row may not be parked under: those of the groups to be written. */
  function NamesOf(groups: seq<ConnectionGroup>): set<string> {
    set g | g in groups :: g.name
  }

  /** Rows that wait for their place: at the root, under a name that no group to be written has. */
  ghost predicate Waiting(rows: Rows, names: set<string>) {
    forall id :: id in rows ==> rows[id].id == id && rows[id].parentId.None? && rows[id].name !in names
  }

  /** The table after the first `k` groups of `order` have been written over the waiting rows. */
  ghost predicate Written(waiting: Rows, order: seq<ConnectionGroup>, k: nat, rows: Rows)
    requires k <= |order|
  {
    && rows.Keys == waiting.Keys + IdsOf(order[..k])
    && (forall j :: 0 <= j < k ==> order[j].id in rows && rows[order[j].id] == Stored(waiting, order[j]))
    && (forall id :: id in waiting && id !in IdsOf(order[..k]) ==> rows[id] == waiting[id])
  }

  lemma InIds(groups: seq<ConnectionGroup>, id: Id)
    ensures id in IdsOf(groups) <==> HasId(groups, id)
  {
    if HasId(groups, id) {
      var i :| 0 <= i < |groups| && groups[i].id == id;
      assert groups[i] in groups;
    }
  }

  /** Every row met so far is either written, and its parent was written before it, or still waiting. */
  lemma WrittenClosed(waiting: Rows, order: seq<ConnectionGroup>, k: nat, rows: Rows)
    requires k <= |order| && Written(waiting, order, k, rows) && ParentsFirst(order, {})
    ensures forall a :: a in IdsOf(order[..k]) && a in rows && rows[a].parentId.Some? ==>
                          rows[a].parentId.value in IdsOf(order[..k])
  {
    forall a | a in IdsOf(order[..k]) && a in rows && rows[a].parentId.Some?
      ensures rows[a].parentId.value in IdsOf(order[..k])
    {
      InIds(order[..k], a);
      var j :| 0 <= j < k && order[j].id == a;
      assert HasId(order[..j], order[j].parentId.value);
      var i :| 0 <= i < j && order[..j][i].id == order[j].parentId.value;
      assert order[..k][i] in order[..k];
    }
  }

  /** The next group breaks no reference and closes no cycle. */
  lemma NextAboveOnlyWritten(waiting: Rows, order: seq<ConnectionGroup>, k: nat, rows: Rows)
    requires k < |order| && Written(waiting, order, k, rows) && ParentsFirst(order, {})
    requires DistinctIds(order) && order[k].parentId.Some?
    ensures var parent := order[k].parentId.value;
      parent in rows && parent != order[k].id && !AtOrAbove(ParentsOf(rows), parent, order[k].id)
  {
    var parent := order[k].parentId.value;
    WrittenClosed(waiting, order, k, rows);
    InIds(order[..k], parent);
    assert HasId(order[..k], parent);
    NextId(order, k);
    ClosedContainsAbove(ParentsOf(rows), IdsOf(order[..k]), parent);
  }

  /** The next group clashes with no other row. */
  lemma NextClashesWithNone(waiting: Rows, order: seq<ConnectionGroup>, k: nat, rows: Rows)
    requires k < |order| && Written(waiting, order, k, rows)
    requires DistinctSiblings(order) && Waiting(waiting, NamesOf(order))
    ensures !ClashesWithOther(rows, order[k])
  {
    forall x | x in rows && x != order[k].id ensures !NameClash(rows[x], order[k]) {
      if x in IdsOf(order[..k]) {
        WrittenSibling(waiting, order, k, rows, x);
      } else {
        assert rows[x] == waiting[x];
        assert order[k].name in NamesOf(order);
      }
    }
  }

  lemma WrittenSibling(waiting: Rows, order: seq<ConnectionGroup>, k: nat, rows: Rows, x: Id)
    requires k < |order| && Written(waiting, order, k, rows)
    requires DistinctSiblings(order) && x in IdsOf(order[..k])
    ensures x in rows && !NameClash(rows[x], order[k])
  {
    InIds(order[..k], x);
    var j :| 0 <= j < k && order[j].id == x;
    assert SiblingKey(order[j]) != SiblingKey(order[k]);
  }

  /** A group of a valid forest is refused for one reason only: its text checks. */
  lemma NextAccepted(waiting: Rows, order: seq<ConnectionGroup>, k: nat, rows: Rows)
    requires k < |order| && Written(waiting, order, k, rows)
    requires DistinctIds(order) && DistinctSiblings(order) && ParentsFirst(order, {})
    requires ProperlyNamed(order[k]) && Waiting(waiting, NamesOf(order))
    ensures UpsertAccepted(rows, order[k]) <==> Storable(order[k])
  {
    hide DistinctIds, DistinctSiblings, ParentsFirst, Waiting, ProperlyNamed;
    hide Written, TextChecks, ClashesWithOther, Storable;
    NextClashesWithNone(waiting, order, k, rows);
    TextChecksExact(order[k]);
    if order[k].parentId.Some? {
      NextAboveOnlyWritten(waiting, order, k, rows);
    }
  }

  lemma WrittenStep(waiting: Rows, order: seq<ConnectionGroup>, k: nat, rows: Rows)
    requires k < |order| && Written(waiting, order, k, rows) && DistinctIds(order)
    ensures Written(waiting, order, k + 1, rows[order[k].id := Stored(rows, order[k])])
  {
    NextId(order, k);
    var g := order[k];
    var rows' := rows[g.id := Stored(rows, g)];
    assert Stored(rows, g) == Stored(waiting, g);
    forall j | 0 <= j < k + 1 ensures order[j].id in rows' && rows'[order[j].id] == Stored(waiting, order[j]) {
      if j < k {
        assert order[j].id != g.id;
      }
    }
  }

  /** The second loop of `persist`: parents before children. */
  method WriteAll(table: ConnectionGroupTable, order: seq<ConnectionGroup>) returns (ok: bool)
    requires Schema(table.rows) && Waiting(table.rows, NamesOf(order))
    requires DistinctIds(order) && DistinctSiblings(order) && ParentsFirst(order, {})
    requires forall k :: 0 <= k < |order| ==> ProperlyNamed(order[k])
    modifies table
    ensures Schema(table.rows)
    ensures ok <==> forall k :: 0 <= k < |order| ==> Storable(order[k])
    ensures ok ==> Written(old(table.rows), order, |order|, table.rows)
    ensures old(table.rows).Keys <= table.rows.Keys
  {
    hide Schema, Waiting, DistinctIds, DistinctSiblings, ParentsFirst, ProperlyNamed, UpsertAccepted, Storable;
    assert IdsOf(order[..0]) == {};
    for k := 0 to |order|
      invariant Schema(table.rows)
      invariant Written(old(table.rows), order, k, table.rows)
      invariant forall j :: 0 <= j < k ==> Storable(order[j])
    {
      NextAccepted(old(table.rows), order, k, table.rows);
      WrittenStep(old(table.rows), order, k, table.rows);
      ok := table.Upsert(order[k]);
      if !ok {
        return;
      }
    }
    ok := true;
  }

  ghost predicate AllStorable(groups: seq<ConnectionGroup>) {
    forall g :: g in groups ==> Storable(g)
  }

  /** The whole effect of `persist`: the given groups, with the creation times of the rows they replace;
      any other row keeps its identity, at the root. */
  ghost predicate Installed(before: Rows, groups: seq<ConnectionGroup>, after: Rows) {
    && after.Keys == before.Keys + IdsOf(groups)
    && (forall g :: g in groups ==> g.id in after && after[g.id] == Stored(before, g))
    && (forall id :: id in before && id !in IdsOf(groups) ==>
          after[id] == before[id].(name := after[id].name, parentId := None))
  }

  /** `persist`. On a table inside its schema it fails for two reasons only, both visible in its argument:
      the groups are no valid forest, or a text starts with NUL. No statement in between violates a
      constraint, and no row disappears. */
  method Persist(table: ConnectionGroupTable, groups: seq<ConnectionGroup>) returns (r: Result<Done, GroupError>)
    requires Schema(table.rows)
    modifies table
    ensures Schema(table.rows)
    ensures r.Ok? <==> ValidForest(groups) && AllStorable(groups)
    ensures r.Ok? ==> Installed(old(table.rows), groups, table.rows)
    ensures old(table.rows).Keys <= table.rows.Keys
    ensures !ValidForest(groups) ==> table.rows == old(table.rows)
  {
    var order :- Ordered(groups);
    ghost var before := table.rows;
    var existing := table.List();
    var names := NamesOf(groups + existing);
    OrderFacts(groups);
    NamesCover(groups, order, existing, before);
    hide Schema, ValidForest, DistinctIds, DistinctSiblings, ParentsFirst, ProperlyNamed, RowsOf, ParentFirst;
    var parked := ParkAll(table, existing, names);
    if !parked {
      return Err(WriteFailed);
    }
    ghost var waiting := table.rows;
    ParkedWaits(before, waiting, names, order);
    var written := WriteAll(table, order);
    if !written {
      return Err(WriteFailed);
    }
    WrittenInstalls(before, waiting, names, groups, order, table.rows);
    return Ok(Done);
  }

  lemma NamesCover(groups: seq<ConnectionGroup>, order: seq<ConnectionGroup>, existing: seq<ConnectionGroup>,
                   rows: Rows)
    requires RowsOf(existing) == rows && forall g :: g in groups <==> g in order
    ensures NamesIn(rows, NamesOf(groups + existing)) && NamesOf(order) <= NamesOf(groups + existing)
  {
    RowsOfSound(existing);
    assert forall g :: g in groups + existing <==> g in groups || g in existing;
  }

  lemma ParkedWaits(before: Rows, waiting: Rows, names: set<string>, order: seq<ConnectionGroup>)
    requires Schema(before) && Parked(before, waiting, before.Keys, names) && NamesOf(order) <= names
    ensures Waiting(waiting, NamesOf(order))
  {
  }

  lemma WrittenInstalls(before: Rows, waiting: Rows, names: set<string>, groups: seq<ConnectionGroup>,
                        order: seq<ConnectionGroup>, after: Rows)
    requires Parked(before, waiting, before.Keys, names)
    requires Written(waiting, order, |order|, after)
    requires forall g :: g in groups <==> g in order
    ensures Installed(before, groups, after)
  {
    assert order[..|order|] == order;
    assert IdsOf(order) == IdsOf(groups);
    forall g | g in groups ensures g.id in after && after[g.id] == Stored(before, g) {
      var j :| 0 <= j < |order| && order[j] == g;
      assert after[order[j].id] == Stored(waiting, order[j]);
    }
  }

  /** When the groups contain every row with its creation time, the table becomes exactly the groups. */
  lemma InstalledExactly(before: Rows, groups: seq<ConnectionGroup>, after: Rows)
    requires Installed(before, groups, after) && DistinctIds(groups)
    requires before.Keys <= IdsOf(groups)
    requires forall g :: g in groups && g.id in before ==> g.createdAt == before[g.id].createdAt
    ensures after == RowsOf(groups)
  {
    AllIds(groups);
    RowsOfSound(groups);
    forall id | id in after ensures after[id] == RowsOf(groups)[id] {
      var g := RowsOf(groups)[id];
      assert g in groups && g.id == id;
    }
  }
}
