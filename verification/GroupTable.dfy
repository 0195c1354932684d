/** The `connection_groups` table: the constraints of its schema and the two statements that change it. */
module GroupTable {
  import opened Common
  import opened Forest
  import opened ConnectionGroups
  import Text

  type Rows = map<Id, ConnectionGroup>

  /** SQLite's `length`: the characters before the first NUL. */
  function SqlLength(s: string): nat {
    if s == "" || s[0] == '\0' then 0 else 1 + SqlLength(s[1..])
  }

  /** SQLite's `trim`: spaces only. */
  function SqlTrim(s: string): string {
    if s != "" && s[0] == ' ' then SqlTrim(s[1..])
    else if s != "" && s[|s| - 1] == ' ' then SqlTrim(s[..|s| - 1])
    else s
  }

  /** The CHECK constraints on the text columns. */
  predicate TextChecks(g: ConnectionGroup) {
    SqlLength(g.id) > 0 && SqlLength(SqlTrim(g.name)) > 0
  }

  /** The two partial unique indexes: on root names, and on names under a parent. */
  predicate NameClash(a: ConnectionGroup, b: ConnectionGroup) {
    || (a.parentId.None? && b.parentId.None? && a.name == b.name)
    || (a.parentId.Some? && b.parentId.Some? && a.parentId == b.parentId && a.name == b.name)
  }

  ghost predicate Unclashed(rows: Rows) {
    forall a, b :: a in rows && b in rows && a != b ==> !NameClash(rows[a], rows[b])
  }

  ghost predicate Referenced(rows: Rows) {
    forall id :: id in rows && rows[id].parentId.Some? ==>
      rows[id].parentId.value in rows && rows[id].parentId.value != id
  }

  /** Everything the schema and its triggers enforce on a whole table. */
  ghost predicate Schema(rows: Rows) {
    && (forall id :: id in rows ==> rows[id].id == id && TextChecks(rows[id]))
    && Referenced(rows)
    && Unclashed(rows)
    && IsForest(ParentsOf(rows))
  }

  predicate ClashesWithOther(rows: Rows, g: ConnectionGroup) {
    exists x :: x in rows.Keys && x != g.id && NameClash(rows[x], g)
  }

  /** What SQLite checks when one row is inserted or replaced. */
  ghost predicate UpsertAccepted(rows: Rows, g: ConnectionGroup) {
    && TextChecks(g)
    && !ClashesWithOther(rows, g)
    && (g.parentId.Some? ==>
          && g.parentId.value != g.id
          && g.parentId.value in rows
          && !AtOrAbove(ParentsOf(rows), g.parentId.value, g.id))
  }

  /** The checks on one row are exactly what keeps the whole table inside the schema. */
  lemma UpsertExact(rows: Rows, g: ConnectionGroup)
    requires Schema(rows)
    ensures UpsertAccepted(rows, g) <==> Schema(rows[g.id := g])
  {
    hide TextChecks, Unclashed, Referenced, IsForest, AtOrAbove, ClashesWithOther, ParentsOf;
    assert rows[g.id := g][g.id] == g;
    UnclashedExact(rows, g);
    ReferencedExact(rows, g);
    if g.parentId.None? || g.parentId.value in rows {
      ForestExact(rows, g);
    }
  }

  lemma ForestExact(rows: Rows, g: ConnectionGroup)
    requires IsForest(ParentsOf(rows)) && (g.parentId.None? || g.parentId.value in rows)
    ensures IsForest(ParentsOf(rows[g.id := g])) <==>
      g.parentId.None? || !AtOrAbove(ParentsOf(rows), g.parentId.value, g.id)
  {
    hide IsForest, AtOrAbove;
    var p := ParentsOf(rows);
    assert ParentsOf(rows[g.id := g]) == p[g.id := g.parentId];
    if g.parentId.None? {
      DetachKeepsForest(p, g.id);
    } else {
      ReparentExact(p, g.id, g.parentId.value);
    }
  }

  lemma UnclashedExact(rows: Rows, g: ConnectionGroup)
    requires Unclashed(rows)
    ensures Unclashed(rows[g.id := g]) <==> !ClashesWithOther(rows, g)
  {
    var after := rows[g.id := g];
    if ClashesWithOther(rows, g) {
      var x :| x in rows && x != g.id && NameClash(rows[x], g);
      assert NameClash(after[x], after[g.id]);
    }
  }

  lemma ReferencedExact(rows: Rows, g: ConnectionGroup)
    requires Referenced(rows)
    ensures Referenced(rows[g.id := g]) <==>
      g.parentId.None? || (g.parentId.value in rows && g.parentId.value != g.id)
  {
    var after := rows[g.id := g];
    assert after[g.id] == g;
  }

  class ConnectionGroupTable {
    var rows: Rows

    constructor (rows: Rows)
      ensures this.rows == rows
    {
      this.rows := rows;
    }

    /** `list`: all rows, in some order. */
    method List() returns (groups: seq<ConnectionGroup>)
      requires forall id :: id in rows ==> rows[id].id == id
      ensures DistinctIds(groups) && RowsOf(groups) == rows
    {
      groups := [];
      var rest := rows.Keys;
      while rest != {}
        invariant rest <= rows.Keys
        invariant DistinctIds(groups)
        invariant RowsOf(groups) == map id | id in rows && id !in rest :: rows[id]
      {
        var id :| id in rest;
        HasIdIsRow(groups, id);
        DistinctIdsPush(groups, rows[id]);
        RowsOfPush(groups, rows[id]);
        groups := groups + [rows[id]];
        rest := rest - {id};
      }
    }

    /** UPDATE ... SET name = ?, parent_id = NULL WHERE id = ?. */
    method Park(id: Id, name: string) returns (ok: bool)
      requires Schema(rows) && id in rows
      modifies this
      ensures Schema(rows)
      ensures ok <==> UpsertAccepted(old(rows), old(rows)[id].(name := name, parentId := None))
      ensures rows == if ok then old(rows)[id := old(rows)[id].(name := name, parentId := None)] else old(rows)
    {
      var g := rows[id].(name := name, parentId := None);
      UpsertExact(rows, g);
      ok := TextChecks(g) && !ClashesWithOther(rows, g);
      if ok {
        rows := rows[id := g];
      }
    }

    /** INSERT ... ON CONFLICT(id) DO UPDATE: every column but `created_at` is replaced. */
    method Upsert(g: ConnectionGroup) returns (ok: bool)
      requires Schema(rows)
      modifies this
      ensures Schema(rows)
      ensures ok <==> UpsertAccepted(old(rows), g)
      ensures rows == if ok then old(rows)[g.id := Stored(old(rows), g)] else old(rows)
      ensures ok ==>
                var createdAt := if g.id in old(rows) then old(rows)[g.id].createdAt else g.createdAt;
                rows[g.id] == ConnectionGroup(
                                g.id, g.name, g.parentId, g.sortOrder, g.color, createdAt, g.updatedAt)
    {
      var row := Stored(rows, g);
      UpsertExact(rows, row);
      ok := TextChecks(g) && !ClashesWithOther(rows, g);
      if ok && g.parentId.Some? {
        var cyclic := CycleTrigger(g.parentId.value, g.id);
        ok := g.parentId.value != g.id && g.parentId.value in rows && !cyclic;
      }
      if ok {
        rows := rows[g.id := row];
      }
    }

    /** The recursive query of the cycle triggers. */
    method CycleTrigger(parent: Id, id: Id) returns (fires: bool)
      ensures fires <==> AtOrAbove(ParentsOf(rows), parent, id)
    {
      ghost var p := ParentsOf(rows);
      var ancestors := {parent};
      var current := parent;
      assert Up(p, parent, 0) == Some(parent);
      while current in rows && rows[current].parentId.Some? && rows[current].parentId.value !in ancestors
        invariant parent in ancestors && current in ancestors
        invariant forall a :: a in ancestors ==> AtOrAbove(p, parent, a)
        invariant forall a :: a in ancestors && a != current && a in p && p[a].Some? ==> p[a].value in ancestors
        invariant ancestors - {current} <= rows.Keys
        decreases rows.Keys - (ancestors - {current})
      {
        ghost var k: nat :| Up(p, parent, k) == Some(current);
        UpExtend(p, parent, k, current);
        current := rows[current].parentId.value;
        ancestors := ancestors + {current};
      }
      ClosedContainsAbove(p, ancestors, parent);
      fires := id in ancestors;
    }
  }

  /** The row an upsert leaves: the given one, with the creation time of the row it replaces. */
  function Stored(rows: Rows, g: ConnectionGroup): ConnectionGroup {
    if g.id in rows then g.(createdAt := rows[g.id].createdAt) else g
  }

  lemma ClosedContainsAbove(p: Parents, closed: set<Id>, start: Id)
    requires start in closed
    requires forall a :: a in closed && a in p && p[a].Some? ==> p[a].value in closed
    ensures forall id :: AtOrAbove(p, start, id) ==> id in closed
  {
    forall id | AtOrAbove(p, start, id) ensures id in closed {
      var k: nat :| Up(p, start, k) == Some(id);
      ClosedUnderUp(p, closed, start, k);
    }
  }

  lemma {:induction false} ClosedUnderUp(p: Parents, closed: set<Id>, start: Id, k: nat)
    requires start in closed && Up(p, start, k).Some?
    requires forall a :: a in closed && a in p && p[a].Some? ==> p[a].value in closed
    ensures Up(p, start, k).value in closed
    decreases k
  {
    if k > 0 {
      ClosedUnderUp(p, closed, p[start].value, k - 1);
    }
  }

  /** A properly named group passes the text checks exactly when neither its id nor its name
      starts with a NUL character, which `length` would count as empty. */
  predicate Storable(g: ConnectionGroup) {
    !StartsWithNul(g.id) && !StartsWithNul(g.name)
  }

  predicate StartsWithNul(s: string) {
    s != "" && s[0] == '\0'
  }

  lemma TextChecksExact(g: ConnectionGroup)
    requires ProperlyNamed(g)
    ensures TextChecks(g) <==> Storable(g)
  {
    ProperNameKeepsUnderSqlTrim(g.name);
    SqlLengthPositive(g.id);
    SqlLengthPositive(g.name);
  }

  /** A valid forest that the table refuses: one root whose name starts with NUL. */
  lemma ValidButNotStorable(g: ConnectionGroup)
    requires g.id == "a" && g.name == "\0a" && g.parentId.None?
    ensures ValidForest([g]) && !Storable(g) && !UpsertAccepted(map[], g)
  {
    Text.TrimKeeps(g.name);
    TextChecksExact(g);
    assert [g][..0] == [];
    assert RowsOf([g]) == map[g.id := g];
    assert Ranks(ParentsOf(RowsOf([g])), map[g.id := 0]);
  }

  lemma ProperNameKeepsUnderSqlTrim(name: string)
    requires ProperName(name)
    ensures SqlTrim(name) == name
  {
    Text.TrimmedEnds(name);
    SqlTrimKeeps(name);
  }

  lemma SqlTrimKeeps(s: string)
    requires s != "" && s[0] != ' ' && s[|s| - 1] != ' '
    ensures SqlTrim(s) == s
  {
  }

  lemma SqlLengthPositive(s: string)
    ensures SqlLength(s) > 0 <==> s != "" && s[0] != '\0'
  {
  }

  lemma {:induction false} SqlTrimKeepsFirst(s: string)
    requires s != "" && s[0] != ' '
    ensures SqlTrim(s) != "" && SqlTrim(s)[0] == s[0]
    decreases |s|
  {
    if s[|s| - 1] == ' ' {
      SqlTrimKeepsFirst(s[..|s| - 1]);
    }
  }
}
