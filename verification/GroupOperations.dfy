/** The operations on the group table as the application runs them: import of a forest and a single save. */
module GroupOperations {
  import opened Common
  import opened Forest
  import opened ConnectionGroups
  import opened GroupOrder
  import opened GroupMerge
  import opened GroupMergeTheorems
  import opened GroupTable
  import opened GroupPersist
  import Text

  /** A merge contains every local group with its creation time, which is what `persist` needs. */
  lemma MergeFeedsPersist(local: seq<ConnectionGroup>, imported: seq<ConnectionGroup>, overwrite: bool, before: Rows)
    requires Merge(local, imported, overwrite).Some?
    requires DistinctIds(local) && RowsOf(local) == before
    ensures var groups := Merge(local, imported, overwrite).value.groups;
      && DistinctIds(groups)
      && before.Keys <= IdsOf(groups)
      && forall g :: g in groups && g.id in before ==> g.createdAt == before[g.id].createdAt
  {
    MergeCorrect(local, imported, overwrite);
    var groups := Merge(local, imported, overwrite).value.groups;
    LocalSurvives(local, groups, before);
  }

  lemma LocalSurvives(local: seq<ConnectionGroup>, groups: seq<ConnectionGroup>, before: Rows)
    requires DistinctIds(local) && RowsOf(local) == before && DistinctIds(groups) && |local| <= |groups|
    requires forall i :: 0 <= i < |local| ==> groups[i].id == local[i].id && groups[i].createdAt == local[i].createdAt
    ensures before.Keys <= IdsOf(groups)
    ensures forall g :: g in groups && g.id in before ==> g.createdAt == before[g.id].createdAt
  {
    RowsOfSound(local);
    forall id | id in before
      ensures id in IdsOf(groups)
      ensures forall g :: g in groups && g.id == id ==> g.createdAt == before[id].createdAt
    {
      assert before[id] in local;
      var i :| 0 <= i < |local| && local[i] == before[id];
      assert groups[i] in groups;
    }
  }

  /** The group part of `apply_transfer_data`: plan against the stored groups, then persist the plan.
      On success the table is exactly the planned forest; otherwise the transaction around it is rolled back. */
  method ImportGroups(table: ConnectionGroupTable, imported: seq<ConnectionGroup>, overwrite: bool)
    returns (r: Result<MergePlan, GroupError>, ghost local: seq<ConnectionGroup>)
    requires Schema(table.rows)
    modifies table
    ensures DistinctIds(local) && RowsOf(local) == old(table.rows)
    ensures Schema(table.rows)
    ensures r.Ok? <==>
            && Merge(local, imported, overwrite).Some?
            && AllStorable(Merge(local, imported, overwrite).value.groups)
    ensures r.Ok? ==> r.value == Merge(local, imported, overwrite).value && table.rows == RowsOf(r.value.groups)
    ensures r.Err? ==> table.rows == old(table.rows)
  {
    var stored := table.List();
    local := stored;
    var before := table.rows;
    var plan :- Plan(stored, imported, overwrite);
    MergeFeedsPersist(local, imported, overwrite, before);
    MergeCorrect(local, imported, overwrite);
    hide Schema, DistinctIds, RowsOf, Installed, ValidForest, Merge, AllStorable;
    var written := Persist(table, plan.groups);
    if written.Err? {
      table.rows := before;
      return Err(written.error), local;
    }
    InstalledExactly(before, plan.groups, table.rows);
    return Ok(plan), local;
  }

  const I64_MAX: int := 0x7FFF_FFFF_FFFF_FFFF

  datatype GroupInput = GroupInput(id: Option<Id>, name: string, parentId: Option<Id>, color: string)

  /** `retain(|g| g.id != id)`. */
  function Without(groups: seq<ConnectionGroup>, id: Id): seq<ConnectionGroup> {
    if groups == [] then []
    else
      var n := |groups| - 1;
      var init := Without(groups[..n], id);
      if groups[n].id == id then init else init + [groups[n]]
  }

  lemma {:induction false} WithoutRows(groups: seq<ConnectionGroup>, id: Id)
    requires DistinctIds(groups)
    ensures RowsOf(Without(groups, id)) == RowsOf(groups) - {id}
  {
    if groups != [] {
      var n := |groups| - 1;
      assert groups == groups[..n] + [groups[n]];
      DistinctIdsPush(groups[..n], groups[n]);
      WithoutRows(groups[..n], id);
      WithoutPush(groups[..n], groups[n], id);
    }
  }

  lemma WithoutPush(groups: seq<ConnectionGroup>, g: ConnectionGroup, id: Id)
    requires !HasId(groups, g.id)
    requires RowsOf(Without(groups, id)) == RowsOf(groups) - {id}
    ensures RowsOf(Without(groups + [g], id)) == RowsOf(groups + [g]) - {id}
  {
    HasIdIsRow(groups, g.id);
    RowsOfPush(groups, g);
    RowsOfPush(Without(groups, id), g);
    WithoutUnfold(groups, g, id);
    hide RowsOf, Without, HasId;
  }

  lemma WithoutUnfold(groups: seq<ConnectionGroup>, g: ConnectionGroup, id: Id)
    ensures Without(groups + [g], id) == if g.id == id then Without(groups, id) else Without(groups, id) + [g]
  {
    assert (groups + [g])[..|groups|] == groups;
  }

  /** The largest sort order among the children of `parent`; -1 when there are none. */
  function LastOrder(groups: seq<ConnectionGroup>, parent: Option<Id>): (order: int)
    ensures HasChild(groups, parent) ==>
              exists i :: 0 <= i < |groups| && groups[i].parentId == parent && groups[i].sortOrder == order
    ensures forall i :: 0 <= i < |groups| && groups[i].parentId == parent ==> groups[i].sortOrder <= order
    ensures !HasChild(groups, parent) ==> order == -1
  {
    if groups == [] then -1
    else
      var n := |groups| - 1;
      var before := LastOrder(groups[..n], parent);
      assert forall i :: 0 <= i < n ==> groups[..n][i] == groups[i];
      if groups[n].parentId != parent then before
      else if HasChild(groups[..n], parent) && groups[n].sortOrder <= before then before
      else groups[n].sortOrder
  }

  predicate HasChild(groups: seq<ConnectionGroup>, parent: Option<Id>) {
    exists i :: 0 <= i < |groups| && groups[i].parentId == parent
  }

  /** A valid forest whose texts pass the checks satisfies the schema: the database enforces nothing
      that the in-memory validation does not. */
  lemma ValidIsSchema(groups: seq<ConnectionGroup>)
    requires ValidForest(groups) && forall g :: g in groups ==> TextChecks(g)
    ensures Schema(RowsOf(groups))
  {
    hide TextChecks, WellNamed;
    RowsOfSound(groups);
    ForestIsReferenced(RowsOf(groups));
    SiblingsUnclashed(groups);
    hide ValidForest, DistinctIds, DistinctSiblings, IsForest;
  }

  lemma ForestIsReferenced(rows: Rows)
    requires IsForest(ParentsOf(rows))
    ensures Referenced(rows)
  {
    var p := ParentsOf(rows);
    var rank :| Ranks(p, rank);
    forall id | id in rows && rows[id].parentId.Some?
      ensures rows[id].parentId.value in rows && rows[id].parentId.value != id
    {
      assert p[id] == rows[id].parentId;
    }
  }

  lemma SiblingsUnclashed(groups: seq<ConnectionGroup>)
    requires DistinctIds(groups) && DistinctSiblings(groups)
    ensures Unclashed(RowsOf(groups))
  {
    RowsOfSound(groups);
    var rows := RowsOf(groups);
    forall a, b | a in rows && b in rows && a != b ensures !NameClash(rows[a], rows[b]) {
      var i :| 0 <= i < |groups| && groups[i] == rows[a];
      var j :| 0 <= j < |groups| && groups[j] == rows[b];
      assert SiblingKey(groups[i]) != SiblingKey(groups[j]);
    }
  }

  /** The group that a save builds from its input and the row it replaces, if any. */
  function Edited(input: GroupInput, existing: Option<ConnectionGroup>, freshId: Id, order: int,
                  now: string): ConnectionGroup
  {
    ConnectionGroup(
      if existing.Some? then existing.value.id else freshId,
      Text.Trim(input.name), input.parentId, order, input.color,
      if existing.Some? then existing.value.createdAt else now,
      now)
  }

  /** The group that a save is to store, given the stored groups. */
  function SavedGroup(groups: seq<ConnectionGroup>, existing: Option<ConnectionGroup>, input: GroupInput,
                      freshId: Id, now: string):
    ConnectionGroup
  {
    Edited(input, existing, freshId, PlannedOrder(groups, existing, input.parentId), now)
  }

  /** The stored groups with one of them replaced or added. */
  function Replaced(groups: seq<ConnectionGroup>, group: ConnectionGroup): seq<ConnectionGroup> {
    Without(groups, group.id) + [group]
  }

  /** Why a save fails; the reasons are looked at in this order. */
  ghost predicate FailsWith(groups: seq<ConnectionGroup>, known: bool, group: ConnectionGroup, error: GroupError) {
    var edited := Replaced(groups, group);
    if !known then error == GroupMissing
    else if group.sortOrder > I64_MAX then error == OrderOutOfRange
    else if ValidForest(edited) then error == WriteFailed && !Storable(group)
    else match error
      case Invalid => !WellNamed(edited) || !DistinctIds(edited)
      case NameConflict => !DistinctSiblings(edited)
      case Cycle => HasCycle(ParentsOf(RowsOf(edited)))
      case ParentMissing => HasOrphan(ParentsOf(RowsOf(edited)))
      case _ => false
  }

  /** When a save goes through. */
  ghost predicate Saveable(groups: seq<ConnectionGroup>, known: bool, group: ConnectionGroup) {
    known && group.sortOrder <= I64_MAX && ValidForest(Replaced(groups, group)) && Storable(group)
  }

  /** `save_connection_group`. It succeeds exactly when the id, if given, is known, the order is in range, the
      edited groups are a valid forest and the texts can be stored; the table changes only then, and in one
      row. `groups` are the stored groups in the order they were read. */
  method SaveGroup(table: ConnectionGroupTable, input: GroupInput, freshId: Id, now: string)
    returns (r: Result<ConnectionGroup, GroupError>, ghost groups: seq<ConnectionGroup>)
    requires Schema(table.rows) && freshId !in table.rows
    modifies table
    ensures Schema(table.rows)
    ensures DistinctIds(groups) && RowsOf(groups) == old(table.rows)
    ensures var existing := Lookup(old(table.rows), input.id);
            var group := SavedGroup(groups, existing, input, freshId, now);
            var known := input.id.None? || existing.Some?;
            && (r.Ok? <==> Saveable(groups, known, group))
            && (r.Ok? ==> r.value == group && table.rows == old(table.rows)[group.id := group])
            && (r.Err? ==> FailsWith(groups, known, group, r.error))
    ensures r.Ok? ==> SavedAs(old(table.rows), input, freshId, now, r.value)
    ensures r.Ok? ==> table.rows == old(table.rows)[r.value.id := r.value]
    ensures r.Err? ==> table.rows == old(table.rows)
    ensures r == Err(GroupMissing) <==> input.id.Some? && input.id.value !in old(table.rows)
    ensures r == Err(OrderOutOfRange) ==>
              exists id :: id in old(table.rows) && old(table.rows)[id].sortOrder >= 0x7FFF_FFFF_FFFF_FFFF
    ensures r == Err(WriteFailed) ==>
      StartsWithNul(if input.id.Some? then input.id.value else freshId) || StartsWithNul(Text.Trim(input.name))
  {
    var stored := table.List();
    groups := stored;
    hide Schema, RowsOf, ValidForest, Text.Trim, DistinctIds;
    hide LastOrder, HasCycle, HasOrphan, WellNamed, DistinctSiblings;
    var existing := Lookup(table.rows, input.id);
    RowIds(table.rows);
    if input.id.Some? && existing.None? {
      return Err(GroupMissing), groups;
    }
    var order := PlannedOrder(stored, existing, input.parentId);
    if order > I64_MAX {
      ExistingIsStored(groups, input.id);
      HighOrder(groups, existing, input.parentId);
      return Err(OrderOutOfRange), groups;
    }
    var group := Edited(input, existing, freshId, order, now);
    SavedIs(groups, input, freshId, now);
    hide SavedAs;
    assert Stored(table.rows, group) == group;
    var edited := Without(stored, group.id) + [group];
    EditedRows(stored, group);
    var checked := ValidateTree(edited);
    if checked.Err? {
      return Err(checked.error), groups;
    }
    ValidatedIsAccepted(table.rows, edited, group);
    var ok := table.Upsert(group);
    if !ok {
      return Err(WriteFailed), groups;
    }
    return Ok(group), groups;
  }

  lemma HighOrder(groups: seq<ConnectionGroup>, existing: Option<ConnectionGroup>, parent: Option<Id>)
    requires DistinctIds(groups) && PlannedOrder(groups, existing, parent) > 0x7FFF_FFFF_FFFF_FFFF
    requires existing.Some? ==> existing.value in groups
    ensures exists id :: id in RowsOf(groups) && RowsOf(groups)[id].sortOrder >= 0x7FFF_FFFF_FFFF_FFFF
  {
    RowsOfSound(groups);
    hide RowsOf;
    if existing.Some? && existing.value.parentId == parent {
      var i :| 0 <= i < |groups| && groups[i] == existing.value;
      assert RowsOf(groups)[groups[i].id] == groups[i];
    } else if HasChild(groups, parent) {
      var i :| 0 <= i < |groups| && groups[i].parentId == parent && groups[i].sortOrder == LastOrder(groups, parent);
      assert RowsOf(groups)[groups[i].id] == groups[i];
    }
  }

  lemma ExistingIsStored(groups: seq<ConnectionGroup>, id: Option<Id>)
    requires DistinctIds(groups)
    ensures var existing := Lookup(RowsOf(groups), id); existing.Some? ==> existing.value in groups
  {
    RowsOfSound(groups);
  }

  /** The saved row, field by field. */
  ghost predicate SavedAs(before: Rows, input: GroupInput, freshId: Id, now: string, g: ConnectionGroup) {
    && g.name == Text.Trim(input.name) && g.parentId == input.parentId
    && g.color == input.color && g.updatedAt == now
    && (input.id.None? ==>
          g.id == freshId && g.createdAt == now && JustBehind(before, input.parentId, g.sortOrder))
    && (input.id.Some? ==>
          && g.id == input.id.value && g.id in before && g.createdAt == before[g.id].createdAt
          && if before[g.id].parentId == input.parentId then g.sortOrder == before[g.id].sortOrder
             else JustBehind(before, input.parentId, g.sortOrder))
  }

  lemma SavedIs(groups: seq<ConnectionGroup>, input: GroupInput, freshId: Id, now: string)
    requires DistinctIds(groups) && forall id :: id in RowsOf(groups) ==> RowsOf(groups)[id].id == id
    requires input.id.Some? ==> input.id.value in RowsOf(groups)
    ensures SavedAs(RowsOf(groups), input, freshId, now,
                    SavedGroup(groups, Lookup(RowsOf(groups), input.id), input, freshId, now))
  {
    LastOrderIsLast(groups, input.parentId);
    hide DistinctIds, RowsOf, JustBehind, LastOrder, Text.Trim;
  }

  /** The order is one more than the largest among the children of `parent`, and zero where there are none. */
  ghost predicate JustBehind(rows: Rows, parent: Option<Id>, order: int) {
    && (forall id :: id in rows && rows[id].parentId == parent ==> rows[id].sortOrder < order)
    && (order == 0 || exists id :: id in rows && rows[id].parentId == parent && rows[id].sortOrder == order - 1)
    && ((forall id :: id in rows ==> rows[id].parentId != parent) ==> order == 0)
  }

  lemma LastOrderIsLast(groups: seq<ConnectionGroup>, parent: Option<Id>)
    requires DistinctIds(groups)
    ensures JustBehind(RowsOf(groups), parent, LastOrder(groups, parent) + 1)
  {
    RowsOfSound(groups);
    var rows, order := RowsOf(groups), LastOrder(groups, parent);
    hide RowsOf;
    forall id | id in rows && rows[id].parentId == parent ensures rows[id].sortOrder < order + 1 {
      var i :| 0 <= i < |groups| && groups[i] == rows[id];
    }
    if HasChild(groups, parent) {
      var i :| 0 <= i < |groups| && groups[i].parentId == parent && groups[i].sortOrder == order;
      assert rows[groups[i].id] == groups[i];
    }
  }

  /** In a valid forest an edit keeps the forest valid if and only if the new row has an id and a proper name that
      no other child of its parent bears, and its parent, if any, exists and is not at or below it. */
  lemma EditIsValidExactly(groups: seq<ConnectionGroup>, group: ConnectionGroup)
    requires ValidForest(groups)
    ensures ValidForest(Replaced(groups, group)) <==>
            && ProperlyNamed(group)
            && !HasSibling(Without(groups, group.id), SiblingKey(group))
            && (group.parentId.Some? ==>
                  && group.parentId.value in RowsOf(groups)
                  && !AtOrAbove(ParentsOf(RowsOf(groups)), group.parentId.value, group.id))
  {
    var rest := Without(groups, group.id);
    WithoutKeeps(groups, group.id);
    WellNamedPush(rest, group);
    DistinctIdsPush(rest, group);
    DistinctSiblingsPush(rest, group);
    EditedRows(groups, group);
    if group.parentId.None? || group.parentId.value in RowsOf(groups) {
      ForestExact(RowsOf(groups), group);
    } else {
      ParentNeeded(RowsOf(groups)[group.id := group], group.id);
    }
    hide WellNamed, DistinctIds, DistinctSiblings, IsForest, RowsOf, ParentsOf, HasId, HasSibling, ProperlyNamed;
  }

  lemma ParentNeeded(rows: Rows, id: Id)
    requires id in rows && rows[id].parentId.Some?
    ensures IsForest(ParentsOf(rows)) ==> rows[id].parentId.value in rows && rows[id].parentId.value != id
  {
    if rank :| Ranks(ParentsOf(rows), rank) {
      assert id in ParentsOf(rows);
    }
  }

  /** What removing a group keeps. */
  ghost predicate SeparatedFrom(rest: seq<ConnectionGroup>, groups: seq<ConnectionGroup>) {
    WellNamed(rest) && DistinctIds(rest) && DistinctSiblings(rest) && forall g :: g in rest ==> g in groups
  }

  lemma SeparatedPush(rest: seq<ConnectionGroup>, groups: seq<ConnectionGroup>, g: ConnectionGroup)
    requires SeparatedFrom(rest, groups) && ProperlyNamed(g)
    requires !HasId(groups, g.id) && !HasSibling(groups, SiblingKey(g))
    ensures SeparatedFrom(rest + [g], groups + [g])
  {
    SubsetLacks(rest, groups, g);
    WellNamedPush(rest, g);
    DistinctIdsPush(rest, g);
    DistinctSiblingsPush(rest, g);
    hide WellNamed, DistinctIds, DistinctSiblings, HasId, HasSibling, ProperlyNamed;
  }

  lemma SeparatedLonger(rest: seq<ConnectionGroup>, groups: seq<ConnectionGroup>, g: ConnectionGroup)
    requires SeparatedFrom(rest, groups)
    ensures SeparatedFrom(rest, groups + [g])
  {
    hide WellNamed, DistinctIds, DistinctSiblings;
  }

  lemma LastStandsApart(groups: seq<ConnectionGroup>, g: ConnectionGroup)
    requires WellNamed(groups + [g]) && DistinctIds(groups + [g]) && DistinctSiblings(groups + [g])
    ensures WellNamed(groups) && DistinctIds(groups) && DistinctSiblings(groups)
    ensures ProperlyNamed(g) && !HasId(groups, g.id) && !HasSibling(groups, SiblingKey(g))
  {
    WellNamedPush(groups, g);
    DistinctIdsPush(groups, g);
    DistinctSiblingsPush(groups, g);
  }

  lemma {:induction false} WithoutKeeps(groups: seq<ConnectionGroup>, id: Id)
    requires WellNamed(groups) && DistinctIds(groups) && DistinctSiblings(groups)
    ensures SeparatedFrom(Without(groups, id), groups) && !HasId(Without(groups, id), id)
  {
    if groups != [] {
      hide WellNamed, DistinctIds, DistinctSiblings, HasId, HasSibling, SeparatedFrom, ProperlyNamed;
      var init, last := groups[..|groups| - 1], groups[|groups| - 1];
      assert groups == init + [last];
      LastStandsApart(init, last);
      WithoutKeeps(init, id);
      if last.id == id {
        SeparatedLonger(Without(init, id), init, last);
      } else {
        SeparatedPush(Without(init, id), init, last);
        HasIdPush(Without(init, id), last, id);
      }
    }
  }

  lemma SubsetLacks(rest: seq<ConnectionGroup>, groups: seq<ConnectionGroup>, g: ConnectionGroup)
    requires forall x :: x in rest ==> x in groups
    ensures !HasId(groups, g.id) ==> !HasId(rest, g.id)
    ensures !HasSibling(groups, SiblingKey(g)) ==> !HasSibling(rest, SiblingKey(g))
  {
    if i :| 0 <= i < |rest| && rest[i].id == g.id {
      assert rest[i] in groups;
    }
    if i :| 0 <= i < |rest| && SiblingKey(rest[i]) == SiblingKey(g) {
      assert rest[i] in groups;
    }
  }

  /** The position among its siblings: kept when the parent is kept, otherwise after the last one. */
  function PlannedOrder(groups: seq<ConnectionGroup>, existing: Option<ConnectionGroup>, parent: Option<Id>): int {
    if existing.Some? && existing.value.parentId == parent then existing.value.sortOrder
    else LastOrder(groups, parent) + 1
  }

  lemma RowIds(rows: Rows)
    requires Schema(rows)
    ensures forall id :: id in rows ==> rows[id].id == id
  {
  }

  lemma EditedRows(groups: seq<ConnectionGroup>, group: ConnectionGroup)
    requires DistinctIds(groups)
    ensures RowsOf(Without(groups, group.id) + [group]) == RowsOf(groups)[group.id := group]
  {
    WithoutRows(groups, group.id);
    RowsOfPush(Without(groups, group.id), group);
  }

  function Lookup(rows: Rows, id: Option<Id>): Option<ConnectionGroup> {
    if id.Some? && id.value in rows then Some(rows[id.value]) else None
  }

  lemma ValidatedIsAccepted(rows: Rows, edited: seq<ConnectionGroup>, group: ConnectionGroup)
    requires Schema(rows) && ValidForest(edited) && group in edited
    requires RowsOf(edited) == rows[group.id := group]
    ensures UpsertAccepted(rows, group) <==> Storable(group)
  {
    hide Schema, ValidForest, ProperlyNamed, Storable, TextChecks, RowsOf;
    UpsertExact(rows, group);
    MemberNamed(edited, group);
    TextChecksExact(group);
    if TextChecks(group) {
      EditedTextChecks(rows, edited, group);
      ValidIsSchema(edited);
    }
  }

  lemma MemberNamed(groups: seq<ConnectionGroup>, group: ConnectionGroup)
    requires ValidForest(groups) && group in groups
    ensures ProperlyNamed(group)
  {
  }

  lemma EditedTextChecks(rows: Rows, edited: seq<ConnectionGroup>, group: ConnectionGroup)
    requires Schema(rows) && ValidForest(edited) && TextChecks(group)
    requires RowsOf(edited) == rows[group.id := group]
    ensures forall g :: g in edited ==> TextChecks(g)
  {
    hide TextChecks;
    ValidRows(edited);
  }
}
