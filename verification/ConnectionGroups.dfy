/** Session groups and the in-memory validation of a group tree. */
module ConnectionGroups {
  import opened Common
  import opened Forest
  import Text

  datatype ConnectionGroup = ConnectionGroup(
    id: Id,
    name: string,
    parentId: Option<Id>,
    sortOrder: int,
    color: string,
    createdAt: string,
    updatedAt: string)

  datatype GroupError =
    | Invalid
    | NameConflict
    | Cycle
    | ParentMissing
    | GroupMissing
    | OrderOutOfRange
    | OrderUnresolved
    | ParentMappingMissing
    | Ambiguous
    | DuplicateTarget
    | WriteFailed

  type Sibling = (Option<Id>, string)

  function SiblingKey(g: ConnectionGroup): Sibling {
    (g.parentId, g.name)
  }

  /** The groups by id; a later group with the same id wins. */
  function RowsOf(groups: seq<ConnectionGroup>): map<Id, ConnectionGroup> {
    if groups == [] then map[]
    else
      var last := groups[|groups| - 1];
      RowsOf(groups[..|groups| - 1])[last.id := last]
  }

  function ParentsOf(rows: map<Id, ConnectionGroup>): Parents {
    map id | id in rows :: rows[id].parentId
  }

  ghost predicate DistinctIds(groups: seq<ConnectionGroup>) {
    forall i, j :: 0 <= i < j < |groups| ==> groups[i].id != groups[j].id
  }

  ghost predicate DistinctSiblings(groups: seq<ConnectionGroup>) {
    forall i, j :: 0 <= i < j < |groups| ==> SiblingKey(groups[i]) != SiblingKey(groups[j])
  }

  predicate ProperName(name: string) {
    name != "" && Text.Trim(name) == name
  }

  predicate ProperlyNamed(g: ConnectionGroup) {
    g.id != "" && ProperName(g.name)
  }

  ghost predicate WellNamed(groups: seq<ConnectionGroup>) {
    forall i :: 0 <= i < |groups| ==> ProperlyNamed(groups[i])
  }

  /** What the source means by a valid tree, without reference to how it is checked. */
  ghost predicate ValidForest(groups: seq<ConnectionGroup>) {
    && WellNamed(groups)
    && DistinctIds(groups)
    && DistinctSiblings(groups)
    && IsForest(ParentsOf(RowsOf(groups)))
  }

  /** Every row of the table of `groups` is one of them, and every group's id has a row. */
  lemma {:induction false} RowsOfSound(groups: seq<ConnectionGroup>)
    ensures forall i :: 0 <= i < |groups| ==> groups[i].id in RowsOf(groups)
    ensures forall id :: id in RowsOf(groups) ==> RowsOf(groups)[id].id == id && RowsOf(groups)[id] in groups
    ensures DistinctIds(groups) ==> forall i :: 0 <= i < |groups| ==> RowsOf(groups)[groups[i].id] == groups[i]
  {
    if groups != [] {
      var init := groups[..|groups| - 1];
      RowsOfSound(init);
      forall i | 0 <= i < |groups|
        ensures groups[i].id in RowsOf(groups)
        ensures DistinctIds(groups) ==> RowsOf(groups)[groups[i].id] == groups[i]
      {
        if i < |groups| - 1 {
          assert init[i] == groups[i];
        }
      }
      assert forall g :: g in init ==> g in groups;
    }
  }

  lemma RowsOfPush(groups: seq<ConnectionGroup>, g: ConnectionGroup)
    ensures RowsOf(groups + [g]) == RowsOf(groups)[g.id := g]
  {
    assert (groups + [g])[..|groups|] == groups;
  }

  /** The facts that the first loop of `validate_tree` establishes. */
  ghost predicate Separate(groups: seq<ConnectionGroup>) {
    WellNamed(groups) && DistinctIds(groups) && DistinctSiblings(groups)
  }

  ghost predicate HasId(groups: seq<ConnectionGroup>, id: Id) {
    exists i :: 0 <= i < |groups| && groups[i].id == id
  }

  ghost predicate HasSibling(groups: seq<ConnectionGroup>, key: Sibling) {
    exists i :: 0 <= i < |groups| && SiblingKey(groups[i]) == key
  }

  lemma WellNamedPush(groups: seq<ConnectionGroup>, g: ConnectionGroup)
    ensures WellNamed(groups + [g]) <==> WellNamed(groups) && ProperlyNamed(g)
  {
    var all := groups + [g];
    assert all[|groups|] == g;
    forall i | 0 <= i < |groups| ensures all[i] == groups[i] {}
  }

  lemma DistinctIdsPush(groups: seq<ConnectionGroup>, g: ConnectionGroup)
    ensures DistinctIds(groups + [g]) <==> DistinctIds(groups) && !HasId(groups, g.id)
  {
    var all := groups + [g];
    assert all[|groups|] == g;
    forall i | 0 <= i < |groups| ensures all[i] == groups[i] {}
  }

  lemma DistinctSiblingsPush(groups: seq<ConnectionGroup>, g: ConnectionGroup)
    ensures DistinctSiblings(groups + [g]) <==> DistinctSiblings(groups) && !HasSibling(groups, SiblingKey(g))
  {
    var all := groups + [g];
    assert all[|groups|] == g;
    forall i | 0 <= i < |groups| ensures all[i] == groups[i] {}
  }

  lemma SeparatePrefix(groups: seq<ConnectionGroup>, n: nat)
    requires n <= |groups|
    ensures WellNamed(groups) ==> WellNamed(groups[..n])
    ensures DistinctIds(groups) ==> DistinctIds(groups[..n])
    ensures DistinctSiblings(groups) ==> DistinctSiblings(groups[..n])
  {
  }

  lemma HasIdIsRow(groups: seq<ConnectionGroup>, id: Id)
    ensures HasId(groups, id) <==> id in RowsOf(groups)
  {
    RowsOfSound(groups);
  }

  lemma PushKeepsForest(groups: seq<ConnectionGroup>, g: ConnectionGroup)
    requires IsForest(ParentsOf(RowsOf(groups)))
    requires !HasId(groups, g.id)
    requires g.parentId.None? || HasId(groups, g.parentId.value)
    ensures IsForest(ParentsOf(RowsOf(groups + [g])))
  {
    HasIdIsRow(groups, g.id);
    RowsOfPush(groups, g);
    var p := ParentsOf(RowsOf(groups));
    assert ParentsOf(RowsOf(groups + [g])) == p[g.id := g.parentId];
    if g.parentId.None? {
      DetachKeepsForest(p, g.id);
    } else {
      HasIdIsRow(groups, g.parentId.value);
      if AtOrAbove(p, g.parentId.value, g.id) {
        var k: nat :| Up(p, g.parentId.value, k) == Some(g.id);
        var rank :| Ranks(p, rank);
        UpDecreases(p, rank, g.parentId.value, k);
        assert false;
      }
      ReparentKeepsForest(p, g.id, g.parentId.value);
    }
  }

  /** A group under an existing parent (or at the root) with an unused id and an unused sibling key
      keeps the forest valid. */
  lemma PushKeepsValid(groups: seq<ConnectionGroup>, g: ConnectionGroup)
    requires ValidForest(groups)
    requires ProperlyNamed(g)
    requires !HasId(groups, g.id) && !HasSibling(groups, SiblingKey(g))
    requires g.parentId.None? || HasId(groups, g.parentId.value)
    ensures ValidForest(groups + [g])
  {
    WellNamedPush(groups, g);
    DistinctIdsPush(groups, g);
    DistinctSiblingsPush(groups, g);
    PushKeepsForest(groups, g);
  }

  /** `validate_tree`. It accepts exactly the valid forests, and names a real defect otherwise. */
  method ValidateTree(groups: seq<ConnectionGroup>) returns (r: Result<Done, GroupError>)
    ensures r.Ok? <==> ValidForest(groups)
    ensures r == Err(Invalid) ==> !WellNamed(groups) || !DistinctIds(groups)
    ensures r == Err(NameConflict) ==> !DistinctSiblings(groups)
    ensures r == Err(Cycle) ==> HasCycle(ParentsOf(RowsOf(groups)))
    ensures r == Err(ParentMissing) ==> HasOrphan(ParentsOf(RowsOf(groups)))
    ensures r.Err? ==> r.error in {Invalid, NameConflict, Cycle, ParentMissing}
  {
    var byId :- CheckRows(groups);
    r := CheckParents(groups, byId);
  }

  /** The second loop of `validate_tree`: every group reaches a root. */
  method CheckParents(groups: seq<ConnectionGroup>, byId: map<Id, ConnectionGroup>)
    returns (r: Result<Done, GroupError>)
    requires DistinctIds(groups) && byId == RowsOf(groups)
    ensures r.Ok? <==> IsForest(ParentsOf(byId))
    ensures r == Err(Cycle) ==> HasCycle(ParentsOf(byId))
    ensures r == Err(ParentMissing) ==> HasOrphan(ParentsOf(byId))
    ensures r.Err? ==> r.error in {Cycle, ParentMissing}
  {
    RowsOfSound(groups);
    ghost var p := ParentsOf(byId);
    for i := 0 to |groups|
      invariant forall j :: 0 <= j < i ==> Rooted(p, groups[j].id)
    {
      var walk := CheckAncestors(byId, groups[i]);
      if walk.Err? {
        return walk;
      }
    }
    forall id | id in p ensures Rooted(p, id) {
      assert byId[id] in groups;
    }
    RootedIsForest(p);
    return Ok(Done);
  }

  ghost predicate HasCycle(p: Parents) {
    exists id, k: nat :: k > 0 && id in p && Up(p, id, k) == Some(id)
  }

  ghost predicate HasOrphan(p: Parents) {
    exists id :: id in p && p[id].Some? && p[id].value !in p
  }

  /** The checks on one row, in the order in which they are made. */
  function RowDefect(g: ConnectionGroup, idTaken: bool, siblingTaken: bool): (r: Option<GroupError>)
    ensures r.None? <==> ProperlyNamed(g) && !idTaken && !siblingTaken
    ensures r == Some(Invalid) <==> !ProperlyNamed(g) || idTaken
    ensures r == Some(NameConflict) ==> siblingTaken
  {
    if g.id == "" || idTaken then Some(Invalid)
    else if Text.Trim(g.name) == "" || g.name != Text.Trim(g.name) then Some(Invalid)
    else if siblingTaken then Some(NameConflict)
    else None
  }

  /** What the two sets of the first loop hold once `groups` have been accepted. */
  ghost predicate Accepted(groups: seq<ConnectionGroup>, byId: map<Id, ConnectionGroup>, names: set<Sibling>) {
    && Separate(groups)
    && byId == RowsOf(groups)
    && forall key :: key in names <==> HasSibling(groups, key)
  }

  lemma AcceptedPush(groups: seq<ConnectionGroup>, byId: map<Id, ConnectionGroup>, names: set<Sibling>,
                     g: ConnectionGroup)
    requires Accepted(groups, byId, names)
    ensures var defect := RowDefect(g, g.id in byId, SiblingKey(g) in names);
      && (defect.None? ==> Accepted(groups + [g], byId[g.id := g], names + {SiblingKey(g)}))
      && (defect == Some(Invalid) ==> !WellNamed(groups + [g]) || !DistinctIds(groups + [g]))
      && (defect == Some(NameConflict) ==> !DistinctSiblings(groups + [g]))
      && (defect.Some? ==> defect.value in {Invalid, NameConflict})
  {
    WellNamedPush(groups, g);
    DistinctIdsPush(groups, g);
    DistinctSiblingsPush(groups, g);
    HasIdIsRow(groups, g.id);
    RowsOfPush(groups, g);
    SiblingsPush(groups, g);
  }

  lemma SiblingsPush(groups: seq<ConnectionGroup>, g: ConnectionGroup)
    ensures forall key :: HasSibling(groups + [g], key) <==> HasSibling(groups, key) || key == SiblingKey(g)
  {
    var all := groups + [g];
    assert all[|groups|] == g;
    forall key | HasSibling(groups, key) ensures HasSibling(all, key) {
      var i :| 0 <= i < |groups| && SiblingKey(groups[i]) == key;
      assert SiblingKey(all[i]) == key;
    }
  }

  /** The first loop of `validate_tree`: ids, names and siblings. */
  method CheckRows(groups: seq<ConnectionGroup>) returns (r: Result<map<Id, ConnectionGroup>, GroupError>)
    ensures r.Ok? <==> Separate(groups)
    ensures r.Ok? ==> r.value == RowsOf(groups)
    ensures r == Err(Invalid) ==> !WellNamed(groups) || !DistinctIds(groups)
    ensures r == Err(NameConflict) ==> !DistinctSiblings(groups)
    ensures r.Err? ==> r.error in {Invalid, NameConflict}
  {
    var byId: map<Id, ConnectionGroup> := map[];
    var names: set<Sibling> := {};
    AcceptedInitially();
    hide RowsOf, Accepted, RowDefect, WellNamed, DistinctIds, DistinctSiblings;
    for i := 0 to |groups|
      invariant Accepted(groups[..i], byId, names)
    {
      var g := groups[i];
      AcceptedPush(groups[..i], byId, names, g);
      assert groups[..i] + [g] == groups[..i + 1];
      SeparatePrefix(groups, i + 1);
      var defect := RowDefect(g, g.id in byId, SiblingKey(g) in names);
      if defect.Some? {
        return Err(defect.value);
      }
      byId := byId[g.id := g];
      names := names + {SiblingKey(g)};
    }
    assert groups[..|groups|] == groups;
    AcceptedMeans(groups, byId, names);
    return Ok(byId);
  }

  lemma AcceptedInitially()
    ensures Accepted([], map[], {})
  {
    var none: seq<ConnectionGroup> := [];
    assert WellNamed(none) && DistinctIds(none) && DistinctSiblings(none);
    assert forall key :: !HasSibling(none, key);
  }

  lemma AcceptedMeans(groups: seq<ConnectionGroup>, byId: map<Id, ConnectionGroup>, names: set<Sibling>)
    requires Accepted(groups, byId, names)
    ensures Separate(groups) && byId == RowsOf(groups)
  {
  }

  /** The inner loop of `validate_tree`: follow the parents of one group up to a root. */
  method CheckAncestors(byId: map<Id, ConnectionGroup>, g: ConnectionGroup) returns (r: Result<Done, GroupError>)
    requires g.id in byId && byId[g.id] == g
    requires forall id :: id in byId ==> byId[id].id == id
    ensures r.Ok? ==> Rooted(ParentsOf(byId), g.id)
    ensures r.Err? ==> !IsForest(ParentsOf(byId))
    ensures r == Err(Cycle) ==> HasCycle(ParentsOf(byId))
    ensures r == Err(ParentMissing) ==> HasOrphan(ParentsOf(byId))
    ensures r.Err? ==> r.error in {Cycle, ParentMissing}
  {
    var visited := {g.id};
    var parent := g.parentId;
    ghost var p := ParentsOf(byId);
    ghost var current := g.id;
    ghost var steps: nat := 0;
    assert Up(p, current, 0) == Some(current);
    while parent.Some?
      invariant current in p && parent == p[current]
      invariant visited <= byId.Keys && current in visited
      invariant forall v :: v in visited ==> AtOrAbove(p, v, current)
      invariant forall k: nat :: RootedIn(p, current, k) ==> RootedIn(p, g.id, steps + k)
      decreases byId.Keys - visited
    {
      var id := parent.value;
      if id in visited {
        ghost var k: nat :| Up(p, id, k) == Some(current);
        UpExtend(p, id, k, current);
        assert Up(p, id, k + 1) == Some(id);
        CycleIsNoForest(p, id, k + 1);
        return Err(Cycle);
      }
      if id !in byId {
        assert p[current].value !in p;
        return Err(ParentMissing);
      }
      forall v | v in visited + {id}
        ensures AtOrAbove(p, v, id)
      {
        if v == id {
          assert Up(p, id, 0) == Some(id);
        } else {
          var k: nat :| Up(p, v, k) == Some(current);
          UpExtend(p, v, k, current);
        }
      }
      forall k: nat | RootedIn(p, id, k)
        ensures RootedIn(p, g.id, steps + 1 + k)
      {
        assert RootedIn(p, current, k + 1);
      }
      visited := visited + {id};
      parent := byId[id].parentId;
      current, steps := id, steps + 1;
    }
    assert RootedIn(p, current, 0);
    assert RootedIn(p, g.id, steps + 0);
    return Ok(Done);
  }

  lemma CycleIsNoForest(p: Parents, id: Id, k: nat)
    requires k > 0 && id in p && Up(p, id, k) == Some(id)
    ensures !IsForest(p)
  {
    if IsForest(p) {
      var rank :| Ranks(p, rank);
      UpDecreases(p, rank, id, k);
      assert false;
    }
  }
}
