/** `plan`: merging an imported forest into the local groups, by id or by sibling name. */
module GroupMerge {
  import opened Common
  import opened Forest
  import opened ConnectionGroups
  import opened GroupOrder

  /** The variables of the planning loop. */
  datatype Draft = Draft(
    groups: seq<ConnectionGroup>,
    mapping: map<Id, Id>,
    targets: set<Id>,
    conflicts: nat)

  datatype MergePlan = MergePlan(groups: seq<ConnectionGroup>, mapping: map<Id, Id>, conflicts: nat)

  /** `iter().position(|g| g.id == id)`: the first match. */
  function FindId(groups: seq<ConnectionGroup>, id: Id, from: nat := 0): (r: Option<nat>)
    requires from <= |groups|
    ensures r.Some? ==> from <= r.value < |groups| && groups[r.value].id == id
    ensures r.None? ==> forall i :: from <= i < |groups| ==> groups[i].id != id
    decreases |groups| - from
  {
    if from == |groups| then None
    else if groups[from].id == id then Some(from)
    else FindId(groups, id, from + 1)
  }

  /** The first group with a given parent and name. */
  function FindSibling(groups: seq<ConnectionGroup>, key: Sibling, from: nat := 0): (r: Option<nat>)
    requires from <= |groups|
    ensures r.Some? ==> from <= r.value < |groups| && SiblingKey(groups[r.value]) == key
    ensures r.None? ==> forall i :: from <= i < |groups| ==> SiblingKey(groups[i]) != key
    decreases |groups| - from
  {
    if from == |groups| then None
    else if SiblingKey(groups[from]) == key then Some(from)
    else FindSibling(groups, key, from + 1)
  }

  predicate ParentMapped(mapping: map<Id, Id>, g: ConnectionGroup) {
    g.parentId.None? || g.parentId.value in mapping
  }

  function MapParent(mapping: map<Id, Id>, parent: Option<Id>): Option<Id>
    requires parent.None? || parent.value in mapping
  {
    if parent.None? then None else Some(mapping[parent.value])
  }

  /** `g` with its parent replaced by the group that parent was mapped to. */
  function Mapped(mapping: map<Id, Id>, g: ConnectionGroup): ConnectionGroup
    requires ParentMapped(mapping, g)
  {
    g.(parentId := MapParent(mapping, g.parentId))
  }

  /** What an overwrite leaves in place of `existing`: its identity and creation time survive. */
  function Rewritten(existing: ConnectionGroup, g: ConnectionGroup): ConnectionGroup {
    g.(id := existing.id, createdAt := existing.createdAt)
  }

  /** One turn of the planning loop. */
  function Place(d: Draft, g: ConnectionGroup, overwrite: bool): Result<Draft, GroupError> {
    if !ParentMapped(d.mapping, g) then Err(ParentMappingMissing)
    else
      var group := Mapped(d.mapping, g);
      var byId := FindId(d.groups, g.id);
      var byName := FindSibling(d.groups, SiblingKey(group));
      if byId.Some? && byName.Some? && byId != byName then Err(Ambiguous)
      else
        var hit := if byId.Some? then byId else byName;
        var id := if hit.Some? then d.groups[hit.value].id else g.id;
        var groups :=
          if hit.None? then d.groups + [group]
          else if overwrite then d.groups[hit.value := Rewritten(d.groups[hit.value], group)]
          else d.groups;
        if id in d.targets then Err(DuplicateTarget)
        else Ok(Draft(groups, d.mapping[g.id := id], d.targets + {id}, d.conflicts + if hit.Some? then 1 else 0))
  }

  /** The planning loop after its first `n` turns. */
  function After(local: seq<ConnectionGroup>, order: seq<ConnectionGroup>, overwrite: bool,
                 n: nat): Result<Draft, GroupError>
    requires n <= |order|
  {
    if n == 0 then Ok(Draft(local, map[], {}, 0))
    else
      var before := After(local, order, overwrite, n - 1);
      if before.Err? then before else Place(before.value, order[n - 1], overwrite)
  }

  /** The plan that the two valid inputs determine, if there is one. */
  ghost function Merge(local: seq<ConnectionGroup>, imported: seq<ConnectionGroup>,
                       overwrite: bool): Option<MergePlan>
  {
    if !ValidForest(imported) then None
    else
      var order := ParentFirst(imported);
      var end := After(local, order, overwrite, |order|);
      if end.Err? || !ValidForest(end.value.groups) then None
      else Some(MergePlan(end.value.groups, end.value.mapping, end.value.conflicts))
  }

  /** `plan` computes the merge, and fails exactly when there is none. */
  method Plan(local: seq<ConnectionGroup>, imported: seq<ConnectionGroup>, overwrite: bool)
    returns (r: Result<MergePlan, GroupError>)
    ensures r.Ok? <==> Merge(local, imported, overwrite).Some?
    ensures r.Ok? ==> r.value == Merge(local, imported, overwrite).value
    ensures r.Err? && ValidForest(imported) ==>
              var order := ParentFirst(imported);
              var end := After(local, order, overwrite, |order|);
              end.Err? ==> r.error == end.error
  {
    var order :- Ordered(imported);
    var draft := Draft(local, map[], {}, 0);
    for n := 0 to |order|
      invariant After(local, order, overwrite, n) == Ok(draft)
    {
      ErrorsStay(local, order, overwrite, n + 1);
      draft :- Place(draft, order[n], overwrite);
    }
    var _ :- ValidateTree(draft.groups);
    return Ok(MergePlan(draft.groups, draft.mapping, draft.conflicts));
  }

  /** Once a turn fails, the loop has failed. */
  lemma {:induction false} ErrorsStay(local: seq<ConnectionGroup>, order: seq<ConnectionGroup>, overwrite: bool, n: nat)
    requires n <= |order|
    ensures After(local, order, overwrite, n).Err? ==>
      After(local, order, overwrite, |order|) == After(local, order, overwrite, n)
    decreases |order| - n
  {
    hide Place;
    if n < |order| {
      ErrorsStay(local, order, overwrite, n + 1);
    }
  }
}
