/** The one-time migration of the old group rows: matching them with groups, and the groups that result. */
module GroupLegacy {
  import opened Common
  import opened Forest
  import opened ConnectionGroups
  import opened LegacyCycles
  import GroupMerge
  import Text

  datatype LegacyRow = LegacyRow(id: Id, name: string, parentId: Option<Id>, color: string)

  /** What a maintainer decides for one row. */
  datatype Resolution = Resolution(index: nat, name: string, parentIndex: Option<nat>, targetId: Option<Id>)

  datatype LegacyIssue =
    | MappingIncomplete
    | MappingRepeated
    | MappingMissing
    | ParentUnknown
    | TargetGone
    | AmbiguousRows
    | AmbiguousTarget
    | SharedTarget
    | PlacementConflict
    | ColorConflict
    | InvalidTree(error: GroupError)
    | WriteRefused

  const DEFAULT_COLOR := "#64748b"

  /** The name, the parent row and the target group of every row. */
  datatype Assignment = Assignment(names: seq<string>, parents: seq<Option<Index>>, targets: seq<Id>) {
    predicate For(rows: seq<LegacyRow>) {
      |names| == |rows| && |parents| == |rows| && |targets| == |rows| && InRange(parents)
    }
  }

  /** Values of `uuid::Uuid::new_v4`, one for each row: not used by any group so far, and all different. */
  ghost predicate FreshIds(fresh_: seq<Id>, local: seq<ConnectionGroup>, rows: seq<LegacyRow>) {
    && |fresh_| == |rows|
    && (forall i :: 0 <= i < |fresh_| ==> fresh_[i] != "" && !HasId(local, fresh_[i]))
    && (forall i, j :: 0 <= i < j < |fresh_| ==> fresh_[i] != fresh_[j])
  }

  // ---- explicit mapping ----

  /** Row `i` of the assignment is what a resolution says about it. */
  ghost predicate Follows(resolution: Resolution, local: seq<ConnectionGroup>, fresh_: Id, name: string,
                          parent: Option<Index>, target: Id)
  {
    && name == Text.Trim(resolution.name)
    && parent == resolution.parentIndex
    && target == (if resolution.targetId.Some? then resolution.targetId.value else fresh_)
    && (resolution.targetId.Some? ==> HasId(local, resolution.targetId.value))
  }

  ghost predicate IndexedBy(resolutions: seq<Resolution>, byIndex: map<nat, Resolution>) {
    && (forall k :: 0 <= k < |resolutions| ==>
          resolutions[k].index in byIndex && byIndex[resolutions[k].index] == resolutions[k])
    && (forall i :: i in byIndex ==> byIndex[i] in resolutions && byIndex[i].index == i)
  }

  /** Every row has exactly one resolution, and the assignment follows it. */
  ghost predicate Resolved(resolutions: seq<Resolution>, local: seq<ConnectionGroup>, fresh_: seq<Id>, a: Assignment) {
    && |a.names| == |a.parents| == |a.targets| == |resolutions| == |fresh_|
    && exists byIndex :: IndexedBy(resolutions, byIndex) && FollowsAll(byIndex, local, fresh_, a)
  }

  ghost predicate FollowsAll(byIndex: map<nat, Resolution>, local: seq<ConnectionGroup>, fresh_: seq<Id>,
                             a: Assignment)
  {
    && |a.names| == |a.parents| == |a.targets| <= |fresh_|
    && forall i :: 0 <= i < |a.names| ==>
         i in byIndex && Follows(byIndex[i], local, fresh_[i], a.names[i], a.parents[i], a.targets[i])
  }

  lemma OneMoreFollows(byIndex: map<nat, Resolution>, local: seq<ConnectionGroup>, fresh_: seq<Id>, a: Assignment,
                       name: string, parent: Option<Index>, target: Id)
    requires FollowsAll(byIndex, local, fresh_, a) && |a.names| < |fresh_|
    requires |a.names| in byIndex && Follows(byIndex[|a.names|], local, fresh_[|a.names|], name, parent, target)
    ensures FollowsAll(byIndex, local, fresh_, Assignment(a.names + [name], a.parents + [parent], a.targets + [target]))
  {
    hide Follows;
  }

  /** `iter().position(|g| g.id == id)`. */
  method IndexOfId(groups: seq<ConnectionGroup>, id: Id) returns (at: Option<nat>)
    ensures at == GroupMerge.FindId(groups, id)
    ensures at.Some? ==> at.value < |groups| && groups[at.value].id == id
    ensures at.None? ==> !HasId(groups, id)
  {
    for i := 0 to |groups|
      invariant GroupMerge.FindId(groups, id) == GroupMerge.FindId(groups, id, i)
      invariant forall k :: 0 <= k < i ==> groups[k].id != id
    {
      if groups[i].id == id {
        return Some(i);
      }
    }
    at := None;
  }

  ghost predicate IndicesDistinct(resolutions: seq<Resolution>) {
    forall j, k :: 0 <= j < k < |resolutions| ==> resolutions[j].index != resolutions[k].index
  }

  /** The parent row exists and so does the chosen group. */
  ghost predicate Admissible(resolution: Resolution, local: seq<ConnectionGroup>, count: nat) {
    && (resolution.parentIndex.Some? ==> resolution.parentIndex.value < count)
    && (resolution.targetId.Some? ==> HasId(local, resolution.targetId.value))
  }

  ghost predicate ResolvedAt(resolutions: seq<Resolution>, local: seq<ConnectionGroup>, count: nat, i: nat) {
    exists k :: 0 <= k < |resolutions| && resolutions[k].index == i && Admissible(resolutions[k], local, count)
  }

  /** There is exactly one resolution for every row, and all of them can be followed. */
  ghost predicate Resolvable(local: seq<ConnectionGroup>, count: nat, resolutions: seq<Resolution>) {
    && |resolutions| == count
    && IndicesDistinct(resolutions)
    && forall i :: 0 <= i < count ==> ResolvedAt(resolutions, local, count, i)
  }

  /** The resolutions by row; two for the same row are an error. */
  method IndexResolutions(resolutions: seq<Resolution>) returns (byIndex: Option<map<nat, Resolution>>)
    ensures byIndex.Some? <==> IndicesDistinct(resolutions)
    ensures byIndex.Some? ==> IndexedBy(resolutions, byIndex.value)
  {
    var found: map<nat, Resolution> := map[];
    for k := 0 to |resolutions|
      invariant IndexedBy(resolutions[..k], found) && IndicesDistinct(resolutions[..k])
    {
      var resolution := resolutions[k];
      if resolution.index in found {
        RepeatedIndex(resolutions, found, k);
        return None;
      }
      OneMoreIndex(resolutions, found, k);
      found := found[resolution.index := resolution];
    }
    assert resolutions[..|resolutions|] == resolutions;
    byIndex := Some(found);
  }

  lemma RepeatedIndex(resolutions: seq<Resolution>, found: map<nat, Resolution>, k: nat)
    requires k < |resolutions| && IndexedBy(resolutions[..k], found) && resolutions[k].index in found
    ensures !IndicesDistinct(resolutions)
  {
    assert found[resolutions[k].index] in resolutions[..k];
    var j :| 0 <= j < k && resolutions[..k][j] == found[resolutions[k].index];
    assert resolutions[j].index == resolutions[k].index;
  }

  lemma OneMoreIndex(resolutions: seq<Resolution>, found: map<nat, Resolution>, k: nat)
    requires k < |resolutions| && IndexedBy(resolutions[..k], found) && resolutions[k].index !in found
    requires IndicesDistinct(resolutions[..k])
    ensures IndexedBy(resolutions[..k + 1], found[resolutions[k].index := resolutions[k]])
    ensures IndicesDistinct(resolutions[..k + 1])
  {
    assert resolutions[..k + 1] == resolutions[..k] + [resolutions[k]];
    assert forall j :: 0 <= j < k ==> resolutions[..k][j].index in found;
  }

  /** What the index says about a row is what its only resolution says. */
  lemma IndexDecides(resolutions: seq<Resolution>, byIndex: map<nat, Resolution>, local: seq<ConnectionGroup>,
                     count: nat, i: nat)
    requires IndexedBy(resolutions, byIndex)
    ensures ResolvedAt(resolutions, local, count, i) <==> i in byIndex && Admissible(byIndex[i], local, count)
  {
    hide Admissible;
    if i in byIndex {
      assert byIndex[i] in resolutions;
      var k :| 0 <= k < |resolutions| && resolutions[k] == byIndex[i];
    }
  }

  lemma NotResolvable(local: seq<ConnectionGroup>, count: nat, resolutions: seq<Resolution>, i: nat)
    requires i < count && !ResolvedAt(resolutions, local, count, i)
    ensures !Resolvable(local, count, resolutions)
  {
  }

  lemma NoneFollow(byIndex: map<nat, Resolution>, local: seq<ConnectionGroup>, fresh_: seq<Id>)
    ensures FollowsAll(byIndex, local, fresh_, Assignment([], [], []))
  {
  }

  /** The branch of `plan` for confirmed mappings. */
  method AssignExplicitly(local: seq<ConnectionGroup>, rows: seq<LegacyRow>, resolutions: seq<Resolution>,
                          fresh_: seq<Id>)
    returns (r: Result<Assignment, LegacyIssue>)
    requires |fresh_| == |rows|
    ensures r.Ok? <==> Resolvable(local, |rows|, resolutions)
    ensures r.Ok? ==> r.value.For(rows) && Resolved(resolutions, local, fresh_, r.value)
    ensures r.Err? ==> r.error in {MappingIncomplete, MappingRepeated, MappingMissing, ParentUnknown, TargetGone}
  {
    hide IndexedBy, FollowsAll, Text.Trim, ResolvedAt, IndicesDistinct, HasId;
    if |resolutions| != |rows| {
      return Err(MappingIncomplete);
    }
    var indexed := IndexResolutions(resolutions);
    if indexed.None? {
      return Err(MappingRepeated);
    }
    var byIndex := indexed.value;
    var a := Assignment([], [], []);
    NoneFollow(byIndex, local, fresh_);
    for i := 0 to |rows|
      invariant |a.names| == |a.parents| == |a.targets| == i
      invariant FollowsAll(byIndex, local, fresh_, a) && InRangeOf(a.parents, |rows|)
      invariant forall j :: 0 <= j < i ==> ResolvedAt(resolutions, local, |rows|, j)
    {
      IndexDecides(resolutions, byIndex, local, |rows|, i);
      if i !in byIndex {
        NotResolvable(local, |rows|, resolutions, i);
        return Err(MappingMissing);
      }
      var resolution := byIndex[i];
      if resolution.parentIndex.Some? && resolution.parentIndex.value >= |rows| {
        NotResolvable(local, |rows|, resolutions, i);
        return Err(ParentUnknown);
      }
      if resolution.targetId.Some? {
        var known := IndexOfId(local, resolution.targetId.value);
        if known.None? {
          NotResolvable(local, |rows|, resolutions, i);
          return Err(TargetGone);
        }
        IsThere(local, resolution.targetId.value, known.value);
      }
      var name := Text.Trim(resolution.name);
      var target := if resolution.targetId.Some? then resolution.targetId.value else fresh_[i];
      OneMoreFollows(byIndex, local, fresh_, a, name, resolution.parentIndex, target);
      a := Assignment(a.names + [name], a.parents + [resolution.parentIndex], a.targets + [target]);
    }
    r := Ok(a);
  }

  lemma IsThere(groups: seq<ConnectionGroup>, id: Id, at: nat)
    requires at < |groups| && groups[at].id == id
    ensures HasId(groups, id)
  {
  }

  /** Resolutions leave no choice. */
  lemma ResolvedOnce(resolutions: seq<Resolution>, local: seq<ConnectionGroup>, fresh_: seq<Id>, a: Assignment,
                     b: Assignment)
    requires Resolved(resolutions, local, fresh_, a) && Resolved(resolutions, local, fresh_, b)
    ensures a == b
  {
    hide Text.Trim, HasId;
    var first :| IndexedBy(resolutions, first) && FollowsAll(first, local, fresh_, a);
    var second :| IndexedBy(resolutions, second) && FollowsAll(second, local, fresh_, b);
    forall i | 0 <= i < |a.names|
      ensures a.names[i] == b.names[i] && a.parents[i] == b.parents[i] && a.targets[i] == b.targets[i]
    {
      assert Follows(first[i], local, fresh_[i], a.names[i], a.parents[i], a.targets[i]);
      assert Follows(second[i], local, fresh_[i], b.names[i], b.parents[i], b.targets[i]);
      assert first[i] in resolutions;
      var k :| 0 <= k < |resolutions| && resolutions[k] == first[i];
      assert second[resolutions[k].index] == resolutions[k];
    }
  }

  // ---- automatic matching ----

  /** The local group with the row's id, if any, is the only one with its name. */
  ghost predicate Matchable(local: seq<ConnectionGroup>, id: Id, name: string) {
    && (forall k :: 0 <= k < |local| && local[k].id == id ==> local[k].name == name)
    && (forall j, k :: 0 <= j < k < |local| && local[j].name == name ==> local[k].name != name)
  }

  /** The target: the local group with that name, or a new one when neither name nor id is known. */
  ghost predicate Matched(local: seq<ConnectionGroup>, id: Id, name: string, fresh_: Id, target: Id) {
    if exists k :: 0 <= k < |local| && local[k].name == name
    then exists k :: 0 <= k < |local| && local[k].name == name && local[k].id == target
    else target == fresh_ && !HasId(local, id)
  }

  ghost predicate ParentFound(rows: seq<LegacyRow>, parentId: Option<Id>, parent: Option<Index>) {
    match parent
    case Some(p) => p < |rows| && parentId == Some(rows[p].id)
    case None => parentId.None? || parentId.value == "" || forall k :: 0 <= k < |rows| ==> rows[k].id != parentId.value
  }

  ghost predicate Distinct(s: seq<string>) {
    forall i, j :: 0 <= i < j < |s| ==> s[i] != s[j]
  }

  function TrimmedNames(rows: seq<LegacyRow>): seq<string> {
    seq(|rows|, i requires 0 <= i < |rows| => Text.Trim(rows[i].name))
  }

  ghost predicate RowsDistinct(rows: seq<LegacyRow>) {
    && Distinct(TrimmedNames(rows))
    && (forall i, j :: 0 <= i < j < |rows| ==> rows[i].id != rows[j].id)
    && (forall i :: 0 <= i < |rows| ==> rows[i].id != "")
  }

  ghost predicate RowMatched(local: seq<ConnectionGroup>, rows: seq<LegacyRow>, row: LegacyRow, name: string,
                             fresh_: Id, parent: Option<Index>, target: Id) {
    && ParentFound(rows, row.parentId, parent)
    && Matchable(local, row.id, name)
    && Matched(local, row.id, name, fresh_, target)
  }

  /** What the automatic branch of `plan` promises before it breaks cycles. */
  ghost predicate AutomaticallyMatched(local: seq<ConnectionGroup>, rows: seq<LegacyRow>, fresh_: seq<Id>,
                                       a: Assignment)
  {
    && |fresh_| == |rows| && a.For(rows)
    && RowsDistinct(rows) && a.names == TrimmedNames(rows)
    && MatchedUpTo(local, rows, fresh_, a, |rows|)
  }

  ghost predicate MatchedUpTo(local: seq<ConnectionGroup>, rows: seq<LegacyRow>, fresh_: seq<Id>, a: Assignment, n: nat)
    requires n <= |rows| == |fresh_| == |a.names| && n <= |a.parents| && n <= |a.targets|
  {
    forall i :: 0 <= i < n ==> RowMatched(local, rows, rows[i], a.names[i], fresh_[i], a.parents[i], a.targets[i])
  }

  lemma OneMoreMatched(local: seq<ConnectionGroup>, rows: seq<LegacyRow>, fresh_: seq<Id>, a: Assignment,
                       parent: Option<Index>, target: Id)
    requires |a.parents| == |a.targets| < |rows| == |fresh_| == |a.names|
    requires MatchedUpTo(local, rows, fresh_, a, |a.parents|)
    requires var i := |a.parents|; RowMatched(local, rows, rows[i], a.names[i], fresh_[i], parent, target)
    ensures var next := Assignment(a.names, a.parents + [parent], a.targets + [target]);
            MatchedUpTo(local, rows, fresh_, next, |a.parents| + 1)
  {
    hide RowMatched;
  }

  /** Ids and trimmed names are unique, and no row has several matches. */
  ghost predicate Unambiguous(local: seq<ConnectionGroup>, rows: seq<LegacyRow>) {
    RowsDistinct(rows) && forall i :: 0 <= i < |rows| ==> Matchable(local, rows[i].id, TrimmedNames(rows)[i])
  }

  lemma SharedId(rows: seq<LegacyRow>, j: nat, i: nat)
    requires j < i < |rows| && rows[j].id == rows[i].id
    ensures !RowsDistinct(rows)
  {
  }

  lemma SharedName(rows: seq<LegacyRow>, j: nat, i: nat)
    requires j < i < |rows| && TrimmedNames(rows)[j] == TrimmedNames(rows)[i]
    ensures !RowsDistinct(rows)
  {
  }

  lemma DistinctSoFar(rows: seq<LegacyRow>)
    requires forall i :: 0 <= i < |rows| ==> rows[i].id != ""
    requires forall i, j :: 0 <= i < j < |rows| ==> rows[i].id != rows[j].id
    requires forall i, j :: 0 <= i < j < |rows| ==> TrimmedNames(rows)[i] != TrimmedNames(rows)[j]
    ensures RowsDistinct(rows)
  {
  }

  /** The ids of the rows seen so far. */
  ghost predicate IndexesRows(rows: seq<LegacyRow>, n: nat, found: map<Id, Index>)
    requires n <= |rows|
  {
    && (forall id :: id in found ==> found[id] < n && rows[found[id]].id == id)
    && (forall k :: 0 <= k < n ==> rows[k].id in found && found[rows[k].id] == k && rows[k].id != "")
  }

  /** The names of the rows seen so far. */
  ghost predicate NamesSeen(names: seq<string>, n: nat, unique: set<string>)
    requires n <= |names|
  {
    && (forall name :: name in unique ==> exists k :: 0 <= k < n && names[k] == name)
    && (forall k :: 0 <= k < n ==> names[k] in unique)
    && (forall j, k :: 0 <= j < k < n ==> names[j] != names[k])
  }

  lemma OneMoreName(names: seq<string>, n: nat, unique: set<string>)
    requires n < |names| && NamesSeen(names, n, unique) && names[n] !in unique
    ensures NamesSeen(names, n + 1, unique + {names[n]})
  {
  }

  lemma NameSeen(names: seq<string>, n: nat, unique: set<string>) returns (k: nat)
    requires n < |names| && NamesSeen(names, n, unique) && names[n] in unique
    ensures k < n && names[k] == names[n]
  {
    k :| 0 <= k < n && names[k] == names[n];
  }

  lemma OneMoreId(rows: seq<LegacyRow>, n: nat, found: map<Id, Index>)
    requires n < |rows| && IndexesRows(rows, n, found) && rows[n].id != "" && rows[n].id !in found
    ensures IndexesRows(rows, n + 1, found[rows[n].id := n])
  {
  }

  lemma IdSeen(rows: seq<LegacyRow>, n: nat, found: map<Id, Index>)
    requires n < |rows| && IndexesRows(rows, n, found) && rows[n].id in found
    ensures found[rows[n].id] < n && rows[found[rows[n].id]].id == rows[n].id
  {
  }

  lemma AllDistinct(rows: seq<LegacyRow>, found: map<Id, Index>, unique: set<string>)
    requires IndexesRows(rows, |rows|, found) && |TrimmedNames(rows)| == |rows|
    requires NamesSeen(TrimmedNames(rows), |rows|, unique)
    ensures RowsDistinct(rows)
  {
    hide TrimmedNames;
    assert forall i, j :: 0 <= i < j < |rows| ==> found[rows[i].id] != found[rows[j].id];
    DistinctSoFar(rows);
  }

  lemma StartIndexing(rows: seq<LegacyRow>)
    ensures |TrimmedNames(rows)| == |rows|
    ensures IndexesRows(rows, 0, map[]) && NamesSeen(TrimmedNames(rows), 0, {})
  {
  }

  /** The first loop: ids and trimmed names must be unique. */
  method IndexRows(rows: seq<LegacyRow>) returns (ids: Option<map<Id, Index>>)
    ensures ids.Some? <==> RowsDistinct(rows)
    ensures ids.Some? ==> IndexesRows(rows, |rows|, ids.value)
  {
    hide TrimmedNames, RowsDistinct, IndexesRows, NamesSeen;
    StartIndexing(rows);
    var names := TrimmedNames(rows);
    var found: map<Id, Index> := map[];
    var unique: set<string> := {};
    for i := 0 to |rows|
      invariant IndexesRows(rows, i, found) && NamesSeen(names, i, unique)
    {
      if rows[i].id == "" {
        BlankId(rows, i);
        return None;
      }
      if rows[i].id in found {
        IdSeen(rows, i, found);
        SharedId(rows, found[rows[i].id], i);
        return None;
      }
      if names[i] in unique {
        ghost var k := NameSeen(names, i, unique);
        SharedName(rows, k, i);
        return None;
      }
      OneMoreId(rows, i, found);
      OneMoreName(names, i, unique);
      found := found[rows[i].id := i];
      unique := unique + {names[i]};
    }
    AllDistinct(rows, found, unique);
    ids := Some(found);
  }

  lemma BlankId(rows: seq<LegacyRow>, i: nat)
    requires i < |rows| && rows[i].id == ""
    ensures !RowsDistinct(rows)
  {
  }

  /** The parent row of a row. */
  method FindParent(rows: seq<LegacyRow>, ids: map<Id, Index>, parentId: Option<Id>) returns (parent: Option<Index>)
    requires IndexesRows(rows, |rows|, ids)
    ensures ParentFound(rows, parentId, parent) && (parent.Some? ==> parent.value < |rows|)
  {
    if parentId.Some? && parentId.value != "" && parentId.value in ids {
      return Some(ids[parentId.value]);
    }
    parent := None;
  }

  /** The target of one row, as the second loop finds it. */
  method MatchRow(local: seq<ConnectionGroup>, id: Id, name: string, fresh_: Id) returns (target: Option<Id>)
    requires DistinctIds(local)
    ensures target.Some? <==> Matchable(local, id, name)
    ensures target.Some? ==> Matched(local, id, name, fresh_, target.value)
  {
    var byId := IndexOfId(local, id);
    var byName: Option<nat> := None;
    var several := false;
    for k := 0 to |local|
      invariant byName.Some? ==> byName.value < k && local[byName.value].name == name
      invariant byName.None? ==> !several && forall j :: 0 <= j < k ==> local[j].name != name
      invariant several <==> exists i, j :: 0 <= i < j < k && local[i].name == name && local[j].name == name
    {
      if local[k].name == name {
        if byName.None? {
          byName := Some(k);
        } else {
          assert local[byName.value].name == name && local[k].name == name;
          several := true;
        }
      }
    }
    if byId.Some? && local[byId.value].name != name {
      return None;
    }
    if several {
      return None;
    }
    if byId.Some? && byName.Some? && local[byName.value].id != local[byId.value].id {
      return None;
    }
    if byId.Some? {
      return Some(local[byId.value].id);
    }
    target := if byName.Some? then Some(local[byName.value].id) else Some(fresh_);
  }

  predicate InRangeOf(parents: seq<Option<Index>>, n: nat) {
    forall i :: 0 <= i < |parents| && parents[i].Some? ==> parents[i].value < n
  }

  /** The branch of `plan` that looks for matches, up to the breaking of cycles. */
  method MatchAutomatically(local: seq<ConnectionGroup>, rows: seq<LegacyRow>, fresh_: seq<Id>)
    returns (r: Result<Assignment, LegacyIssue>)
    requires |fresh_| == |rows| && DistinctIds(local)
    ensures r.Ok? ==> AutomaticallyMatched(local, rows, fresh_, r.value)
    ensures r.Ok? <==> Unambiguous(local, rows)
    ensures r.Err? ==> r.error in {AmbiguousRows, AmbiguousTarget}
  {
    var a := Assignment(TrimmedNames(rows), [], []);
    assert |a.names| == |rows|;
    hide RowsDistinct, Matchable, Matched, ParentFound, IndexesRows, TrimmedNames, MatchedUpTo, RowMatched, Unambiguous;
    var ids := IndexRows(rows);
    if ids.None? {
      AmbiguousAsAWhole(local, rows);
      return Err(AmbiguousRows);
    }
    StartMatching(local, rows, fresh_, a);
    for i := 0 to |rows|
      invariant |a.parents| == |a.targets| == i && a.names == TrimmedNames(rows) && |a.names| == |rows|
      invariant MatchedUpTo(local, rows, fresh_, a, i)
      invariant InRangeOf(a.parents, |rows|)
    {
      var parent := FindParent(rows, ids.value, rows[i].parentId);
      var target := MatchRow(local, rows[i].id, a.names[i], fresh_[i]);
      if target.None? {
        AmbiguousAt(local, rows, i);
        return Err(AmbiguousTarget);
      }
      RowIsMatched(local, rows, rows[i], a.names[i], fresh_[i], parent, target.value);
      OneMoreMatched(local, rows, fresh_, a, parent, target.value);
      a := Assignment(a.names, a.parents + [parent], a.targets + [target.value]);
    }
    AllUnambiguous(local, rows, fresh_, a);
    r := Ok(a);
  }

  lemma StartMatching(local: seq<ConnectionGroup>, rows: seq<LegacyRow>, fresh_: seq<Id>, a: Assignment)
    requires |rows| == |fresh_| == |a.names|
    ensures MatchedUpTo(local, rows, fresh_, a, 0)
  {
  }

  lemma RowIsMatched(local: seq<ConnectionGroup>, rows: seq<LegacyRow>, row: LegacyRow, name: string,
                     fresh_: Id, parent: Option<Index>, target: Id)
    requires ParentFound(rows, row.parentId, parent)
    requires Matchable(local, row.id, name) && Matched(local, row.id, name, fresh_, target)
    ensures RowMatched(local, rows, row, name, fresh_, parent, target)
  {
  }

  lemma AmbiguousAsAWhole(local: seq<ConnectionGroup>, rows: seq<LegacyRow>)
    requires !RowsDistinct(rows)
    ensures !Unambiguous(local, rows)
  {
  }

  lemma AmbiguousAt(local: seq<ConnectionGroup>, rows: seq<LegacyRow>, i: nat)
    requires i < |rows| == |TrimmedNames(rows)| && !Matchable(local, rows[i].id, TrimmedNames(rows)[i])
    ensures !Unambiguous(local, rows)
  {
    hide Matchable, RowsDistinct;
  }

  lemma AllUnambiguous(local: seq<ConnectionGroup>, rows: seq<LegacyRow>, fresh_: seq<Id>, a: Assignment)
    requires |rows| == |fresh_| == |a.names| == |a.parents| == |a.targets|
    requires RowsDistinct(rows) && a.names == TrimmedNames(rows) && MatchedUpTo(local, rows, fresh_, a, |rows|)
    ensures Unambiguous(local, rows)
  {
    hide Matchable, RowsDistinct, Matched, ParentFound;
    forall i | 0 <= i < |rows| ensures Matchable(local, rows[i].id, TrimmedNames(rows)[i]) {
      assert RowMatched(local, rows, rows[i], a.names[i], fresh_[i], a.parents[i], a.targets[i]);
    }
  }

  /** After unambiguous matching two rows never share a target: the check that follows cannot fail. */
  lemma TargetsAreDistinct(local: seq<ConnectionGroup>, rows: seq<LegacyRow>, fresh_: seq<Id>, a: Assignment)
    requires DistinctIds(local) && FreshIds(fresh_, local, rows) && AutomaticallyMatched(local, rows, fresh_, a)
    ensures Distinct(a.targets)
  {
    hide RowsDistinct, Matchable, ParentFound, Matched;
    assert Distinct(a.names) by { NamesDistinct(rows); }
    forall i, j | 0 <= i < j < |a.targets| ensures a.targets[i] != a.targets[j] {
      assert a.names[i] != a.names[j];
      assert RowMatched(local, rows, rows[i], a.names[i], fresh_[i], a.parents[i], a.targets[i]);
      assert RowMatched(local, rows, rows[j], a.names[j], fresh_[j], a.parents[j], a.targets[j]);
      TargetIsNamed(local, rows[i].id, a.names[i], fresh_[i], a.targets[i]);
      TargetIsNamed(local, rows[j].id, a.names[j], fresh_[j], a.targets[j]);
    }
  }

  lemma NamesDistinct(rows: seq<LegacyRow>)
    requires RowsDistinct(rows)
    ensures Distinct(TrimmedNames(rows))
  {
  }

  /** A target that is a local group has the row's name; any other target is the row's fresh id. */
  lemma TargetIsNamed(local: seq<ConnectionGroup>, id: Id, name: string, fresh_: Id, target: Id)
    requires DistinctIds(local) && Matched(local, id, name, fresh_, target) && !HasId(local, fresh_)
    ensures forall k :: 0 <= k < |local| && local[k].id == target ==> local[k].name == name
    ensures !HasId(local, target) ==> target == fresh_ && forall k :: 0 <= k < |local| ==> local[k].name != name
  {
  }

  /** Matching leaves no choice either: names, parent rows and targets follow from the rows. */
  lemma MatchedOnce(local: seq<ConnectionGroup>, rows: seq<LegacyRow>, fresh_: seq<Id>, a: Assignment, b: Assignment)
    requires DistinctIds(local)
    requires AutomaticallyMatched(local, rows, fresh_, a) && AutomaticallyMatched(local, rows, fresh_, b)
    ensures a == b
  {
    hide Matchable, Matched, ParentFound, TrimmedNames;
    forall i | 0 <= i < |rows| ensures a.parents[i] == b.parents[i] && a.targets[i] == b.targets[i] {
      assert RowMatched(local, rows, rows[i], a.names[i], fresh_[i], a.parents[i], a.targets[i]);
      assert RowMatched(local, rows, rows[i], b.names[i], fresh_[i], b.parents[i], b.targets[i]);
      ParentOnce(rows, rows[i].parentId, a.parents[i], b.parents[i]);
      TargetOnce(local, rows[i].id, a.names[i], fresh_[i], a.targets[i], b.targets[i]);
    }
  }

  lemma ParentOnce(rows: seq<LegacyRow>, parentId: Option<Id>, first: Option<Index>, second: Option<Index>)
    requires RowsDistinct(rows) && ParentFound(rows, parentId, first) && ParentFound(rows, parentId, second)
    ensures first == second
  {
    hide TrimmedNames;
  }

  lemma TargetOnce(local: seq<ConnectionGroup>, id: Id, name: string, fresh_: Id, first: Id, second: Id)
    requires Matchable(local, id, name)
    requires Matched(local, id, name, fresh_, first) && Matched(local, id, name, fresh_, second)
    ensures first == second
  {
    if exists k :: 0 <= k < |local| && local[k].name == name {
      var j :| 0 <= j < |local| && local[j].name == name && local[j].id == first;
      var k :| 0 <= k < |local| && local[k].name == name && local[k].id == second;
      assert j == k;
    }
  }
}
