/** The crontab document: foreign lines kept as they are, managed tasks as blocks between markers. */
module Crontab {
  import opened Common
  import opened Text
  import opened CrontabRecord

  datatype Segment = Raw(lines: seq<string>) | Task(record: Record)

  /** A document without the grouping of adjacent foreign lines. */
  datatype Item = Line(text: string) | Managed(record: Record)

  function AsItems(lines: seq<string>): seq<Item> {
    seq(|lines|, i requires 0 <= i < |lines| => Line(lines[i]))
  }

  function Items(segments: seq<Segment>): seq<Item> {
    if segments == [] then []
    else
      (match segments[0]
       case Raw(lines) => AsItems(lines)
       case Task(record) => [Managed(record)]) + Items(segments[1..])
  }

  // ---- reading ----

  /** The state of the reading loop: finished segments and the foreign lines not yet put into one. */
  datatype Reading = Reading(segments: seq<Segment>, raw: seq<string>) {
    function Flush(): seq<Segment> {
      if raw == [] then segments else segments + [Raw(raw)]
    }
  }

  function Fold(items: seq<Item>): Reading {
    if items == [] then Reading([], [])
    else
      var before := Fold(items[..|items| - 1]);
      match items[|items| - 1]
      case Line(text) => before.(raw := before.raw + [text])
      case Managed(record) => Reading(before.Flush() + [Task(record)], [])
  }

  /** The document with the given items and no two adjacent foreign segments. */
  function Group(items: seq<Item>): seq<Segment> {
    Fold(items).Flush()
  }

  /** The position of the first closing marker. */
  function FindEnd(lines: seq<string>): (r: Option<nat>)
    ensures r.Some? ==> r.value < |lines|
  {
    if lines == [] then None
    else if Trim(lines[0]) == CRONTAB_END then Some(0)
    else
      var rest := FindEnd(lines[1..]);
      if rest.None? then None else Some(rest.value + 1)
  }

  function ReadItems(enc: Encoding, lines: seq<string>): Result<seq<Item>, CrontabError>
    decreases |lines|
  {
    if lines == [] then Ok([])
    else if Trim(lines[0]) != CRONTAB_BEGIN then
      var rest :- ReadItems(enc, lines[1..]);
      Ok([Line(lines[0])] + rest)
    else
      var end := FindEnd(lines[1..]);
      if end.None? then Err(InvalidBlock)
      else
        var record :- ReadBody(enc, lines[1..end.value + 1]);
        var rest :- ReadItems(enc, lines[end.value + 2..]);
        Ok([Managed(record)] + rest)
  }

  /** `text.lines()` with every trailing carriage return removed. */
  function TextLines(text: string): seq<string> {
    var lines := Lines(text);
    seq(|lines|, i requires 0 <= i < |lines| => TrimCr(lines[i]))
  }

  /** What `parse_crontab` is to return. */
  function Parsed(enc: Encoding, text: string): Result<seq<Segment>, CrontabError> {
    var items :- ReadItems(enc, TextLines(text));
    Ok(Group(items))
  }

  function Prepend(items: seq<Item>, rest: Result<seq<Item>, CrontabError>): Result<seq<Item>, CrontabError> {
    if rest.Err? then rest else Ok(items + rest.value)
  }

  lemma FoldStep(items: seq<Item>, item: Item)
    ensures Fold(items + [item]) ==
            match item
            case Line(text) => Fold(items).(raw := Fold(items).raw + [text])
            case Managed(record) => Reading(Fold(items).Flush() + [Task(record)], [])
  {
    assert (items + [item])[..|items|] == items;
  }

  lemma ReadForeign(enc: Encoding, items: seq<Item>, lines: seq<string>)
    requires lines != [] && Trim(lines[0]) != CRONTAB_BEGIN
    ensures Prepend(items, ReadItems(enc, lines)) == Prepend(items + [Line(lines[0])], ReadItems(enc, lines[1..]))
  {
    hide Trim, ReadBody, FindEnd;
    var rest := ReadItems(enc, lines[1..]);
    if rest.Ok? {
      assert items + ([Line(lines[0])] + rest.value) == items + [Line(lines[0])] + rest.value;
    }
  }

  lemma ReadManaged(enc: Encoding, items: seq<Item>, lines: seq<string>, end: nat, record: Record)
    requires lines != [] && Trim(lines[0]) == CRONTAB_BEGIN && FindEnd(lines[1..]) == Some(end)
    requires ReadBody(enc, lines[1..end + 1]) == Ok(record)
    ensures Prepend(items, ReadItems(enc, lines))
         == Prepend(items + [Managed(record)], ReadItems(enc, lines[end + 2..]))
  {
    hide ReadBody, Trim;
    var rest := ReadItems(enc, lines[end + 2..]);
    if rest.Ok? {
      assert items + ([Managed(record)] + rest.value) == items + [Managed(record)] + rest.value;
    }
  }

  /** The inner loop of `parse_crontab`: the lines up to and including the closing marker. */
  method CollectBlock(lines: seq<string>, from: nat) returns (block: seq<string>, closed: bool)
    requires from < |lines|
    ensures closed == FindEnd(lines[from + 1..]).Some?
    ensures closed ==> block == lines[from..from + FindEnd(lines[from + 1..]).value + 2]
  {
    hide Trim, FindEnd;
    block, closed := [lines[from]], false;
    ghost var found := FindEnd(lines[from + 1..]);
    var i := from + 1;
    while i < |lines| && !closed
      invariant from + 1 <= i <= |lines|
      invariant block == lines[from..i]
      invariant closed ==> i >= from + 2 && found == Some((i - from - 2) as nat)
      invariant !closed ==> found == Shift(i - from - 1, FindEnd(lines[i..]))
      decreases |lines| - i, !closed
    {
      FindEndStep(lines, i);
      closed := Trim(lines[i]) == CRONTAB_END;
      block := block + [lines[i]];
      i := i + 1;
    }
    NoEnd(lines[i..]);
  }

  lemma FindEndStep(lines: seq<string>, i: nat)
    requires i < |lines|
    ensures FindEnd(lines[i..]) == if Trim(lines[i]) == CRONTAB_END then Some(0) else Shift(1, FindEnd(lines[i + 1..]))
  {
    hide Trim;
    assert lines[i..][1..] == lines[i + 1..];
  }

  lemma NoEnd(lines: seq<string>)
    ensures lines == [] ==> FindEnd(lines).None?
  {
  }

  function Shift(n: nat, at: Option<nat>): Option<nat> {
    if at.None? then None else Some(n + at.value)
  }

  /** `parse_crontab`. */
  method ParseCrontab(enc: Encoding, text: string) returns (r: Result<seq<Segment>, CrontabError>)
    ensures r == Parsed(enc, text)
  {
    hide Trim, TrimCr, FindEnd, ReadBody, Lines, Fold, ReadItems;
    var lines := TextLines(text);
    var state := Reading([], []);
    ghost var done: seq<Item> := [];
    assert lines[0..] == lines;
    Started(enc, lines);
    var i := 0;
    while i < |lines|
      invariant 0 <= i <= |lines|
      invariant state == Fold(done)
      invariant ReadItems(enc, lines) == Prepend(done, ReadItems(enc, lines[i..]))
      decreases |lines| - i
    {
      assert lines[i..][1..] == lines[i + 1..];
      if Trim(lines[i]) != CRONTAB_BEGIN {
        ReadForeign(enc, done, lines[i..]);
        FoldStep(done, Line(lines[i]));
        state := state.(raw := state.raw + [lines[i]]);
        done := done + [Line(lines[i])];
        i := i + 1;
      } else {
        var block, closed := CollectBlock(lines, i);
        if !closed {
          Unclosed(enc, lines[i..]);
          return Err(InvalidBlock);
        }
        ghost var end := FindEndIn(lines[i + 1..]);
        BlockInside(lines, i, end);
        var record := ParseTaskBlock(enc, block);
        if record.Err? {
          BadBlock(enc, lines[i..], end);
          return Err(record.error);
        }
        ReadManaged(enc, done, lines[i..], end, record.value);
        FoldStep(done, Managed(record.value));
        assert lines[i..][end + 2..] == lines[i + |block|..];
        state := Reading(state.Flush() + [Task(record.value)], []);
        done := done + [Managed(record.value)];
        i := i + |block|;
      }
    }
    Finished(enc, lines[i..], done);
    r := Ok(state.Flush());
  }

  lemma SliceOfSlice<T>(s: seq<T>, a: nat, b: nat, c: nat, d: nat)
    requires a <= b <= |s| && c <= d <= b - a
    ensures s[a..b][c..d] == s[a + c..a + d]
  {
    var outer := s[a..b];
    assert forall k :: 0 <= k < b - a ==> outer[k] == s[a + k];
    var left, right := outer[c..d], s[a + c..a + d];
    assert |left| == |right|;
    assert forall k :: 0 <= k < d - c ==> left[k] == outer[c + k];
    assert forall k :: 0 <= k < d - c ==> right[k] == s[a + c + k];
    assert forall k :: 0 <= k < d - c ==> left[k] == right[k];
  }

  lemma BlockInside(lines: seq<string>, from: nat, end: nat)
    requires from + end + 2 <= |lines|
    ensures var block := lines[from..from + end + 2];
            lines[from..][1..end + 1] == block[1..|block| - 1] && lines[from..][end + 2..] == lines[from + |block|..]
            && lines[from..][1..] == lines[from + 1..]
  {
    var block := lines[from..from + end + 2];
    var middle := lines[from + 1..from + end + 1];
    assert lines[from..][1..end + 1] == middle;
    SliceOfSlice(lines, from, from + end + 2, 1, end + 1);
  }

  function FindEndIn(lines: seq<string>): (r: nat)
    requires FindEnd(lines).Some?
    ensures FindEnd(lines) == Some(r) && r < |lines|
  {
    FindEnd(lines).value
  }

  lemma Started(enc: Encoding, lines: seq<string>)
    ensures Fold([]) == Reading([], [])
    ensures ReadItems(enc, lines) == Prepend([], ReadItems(enc, lines))
  {
    var all := ReadItems(enc, lines);
    if all.Ok? {
      assert [] + all.value == all.value;
    }
  }

  lemma Finished(enc: Encoding, lines: seq<string>, done: seq<Item>)
    requires lines == []
    ensures Prepend(done, ReadItems(enc, lines)) == Ok(done)
  {
    assert done + [] == done;
  }

  lemma Unclosed(enc: Encoding, lines: seq<string>)
    requires lines != [] && Trim(lines[0]) == CRONTAB_BEGIN && FindEnd(lines[1..]).None?
    ensures ReadItems(enc, lines) == Err(InvalidBlock)
  {
  }

  lemma BadBlock(enc: Encoding, lines: seq<string>, end: nat)
    requires lines != [] && Trim(lines[0]) == CRONTAB_BEGIN && FindEnd(lines[1..]) == Some(end)
    requires ReadBody(enc, lines[1..end + 1]).Err?
    ensures ReadItems(enc, lines) == Err(ReadBody(enc, lines[1..end + 1]).error)
  {
    hide ReadBody, Trim;
  }

  // ---- writing ----

  function ItemLines(enc: Encoding, item: Item): seq<string> {
    match item
    case Line(text) => [text]
    case Managed(record) => Block(enc, record)
  }

  function RenderItems(enc: Encoding, items: seq<Item>): seq<string> {
    if items == [] then [] else ItemLines(enc, items[0]) + RenderItems(enc, items[1..])
  }

  predicate Blank(line: string) {
    Trim(line) == ""
  }

  function DropBlank(lines: seq<string>): seq<string> {
    if lines != [] && Blank(lines[0]) then DropBlank(lines[1..]) else lines
  }

  function ChopBlank(lines: seq<string>): seq<string> {
    if lines != [] && Blank(lines[|lines| - 1]) then ChopBlank(lines[..|lines| - 1]) else lines
  }

  function TrimBlank(lines: seq<string>): seq<string> {
    ChopBlank(DropBlank(lines))
  }

  /** `trim_outer_blank_lines`. */
  method TrimOuterBlankLines(lines: seq<string>) returns (r: seq<string>)
    ensures r == TrimBlank(lines)
  {
    hide Blank;
    r := lines;
    while r != [] && Blank(r[0])
      invariant DropBlank(r) == DropBlank(lines)
      decreases |r|
    {
      r := r[1..];
    }
    ghost var dropped := r;
    while r != [] && Blank(r[|r| - 1])
      invariant ChopBlank(r) == ChopBlank(dropped)
      decreases |r|
    {
      r := r[..|r| - 1];
    }
  }

  /** The text of a list of lines. */
  function Written(lines: seq<string>): string {
    if lines == [] then "" else Join(lines, "\n") + "\n"
  }

  /** What `render` is to return. */
  function Rendered(enc: Encoding, segments: seq<Segment>): string {
    Written(TrimBlank(RenderItems(enc, Items(segments))))
  }

  lemma {:induction false} RenderConcat(enc: Encoding, a: seq<Item>, b: seq<Item>)
    ensures RenderItems(enc, a + b) == RenderItems(enc, a) + RenderItems(enc, b)
    decreases |a|
  {
    hide ItemLines;
    if a == [] {
      assert a + b == b;
    } else {
      assert (a + b)[1..] == a[1..] + b;
      RenderConcat(enc, a[1..], b);
    }
  }

  lemma {:induction false} RenderForeign(enc: Encoding, lines: seq<string>)
    ensures RenderItems(enc, AsItems(lines)) == lines
  {
    if lines != [] {
      assert AsItems(lines)[1..] == AsItems(lines[1..]);
      RenderForeign(enc, lines[1..]);
      assert lines == [lines[0]] + lines[1..];
    }
  }

  lemma {:induction false} ItemsConcat(a: seq<Segment>, b: seq<Segment>)
    ensures Items(a + b) == Items(a) + Items(b)
    decreases |a|
  {
    if a == [] {
      assert a + b == b;
    } else {
      assert (a + b)[1..] == a[1..] + b;
      ItemsConcat(a[1..], b);
    }
  }

  lemma ItemsOne(segment: Segment)
    ensures Items([segment]) == if segment.Raw? then AsItems(segment.lines) else [Managed(segment.record)]
  {
    assert [segment][1..] == [];
  }

  /** The lines a segment adds to those of the segments before it. */
  lemma RenderStep(enc: Encoding, before: seq<Segment>, segment: Segment)
    ensures RenderItems(enc, Items(before + [segment]))
         == RenderItems(enc, Items(before)) + (if segment.Raw? then segment.lines else Block(enc, segment.record))
  {
    hide Block, RenderItems;
    ItemsConcat(before, [segment]);
    ItemsOne(segment);
    RenderConcat(enc, Items(before), Items([segment]));
    if segment.Raw? {
      RenderForeign(enc, segment.lines);
    } else {
      RenderOneTask(enc, segment.record);
    }
  }

  lemma RenderOneTask(enc: Encoding, record: Record)
    ensures RenderItems(enc, [Managed(record)]) == Block(enc, record)
  {
    hide Block;
    var one := [Managed(record)];
    assert one[1..] == [];
    assert RenderItems(enc, one[1..]) == [];
  }

  // ---- the document ----

  /** The first task with an id, as `find_task` and `find_task_mut` look for it. */
  function FindTask(segments: seq<Segment>, id: string): (r: Option<nat>)
    ensures r.Some? ==> r.value < |segments| && segments[r.value].Task? && segments[r.value].record.id == id
    ensures forall i :: 0 <= i < (if r.Some? then r.value else |segments|) ==>
              segments[i].Task? ==> segments[i].record.id != id
  {
    if segments == [] then None
    else if segments[0].Task? && segments[0].record.id == id then Some(0)
    else
      var rest := FindTask(segments[1..], id);
      if rest.None? then None else Some(rest.value + 1)
  }

  function Upserted(segments: seq<Segment>, record: Record): seq<Segment> {
    var at := FindTask(segments, record.id);
    if at.Some? then segments[at.value := Task(record)] else segments + [Task(record)]
  }

  function Removed(segments: seq<Segment>, id: string): seq<Segment> {
    if segments == [] then []
    else
      (if segments[0].Task? && segments[0].record.id == id then [] else [segments[0]]) + Removed(segments[1..], id)
  }

  class CrontabDocument {
    var segments: seq<Segment>

    constructor (segments: seq<Segment>)
      ensures this.segments == segments
    {
      this.segments := segments;
    }

    /** Replaces the first task with the record's id, or adds one at the end. */
    method Upsert(record: Record)
      modifies this
      ensures segments == Upserted(old(segments), record)
    {
      var i := 0;
      while i < |segments|
        invariant 0 <= i <= |segments|
        invariant segments == old(segments)
        invariant FindTask(segments, record.id) == Shift(i, FindTask(segments[i..], record.id))
      {
        assert segments[i..][1..] == segments[i + 1..];
        if segments[i].Task? && segments[i].record.id == record.id {
          segments := segments[i := Task(record)];
          return;
        }
        i := i + 1;
      }
      segments := segments + [Task(record)];
    }

    /** Drops every task with the id; tells whether there was one. */
    method Remove(id: string) returns (found: bool)
      modifies this
      ensures segments == Removed(old(segments), id)
      ensures found == FindTask(old(segments), id).Some?
    {
      var kept: seq<Segment> := [];
      for i := 0 to |segments|
        invariant segments == old(segments)
        invariant Removed(segments, id) == kept + Removed(segments[i..], id)
        invariant |kept| <= i
        invariant |kept| == i <==> forall k :: 0 <= k < i ==> !(segments[k].Task? && segments[k].record.id == id)
      {
        assert segments[i..][1..] == segments[i + 1..];
        if !(segments[i].Task? && segments[i].record.id == id) {
          kept := kept + [segments[i]];
        }
      }
      found := |kept| != |segments|;
      segments := kept;
    }

    method Render(enc: Encoding) returns (text: string)
      ensures text == Rendered(enc, segments)
    {
      hide TrimBlank, Block, Join;
      var lines: seq<string> := [];
      for i := 0 to |segments|
        invariant lines == RenderItems(enc, Items(segments[..i]))
      {
        assert segments[..i + 1] == segments[..i] + [segments[i]];
        RenderStep(enc, segments[..i], segments[i]);
        lines := lines + match segments[i] { case Raw(raw) => raw case Task(record) => Block(enc, record) };
      }
      assert segments[..|segments|] == segments;
      lines := TrimOuterBlankLines(lines);
      text := if lines == [] then "" else Join(lines, "\n") + "\n";
    }
  }
}
