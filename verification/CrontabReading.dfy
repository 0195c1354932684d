/** What reading a crontab means, without reference to how its lines are gone through. */
module CrontabReading {
  import opened Common
  import opened Text
  import opened CrontabRecord
  import opened Crontab
  import opened CrontabTheorems

  // ---- documents ----

  /** The lines of one item: a foreign line, or a block between its markers. */
  ghost predicate ChunkOf(enc: Encoding, chunk: seq<string>, item: Item) {
    match item
    case Line(text) => chunk == [text] && Trim(text) != "# MXTERM-SCHEDULE-BEGIN"
    case Managed(record) =>
      && |chunk| >= 2
      && Trim(chunk[0]) == "# MXTERM-SCHEDULE-BEGIN" && Trim(chunk[|chunk| - 1]) == "# MXTERM-SCHEDULE-END"
      && (forall k :: 1 <= k < |chunk| - 1 ==> Trim(chunk[k]) != "# MXTERM-SCHEDULE-END")
      && ReadBody(enc, chunk[1..|chunk| - 1]) == Ok(record)
  }

  function Together(chunks: seq<seq<string>>): seq<string> {
    if chunks == [] then [] else chunks[0] + Together(chunks[1..])
  }

  ghost predicate Divides(enc: Encoding, lines: seq<string>, items: seq<Item>, chunks: seq<seq<string>>) {
    && |chunks| == |items| && Together(chunks) == lines
    && forall k :: 0 <= k < |items| ==> ChunkOf(enc, chunks[k], items[k])
  }

  lemma {:induction false} FindEndExactly(lines: seq<string>, at: nat)
    requires at < |lines| && Trim(lines[at]) == CRONTAB_END
    requires forall k :: 0 <= k < at ==> Trim(lines[k]) != CRONTAB_END
    ensures FindEnd(lines) == Some(at)
  {
    hide Trim;
    if at > 0 {
      FindEndExactly(lines[1..], at - 1);
    }
  }

  lemma {:induction false} FindEndIsFirst(lines: seq<string>)
    ensures FindEnd(lines).Some? ==>
              var at := FindEnd(lines).value;
              Trim(lines[at]) == CRONTAB_END && forall k :: 0 <= k < at ==> Trim(lines[k]) != CRONTAB_END
    ensures FindEnd(lines).None? ==> forall k :: 0 <= k < |lines| ==> Trim(lines[k]) != CRONTAB_END
  {
    hide Trim;
    if lines != [] {
      FindEndIsFirst(lines[1..]);
    }
  }

  lemma {:induction false} ReadIsDivision(enc: Encoding, lines: seq<string>) returns (chunks: seq<seq<string>>)
    requires ReadItems(enc, lines).Ok?
    ensures Divides(enc, lines, ReadItems(enc, lines).value, chunks)
    decreases |lines|
  {
    hide Trim, ReadBody, FindEnd;
    chunks := [];
    if lines != [] {
      var rest, first;
      if Trim(lines[0]) != CRONTAB_BEGIN {
        first := [lines[0]];
        rest := ReadIsDivision(enc, lines[1..]);
      } else {
        var end := FindEnd(lines[1..]).value;
        FindEndIsFirst(lines[1..]);
        first := lines[..end + 2];
        BlockIsChunk(enc, lines, end);
        rest := ReadIsDivision(enc, lines[end + 2..]);
        assert lines == first + lines[end + 2..];
      }
      chunks := [first] + rest;
      assert chunks[1..] == rest;
    }
  }

  lemma BlockIsChunk(enc: Encoding, lines: seq<string>, end: nat)
    requires end + 2 <= |lines| && Trim(lines[0]) == CRONTAB_BEGIN && Trim(lines[1..][end]) == CRONTAB_END
    requires forall k :: 0 <= k < end ==> Trim(lines[1..][k]) != CRONTAB_END
    requires ReadBody(enc, lines[1..end + 1]).Ok?
    ensures ChunkOf(enc, lines[..end + 2], Managed(ReadBody(enc, lines[1..end + 1]).value))
  {
    hide Trim, ReadBody;
    var chunk := lines[..end + 2];
    assert chunk[1..|chunk| - 1] == lines[1..end + 1];
    forall k | 1 <= k < |chunk| - 1 ensures Trim(chunk[k]) != CRONTAB_END {
      assert chunk[k] == lines[1..][k - 1];
    }
  }

  lemma {:induction false} DivisionIsRead(enc: Encoding, lines: seq<string>, items: seq<Item>,
                                          chunks: seq<seq<string>>)
    requires Divides(enc, lines, items, chunks)
    ensures ReadItems(enc, lines) == Ok(items)
    decreases |items|
  {
    hide Trim, ReadBody, FindEnd;
    if items == [] {
      assert chunks == [];
    } else {
      var chunk, rest := chunks[0], Together(chunks[1..]);
      assert ChunkOf(enc, chunk, items[0]);
      assert lines == chunk + rest;
      DivisionIsRead(enc, rest, items[1..], chunks[1..]);
      assert items == [items[0]] + items[1..];
      if items[0].Line? {
        assert lines[0] == chunk[0] && lines[1..] == rest;
      } else {
        ChunkIsBlock(chunk, rest);
        var end := |chunk| - 2;
        assert lines[1..end + 1] == chunk[1..|chunk| - 1];
        assert lines[end + 2..] == rest;
      }
    }
  }

  lemma ChunkIsBlock(chunk: seq<string>, rest: seq<string>)
    requires |chunk| >= 2 && Trim(chunk[|chunk| - 1]) == CRONTAB_END
    requires forall k :: 1 <= k < |chunk| - 1 ==> Trim(chunk[k]) != CRONTAB_END
    ensures FindEnd((chunk + rest)[1..]) == Some(|chunk| - 2)
  {
    hide Trim;
    var lines := (chunk + rest)[1..];
    assert forall k :: 0 <= k < |chunk| - 1 ==> lines[k] == chunk[k + 1];
    FindEndExactly(lines, |chunk| - 2);
  }

  /** The items of a document are exactly those that divide its lines: every foreign line by itself, and every block
      from an opening marker to the first closing one, with the record that its body holds. */
  lemma ReadExactly(enc: Encoding, lines: seq<string>, items: seq<Item>)
    ensures ReadItems(enc, lines) == Ok(items) <==> exists chunks :: Divides(enc, lines, items, chunks)
  {
    hide ReadItems, Divides;
    if ReadItems(enc, lines) == Ok(items) {
      var chunks := ReadIsDivision(enc, lines);
    }
    forall chunks | Divides(enc, lines, items, chunks) ensures ReadItems(enc, lines) == Ok(items) {
      DivisionIsRead(enc, lines, items, chunks);
    }
  }

  /** No foreign segment is empty, and no two of them are adjacent. */
  ghost predicate Grouped(segments: seq<Segment>) {
    && (forall k :: 0 <= k < |segments| && segments[k].Raw? ==> segments[k].lines != [])
    && (forall k :: 0 < k < |segments| && segments[k].Raw? ==> segments[k - 1].Task?)
  }

  lemma {:induction false} FoldIsGrouped(items: seq<Item>)
    ensures Grouped(Fold(items).segments) && Grouped(Group(items))
    ensures Fold(items).segments != [] ==> Fold(items).segments[|Fold(items).segments| - 1].Task?
  {
    if items != [] {
      FoldIsGrouped(items[..|items| - 1]);
    }
  }

  /** A document is one way of grouping its items, and the only one without empty or adjacent foreign segments. */
  lemma GroupIsGrouped(segments: seq<Segment>, items: seq<Item>)
    ensures segments == Group(items) <==> Grouped(segments) && Items(segments) == items
  {
    FoldIsGrouped(items);
    ItemsOfFold(items);
    if Grouped(segments) && Items(segments) == items {
      GroupedOnce(segments, Group(items));
    }
  }

  lemma {:induction false} GroupedOnce(a: seq<Segment>, b: seq<Segment>)
    requires Grouped(a) && Grouped(b) && Items(a) == Items(b)
    ensures a == b
    decreases |a|
  {
    hide Items;
    if a == [] || b == [] {
      NothingGrouped(a);
      NothingGrouped(b);
    } else {
      FirstSegment(a);
      FirstSegment(b);
      SameStart(a, b);
      assert Items(a[1..]) == Items(a)[|Items([a[0]])|..];
      assert Items(b[1..]) == Items(b)[|Items([b[0]])|..];
      GroupedOnce(a[1..], b[1..]);
      assert a == [a[0]] + a[1..] && b == [b[0]] + b[1..];
    }
  }

  lemma NothingGrouped(segments: seq<Segment>)
    requires Grouped(segments)
    ensures Items(segments) == [] <==> segments == []
  {
    if segments != [] {
      FirstSegment(segments);
    }
  }

  /** The items of the first segment, and what comes after them. */
  lemma FirstSegment(segments: seq<Segment>)
    requires segments != [] && Grouped(segments)
    ensures Items(segments) == Items([segments[0]]) + Items(segments[1..]) && Items([segments[0]]) != []
    ensures Grouped(segments[1..])
    ensures segments[0].Task? ==> Items([segments[0]]) == [Managed(segments[0].record)]
    ensures segments[0].Raw? ==>
              && Items([segments[0]]) == AsItems(segments[0].lines)
              && (Items(segments[1..]) != [] ==> Items(segments[1..])[0].Managed?)
  {
    assert segments == [segments[0]] + segments[1..];
    ItemsConcat([segments[0]], segments[1..]);
    ItemsOne(segments[0]);
    if |segments| > 1 && segments[0].Raw? {
      assert segments[1].Task?;
      assert segments[1..] == [segments[1]] + segments[1..][1..];
      ItemsConcat([segments[1]], segments[1..][1..]);
      ItemsOne(segments[1]);
    }
  }

  /** Leading foreign lines go on until the first task. */
  lemma LeadingRun(segments: seq<Segment>)
    requires segments != [] && Grouped(segments) && segments[0].Raw?
    ensures var all, run := Items(segments), segments[0].lines;
            && 0 < |run| <= |all| && (forall k :: 0 <= k < |run| ==> all[k] == Line(run[k]))
            && (|run| < |all| ==> all[|run|].Managed?)
  {
    hide Items;
    FirstSegment(segments);
    var all, run := Items(segments), segments[0].lines;
    forall k | 0 <= k < |run| ensures all[k] == Line(run[k]) {
      assert all[k] == AsItems(run)[k];
    }
    if |run| < |all| {
      assert all[|run|] == Items(segments[1..])[0];
    }
  }

  lemma LeadingTask(segments: seq<Segment>)
    requires segments != [] && Grouped(segments) && segments[0].Task?
    ensures Items(segments) != [] && Items(segments)[0] == Managed(segments[0].record)
  {
    hide Items;
    FirstSegment(segments);
  }

  /** Documents with the same items start with the same segment. */
  lemma SameStart(a: seq<Segment>, b: seq<Segment>)
    requires a != [] && b != [] && Grouped(a) && Grouped(b) && Items(a) == Items(b)
    ensures b[0] == a[0]
  {
    hide Items, Grouped;
    if a[0].Raw? { LeadingRun(a); } else { LeadingTask(a); }
    if b[0].Raw? { LeadingRun(b); } else { LeadingTask(b); }
    if a[0].Raw? && b[0].Raw? {
      SameRun(Items(a), a[0].lines, b[0].lines);
    }
  }

  lemma SameRun(all: seq<Item>, a: seq<string>, b: seq<string>)
    requires |a| <= |all| && (forall k :: 0 <= k < |a| ==> all[k] == Line(a[k]))
    requires |b| <= |all| && (forall k :: 0 <= k < |b| ==> all[k] == Line(b[k]))
    requires |a| < |all| ==> all[|a|].Managed?
    requires |b| < |all| ==> all[|b|].Managed?
    ensures a == b
  {
    assert !(|a| < |b|) && !(|b| < |a|);
    forall k | 0 <= k < |a| ensures a[k] == b[k] {
      assert all[k] == Line(a[k]) && all[k] == Line(b[k]);
    }
  }

  // ---- blocks ----

  /** A line shows a value for a key: a comment whose first equals sign separates the two. */
  ghost predicate Says(line: string, key: string, value: string) {
    exists name: string :: SaysAs(line, name, key, value)
  }

  predicate SaysAs(line: string, name: string, key: string, value: string) {
    '=' !in name && Trim(name) == key && Trim(line) == "# " + name + "=" + value
  }

  /** The last line that shows a value for the key. */
  ghost predicate LastSays(lines: seq<string>, i: nat, key: string, value: string) {
    && i < |lines| && Says(lines[i], key, value)
    && forall j, other :: i < j < |lines| ==> !Says(lines[j], key, other)
  }

  ghost predicate Silent(lines: seq<string>, key: string) {
    forall j, value :: 0 <= j < |lines| ==> !Says(lines[j], key, value)
  }

  /** What a line does to the draft, by what it shows. */
  lemma LineSays(enc: Encoding, d: Draft, line: string) returns (key: string, value: string, shows: bool)
    ensures shows ==> Says(line, key, value)
    ensures forall k, v :: Says(line, k, v) ==> shows && k == key && v == value
    ensures ReadLine(enc, d, line) == if shows then Assign(enc, d, KeyOf(key), value) else Ok(d)
  {
    hide Trim, Assign, KeyOf;
    var trimmed := Trim(line);
    key, value, shows := "", "", false;
    if "# " <= trimmed && Find(trimmed[2..], '=').Some? {
      var metadata := trimmed[2..];
      var at := Find(metadata, '=').value;
      key, value, shows := Trim(metadata[..at]), metadata[at + 1..], true;
      assert trimmed == "# " + metadata[..at] + "=" + metadata[at + 1..];
      assert SaysAs(line, metadata[..at], key, value);
    }
    forall k, v | Says(line, k, v) ensures shows && k == key && v == value {
      var name: string :| SaysAs(line, name, k, v);
      var metadata := trimmed[2..];
      assert metadata == name + "=" + v;
      assert metadata[..|name|] == name;
      FindUnique(metadata, '=', |name|);
      assert metadata[|name| + 1..] == v;
    }
  }

  predicate IsKey(key: string) {
    key == "id" || key == "name" || key == "cron" || key == "command" || key == "enabled" || key == "updated_at"
  }

  /** What a value means for the field of its key. */
  predicate Means(enc: Encoding, key: string, value: string, x: string) {
    if key == "id" then NormalizeId(Trim(value)) == Ok(x)
    else if key == "cron" then CronFrom(enc, value, x)
    else if key == "enabled" then x == Trim(value) && (x == "true" || x == "false")
    else if key == "updated_at" then x == Trim(value) && x != ""
    else enc.unurl(Trim(value)) == Some(x)
  }

  predicate CronFrom(enc: Encoding, value: string, cron: string) {
    var decoded := enc.unurl(Trim(value));
    decoded.Some? && ValidateCron(decoded.value) == Ok(cron)
  }

  function FieldOf(d: Draft, key: string): Option<string> {
    if key == "id" then d.id
    else if key == "name" then d.name
    else if key == "cron" then d.cron
    else if key == "command" then d.command
    else if key == "enabled" then
      if d.enabled.None? then None else Some(if d.enabled.value then "true" else "false")
    else d.updatedAt
  }

  /** Where a field of the draft comes from: the last line that shows its key, or the draft before. */
  ghost predicate FieldFrom(enc: Encoding, lines: seq<string>, key: string, before: Option<string>,
                            after: Option<string>)
  {
    if Silent(lines, key) then after == before else after.Some? && Said(enc, lines, key, after.value)
  }

  /** The last line for the key shows a value that means `x`. */
  ghost predicate Said(enc: Encoding, lines: seq<string>, key: string, x: string) {
    exists i: nat, value :: LastSays(lines, i, key, value) && Means(enc, key, value, x)
  }

  /** What a line that shows these, or nothing, does to the field of a key. */
  ghost predicate Sets(enc: Encoding, key: string, before: Option<string>, after: Option<string>, shown: string,
                       value: string, shows: bool)
  {
    if shows && shown == key then after.Some? && Means(enc, key, value, after.value) else after == before
  }

  ghost predicate OnlySays(line: string, shown: string, value: string, shows: bool) {
    (shows ==> Says(line, shown, value)) && forall k, v :: Says(line, k, v) ==> shows && k == shown && v == value
  }

  lemma FieldStep(enc: Encoding, line: string, rest: seq<string>, key: string, before: Option<string>,
                  mid: Option<string>, after: Option<string>, shown: string, value: string, shows: bool)
    requires FieldFrom(enc, rest, key, mid, after)
    requires OnlySays(line, shown, value, shows) && Sets(enc, key, before, mid, shown, value, shows)
    ensures FieldFrom(enc, [line] + rest, key, before, after)
  {
    hide Says, Means;
    var lines := [line] + rest;
    assert forall j :: 0 < j < |lines| ==> lines[j] == rest[j - 1];
    if Silent(rest, key) {
      if shows && shown == key {
        assert LastSays(lines, 0, key, value);
      } else {
        assert Silent(lines, key);
      }
    } else {
      var i: nat, v :| LastSays(rest, i, key, v) && Means(enc, key, v, after.value);
      assert LastSays(lines, i + 1, key, v);
    }
  }

  ghost predicate DraftFrom(enc: Encoding, lines: seq<string>, before: Draft, after: Draft) {
    forall key :: IsKey(key) ==> FieldFrom(enc, lines, key, FieldOf(before, key), FieldOf(after, key))
  }

  lemma NothingRead(enc: Encoding, d: Draft)
    ensures DraftFrom(enc, [], d, d)
  {
    hide Says, FieldOf, IsKey;
    assert forall key :: Silent([], key);
  }

  lemma ReadLinesStep(enc: Encoding, d: Draft, lines: seq<string>)
    requires lines != [] && ReadLines(enc, d, lines).Ok?
    ensures ReadLine(enc, d, lines[0]).Ok?
    ensures ReadLines(enc, d, lines) == ReadLines(enc, ReadLine(enc, d, lines[0]).value, lines[1..])
  {
    hide ReadLine;
  }

  lemma {:induction false} ReadLinesExactly(enc: Encoding, d: Draft, lines: seq<string>)
    requires ReadLines(enc, d, lines).Ok?
    ensures DraftFrom(enc, lines, d, ReadLines(enc, d, lines).value)
    decreases |lines|
  {
    hide ReadLine, DraftFrom;
    if lines == [] {
      NothingRead(enc, d);
    } else {
      ReadLinesStep(enc, d, lines);
      var next := ReadLine(enc, d, lines[0]).value;
      hide ReadLines;
      ReadLinesExactly(enc, next, lines[1..]);
      DraftStep(enc, lines[0], lines[1..], d, next, ReadLines(enc, d, lines).value);
      assert lines == [lines[0]] + lines[1..];
    }
  }

  lemma DraftStep(enc: Encoding, line: string, rest: seq<string>, before: Draft, mid: Draft, after: Draft)
    requires ReadLine(enc, before, line) == Ok(mid) && DraftFrom(enc, rest, mid, after)
    ensures DraftFrom(enc, [line] + rest, before, after)
  {
    hide FieldFrom, OnlySays, Sets, ReadLine, FieldOf, IsKey;
    var shown, value, shows := LineSets(enc, before, line, mid);
    forall key | IsKey(key)
      ensures FieldFrom(enc, [line] + rest, key, FieldOf(before, key), FieldOf(after, key))
    {
      FieldStep(enc, line, rest, key, FieldOf(before, key), FieldOf(mid, key), FieldOf(after, key), shown, value,
                shows);
    }
  }

  lemma LineSets(enc: Encoding, before: Draft, line: string, after: Draft)
    returns (shown: string, value: string, shows: bool)
    requires ReadLine(enc, before, line) == Ok(after)
    ensures OnlySays(line, shown, value, shows)
    ensures forall key :: IsKey(key) ==>
              Sets(enc, key, FieldOf(before, key), FieldOf(after, key), shown, value, shows)
  {
    hide ReadLine, Assign, Says, KeyOf;
    shown, value, shows := LineSays(enc, before, line);
    hide FieldOf, IsKey, Means;
    if shows {
      AssignedKey(enc, before, shown, value);
    }
  }

  /** One key sets one field. */
  lemma AssignedKey(enc: Encoding, d: Draft, shown: string, value: string)
    ensures var next := Assign(enc, d, KeyOf(shown), value);
            next.Ok? ==>
              forall key :: IsKey(key) ==>
                Sets(enc, key, FieldOf(d, key), FieldOf(next.value, key), shown, value, true)
  {
    hide Trim, NormalizeId, ValidateCron;
  }

  /** Every field of a record that was read is what the last line for its key says. */
  lemma BodyExactly(enc: Encoding, body: seq<string>)
    requires ReadBody(enc, body).Ok?
    ensures var r := ReadBody(enc, body).value;
            && Said(enc, body, "id", r.id)
            && Said(enc, body, "name", r.name)
            && Said(enc, body, "cron", r.cron)
            && Said(enc, body, "command", r.command)
            && Said(enc, body, "enabled", if r.enabled then "true" else "false")
            && Said(enc, body, "updated_at", r.updatedAt)
            && Trim(r.name) != "" && Trim(r.cron) != "" && Trim(r.command) != "" && '\0' !in r.command
  {
    hide Said, Trim, ReadLines;
    ReadLinesExactly(enc, EMPTY_DRAFT, body);
    var d := ReadLines(enc, EMPTY_DRAFT, body).value;
    hide Silent;
    FieldSaid(enc, body, d, "id");
    FieldSaid(enc, body, d, "name");
    FieldSaid(enc, body, d, "cron");
    FieldSaid(enc, body, d, "command");
    FieldSaid(enc, body, d, "enabled");
    FieldSaid(enc, body, d, "updated_at");
  }

  lemma FieldSaid(enc: Encoding, lines: seq<string>, d: Draft, key: string)
    requires DraftFrom(enc, lines, EMPTY_DRAFT, d) && IsKey(key) && FieldOf(d, key).Some?
    ensures Said(enc, lines, key, FieldOf(d, key).value)
  {
    hide Said, Silent;
    assert FieldFrom(enc, lines, key, FieldOf(EMPTY_DRAFT, key), FieldOf(d, key));
  }

  // ---- trimming ----

  /** What is left has no blank line at either end, and only blank lines were taken away. */
  lemma TrimBlankExactly(lines: seq<string>) returns (from: nat, to: nat)
    ensures from <= to <= |lines| && TrimBlank(lines) == lines[from..to]
    ensures forall k :: 0 <= k < |lines| && !(from <= k < to) ==> Trim(lines[k]) == ""
    ensures from < to ==> Trim(lines[from]) != "" && Trim(lines[to - 1]) != ""
  {
    hide Trim;
    from := DropExactly(lines);
    var rest := lines[from..];
    to := ChopExactly(rest);
    assert rest[..to] == lines[from..from + to];
    forall k | 0 <= k < |lines| && !(from <= k < from + to) ensures Trim(lines[k]) == "" {
      assert k >= from ==> lines[k] == rest[k - from];
    }
    assert to > 0 ==> rest[to - 1] == lines[from + to - 1] && rest[0] == lines[from];
    to := from + to;
  }

  lemma {:induction false} DropExactly(lines: seq<string>) returns (from: nat)
    ensures from <= |lines| && DropBlank(lines) == lines[from..]
    ensures forall k :: 0 <= k < from ==> Trim(lines[k]) == ""
    ensures from < |lines| ==> Trim(lines[from]) != ""
  {
    hide Trim;
    from := 0;
    if lines != [] && Blank(lines[0]) {
      var more := DropExactly(lines[1..]);
      forall k | 0 <= k < more + 1 ensures Trim(lines[k]) == "" {
        assert k > 0 ==> lines[k] == lines[1..][k - 1];
      }
      from := more + 1;
    }
  }

  lemma {:induction false} ChopExactly(lines: seq<string>) returns (to: nat)
    ensures to <= |lines| && ChopBlank(lines) == lines[..to]
    ensures forall k :: to <= k < |lines| ==> Trim(lines[k]) == ""
    ensures to > 0 ==> Trim(lines[to - 1]) != ""
    decreases |lines|
  {
    hide Trim;
    to := |lines|;
    assert lines[..to] == lines;
    if lines != [] && Blank(lines[|lines| - 1]) {
      to := ChopExactly(lines[..|lines| - 1]);
      assert lines[..|lines| - 1][..to] == lines[..to];
    }
  }

  // ---- writing and editing ----

  /** One more line adds its text and one line break, and nothing else. */
  lemma {:induction false} WrittenExactly(lines: seq<string>, line: string)
    ensures Written([]) == "" && Written(lines + [line]) == Written(lines) + line + "\n"
    decreases |lines|
  {
    hide Join;
    UnlinesPush(lines, line);
    JoinIsUnlines(lines + [line]);
    if lines != [] {
      JoinIsUnlines(lines);
    }
  }

  lemma {:induction false} UnlinesPush(lines: seq<string>, line: string)
    ensures Unlines(lines + [line]) == Unlines(lines) + line + "\n"
  {
    if lines == [] {
      assert (lines + [line])[1..] == [];
      assert Unlines([]) == "";
    } else {
      UnlinesPush(lines[1..], line);
      assert (lines + [line])[1..] == lines[1..] + [line];
      var rest := Unlines(lines[1..]);
      assert lines[0] + "\n" + (rest + line + "\n") == lines[0] + "\n" + rest + line + "\n";
    }
  }

  /** What a removal leaves of one segment. */
  function Kept(segment: Segment, id: string): seq<Segment> {
    if segment.Task? && segment.record.id == id then [] else [segment]
  }

  /** A removal decides about every segment by itself: a task with the id goes, everything else stays in order. */
  lemma {:induction false} RemovedExactly(before: seq<Segment>, segment: Segment, id: string)
    ensures Removed([], id) == [] && Removed(before + [segment], id) == Removed(before, id) + Kept(segment, id)
    decreases |before|
  {
    if before == [] {
      RemovedStart([segment], id);
      assert before + [segment] == [segment] && [segment][1..] == [];
    } else {
      RemovedStart(before, id);
      RemovedStart(before + [segment], id);
      RemovedExactly(before[1..], segment, id);
      hide Removed, Kept;
      assert (before + [segment])[1..] == before[1..] + [segment];
    }
  }

  lemma RemovedStart(segments: seq<Segment>, id: string)
    requires segments != []
    ensures Removed(segments, id) == Kept(segments[0], id) + Removed(segments[1..], id) && Removed([], id) == []
  {
  }

  /** An upsert changes one place: the first task with the id if there is one, and the end otherwise. */
  lemma {:induction false} UpsertedExactly(segments: seq<Segment>, record: Record)
    ensures forall k :: 0 <= k < |segments| && segments[k].Task? && segments[k].record.id == record.id
                        && (forall j :: 0 <= j < k && segments[j].Task? ==> segments[j].record.id != record.id) ==>
              Upserted(segments, record) == segments[k := Task(record)]
    ensures (forall k :: 0 <= k < |segments| && segments[k].Task? ==> segments[k].record.id != record.id) ==>
              Upserted(segments, record) == segments + [Task(record)]
  {
    var at := FindTask(segments, record.id);
    forall k | 0 <= k < |segments| && segments[k].Task? && segments[k].record.id == record.id
               && (forall j :: 0 <= j < k && segments[j].Task? ==> segments[j].record.id != record.id)
      ensures at == Some(k as nat)
    {
    }
  }
}
