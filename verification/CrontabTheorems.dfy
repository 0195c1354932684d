/** Parse, edit, render and parse again: what survives. */
module CrontabTheorems {
  import opened Common
  import opened Text
  import opened ShellQuoting
  import opened CrontabRecord
  import opened CrontabRecordProofs
  import opened Crontab

  /** A line that the parser can leave as a foreign line, or a record it can have read. */
  predicate SafeItem(item: Item) {
    match item
    case Line(text) => OneLine(text) && Trim(text) != CRONTAB_BEGIN
    case Managed(record) => WellFormed(record)
  }

  predicate Safe(items: seq<Item>) {
    forall item :: item in items ==> SafeItem(item)
  }

  /** No task of the document hides its own metadata behind its run line. */
  predicate Unshadowed(enc: Encoding, items: seq<Item>) {
    forall item :: item in items && item.Managed? ==> !Shadowed(enc, item.record)
  }

  // ---- grouping ----

  lemma {:induction false} ItemsOfFold(items: seq<Item>)
    ensures Items(Fold(items).segments) + AsItems(Fold(items).raw) == items
    ensures Items(Group(items)) == items
  {
    if items != [] {
      var before := items[..|items| - 1];
      var last := items[|items| - 1];
      ItemsOfFold(before);
      ItemsOfFlush(Fold(before));
      match last {
        case Line(text) =>
          assert AsItems(Fold(before).raw + [text]) == AsItems(Fold(before).raw) + [last];
        case Managed(record) =>
          ItemsConcat(Fold(before).Flush(), [Task(record)]);
          ItemsOne(Task(record));
          assert AsItems([]) == [];
      }
      assert items == before + [last];
    }
    ItemsOfFlush(Fold(items));
  }

  lemma ItemsOfFlush(state: Reading)
    ensures Items(state.Flush()) == Items(state.segments) + AsItems(state.raw)
  {
    if state.raw == [] {
      assert AsItems(state.raw) == [];
    } else {
      ItemsConcat(state.segments, [Raw(state.raw)]);
      ItemsOne(Raw(state.raw));
    }
  }

  // ---- the lines of a block ----

  lemma QuoteNoNewline(s: string)
    requires '\n' !in s
    ensures '\n' !in Quote(s)
  {
    EscapeQuotesNoNewline(s);
  }

  lemma {:induction false} EscapeQuotesNoNewline(s: string)
    requires '\n' !in s
    ensures '\n' !in EscapeQuotes(s)
  {
    if s != "" {
      EscapeQuotesNoNewline(s[1..]);
    }
  }

  lemma {:induction false} EscapePercentNoNewline(s: string)
    requires '\n' !in s
    ensures '\n' !in EscapePercent(s)
  {
    if s != "" {
      EscapePercentNoNewline(s[1..]);
    }
  }

  predicate Flat(s: string) {
    '\n' !in s
  }

  lemma FlatConcat(a: string, b: string)
    requires Flat(a) && Flat(b)
    ensures Flat(a + b)
  {
  }

  lemma FlatLiterals()
    ensures Flat(RUN_PREFIX) && Flat(" MXTERM_CMD_B64=") && Flat(" /bin/sh -lc ")
  {
  }

  lemma RunCommandNoNewline(enc: Encoding, r: Record)
    requires Sane(enc) && WellFormed(r)
    ensures '\n' !in EscapePercent(RunCommand(enc, r))
  {
    IdHasNoNewline(r);
    QuoteNoNewline(r.id);
    EncodedNoNewline(enc, r.command);
    QuoteNoNewline(enc.standard(r.command));
    QuoteNoNewline(enc.script);
    FlatLiterals();
    hide EscapePercent, Quote, WellFormed, Sane;
    var command := RunCommand(enc, r);
    assert Flat(command) by {
      var a, b, c := Quote(r.id), Quote(enc.standard(r.command)), Quote(enc.script);
      assert Flat(a) && Flat(b) && Flat(c);
      hide Flat;
      FlatConcat(RUN_PREFIX, a);
      FlatConcat(RUN_PREFIX + a, " MXTERM_CMD_B64=");
      FlatConcat(RUN_PREFIX + a + " MXTERM_CMD_B64=", b);
      FlatConcat(RUN_PREFIX + a + " MXTERM_CMD_B64=" + b, " /bin/sh -lc ");
      FlatConcat(RUN_PREFIX + a + " MXTERM_CMD_B64=" + b + " /bin/sh -lc ", c);
    }
    EscapePercentNoNewline(command);
  }

  lemma IdHasNoNewline(r: Record)
    requires WellFormed(r)
    ensures '\n' !in r.id
  {
    hide ValidateCron, Trim;
    assert forall i :: 0 <= i < |r.id| ==> UrlChar(r.id[i]);
  }

  lemma EncodedNoNewline(enc: Encoding, s: string)
    requires Sane(enc)
    ensures '\n' !in enc.standard(s) && '\n' !in enc.url(s)
  {
    assert forall i :: 0 <= i < |enc.standard(s)| ==> StandardChar(enc.standard(s)[i]);
    assert forall i :: 0 <= i < |enc.url(s)| ==> UrlChar(enc.url(s)[i]);
  }

  /** A line of a block body: one line that the parser does not take for the closing marker. */
  predicate BodyLine(line: string) {
    OneLine(line) && Trim(line) != CRONTAB_END
  }

  lemma MetadataBodyLine(key: string, value: string)
    requires key != "" && '\n' !in key && key[0] != 'M'
    requires '\n' !in value && (value == "" || !IsWhitespace(value[|value| - 1]))
    ensures BodyLine("# " + key + "=" + value)
  {
    hide Trim;
    var line := "# " + key + "=" + value;
    TrimKeeps(line);
    assert line[2] == key[0];
    assert CRONTAB_END[2] == 'M';
  }

  lemma RunBodyLine(enc: Encoding, r: Record)
    requires Sane(enc) && WellFormed(r)
    ensures BodyLine(RunLine(enc, r))
  {
    hide Trim, EscapePercent, RunCommand, WellFormed, Sane;
    CronEnds(r);
    CommandShape(enc, r);
    RunCommandNoNewline(enc, r);
    var line := RunLine(enc, r);
    assert line[|line| - 1] == '\'';
    assert !IsWhitespace(line[0]);
    TrimKeeps(line);
    assert CRONTAB_END[|CRONTAB_END| - 1] == 'D';
  }

  lemma BodyLines(enc: Encoding, r: Record)
    requires Sane(enc) && WellFormed(r)
    ensures forall line :: line in BlockBody(enc, r) ==> BodyLine(line)
  {
    hide WellFormed, Sane, BodyLine, EnabledText, RunLine, Trim, IsWhitespace, MetadataLines, BlockBody;
    IdIsSolid(r);
    IdHasNoNewline(r);
    MetadataBodyLine("id", r.id);
    UrlSolid(enc, r.name);
    EncodedNoNewline(enc, r.name);
    MetadataBodyLine("name", enc.url(r.name));
    UrlSolid(enc, r.cron);
    EncodedNoNewline(enc, r.cron);
    MetadataBodyLine("cron", enc.url(r.cron));
    UrlSolid(enc, r.command);
    EncodedNoNewline(enc, r.command);
    MetadataBodyLine("command", enc.url(r.command));
    EnabledBodyLine(r.enabled);
    UpdatedBodyLine(r);
    RunBodyLine(enc, r);
    BodySpelled(enc, r);
    AllSeven("# " + "id" + "=" + r.id, "# " + "name" + "=" + enc.url(r.name), "# " + "cron" + "=" + enc.url(r.cron),
             "# " + "command" + "=" + enc.url(r.command), "# enabled=" + EnabledText(r.enabled),
             "# updated_at=" + r.updatedAt, RunLine(enc, r));
  }

  lemma AllSeven(a: string, b: string, c: string, d: string, e: string, f: string, g: string)
    requires BodyLine(a) && BodyLine(b) && BodyLine(c) && BodyLine(d) && BodyLine(e) && BodyLine(f) && BodyLine(g)
    ensures forall line :: line in [a, b, c, d, e, f, g] ==> BodyLine(line)
  {
    hide BodyLine;
  }

  lemma EnabledBodyLine(enabled: bool)
    ensures BodyLine("# enabled=" + EnabledText(enabled))
  {
    hide BodyLine;
    MetadataBodyLine("enabled", EnabledText(enabled));
    Headers();
  }

  lemma UpdatedBodyLine(r: Record)
    requires WellFormed(r)
    ensures BodyLine("# updated_at=" + r.updatedAt)
  {
    hide Trim, NormalizeId, ValidateCron, BodyLine;
    TrimmedEnds(r.updatedAt);
    MetadataBodyLine("updated_at", r.updatedAt);
    Headers();
  }

  lemma BodySpelled(enc: Encoding, r: Record)
    ensures BlockBody(enc, r) == [
              "# " + "id" + "=" + r.id,
              "# " + "name" + "=" + enc.url(r.name),
              "# " + "cron" + "=" + enc.url(r.cron),
              "# " + "command" + "=" + enc.url(r.command),
              "# enabled=" + EnabledText(r.enabled),
              "# updated_at=" + r.updatedAt,
              RunLine(enc, r)]
  {
    hide RunLine, EnabledText;
    Headers();
  }

  lemma Markers()
    ensures Trim(CRONTAB_BEGIN) == CRONTAB_BEGIN && Trim(CRONTAB_END) == CRONTAB_END
    ensures OneLine(CRONTAB_BEGIN) && OneLine(CRONTAB_END)
  {
    hide Trim;
    TrimKeeps(CRONTAB_BEGIN);
    TrimKeeps(CRONTAB_END);
  }

  // ---- reading what was rendered ----

  /** What reading a rendered document makes of its items: every block is read on its own. */
  function Reread(enc: Encoding, items: seq<Item>): Result<seq<Item>, CrontabError> {
    if items == [] then Ok([])
    else
      match items[0]
      case Line(_) =>
        var rest :- Reread(enc, items[1..]);
        Ok([items[0]] + rest)
      case Managed(record) =>
        var again :- ReadBody(enc, BlockBody(enc, record));
        var rest :- Reread(enc, items[1..]);
        Ok([Managed(again)] + rest)
  }

  lemma {:induction false} FindEndAfter(body: seq<string>, rest: seq<string>)
    requires forall line :: line in body ==> Trim(line) != CRONTAB_END
    ensures FindEnd(body + [CRONTAB_END] + rest) == Some(|body|)
    decreases |body|
  {
    hide Trim;
    Markers();
    var all := body + [CRONTAB_END] + rest;
    if body != [] {
      assert body[0] in body;
      assert all[1..] == body[1..] + [CRONTAB_END] + rest;
      FindEndAfter(body[1..], rest);
    }
  }

  lemma ReadBlock(enc: Encoding, record: Record, rest: seq<string>)
    requires Sane(enc) && WellFormed(record)
    ensures ReadItems(enc, Block(enc, record) + rest) ==
            var again := ReadBody(enc, BlockBody(enc, record));
            if again.Err? then Err(again.error) else Prepend([Managed(again.value)], ReadItems(enc, rest))
  {
    hide ReadBody, BlockBody, FindEnd, Trim, Sane, WellFormed;
    BodyLines(enc, record);
    var body := BlockBody(enc, record);
    var all := Block(enc, record) + rest;
    Markers();
    NotEnd(body);
    FindEndAfter(body, rest);
    assert all[1..] == body + [CRONTAB_END] + rest;
    assert all[1..|body| + 1] == body;
    assert all[|body| + 2..] == rest;
  }

  lemma NotEnd(lines: seq<string>)
    requires forall line :: line in lines ==> BodyLine(line)
    ensures forall line :: line in lines ==> Trim(line) != CRONTAB_END
  {
    hide Trim, OneLine;
  }

  lemma {:induction false} ReadRendered(enc: Encoding, items: seq<Item>)
    requires Sane(enc) && Safe(items)
    ensures ReadItems(enc, RenderItems(enc, items)) == Reread(enc, items)
    decreases |items|
  {
    hide ReadBody, BlockBody, Block, FindEnd, Trim, Sane, WellFormed;
    if items != [] {
      assert SafeItem(items[0]);
      var lines := RenderItems(enc, items);
      var tail := RenderItems(enc, items[1..]);
      ReadRendered(enc, items[1..]);
      if items[0].Managed? {
        ReadBlock(enc, items[0].record, tail);
      } else {
        assert lines[1..] == tail;
      }
    }
  }

  lemma {:induction false} RereadExact(enc: Encoding, items: seq<Item>)
    requires Sane(enc) && Safe(items)
    ensures Reread(enc, items) == Ok(items) <==> Unshadowed(enc, items)
    ensures Reread(enc, items).Ok? ==> |Reread(enc, items).value| == |items|
    decreases |items|
  {
    hide ReadBody, BlockBody, Sane, WellFormed, Shadowed;
    if items != [] {
      assert SafeItem(items[0]);
      RereadExact(enc, items[1..]);
      assert items == [items[0]] + items[1..];
      if items[0].Managed? {
        BlockRoundTrip(enc, items[0].record);
      }
      if Reread(enc, items).Ok? {
        var again := Reread(enc, items).value;
        assert again[1..] == Reread(enc, items[1..]).value;
      }
      assert Unshadowed(enc, items) <==>
        Unshadowed(enc, items[1..]) && (items[0].Managed? ==> !Shadowed(enc, items[0].record));
    }
  }

  // ---- from lines to text ----

  lemma {:induction false} RenderedLines(enc: Encoding, items: seq<Item>)
    requires Sane(enc) && Safe(items)
    ensures forall line :: line in RenderItems(enc, items) ==> OneLine(line)
    decreases |items|
  {
    hide OneLine, Sane, WellFormed, Trim;
    if items != [] {
      assert SafeItem(items[0]);
      RenderedLines(enc, items[1..]);
      if items[0].Managed? {
        BlockLines(enc, items[0].record);
      }
    }
  }

  lemma BlockLines(enc: Encoding, record: Record)
    requires Sane(enc) && WellFormed(record)
    ensures forall line :: line in Block(enc, record) ==> OneLine(line)
  {
    hide OneLine, Sane, WellFormed, Trim, BlockBody;
    Markers();
    BodyLines(enc, record);
  }

  lemma TextOfLines(lines: seq<string>)
    requires forall line :: line in lines ==> OneLine(line)
    ensures TextLines(Written(lines)) == lines
  {
    hide Lines, Join;
    if lines != [] {
      JoinIsUnlines(lines);
    }
    LinesOfUnlines(lines);
    forall i | 0 <= i < |lines| ensures TrimCr(lines[i]) == lines[i] {
      assert lines[i] in lines;
    }
  }

  // ---- trimming ----

  predicate BlankItem(item: Item) {
    item.Line? && Blank(item.text)
  }

  function DropItems(items: seq<Item>): seq<Item> {
    if items != [] && BlankItem(items[0]) then DropItems(items[1..]) else items
  }

  function ChopItems(items: seq<Item>): seq<Item> {
    if items != [] && BlankItem(items[|items| - 1]) then ChopItems(items[..|items| - 1]) else items
  }

  /** The items without the blank lines at both ends. */
  function TrimItems(items: seq<Item>): seq<Item> {
    ChopItems(DropItems(items))
  }

  lemma MarkersNotBlank()
    ensures !Blank(CRONTAB_BEGIN) && !Blank(CRONTAB_END)
  {
    Markers();
    hide Trim;
  }

  lemma {:induction false} DropRendered(enc: Encoding, items: seq<Item>)
    ensures DropBlank(RenderItems(enc, items)) == RenderItems(enc, DropItems(items))
    decreases |items|
  {
    hide Blank, BlockBody;
    MarkersNotBlank();
    if items != [] {
      var lines := RenderItems(enc, items);
      assert lines[0] == ItemLines(enc, items[0])[0];
      if BlankItem(items[0]) {
        assert lines[1..] == RenderItems(enc, items[1..]);
        DropRendered(enc, items[1..]);
      }
    }
  }

  lemma RenderLast(enc: Encoding, items: seq<Item>)
    requires items != []
    ensures RenderItems(enc, items) ==
            RenderItems(enc, items[..|items| - 1]) + ItemLines(enc, items[|items| - 1])
  {
    hide ItemLines;
    var last := items[|items| - 1];
    assert items == items[..|items| - 1] + [last];
    RenderConcat(enc, items[..|items| - 1], [last]);
    assert [last][1..] == [];
    assert RenderItems(enc, [last]) == ItemLines(enc, last) + RenderItems(enc, []);
  }

  lemma {:induction false} ChopRendered(enc: Encoding, items: seq<Item>)
    ensures ChopBlank(RenderItems(enc, items)) == RenderItems(enc, ChopItems(items))
    decreases |items|
  {
    hide Blank, BlockBody, RenderItems;
    MarkersNotBlank();
    if items == [] {
      NothingRendered(enc);
    } else {
      RenderLast(enc, items);
      var lines := RenderItems(enc, items);
      var init := items[..|items| - 1];
      var last := ItemLines(enc, items[|items| - 1]);
      assert lines[|lines| - 1] == last[|last| - 1];
      if BlankItem(items[|items| - 1]) {
        assert lines[..|lines| - 1] == RenderItems(enc, init);
        ChopRendered(enc, init);
      }
    }
  }

  lemma NothingRendered(enc: Encoding)
    ensures RenderItems(enc, []) == []
  {
  }

  lemma TrimRendered(enc: Encoding, items: seq<Item>)
    ensures TrimBlank(RenderItems(enc, items)) == RenderItems(enc, TrimItems(items))
  {
    DropRendered(enc, items);
    ChopRendered(enc, DropItems(items));
  }

  lemma {:induction false} DropSubset(items: seq<Item>)
    ensures forall item :: item in DropItems(items) ==> item in items
    ensures forall item :: item in items && !BlankItem(item) ==> item in DropItems(items)
  {
    hide BlankItem;
    if items != [] && BlankItem(items[0]) {
      DropSubset(items[1..]);
      assert items == [items[0]] + items[1..];
    }
  }

  lemma {:induction false} ChopSubset(items: seq<Item>)
    ensures forall item :: item in ChopItems(items) ==> item in items
    ensures forall item :: item in items && !BlankItem(item) ==> item in ChopItems(items)
    decreases |items|
  {
    hide BlankItem;
    if items != [] && BlankItem(items[|items| - 1]) {
      ChopSubset(items[..|items| - 1]);
      assert items == items[..|items| - 1] + [items[|items| - 1]];
    }
  }

  lemma TrimSubset(items: seq<Item>)
    ensures forall item :: item in TrimItems(items) ==> item in items
    ensures forall item :: item in items && !BlankItem(item) ==> item in TrimItems(items)
  {
    DropSubset(items);
    ChopSubset(DropItems(items));
  }

  // ---- the round trip ----

  /** Crontab round trip: parsing a rendered document gives the document back, adjacent foreign segments
      joined and outer blank lines trimmed, exactly when no task shadows its own metadata. */
  lemma RoundTrip(enc: Encoding, segments: seq<Segment>)
    requires Sane(enc) && Safe(Items(segments))
    ensures Parsed(enc, Rendered(enc, segments)) == Ok(Group(TrimItems(Items(segments))))
       <==> Unshadowed(enc, Items(segments))
  {
    hide Sane, Trim, Join, Lines, TextLines, Blank, BlockBody;
    hide ReadItems, RenderItems, WellFormed, Written, Fold, Shadowed;
    var items := Items(segments);
    var kept := TrimItems(items);
    TrimSubset(items);
    assert Safe(kept);
    assert Unshadowed(enc, kept) <==> Unshadowed(enc, items);
    TrimRendered(enc, items);
    RenderedLines(enc, kept);
    TextOfLines(RenderItems(enc, kept));
    ReadRendered(enc, kept);
    RereadExact(enc, kept);
    ItemsOfFold(kept);
    if Reread(enc, kept).Ok? {
      ItemsOfFold(Reread(enc, kept).value);
    }
  }

  lemma {:induction false} RereadFailsExactly(enc: Encoding, items: seq<Item>)
    requires Sane(enc) && Safe(items)
    ensures Reread(enc, items).Err? <==> exists item :: item in items && item.Managed? && Unreadable(enc, item.record)
    decreases |items|
  {
    hide ReadBody, BlockBody, Sane, WellFormed, Unreadable;
    if items != [] {
      assert SafeItem(items[0]);
      RereadFailsExactly(enc, items[1..]);
      assert items == [items[0]] + items[1..];
      if items[0].Managed? {
        BlockFailsExactly(enc, items[0].record);
      }
    }
  }

  /** One such task makes the whole crontab unreadable: a rendered document is refused on reload if and only if it
      holds a task whose run line shows a key other than `updated_at`. */
  lemma ReloadFailsExactly(enc: Encoding, segments: seq<Segment>)
    requires Sane(enc) && Safe(Items(segments))
    ensures Parsed(enc, Rendered(enc, segments)).Err? <==>
            exists item :: item in Items(segments) && item.Managed? && Unreadable(enc, item.record)
  {
    hide Sane, Trim, Join, Lines, TextLines, Blank, BlockBody;
    hide ReadItems, RenderItems, WellFormed, Written, Fold, Unreadable;
    var items := Items(segments);
    var kept := TrimItems(items);
    TrimSubset(items);
    assert Safe(kept);
    TrimRendered(enc, items);
    RenderedLines(enc, kept);
    TextOfLines(RenderItems(enc, kept));
    ReadRendered(enc, kept);
    RereadFailsExactly(enc, kept);
  }
}
