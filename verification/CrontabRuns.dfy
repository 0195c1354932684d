/** What cron does with a rendered document: which lines it runs, and what command a run line hands to the shell. */
module CrontabRuns {
  import opened Common
  import opened Text
  import opened ShellQuoting
  import opened CrontabRecord
  import opened CrontabRecordProofs
  import opened Crontab
  import opened CrontabTheorems

  /** What cron makes of the command part of a line: an escaped percent sign is one, and at a bare one the command
      ends. */
  function CronCommand(s: string): string {
    if s == "" || s[0] == '%' then ""
    else if "\\%" <= s then "%" + CronCommand(s[2..])
    else [s[0]] + CronCommand(s[1..])
  }

  lemma EscapedStart(s: string)
    ensures EscapePercent(s) != "" ==> EscapePercent(s)[0] != '%'
  {
  }

  /** Escaping takes the meaning of the percent sign away, and nothing else. */
  lemma {:induction false} EscapedIsRead(s: string)
    ensures CronCommand(EscapePercent(s)) == s
    decreases |s|
  {
    if s != "" {
      var rest := EscapePercent(s[1..]);
      EscapedIsRead(s[1..]);
      EscapedStart(s[1..]);
      if s[0] == '%' {
        assert EscapePercent(s) == "\\%" + rest;
        assert EscapePercent(s)[2..] == rest;
      } else {
        assert EscapePercent(s)[1..] == rest;
      }
    }
  }

  /** No percent sign stands without a backslash. */
  lemma {:induction false} NoBarePercent(s: string, i: nat)
    requires i < |EscapePercent(s)| && EscapePercent(s)[i] == '%'
    ensures i > 0 && EscapePercent(s)[i - 1] == '\\'
    decreases |s|
  {
    var rest := EscapePercent(s[1..]);
    EscapedStart(s[1..]);
    if s[0] == '%' {
      assert EscapePercent(s) == "\\%" + rest;
      if i >= 2 {
        NoBarePercent(s[1..], i - 2);
      }
    } else if i >= 1 {
      NoBarePercent(s[1..], i - 1);
    }
  }

  // ---- the words of the command ----

  predicate PlainText(s: string) {
    forall i :: 0 <= i < |s| ==> !IsWhitespace(s[i]) && s[i] != '\'' && s[i] != '"' && s[i] != '\\'
  }

  lemma {:induction false} ScanPlain(arguments: seq<string>, current: string, text: string)
    requires PlainText(text) && text != ""
    ensures ScanAll(Scanner(arguments, current, None, false, current != ""), text)
         == Ok(Scanner(arguments, current + text, None, false, true))
    decreases |text|
  {
    var next := Scanner(arguments, current + [text[0]], None, false, true);
    assert Scan(Scanner(arguments, current, None, false, current != ""), text[0]) == Ok(next);
    if |text| == 1 {
      assert text[1..] == "" && text == [text[0]];
    } else {
      ScanPlain(arguments, current + [text[0]], text[1..]);
      assert current + [text[0]] + text[1..] == current + text;
    }
  }

  /** A plain prefix and a quotation make one word. */
  lemma ScanAssignment(arguments: seq<string>, prefix: string, value: string)
    requires PlainText(prefix) && prefix != ""
    ensures ScanAll(Scanner(arguments, "", None, false, false), prefix + Quote(value))
         == Ok(Scanner(arguments, prefix + value, None, false, true))
  {
    hide Quote, ScanAll;
    ScanPlain(arguments, "", prefix);
    assert "" + prefix == prefix;
    ScanConcat(Scanner(arguments, "", None, false, false), prefix, Quote(value));
    ScanQuotedOn(arguments, prefix, true, value);
  }

  /** A word, a space and the rest. */
  lemma NextWord(arguments: seq<string>, text: string, word: string, rest: string)
    requires ScanAll(Scanner(arguments, "", None, false, false), text) ==
             Ok(Scanner(arguments, word, None, false, true))
    ensures ScanAll(Scanner(arguments, "", None, false, false), text + (" " + rest)) ==
            ScanAll(Scanner(arguments + [word], "", None, false, false), rest)
  {
    hide ScanAll, Scan;
    ScanConcat(Scanner(arguments, "", None, false, false), text, " " + rest);
    ScanSeparator(arguments, word, rest);
  }

  /** Two assignments and the shell with its script: the id and the encoded command of the record. */
  function RunWords(enc: Encoding, r: Record): seq<string> {
    ["MXTERM_TASK_ID=" + r.id, "MXTERM_CMD_B64=" + enc.standard(r.command), "/bin/sh", "-lc", enc.script]
  }

  lemma PlainLiterals()
    ensures PlainText("MXTERM_TASK_ID=") && PlainText("MXTERM_CMD_B64=") && PlainText("/bin/sh") && PlainText("-lc")
  {
    PlainChars();
    hide IsWhitespace;
  }

  lemma PlainChars()
    ensures forall c :: 'A' <= c <= 'Z' || 'a' <= c <= 'z' || '0' <= c <= '9' || c in "_=/-" ==> !IsWhitespace(c)
  {
  }

  lemma RunCommandWords(enc: Encoding, r: Record)
    ensures Arguments(RunCommand(enc, r)) == Ok(RunWords(enc, r))
  {
    hide Quote, ScanAll, PlainText;
    PlainLiterals();
    var w := RunWords(enc, r);
    var a, b := Quote(r.id), Quote(enc.standard(r.command));
    var c := Quote(enc.script);
    var t4 := "-lc" + (" " + c);
    var t3 := "/bin/sh" + (" " + t4);
    var t2 := ("MXTERM_CMD_B64=" + b) + (" " + t3);
    RunCommandSpelled(enc, r, a, b, c);
    ScanAssignment([], "MXTERM_TASK_ID=", r.id);
    NextWord([], "MXTERM_TASK_ID=" + a, w[0], t2);
    ScanAssignment([w[0]], "MXTERM_CMD_B64=", enc.standard(r.command));
    NextWord([w[0]], "MXTERM_CMD_B64=" + b, w[1], t3);
    assert "" + w[2] == w[2] && "" + w[3] == w[3];
    ScanPlain([w[0], w[1]], "", "/bin/sh");
    NextWord([w[0], w[1]], "/bin/sh", w[2], t4);
    ScanPlain([w[0], w[1], w[2]], "", "-lc");
    NextWord([w[0], w[1], w[2]], "-lc", w[3], c);
    ScanQuoted([w[0], w[1], w[2], w[3]], enc.script);
    FiveWords(w);
  }

  lemma FiveWords(w: seq<string>)
    requires |w| == 5
    ensures [] + [w[0]] == [w[0]] && [w[0]] + [w[1]] == [w[0], w[1]] && [w[0], w[1]] + [w[2]] == [w[0], w[1], w[2]]
    ensures [w[0], w[1], w[2]] + [w[3]] == [w[0], w[1], w[2], w[3]] && [w[0], w[1], w[2], w[3]] + [w[4]] == w
  {
  }

  lemma RunCommandSpelled(enc: Encoding, r: Record, a: string, b: string, c: string)
    requires a == Quote(r.id) && b == Quote(enc.standard(r.command)) && c == Quote(enc.script)
    ensures var t3 := "/bin/sh" + (" " + ("-lc" + (" " + c)));
            RunCommand(enc, r) == ("MXTERM_TASK_ID=" + a) + (" " + (("MXTERM_CMD_B64=" + b) + (" " + t3)))
  {
    hide Quote;
    assert " MXTERM_CMD_B64=" == " " + "MXTERM_CMD_B64=";
    assert " /bin/sh -lc " + c == " " + ("/bin/sh" + (" " + ("-lc" + (" " + c))));
  }

  /** The line schedules the task's command: its cron, a space, and text that cron hands to the shell as those words. */
  ghost predicate Runs(enc: Encoding, r: Record, line: string) {
    exists text :: RunsText(enc, r, line, text)
  }

  ghost predicate RunsText(enc: Encoding, r: Record, line: string, text: string) {
    line == r.cron + " " + text && Arguments(CronCommand(text)) == Ok(RunWords(enc, r))
  }

  /** The rendered block, line by line: what an enabled task runs, and nothing for a disabled one. */
  lemma BlockText(enc: Encoding, r: Record)
    ensures var lines := Block(enc, r);
            && |lines| == 9
            && lines[0] == "# MXTERM-SCHEDULE-BEGIN"
            && lines[1] == "# id=" + r.id
            && lines[2] == "# name=" + enc.url(r.name)
            && lines[3] == "# cron=" + enc.url(r.cron)
            && lines[4] == "# command=" + enc.url(r.command)
            && lines[5] == (if r.enabled then "# enabled=true" else "# enabled=false")
            && lines[6] == "# updated_at=" + r.updatedAt
            && (if r.enabled then Runs(enc, r, lines[7])
                else exists text :: lines[7] == "# disabled: " + text && Runs(enc, r, text))
            && lines[8] == "# MXTERM-SCHEDULE-END"
  {
    var command := RunCommand(enc, r);
    hide RunCommand, EscapePercent, Arguments, RunWords;
    RunCommandWords(enc, r);
    EscapedIsRead(command);
    var plain := r.cron + " " + EscapePercent(command);
    assert RunsText(enc, r, plain, EscapePercent(command));
    assert RunLine(enc, r) == (if r.enabled then plain else "# disabled: " + plain);
  }

  // ---- a whole document ----

  predicate Comment(line: string) {
    line != "" && line[0] == '#'
  }

  /** A line of a rendered block is a comment, or it runs an enabled task. */
  lemma BlockRuns(enc: Encoding, r: Record, line: string)
    requires line in Block(enc, r)
    ensures Comment(line) || (r.enabled && Runs(enc, r, line))
  {
    BlockText(enc, r);
    hide Block, Runs;
    var lines := Block(enc, r);
    var k :| 0 <= k < |lines| && lines[k] == line;
    if !r.enabled && k == 7 {
      var text :| lines[7] == "# disabled: " + text && Runs(enc, r, text);
      assert line[0] == '#';
    }
  }

  /** Cron runs a task exactly when it is enabled and its schedule does not itself start a comment; it then runs one
      line, with the task's own command. */
  lemma RunsExactly(enc: Encoding, r: Record)
    requires WellFormed(r)
    ensures r.cron != ""
    ensures (exists line :: line in Block(enc, r) && !Comment(line)) <==> r.enabled && r.cron[0] != '#'
    ensures forall line :: line in Block(enc, r) && !Comment(line) ==> Runs(enc, r, line)
  {
    CronIsThere(r);
    BlockText(enc, r);
    hide WellFormed, Block, Runs;
    var lines := Block(enc, r);
    forall line | line in lines && !Comment(line) ensures r.enabled && r.cron[0] != '#' && Runs(enc, r, line) {
      BlockRuns(enc, r, line);
      RunsStart(enc, r, line);
    }
    if r.enabled && r.cron[0] != '#' {
      RunsStart(enc, r, lines[7]);
      assert lines[7] in lines && !Comment(lines[7]);
    }
  }

  lemma RunsStart(enc: Encoding, r: Record, line: string)
    requires Runs(enc, r, line) && r.cron != ""
    ensures line != "" && line[0] == r.cron[0]
  {
    hide RunWords, Arguments, CronCommand;
    var text :| RunsText(enc, r, line, text);
  }

  lemma CronIsThere(r: Record)
    requires WellFormed(r)
    ensures r.cron != ""
  {
    hide NormalizeId, Trim, Fields;
  }

  ghost predicate Explained(enc: Encoding, items: seq<Item>, line: string) {
    || Comment(line)
    || Line(line) in items
    || exists r :: Managed(r) in items && r.enabled && Runs(enc, r, line)
  }

  lemma {:induction false} LinesExplained(enc: Encoding, items: seq<Item>, line: string)
    requires line in RenderItems(enc, items)
    ensures Explained(enc, items, line)
    decreases items
  {
    hide Block, Runs, Comment;
    if line in ItemLines(enc, items[0]) {
      if items[0].Managed? {
        BlockRuns(enc, items[0].record, line);
        assert Managed(items[0].record) in items;
      }
    } else {
      LinesExplained(enc, items[1..], line);
      assert forall item :: item in items[1..] ==> item in items;
    }
  }

  lemma {:induction false} ItemIsRendered(enc: Encoding, items: seq<Item>, item: Item)
    requires item in items
    ensures forall line :: line in ItemLines(enc, item) ==> line in RenderItems(enc, items)
    decreases items
  {
    hide ItemLines;
    if item != items[0] {
      ItemIsRendered(enc, items[1..], item);
    }
  }

  /** What cron finds in the installed text: every enabled task is scheduled with its own command, and apart from
      comments and the foreign lines nothing else is. */
  lemma CronRunsEnabledTasks(enc: Encoding, segments: seq<Segment>)
    requires Sane(enc) && Safe(Items(segments))
    ensures forall r :: Managed(r) in Items(segments) && r.enabled ==>
              exists line :: line in TextLines(Rendered(enc, segments)) && Runs(enc, r, line)
    ensures forall line :: line in TextLines(Rendered(enc, segments)) ==> Explained(enc, Items(segments), line)
  {
    hide Sane, Safe, Runs, Explained, Block, RenderItems, Items, TrimItems, TextLines, Written;
    var items := TrimItems(Items(segments));
    RenderedText(enc, segments);
    TrimSubset(Items(segments));
    forall r | Managed(r) in Items(segments) && r.enabled
      ensures exists line :: line in TextLines(Rendered(enc, segments)) && Runs(enc, r, line)
    {
      ItemIsRendered(enc, items, Managed(r));
      BlockText(enc, r);
      assert Block(enc, r)[7] in Block(enc, r);
      assert Block(enc, r)[7] in TextLines(Rendered(enc, segments));
    }
    forall line | line in TextLines(Rendered(enc, segments)) ensures Explained(enc, Items(segments), line) {
      LinesExplained(enc, items, line);
      ExplainedByMore(enc, items, Items(segments), line);
    }
  }

  lemma ExplainedByMore(enc: Encoding, items: seq<Item>, more: seq<Item>, line: string)
    requires Explained(enc, items, line) && forall item :: item in items ==> item in more
    ensures Explained(enc, more, line)
  {
    hide Runs, Comment;
  }

  lemma RenderedText(enc: Encoding, segments: seq<Segment>)
    requires Sane(enc) && Safe(Items(segments))
    ensures TextLines(Rendered(enc, segments)) == RenderItems(enc, TrimItems(Items(segments)))
  {
    hide Sane, SafeItem, TrimBlank, RenderItems, Items, TrimItems, TextLines, Written;
    TrimRendered(enc, Items(segments));
    TrimSubset(Items(segments));
    RenderedLines(enc, TrimItems(Items(segments)));
    TextOfLines(RenderItems(enc, TrimItems(Items(segments))));
  }

  // ---- what is accepted as input ----

  /** An id is what is left after trimming: one to 96 ASCII letters, digits, hyphens and underscores. */
  lemma AcceptedIds(value: string, id: string)
    ensures NormalizeId(value) == Ok(id) <==>
            && id == Trim(value) && 1 <= |id| <= 96
            && forall i :: 0 <= i < |id| ==>
                 || 'a' <= id[i] <= 'z' || 'A' <= id[i] <= 'Z' || '0' <= id[i] <= '9' || id[i] == '-' || id[i] == '_'
  {
    hide Trim;
  }

  /** A field starts here: no whitespace at this place, and no field going on before it. */
  predicate StartsField(s: string, inField: bool, i: nat)
    requires i < |s|
  {
    !IsWhitespace(s[i]) && if i == 0 then !inField else IsWhitespace(s[i - 1])
  }

  function FieldStarts(s: string, inField: bool): set<nat> {
    set i: nat | i < |s| && StartsField(s, inField, i)
  }

  function Shifted(positions: set<nat>): set<nat> {
    set i | i in positions :: i + 1
  }

  lemma {:induction false} ShiftedSize(positions: set<nat>)
    ensures |Shifted(positions)| == |positions|
  {
    if positions == {} {
      assert Shifted(positions) == {};
    } else {
      var i :| i in positions;
      ShiftedSize(positions - {i});
      ShiftedWithout(positions, i);
      hide Shifted;
    }
  }

  lemma ShiftedWithout(positions: set<nat>, i: nat)
    requires i in positions
    ensures Shifted(positions) == Shifted(positions - {i}) + {i + 1} && i + 1 !in Shifted(positions - {i})
  {
    forall j | j in positions ensures j + 1 in Shifted(positions - {i}) + {i + 1} {
      assert j != i ==> j in positions - {i};
    }
  }

  lemma StartsShift(s: string, inField: bool, i: nat)
    requires i + 1 < |s|
    ensures StartsField(s, inField, i + 1) == StartsField(s[1..], !IsWhitespace(s[0]), i)
  {
    hide IsWhitespace;
  }

  lemma StartsStep(s: string, inField: bool)
    requires s != ""
    ensures FieldStarts(s, inField) ==
            Shifted(FieldStarts(s[1..], !IsWhitespace(s[0]))) + (if StartsField(s, inField, 0) then {0} else {})
  {
    var rest := FieldStarts(s[1..], !IsWhitespace(s[0]));
    forall i: nat | i < |s| ensures i in FieldStarts(s, inField) <==>
                                    i in Shifted(rest) || (i == 0 && StartsField(s, inField, 0))
    {
      if i > 0 {
        StartsShift(s, inField, i - 1);
        assert i in Shifted(rest) <==> i - 1 in rest;
      }
    }
    hide StartsField, IsWhitespace;
  }

  lemma {:induction false} FieldsAreStarts(s: string, inField: bool)
    ensures Fields(s, inField) == |FieldStarts(s, inField)|
    decreases |s|
  {
    if s == "" {
      assert FieldStarts(s, inField) == {};
    } else {
      StartsStep(s, inField);
      FieldsAreStarts(s[1..], !IsWhitespace(s[0]));
      ShiftedSize(FieldStarts(s[1..], !IsWhitespace(s[0])));
      hide FieldStarts, IsWhitespace;
      assert 0 !in Shifted(FieldStarts(s[1..], !IsWhitespace(s[0])));
    }
  }

  /** A schedule is what is left after trimming: one of five macros, or exactly five fields on one line. */
  lemma AcceptedCrons(value: string, cron: string)
    ensures ValidateCron(value) == Ok(cron) <==>
            && cron == Trim(value) && cron != ""
            && '\n' !in cron && '\r' !in cron && '\0' !in cron
            && if cron[0] == '@' then
                 || cron == "@hourly" || cron == "@daily" || cron == "@weekly" || cron == "@monthly"
                 || cron == "@reboot"
               else |FieldStarts(cron, false)| == 5
  {
    FieldsAreStarts(Trim(value), false);
    hide Trim, Fields, FieldStarts;
  }
}
