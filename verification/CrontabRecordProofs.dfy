/** When a rendered block is read back as the record it came from. */
module CrontabRecordProofs {
  import opened Common
  import opened Text
  import opened ShellQuoting
  import opened CrontabRecord

  /** What the input checks and the parser establish about a record. */
  predicate WellFormed(r: Record) {
    && NormalizeId(r.id) == Ok(r.id)
    && Trim(r.name) != ""
    && ValidateCron(r.cron) == Ok(r.cron)
    && Trim(r.command) != "" && '\0' !in r.command
    && RequireValue(r.updatedAt) == Ok(r.updatedAt) && '\n' !in r.updatedAt
  }

  /** The key that the run line of an enabled task shows to the parser, when its cron starts like a comment. */
  function ShadowKey(cron: string): (r: Option<string>)
    ensures r.Some? ==> |cron| >= 2 && '=' in cron[2..]
  {
    if "# " <= cron && Find(cron[2..], '=').Some?
    then Some(Trim(cron[2..][..Find(cron[2..], '=').value]))
    else None
  }

  /** The value beside it: the rest of the run line. */
  function ShadowValue(enc: Encoding, r: Record): string
    requires ShadowKey(r.cron).Some?
  {
    r.cron[2..][Find(r.cron[2..], '=').value + 1..] + " " + EscapePercent(RunCommand(enc, r))
  }

  /** The run line of an enabled task is read as one more metadata line, and says something else. */
  predicate Shadowed(enc: Encoding, r: Record) {
    && r.enabled
    && ShadowKey(r.cron).Some?
    && KeyOf(ShadowKey(r.cron).value).Some?
    && !(KeyOf(ShadowKey(r.cron).value) == Some(UpdatedAtKey) && Trim(ShadowValue(enc, r)) == r.updatedAt)
  }

  // ---- one metadata line ----

  predicate SolidKey(key: string) {
    key != "" && '=' !in key && forall i :: 0 <= i < |key| ==> !IsWhitespace(key[i])
  }

  lemma SolidKeys()
    ensures SolidKey("id") && SolidKey("name") && SolidKey("cron") && SolidKey("command") && SolidKey("enabled")
    ensures SolidKey("updated_at")
  {
  }

  lemma Decodes(enc: Encoding, s: string)
    requires Sane(enc)
    ensures Decode(enc, enc.url(s)) == Ok(s)
  {
  }

  lemma MetadataLine(enc: Encoding, d: Draft, key: string, value: string)
    requires SolidKey(key)
    requires value == "" || !IsWhitespace(value[|value| - 1])
    ensures ReadLine(enc, d, "# " + key + "=" + value) == Assign(enc, d, KeyOf(key), value)
  {
    hide Assign, Trim, Find, KeyOf;
    var line := "# " + key + "=" + value;
    TrimKeeps(line);
    var metadata := line[2..];
    assert metadata == key + "=" + value;
    assert metadata[..|key|] == key && metadata[|key| + 1..] == value;
    FindUnique(metadata, '=', |key|);
    TrimSolid(key);
  }

  lemma Headers()
    ensures "# " + "id" + "=" == "# id=" && "# " + "name" + "=" == "# name=" && "# " + "cron" + "=" == "# cron="
    ensures "# " + "command" + "=" == "# command=" && "# " + "enabled" + "=" == "# enabled="
    ensures "# " + "updated_at" + "=" == "# updated_at="
  {
  }

  lemma KeyNames()
    ensures KeyOf("id") == Some(IdKey) && KeyOf("name") == Some(NameKey) && KeyOf("cron") == Some(CronKey)
    ensures KeyOf("command") == Some(CommandKey) && KeyOf("enabled") == Some(EnabledKey)
    ensures KeyOf("updated_at") == Some(UpdatedAtKey)
  {
  }

  lemma UrlSolid(enc: Encoding, s: string)
    requires Sane(enc)
    ensures Trim(enc.url(s)) == enc.url(s)
    ensures enc.url(s) == "" || !IsWhitespace(enc.url(s)[|enc.url(s)| - 1])
  {
    var t := enc.url(s);
    assert forall i :: 0 <= i < |t| ==> UrlChar(t[i]) && !IsWhitespace(t[i]);
    TrimSolid(t);
  }

  lemma FieldsBound(s: string, inField: bool)
    ensures Fields(s, inField) <= |s|
    decreases |s|
  {
    if s != "" {
      FieldsBound(s[1..], false);
      FieldsBound(s[1..], true);
    }
  }

  /** The draft after the six metadata lines. */
  function FullDraft(r: Record): Draft {
    Draft(Some(r.id), Some(r.name), Some(r.cron), Some(r.command), Some(r.enabled), Some(r.updatedAt))
  }

  lemma ReadFirst(enc: Encoding, d: Draft, line: string, rest: seq<string>, next: Draft)
    requires ReadLine(enc, d, line) == Ok(next)
    ensures ReadLines(enc, d, [line] + rest) == ReadLines(enc, next, rest)
  {
    assert ([line] + rest)[1..] == rest;
  }

  lemma IdIsSolid(r: Record)
    requires WellFormed(r)
    ensures Trim(r.id) == r.id && r.id != "" && !IsWhitespace(r.id[|r.id| - 1])
  {
    hide ValidateCron, UrlChar;
    assert RequireValue(r.id) == Ok(r.id);
    TrimmedEnds(r.id);
  }

  lemma IdLine(enc: Encoding, d: Draft, r: Record)
    requires WellFormed(r)
    ensures ReadLine(enc, d, "# id=" + r.id) == Ok(d.(id := Some(r.id)))
  {
    hide ReadLine, Trim, NormalizeId, ValidateCron, Find, KeyOf, RequireValue, ParseEnabled, Sane, Decode, SolidKey;
    KeyNames();
    Headers();
    SolidKeys();
    IdIsSolid(r);
    MetadataLine(enc, d, "id", r.id);
  }

  lemma NameLine(enc: Encoding, d: Draft, r: Record)
    requires Sane(enc)
    ensures ReadLine(enc, d, "# name=" + enc.url(r.name)) == Ok(d.(name := Some(r.name)))
  {
    hide ReadLine, Trim, NormalizeId, ValidateCron, Find, KeyOf;
    hide RequireValue, ParseEnabled, Sane, Decode, SolidKey, IsWhitespace;
    KeyNames();
    Headers();
    SolidKeys();
    Decodes(enc, r.name);
    UrlSolid(enc, r.name);
    MetadataLine(enc, d, "name", enc.url(r.name));
  }

  lemma CronLine(enc: Encoding, d: Draft, r: Record)
    requires Sane(enc) && WellFormed(r)
    ensures ReadLine(enc, d, "# cron=" + enc.url(r.cron)) == Ok(d.(cron := Some(r.cron)))
  {
    hide ReadLine, Trim, NormalizeId, ValidateCron, Find, KeyOf;
    hide RequireValue, ParseEnabled, Sane, Decode, SolidKey, IsWhitespace;
    KeyNames();
    Headers();
    SolidKeys();
    Decodes(enc, r.cron);
    UrlSolid(enc, r.cron);
    MetadataLine(enc, d, "cron", enc.url(r.cron));
  }

  lemma CommandLine(enc: Encoding, d: Draft, r: Record)
    requires Sane(enc)
    ensures ReadLine(enc, d, "# command=" + enc.url(r.command)) == Ok(d.(command := Some(r.command)))
  {
    hide ReadLine, Trim, NormalizeId, ValidateCron, Find, KeyOf;
    hide RequireValue, ParseEnabled, Sane, Decode, SolidKey, IsWhitespace;
    KeyNames();
    Headers();
    SolidKeys();
    Decodes(enc, r.command);
    UrlSolid(enc, r.command);
    MetadataLine(enc, d, "command", enc.url(r.command));
  }

  lemma EnabledLine(enc: Encoding, d: Draft, r: Record)
    ensures ReadLine(enc, d, "# enabled=" + EnabledText(r.enabled)) == Ok(d.(enabled := Some(r.enabled)))
  {
    hide ReadLine, Trim, NormalizeId, ValidateCron, Find, KeyOf, RequireValue, Sane, Decode, SolidKey;
    KeyNames();
    Headers();
    SolidKeys();
    var text := EnabledText(r.enabled);
    TrimSolid(text);
    MetadataLine(enc, d, "enabled", text);
  }

  lemma UpdatedLine(enc: Encoding, d: Draft, r: Record)
    requires WellFormed(r)
    ensures ReadLine(enc, d, "# updated_at=" + r.updatedAt) == Ok(d.(updatedAt := Some(r.updatedAt)))
  {
    hide ReadLine, Trim, NormalizeId, ValidateCron, Find, KeyOf, ParseEnabled, Sane, Decode, SolidKey;
    KeyNames();
    Headers();
    SolidKeys();
    TrimmedEnds(r.updatedAt);
    MetadataLine(enc, d, "updated_at", r.updatedAt);
  }

  /** The metadata lines alone restore every field. */
  lemma MetadataRestores(enc: Encoding, r: Record, rest: seq<string>)
    requires Sane(enc) && WellFormed(r)
    ensures ReadLines(enc, EMPTY_DRAFT, MetadataLines(enc, r) + rest) == ReadLines(enc, FullDraft(r), rest)
  {
    hide ReadLine, ReadLines, Sane, WellFormed, EnabledText;
    var d0 := EMPTY_DRAFT;
    var d1 := d0.(id := Some(r.id));
    var d2 := d1.(name := Some(r.name));
    var d3 := d2.(cron := Some(r.cron));
    var d4 := d3.(command := Some(r.command));
    var d5 := d4.(enabled := Some(r.enabled));
    var d6 := d5.(updatedAt := Some(r.updatedAt));
    var l6 := ["# updated_at=" + r.updatedAt] + rest;
    var l5 := ["# enabled=" + EnabledText(r.enabled)] + l6;
    var l4 := ["# command=" + enc.url(r.command)] + l5;
    var l3 := ["# cron=" + enc.url(r.cron)] + l4;
    var l2 := ["# name=" + enc.url(r.name)] + l3;
    IdLine(enc, d0, r); ReadFirst(enc, d0, "# id=" + r.id, l2, d1);
    NameLine(enc, d1, r); ReadFirst(enc, d1, "# name=" + enc.url(r.name), l3, d2);
    CronLine(enc, d2, r); ReadFirst(enc, d2, "# cron=" + enc.url(r.cron), l4, d3);
    CommandLine(enc, d3, r); ReadFirst(enc, d3, "# command=" + enc.url(r.command), l5, d4);
    EnabledLine(enc, d4, r); ReadFirst(enc, d4, "# enabled=" + EnabledText(r.enabled), l6, d5);
    UpdatedLine(enc, d5, r); ReadFirst(enc, d5, "# updated_at=" + r.updatedAt, rest, d6);
    assert MetadataLines(enc, r) + rest == ["# id=" + r.id] + l2;
  }

  // ---- the run line ----

  lemma {:induction false} EscapePercentConcat(a: string, b: string)
    ensures EscapePercent(a + b) == EscapePercent(a) + EscapePercent(b)
    decreases |a|
  {
    if a == "" {
      assert a + b == b;
    } else {
      assert (a + b)[1..] == a[1..] + b;
      EscapePercentConcat(a[1..], b);
    }
  }

  /** The command part starts with the assignment of the task id and ends with a closing quote. */
  lemma CommandShape(enc: Encoding, r: Record)
    ensures var c := EscapePercent(RunCommand(enc, r)); RUN_PREFIX <= c && c[|c| - 1] == '\''
  {
    hide EscapePercent, Quote;
    var command := RunCommand(enc, r);
    var middle := Quote(r.id) + " MXTERM_CMD_B64=" + Quote(enc.standard(r.command)) + " /bin/sh -lc ";
    QuoteEnds(enc.script);
    var q := Quote(enc.script);
    assert command == RUN_PREFIX + ((middle + q[..|q| - 1]) + "'");
    EscapePercentConcat(RUN_PREFIX, (middle + q[..|q| - 1]) + "'");
    EscapePercentConcat(middle + q[..|q| - 1], "'");
    EscapeSpelled();
  }

  lemma QuoteEnds(s: string)
    ensures Quote(s) != "" && Quote(s)[|Quote(s)| - 1] == '\''
  {
  }

  lemma EscapeSpelled()
    ensures EscapePercent(RUN_PREFIX) == RUN_PREFIX && EscapePercent("'") == "'"
  {
    hide EscapePercent;
    EscapeNothing(RUN_PREFIX);
    EscapeNothing("'");
  }

  lemma {:induction false} EscapeNothing(s: string)
    requires '%' !in s
    ensures EscapePercent(s) == s
    decreases |s|
  {
    if s != "" {
      EscapeNothing(s[1..]);
      assert s == [s[0]] + s[1..];
    }
  }

  lemma CronEnds(r: Record)
    requires WellFormed(r)
    ensures r.cron != "" && !IsWhitespace(r.cron[0]) && !IsWhitespace(r.cron[|r.cron| - 1])
    ensures r.cron[0] != '@' ==> |r.cron| >= 5
    ensures '\n' !in r.cron
  {
    hide IsWhitespace, NormalizeId, Fields, Trim;
    TrimmedEnds(r.cron);
    FieldsBound(r.cron, false);
  }

  /** A trimmed text whose last character is `D`, or whose first is `d`, is no key. */
  lemma NoKey(s: string)
    requires s != "" && (s[0] == 'd' || s[|s| - 1] == 'D')
    ensures KeyOf(Trim(s)).None?
  {
    hide Trim, KeyOf;
    if s[0] == 'd' {
      TrimKeepsFirst(s);
    } else {
      TrimKeepsChar(s, 'D');
    }
    NoSuchKey(Trim(s));
  }

  lemma NoSuchKey(name: string)
    requires name != "" && (name[0] == 'd' || 'D' in name)
    ensures KeyOf(name).None?
  {
  }

  lemma TrimKeepsFirst(s: string)
    requires s != "" && !IsWhitespace(s[0])
    ensures Trim(s) != "" && Trim(s)[0] == s[0]
  {
    TrimKeepsChar(s, s[0]);
    assert TrimStart(s) == s;
  }

  /** A disabled task's run line is a comment that names no key. */
  lemma DisabledLine(enc: Encoding, d: Draft, r: Record)
    requires WellFormed(r) && !r.enabled
    ensures ReadLine(enc, d, RunLine(enc, r)) == Ok(d)
  {
    hide KeyOf, EscapePercent, RunCommand, Trim, WellFormed;
    hide NormalizeId, ValidateCron, ParseEnabled, Decode, RequireValue;
    CronEnds(r);
    CommandShape(enc, r);
    var line := RunLine(enc, r);
    TrimKeeps(line);
    var metadata := line[2..];
    assert metadata[0] == 'd';
    var at := Find(metadata, '=');
    if at.Some? {
      assert at.value > 0;
      NoKey(metadata[..at.value]);
    }
  }

  /** What an enabled task's run line does to the draft: nothing, unless its cron shows a key. */
  lemma EnabledRunLine(enc: Encoding, d: Draft, r: Record)
    requires WellFormed(r) && r.enabled
    ensures ReadLine(enc, d, RunLine(enc, r)) ==
            if ShadowKey(r.cron).None? then Ok(d)
            else Assign(enc, d, KeyOf(ShadowKey(r.cron).value), ShadowValue(enc, r))
  {
    hide Assign, EscapePercent, RunCommand, Trim, WellFormed, KeyOf, ShadowKey, ShadowValue, Find, IsWhitespace;
    CronEnds(r);
    CommandShape(enc, r);
    var command := EscapePercent(RunCommand(enc, r));
    var line := r.cron + " " + command;
    assert RunLine(enc, r) == line;
    RunLineTrimmed(r.cron, command);
    CommentStart(r.cron, command);
    if "# " <= r.cron {
      assert line[2..] == r.cron[2..] + " " + command;
      CommentLine(enc, d, r, command);
    } else {
      NoShadow(r.cron);
    }
  }

  lemma RunLineTrimmed(cron: string, command: string)
    requires cron != "" && !IsWhitespace(cron[0]) && command != "" && command[|command| - 1] == '\''
    ensures Trim(cron + " " + command) == cron + " " + command
  {
    hide Trim;
    TrimKeeps(cron + " " + command);
  }

  lemma NoShadow(cron: string)
    requires !("# " <= cron)
    ensures ShadowKey(cron).None?
  {
  }

  /** The line starts like a comment exactly when the cron does. */
  lemma CommentStart(cron: string, command: string)
    requires cron != "" && (cron[0] != '@' ==> |cron| >= 5)
    ensures "# " <= cron + " " + command <==> "# " <= cron
  {
    var line := cron + " " + command;
    assert line[0] == cron[0];
    if |cron| >= 2 {
      assert line[1] == cron[1];
    }
  }

  lemma CommentLine(enc: Encoding, d: Draft, r: Record, command: string)
    requires "# " <= r.cron && command == EscapePercent(RunCommand(enc, r)) && RUN_PREFIX <= command
    ensures var metadata := r.cron[2..] + " " + command;
            var at := Find(metadata, '=');
            && at.Some?
            && Assign(enc, d, KeyOf(Trim(metadata[..at.value])), metadata[at.value + 1..]) ==
               if ShadowKey(r.cron).None? then Ok(d)
               else Assign(enc, d, KeyOf(ShadowKey(r.cron).value), ShadowValue(enc, r))
  {
    hide Assign, EscapePercent, RunCommand, Trim, KeyOf;
    var rest := r.cron[2..];
    var metadata := rest + " " + command;
    if Find(rest, '=').Some? {
      var at := Find(rest, '=').value;
      assert metadata[..at] == rest[..at];
      FindUnique(metadata, '=', at);
      assert metadata[at + 1..] == rest[at + 1..] + " " + command;
    } else {
      PlainComment(enc, d, rest, command);
    }
  }

  /** Without an equals sign in the cron, the first one is that of the task id. */
  lemma PlainComment(enc: Encoding, d: Draft, rest: string, command: string)
    requires '=' !in rest && RUN_PREFIX <= command
    ensures var metadata := rest + " " + command;
            var at := Find(metadata, '=');
            at.Some? && Assign(enc, d, KeyOf(Trim(metadata[..at.value])), metadata[at.value + 1..]) == Ok(d)
  {
    hide KeyOf, Trim, NormalizeId, ValidateCron, ParseEnabled, Decode, RequireValue, Find;
    var metadata := rest + " " + command;
    var head := rest + " MXTERM_TASK_ID";
    var at := |head|;
    assert metadata[..at] == head by {
      assert command[..14] == "MXTERM_TASK_ID";
    }
    assert metadata[at] == '=';
    FindUnique(metadata, '=', at);
    NoKey(head);
  }

  /** A value with an equals sign in it suits no key but `updated_at`. */
  lemma EqualsRejected(enc: Encoding, d: Draft, key: Key, value: string)
    requires Sane(enc) && '=' in value && key != UpdatedAtKey
    ensures Assign(enc, d, Some(key), value).Err?
  {
    hide Trim, Sane, NormalizeId, ParseEnabled, ValidateCron;
    TrimKeepsChar(value, '=');
    match key {
      case IdKey => EqualsInId(value);
      case EnabledKey => EqualsInEnabled(Trim(value));
      case _ => EqualsInEncoded(enc, Trim(value));
    }
  }

  lemma EqualsInId(value: string)
    requires '=' in Trim(value)
    ensures NormalizeId(Trim(value)).Err?
  {
    hide Trim;
    TrimIsTrimmed(value);
    var t := Trim(value);
    var i :| 0 <= i < |t| && t[i] == '=';
    assert !UrlChar(t[i]);
  }

  lemma EqualsInEnabled(value: string)
    requires '=' in value
    ensures ParseEnabled(value).Err?
  {
  }

  lemma EqualsInEncoded(enc: Encoding, value: string)
    requires Sane(enc) && '=' in value
    ensures enc.unurl(value).None?
  {
    var i :| 0 <= i < |value| && value[i] == '=';
    assert !UrlChar(value[i]);
  }

  lemma FinishRestores(r: Record)
    requires WellFormed(r)
    ensures Finish(FullDraft(r)) == Ok(r)
  {
    hide Trim, NormalizeId, ValidateCron;
    CronIsNotBlank(r);
  }

  lemma CronIsNotBlank(r: Record)
    requires WellFormed(r)
    ensures Trim(r.cron) != ""
  {
    hide Trim, NormalizeId, Fields;
  }

  /** Block round trip: a well-formed record survives rendering and reading exactly when its run line does
      not shadow its metadata. */
  lemma BlockRoundTrip(enc: Encoding, r: Record)
    requires Sane(enc) && WellFormed(r)
    ensures ReadBody(enc, BlockBody(enc, r)) == Ok(r) <==> !Shadowed(enc, r)
  {
    hide Sane, WellFormed, RunLine, ReadLine, ReadLines, Finish;
    hide Assign, KeyOf, ShadowKey, ShadowValue, Shadowed, MetadataLines;
    var d := FullDraft(r);
    var run := RunLine(enc, r);
    MetadataRestores(enc, r, [run]);
    FinishRestores(r);
    ReadLast(enc, d, run);
    PlainRecord(enc, r);
    if !r.enabled {
      DisabledLine(enc, d, r);
    } else {
      EnabledRunLine(enc, d, r);
      if ShadowKey(r.cron).Some? {
        ShadowedReading(enc, r);
      }
    }
  }

  lemma ReadLast(enc: Encoding, d: Draft, line: string)
    ensures ReadLines(enc, d, [line]) == ReadLine(enc, d, line)
  {
    assert [line][1..] == [];
  }

  lemma PlainRecord(enc: Encoding, r: Record)
    ensures !r.enabled || ShadowKey(r.cron).None? ==> !Shadowed(enc, r)
  {
    hide ShadowKey, ShadowValue, KeyOf;
  }

  lemma ShadowedReading(enc: Encoding, r: Record)
    requires Sane(enc) && WellFormed(r) && r.enabled && ShadowKey(r.cron).Some?
    ensures var next := Assign(enc, FullDraft(r), KeyOf(ShadowKey(r.cron).value), ShadowValue(enc, r));
            (next.Ok? && Finish(next.value) == Ok(r)) <==> !Shadowed(enc, r)
  {
    hide Trim, ShadowKey, ShadowValue, KeyOf, WellFormed, Sane, Finish, NormalizeId, Decode, ParseEnabled, ValidateCron;
    FinishRestores(r);
    var key := KeyOf(ShadowKey(r.cron).value);
    var value := ShadowValue(enc, r);
    ShadowValueHasEquals(enc, r);
    if key.Some? && key != Some(UpdatedAtKey) {
      EqualsRejected(enc, FullDraft(r), key.value, value);
    } else if key == Some(UpdatedAtKey) {
      TrimKeepsChar(value, '=');
      FinishTakes(r, Trim(value));
    }
  }

  lemma ShadowValueHasEquals(enc: Encoding, r: Record)
    requires ShadowKey(r.cron).Some?
    ensures '=' in ShadowValue(enc, r)
  {
    hide Trim, EscapePercent, RunCommand, ShadowKey;
    CommandShape(enc, r);
    assert EscapePercent(RunCommand(enc, r))[14] == '=';
  }

  /** A second `updated_at` line replaces the first. */
  lemma FinishTakes(r: Record, updatedAt: string)
    requires WellFormed(r)
    ensures Finish(FullDraft(r).(updatedAt := Some(updatedAt))) == Ok(r.(updatedAt := updatedAt))
  {
    hide Trim, NormalizeId, ValidateCron;
    CronIsNotBlank(r);
  }

  /** The shadowing that a reload does not survive: any key but `updated_at` rejects the rest of the run line. */
  predicate Unreadable(enc: Encoding, r: Record) {
    && r.enabled
    && ShadowKey(r.cron).Some?
    && KeyOf(ShadowKey(r.cron).value).Some?
    && KeyOf(ShadowKey(r.cron).value) != Some(UpdatedAtKey)
  }

  /** Reading a rendered block back fails exactly when its run line shows such a key. */
  lemma BlockFailsExactly(enc: Encoding, r: Record)
    requires Sane(enc) && WellFormed(r)
    ensures ReadBody(enc, BlockBody(enc, r)).Err? <==> Unreadable(enc, r)
  {
    hide Sane, WellFormed, RunLine, ReadLine, ReadLines, Finish, Assign, KeyOf, ShadowKey, ShadowValue, MetadataLines;
    var d := FullDraft(r);
    var run := RunLine(enc, r);
    MetadataRestores(enc, r, [run]);
    FinishRestores(r);
    ReadLast(enc, d, run);
    if !r.enabled {
      DisabledLine(enc, d, r);
    } else {
      EnabledRunLine(enc, d, r);
      if ShadowKey(r.cron).Some? {
        ShadowedFailsExactly(enc, r);
      }
    }
  }

  lemma ShadowedFailsExactly(enc: Encoding, r: Record)
    requires Sane(enc) && WellFormed(r) && r.enabled && ShadowKey(r.cron).Some?
    ensures var next := Assign(enc, FullDraft(r), KeyOf(ShadowKey(r.cron).value), ShadowValue(enc, r));
            (next.Ok? && Finish(next.value).Ok?) <==> !Unreadable(enc, r)
  {
    hide Trim, ShadowKey, ShadowValue, KeyOf, WellFormed, Sane, Finish, NormalizeId, Decode, ParseEnabled, ValidateCron;
    FinishRestores(r);
    var key := KeyOf(ShadowKey(r.cron).value);
    var value := ShadowValue(enc, r);
    ShadowValueHasEquals(enc, r);
    if key.Some? && key != Some(UpdatedAtKey) {
      EqualsRejected(enc, FullDraft(r), key.value, value);
    } else if key == Some(UpdatedAtKey) {
      TrimKeepsChar(value, '=');
      FinishTakes(r, Trim(value));
    }
  }
}
