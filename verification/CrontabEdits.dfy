/** Editing an installed crontab: reload after upsert or remove changes the one task and nothing else. */
module CrontabEdits {
  import opened Common
  import opened Text
  import opened CrontabRecord
  import opened CrontabRecordProofs
  import opened Crontab
  import opened CrontabTheorems

  // ---- a parsed document is well formed ----

  predicate GoodDraft(d: Draft) {
    && (d.id.Some? ==> NormalizeId(d.id.value) == Ok(d.id.value))
    && (d.cron.Some? ==> ValidateCron(d.cron.value) == Ok(d.cron.value))
    && (d.updatedAt.Some? ==> RequireValue(d.updatedAt.value) == Ok(d.updatedAt.value) && '\n' !in d.updatedAt.value)
  }

  lemma NormalizedIds(value: string)
    ensures NormalizeId(value).Ok? ==> NormalizeId(NormalizeId(value).value) == NormalizeId(value)
  {
    hide Trim;
    TrimIsTrimmed(value);
  }

  lemma ValidatedCrons(value: string)
    ensures ValidateCron(value).Ok? ==> ValidateCron(ValidateCron(value).value) == ValidateCron(value)
  {
    hide Trim;
    TrimIsTrimmed(value);
  }

  lemma TrimFlat(s: string)
    requires '\n' !in s
    ensures '\n' !in Trim(s)
  {
    var t := TrimStart(s);
    assert t == s[|s| - |t|..];
    assert Trim(s) == t[..|Trim(s)|];
  }

  lemma AssignKeepsGood(enc: Encoding, d: Draft, key: Option<Key>, value: string)
    requires GoodDraft(d) && '\n' !in value && Assign(enc, d, key, value).Ok?
    ensures GoodDraft(Assign(enc, d, key, value).value)
  {
    hide Trim, NormalizeId, ValidateCron;
    if key == Some(IdKey) {
      NormalizedIds(Trim(value));
    } else if key == Some(CronKey) {
      ValidatedCrons(enc.unurl(Trim(value)).value);
    } else if key == Some(UpdatedAtKey) {
      TrimIsTrimmed(value);
      TrimFlat(value);
    }
  }

  lemma ReadLineKeepsGood(enc: Encoding, d: Draft, line: string)
    requires GoodDraft(d) && '\n' !in line && ReadLine(enc, d, line).Ok?
    ensures GoodDraft(ReadLine(enc, d, line).value)
  {
    hide Trim, Assign, GoodDraft, KeyOf;
    TrimFlat(line);
    var trimmed := Trim(line);
    if "# " <= trimmed {
      var metadata := trimmed[2..];
      var at := Find(metadata, '=');
      if at.Some? {
        AssignKeepsGood(enc, d, KeyOf(Trim(metadata[..at.value])), metadata[at.value + 1..]);
      }
    }
  }

  lemma {:induction false} ReadLinesKeepGood(enc: Encoding, d: Draft, lines: seq<string>)
    requires GoodDraft(d) && (forall line :: line in lines ==> '\n' !in line) && ReadLines(enc, d, lines).Ok?
    ensures GoodDraft(ReadLines(enc, d, lines).value)
    decreases |lines|
  {
    hide GoodDraft, ReadLine;
    if lines != [] {
      assert lines[0] in lines;
      ReadLineKeepsGood(enc, d, lines[0]);
      ReadLinesKeepGood(enc, ReadLine(enc, d, lines[0]).value, lines[1..]);
    }
  }

  lemma ReadBodyIsWellFormed(enc: Encoding, body: seq<string>)
    requires (forall line :: line in body ==> '\n' !in line) && ReadBody(enc, body).Ok?
    ensures WellFormed(ReadBody(enc, body).value)
  {
    hide ReadLines, NormalizeId, ValidateCron, Trim;
    ReadLinesKeepGood(enc, EMPTY_DRAFT, body);
  }

  lemma {:induction false} LinesAreFlat(text: string)
    ensures forall line :: line in Lines(text) ==> '\n' !in line
    decreases |text|
  {
    if text != "" {
      var end := Find(text, '\n');
      if end.Some? {
        LinesAreFlat(text[end.value + 1..]);
        var first := StripCr(text[..end.value]);
        assert first <= text[..end.value];
      }
    }
  }

  lemma TextLinesAreFlat(text: string)
    ensures forall line :: line in TextLines(text) ==> OneLine(line)
  {
    hide Lines;
    LinesAreFlat(text);
    var lines := Lines(text);
    forall i | 0 <= i < |lines| ensures OneLine(TrimCr(lines[i])) {
      assert lines[i] in lines;
    }
  }

  lemma FlatSlice(lines: seq<string>, a: nat, b: nat)
    requires a <= b <= |lines| && forall line :: line in lines ==> OneLine(line)
    ensures forall line :: line in lines[a..b] ==> '\n' !in line
  {
    forall line | line in lines[a..b] ensures '\n' !in line {
      assert line in lines;
    }
  }

  lemma {:induction false} ReadItemsAreSafe(enc: Encoding, lines: seq<string>)
    requires forall line :: line in lines ==> OneLine(line)
    requires ReadItems(enc, lines).Ok?
    ensures Safe(ReadItems(enc, lines).value)
    decreases |lines|
  {
    hide Trim, ReadBody, WellFormed, FindEnd;
    if lines != [] {
      assert lines[0] in lines;
      if Trim(lines[0]) != CRONTAB_BEGIN {
        ReadItemsAreSafe(enc, lines[1..]);
      } else {
        var end := EndOf(enc, lines);
        FlatSlice(lines, 1, end + 1);
        ReadBodyIsWellFormed(enc, lines[1..end + 1]);
        ReadItemsAreSafe(enc, lines[end + 2..]);
      }
    }
  }

  /** Where a readable block ends. */
  lemma EndOf(enc: Encoding, lines: seq<string>) returns (end: nat)
    requires lines != [] && Trim(lines[0]) == CRONTAB_BEGIN && ReadItems(enc, lines).Ok?
    ensures FindEnd(lines[1..]) == Some(end) && end + 2 <= |lines|
    ensures ReadBody(enc, lines[1..end + 1]).Ok?
  {
    hide Trim, ReadBody;
    end := FindEnd(lines[1..]).value;
  }

  /** Whatever `parse_crontab` accepts is well formed, and already grouped the way a reload groups it. */
  lemma ParsedIsSafe(enc: Encoding, text: string)
    requires Parsed(enc, text).Ok?
    ensures Safe(Items(Parsed(enc, text).value))
    ensures Group(Items(Parsed(enc, text).value)) == Parsed(enc, text).value
  {
    hide TextLines, ReadItems, Fold, Safe;
    TextLinesAreFlat(text);
    ReadItemsAreSafe(enc, TextLines(text));
    ItemsOfFold(ReadItems(enc, TextLines(text)).value);
  }

  // ---- what an edit leaves alone ----

  predicate Untouched(item: Item, id: string) {
    !BlankItem(item) && !(item.Managed? && item.record.id == id)
  }

  /** Every non-blank foreign line and every task with another id, in order. */
  function Others(items: seq<Item>, id: string): seq<Item> {
    if items == [] then [] else (if Untouched(items[0], id) then [items[0]] else []) + Others(items[1..], id)
  }

  lemma {:induction false} OthersConcat(a: seq<Item>, b: seq<Item>, id: string)
    ensures Others(a + b, id) == Others(a, id) + Others(b, id)
    decreases |a|
  {
    hide Untouched;
    if a == [] {
      assert a + b == b;
      assert Others(a, id) == [];
    } else {
      var first := if Untouched(a[0], id) then [a[0]] else [];
      assert (a + b)[1..] == a[1..] + b && (a + b)[0] == a[0];
      OthersConcat(a[1..], b, id);
      assert Others(a, id) == first + Others(a[1..], id);
      assert Others(a + b, id) == first + (Others(a[1..], id) + Others(b, id));
    }
  }

  lemma OthersOne(item: Item, id: string)
    ensures Others([item], id) == if Untouched(item, id) then [item] else []
  {
    assert [item][1..] == [];
  }

  lemma {:induction false} OthersOfDrop(items: seq<Item>, id: string)
    ensures Others(DropItems(items), id) == Others(items, id)
  {
    hide BlankItem;
    if items != [] && BlankItem(items[0]) {
      OthersOfDrop(items[1..], id);
    }
  }

  lemma {:induction false} OthersOfChop(items: seq<Item>, id: string)
    ensures Others(ChopItems(items), id) == Others(items, id)
    decreases |items|
  {
    hide BlankItem;
    if items != [] && BlankItem(items[|items| - 1]) {
      var init, last := items[..|items| - 1], items[|items| - 1];
      OthersOfChop(init, id);
      assert items == init + [last];
      OthersConcat(init, [last], id);
      OthersOne(last, id);
    }
  }

  lemma OthersOfTrim(items: seq<Item>, id: string)
    ensures Others(TrimItems(items), id) == Others(items, id)
  {
    OthersOfDrop(items, id);
    OthersOfChop(DropItems(items), id);
  }

  lemma SplitAt(segments: seq<Segment>, at: nat)
    requires at < |segments| && segments[at].Task?
    ensures Items(segments) == Items(segments[..at]) + [Managed(segments[at].record)] + Items(segments[at + 1..])
  {
    assert segments == segments[..at] + [segments[at]] + segments[at + 1..];
    ItemsConcat(segments[..at] + [segments[at]], segments[at + 1..]);
    ItemsConcat(segments[..at], [segments[at]]);
    ItemsOne(segments[at]);
  }

  /** Where an upserted record lands: in the place of the first task with its id, or at the end. */
  lemma UpsertedItems(segments: seq<Segment>, record: Record)
    ensures exists before, target, after: seq<Item> ::
              && Items(segments) == before + target + after
              && Items(Upserted(segments, record)) == before + [Managed(record)] + after
              && (target == [] ==> after == [])
              && (target != [] ==> |target| == 1 && target[0].Managed? && target[0].record.id == record.id)
              && (forall item :: item in before && item.Managed? ==> item.record.id != record.id)
  {
    var at := FindTask(segments, record.id);
    if at.Some? {
      var i := at.value;
      var next := Upserted(segments, record);
      SplitAt(segments, i);
      SplitAt(next, i);
      assert next[..i] == segments[..i] && next[i + 1..] == segments[i + 1..];
      NoTaskBefore(segments[..i], record.id);
      var before, target, after := Items(segments[..i]), [Managed(segments[i].record)], Items(segments[i + 1..]);
      assert Items(segments) == before + target + after;
    } else {
      ItemsConcat(segments, [Task(record)]);
      ItemsOne(Task(record));
      NoTaskBefore(segments, record.id);
      var before, target, after := Items(segments), [], [];
      assert Items(segments) == before + target + after;
      assert Items(Upserted(segments, record)) == before + [Managed(record)] + after;
    }
  }

  lemma {:induction false} NoTaskBefore(segments: seq<Segment>, id: string)
    requires forall i :: 0 <= i < |segments| && segments[i].Task? ==> segments[i].record.id != id
    ensures forall item :: item in Items(segments) && item.Managed? ==> item.record.id != id
  {
    if segments != [] {
      NoTaskBefore(segments[1..], id);
    }
  }

  lemma UpsertKeepsOthers(segments: seq<Segment>, record: Record)
    ensures Others(Items(Upserted(segments, record)), record.id) == Others(Items(segments), record.id)
    ensures Managed(record) in Items(Upserted(segments, record))
    ensures forall item :: item in Items(Upserted(segments, record)) ==>
              item == Managed(record) || item in Items(segments)
  {
    hide Items, Upserted;
    UpsertedItems(segments, record);
    var before, target, after :|
      && Items(segments) == before + target + after
      && Items(Upserted(segments, record)) == before + [Managed(record)] + after
      && (target != [] ==> |target| == 1 && target[0].Managed? && target[0].record.id == record.id);
    ReplaceKeepsOthers(before, target, [Managed(record)], after, record.id);
  }

  lemma ReplaceKeepsOthers(before: seq<Item>, target: seq<Item>, new_: seq<Item>, after: seq<Item>, id: string)
    requires Others(target, id) == [] || (|target| == 1 && !Untouched(target[0], id))
    requires |new_| == 1 && !Untouched(new_[0], id)
    ensures Others(before + new_ + after, id) == Others(before + target + after, id)
  {
    hide Untouched;
    OthersConcat(before + target, after, id);
    OthersConcat(before, target, id);
    OthersConcat(before + new_, after, id);
    OthersConcat(before, new_, id);
    assert new_ == [new_[0]];
    OthersOne(new_[0], id);
    if |target| == 1 {
      assert target == [target[0]];
      OthersOne(target[0], id);
    }
  }

  lemma {:induction false} RemoveKeepsOthers(segments: seq<Segment>, id: string)
    ensures Others(Items(Removed(segments, id)), id) == Others(Items(segments), id)
    ensures forall item :: item in Items(Removed(segments, id)) ==>
              item in Items(segments) && !(item.Managed? && item.record.id == id)
  {
    hide AsItems;
    if segments != [] {
      var first, rest := segments[0], segments[1..];
      RemoveKeepsOthers(rest, id);
      assert segments == [first] + rest;
      ItemsConcat([first], rest);
      ItemsOne(first);
      OthersConcat(Items([first]), Items(rest), id);
      if first.Task? && first.record.id == id {
        assert Removed(segments, id) == Removed(rest, id);
        OthersOne(Managed(first.record), id);
      } else {
        ItemsConcat([first], Removed(rest, id));
        OthersConcat(Items([first]), Items(Removed(rest, id)), id);
        LinesOnly(first);
      }
    }
  }

  lemma LinesOnly(segment: Segment)
    ensures segment.Raw? ==> forall item :: item in AsItems(segment.lines) ==> item.Line?
  {
  }

  /** The documents before and after an edit agree on everything but one task. */
  ghost predicate SameElsewhere(a: seq<Segment>, b: seq<Segment>, id: string) {
    Others(Items(a), id) == Others(Items(b), id)
  }

  /** Upsert, install, reload: the edited document comes back, blank lines included but for the outer ones; the
      record is there, and every other task and every non-blank foreign line is where it was. */
  lemma UpsertIsLocal(enc: Encoding, text: string, record: Record)
    requires Sane(enc) && Parsed(enc, text).Ok? && WellFormed(record)
    requires Unshadowed(enc, Items(Parsed(enc, text).value)) && !Shadowed(enc, record)
    ensures var doc := Parsed(enc, text).value;
            var edited := Upserted(doc, record);
            var again := Parsed(enc, Rendered(enc, edited));
            again == Ok(Group(TrimItems(Items(edited))))
            && again.Ok? && SameElsewhere(doc, again.value, record.id) && Managed(record) in Items(again.value)
  {
    hide Parsed, Rendered, Upserted, Sane, WellFormed, Shadowed, Items, Group, Others;
    var doc := Parsed(enc, text).value;
    var edited := Upserted(doc, record);
    ParsedIsSafe(enc, text);
    UpsertKeepsOthers(doc, record);
    RoundTrip(enc, edited);
    ItemsOfFold(TrimItems(Items(edited)));
    OthersOfTrim(Items(edited), record.id);
    TrimSubset(Items(edited));
  }

  /** Remove, install, reload: the edited document comes back; no task has the id any more, and everything else is
      where it was. */
  lemma RemoveIsLocal(enc: Encoding, text: string, id: string)
    requires Sane(enc) && Parsed(enc, text).Ok? && Unshadowed(enc, Items(Parsed(enc, text).value))
    ensures var doc := Parsed(enc, text).value;
            var edited := Removed(doc, id);
            var again := Parsed(enc, Rendered(enc, edited));
            again == Ok(Group(TrimItems(Items(edited))))
            && again.Ok? && SameElsewhere(doc, again.value, id)
            && forall item :: item in Items(again.value) && item.Managed? ==> item.record.id != id
  {
    hide Parsed, Rendered, Removed, Sane, WellFormed, Shadowed, Items, Group, Others;
    var doc := Parsed(enc, text).value;
    var edited := Removed(doc, id);
    ParsedIsSafe(enc, text);
    RemoveKeepsOthers(doc, id);
    RoundTrip(enc, edited);
    ItemsOfFold(TrimItems(Items(edited)));
    OthersOfTrim(Items(edited), id);
    TrimSubset(Items(edited));
  }

  /** A task that the input checks accept and that a reload cannot read: its cron line shows an `id` key. */
  lemma ShadowingHappens(enc: Encoding)
    ensures var r := Record("a", "n", "# id=x y z w", "c", true, "0");
            WellFormed(r) && Shadowed(enc, r) && (Sane(enc) ==> Parsed(enc, Rendered(enc, [Task(r)])).Err?)
  {
    hide ValidateCron, Trim, EscapePercent, RunCommand, ShadowKey, KeyOf, WellFormed, Sane, Parsed, Rendered;
    var r := Record("a", "n", "# id=x y z w", "c", true, "0");
    ShadowingCron();
    KeyNames();
    ShortRecord(r);
    if Sane(enc) {
      ItemsOne(Task(r));
      assert Managed(r) in Items([Task(r)]);
      ReloadFailsExactly(enc, [Task(r)]);
    }
  }

  lemma ShortRecord(r: Record)
    requires r.id == "a" && r.name == "n" && r.command == "c" && r.updatedAt == "0"
    requires ValidateCron(r.cron) == Ok(r.cron)
    ensures WellFormed(r)
  {
    hide ValidateCron, Trim;
    TrimOne('a');
    TrimOne('n');
    TrimOne('c');
    TrimOne('0');
  }

  lemma TrimOne(c: char)
    requires !IsWhitespace(c)
    ensures Trim([c]) == [c]
  {
    TrimKeeps([c]);
  }

  lemma ShadowingCron()
    ensures ValidateCron("# id=x y z w") == Ok("# id=x y z w") && ShadowKey("# id=x y z w") == Some("id")
  {
    hide Fields, Trim, ShadowKey;
    var cron := "# id=x y z w";
    ShadowingKey(cron);
    CronTrimmed(cron);
    FiveFields(cron);
  }

  lemma CronTrimmed(cron: string)
    requires cron == "# id=x y z w"
    ensures Trim(cron) == cron && '\n' !in cron && '\r' !in cron && '\0' !in cron
  {
    hide Trim;
    TrimKeeps(cron);
  }

  lemma ShadowingKey(cron: string)
    requires cron == "# id=x y z w"
    ensures ShadowKey(cron) == Some("id")
  {
    hide Trim, Find;
    assert cron[2..][..2] == "id";
    FindUnique(cron[2..], '=', 2);
    TrimSolid("id");
  }

  lemma {:induction false} FieldsWord(word: string, rest: string, inField: bool)
    requires word != "" && forall i :: 0 <= i < |word| ==> !IsWhitespace(word[i])
    ensures Fields(word + " " + rest, inField) == (if inField then 0 else 1) + Fields(rest, false)
    decreases |word|
  {
    hide IsWhitespace;
    var text := word + " " + rest;
    assert IsWhitespace(' ') by { SpaceIsWhitespace(); }
    assert text[1..] == word[1..] + " " + rest;
    if |word| == 1 {
      assert text[1..][0] == ' ' && text[1..][1..] == rest;
    } else {
      FieldsWord(word[1..], rest, true);
    }
  }

  lemma SpaceIsWhitespace()
    ensures IsWhitespace(' ')
  {
  }

  lemma LastField(c: char)
    requires !IsWhitespace(c)
    ensures Fields([c], false) == 1
  {
    assert [c][1..] == "";
  }

  lemma FiveFields(cron: string)
    requires cron == "# id=x y z w"
    ensures Fields(cron, false) == 5
  {
    hide Fields;
    FieldsWord("#", "id=x y z w", false);
    FieldsWord("id=x", "y z w", false);
    FieldsWord("y", "z w", false);
    FieldsWord("z", "w", false);
    LastField('w');
    assert cron == "#" + " " + "id=x y z w";
    assert "id=x y z w" == "id=x" + " " + "y z w";
    assert "y z w" == "y" + " " + "z w";
    assert "z w" == "z" + " " + "w";
  }
}
