/** What `parse_script_args` accepts, as a grammar of its own: whitespace between words, and words made of plain
    characters, escaped characters, single quotations and double quotations. */
module ShellGrammar {
  import opened Common
  import opened Text
  import opened ShellQuoting

  /** One character between double quotes. */
  datatype Quoted = Bare(c: char) | Backslashed(c: char)

  datatype Token =
    | Space(c: char)
    | Plain(c: char)
    | Escaped(c: char)
    | Single(text: string)
    | Double(chars: seq<Quoted>)

  predicate ProperQuoted(chars: seq<Quoted>) {
    forall i :: 0 <= i < |chars| && chars[i].Bare? ==> chars[i].c != '"' && chars[i].c != '\\'
  }

  predicate ProperToken(t: Token) {
    match t
    case Space(c) => IsWhitespace(c)
    case Plain(c) => !IsWhitespace(c) && c != '\'' && c != '"' && c != '\\'
    case Escaped(_) => true
    case Single(text) => '\'' !in text
    case Double(chars) => ProperQuoted(chars)
  }

  predicate Proper(tokens: seq<Token>) {
    forall i :: 0 <= i < |tokens| ==> ProperToken(tokens[i])
  }

  function QuotedText(chars: seq<Quoted>): string {
    if chars == [] then ""
    else (match chars[0] case Bare(c) => [c] case Backslashed(c) => ['\\', c]) + QuotedText(chars[1..])
  }

  function QuotedValue(chars: seq<Quoted>): string {
    if chars == [] then "" else [chars[0].c] + QuotedValue(chars[1..])
  }

  function TokenText(t: Token): string {
    match t
    case Space(c) => [c]
    case Plain(c) => [c]
    case Escaped(c) => ['\\', c]
    case Single(text) => "'" + text + "'"
    case Double(chars) => "\"" + QuotedText(chars) + "\""
  }

  /** What a token other than a space adds to its word. */
  function TokenValue(t: Token): string {
    match t
    case Space(_) => ""
    case Plain(c) => [c]
    case Escaped(c) => [c]
    case Single(text) => text
    case Double(chars) => QuotedValue(chars)
  }

  function TextOf(tokens: seq<Token>): string {
    if tokens == [] then "" else TokenText(tokens[0]) + TextOf(tokens[1..])
  }

  /** The words: what stands between spaces. `open` is the word that is being put together. */
  function WordsOf(tokens: seq<Token>, open: Option<string>): seq<string> {
    if tokens == [] then (if open.Some? then [open.value] else [])
    else if tokens[0].Space? then (if open.Some? then [open.value] else []) + WordsOf(tokens[1..], None)
    else WordsOf(tokens[1..], Some((if open.Some? then open.value else "") + TokenValue(tokens[0])))
  }

  // ---- the scanner reads the grammar ----

  /** The scanner outside quotations. */
  function Outside(done: seq<string>, open: Option<string>): Scanner {
    Scanner(done, if open.Some? then open.value else "", None, false, open.Some?)
  }

  lemma ScanOne(s: Scanner, c: char)
    ensures ScanAll(s, [c]) == Scan(s, c)
  {
    assert [c][1..] == "";
  }

  lemma ScanTwo(s: Scanner, a: char, b: char)
    requires Scan(s, a).Ok?
    ensures ScanAll(s, [a, b]) == Scan(Scan(s, a).value, b)
  {
    assert [a, b][1..] == [b];
    ScanOne(Scan(s, a).value, b);
  }

  lemma {:induction false} ScanSingle(s: Scanner, text: string)
    requires s.quote == Some('\'') && !s.escaped && '\'' !in text
    ensures ScanAll(s, text) == Ok(s.(current := s.current + text))
    decreases |text|
  {
    if text == "" {
      assert s.current + text == s.current;
    } else {
      assert text[0] in text;
      var next := s.(current := s.current + [text[0]]);
      ScanSingle(next, text[1..]);
      assert s.current + [text[0]] + text[1..] == s.current + text;
    }
  }

  lemma {:induction false} ScanDouble(s: Scanner, chars: seq<Quoted>)
    requires s.quote == Some('"') && !s.escaped && s.started && ProperQuoted(chars)
    ensures ScanAll(s, QuotedText(chars)) == Ok(s.(current := s.current + QuotedValue(chars)))
    decreases |chars|
  {
    hide Scan, ScanAll;
    if chars == [] {
      assert s.current + "" == s.current;
      ScanNothing(s);
    } else {
      var first := match chars[0] case Bare(c) => [c] case Backslashed(c) => ['\\', c];
      var next := s.(current := s.current + [chars[0].c]);
      ScanConcat(s, first, QuotedText(chars[1..]));
      ScanInDouble(s, chars[0]);
      ScanDouble(next, chars[1..]);
      MoreValue(s.current, chars);
    }
  }

  lemma MoreValue(current: string, chars: seq<Quoted>)
    requires chars != []
    ensures current + [chars[0].c] + QuotedValue(chars[1..]) == current + QuotedValue(chars)
  {
  }

  lemma ScanInDouble(s: Scanner, q: Quoted)
    requires s.quote == Some('"') && !s.escaped && s.started && (q.Bare? ==> q.c != '"' && q.c != '\\')
    ensures ScanAll(s, match q case Bare(c) => [c] case Backslashed(c) => ['\\', c]) ==
            Ok(s.(current := s.current + [q.c]))
  {
    if q.Bare? {
      ScanOne(s, q.c);
    } else {
      ScanTwo(s, '\\', q.c);
    }
  }

  lemma ScanQuotation(s: Scanner, q: char, inside: string, value: string)
    requires s.quote.None? && !s.escaped && (q == '\'' || q == '"')
    requires ScanAll(s.(quote := Some(q), started := true), inside) ==
             Ok(s.(quote := Some(q), started := true, current := s.current + value))
    ensures ScanAll(s, [q] + inside + [q]) == Ok(s.(started := true, current := s.current + value))
  {
    var open := s.(quote := Some(q), started := true);
    ScanConcat(s, [q] + inside, [q]);
    ScanConcat(s, [q], inside);
    ScanOne(s, q);
    ScanOne(open.(current := s.current + value), q);
  }

  /** One token moves the scanner by one token. */
  lemma ScanToken(done: seq<string>, open: Option<string>, t: Token)
    requires ProperToken(t)
    ensures ScanAll(Outside(done, open), TokenText(t)) ==
            Ok(if !t.Space? then Outside(done, Some((if open.Some? then open.value else "") + TokenValue(t)))
               else Outside(done + (if open.Some? then [open.value] else []), None))
  {
    var s := Outside(done, open);
    hide ScanAll, QuotedText, QuotedValue, IsWhitespace;
    match t
    case Space(c) =>
      ScanOne(s, c);
      QuotesAreNoSpaces();
      assert done + [] == done;
    case Plain(c) => ScanOne(s, c);
    case Escaped(c) => ScanTwo(s, '\\', c);
    case Single(text) =>
      ScanSingle(s.(quote := Some('\''), started := true), text);
      ScanQuotation(s, '\'', text, text);
    case Double(chars) =>
      ScanDouble(s.(quote := Some('"'), started := true), chars);
      ScanQuotation(s, '"', QuotedText(chars), QuotedValue(chars));
  }

  lemma QuotesAreNoSpaces()
    ensures !IsWhitespace('\'') && !IsWhitespace('"') && !IsWhitespace('\\')
  {
  }

  lemma {:induction false} ScanTokens(done: seq<string>, open: Option<string>, tokens: seq<Token>)
    requires Proper(tokens)
    ensures ScanAll(Outside(done, open), TextOf(tokens)).Ok?
    ensures Close(ScanAll(Outside(done, open), TextOf(tokens)).value) == Ok(done + WordsOf(tokens, open))
    decreases |tokens|
  {
    hide TokenText, ProperToken, TokenValue;
    if tokens == [] {
      assert done + [] == done;
    } else {
      ScanConcat(Outside(done, open), TokenText(tokens[0]), TextOf(tokens[1..]));
      ScanToken(done, open, tokens[0]);
      if tokens[0].Space? {
        var ended := if open.Some? then [open.value] else [];
        ScanTokens(done + ended, None, tokens[1..]);
        assert done + ended + WordsOf(tokens[1..], None) == done + WordsOf(tokens, open);
      } else {
        ScanTokens(done, Some((if open.Some? then open.value else "") + TokenValue(tokens[0])), tokens[1..]);
      }
    }
  }

  // ---- whatever it accepts is of the grammar ----

  /** A single quotation that is closed before the end. */
  lemma {:induction false} SingleCloses(s: Scanner, text: string)
    requires s.quote == Some('\'') && !s.escaped && ScanAll(s, text).Ok? && Close(ScanAll(s, text).value).Ok?
    ensures Find(text, '\'').Some?
  {
    if Find(text, '\'').None? {
      ScanSingle(s, text);
    }
  }

  /** The characters of a double quotation that is closed before the end, and what follows them. */
  lemma {:induction false} DoubleCloses(s: Scanner, text: string) returns (chars: seq<Quoted>, rest: string)
    requires s.quote == Some('"') && !s.escaped && ScanAll(s, text).Ok? && Close(ScanAll(s, text).value).Ok?
    ensures ProperQuoted(chars) && text == QuotedText(chars) + "\"" + rest
    decreases |text|
  {
    if text[0] == '"' {
      chars, rest := [], text[1..];
    } else if text[0] == '\\' {
      assert |text| > 1;
      var next := Scan(s, '\\').value;
      assert ScanAll(s, text) == ScanAll(next, text[1..]);
      var after := Scan(next, text[1]).value;
      assert ScanAll(next, text[1..]) == ScanAll(after, text[1..][1..]);
      chars, rest := DoubleCloses(after, text[1..][1..]);
      assert text == ['\\', text[1]] + text[1..][1..];
      var first := Backslashed(text[1]);
      assert ([first] + chars)[1..] == chars;
      chars := [first] + chars;
    } else {
      assert ScanAll(s, text) == ScanAll(Scan(s, text[0]).value, text[1..]);
      chars, rest := DoubleCloses(Scan(s, text[0]).value, text[1..]);
      assert text == [text[0]] + text[1..];
      var first := Bare(text[0]);
      assert ([first] + chars)[1..] == chars;
      chars := [first] + chars;
    }
  }

  lemma SingleToken(s: Scanner, text: string) returns (t: Token, rest: string)
    requires s.quote == Some('\'') && !s.escaped && ScanAll(s, text).Ok? && Close(ScanAll(s, text).value).Ok?
    ensures ProperToken(t) && "'" + text == TokenText(t) + rest && !t.Space?
  {
    SingleCloses(s, text);
    hide ScanAll, Close;
    var at := Find(text, '\'').value;
    t, rest := Single(text[..at]), text[at + 1..];
    assert text == text[..at] + "'" + text[at + 1..];
  }

  lemma DoubleToken(s: Scanner, text: string) returns (t: Token, rest: string)
    requires s.quote == Some('"') && !s.escaped && ScanAll(s, text).Ok? && Close(ScanAll(s, text).value).Ok?
    ensures ProperToken(t) && "\"" + text == TokenText(t) + rest && !t.Space?
  {
    var chars;
    chars, rest := DoubleCloses(s, text);
    hide ScanAll, Close, QuotedText, ProperQuoted;
    t := Double(chars);
    assert "\"" + (QuotedText(chars) + "\"" + rest) == "\"" + QuotedText(chars) + "\"" + rest;
  }

  /** The first token of an accepted text. */
  lemma FirstToken(done: seq<string>, open: Option<string>, text: string) returns (t: Token, rest: string)
    requires text != "" && ScanAll(Outside(done, open), text).Ok?
    requires Close(ScanAll(Outside(done, open), text).value).Ok?
    ensures ProperToken(t) && text == TokenText(t) + rest
  {
    hide IsWhitespace, QuotedText, QuotedValue, ProperQuoted;
    var s := Outside(done, open);
    var c := text[0];
    rest := text[1..];
    assert text == [c] + rest;
    assert ScanAll(s, text) == ScanAll(Scan(s, c).value, rest);
    if c == '\\' {
      assert rest != "";
      t := Escaped(rest[0]);
      assert rest == [rest[0]] + rest[1..];
      rest := rest[1..];
    } else if c == '\'' {
      t, rest := SingleToken(Scan(s, c).value, rest);
    } else if c == '"' {
      t, rest := DoubleToken(Scan(s, c).value, rest);
    } else if IsWhitespace(c) {
      t := Space(c);
    } else {
      t := Plain(c);
    }
  }

  lemma {:induction false} Tokenize(done: seq<string>, open: Option<string>, text: string)
    returns (tokens: seq<Token>)
    requires ScanAll(Outside(done, open), text).Ok? && Close(ScanAll(Outside(done, open), text).value).Ok?
    ensures Proper(tokens) && TextOf(tokens) == text
    decreases |text|
  {
    hide ScanAll, Close, ProperToken, TokenText, TokenValue;
    tokens := [];
    if text != "" {
      var t, rest := FirstToken(done, open, text);
      ScanConcat(Outside(done, open), TokenText(t), rest);
      ScanToken(done, open, t);
      TokensAreLong(t);
      if t.Space? {
        tokens := Tokenize(done + (if open.Some? then [open.value] else []), None, rest);
      } else {
        tokens := Tokenize(done, Some((if open.Some? then open.value else "") + TokenValue(t)), rest);
      }
      assert ([t] + tokens)[1..] == tokens;
      tokens := [t] + tokens;
    }
  }

  lemma TokensAreLong(t: Token)
    ensures TokenText(t) != ""
  {
  }

  ghost predicate Spells(tokens: seq<Token>, text: string) {
    Proper(tokens) && TextOf(tokens) == text
  }

  /** Arguments are parsed exactly by the grammar: a text is accepted if and only if it can be split into tokens, and
      the arguments are then the words of the tokens. */
  lemma ArgumentsAreWords(text: string, args: seq<string>)
    ensures Arguments(text) == Ok(args) <==> exists tokens :: Spells(tokens, text) && WordsOf(tokens, None) == args
  {
    hide ScanAll, Close, WordsOf, TextOf, Proper;
    assert START == Outside([], None);
    if Arguments(text).Ok? {
      var tokens := Tokenize([], None, text);
      ScanTokens([], None, tokens);
      assert Spells(tokens, text);
      assert [] + WordsOf(tokens, None) == WordsOf(tokens, None);
    }
    forall tokens | Spells(tokens, text) ensures Arguments(text) == Ok(WordsOf(tokens, None)) {
      ScanTokens([], None, tokens);
      assert [] + WordsOf(tokens, None) == WordsOf(tokens, None);
    }
  }
}
