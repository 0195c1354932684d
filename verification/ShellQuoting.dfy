/** `quote_posix_shell` and `parse_script_args`: a printer and the parser that reads it back. */
module ShellQuoting {
  import opened Common
  import opened Text

  /** `replace('\'', "'\\''")`: close the quote, an escaped quote, open it again. */
  function EscapeQuotes(s: string): string {
    if s == "" then "" else (if s[0] == '\'' then "'\\''" else [s[0]]) + EscapeQuotes(s[1..])
  }

  /** `quote_posix_shell`. */
  function Quote(s: string): string {
    if s == "" then "''" else "'" + EscapeQuotes(s) + "'"
  }

  datatype ArgsError = InvalidArgs

  /** The five variables of the parsing loop. */
  datatype Scanner = Scanner(
    arguments: seq<string>,
    current: string,
    quote: Option<char>,
    escaped: bool,
    started: bool)

  const START := Scanner([], "", None, false, false)

  /** One turn of the loop. Quote markers other than the two are an error in the source; none arises. */
  function Scan(s: Scanner, c: char): Result<Scanner, ArgsError> {
    if s.escaped then Ok(s.(current := s.current + [c], escaped := false, started := true))
    else if s.quote == Some('\'') then
      Ok(if c == '\'' then s.(quote := None) else s.(current := s.current + [c]))
    else if s.quote == Some('"') then
      Ok(if c == '"' then s.(quote := None)
         else if c == '\\' then s.(escaped := true)
         else s.(current := s.current + [c]))
    else if s.quote.Some? then Err(InvalidArgs)
    else if c == '\\' then Ok(s.(escaped := true, started := true))
    else if c == '\'' || c == '"' then Ok(s.(quote := Some(c), started := true))
    else if IsWhitespace(c) then
      Ok(if s.started then s.(arguments := s.arguments + [s.current], current := "", started := false) else s)
    else Ok(s.(current := s.current + [c], started := true))
  }

  function ScanAll(s: Scanner, text: string): Result<Scanner, ArgsError>
    decreases |text|
  {
    if text == "" then Ok(s)
    else
      var next :- Scan(s, text[0]);
      ScanAll(next, text[1..])
  }

  /** The checks after the loop. */
  function Close(s: Scanner): Result<seq<string>, ArgsError> {
    if s.escaped || s.quote.Some? then Err(InvalidArgs)
    else Ok(if s.started then s.arguments + [s.current] else s.arguments)
  }

  function Arguments(text: string): Result<seq<string>, ArgsError> {
    var end :- ScanAll(START, text);
    Close(end)
  }

  /** `parse_script_args`. */
  method ParseScriptArgs(value: string) returns (r: Result<seq<string>, ArgsError>)
    ensures r == Arguments(value)
  {
    var s := START;
    for i := 0 to |value|
      invariant ScanAll(START, value) == ScanAll(s, value[i..])
    {
      assert value[i..][1..] == value[i + 1..];
      s :- Scan(s, value[i]);
    }
    assert value[|value|..] == "";
    r := Close(s);
  }

  lemma {:induction false} ScanConcat(s: Scanner, a: string, b: string)
    ensures ScanAll(s, a + b) == var mid := ScanAll(s, a); if mid.Err? then mid else ScanAll(mid.value, b)
    decreases |a|
  {
    if a == "" {
      assert a + b == b;
    } else {
      assert (a + b)[1..] == a[1..] + b;
      var next := Scan(s, a[0]);
      if next.Ok? {
        ScanConcat(next.value, a[1..], b);
      }
    }
  }

  predicate ProperQuote(s: Scanner) {
    s.quote.None? || s.quote.value == '\'' || s.quote.value == '"'
  }

  /** The "unsupported quote marker" error is unreachable: scanning never fails before the end. */
  lemma {:induction false} ScanNeverFails(s: Scanner, text: string)
    requires ProperQuote(s)
    ensures ScanAll(s, text).Ok? && ProperQuote(ScanAll(s, text).value)
    decreases |text|
  {
    if text != "" {
      ScanNeverFails(Scan(s, text[0]).value, text[1..]);
    }
  }

  /** Reading escaped text inside single quotes appends the text itself. */
  lemma {:induction false} ScanEscaped(s: Scanner, text: string)
    requires s.quote == Some('\'') && !s.escaped && s.started
    ensures ScanAll(s, EscapeQuotes(text)) == Ok(s.(current := s.current + text))
    decreases |text|
  {
    if text == "" {
      assert s.current + text == s.current;
    } else {
      var next := s.(current := s.current + [text[0]]);
      ScanConcat(s, if text[0] == '\'' then "'\\''" else [text[0]], EscapeQuotes(text[1..]));
      if text[0] == '\'' {
        ScanQuoteEscape(s);
      } else {
        assert [text[0]][1..] == "";
        assert ScanAll(s, [text[0]]) == Ok(next);
      }
      ScanEscaped(next, text[1..]);
      assert s.current + [text[0]] + text[1..] == s.current + text;
    }
  }

  lemma ScanQuoteEscape(s: Scanner)
    requires s.quote == Some('\'') && !s.escaped && s.started
    ensures ScanAll(s, "'\\''") == Ok(s.(current := s.current + "'"))
  {
    var e := "'\\''";
    assert e[1..] == "\\''" && e[1..][1..] == "''" && e[1..][1..][1..] == "'" && e[1..][1..][1..][1..] == "";
    var s1 := Scan(s, '\'').value;
    var s2 := Scan(s1, '\\').value;
    var s3 := Scan(s2, '\'').value;
    assert ScanAll(s3, "'") == Scan(s3, '\'');
    assert ScanAll(s2, "''") == ScanAll(s3, "'");
    assert ScanAll(s1, "\\''") == ScanAll(s2, "''");
  }

  /** A quotation is added to the current argument. */
  lemma ScanQuotedOn(arguments: seq<string>, current: string, started: bool, arg: string)
    ensures ScanAll(Scanner(arguments, current, None, false, started), Quote(arg))
         == Ok(Scanner(arguments, current + arg, None, false, true))
  {
    var s := Scanner(arguments, current, None, false, started);
    var inside := Scanner(arguments, current, Some('\''), false, true);
    var after := Scanner(arguments, current + arg, Some('\''), false, true);
    assert Quote(arg) == "'" + (EscapeQuotes(arg) + "'");
    ScanConcat(s, "'", EscapeQuotes(arg) + "'");
    assert "'"[1..] == "";
    assert ScanAll(s, "'") == Ok(inside);
    ScanConcat(inside, EscapeQuotes(arg), "'");
    ScanEscaped(inside, arg);
    assert ScanAll(after, "'") == Ok(Scanner(arguments, current + arg, None, false, true));
  }

  /** One quoted argument becomes the current argument, empty ones included. */
  lemma ScanQuoted(arguments: seq<string>, arg: string)
    ensures ScanAll(Scanner(arguments, "", None, false, false), Quote(arg))
         == Ok(Scanner(arguments, arg, None, false, true))
  {
    ScanQuotedOn(arguments, "", false, arg);
    assert "" + arg == arg;
  }

  function QuoteAll(args: seq<string>): seq<string> {
    if args == [] then [] else [Quote(args[0])] + QuoteAll(args[1..])
  }

  lemma JoinSingle(args: seq<string>)
    requires |args| == 1
    ensures Join(QuoteAll(args), " ") == Quote(args[0])
  {
    hide Quote;
    assert QuoteAll(args[1..]) == [];
  }

  lemma JoinQuoted(args: seq<string>)
    requires |args| > 1
    ensures Join(QuoteAll(args), " ") == Quote(args[0]) + (" " + Join(QuoteAll(args[1..]), " "))
  {
    hide Quote, Join;
    assert QuoteAll(args)[1..] == QuoteAll(args[1..]);
    var parts := QuoteAll(args);
    assert |parts| > 1 by {
      assert |QuoteAll(args[1..])| > 0;
    }
    JoinStep(parts, " ");
  }

  /** A space after a quoted argument ends that argument. */
  lemma ScanSeparator(arguments: seq<string>, arg: string, rest: string)
    ensures ScanAll(Scanner(arguments, arg, None, false, true), " " + rest)
         == ScanAll(Scanner(arguments + [arg], "", None, false, false), rest)
  {
    var read := Scanner(arguments, arg, None, false, true);
    assert (" " + rest)[1..] == rest;
    assert Scan(read, ' ') == Ok(Scanner(arguments + [arg], "", None, false, false));
  }

  lemma {:induction false} ScanJoined(done: seq<string>, args: seq<string>)
    requires args != []
    ensures ScanAll(Scanner(done, "", None, false, false), Join(QuoteAll(args), " "))
         == Ok(Scanner(done + args[..|args| - 1], args[|args| - 1], None, false, true))
    decreases |args|
  {
    hide Quote, QuoteAll, Join, Scan, ScanAll;
    var s := Scanner(done, "", None, false, false);
    ScanQuoted(done, args[0]);
    if |args| == 1 {
      JoinSingle(args);
      assert done + args[..0] == done;
    } else {
      var rest := args[1..];
      var tail := Join(QuoteAll(rest), " ");
      JoinQuoted(args);
      ScanConcat(s, Quote(args[0]), " " + tail);
      ScanSeparator(done, args[0], tail);
      ScanJoined(done + [args[0]], rest);
      assert done + [args[0]] + rest[..|rest| - 1] == done + args[..|args| - 1];
    }
  }

  /** Quoting round trip: for every list of strings, parsing the space-joined quotations gives it back. */
  lemma QuotingRoundTrip(args: seq<string>)
    ensures Arguments(Join(QuoteAll(args), " ")) == Ok(args)
  {
    if args != [] {
      ScanJoined([], args);
      assert [] + args[..|args| - 1] + [args[|args| - 1]] == args;
    }
  }

  /** Quoting what was parsed and parsing it again changes nothing. */
  lemma RequotingIsStable(value: string)
    requires Arguments(value).Ok?
    ensures Arguments(Join(QuoteAll(Arguments(value).value), " ")) == Arguments(value)
  {
    QuotingRoundTrip(Arguments(value).value);
  }

  /** The part of `build_execute_script_command` that runs the script. */
  function ScriptCall(interpreter: string, remotePath: string, args: seq<string>): string {
    Quote(interpreter) + " " + Quote(remotePath) + " " + Join(QuoteAll(args), " ")
  }

  /** `build_execute_script_command`. */
  function ExecuteScriptCommand(remotePath: string, interpreter: Option<string>,
                                args: Option<string>): Result<string, ArgsError>
  {
    var parsed :- Arguments(if args.Some? then args.value else "");
    Ok("chmod +x " + Quote(remotePath) + " && "
       + ScriptCall(Trim(if interpreter.Some? then interpreter.value else "sh"), remotePath, parsed)
       + " ; status=$?; rm -f " + Quote(remotePath) + "; exit $status")
  }

  /** The words of the script call are the interpreter, the path and the arguments as they were parsed,
      whatever characters they hold. */
  lemma ScriptCallWords(interpreter: string, remotePath: string, args: seq<string>)
    ensures Arguments(ScriptCall(interpreter, remotePath, args)) == Ok([interpreter, remotePath] + args)
  {
    hide Quote, Join, ScanAll, Scan;
    var head := [interpreter, remotePath];
    if args == [] {
      var joined := Join(QuoteAll(head), " ");
      assert ScriptCall(interpreter, remotePath, args) == joined + " " by {
        JoinTwo(interpreter, remotePath);
        JoinNone();
      }
      ScanJoined([], head);
      assert [] + head[..1] == [interpreter];
      ScanConcat(START, joined, " ");
      ScanSeparator([interpreter], remotePath, "");
      ScanNothing(Scanner([interpreter] + [remotePath], "", None, false, false));
      assert " " + "" == " ";
      assert [interpreter] + [remotePath] == head + args;
    } else {
      var all := head + args;
      assert all[1..] == [remotePath] + args && all[1..][1..] == args;
      JoinQuoted(all);
      JoinQuoted(all[1..]);
      assert ScriptCall(interpreter, remotePath, args) == Join(QuoteAll(all), " ");
      QuotingRoundTrip(all);
    }
  }

  /** The command is built exactly when the arguments parse, and the words between `&&` and the semicolon that
      follows are the interpreter, the uploaded path and the arguments as they were parsed. */
  lemma ExecuteScriptWords(remotePath: string, interpreter: Option<string>, args: Option<string>)
    ensures var parsed := Arguments(if args.Some? then args.value else "");
            var shell := Trim(if interpreter.Some? then interpreter.value else "sh");
            var command := ExecuteScriptCommand(remotePath, interpreter, args);
            && (command.Ok? <==> parsed.Ok?)
            && (command.Ok? ==> exists call: string ::
                  && command.value == "chmod +x " + Quote(remotePath) + " && " + call
                                      + " ; status=$?; rm -f " + Quote(remotePath) + "; exit $status"
                  && Arguments(call) == Ok([shell, remotePath] + parsed.value))
  {
    hide Quote, Arguments, Trim, ScriptCall;
    var parsed := Arguments(if args.Some? then args.value else "");
    if parsed.Ok? {
      ScriptCallWords(Trim(if interpreter.Some? then interpreter.value else "sh"), remotePath, parsed.value);
    }
  }

  lemma JoinTwo(a: string, b: string)
    ensures Join(QuoteAll([a, b]), " ") == Quote(a) + " " + Quote(b)
  {
    hide Quote;
    assert [a, b][1..] == [b] && [b][1..] == [];
    assert QuoteAll([b]) == [Quote(b)];
    assert QuoteAll([a, b]) == [Quote(a), Quote(b)];
    assert [Quote(a), Quote(b)][1..] == [Quote(b)];
  }

  lemma JoinNone()
    ensures Join(QuoteAll([]), " ") == ""
  {
  }

  lemma ScanNothing(s: Scanner)
    ensures ScanAll(s, "") == Ok(s)
  {
  }

  /** Parsing fails only where the text stops too early: one closing quote, or one character after a
      trailing escape and then a closing quote, always completes it. */
  lemma FailureIsUnfinished(text: string)
    ensures Arguments(text).Err? ==>
      || Arguments(text + "'").Ok? || Arguments(text + "\"").Ok?
      || Arguments(text + "x").Ok? || Arguments(text + "x\"").Ok?
  {
    ScanNeverFails(START, text);
    var end := ScanAll(START, text).value;
    ScanConcat(START, text, "'");
    ScanConcat(START, text, "\"");
    ScanConcat(START, text, "x");
    ScanConcat(START, text, "x\"");
    assert "x\""[1..] == "\"" && "\""[1..] == "" && "'"[1..] == "" && "x"[1..] == "";
    assert ScanAll(end, "x") == Scan(end, 'x');
    assert ScanAll(end, "'") == Scan(end, '\'');
    assert ScanAll(end, "\"") == Scan(end, '"');
    if end.escaped {
      var next := Scan(end, 'x').value;
      assert ScanAll(end, "x\"") == ScanAll(next, "\"");
      assert ScanAll(next, "\"") == Scan(next, '"');
      EscapedInsideDouble(START, text);
    }
  }

  /** A pending escape inside a quotation is inside double quotes. */
  lemma {:induction false} EscapedInsideDouble(s: Scanner, text: string)
    requires ProperQuote(s) && (s.escaped ==> s.quote != Some('\''))
    ensures ScanAll(s, text).Ok?
    ensures ScanAll(s, text).value.escaped ==> ScanAll(s, text).value.quote != Some('\'')
    decreases |text|
  {
    if text != "" {
      EscapedInsideDouble(Scan(s, text[0]).value, text[1..]);
    }
  }
}
