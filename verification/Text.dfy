/** The string operations of the Rust standard library that the modules rely on. */
module Text {
  import opened Common

  /** `char::is_whitespace`: the Unicode White_Space property. */
  predicate IsWhitespace(c: char) {
    || '\U{0009}' <= c <= '\U{000D}'
    || c == ' '
    || c == '\U{0085}'
    || c == '\U{00A0}'
    || c == '\U{1680}'
    || '\U{2000}' <= c <= '\U{200A}'
    || c == '\U{2028}'
    || c == '\U{2029}'
    || c == '\U{202F}'
    || c == '\U{205F}'
    || c == '\U{3000}'
  }

  /** `str::trim_start`. */
  function TrimStart(s: string): (r: string)
    ensures |r| <= |s| && r == s[|s| - |r|..]
    ensures r != "" ==> !IsWhitespace(r[0])
  {
    if s != "" && IsWhitespace(s[0]) then TrimStart(s[1..]) else s
  }

  /** `str::trim_end`. */
  function TrimEnd(s: string): (r: string)
    ensures |r| <= |s| && r == s[..|r|]
    ensures r != "" ==> !IsWhitespace(r[|r| - 1])
  {
    if s != "" && IsWhitespace(s[|s| - 1]) then TrimEnd(s[..|s| - 1]) else s
  }

  /** `str::trim`. */
  function Trim(s: string): string {
    TrimEnd(TrimStart(s))
  }

  /** Trimming takes whitespace away at both ends, all of it and nothing else. */
  lemma TrimExactly(s: string) returns (from: nat, to: nat)
    ensures from <= to <= |s| && Trim(s) == s[from..to]
    ensures forall k :: 0 <= k < |s| && !(from <= k < to) ==> IsWhitespace(s[k])
    ensures from < to ==> !IsWhitespace(s[from]) && !IsWhitespace(s[to - 1])
  {
    hide IsWhitespace;
    from := TrimStartExactly(s);
    var rest := TrimStart(s);
    to := from + |TrimEnd(rest)|;
    TrimEndExactly(rest);
    assert rest[..|TrimEnd(rest)|] == s[from..to];
    forall k | 0 <= k < |s| && !(from <= k < to) ensures IsWhitespace(s[k]) {
      assert k >= from ==> s[k] == rest[k - from];
    }
  }

  lemma {:induction false} TrimStartExactly(s: string) returns (from: nat)
    ensures from <= |s| && TrimStart(s) == s[from..] && forall k :: 0 <= k < from ==> IsWhitespace(s[k])
  {
    hide IsWhitespace;
    from := 0;
    if s != "" && IsWhitespace(s[0]) {
      var more := TrimStartExactly(s[1..]);
      forall k | 0 <= k < more + 1 ensures IsWhitespace(s[k]) {
        assert k > 0 ==> s[k] == s[1..][k - 1];
      }
      from := more + 1;
    }
  }

  lemma {:induction false} TrimEndExactly(s: string)
    ensures forall k :: |TrimEnd(s)| <= k < |s| ==> IsWhitespace(s[k])
    decreases |s|
  {
    hide IsWhitespace;
    if s != "" && IsWhitespace(s[|s| - 1]) {
      TrimEndExactly(s[..|s| - 1]);
    }
  }

  /** A non-empty string that `trim` leaves alone has no whitespace at either end. */
  lemma TrimmedEnds(s: string)
    requires s != "" && Trim(s) == s
    ensures !IsWhitespace(s[0]) && !IsWhitespace(s[|s| - 1])
  {
    assert TrimStart(s) == s;
  }

  /** A string with no whitespace at either end is its own trim. */
  lemma TrimKeeps(s: string)
    requires s != "" && !IsWhitespace(s[0]) && !IsWhitespace(s[|s| - 1])
    ensures Trim(s) == s
  {
    assert TrimStart(s) == s;
    assert TrimEnd(s) == s;
  }

  lemma {:induction false} TrimStartKeepsChar(s: string, c: char)
    requires !IsWhitespace(c) && c in s
    ensures c in TrimStart(s)
    decreases |s|
  {
    if IsWhitespace(s[0]) {
      assert s == [s[0]] + s[1..];
      TrimStartKeepsChar(s[1..], c);
    }
  }

  lemma {:induction false} TrimEndKeepsChar(s: string, c: char)
    requires !IsWhitespace(c) && c in s
    ensures c in TrimEnd(s)
    decreases |s|
  {
    if IsWhitespace(s[|s| - 1]) {
      assert s == s[..|s| - 1] + [s[|s| - 1]];
      TrimEndKeepsChar(s[..|s| - 1], c);
    }
  }

  /** Trimming removes whitespace only. */
  lemma TrimKeepsChar(s: string, c: char)
    requires !IsWhitespace(c) && c in s
    ensures c in Trim(s)
  {
    TrimStartKeepsChar(s, c);
    TrimEndKeepsChar(TrimStart(s), c);
  }

  /** Trimming twice trims once. */
  lemma TrimIsTrimmed(s: string)
    ensures Trim(Trim(s)) == Trim(s)
  {
    var t := Trim(s);
    if t != "" {
      var u := TrimStart(s);
      assert t == u[..|t|];
      assert t[0] == u[0];
      TrimKeeps(t);
    }
  }

  /** A string without whitespace is its own trim. */
  lemma TrimSolid(s: string)
    requires forall i :: 0 <= i < |s| ==> !IsWhitespace(s[i])
    ensures Trim(s) == s
  {
    if s != "" {
      TrimKeeps(s);
    }
  }

  /** `str::find` for a character. */
  function Find(s: string, c: char): (r: Option<nat>)
    ensures r.Some? ==> r.value < |s| && s[r.value] == c && c !in s[..r.value]
    ensures r.None? ==> c !in s
  {
    if s == "" then None
    else if s[0] == c then Some(0)
    else
      var rest := Find(s[1..], c);
      if rest.None? then None
      else
        assert s[..rest.value + 1] == [s[0]] + s[1..][..rest.value];
        Some(rest.value + 1)
  }

  lemma {:induction false} FindUnique(s: string, c: char, i: nat)
    requires i < |s| && s[i] == c && c !in s[..i]
    ensures Find(s, c) == Some(i)
    decreases i
  {
    if i > 0 {
      assert s[0] in s[..i];
      assert forall x :: x in s[1..][..i - 1] ==> x in s[..i];
      FindUnique(s[1..], c, i - 1);
    }
  }

  function StripCr(s: string): string {
    if s != "" && s[|s| - 1] == '\r' then s[..|s| - 1] else s
  }

  /** `trim_end_matches('\r')`. */
  function TrimCr(s: string): (r: string)
    ensures r <= s
    ensures r != "" ==> r[|r| - 1] != '\r'
  {
    if s != "" && s[|s| - 1] == '\r' then TrimCr(s[..|s| - 1]) else s
  }

  /** `str::lines`. */
  function Lines(text: string): seq<string>
    decreases |text|
  {
    if text == "" then []
    else
      var end := Find(text, '\n');
      if end.None? then [text] else [StripCr(text[..end.value])] + Lines(text[end.value + 1..])
  }

  /** `join` with a separator. */
  function Join(parts: seq<string>, separator: string): string {
    if parts == [] then ""
    else if |parts| == 1 then parts[0]
    else parts[0] + separator + Join(parts[1..], separator)
  }

  lemma JoinStep(parts: seq<string>, separator: string)
    requires |parts| > 1
    ensures Join(parts, separator) == parts[0] + (separator + Join(parts[1..], separator))
  {
    assert parts[0] + separator + Join(parts[1..], separator) == parts[0] + (separator + Join(parts[1..], separator));
  }

  function Unlines(lines: seq<string>): string {
    if lines == [] then "" else lines[0] + "\n" + Unlines(lines[1..])
  }

  lemma {:induction false} JoinIsUnlines(lines: seq<string>)
    requires lines != []
    ensures Join(lines, "\n") + "\n" == Unlines(lines)
  {
    if |lines| > 1 {
      JoinIsUnlines(lines[1..]);
      assert lines[0] + "\n" + Join(lines[1..], "\n") + "\n" == lines[0] + "\n" + (Join(lines[1..], "\n") + "\n");
    } else {
      assert lines[1..] == [];
    }
  }

  predicate OneLine(line: string) {
    '\n' !in line && (line == "" || line[|line| - 1] != '\r')
  }

  /** Reading back what was written line by line. */
  lemma {:induction false} LinesOfUnlines(lines: seq<string>)
    requires forall i :: 0 <= i < |lines| ==> OneLine(lines[i])
    ensures Lines(Unlines(lines)) == lines
  {
    if lines != [] {
      var text := Unlines(lines);
      var n := |lines[0]|;
      assert text[..n] == lines[0] && text[n] == '\n';
      FindUnique(text, '\n', n);
      assert text[n + 1..] == Unlines(lines[1..]);
      LinesOfUnlines(lines[1..]);
    }
  }
}
