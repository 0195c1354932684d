/** One managed task of a crontab: its block of lines and the reading of such a block. */
module CrontabRecord {
  import opened Common
  import opened Text
  import opened ShellQuoting

  const CRONTAB_BEGIN := "# MXTERM-SCHEDULE-BEGIN"
  const CRONTAB_END := "# MXTERM-SCHEDULE-END"

  datatype Record = Record(
    id: string,
    name: string,
    cron: string,
    command: string,
    enabled: bool,
    updatedAt: string)

  datatype CrontabError = InvalidBlock | InvalidId | InvalidCron | InvalidCommand | MissingValue

  /** The library encoders, and the shell script that runs a decoded command. `Url` is base64url without
      padding (section 5 of RFC 4648) over UTF-8, `Standard` its padded cousin of section 4. */
  datatype Encoding = Encoding(
    url: string -> string,
    unurl: string -> Option<string>,
    standard: string -> string,
    script: string)

  predicate UrlChar(c: char) {
    'a' <= c <= 'z' || 'A' <= c <= 'Z' || '0' <= c <= '9' || c == '-' || c == '_'
  }

  predicate StandardChar(c: char) {
    'a' <= c <= 'z' || 'A' <= c <= 'Z' || '0' <= c <= '9' || c == '+' || c == '/' || c == '='
  }

  /** Encoders are injective and stay inside their alphabets; decoders accept nothing outside; the script
      is one line. */
  ghost predicate Sane(enc: Encoding) {
    && (forall s :: enc.unurl(enc.url(s)) == Some(s))
    && (forall s :: forall i :: 0 <= i < |enc.url(s)| ==> UrlChar(enc.url(s)[i]))
    && (forall t :: enc.unurl(t).Some? ==> forall i :: 0 <= i < |t| ==> UrlChar(t[i]))
    && (forall s :: forall i :: 0 <= i < |enc.standard(s)| ==> StandardChar(enc.standard(s)[i]))
    && '\n' !in enc.script
  }

  /** `require_value`. */
  function RequireValue(value: string): Result<string, CrontabError> {
    if Trim(value) == "" then Err(MissingValue) else Ok(Trim(value))
  }

  const MAX_ID_BYTES := 96

  /** `normalize_task_id`. */
  function NormalizeId(value: string): Result<string, CrontabError> {
    var id :- RequireValue(value);
    if |id| > MAX_ID_BYTES || exists i :: 0 <= i < |id| && !UrlChar(id[i]) then Err(InvalidId) else Ok(id)
  }

  /** The number of whitespace-separated fields. */
  function Fields(s: string, inField: bool := false): nat {
    if s == "" then 0
    else if IsWhitespace(s[0]) then Fields(s[1..], false)
    else (if inField then 0 else 1) + Fields(s[1..], true)
  }

  const MACROS := {"@hourly", "@daily", "@weekly", "@monthly", "@reboot"}

  /** `validate_cron`. */
  function ValidateCron(value: string): Result<string, CrontabError> {
    var cron :- RequireValue(value);
    if '\n' in cron || '\r' in cron || '\0' in cron then Err(InvalidCron)
    else if cron[0] == '@' then (if cron in MACROS then Ok(cron) else Err(InvalidCron))
    else if Fields(cron) != 5 then Err(InvalidCron)
    else Ok(cron)
  }

  function EscapePercent(s: string): string {
    if s == "" then "" else (if s[0] == '%' then "\\%" else [s[0]]) + EscapePercent(s[1..])
  }

  const RUN_PREFIX := "MXTERM_TASK_ID="

  /** `build_run_command`. */
  function RunCommand(enc: Encoding, r: Record): string {
    RUN_PREFIX + Quote(r.id) + " MXTERM_CMD_B64=" + Quote(enc.standard(r.command)) + " /bin/sh -lc " + Quote(enc.script)
  }

  function EnabledText(enabled: bool): string {
    if enabled then "true" else "false"
  }

  /** The line that cron itself reads, commented out when the task is disabled. */
  function RunLine(enc: Encoding, r: Record): string {
    (if r.enabled then "" else "# disabled: ") + r.cron + " " + EscapePercent(RunCommand(enc, r))
  }

  function MetadataLines(enc: Encoding, r: Record): seq<string> {
    ["# id=" + r.id,
     "# name=" + enc.url(r.name),
     "# cron=" + enc.url(r.cron),
     "# command=" + enc.url(r.command),
     "# enabled=" + EnabledText(r.enabled),
     "# updated_at=" + r.updatedAt]
  }

  /** The lines between the markers. */
  function BlockBody(enc: Encoding, r: Record): seq<string> {
    MetadataLines(enc, r) + [RunLine(enc, r)]
  }

  /** `render_block`. */
  function Block(enc: Encoding, r: Record): seq<string> {
    [CRONTAB_BEGIN] + BlockBody(enc, r) + [CRONTAB_END]
  }

  /** The six variables of `parse_task_block`. */
  datatype Draft = Draft(
    id: Option<string>,
    name: Option<string>,
    cron: Option<string>,
    command: Option<string>,
    enabled: Option<bool>,
    updatedAt: Option<string>)

  const EMPTY_DRAFT := Draft(None, None, None, None, None, None)

  function Decode(enc: Encoding, value: string): Result<string, CrontabError> {
    var decoded := enc.unurl(value);
    if decoded.Some? then Ok(decoded.value) else Err(InvalidBlock)
  }

  datatype Key = IdKey | NameKey | CronKey | CommandKey | EnabledKey | UpdatedAtKey

  function KeyOf(name: string): Option<Key> {
    if name == "id" then Some(IdKey)
    else if name == "name" then Some(NameKey)
    else if name == "cron" then Some(CronKey)
    else if name == "command" then Some(CommandKey)
    else if name == "enabled" then Some(EnabledKey)
    else if name == "updated_at" then Some(UpdatedAtKey)
    else None
  }

  /** `parse_enabled`. */
  function ParseEnabled(value: string): Result<bool, CrontabError> {
    if value == "true" then Ok(true) else if value == "false" then Ok(false) else Err(InvalidBlock)
  }

  /** The effect of one key and value; other keys have none. */
  function Assign(enc: Encoding, d: Draft, key: Option<Key>, value: string): Result<Draft, CrontabError> {
    match key
    case None => Ok(d)
    case Some(IdKey) =>
      var id :- NormalizeId(Trim(value));
      Ok(d.(id := Some(id)))
    case Some(NameKey) =>
      var name :- Decode(enc, Trim(value));
      Ok(d.(name := Some(name)))
    case Some(CronKey) =>
      var decoded :- Decode(enc, Trim(value));
      var cron :- ValidateCron(decoded);
      Ok(d.(cron := Some(cron)))
    case Some(CommandKey) =>
      var command :- Decode(enc, Trim(value));
      Ok(d.(command := Some(command)))
    case Some(EnabledKey) =>
      var enabled :- ParseEnabled(Trim(value));
      Ok(d.(enabled := Some(enabled)))
    case Some(UpdatedAtKey) =>
      var updatedAt :- RequireValue(value);
      Ok(d.(updatedAt := Some(updatedAt)))
  }

  /** The effect of one line between the markers; a line without key and value is passed over. */
  function ReadLine(enc: Encoding, d: Draft, line: string): Result<Draft, CrontabError> {
    var trimmed := Trim(line);
    if !("# " <= trimmed) then Ok(d)
    else
      var metadata := trimmed[2..];
      var at := Find(metadata, '=');
      if at.None? then Ok(d)
      else Assign(enc, d, KeyOf(Trim(metadata[..at.value])), metadata[at.value + 1..])
  }

  function ReadLines(enc: Encoding, d: Draft, lines: seq<string>): Result<Draft, CrontabError>
    decreases |lines|
  {
    if lines == [] then Ok(d)
    else
      var next :- ReadLine(enc, d, lines[0]);
      ReadLines(enc, next, lines[1..])
  }

  /** `require_decoded_value`. */
  function RequireDecoded(value: Option<string>): Result<string, CrontabError> {
    if value.None? || Trim(value.value) == "" then Err(InvalidBlock) else Ok(value.value)
  }

  /** The checks after the last line. */
  function Finish(d: Draft): Result<Record, CrontabError> {
    if d.id.None? then Err(InvalidBlock)
    else
      var name :- RequireDecoded(d.name);
      var cron :- RequireDecoded(d.cron);
      var command :- RequireDecoded(d.command);
      if d.enabled.None? || d.updatedAt.None? then Err(InvalidBlock)
      else if '\0' in command then Err(InvalidCommand)
      else Ok(Record(d.id.value, name, cron, command, d.enabled.value, d.updatedAt.value))
  }

  /** `parse_task_block` on the lines between the markers. */
  function ReadBody(enc: Encoding, body: seq<string>): Result<Record, CrontabError> {
    var d :- ReadLines(enc, EMPTY_DRAFT, body);
    Finish(d)
  }

  /** The loop of `parse_task_block`. */
  method ParseTaskBlock(enc: Encoding, block: seq<string>) returns (r: Result<Record, CrontabError>)
    requires |block| >= 2
    ensures r == ReadBody(enc, block[1..|block| - 1])
  {
    var body := block[1..|block| - 1];
    var d := EMPTY_DRAFT;
    for i := 0 to |body|
      invariant ReadLines(enc, EMPTY_DRAFT, body) == ReadLines(enc, d, body[i..])
    {
      assert body[i..][1..] == body[i + 1..];
      d :- ReadLine(enc, d, body[i]);
    }
    assert body[|body|..] == [];
    r := Finish(d);
  }
}
