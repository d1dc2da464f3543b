/** How client/mysql.cc cuts input lines into statements (`add_line`, the line loop of
    `read_and_execute`, `remove_cntrl`), in binary mode and for a single-byte character set. */
module StatementSplitter {
  import opened Text

  const NUL: char := 0 as char
  const DELIMITER_NAME := "delimiter"

  /** Options and the answers of the outside world. */
  datatype Config = Config(
    preserveComments: bool,
    noBackslashEscapes: bool,         // a server mode
    unknownIsFatal: bool,             // batch mode without --force
    isGraph: char -> bool,            // my_isgraph
    fatal: string -> bool,            // the server's answer to a statement ends the session
    charsetFatal: string -> bool)     // so does a \\C command

  /** What leaves the client: a statement, or a client command with its text. */
  datatype Sent = Statement(text: string) | Command(text: string)

  /** The variables of `add_line`; out is the part of the line rewritten so far. */
  datatype Scan = Scan(
    delimiter: string,
    buffer: string,
    inString: char,                   // NUL outside strings
    mlComment: bool,
    ssComment: bool,
    needSpace: bool,
    out: string,
    sent: seq<Sent>,
    quit: bool)

  function Peek(line: string, i: nat): char { if i < |line| then line[i] else NUL }

  function Lower(c: char): char { if 'A' <= c <= 'Z' then (c as int + 32) as char else c }

  /** `is_delimiter_command`. */
  predicate IsDelimiterCommand(s: string) {
    |s| >= |DELIMITER_NAME| && forall i | 0 <= i < |DELIMITER_NAME| :: Lower(s[i]) == DELIMITER_NAME[i]
  }

  function StripLeft(s: string): string {
    if s != "" && IsSpace(s[0]) then StripLeft(s[1..]) else s
  }

  /** `find_command` in binary mode: only DELIMITER is a command. */
  predicate IsCommand(s: string) { IsDelimiterCommand(StripLeft(s)) }

  predicate DelimiterAt(s: Scan, line: string, pos: nat)
    requires pos <= |line|
  {
    s.delimiter <= line[pos..]
  }

  /** A C string that starts at pos. */
  function CString(line: string, pos: nat): (r: string)
    requires pos <= |line|
    decreases |line| - pos
  {
    if pos == |line| || line[pos] == NUL then "" else [line[pos]] + CString(line, pos + 1)
  }

  /** `remove_cntrl`: the text up to its last graphic character. */
  function RemoveCntrl(c: Config, s: string): (r: string)
    ensures r <= s && (r != "" ==> c.isGraph(r[|r| - 1])) && forall i :: |r| <= i < |s| ==> !c.isGraph(s[i])
  {
    if s != "" && !c.isGraph(s[|s| - 1]) then RemoveCntrl(c, s[..|s| - 1]) else s
  }

  /** Position k is behind the last graphic character. */
  ghost predicate CutsBehind(c: Config, s: string, k: nat) {
    k <= |s| && (k > 0 ==> c.isGraph(s[k - 1])) && forall i :: k <= i < |s| ==> !c.isGraph(s[i])
  }

  /** `com_go` on the buffer: empty statements are ignored. */
  function Go(c: Config, s: Scan): Scan {
    var text := RemoveCntrl(c, s.buffer);
    if text == "" then s.(buffer := "")
    else s.(buffer := "", sent := s.sent + [Statement(text)], quit := c.fatal(text))
  }

  const MAX_COMMAND := 255
  const MAX_DELIMITER := 15

  /** `strmake`. */
  function Shortened(s: string, n: nat): (r: string)
    ensures r <= s && |r| <= n && (|s| <= n ==> r == s)
  {
    if |s| <= n then s else s[..n]
  }

  function SkipWord(s: string): string {
    if s != "" && !IsSpace(s[0]) then SkipWord(s[1..]) else s
  }

  /** An argument up to its closing quote, or to a blank if it is not quoted; a backslash is taken away from the character
      behind it. */
  function Unescaped(s: string, quote: char): string {
    if s == "" then ""
    else if s[0] == '\\' && |s| > 1 then [s[1]] + Unescaped(s[2..], quote)
    else if s[0] == (if quote == NUL then ' ' else quote) then ""
    else [s[0]] + Unescaped(s[1..], quote)
  }

  /** `get_arg`: the first argument of a command. */
  function ArgumentOf(s: string): string {
    var a := StripLeft(SkipWord(StripLeft(s)));
    if a != "" && IsQuote(a[0]) then Unescaped(a[1..], a[0]) else Unescaped(a, NUL)
  }

  /** `com_delimiter`: a missing argument or one with a backslash is refused. */
  function NewDelimiter(command: string): Option<string> {
    var d := ArgumentOf(Shortened(CString(command, 0), MAX_COMMAND));
    if d == "" || '\\' in d || NUL in d then None else Some(Shortened(d, MAX_DELIMITER))
  }

  function SetDelimiter(s: Scan, command: string): Scan {
    var d := NewDelimiter(command);
    s.(sent := s.sent + [Command(command)], delimiter := if d.Some? then d.value else s.delimiter)
  }

  lemma NewDelimiterIsUsable(command: string)
    ensures var d := NewDelimiter(command); d.Some? ==> d.value != "" && NUL !in d.value && '\\' !in d.value && |d.value| <= 15
  {
    hide ArgumentOf;
  }

  /** The buffer is complete: run it as a command or send it. */
  function Complete(c: Config, s: Scan): Scan {
    if IsCommand(s.buffer) then SetDelimiter(s, s.buffer).(buffer := "") else Go(c, s)
  }

  function Flush(s: Scan): Scan { s.(buffer := s.buffer + s.out, out := "") }

  function SpacesFrom(line: string, pos: nat): (n: nat)
    requires pos <= |line|
    ensures pos + n <= |line|
    decreases |line| - pos
  {
    if pos < |line| && IsSpace(line[pos]) then 1 + SpacesFrom(line, pos + 1) else 0
  }

  predicate LineComment(line: string, pos: nat) {
    Peek(line, pos) == '#'
    || (Peek(line, pos) == '-' && Peek(line, pos + 1) == '-' && (IsSpace(Peek(line, pos + 2)) || Peek(line, pos + 2) == NUL))
  }

  predicate CommentOpens(line: string, pos: nat) {
    Peek(line, pos) == '/' && Peek(line, pos + 1) == '*' && Peek(line, pos + 2) != '!'
  }

  predicate CommentCloses(line: string, pos: nat) { Peek(line, pos) == '*' && Peek(line, pos + 1) == '/' }

  predicate IsQuote(ch: char) { ch == '\'' || ch == '"' || ch == '`' }

  /** One step: the scan and where it goes on; a position beyond the line ends the line. */
  datatype Next = Next(s: Scan, pos: nat)

  /** An ordinary character. */
  function Take(c: Config, s: Scan, line: string, pos: nat): Next
    requires pos < |line|
  {
    var ch := line[pos];
    var ss :=
      if s.inString == NUL && ch == '/' && Peek(line, pos + 1) == '*' && Peek(line, pos + 2) == '!' then true
      else if s.inString == NUL && s.ssComment && CommentCloses(line, pos) then false
      else s.ssComment;
    var str :=
      if ch == s.inString then NUL
      else if !s.mlComment && s.inString == NUL && IsQuote(ch) then ch
      else s.inString;
    var s1 := s.(ssComment := ss, inString := str);
    if !s.mlComment || c.preserveComments
    then Next(s1.(out := s.out + (if s.needSpace && !IsSpace(ch) then " " else "") + [ch], needSpace := false), pos + 1)
    else Next(s1, pos + 1)
  }

  /** End of the parameters of \\C: behind the next delimiter, or the end of the line. */
  function AfterParams(c: Config, s: Scan, line: string, pos: nat): (p: nat)
    requires pos <= |line|
    ensures pos <= p <= |line|
    decreases |line| - pos
  {
    if pos == |line| || line[pos] == NUL then pos
    else if s.ssComment then
      if CommentCloses(line, pos) then pos else AfterParams(c, s, line, pos + 1)
    else if DelimiterAt(s, line, pos) then pos + |s.delimiter|
    else AfterParams(c, s, line, pos + 1)
  }

  function Backslash(c: Config, s: Scan, line: string, pos: nat): Next
    requires pos < |line|
  {
    var x := Peek(line, pos + 1);
    if x == NUL then Next(s, |line|)
    else if s.inString != NUL || x == 'N' then Next(s.(out := s.out + ['\\', x]), pos + 2)
    else if x == 'C' then
      var s1 := Flush(s);
      Next(s1.(sent := s1.sent + [Command(line[pos..])], quit := c.charsetFatal(line[pos..])), AfterParams(c, s, line, pos + 2))
    else if c.unknownIsFatal then Next(s.(quit := true), |line|)
    else Next(s.(out := s.out + ['\\', x]), pos + 2)
  }

  /** A comment up to the end of the line. */
  predicate CommentFollows(line: string, q: nat) {
    Peek(line, q) == '#' || (Peek(line, q) == '-' && Peek(line, q + 1) == '-' && IsSpace(Peek(line, q + 2)))
  }

  function AtDelimiter(c: Config, s: Scan, line: string, pos: nat): Next
    requires pos <= |line| && DelimiterAt(s, line, pos)
  {
    var p := pos + |s.delimiter|;
    var n := if c.preserveComments then SpacesFrom(line, p) else 0;
    var s1 := Flush(s.(out := s.out + line[p..p + n]));
    var q := p + n;
    if c.preserveComments && CommentFollows(line, q)
    then Next(Complete(c, s1.(buffer := s1.buffer + CString(line, q))), q + |CString(line, q)|)
    else Next(Complete(c, s1), q)
  }

  function AtLineComment(c: Config, s: Scan, line: string, pos: nat): Next
    requires pos <= |line|
  {
    var s1 := Flush(s);
    if !c.preserveComments then Next(s1, |line|)
    else
      var s2 := s1.(buffer := s1.buffer + CString(line, pos));
      Next(if s1.buffer == "" then Go(c, s2) else s2, |line|)
  }

  function Step(c: Config, s: Scan, line: string, pos: nat): Next
    requires pos < |line|
  {
    var ch := line[pos];
    if !c.preserveComments && IsSpace(ch) && s.out == "" && s.buffer == "" then Next(s, pos + 1)
    else if !s.mlComment && ch == '\\' && !(s.inString != NUL && c.noBackslashEscapes) then Backslash(c, s, line, pos)
    else if !s.mlComment && s.inString == NUL && DelimiterAt(s, line, pos) then AtDelimiter(c, s, line, pos)
    else if !s.mlComment && s.inString == NUL && LineComment(line, pos) then AtLineComment(c, s, line, pos)
    else if s.inString == NUL && CommentOpens(line, pos) then
      Next(Flush(s.(mlComment := true, out := s.out + if c.preserveComments then "/*" else "")), pos + 2)
    else if s.mlComment && !s.ssComment && CommentCloses(line, pos) then
      Next(Flush(s.(mlComment := false, out := s.out + if c.preserveComments then "*/" else "")).(needSpace := true), pos + 2)
    else Take(c, s, line, pos)
  }

  /** A step always makes progress. */
  lemma StepProgress(c: Config, s: Scan, line: string, pos: nat)
    requires pos < |line| && s.delimiter != ""
    ensures Step(c, s, line, pos).pos > pos && Step(c, s, line, pos).s.delimiter != ""
  {
    hide IsCommand, RemoveCntrl, Peek, IsSpace, CString, SpacesFrom, NewDelimiter;
    forall command { NewDelimiterIsUsable(command); }
  }

  /** The scan of a line from pos on. */
  function ScanFrom(c: Config, s: Scan, line: string, pos: nat): (r: Scan)
    requires s.delimiter != ""
    ensures r.delimiter != ""
    decreases |line| - pos
  {
    if pos >= |line| || s.quit then s
    else
      StepProgress(c, s, line, pos);
      var n := Step(c, s, line, pos);
      ScanFrom(c, n.s, line, n.pos)
  }

  /** The end of `add_line`: the line goes to the buffer, with its line break. */
  function EndLine(c: Config, s: Scan, truncated: bool): Scan {
    if s.quit || (s.out == "" && s.buffer == "") then s
    else
      var text := s.out +
        (if !truncated && (!IsDelimiterCommand(s.out) || s.inString != NUL || s.mlComment) then "\n" else "");
      if !s.mlComment || c.preserveComments then s.(buffer := s.buffer + text, out := "") else s.(out := "")
  }

  /** `add_line`. */
  function AddLine(c: Config, s: Scan, line: string, truncated: bool): (r: Scan)
    requires s.delimiter != ""
    ensures r.delimiter != ""
  {
    if Peek(line, 0) == NUL && s.buffer == "" then s
    else EndLine(c, ScanFrom(c, s.(ssComment := false, needSpace := false, out := ""), line, 0), truncated)
  }

  /** One line in `read_and_execute`: a DELIMITER command at the start of a statement, or `add_line`. */
  function TakeLine(c: Config, s: Scan, line: string, truncated: bool): (r: Scan)
    requires s.delimiter != ""
    ensures r.delimiter != ""
  {
    if s.buffer == "" && !s.mlComment && s.inString == NUL && IsCommand(line) then SetDelimiter(s, line)
    else AddLine(c, s, line, truncated)
  }
}
