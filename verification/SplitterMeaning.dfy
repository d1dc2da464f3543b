/** What the line-by-line splitter of client/mysql.cc does to a text: it is the same as reading the text
    character by character, comments and all. */
module SplitterMeaning {
  import opened Text
  import opened StatementSplitter
  import opened LineReader

  // ---------- reading without lines ----------

  /** The statement read so far, its last piece, the open quote, whether a comment or a server comment is
      open, whether the next character must be set off by a blank, what was sent. */
  datatype Flat = Flat(cur: string, seg: string, quote: char, comment: bool, server: bool, space: bool, sent: seq<Sent>)

  ghost predicate Starts(d: string, r: string) { d <= r }

  ghost predicate DashComment(r: string) {
    |r| >= 2 && r[0] == '-' && r[1] == '-' && (|r| == 2 || IsSpace(r[2]) || r[2] == NUL)
  }

  ghost predicate LineCommentAt(r: string) { r != "" && (r[0] == '#' || DashComment(r)) }

  ghost predicate Opens(r: string) { Starts("/*", r) && !Starts("/*!", r) }

  ghost function SendCur(c: Config, cur: string): seq<Sent> {
    if RemoveCntrl(c, cur) == "" then [] else [Statement(RemoveCntrl(c, cur))]
  }

  /** The blanks at the start of r, in its first line. */
  ghost function Blanks(r: string): (b: string)
    ensures b <= r
  {
    if r != "" && IsSpace(r[0]) && r[0] != '\n' then [r[0]] + Blanks(r[1..]) else ""
  }

  ghost predicate Follows(r: string) {
    r != "" && (r[0] == '#' || (|r| > 2 && r[0] == '-' && r[1] == '-' && IsSpace(r[2]) && r[2] != '\n'))
  }

  /** What a statement takes along from behind its delimiter when comments are preserved. */
  ghost function Tail(c: Config, r: string): (t: string)
    ensures t <= r
  {
    if !c.preserveComments then ""
    else if Follows(r[|Blanks(r)|..]) then FirstPiece(r) else Blanks(r)
  }

  /** An ordinary character. */
  ghost function Extend(f: Flat, r: string): Flat
    requires r != ""
  {
    var ch := r[0];
    var t := if f.space && !IsSpace(ch) then [' ', ch] else [ch];
    Flat(
      f.cur + t, f.seg + t,
      if ch == f.quote then NUL else if !f.comment && f.quote == NUL && IsQuote(ch) then ch else f.quote,
      f.comment,
      (f.quote == NUL && Starts("/*!", r)) || (f.server && !(f.quote == NUL && Starts("*/", r))),
      false, f.sent)
  }

  /** The delimiter outside quotes and comments ends the statement. */
  ghost function EndStatement(c: Config, d: string, f: Flat, r: string): (Flat, nat)
    requires Starts(d, r)
  {
    var t := Tail(c, r[|d|..]);
    (f.(cur := "", seg := "", sent := f.sent + SendCur(c, f.cur + t)), |d| + |t|)
  }

  /** A comment to the end of the line is dropped, or joins the statement, or is sent alone. */
  ghost function SkipLine(c: Config, f: Flat, r: string): (Flat, nat) {
    var t := FirstPiece(r);
    (if !c.preserveComments then f.(seg := "")
     else if f.cur == "" then f.(sent := f.sent + SendCur(c, t))
     else f.(cur := f.cur + t, seg := ""), |t|)
  }

  ghost function Open(c: Config, f: Flat): Flat {
    f.(cur := f.cur + (if c.preserveComments then "/*" else ""), seg := "", comment := true)
  }

  ghost function Close(c: Config, f: Flat): Flat {
    f.(cur := f.cur + (if c.preserveComments then "*/" else ""), seg := "", comment := false, space := true)
  }

  /** A line break belongs to a statement that has begun, and to a comment that is preserved. */
  ghost function Break(c: Config, f: Flat): Flat {
    f.(cur := if f.cur == "" || (f.comment && !c.preserveComments) then f.cur else f.cur + "\n",
       seg := "", server := false, space := false)
  }

  ghost function FlatStep(c: Config, d: string, f: Flat, r: string): (Flat, nat)
    requires r != ""
  {
    if r[0] == '\n' then (Break(c, f), 1)
    else if !c.preserveComments && f.cur == "" && IsSpace(r[0]) then (f, 1)
    else if !f.comment && r[0] == '\\' && !(f.quote != NUL && c.noBackslashEscapes) && |r| > 1
    then (f.(cur := f.cur + r[..2], seg := f.seg + r[..2]), 2)
    else if f.quote != NUL then (Extend(f, r), 1)
    else if !f.comment && Starts(d, r) then EndStatement(c, d, f, r)
    else if !f.comment && LineCommentAt(r) then SkipLine(c, f, r)
    else if Opens(r) then (Open(c, f), 2)
    else if f.comment && Starts("*/", r) then (Close(c, f), 2)
    else if f.comment && !c.preserveComments then (f, 1)
    else (Extend(f, r), 1)
  }

  /** A backslash and a character that are left as they are: in a string, or where they are no command. */
  ghost predicate Escapes(c: Config, f: Flat, r: string) {
    |r| > 1 && r[1] != '\n' && r[1] != NUL && (f.quote != NUL || r[1] == 'N' || (r[1] != 'C' && !c.unknownIsFatal))
  }

  /** No NUL, no backslash before a line break or with a client command, no line that is a command, no server comment in
      a comment or comment in a server comment, no answer that ends the session. */
  ghost predicate PlainAt(c: Config, d: string, f: Flat, r: string)
    requires r != ""
  {
    && r[0] != NUL
    && if r[0] == '\n' then f.quote == NUL && !f.comment ==> !IsDelimiterCommand(f.seg)
       else if !c.preserveComments && f.cur == "" && IsSpace(r[0]) then true
       else if f.comment then !Starts("/*!", r)
       else if r[0] == '\\' && !(f.quote != NUL && c.noBackslashEscapes) then Escapes(c, f, r)
       else if f.quote != NUL then true
       else if Starts(d, r) then Sendable(c, f.cur, Tail(c, r[|d|..])) && !IsCommand(f.cur + Tail(c, r[|d|..]))
       else if LineCommentAt(r) then c.preserveComments ==> Sendable(c, f.cur, FirstPiece(r))
       else Opens(r) ==> !f.server
  }

  ghost predicate Sendable(c: Config, cur: string, t: string) { NUL !in t && !c.fatal(RemoveCntrl(c, cur + t)) }

  ghost predicate Plain(c: Config, d: string, f: Flat, r: string)
    requires d != ""
    decreases |r|
  {
    r != "" ==> PlainAt(c, d, f, r) && var (g, n) := FlatStep(c, d, f, r); 1 <= n <= |r| && Plain(c, d, g, r[n..])
  }

  ghost function FlatRun(c: Config, d: string, f: Flat, r: string): Flat
    requires d != ""
    decreases |r|
  {
    if r == "" then f
    else var (g, n) := FlatStep(c, d, f, r); if 1 <= n <= |r| then FlatRun(c, d, g, r[n..]) else g
  }

  /** One step of the flat reader. */
  lemma PlainStep(c: Config, d: string, f: Flat, r: string)
    requires d != "" && r != "" && PlainAt(c, d, f, r) && 1 <= FlatStep(c, d, f, r).1 <= |r|
    ensures var (g, n) := FlatStep(c, d, f, r);
            FlatRun(c, d, f, r) == FlatRun(c, d, g, r[n..]) && (Plain(c, d, g, r[n..]) ==> Plain(c, d, f, r))
  {
    hide PlainAt, FlatStep;
  }

  /** What every state of the reader keeps. */
  ghost predicate Shape(c: Config, f: Flat) {
    && IsQuoteOrNul(f.quote)
    && (f.cur == "" ==> f.quote == NUL && f.seg == "")
    && (f.quote != NUL ==> !f.comment && !f.space)
    && (f.comment ==> !f.server && if c.preserveComments then f.cur != "" else f.seg == "")
  }

  ghost predicate IsQuoteOrNul(q: char) { q == NUL || IsQuote(q) }

  lemma StepKeepsShape(c: Config, d: string, f: Flat, r: string)
    requires r != "" && PlainAt(c, d, f, r) && Shape(c, f)
    ensures Shape(c, FlatStep(c, d, f, r).0)
  {
    hide IsCommand, IsDelimiterCommand, DashComment, Tail, RemoveCntrl, FirstPiece, IsSpace;
    assert Starts("/*!", r) ==> r[0] == '/';
    assert Starts("*/", r) ==> r[0] == '*';
  }

  // ---------- reading line by line ----------

  ghost function LineRun(c: Config, s: Scan, t: string): Scan
    requires s.delimiter != ""
    decreases |t|
  {
    if t == "" || s.quit then s else LineRun(c, TakeLine(c, s, FirstPiece(t), false), AfterPiece(t))
  }

  ghost predicate NoCommandLine(t: string) { forall l :: l in SplitLines(t) ==> !IsCommand(l) }

  /** The scan stands where the flat reader stands. */
  ghost predicate Same(d: string, s: Scan, f: Flat) {
    && s.delimiter == d && !s.quit && s.mlComment == f.comment && s.ssComment == f.server && s.needSpace == f.space
    && s.buffer + s.out == f.cur && s.out == f.seg && s.inString == f.quote && s.sent == f.sent
  }

  /** At the start of a line two flags do not matter: `add_line` sets them. */
  ghost predicate SameAtStart(d: string, s: Scan, f: Flat) {
    Same(d, s.(ssComment := false, needSpace := false), f) && s.out == ""
  }

  /** What follows position pos of a line: the rest of the line, its break and the rest of the text. */
  ghost function After(line: string, pos: nat, broken: bool, t: string): string
    requires pos <= |line|
  {
    line[pos..] + (if broken then "\n" + t else t)
  }

  ghost predicate LineOk(line: string, broken: bool, t: string, d: string) {
    '\n' !in line && (!broken ==> t == "") && '\n' !in d && d != ""
  }

  lemma SameFields(d: string, s: Scan, f: Flat)
    requires Same(d, s, f)
    ensures s.delimiter == d && !s.quit && s.mlComment == f.comment && s.ssComment == f.server && s.needSpace == f.space
    ensures s.buffer + s.out == f.cur && s.out == f.seg && s.inString == f.quote && s.sent == f.sent
    ensures f.cur == "" <==> s.buffer == "" && s.out == ""
  {
  }

  // ---------- what the line shows is what the text shows ----------

  lemma PrefixInLine(p: string, line: string, pos: nat, broken: bool, t: string)
    requires pos <= |line| && '\n' !in p && (!broken ==> t == "")
    ensures p <= line[pos..] <==> Starts(p, After(line, pos, broken, t))
  {
    var r, rest := After(line, pos, broken, t), line[pos..];
    assert |r| > |rest| ==> r[|rest|] == '\n';
  }

  lemma AfterAt(line: string, pos: nat, broken: bool, t: string)
    requires pos < |line|
    ensures var r := After(line, pos, broken, t);
            && r != "" && r[0] == line[pos]
            && (pos + 1 < |line| ==> |r| > 1 && r[1] == line[pos + 1])
            && (pos + 2 < |line| ==> |r| > 2 && r[2] == line[pos + 2])
            && (pos + 1 == |line| ==> if broken then |r| > 1 && r[1] == '\n' else r == [line[pos]] + t)
            && (pos + 2 == |line| ==> if broken then |r| > 2 && r[2] == '\n' else r == line[pos..pos + 2] + t)
  {
  }

  lemma TwoInLine(line: string, pos: nat, a: char, b: char)
    requires pos <= |line| && a != NUL && b != NUL
    ensures Peek(line, pos) == a && Peek(line, pos + 1) == b <==> [a, b] <= line[pos..]
  {
  }

  lemma ThreeInLine(line: string, pos: nat, a: char, b: char, e: char)
    requires pos <= |line| && a != NUL && b != NUL && e != NUL
    ensures Peek(line, pos) == a && Peek(line, pos + 1) == b && Peek(line, pos + 2) == e <==> [a, b, e] <= line[pos..]
  {
  }

  lemma CommentsInLine(line: string, pos: nat, broken: bool, t: string)
    requires pos < |line| && (!broken ==> t == "") && '\n' !in line
    ensures var r := After(line, pos, broken, t);
            && LineComment(line, pos) == LineCommentAt(r) && CommentOpens(line, pos) == Opens(r)
            && CommentCloses(line, pos) == Starts("*/", r)
            && (Peek(line, pos) == '/' && Peek(line, pos + 1) == '*' && Peek(line, pos + 2) == '!' <==> Starts("/*!", r))
  {
    AfterAt(line, pos, broken, t);
    TwoInLine(line, pos, '/', '*');
    TwoInLine(line, pos, '*', '/');
    ThreeInLine(line, pos, '/', '*', '!');
    PrefixInLine("/*", line, pos, broken, t);
    PrefixInLine("*/", line, pos, broken, t);
    PrefixInLine("/*!", line, pos, broken, t);
    hide Starts;
    assert "/*" == ['/', '*'] && "*/" == ['*', '/'] && "/*!" == ['/', '*', '!'];
  }

  lemma {:induction false} PieceInLine(line: string, pos: nat, broken: bool, t: string, k: nat)
    requires pos <= k <= |line| && (!broken ==> t == "") && '\n' !in line
    ensures var r := After(line, pos, broken, t); k - pos <= |r| && BreakFrom(r, k - pos) == |line| - pos
    decreases |line| - k
  {
    var r := After(line, pos, broken, t);
    if k < |line| {
      assert r[k - pos] == line[k];
      PieceInLine(line, pos, broken, t, k + 1);
    }
  }

  lemma RestOfLine(line: string, pos: nat, broken: bool, t: string)
    requires pos <= |line| && (!broken ==> t == "") && '\n' !in line
    ensures FirstPiece(After(line, pos, broken, t)) == line[pos..]
  {
    PieceInLine(line, pos, broken, t, pos);
    assert After(line, pos, broken, t)[..|line| - pos] == line[pos..];
  }

  lemma {:induction false} BlanksInLine(line: string, pos: nat, broken: bool, t: string)
    requires pos <= |line| && (!broken ==> t == "") && '\n' !in line
    ensures Blanks(After(line, pos, broken, t)) == line[pos..pos + SpacesFrom(line, pos)]
    decreases |line| - pos
  {
    var r := After(line, pos, broken, t);
    if pos < |line| && IsSpace(line[pos]) {
      assert r[0] == line[pos] && r[1..] == After(line, pos + 1, broken, t);
      BlanksInLine(line, pos + 1, broken, t);
      assert line[pos..pos + SpacesFrom(line, pos)] == [line[pos]] + line[pos + 1..pos + SpacesFrom(line, pos)];
    } else if pos < |line| {
      assert r[0] == line[pos];
    } else {
      assert r == if broken then "\n" + t else "";
    }
  }

  lemma {:induction false} CStringIsRest(line: string, pos: nat)
    requires pos <= |line| && NUL !in line[pos..]
    ensures CString(line, pos) == line[pos..]
    decreases |line| - pos
  {
    if pos < |line| {
      assert line[pos..][0] == line[pos] && line[pos..] == [line[pos]] + line[pos + 1..];
      CStringIsRest(line, pos + 1);
    }
  }

  lemma FollowsInLine(line: string, q: nat, broken: bool, t: string)
    requires q <= |line| && (!broken ==> t == "") && '\n' !in line
    ensures Follows(After(line, q, broken, t)) == CommentFollows(line, q)
  {
    hide IsSpace, After;
    BlankMarks();
    if q < |line| { AfterAt(line, q, broken, t); } else { AfterEnd(line, broken, t); }
  }

  lemma AfterEnd(line: string, broken: bool, t: string)
    ensures After(line, |line|, broken, t) == if broken then "\n" + t else t
  {
  }

  /** What `add_line` takes along behind the delimiter. */
  lemma TailInLine(c: Config, line: string, p: nat, broken: bool, t: string)
    requires c.preserveComments && p <= |line| && (!broken ==> t == "") && '\n' !in line
    ensures var q, tail := p + SpacesFrom(line, p), Tail(c, After(line, p, broken, t));
            tail == if CommentFollows(line, q) then line[p..] else line[p..q]
  {
    hide *;
    var n := SpacesFrom(line, p);
    TailIs(c, After(line, p, broken, t), n);
    BlanksInLine(line, p, broken, t);
    RestOfLine(line, p, broken, t);
    FollowsInLine(line, p + n, broken, t);
    AfterMore(line, p, n, broken, t);
  }

  lemma TailIs(c: Config, r: string, n: nat)
    requires c.preserveComments
    ensures |Blanks(r)| == n ==> n <= |r| && Tail(c, r) == if Follows(r[n..]) then FirstPiece(r) else Blanks(r)
  {
    hide Blanks, Follows, FirstPiece;
  }

  lemma AfterMore(line: string, p: nat, n: nat, broken: bool, t: string)
    requires p + n <= |line|
    ensures |line[p..p + n]| == n && n <= |After(line, p, broken, t)|
    ensures After(line, p, broken, t)[n..] == After(line, p + n, broken, t)
  {
  }

  lemma BlankMarks()
    ensures IsSpace('\n') && !IsSpace(NUL) && !IsSpace('#') && !IsSpace('-') && !IsSpace('*') && !IsSpace('/')
  {
  }

  // ---------- one step ----------

  lemma {:induction false} CompleteIsSend(c: Config, d: string, s: Scan, f: Flat, t: string)
    requires Same(d, s, f) && !IsCommand(f.cur + t) && !c.fatal(RemoveCntrl(c, f.cur + t))
    ensures Same(d, Complete(c, Flush(s).(buffer := s.buffer + s.out + t)),
                 f.(cur := "", seg := "", sent := f.sent + SendCur(c, f.cur + t)))
    ensures Same(d, Go(c, Flush(s).(buffer := s.buffer + s.out + t)),
                 f.(cur := "", seg := "", sent := f.sent + SendCur(c, f.cur + t)))
  {
    hide IsCommand, RemoveCntrl;
  }

  lemma DelimiterStep(c: Config, d: string, s: Scan, f: Flat, line: string, pos: nat, broken: bool, t: string)
    requires pos <= |line| && LineOk(line, broken, t, d) && Same(d, s, f) && DelimiterAt(s, line, pos)
    requires Starts(d, After(line, pos, broken, t)) && pos + |d| <= |line|
    requires var tail := Tail(c, After(line, pos + |d|, broken, t)); Sendable(c, f.cur, tail) && !IsCommand(f.cur + tail)
    ensures var n, tail := AtDelimiter(c, s, line, pos), Tail(c, After(line, pos + |d|, broken, t));
            Same(d, n.s, f.(cur := "", seg := "", sent := f.sent + SendCur(c, f.cur + tail))) && n.pos == pos + |d| + |tail|
            && n.pos <= |line|
  {
    hide IsCommand, RemoveCntrl, Complete, After, SpacesFrom, CommentFollows, Tail, Same, Flush, CString, DelimiterAt, SendCur;
    var p := pos + |d|;
    var tail := Tail(c, After(line, p, broken, t));
    SameFields(d, s, f);
    if c.preserveComments {
      TailInLine(c, line, p, broken, t);
      var q := p + SpacesFrom(line, p);
      if CommentFollows(line, q) { RestHasNoNul(line, p, q); CStringIsRest(line, q); }
      Flushed(s, line, p, q);
    } else {
      NoTail(c, After(line, p, broken, t));
      Flushed(s, line, p, p);
    }
    CompleteIsSend(c, d, s, f, tail);
  }

  lemma RestHasNoNul(line: string, p: nat, q: nat)
    requires p <= q <= |line| && NUL !in line[p..]
    ensures NUL !in line[q..]
  {
    assert line[q..] == line[p..][q - p..];
  }

  lemma Flushed(s: Scan, line: string, p: nat, q: nat)
    requires p <= q <= |line|
    ensures var s1 := Flush(s.(out := s.out + line[p..q]));
            && s1 == Flush(s).(buffer := s.buffer + s.out + line[p..q]) && |line[p..q]| == q - p
            && s1.(buffer := s1.buffer + line[q..]) == Flush(s).(buffer := s.buffer + s.out + line[p..])
            && q + |line[q..]| == |line| == p + |line[p..]| && (p == q ==> line[p..q] == "")
  {
    assert s.buffer + (s.out + line[p..q]) == s.buffer + s.out + line[p..q];
    assert line[p..q] + line[q..] == line[p..];
    assert s.buffer + s.out + line[p..q] + line[q..] == s.buffer + s.out + line[p..];
  }

  lemma NoTail(c: Config, r: string)
    requires !c.preserveComments
    ensures Tail(c, r) == ""
  {
  }

  lemma LineCommentStep(c: Config, d: string, s: Scan, f: Flat, line: string, pos: nat, broken: bool, t: string)
    requires pos <= |line| && LineOk(line, broken, t, d) && Same(d, s, f)
    requires c.preserveComments ==> Sendable(c, f.cur, FirstPiece(After(line, pos, broken, t)))
    ensures var n, (g, k) := AtLineComment(c, s, line, pos), SkipLine(c, f, After(line, pos, broken, t));
            Same(d, n.s, g) && n.pos == pos + k && n.pos <= |line|
  {
    hide RemoveCntrl, After, FirstPiece, CString, IsCommand;
    RestOfLine(line, pos, broken, t);
    assert s.buffer + s.out + "" == s.buffer + s.out;
    if c.preserveComments {
      CStringIsRest(line, pos);
      if f.cur == "" {
        assert f.cur + line[pos..] == line[pos..] && s.buffer + s.out + line[pos..] == line[pos..];
      } else {
        assert s.buffer + s.out + line[pos..] + "" == f.cur + line[pos..];
      }
    }
  }

  lemma TakeStep(c: Config, d: string, s: Scan, f: Flat, line: string, pos: nat, r: string)
    requires pos < |line| && Same(d, s, f) && r != "" && r[0] == line[pos] && (!f.comment || c.preserveComments)
    requires CommentCloses(line, pos) == Starts("*/", r)
    requires Peek(line, pos) == '/' && Peek(line, pos + 1) == '*' && Peek(line, pos + 2) == '!' <==> Starts("/*!", r)
    ensures var n := Take(c, s, line, pos); Same(d, n.s, Extend(f, r)) && n.pos == pos + 1
  {
    hide IsSpace, CommentCloses, Starts;
    var ch := line[pos];
    var gap := if s.needSpace && !IsSpace(ch) then " " else "";
    var t := if f.space && !IsSpace(ch) then [' ', ch] else [ch];
    assert gap + [ch] == t && s.out + gap + [ch] == s.out + t && s.buffer + (s.out + t) == s.buffer + s.out + t;
    assert Starts("/*!", r) ==> !Starts("*/", r) by { SlashOrStar(r); }
  }

  lemma SlashOrStar(r: string)
    ensures !(Starts("/*!", r) && Starts("*/", r))
  {
    assert Starts("/*!", r) ==> r[0] == '/';
  }

  /** A character of a comment that is not preserved. */
  lemma DropStep(c: Config, d: string, s: Scan, f: Flat, line: string, pos: nat)
    requires pos < |line| && Same(d, s, f) && Shape(c, f) && f.comment && !c.preserveComments && line[pos] != NUL
    requires !(Peek(line, pos) == '/' && Peek(line, pos + 1) == '*' && Peek(line, pos + 2) == '!')
    ensures Take(c, s, line, pos) == Next(s, pos + 1)
  {
  }

  lemma BackslashStep(c: Config, d: string, s: Scan, f: Flat, line: string, pos: nat, x: char)
    requires pos + 1 < |line| && Same(d, s, f) && line[pos] == '\\' && line[pos + 1] == x && x != NUL
    requires s.inString != NUL || x == 'N' || (x != 'C' && !c.unknownIsFatal)
    ensures var n := Backslash(c, s, line, pos);
            Same(d, n.s, f.(cur := f.cur + ['\\', x], seg := f.seg + ['\\', x])) && n.pos == pos + 2
  {
    assert s.buffer + (s.out + ['\\', x]) == s.buffer + s.out + ['\\', x];
  }

  lemma OpenStep(c: Config, d: string, s: Scan, f: Flat)
    requires Same(d, s, f)
    ensures Same(d, Flush(s.(mlComment := true, out := s.out + if c.preserveComments then "/*" else "")), Open(c, f))
    ensures Same(d, Flush(s.(mlComment := false, out := s.out + if c.preserveComments then "*/" else "")).(needSpace := true), Close(c, f))
  {
    assert forall x: string :: s.buffer + (s.out + x) + "" == s.buffer + s.out + x;
  }

  /** One step of the scan is one step of the flat reader. */
  lemma StepIsFlat(c: Config, d: string, s: Scan, f: Flat, line: string, pos: nat, broken: bool, t: string)
    requires pos < |line| && LineOk(line, broken, t, d) && Same(d, s, f) && Shape(c, f)
    requires PlainAt(c, d, f, After(line, pos, broken, t))
    ensures var n, (g, k) := Step(c, s, line, pos), FlatStep(c, d, f, After(line, pos, broken, t));
            Same(d, n.s, g) && n.pos == pos + k && n.pos <= |line|
  {
    hide IsSpace, RemoveCntrl, IsCommand, IsDelimiterCommand, LineComment, LineCommentAt, CommentOpens, CommentCloses, Opens;
    hide Starts, After, Take, Backslash, AtDelimiter, AtLineComment, Flush, Same, Extend, Open, Close, SkipLine, Peek, Tail, Sendable;
    var r, ch := After(line, pos, broken, t), line[pos];
    SameFields(d, s, f);
    AfterAt(line, pos, broken, t);
    CommentsInLine(line, pos, broken, t);
    PrefixInLine(d, line, pos, broken, t);
    if !c.preserveComments && f.cur == "" && IsSpace(ch) {
    } else if !f.comment && ch == '\\' && !(f.quote != NUL && c.noBackslashEscapes) {
      assert r[..2] == ['\\', r[1]];
      BackslashStep(c, d, s, f, line, pos, r[1]);
    } else if f.quote != NUL {
      TakeStep(c, d, s, f, line, pos, r);
    } else if !f.comment && Starts(d, r) {
      AfterPrefix(line, pos, d, broken, t);
      DelimiterStep(c, d, s, f, line, pos, broken, t);
    } else if !f.comment && LineCommentAt(r) {
      LineCommentStep(c, d, s, f, line, pos, broken, t);
    } else {
      OpenStep(c, d, s, f);
      TwoLong(line, pos);
      if !Opens(r) && !(f.comment && Starts("*/", r)) {
        if f.comment && !c.preserveComments { DropStep(c, d, s, f, line, pos); } else { TakeStep(c, d, s, f, line, pos, r); }
      }
    }
  }

  lemma AfterPrefix(line: string, pos: nat, d: string, broken: bool, t: string)
    requires pos <= |line| && d <= line[pos..]
    ensures pos + |d| <= |line| && After(line, pos, broken, t)[|d|..] == After(line, pos + |d|, broken, t)
  {
  }

  lemma TwoLong(line: string, pos: nat)
    requires pos < |line|
    ensures CommentOpens(line, pos) || CommentCloses(line, pos) ==> pos + 2 <= |line|
  {
  }

  // ---------- lines and characters agree ----------

  /** Past the last character of a line: its break is one more character. */
  lemma BreakIsFlat(c: Config, d: string, s: Scan, f: Flat, t: string)
    requires Same(d, s, f) && Shape(c, f) && PlainAt(c, d, f, "\n" + t)
    ensures var (g, k) := FlatStep(c, d, f, "\n" + t); k == 1 && SameAtStart(d, EndLine(c, s, false), g)
  {
    hide IsDelimiterCommand, IsCommand;
    assert s.out + "\n" + "" == s.out + "\n";
    assert s.buffer + (s.out + "\n") + "" == s.buffer + s.out + "\n";
  }

  ghost predicate Agrees(s: Scan, f: Flat) {
    s.sent == f.sent && (s.buffer == f.cur || s.buffer == f.cur + "\n") && (f.cur == "" ==> s.buffer == "")
  }

  /** The text ends in a line without a break. */
  lemma EndAgrees(c: Config, d: string, s: Scan, f: Flat)
    requires Same(d, s, f) && Shape(c, f)
    ensures Agrees(EndLine(c, s, false), f)
  {
    hide IsDelimiterCommand;
    assert s.buffer + (s.out + "\n") == f.cur + "\n" && s.buffer + (s.out + "") == f.cur;
  }

  /** From the middle of a line on, the line-by-line reader ends where the flat one does. */
  lemma {:induction false} InLine(c: Config, d: string, s: Scan, f: Flat, line: string, pos: nat, broken: bool, t: string)
    requires pos <= |line| && LineOk(line, broken, t, d) && Same(d, s, f) && Shape(c, f)
    requires Plain(c, d, f, After(line, pos, broken, t)) && NoCommandLine(t)
    ensures Agrees(LineRun(c, EndLine(c, ScanFrom(c, s, line, pos), false), t), FlatRun(c, d, f, After(line, pos, broken, t)))
    decreases |After(line, pos, broken, t)|, 0
  {
    hide StatementSplitter.Step, FlatStep, PlainAt, NoCommandLine, Same, Agrees, Shape, EndLine;
    var r := After(line, pos, broken, t);
    SameFields(d, s, f);
    if pos < |line| {
      StepIsFlat(c, d, s, f, line, pos, broken, t);
      var n := StatementSplitter.Step(c, s, line, pos);
      var (g, k) := FlatStep(c, d, f, r);
      assert r[k..] == After(line, n.pos, broken, t);
      StepKeepsShape(c, d, f, r);
      InLine(c, d, n.s, g, line, n.pos, broken, t);
    } else if broken {
      assert r == "\n" + t;
      BreakIsFlat(c, d, s, f, t);
      assert r[1..] == t;
      StepKeepsShape(c, d, f, r);
      AtLineStart(c, d, EndLine(c, s, false), FlatStep(c, d, f, r).0, t);
    } else {
      assert r == "";
      EndAgrees(c, d, s, f);
    }
  }

  /** At the start of a line. */
  lemma {:induction false} AtLineStart(c: Config, d: string, s: Scan, f: Flat, t: string)
    requires d != "" && '\n' !in d && SameAtStart(d, s, f) && Shape(c, f)
    requires Plain(c, d, f, t) && NoCommandLine(t)
    ensures Agrees(LineRun(c, s, t), FlatRun(c, d, f, t))
    decreases |t|, 1
  {
    hide StatementSplitter.Step, FlatStep, PlainAt, Same, IsDelimiterCommand, IsCommand, NoCommandLine, After, Agrees, Shape;
    hide FirstPiece, AfterPiece, EndLine, ScanFrom;
    var s0 := s.(ssComment := false, needSpace := false, out := "");
    assert s0 == s.(ssComment := false, needSpace := false);
    SameFields(d, s0, f);
    if t == "" {
      StartAgrees(d, s, f);
    } else {
      var line, t2 := FirstPiece(t), AfterPiece(t);
      var broken := FirstLine(t, d);
      if Peek(line, 0) == NUL && s.buffer == "" {
        EmptyLine(c, d, f, line, broken, t2);
        assert t[1..] == t2;
        AtLineStart(c, d, s, f, t2);
      } else {
        InLine(c, d, s0, f, line, 0, broken, t2);
      }
    }
  }

  lemma StartAgrees(d: string, s: Scan, f: Flat)
    requires SameAtStart(d, s, f)
    ensures Agrees(s, f)
  {
    assert s.buffer + "" == s.buffer;
  }

  /** An empty line before a statement. */
  lemma EmptyLine(c: Config, d: string, f: Flat, line: string, broken: bool, t: string)
    requires Peek(line, 0) == NUL && LineOk(line, broken, t, d) && After(line, 0, broken, t) != ""
    requires PlainAt(c, d, f, After(line, 0, broken, t)) && f.cur == "" && f.seg == "" && !f.server && !f.space
    ensures line == "" && broken && FlatStep(c, d, f, After(line, 0, broken, t)) == (f, 1)
    ensures After(line, 0, broken, t) == "\n" + t && ("\n" + t)[1..] == t
  {
    assert After(line, 0, broken, t) == line + (if broken then "\n" + t else t);
  }

  /** The first line of a text, its break and the rest. */
  lemma FirstLine(t: string, d: string) returns (broken: bool)
    requires t != "" && d != "" && '\n' !in d && NoCommandLine(t)
    ensures var line, t2 := FirstPiece(t), AfterPiece(t);
            t == After(line, 0, broken, t2) && LineOk(line, broken, t2, d) && !IsCommand(line) && NoCommandLine(t2)
  {
    hide IsCommand;
    var line, t2 := FirstPiece(t), AfterPiece(t);
    broken := BreakFrom(t, 0) < |t|;
    assert t == After(line, 0, broken, t2);
    assert line == SplitLines(t)[0];
    assert forall l :: l in SplitLines(t2) ==> l in SplitLines(t);
  }

  ghost function Fresh(sent: seq<Sent>): Flat { Flat("", "", NUL, false, false, false, sent) }

  /** Between statements. */
  ghost predicate Idle(s: Scan) { s.buffer == "" && s.out == "" && s.inString == NUL && !s.mlComment && !s.quit }

  /** Any plain text, fed in line by line, sends exactly what reading it character by character sends. */
  lemma LinesDoNotMatter(c: Config, s: Scan, t: string)
    requires s.delimiter != "" && '\n' !in s.delimiter && Idle(s)
    requires Plain(c, s.delimiter, Fresh(s.sent), t) && NoCommandLine(t)
    ensures Agrees(LineRun(c, s, t), FlatRun(c, s.delimiter, Fresh(s.sent), t))
  {
    hide Plain, FlatRun, LineRun, NoCommandLine;
    AtLineStart(c, s.delimiter, s, Fresh(s.sent), t);
  }
}
