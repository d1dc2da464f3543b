/** What the splitter of client/mysql.cc sends for a file of statements: exactly the statements written there,
    one by one and in order, up to blanks around them, whether or not it preserves comments. */
module SentStatements {
  import opened Text
  import opened StatementSplitter
  import opened SplitterMeaning

  // ---------- the text that is sent for a statement ----------

  ghost function StripBreaks(s: string): string {
    if s != "" && s[0] == '\n' then StripBreaks(s[1..]) else s
  }

  /** Before a statement all blanks are dropped; when comments are preserved only the line breaks are. */
  ghost function Lead(c: Config, s: string): string {
    if c.preserveComments then StripBreaks(s) else StripLeft(s)
  }

  /** When comments are preserved, the blanks behind a delimiter went with the statement before. */
  ghost function Given(c: Config, stmt: string, first: bool): string {
    if c.preserveComments && !first then stmt[|Blanks(stmt)|..] else stmt
  }

  /** Where the last graphic character ends. */
  ghost function LastGraphic(c: Config, s: string): (k: nat)
    ensures CutsBehind(c, s, k)
  {
    assert CutsBehind(c, s, |RemoveCntrl(c, s)|);
    var k :| CutsBehind(c, s, k); k
  }

  /** What must be sent: each statement without (some) leading blanks, cut behind its last graphic character. */
  ghost function Expected(c: Config, stmts: seq<string>, first: bool): seq<Sent> {
    if stmts == [] then []
    else
      var text := Lead(c, Given(c, stmts[0], first));
      var k := LastGraphic(c, text);
      (if k == 0 then [] else [Statement(text[..k])]) + Expected(c, stmts[1..], false)
  }

  lemma CutIsSent(c: Config, text: string)
    ensures SendCur(c, text) == if LastGraphic(c, text) == 0 then [] else [Statement(text[..LastGraphic(c, text)])]
  {
    hide LastGraphic;
    var t, k := RemoveCntrl(c, text), LastGraphic(c, text);
    assert text[..|t|] == t;
    OneCut(c, text, |t|, k);
  }

  lemma OneCut(c: Config, s: string, j: nat, k: nat)
    requires CutsBehind(c, s, j) && CutsBehind(c, s, k)
    ensures j == k
  {
  }

  /** What is dropped in front of a statement is blanks, and all of them unless comments are preserved. */
  lemma UpToLeadingBlanks(c: Config, stmt: string, first: bool)
    ensures StripLeft(Lead(c, Given(c, stmt, first))) == StripLeft(stmt)
    ensures !c.preserveComments ==> Lead(c, Given(c, stmt, first)) == StripLeft(stmt)
  {
    hide StripLeft, StripBreaks, Blanks;
    BlanksAreStripped(stmt);
    BreaksAreStripped(Given(c, stmt, first));
    StrippedTwice(stmt);
  }

  lemma {:induction false} BlanksAreStripped(s: string)
    ensures StripLeft(s[|Blanks(s)|..]) == StripLeft(s)
  {
    if s != "" && IsSpace(s[0]) && s[0] != '\n' {
      BlanksAreStripped(s[1..]);
      assert s[|Blanks(s)|..] == s[1..][|Blanks(s[1..])|..];
    } else {
      assert s[0..] == s;
    }
  }

  lemma {:induction false} BreaksAreStripped(s: string)
    ensures StripLeft(StripBreaks(s)) == StripLeft(s)
  {
    if s != "" && s[0] == '\n' { BreaksAreStripped(s[1..]); }
  }

  lemma {:induction false} StrippedTwice(s: string)
    ensures StripLeft(StripLeft(s)) == StripLeft(s)
  {
    if s != "" && IsSpace(s[0]) { StrippedTwice(s[1..]); }
  }

  lemma {:induction false} LeadSnoc(c: Config, p: string, t: string)
    ensures Lead(c, p + t) == if Lead(c, p) == "" then Lead(c, t) else Lead(c, p) + t
    decreases |p|
  {
    if p == "" {
      assert p + t == t;
    } else if IsSpace(p[0]) {
      assert (p + t)[1..] == p[1..] + t;
      LeadSnoc(c, p[1..], t);
    }
  }

  // ---------- a statement that can be written in front of the delimiter ----------

  /** A delimiter that cannot be mistaken for blanks or an escape (or a comment behind a delimiter). */
  ghost predicate DelimiterOk(c: Config, d: string) {
    && d != "" && '\n' !in d && d[0] != NUL && !IsSpace(d[0]) && d[0] != '\\'
    && (c.preserveComments ==> d[0] != '#' && d[0] != '-')
  }

  /** The character tables: no blank is printed. */
  ghost predicate BlanksAreControl(c: Config) { forall ch :: IsSpace(ch) ==> !c.isGraph(ch) }

  /** In the middle of a statement: no delimiter and no comment. */
  ghost predicate Inside(d: string, f: Flat, r: string) {
    !f.comment && !f.space && (f.quote != NUL || (!Starts(d, r) && !LineCommentAt(r) && !Opens(r)))
  }

  /** k characters of a statement are left in r, the delimiter follows: they are plain, the delimiter
      comes outside quotes and not earlier. */
  ghost predicate CleanFrom(c: Config, d: string, f: Flat, r: string, k: nat)
    requires k <= |r| && d != ""
    decreases k
  {
    if k == 0 then
      f.quote == NUL && !f.comment && !f.space && !f.server && !IsCommand(f.cur) && !c.fatal(RemoveCntrl(c, f.cur))
    else
      && PlainAt(c, d, f, r) && Inside(d, f, r)
      && var (g, n) := FlatStep(c, d, f, r); 1 <= n <= k && CleanFrom(c, d, g, r[n..], k - n)
  }

  ghost predicate CleanStatement(c: Config, d: string, stmt: string)
    requires d != ""
  {
    forall first :: CleanFrom(c, d, Fresh([]), Given(c, stmt, first) + d, |Given(c, stmt, first)|)
  }

  ghost function Written(d: string, stmts: seq<string>): string {
    if stmts == [] then "" else stmts[0] + d + Written(d, stmts[1..])
  }

  lemma CleanStep(c: Config, d: string, f: Flat, r: string, k: nat)
    requires 0 < k <= |r| && d != "" && CleanFrom(c, d, f, r, k)
    ensures var (g, n) := FlatStep(c, d, f, r);
            PlainAt(c, d, f, r) && Inside(d, f, r) && 1 <= n <= k && CleanFrom(c, d, g, r[n..], k - n)
  {
    hide PlainAt, FlatStep, Inside;
  }

  lemma CleanEnd(c: Config, d: string, f: Flat, r: string)
    requires d != "" && CleanFrom(c, d, f, r, 0)
    ensures f.quote == NUL && !f.comment && !f.space && !f.server && !IsCommand(f.cur) && !c.fatal(RemoveCntrl(c, f.cur))
  {
  }

  lemma StepIgnoresSent(c: Config, d: string, f: Flat, sent: seq<Sent>, r: string)
    requires r != "" && Inside(d, f, r)
    ensures FlatStep(c, d, f.(sent := sent), r) == (FlatStep(c, d, f, r).0.(sent := sent), FlatStep(c, d, f, r).1)
    ensures FlatStep(c, d, f, r).0.sent == f.sent
    ensures PlainAt(c, d, f.(sent := sent), r) == PlainAt(c, d, f, r)
  {
    hide IsCommand, IsDelimiterCommand, RemoveCntrl, LineCommentAt, Opens, Starts, IsSpace;
  }

  lemma {:induction false} CleanIgnoresSent(c: Config, d: string, f: Flat, sent: seq<Sent>, r: string, k: nat)
    requires k <= |r| && d != "" && CleanFrom(c, d, f, r, k)
    ensures CleanFrom(c, d, f.(sent := sent), r, k)
    decreases k
  {
    hide IsCommand, IsDelimiterCommand, RemoveCntrl, FlatStep, PlainAt;
    if k > 0 {
      StepIgnoresSent(c, d, f, sent, r);
      var (g, n) := FlatStep(c, d, f, r);
      CleanIgnoresSent(c, d, g, sent, r[n..], k - n);
    }
  }

  // ---------- reading one statement ----------

  /** Text behind the delimiter does not matter while the statement is read. */
  lemma LookAhead(c: Config, d: string, f: Flat, r: string, rest: string)
    requires |r| > |d| >= 1 && PlainAt(c, d, f, r) && Inside(d, f, r)
    ensures PlainAt(c, d, f, r + rest) && FlatStep(c, d, f, r + rest) == FlatStep(c, d, f, r)
    ensures Inside(d, f, r + rest)
  {
    hide IsCommand, IsDelimiterCommand, RemoveCntrl, IsSpace, Tail, EndStatement, SkipLine;
    var x := r + rest;
    assert x[0] == r[0] && x[1] == r[1] && x[..2] == r[..2];
    assert |r| > 2 ==> x[2] == r[2];
    assert x[..|d|] == r[..|d|];
    assert Starts("/*", x) <==> Starts("/*", r);
    assert Starts("*/", x) <==> Starts("*/", r);
    assert |r| > 2 ==> (Starts("/*!", x) <==> Starts("/*!", r));
    assert |r| == 2 && Starts("/*!", x) ==> Starts("/*", r);
  }

  /** The statement read so far is what was consumed of it, without leading blanks. */
  lemma CurIsLead(c: Config, d: string, f: Flat, r: string, p: string)
    requires r != "" && PlainAt(c, d, f, r) && Inside(d, f, r) && f.cur == Lead(c, p)
    ensures var (g, n) := FlatStep(c, d, f, r); n <= |r| && g.cur == Lead(c, p + r[..n])
  {
    hide IsCommand, IsDelimiterCommand, RemoveCntrl, LineCommentAt, Opens, Starts, Lead, EndStatement, SkipLine, Tail;
    var (g, n) := FlatStep(c, d, f, r);
    LeadSnoc(c, p, r[..n]);
    LeadOfOne(c, r[0]);
    assert n == 1 ==> r[..1] == [r[0]];
    if n == 2 { LeadOfTwo(c, r[..2]); }
  }

  lemma LeadOfOne(c: Config, ch: char)
    ensures Lead(c, [ch]) == if ch == '\n' || (!c.preserveComments && IsSpace(ch)) then "" else [ch]
  {
    assert [ch][1..] == "" && StripLeft("") == "" && StripBreaks("") == "";
  }

  lemma LeadOfTwo(c: Config, t: string)
    requires |t| == 2 && !IsSpace(t[0])
    ensures Lead(c, t) == t
  {
  }

  ghost predicate AllBlank(t: string) { forall i :: 0 <= i < |t| ==> IsSpace(t[i]) }

  /** Blanks behind a statement do not change what is sent. */
  lemma {:induction false} BlanksAreCut(c: Config, cur: string, t: string)
    requires BlanksAreControl(c) && AllBlank(t)
    ensures RemoveCntrl(c, cur + t) == RemoveCntrl(c, cur)
  {
    if t == "" {
      assert cur + t == cur;
    } else {
      assert (cur + t)[..|cur + t| - 1] == cur + t[..|t| - 1];
      BlanksAreCut(c, cur, t[..|t| - 1]);
    }
  }

  lemma BlanksAreNoCommand(cur: string, t: string)
    requires AllBlank(t) && !IsCommand(cur)
    ensures !IsCommand(cur + t)
  {
    hide IsDelimiterCommand;
    StripSnoc(cur, t);
    if StripLeft(cur) == "" {
      BlankIsNothing(t);
    } else {
      NoLongerName(StripLeft(cur), t);
    }
  }

  lemma {:induction false} StripSnoc(p: string, t: string)
    ensures StripLeft(p + t) == if StripLeft(p) == "" then StripLeft(t) else StripLeft(p) + t
  {
    if p == "" {
      assert p + t == t;
    } else if IsSpace(p[0]) {
      assert (p + t)[1..] == p[1..] + t;
      StripSnoc(p[1..], t);
    }
  }

  lemma {:induction false} BlankIsNothing(t: string)
    requires AllBlank(t)
    ensures StripLeft(t) == ""
  {
    if t != "" {
      assert AllBlank(t[1..]);
      BlankIsNothing(t[1..]);
    }
  }

  lemma NoLongerName(x: string, t: string)
    requires AllBlank(t) && !IsDelimiterCommand(x)
    ensures !IsDelimiterCommand(x + t)
  {
    var y := x + t;
    if |y| >= |DELIMITER_NAME| {
      if |x| < |DELIMITER_NAME| {
        assert y[|x|] == t[0];
        NameHasNoBlank(|x|);
        assert Lower(y[|x|]) != DELIMITER_NAME[|x|];
      } else {
        var i :| 0 <= i < |DELIMITER_NAME| && Lower(x[i]) != DELIMITER_NAME[i];
        assert y[i] == x[i];
      }
    }
  }

  lemma NameHasNoBlank(i: nat)
    requires i < |DELIMITER_NAME|
    ensures 'a' <= DELIMITER_NAME[i] <= 'z'
  {
  }

  /** The delimiter and the blanks that go with it. */
  lemma DelimiterIsRead(c: Config, d: string, f: Flat, rest: string)
    requires DelimiterOk(c, d) && (c.preserveComments ==> BlanksAreControl(c)) && AllBlank(Tail(c, rest))
    requires f.quote == NUL && !f.comment && !f.space && !f.server && !IsCommand(f.cur) && !c.fatal(RemoveCntrl(c, f.cur))
    ensures d + rest != "" && PlainAt(c, d, f, d + rest)
    ensures FlatStep(c, d, f, d + rest) == (Fresh(f.sent + SendCur(c, f.cur)), |d| + |Tail(c, rest)|)
  {
    hide IsCommand, RemoveCntrl, IsDelimiterCommand, Tail, LineCommentAt, Opens;
    var r, tail := d + rest, Tail(c, rest);
    assert r[|d|..] == rest && Starts(d, r) && r[0] == d[0];
    if c.preserveComments {
      BlanksAreCut(c, f.cur, tail);
      BlanksAreNoCommand(f.cur, tail);
    } else {
      NoTail(c, rest);
      assert f.cur + tail == f.cur;
    }
    assert NUL !in tail;
  }

  /** One statement and its delimiter, followed by any plain text. */
  lemma {:induction false} StatementIsRead(c: Config, d: string, f: Flat, r: string, k: nat, rest: string, p: string, sent: seq<Sent>)
    requires DelimiterOk(c, d) && (c.preserveComments ==> BlanksAreControl(c)) && AllBlank(Tail(c, rest))
    requires k <= |r| && r[k..] == d && CleanFrom(c, d, f, r, k) && f.cur == Lead(c, p)
    requires sent == f.sent + SendCur(c, Lead(c, p + r[..k])) && Plain(c, d, Fresh(sent), rest[|Tail(c, rest)|..])
    ensures Plain(c, d, f, r + rest) && FlatRun(c, d, f, r + rest) == FlatRun(c, d, Fresh(sent), rest[|Tail(c, rest)|..])
    decreases k
  {
    hide *;
    NotEmpty(c, d);
    if k == 0 {
      CleanEnd(c, d, f, r);
      DelimiterAtEnd(r, d, p, rest, |Tail(c, rest)|);
      DelimiterIsRead(c, d, f, rest);
      PlainStep(c, d, f, r + rest);
    } else {
      CleanStep(c, d, f, r, k);
      DropInTwo(r, d, 0, k, rest);
      LookAhead(c, d, f, r, rest);
      CurIsLead(c, d, f, r, p);
      StepIgnoresSent(c, d, f, f.sent, r);
      var (g, n) := FlatStep(c, d, f, r);
      DropInTwo(r, d, n, k, rest);
      TakenInTwo(p, r, n, k);
      PlainStep(c, d, f, r + rest);
      StatementIsRead(c, d, g, r[n..], k - n, rest, p + r[..n], sent);
    }
  }

  lemma NotEmpty(c: Config, d: string)
    requires DelimiterOk(c, d)
    ensures d != ""
  {
  }

  lemma DelimiterAtEnd(r: string, d: string, p: string, rest: string, n: nat)
    requires r[0..] == d && n <= |rest|
    ensures r == d && p + r[..0] == p && (r + rest)[|d| + n..] == rest[n..]
  {
  }

  lemma DropInTwo(r: string, d: string, n: nat, k: nat, rest: string)
    requires n <= k <= |r| && r[k..] == d
    ensures (r + rest)[n..] == r[n..] + rest && r[n..][k - n..] == d && |r| == k + |d|
  {
  }

  lemma TakenInTwo(p: string, r: string, n: nat, k: nat)
    requires n <= k <= |r|
    ensures p + r[..n] + r[n..][..k - n] == p + r[..k]
  {
    assert r[..n] + r[n..][..k - n] == r[..k];
  }

  // ---------- reading a file of statements ----------

  /** The text of the statements, or what the delimiter before them leaves of it. */
  ghost function Remaining(c: Config, d: string, stmts: seq<string>, first: bool): string {
    var t := Written(d, stmts); if first then t else t[|Tail(c, t)|..]
  }

  lemma {:induction false} BlanksBefore(s: string, t: string)
    requires t != "" && !IsSpace(t[0])
    ensures Blanks(s + t) == Blanks(s) && AllBlank(Blanks(s)) && (s + t)[|Blanks(s)|..] == s[|Blanks(s)|..] + t
  {
    if s == "" {
      assert s + t == t;
    } else {
      assert (s + t)[1..] == s[1..] + t;
      BlanksBefore(s[1..], t);
    }
  }

  lemma WrittenInTwo(c: Config, d: string, stmts: seq<string>)
    requires DelimiterOk(c, d) && stmts != []
    ensures var rest := d + Written(d, stmts[1..]);
            && Written(d, stmts) == stmts[0] + rest && rest != "" && !IsSpace(rest[0])
            && forall x: string :: x + d + Written(d, stmts[1..]) == x + rest
  {
    assert stmts[0] + d + Written(d, stmts[1..]) == stmts[0] + (d + Written(d, stmts[1..]));
    forall x: string ensures x + d + Written(d, stmts[1..]) == x + (d + Written(d, stmts[1..])) {}
  }

  /** Behind a delimiter come the blanks of the next statement and no comment. */
  lemma TailOfWritten(c: Config, d: string, stmts: seq<string>)
    requires DelimiterOk(c, d) && forall i :: 0 <= i < |stmts| ==> CleanStatement(c, d, stmts[i])
    ensures AllBlank(Tail(c, Written(d, stmts)))
    ensures stmts != [] && c.preserveComments ==> Tail(c, Written(d, stmts)) == Blanks(stmts[0])
  {
    hide *;
    NothingWritten(c, d);
    if stmts != [] {
      if c.preserveComments {
        var rest := d + Written(d, stmts[1..]);
        WrittenInTwo(c, d, stmts);
        BlanksBefore(stmts[0], rest);
        NoCommentBehind(c, d, stmts[0], Written(d, stmts[1..]));
        GivenLater(c, stmts[0]);
        TailIs(c, Written(d, stmts), |Blanks(stmts[0])|);
      } else {
        NoTail(c, Written(d, stmts));
      }
    }
  }

  lemma NothingWritten(c: Config, d: string)
    ensures Written(d, []) == "" && Tail(c, "") == "" && AllBlank("")
  {
    assert Tail(c, "") <= "";
  }

  lemma GivenLater(c: Config, stmt: string)
    requires c.preserveComments
    ensures Given(c, stmt, false) == stmt[|Blanks(stmt)|..]
  {
    hide Blanks;
  }

  lemma NoCommentBehind(c: Config, d: string, stmt: string, rest: string)
    requires DelimiterOk(c, d) && c.preserveComments && CleanStatement(c, d, stmt)
    ensures !Follows(Given(c, stmt, false) + d + rest)
  {
    hide Given, IsSpace;
    var g := Given(c, stmt, false);
    var r := g + d;
    assert CleanFrom(c, d, Fresh([]), r, |g|);
    if g != "" {
      CleanStep(c, d, Fresh([]), r, |g|);
      assert (r + rest)[0] == r[0] && (r + rest)[1] == r[1];
      assert |r| > 2 ==> (r + rest)[2] == r[2];
    } else {
      assert (r + rest)[0] == d[0];
    }
  }

  lemma RemainingIs(c: Config, d: string, stmts: seq<string>, first: bool)
    requires DelimiterOk(c, d) && stmts != [] && forall i :: 0 <= i < |stmts| ==> CleanStatement(c, d, stmts[i])
    ensures Remaining(c, d, stmts, first) == Given(c, stmts[0], first) + d + Written(d, stmts[1..])
  {
    hide CleanStatement, IsSpace, Blanks, Tail, Written;
    WrittenInTwo(c, d, stmts);
    if c.preserveComments && !first {
      TailOfWritten(c, d, stmts);
      BlanksBefore(stmts[0], d + Written(d, stmts[1..]));
    } else if !first {
      NoTail(c, Written(d, stmts));
    }
  }

  lemma {:induction false} WrittenIsPlain(c: Config, d: string, stmts: seq<string>, first: bool, sent: seq<Sent>)
    requires DelimiterOk(c, d) && (c.preserveComments ==> BlanksAreControl(c))
    requires forall i :: 0 <= i < |stmts| ==> CleanStatement(c, d, stmts[i])
    ensures Plain(c, d, Fresh(sent), Remaining(c, d, stmts, first))
    ensures FlatRun(c, d, Fresh(sent), Remaining(c, d, stmts, first)) == Fresh(sent + Expected(c, stmts, first))
    decreases |stmts|
  {
    hide *;
    NotEmpty(c, d);
    if stmts == [] {
      NothingRemains(c, d, first, sent);
    } else {
      var stmt, rest := Given(c, stmts[0], first), Written(d, stmts[1..]);
      var r, sent2 := stmt + d, sent + SendCur(c, Lead(c, stmt));
      CleanGiven(c, d, stmts[0], first, sent);
      TwoParts(stmt, d);
      NothingToLead(c);
      TailOfWritten(c, d, stmts[1..]);
      WrittenIsPlain(c, d, stmts[1..], false, sent2);
      RemainingLater(c, d, stmts[1..]);
      StatementIsRead(c, d, Fresh(sent), r, |stmt|, rest, "", sent2);
      RemainingIs(c, d, stmts, first);
      ExpectedStep(c, stmts, first, sent);
    }
  }

  lemma NothingRemains(c: Config, d: string, first: bool, sent: seq<Sent>)
    requires d != ""
    ensures Plain(c, d, Fresh(sent), Remaining(c, d, [], first))
    ensures FlatRun(c, d, Fresh(sent), Remaining(c, d, [], first)) == Fresh(sent + Expected(c, [], first))
  {
    assert Remaining(c, d, [], first) == "" && sent + [] == sent;
  }

  lemma RemainingLater(c: Config, d: string, stmts: seq<string>)
    ensures Remaining(c, d, stmts, false) == Written(d, stmts)[|Tail(c, Written(d, stmts))|..]
  {
    hide Tail, Written;
  }

  lemma CleanGiven(c: Config, d: string, stmt: string, first: bool, sent: seq<Sent>)
    requires d != "" && CleanStatement(c, d, stmt)
    ensures CleanFrom(c, d, Fresh(sent), Given(c, stmt, first) + d, |Given(c, stmt, first)|)
    ensures Fresh(sent).cur == "" && Fresh(sent).sent == sent
  {
    hide CleanFrom, Given;
    CleanIgnoresSent(c, d, Fresh([]), sent, Given(c, stmt, first) + d, |Given(c, stmt, first)|);
  }

  lemma TwoParts(x: string, d: string)
    ensures (x + d)[|x|..] == d && (x + d)[..|x|] == x && "" + x == x
  {
  }

  lemma ExpectedStep(c: Config, stmts: seq<string>, first: bool, sent: seq<Sent>)
    requires stmts != []
    ensures sent + SendCur(c, Lead(c, Given(c, stmts[0], first))) + Expected(c, stmts[1..], false) == sent + Expected(c, stmts, first)
  {
    hide SendCur, Lead, Given, LastGraphic;
    CutIsSent(c, Lead(c, Given(c, stmts[0], first)));
  }

  lemma NothingToLead(c: Config) ensures Lead(c, "") == "" {}

  /** Statements written one after the other, each with the delimiter behind it, and fed in line by line,
      are sent one by one and in order, up to leading blanks and trailing control characters; nothing
      is left over. */
  lemma StatementsAreSent(c: Config, s: Scan, stmts: seq<string>)
    requires DelimiterOk(c, s.delimiter) && (c.preserveComments ==> BlanksAreControl(c)) && Idle(s)
    requires forall i :: 0 <= i < |stmts| ==> CleanStatement(c, s.delimiter, stmts[i])
    requires NoCommandLine(Written(s.delimiter, stmts))
    ensures var r := LineRun(c, s, Written(s.delimiter, stmts));
            r.sent == s.sent + Expected(c, stmts, true) && r.buffer == ""
  {
    hide Plain, FlatRun, LineRun, NoCommandLine, CleanStatement, BlanksAreControl;
    WrittenIsPlain(c, s.delimiter, stmts, true, s.sent);
    LinesDoNotMatter(c, s, Written(s.delimiter, stmts));
  }
}
