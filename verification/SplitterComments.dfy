/** What the splitter of client/mysql.cc does with comments when it does not preserve them: wherever they
    stand and however many lines they span, they leave no trace in the statement but a blank that separates what
    stood around them. */
module SplitterComments {
  import opened Text
  import opened StatementSplitter
  import opened LineReader
  import opened SplitterMeaning

  /** The inside of a block comment: nothing in it closes it; it may open others, which changes nothing. */
  ghost predicate Body(body: string)
    decreases |body|
  {
    body == "" ||
    var r := body + "*/";
    && body[0] != NUL && !Starts("*/", r) && !Starts("/*!", r)
    && if Starts("/*", r) then |body| >= 2 && Body(body[2..]) else Body(body[1..])
  }

  ghost function Block(body: string): string { "/*" + (body + "*/") }

  /** Outside quotes and comments. */
  ghost predicate Outside(f: Flat) { f.quote == NUL && !f.comment && !f.server }

  /** A comment was read. */
  ghost function Behind(f: Flat): Flat { f.(seg := "", comment := false, space := true) }

  /** How far one step goes inside a comment. */
  ghost function Stride(r: string): nat { if Starts("/*", r) then 2 else 1 }

  lemma BodyStep(c: Config, d: string, f: Flat, r: string)
    requires !c.preserveComments && Shape(c, f) && f.comment && r != "" && r[0] != NUL
    requires !Starts("*/", r) && !Starts("/*!", r)
    ensures PlainAt(c, d, f, r) && FlatStep(c, d, f, r).1 == Stride(r)
    ensures var g := FlatStep(c, d, f, r).0; Shape(c, g) && g.comment && Behind(g) == Behind(f)
  {
    hide IsSpace, Starts;
    BlankMarks();
    SlashFirst(r);
    assert f.cur + "" == f.cur;
  }

  lemma SlashFirst(r: string)
    ensures Starts("/*", r) ==> r[0] == '/'
  {
  }

  /** The end of a comment. */
  lemma CloseStep(c: Config, d: string, f: Flat, v: string)
    requires !c.preserveComments && Shape(c, f) && f.comment
    ensures PlainAt(c, d, f, "*/" + v) && FlatStep(c, d, f, "*/" + v) == (Behind(f), 2)
  {
    var r := "*/" + v;
    assert r[0] == '*' && r[..2] == "*/" && f.cur + "" == f.cur;
  }

  /** The start of a comment. */
  lemma OpenStep(c: Config, d: string, f: Flat, w: string)
    requires !c.preserveComments && Shape(c, f) && Outside(f) && !Starts(d, "/*" + w) && !(w != "" && w[0] == '!')
    ensures PlainAt(c, d, f, "/*" + w)
    ensures FlatStep(c, d, f, "/*" + w) == (f.(seg := "", comment := true), 2)
  {
    var r := "/*" + w;
    assert r[0] == '/' && r[..2] == "/*" && f.cur + "" == f.cur;
    assert w != "" ==> r[2] == w[0];
  }

  lemma BodyStart(body: string, v: string)
    requires Body(body) && body != ""
    ensures var r := body + "*/" + v;
            && r != "" && r[0] == body[0] != NUL && !Starts("*/", r) && !Starts("/*!", r) && Stride(r) <= |body|
            && Body(body[Stride(r)..]) && r[Stride(r)..] == body[Stride(r)..] + "*/" + v
  {
    hide Body, Starts;
    BodyIs(body);
    SameStart("*/", body + "*/", v);
    SameStart("/*!", body + "*/", v);
    SameStart("/*", body + "*/", v);
    BodyRest(body, v, Stride(body + "*/" + v));
  }

  lemma BodyIs(body: string)
    requires Body(body) && body != ""
    ensures var r := body + "*/";
            && body[0] != NUL && !Starts("*/", r) && !Starts("/*!", r)
            && if Starts("/*", r) then |body| >= 2 && Body(body[2..]) else Body(body[1..])
  {
  }

  lemma SameStart(p: string, r: string, v: string)
    requires |p| <= |r|
    ensures Starts(p, r + v) == Starts(p, r)
  {
    assert (r + v)[..|p|] == r[..|p|];
  }

  lemma BodyRest(body: string, v: string, n: nat)
    requires body != ""
    ensures (body + "*/" + v)[0] == body[0] && (n <= |body| ==> (body + "*/" + v)[n..] == body[n..] + "*/" + v)
  {
  }

  /** From inside a comment to its end, over any number of lines. */
  lemma {:induction false} BodyIsSkipped(c: Config, d: string, f: Flat, body: string, v: string)
    requires !c.preserveComments && d != "" && Shape(c, f) && f.comment && Body(body) && Plain(c, d, Behind(f), v)
    ensures Plain(c, d, f, body + "*/" + v) && FlatRun(c, d, f, body + "*/" + v) == FlatRun(c, d, Behind(f), v)
    decreases |body|
  {
    hide *;
    var r := body + "*/" + v;
    if body == "" {
      OnlyTheEnd(v);
      CloseStep(c, d, f, v);
      PlainStep(c, d, f, r);
    } else {
      BodyStart(body, v);
      BodyStep(c, d, f, r);
      Strides(r, |body|);
      PlainStep(c, d, f, r);
      BodyIsSkipped(c, d, FlatStep(c, d, f, r).0, body[Stride(r)..], v);
    }
  }

  lemma Strides(r: string, n: nat)
    requires Stride(r) <= n <= |r|
    ensures 1 <= Stride(r) <= |r|
  {
  }

  lemma OnlyTheEnd(v: string)
    ensures "" + "*/" + v == "*/" + v && "*/" + v != "" && ("*/" + v)[2..] == v && |"*/" + v| >= 2
  {
  }

  lemma BlockIs(body: string, v: string)
    ensures Block(body) + v == "/*" + (body + "*/" + v) && (Block(body) + v)[2..] == body + "*/" + v
    ensures |Block(body) + v| >= 2
    ensures body + "*/" + v != "" && ((body + "*/" + v)[0] == '!' <==> body != "" && body[0] == '!')
  {
    assert "/*" + (body + "*/") + v == "/*" + (body + "*/" + v);
  }

  /** A block comment is read past; what is left of it is a pending blank. */
  lemma BlockIsSkipped(c: Config, d: string, f: Flat, body: string, v: string)
    requires !c.preserveComments && d != "" && Shape(c, f) && Outside(f)
    requires Body(body) && !(body != "" && body[0] == '!') && !Starts(d, Block(body) + v)
    requires Plain(c, d, Behind(f), v)
    ensures Plain(c, d, f, Block(body) + v) && FlatRun(c, d, f, Block(body) + v) == FlatRun(c, d, Behind(f), v)
  {
    hide *;
    var g := f.(seg := "", comment := true);
    BlockIs(body, v);
    OpenStep(c, d, f, body + "*/" + v);
    Opened(c, f, g);
    PlainStep(c, d, f, Block(body) + v);
    BodyIsSkipped(c, d, g, body, v);
  }

  lemma Opened(c: Config, f: Flat, g: Flat)
    requires !c.preserveComments && Shape(c, f) && Outside(f) && g == f.(seg := "", comment := true)
    ensures Shape(c, g) && Behind(g) == Behind(f)
  {
  }

  /** A comment to the end of the line is read past; nothing is left of it. */
  lemma LineIsSkipped(c: Config, d: string, f: Flat, m: string, v: string)
    requires !c.preserveComments && d != "" && Outside(f) && !Starts(d, m + v)
    requires LineCommentAt(m + v) && m != "" && '\n' !in m && (v == "" || v[0] == '\n')
    requires Plain(c, d, f.(seg := ""), v)
    ensures Plain(c, d, f, m + v) && FlatRun(c, d, f, m + v) == FlatRun(c, d, f.(seg := ""), v)
  {
    hide Plain, FlatRun;
    var r := m + v;
    assert FirstPiece(r) == m by {
      RestOfLine(m, 0, v != "", if v == "" then "" else v[1..]);
      assert r == After(m, 0, v != "", if v == "" then "" else v[1..]);
      assert m[0..] == m;
    }
    assert r[0] == m[0] && r[|m|..] == v;
    assert PlainAt(c, d, f, r) && FlatStep(c, d, f, r) == (f.(seg := ""), |m|);
    PlainStep(c, d, f, r);
  }

  // ---------- in a text that is fed in line by line ----------

  /** Reading u, with w behind it, leads from f to g. */
  ghost predicate Reads(c: Config, d: string, f: Flat, u: string, w: string, g: Flat)
    decreases |u|
  {
    if u == "" then f == g
    else
      PlainAt(c, d, f, u + w) && var (h, n) := FlatStep(c, d, f, u + w); 1 <= n <= |u| && Reads(c, d, h, u[n..], w, g)
  }

  lemma {:induction false} ReadOn(c: Config, d: string, f: Flat, u: string, w: string, g: Flat)
    requires d != "" && Shape(c, f) && Reads(c, d, f, u, w, g)
    ensures Shape(c, g) && FlatRun(c, d, f, u + w) == FlatRun(c, d, g, w) && (Plain(c, d, g, w) ==> Plain(c, d, f, u + w))
    decreases |u|
  {
    hide Shape, PlainAt, FlatStep, FlatRun, Plain;
    if u == "" {
      assert u + w == w;
    } else {
      var (h, n) := FlatStep(c, d, f, u + w);
      assert (u + w)[n..] == u[n..] + w;
      StepKeepsShape(c, d, f, u + w);
      PlainStep(c, d, f, u + w);
      ReadOn(c, d, h, u[n..], w, g);
    }
  }

  /** A block comment anywhere in a text, over however many lines: the text is read as if it were not there, with
      the next character that is not a blank set off by one. */
  lemma BlockCommentVanishes(c: Config, s: Scan, u: string, body: string, v: string, g: Flat)
    requires !c.preserveComments && s.delimiter != "" && '\n' !in s.delimiter && Idle(s)
    requires Reads(c, s.delimiter, Fresh(s.sent), u, Block(body) + v, g) && Outside(g)
    requires Body(body) && !(body != "" && body[0] == '!') && !Starts(s.delimiter, Block(body) + v)
    requires Plain(c, s.delimiter, Behind(g), v) && NoCommandLine(u + (Block(body) + v))
    ensures Agrees(LineRun(c, s, u + (Block(body) + v)), FlatRun(c, s.delimiter, Behind(g), v))
  {
    hide Reads, Block, Body, Outside, Plain, FlatRun, LineRun, NoCommandLine, Agrees, Starts;
    var d := s.delimiter;
    ReadOn(c, d, Fresh(s.sent), u, Block(body) + v, g);
    BlockIsSkipped(c, d, g, body, v);
    LinesDoNotMatter(c, s, u + (Block(body) + v));
  }

  /** A comment to the end of a line: the text is read as if it were not there. */
  lemma LineCommentVanishes(c: Config, s: Scan, u: string, m: string, v: string, g: Flat)
    requires !c.preserveComments && s.delimiter != "" && '\n' !in s.delimiter && Idle(s)
    requires Reads(c, s.delimiter, Fresh(s.sent), u, m + v, g) && Outside(g) && !Starts(s.delimiter, m + v)
    requires LineCommentAt(m + v) && m != "" && '\n' !in m && (v == "" || v[0] == '\n')
    requires Plain(c, s.delimiter, g.(seg := ""), v) && NoCommandLine(u + (m + v))
    ensures Agrees(LineRun(c, s, u + (m + v)), FlatRun(c, s.delimiter, g.(seg := ""), v))
  {
    hide Reads, Outside, Plain, FlatRun, LineRun, NoCommandLine, Agrees, Starts, LineCommentAt;
    var d := s.delimiter;
    ReadOn(c, d, Fresh(s.sent), u, m + v, g);
    LineIsSkipped(c, d, g, m, v);
    LinesDoNotMatter(c, s, u + (m + v));
  }

  // ---------- a comment means one blank ----------

  /** What a block comment in front of v stands for. */
  ghost function Gap(v: string): string { if v == "" || IsSpace(v[0]) then "" else " " }

  /** Inside a statement the pending blank means what a written blank means, or nothing in front of a blank. */
  lemma CommentIsOneBlank(c: Config, d: string, f: Flat, v: string)
    requires !c.preserveComments && d != "" && Outside(f) && f.cur != "" && !f.space
    requires v != "" && v[0] != '\\' && !Starts(d, v) && !LineCommentAt(v) && !Opens(v) && !Starts(d, " " + v)
    ensures FlatRun(c, d, Behind(f), v) == FlatRun(c, d, f.(seg := ""), Gap(v) + v)
  {
    hide IsSpace, Starts, LineCommentAt, Opens;
    BlankMarks();
    var f0 := f.(seg := "");
    var (g, n) := FlatStep(c, d, Behind(f), v);
    if v[0] == '\n' || IsSpace(v[0]) {
      assert "" + v == v;
      assert FlatStep(c, d, f0, v) == (g, 1);
    } else {
      var r := " " + v;
      assert r[0] == ' ' && r[1..] == v;
      BlankIsOrdinary(r);
      var (h, k) := FlatStep(c, d, f0, r);
      assert k == 1 && h == f0.(cur := f.cur + " ", seg := "" + " ");
      assert f.cur + " " + [v[0]] == f.cur + [' ', v[0]] && "" + " " + [v[0]] == "" + [' ', v[0]];
      assert FlatStep(c, d, h, v) == (g, 1);
    }
  }

  lemma BlankIsOrdinary(r: string)
    requires r != "" && r[0] == ' '
    ensures IsSpace(r[0]) && !LineCommentAt(r) && !Opens(r) && !Starts("/*!", r) && !Starts("*/", r)
  {
  }

  /** Where the last piece of the statement begins changes nothing that is sent. */
  lemma {:induction false} PiecesDoNotMatter(c: Config, d: string, f: Flat, x: string, r: string)
    requires d != ""
    ensures FlatRun(c, d, f.(seg := x), r).sent == FlatRun(c, d, f, r).sent
    decreases |r|
  {
    hide FlatStep;
    if r != "" {
      var y := PieceStep(c, d, f, x, r);
      var (f1, n) := FlatStep(c, d, f, r);
      if 1 <= n <= |r| { PiecesDoNotMatter(c, d, f1, y, r[n..]); }
    }
  }

  lemma PieceStep(c: Config, d: string, f: Flat, x: string, r: string) returns (y: string)
    requires r != ""
    ensures FlatStep(c, d, f.(seg := x), r) == (FlatStep(c, d, f, r).0.(seg := y), FlatStep(c, d, f, r).1)
  {
    hide IsSpace, Starts, LineCommentAt, Opens, Extend, EndStatement, SkipLine;
    y := FlatStep(c, d, f.(seg := x), r).0.seg;
    if f.quote == NUL && !f.comment && Starts(d, r) {
      PieceEnds(c, d, f, x, r);
    } else if f.quote == NUL && !f.comment && LineCommentAt(r) {
      PieceSkips(c, f, x, r);
    } else {
      PieceExtends(f, x, r);
    }
  }

  lemma PieceEnds(c: Config, d: string, f: Flat, x: string, r: string)
    requires Starts(d, r)
    ensures EndStatement(c, d, f.(seg := x), r) == EndStatement(c, d, f, r)
  {
    hide Tail, SendCur;
  }

  lemma PieceSkips(c: Config, f: Flat, x: string, r: string)
    ensures SkipLine(c, f.(seg := x), r).1 == SkipLine(c, f, r).1
    ensures SkipLine(c, f.(seg := x), r).0 == SkipLine(c, f, r).0.(seg := SkipLine(c, f.(seg := x), r).0.seg)
  {
    hide FirstPiece, SendCur;
  }

  lemma PieceExtends(f: Flat, x: string, r: string)
    requires r != ""
    ensures Extend(f.(seg := x), r) == Extend(f, r).(seg := Extend(f.(seg := x), r).seg)
  {
    hide IsSpace, Starts;
  }

  lemma NoBackslash(v: string)
    requires v != "" && !Starts("\\", v)
    ensures v[0] != '\\'
  {
    assert v[..1] == [v[0]];
  }

  /** Inside a statement a text with a block comment, over however many lines, sends what the text with one blank in
      its place sends (with nothing in its place, in front of a blank or at the end). The text before the comment is
      read the same in both, and neither delimiter, comment nor backslash follows directly. */
  lemma CommentMeansBlank(c: Config, s: Scan, u: string, body: string, v: string, g: Flat)
    requires !c.preserveComments && s.delimiter != "" && '\n' !in s.delimiter && Idle(s)
    requires Reads(c, s.delimiter, Fresh(s.sent), u, Block(body) + v, g) && Outside(g) && g.cur != "" && !g.space
    requires Reads(c, s.delimiter, Fresh(s.sent), u, Gap(v) + v, g)
    requires Body(body) && !(body != "" && body[0] == '!') && !Starts(s.delimiter, Block(body) + v)
    requires !Starts("\\", v) && !Starts(s.delimiter, v) && !LineCommentAt(v) && !Opens(v) && !Starts(s.delimiter, " " + v)
    requires Plain(c, s.delimiter, Behind(g), v) && NoCommandLine(u + (Block(body) + v))
    requires Plain(c, s.delimiter, g, Gap(v) + v) && NoCommandLine(u + (Gap(v) + v))
    ensures LineRun(c, s, u + (Block(body) + v)).sent == LineRun(c, s, u + (Gap(v) + v)).sent
  {
    hide Reads, Block, Body, Plain, LineRun, NoCommandLine, Starts, LineCommentAt, Opens, FlatStep, IsSpace;
    var d := s.delimiter;
    BlockCommentVanishes(c, s, u, body, v, g);
    ReadOn(c, d, Fresh(s.sent), u, Gap(v) + v, g);
    LinesDoNotMatter(c, s, u + (Gap(v) + v));
    if v == "" {
      assert Gap(v) + v == "";
    } else {
      NoBackslash(v);
      CommentIsOneBlank(c, d, g, v);
      PiecesDoNotMatter(c, d, g, "", Gap(v) + v);
    }
  }
}
