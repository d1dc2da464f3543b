/** A line that is longer than the reader's buffer comes in parts (client/readline.cc); `add_line` of client/mysql.cc
    then starts afresh in the middle of the line. When this changes nothing. */
module SplitterCuts {
  import opened StatementSplitter
  import opened LineReader
  import opened SplitterMeaning
  import opened SplitterComments

  /** What the start of a new part forgets. */
  ghost function Cut(f: Flat): Flat { f.(seg := "", server := false, space := false) }

  /** The end of a part is the end of a line without a break. */
  lemma CutIsFlat(c: Config, d: string, s: Scan, f: Flat)
    requires Same(d, s, f) && Shape(c, f)
    ensures SameAtStart(d, EndLine(c, s, true), Cut(f))
  {
    hide IsDelimiterCommand;
    assert s.out + "" == s.out && s.buffer + s.out + "" == s.buffer + s.out;
  }

  /** The scan of one part. */
  lemma {:induction false} PartIsFlat(c: Config, d: string, s: Scan, f: Flat, u: string, pos: nat, g: Flat)
    requires pos <= |u| && '\n' !in u && '\n' !in d && d != "" && Same(d, s, f) && Shape(c, f)
    requires Reads(c, d, f, u[pos..], "", g)
    ensures Same(d, ScanFrom(c, s, u, pos), g) && Shape(c, g)
    decreases |u| - pos
  {
    hide StatementSplitter.Step, FlatStep, PlainAt, Same, Shape;
    SameFields(d, s, f);
    if pos < |u| {
      assert After(u, pos, false, "") == u[pos..] + "" == u[pos..];
      StepIsFlat(c, d, s, f, u, pos, false, "");
      StepKeepsShape(c, d, f, u[pos..]);
      var (h, n) := FlatStep(c, d, f, u[pos..]);
      assert u[pos..][n..] == u[pos + n..];
      PartIsFlat(c, d, StatementSplitter.Step(c, s, u, pos).s, h, u, pos + n, g);
    }
  }

  /** The state after one part. */
  lemma AfterPart(c: Config, d: string, s: Scan, f: Flat, u: string, g: Flat)
    requires u != "" && '\n' !in u && '\n' !in d && d != "" && SameAtStart(d, s, f) && Shape(c, f)
    requires Reads(c, d, f, u, "", g) && !IsCommand(u)
    ensures TakeLine(c, s, u, true).delimiter == d && SameAtStart(d, TakeLine(c, s, u, true), Cut(g)) && Shape(c, g)
  {
    hide Same, Shape, Reads, IsCommand, EndLine, ScanFrom;
    var s0 := s.(ssComment := false, needSpace := false, out := "");
    assert s0 == s.(ssComment := false, needSpace := false);
    SameFields(d, s0, f);
    assert u[0..] == u;
    NoNul(c, d, f, u, g);
    PartIsFlat(c, d, s0, f, u, 0, g);
    CutIsFlat(c, d, ScanFrom(c, s0, u, 0), g);
    SameDelimiter(d, TakeLine(c, s, u, true), Cut(g));
  }

  lemma SameDelimiter(d: string, s: Scan, f: Flat)
    requires SameAtStart(d, s, f)
    ensures s.delimiter == d
  {
  }

  lemma NoNul(c: Config, d: string, f: Flat, u: string, g: Flat)
    requires u != "" && Reads(c, d, f, u, "", g)
    ensures Peek(u, 0) != NUL
  {
    assert u + "" == u;
  }

  /** A line cut behind u, with w behind it: the parts send what the whole does, if u is read the same with nothing
      behind it and with w behind it, and ends neither in a server comment nor directly behind a comment. */
  lemma CutChangesNothing(c: Config, s: Scan, f: Flat, u: string, w: string, g: Flat)
    requires var d := s.delimiter; d != "" && '\n' !in d && SameAtStart(d, s, f) && Shape(c, f)
    requires u != "" && '\n' !in u && !IsCommand(u) && NoCommandLine(u + w) && NoCommandLine(w)
    requires Reads(c, s.delimiter, f, u, "", g) && Reads(c, s.delimiter, f, u, w, g)
    requires !g.server && !g.space && Plain(c, s.delimiter, g, w) && Plain(c, s.delimiter, Cut(g), w)
    ensures TakeLine(c, s, u, true).delimiter != ""
    ensures LineRun(c, TakeLine(c, s, u, true), w).sent == LineRun(c, s, u + w).sent
  {
    hide Reads, Plain, LineRun, NoCommandLine, IsCommand, SameAtStart, Shape, FlatRun, TakeLine;
    var d := s.delimiter;
    ReadOn(c, d, f, u, w, g);
    AtLineStart(c, d, s, f, u + w);
    AfterPart(c, d, s, f, u, g);
    CutKeepsShape(c, g);
    AtLineStart(c, d, TakeLine(c, s, u, true), Cut(g), w);
    PiecesDoNotMatter(c, d, g, "", w);
  }

  lemma CutKeepsShape(c: Config, g: Flat)
    requires Shape(c, g)
    ensures Shape(c, Cut(g))
  {
  }
}
