/** The batch-mode client of client/mysql.cc from the bytes of its input to the statements it sends:
    the loop of `read_and_execute` over the buffered reader and the splitter. */
module BatchClient {
  import opened StatementSplitter
  import opened SplitterMeaning
  import opened SentStatements
  import opened LineReader
  import LineSplitter

  /** A UTF-8 byte order mark. */
  predicate StartsWithMark(line: string) {
    |line| >= 3 && line[0] == 0xEF as char && line[1] == 0xBB as char && line[2] == 0xBF as char
  }

  function Unmarked(line: string): string { if StartsWithMark(line) then line[3..] else line }

  /** The lines of the content one by one, the first one without its mark. */
  ghost function Lines(c: Config, s: Scan, content: string, first: bool): Scan
    requires s.delimiter != ""
  {
    if !first || content == "" || s.quit then LineRun(c, s, content)
    else LineRun(c, TakeLine(c, s, Unmarked(FirstPiece(content)), false), AfterPiece(content))
  }

  /** What the whole run sends: the statements found line by line, then what is left in the buffer. */
  ghost function Session(c: Config, s: Scan, content: string): seq<Sent>
    requires s.delimiter != ""
  {
    var t := Lines(c, s, content, true);
    if t.quit then t.sent else Go(c, t).sent
  }

  /** The results of the reader one by one, the first one without its mark. */
  ghost function Fed(c: Config, s: Scan, lines: seq<string>, cuts: seq<bool>): (r: Scan)
    requires s.delimiter != "" && |lines| == |cuts|
    ensures r.delimiter != ""
  {
    if lines == [] then s
    else
      var n := |lines| - 1;
      var t := Fed(c, s, lines[..n], cuts[..n]);
      if t.quit then t else TakeLine(c, t, if n == 0 then Unmarked(lines[n]) else lines[n], cuts[n])
  }

  lemma FedSnoc(c: Config, s: Scan, lines: seq<string>, cuts: seq<bool>, line: string, cut: bool)
    requires s.delimiter != "" && |lines| == |cuts| && !Fed(c, s, lines, cuts).quit
    ensures Fed(c, s, lines + [line], cuts + [cut]) ==
            TakeLine(c, Fed(c, s, lines, cuts), if lines == [] then Unmarked(line) else line, cut)
  {
    hide TakeLine, Unmarked;
    assert (lines + [line])[..|lines|] == lines && (cuts + [cut])[..|lines|] == cuts;
  }

  /** The splitter has come to t, or has stopped there. */
  ghost predicate Reached(sp: LineSplitter.Splitter, t: Scan)
    reads sp
  {
    sp.quit == t.quit && sp.sent == t.sent && (!sp.quit ==> sp.State() == t)
  }

  /** What is done so far and what is pending make up the run that ends in goal. */
  ghost predicate Towards(goal: Scan, b: LineBuffer, sp: LineSplitter.Splitter, first: bool)
    requires b.Valid()
    reads b, b.buffer, b.file, sp
  {
    && AllShort(b.Pending(), b.maxSize) && sp.delimiter != ""
    && if sp.quit then goal.quit && goal.sent == sp.sent else goal == Lines(sp.c, sp.State(), b.Pending(), first)
  }

  /** `read_and_execute` in batch mode, whatever the pattern of short reads: the reader's results cover the stream, up to
      the end or to the statement that ends the session, and are taken one by one; when all lines fit, what is sent
      is a function of the stream. */
  method ReadAndExecute(b: LineBuffer, sp: LineSplitter.Splitter) returns (ghost lines: seq<string>, ghost cuts: seq<bool>)
    requires b.Valid() && sp.delimiter != "" && NUL !in sp.delimiter && !sp.quit
    modifies b, b.buffer, b.file, sp
    ensures |lines| == |cuts|
    ensures !b.error ==> b.Valid() && Covers(old(b.Pending()), lines, cuts, b.Pending())
    ensures !b.error ==>
              var t := Fed(sp.c, old(sp.State()), lines, cuts);
              if t.quit then sp.sent == t.sent else b.Pending() == "" && sp.sent == Go(sp.c, t).sent
    ensures !b.error && AllShort(old(b.Pending()), old(b.maxSize)) ==>
              sp.sent == Session(sp.c, old(sp.State()), old(b.Pending()))
  {
    hide AllShort, SplitLines, TakeLine, Lines, Go, Covers, Consumes, Fed, FirstPiece, AfterPiece;
    ghost var content, state := b.Pending(), sp.State();
    ghost var short, goal := AllShort(content, b.maxSize), Lines(sp.c, state, content, true);
    lines, cuts := [], [];
    NothingFed(sp.c, state, content);
    var first, more := true, true;
    while more && !sp.quit
      invariant b.buffer == old(b.buffer) || fresh(b.buffer)
      invariant sp.delimiter != "" && NUL !in sp.delimiter && |lines| == |cuts|
      invariant more ==> !b.error
      invariant !b.error ==> b.Valid() && Covers(content, lines, cuts, b.Pending()) && (!more ==> b.Pending() == "")
      invariant !b.error ==> Reached(sp, Fed(sp.c, state, lines, cuts)) && first == (lines == [])
      invariant !b.error && short ==> Towards(goal, b, sp, first)
      decreases more, if b.error then 0 else |b.Pending()|
    {
      ghost var before := b.Pending();
      ghost var line;
      more, line := Round(b, sp, first, short, goal);
      if more {
        FedSnoc(sp.c, state, lines, cuts, line, b.truncated);
        CoversSnoc(content, lines, cuts, before, line, b.truncated, b.Pending());
        lines, cuts := lines + [line], cuts + [b.truncated];
        first := false;
      }
    }
    if !b.error && !sp.quit {
      LinesEnd(sp.c, sp.State(), first);
      SendRest(sp);
    }
  }

  lemma NothingFed(c: Config, s: Scan, content: string)
    requires s.delimiter != ""
    ensures Fed(c, s, [], []) == s && Covers(content, [], [], content)
  {
  }

  /** One turn of the loop: false at the end of the input. */
  method Round(b: LineBuffer, sp: LineSplitter.Splitter, first: bool, ghost short: bool, ghost goal: Scan)
    returns (more: bool, ghost line: string)
    requires b.Valid() && sp.delimiter != "" && NUL !in sp.delimiter && !sp.quit
    requires short ==> Towards(goal, b, sp, first)
    modifies b, b.buffer, b.file, sp
    ensures b.buffer == old(b.buffer) || fresh(b.buffer)
    ensures sp.delimiter != "" && NUL !in sp.delimiter
    ensures more ==> !b.error
    ensures !b.error ==> b.Valid() && (short ==> Towards(goal, b, sp, first && !more))
    ensures more ==> |b.Pending()| < old(|b.Pending()|) && Consumes(old(b.Pending()), line, b.truncated, b.Pending())
    ensures more ==> Reached(sp, TakeLine(sp.c, old(sp.State()), if first then Unmarked(line) else line, b.truncated))
    ensures !more && !b.error ==> b.Pending() == "" == old(b.Pending()) && sp.State() == old(sp.State()) && !sp.quit
  {
    hide AllShort, SplitLines, TakeLine, Lines, FirstPiece, AfterPiece, Unmarked, Consumes;
    ghost var before, state := b.Pending(), sp.State();
    line := "";
    var read := b.BatchReadline(true);
    if read.None? { return false, line; }
    line := read.value;
    ReturnedConsumes(b, before, read.value);
    if short { NotCut(b, before, read.value); }
    var text := if first then Unmarked(read.value) else read.value;
    LinesStep(sp.c, state, before, first);
    Feed(sp, text, b.truncated);
    return true, line;
  }

  lemma LinesEnd(c: Config, s: Scan, first: bool)
    requires s.delimiter != ""
    ensures Lines(c, s, "", first) == s == Lines(c, s, "", false)
  {
  }

  lemma LinesStep(c: Config, s: Scan, t: string, first: bool)
    requires s.delimiter != "" && t != "" && !s.quit
    ensures var line := if first then Unmarked(FirstPiece(t)) else FirstPiece(t);
            var u := TakeLine(c, s, line, false);
            Lines(c, s, t, first) == if u.quit then u else Lines(c, u, AfterPiece(t), false)
  {
    hide TakeLine, Unmarked;
    var u := TakeLine(c, s, if first then Unmarked(FirstPiece(t)) else FirstPiece(t), false);
    assert Lines(c, s, t, first) == LineRun(c, u, AfterPiece(t));
  }

  /** One line: a DELIMITER command at the start of a statement, or `add_line`. */
  method Feed(sp: LineSplitter.Splitter, text: string, truncated: bool)
    requires sp.delimiter != "" && NUL !in sp.delimiter && !sp.quit
    modifies sp
    ensures sp.delimiter != "" && NUL !in sp.delimiter
    ensures Reached(sp, TakeLine(sp.c, old(sp.State()), text, truncated))
  {
    hide IsCommand, AddLine;
    if sp.buffer == "" && !sp.mlComment && sp.inString == NUL && IsCommand(text) {
      sp.sent := sp.sent + [Command(text)];
      var d := LineSplitter.ComDelimiter(text);
      NewDelimiterIsUsable(text);
      if d.Some? { sp.delimiter := d.value; }
    } else {
      var line := new char[|text| + 1];
      forall i | 0 <= i < |text| { line[i] := text[i]; }
      line[|text|] := NUL;
      assert line[..|text|] == text;
      var r := sp.AddLine(line, |text|, truncated);
    }
  }

  /** The last statement needs no delimiter. */
  method SendRest(sp: LineSplitter.Splitter)
    modifies sp
    ensures sp.sent == Go(sp.c, old(sp.State())).sent
  {
    hide RemoveCntrl;
    sp.ComGo();
  }

  /** A file of clean statements, each with the delimiter behind it: the session sends them one by one, in order,
      and nothing else. */
  lemma SessionSendsStatements(c: Config, s: Scan, stmts: seq<string>)
    requires DelimiterOk(c, s.delimiter) && (c.preserveComments ==> BlanksAreControl(c)) && Idle(s)
    requires forall i :: 0 <= i < |stmts| ==> CleanStatement(c, s.delimiter, stmts[i])
    requires NoCommandLine(Written(s.delimiter, stmts)) && !StartsWithMark(Written(s.delimiter, stmts))
    ensures Session(c, s, Written(s.delimiter, stmts)) == s.sent + Expected(c, stmts, true)
  {
    hide CleanStatement, NoCommandLine, TakeLine, Expected;
    StatementsAreSent(c, s, stmts);
    assert Unmarked(FirstPiece(Written(s.delimiter, stmts))) == FirstPiece(Written(s.delimiter, stmts));
  }

  /** A byte order mark in front of such a file changes nothing. */
  lemma MarkIsSkipped(c: Config, s: Scan, stmts: seq<string>)
    requires DelimiterOk(c, s.delimiter) && (c.preserveComments ==> BlanksAreControl(c)) && Idle(s)
    requires forall i :: 0 <= i < |stmts| ==> CleanStatement(c, s.delimiter, stmts[i])
    requires NoCommandLine(Written(s.delimiter, stmts)) && stmts != []
    ensures Session(c, s, [0xEF as char, 0xBB as char, 0xBF as char] + Written(s.delimiter, stmts)) == s.sent + Expected(c, stmts, true)
  {
    hide CleanStatement, NoCommandLine, TakeLine, Expected, Written, FirstPiece, AfterPiece;
    var mark, t := [0xEF as char, 0xBB as char, 0xBF as char], Written(s.delimiter, stmts);
    StatementsAreSent(c, s, stmts);
    WrittenIsLong(s.delimiter, stmts);
    MarkedPiece(mark, t);
    assert StartsWithMark(FirstPiece(mark + t)) && Unmarked(FirstPiece(mark + t)) == FirstPiece(t);
  }

  lemma WrittenIsLong(d: string, stmts: seq<string>)
    requires d != "" && stmts != []
    ensures Written(d, stmts) != ""
  {
  }

  lemma MarkedPiece(mark: string, t: string)
    requires '\n' !in mark && t != ""
    ensures FirstPiece(mark + t) == mark + FirstPiece(t) && AfterPiece(mark + t) == AfterPiece(t)
  {
    hide FirstPiece, AfterPiece;
    PieceParts(t);
    var line, rest := FirstPiece(t), AfterPiece(t);
    if t == line + "\n" + rest {
      assert mark + t == mark + line + "\n" + rest;
    } else {
      assert mark + t == mark + line;
    }
    PieceUnique(mark + t, mark + line, rest);
  }
}
