/** How a session of client/mysql.cc ends early: after an answer that ends it nothing more is sent. */
module SessionEnds {
  import opened Text
  import opened StatementSplitter
  import opened LineReader
  import opened SplitterMeaning

  /** The answer to what was sent ends the session. */
  ghost predicate Final(c: Config, x: Sent) {
    match x
    case Statement(text) => c.fatal(text)
    case Command(text) => text != "" && text[0] == '\\' && c.charsetFatal(text)
  }

  /** Of what was sent from the k-th on, only the last may have ended the session, and then it has ended; it ends for no
      other reason but, in batch mode, an unknown command. */
  ghost predicate EndsWell(c: Config, k: nat, s: Scan) {
    && k <= |s.sent|
    && (forall i :: k <= i < |s.sent| && Final(c, s.sent[i]) ==> i == |s.sent| - 1 && s.quit)
    && (s.quit ==> (|s.sent| > k && Final(c, s.sent[|s.sent| - 1])) || c.unknownIsFatal)
  }

  /** Nothing, or one thing more, was sent. */
  ghost predicate SendsOne(c: Config, s: Scan, t: Scan) {
    || (t.sent == s.sent && (t.quit ==> c.unknownIsFatal))
    || (|t.sent| == |s.sent| + 1 && t.sent[..|s.sent|] == s.sent && t.quit == Final(c, t.sent[|s.sent|]))
  }

  lemma OneMore(c: Config, k: nat, s: Scan, t: Scan)
    requires EndsWell(c, k, s) && !s.quit && SendsOne(c, s, t)
    ensures EndsWell(c, k, t)
  {
    hide Final;
    assert forall i :: k <= i < |s.sent| ==> !Final(c, s.sent[i]);
    assert |t.sent| > |s.sent| ==> forall i :: 0 <= i < |s.sent| ==> t.sent[i] == t.sent[..|s.sent|][i] == s.sent[i];
  }

  lemma CommandIsNoBackslash(text: string)
    requires IsCommand(text)
    ensures text != "" && text[0] != '\\'
  {
    if text != "" && IsSpace(text[0]) {
    } else {
      assert StripLeft(text) == text;
      assert Lower(text[0]) == 'd';
    }
  }

  lemma CompleteSends(c: Config, s: Scan, t: Scan)
    requires !s.quit && t.sent == s.sent && !t.quit
    ensures SendsOne(c, s, Complete(c, t)) && SendsOne(c, s, Go(c, t))
  {
    hide IsCommand, RemoveCntrl, NewDelimiter;
    if IsCommand(t.buffer) { CommandIsNoBackslash(t.buffer); }
  }

  lemma StepSends(c: Config, s: Scan, line: string, pos: nat)
    requires pos < |line| && !s.quit
    ensures SendsOne(c, s, Step(c, s, line, pos).s)
  {
    hide Complete, Go, IsSpace, LineComment, CommentOpens, CommentCloses, DelimiterAt, CString, SpacesFrom, AfterParams, CommentFollows, Peek;
    var ch := line[pos];
    if !s.mlComment && ch == '\\' && !(s.inString != NUL && c.noBackslashEscapes) {
      assert line[pos..][0] == ch;
    } else if !s.mlComment && s.inString == NUL && DelimiterAt(s, line, pos) {
      DelimiterSends(c, s, line, pos);
    } else if !s.mlComment && s.inString == NUL && LineComment(line, pos) {
      LineCommentSends(c, s, line, pos);
    }
  }

  lemma DelimiterSends(c: Config, s: Scan, line: string, pos: nat)
    requires pos <= |line| && !s.quit && DelimiterAt(s, line, pos)
    ensures SendsOne(c, s, AtDelimiter(c, s, line, pos).s)
  {
    hide Complete, CString, SpacesFrom, CommentFollows, SendsOne;
    var p := pos + |s.delimiter|;
    var n := if c.preserveComments then SpacesFrom(line, p) else 0;
    var s1 := Flush(s.(out := s.out + line[p..p + n]));
    CompleteSends(c, s, s1);
    CompleteSends(c, s, s1.(buffer := s1.buffer + CString(line, p + n)));
  }

  lemma LineCommentSends(c: Config, s: Scan, line: string, pos: nat)
    requires pos <= |line| && !s.quit
    ensures SendsOne(c, s, AtLineComment(c, s, line, pos).s)
  {
    hide Go, CString;
    var s1 := Flush(s);
    CompleteSends(c, s, s1.(buffer := s1.buffer + CString(line, pos)));
  }

  lemma {:induction false} ScanEndsWell(c: Config, k: nat, s: Scan, line: string, pos: nat)
    requires s.delimiter != "" && EndsWell(c, k, s)
    ensures EndsWell(c, k, ScanFrom(c, s, line, pos))
    decreases |line| - pos
  {
    hide Step, EndsWell;
    if pos < |line| && !s.quit {
      StepProgress(c, s, line, pos);
      StepSends(c, s, line, pos);
      OneMore(c, k, s, Step(c, s, line, pos).s);
      ScanEndsWell(c, k, Step(c, s, line, pos).s, line, Step(c, s, line, pos).pos);
    }
  }

  lemma LineEndsWell(c: Config, k: nat, s: Scan, line: string)
    requires s.delimiter != "" && !s.quit && EndsWell(c, k, s)
    ensures EndsWell(c, k, TakeLine(c, s, line, false))
  {
    hide IsCommand, ScanFrom, NewDelimiter, IsDelimiterCommand, Final;
    if s.buffer == "" && !s.mlComment && s.inString == NUL && IsCommand(line) {
      CommandIsNoBackslash(line);
      assert !Final(c, Command(line)) by { NotFinal(c, line); }
      OneMore(c, k, s, TakeLine(c, s, line, false));
    } else {
      ScanEndsWell(c, k, s.(ssComment := false, needSpace := false, out := ""), line, 0);
    }
  }

  lemma NotFinal(c: Config, text: string)
    requires text != "" && text[0] != '\\'
    ensures !Final(c, Command(text))
  {
  }

  /** For every text: after something sent whose answer ends the session nothing more is sent, and the session has
      ended; it ends for no other reason but an unknown command. */
  lemma {:induction false} NothingAfterTheEnd(c: Config, k: nat, s: Scan, t: string)
    requires s.delimiter != "" && EndsWell(c, k, s)
    ensures EndsWell(c, k, LineRun(c, s, t))
    decreases |t|
  {
    hide TakeLine, EndsWell, FirstPiece, AfterPiece;
    if t != "" && !s.quit {
      LineEndsWell(c, k, s, FirstPiece(t));
      NothingAfterTheEnd(c, k, TakeLine(c, s, FirstPiece(t), false), AfterPiece(t));
    }
  }

  // ---------- backslash commands ----------

  /** No delimiter starts at a position from a on and before b. */
  ghost predicate NoneIn(d: string, line: string, a: nat, b: nat) {
    forall q :: a <= q < b && q <= |line| ==> !(d <= line[q..])
  }

  lemma {:induction false} ParamsEnd(c: Config, s: Scan, line: string, pos: nat, q: nat)
    requires pos <= q <= |line| && !s.ssComment && NUL !in line && s.delimiter != ""
    requires NoneIn(s.delimiter, line, pos, q) && (q < |line| ==> s.delimiter <= line[q..])
    ensures AfterParams(c, s, line, pos) == if q == |line| then q else q + |s.delimiter|
    decreases q - pos
  {
    if pos < q {
      assert !(s.delimiter <= line[pos..]);
      ParamsEnd(c, s, line, pos + 1, q);
    }
  }

  /** The command for another character set: it is taken with its line, the statement read so far stays, and reading goes
      on behind the next delimiter, at q, or at the end of the line. */
  lemma CharsetCommand(c: Config, s: Scan, line: string, pos: nat, q: nat)
    requires pos + 2 <= q <= |line| && line[pos] == '\\' && line[pos + 1] == 'C' && NUL !in line && s.delimiter != ""
    requires !s.mlComment && !s.ssComment && s.inString == NUL
    requires NoneIn(s.delimiter, line, pos + 2, q) && (q < |line| ==> s.delimiter <= line[q..])
    ensures Step(c, s, line, pos) ==
            Next(s.(buffer := s.buffer + s.out, out := "", sent := s.sent + [Command(line[pos..])], quit := c.charsetFatal(line[pos..])),
                 if q == |line| then q else q + |s.delimiter|)
  {
    assert Flush(s).ssComment == s.ssComment;
    ParamsEnd(c, s, line, pos + 2, q);
  }

  /** An unknown command ends a session in batch mode, with nothing sent; otherwise it stays in the statement. */
  lemma UnknownCommand(c: Config, s: Scan, line: string, pos: nat)
    requires pos + 1 < |line| && line[pos] == '\\' && line[pos + 1] != 'C' && line[pos + 1] != 'N' && line[pos + 1] != NUL
    requires !s.mlComment && s.inString == NUL && s.delimiter != "" && !s.quit
    ensures c.unknownIsFatal ==> ScanFrom(c, s, line, pos) == s.(quit := true)
    ensures !c.unknownIsFatal ==> ScanFrom(c, s, line, pos) == ScanFrom(c, s.(out := s.out + line[pos..pos + 2]), line, pos + 2)
  {
    assert line[pos..pos + 2] == [line[pos], line[pos + 1]];
    StepProgress(c, s, line, pos);
    assert Step(c, s, line, pos) ==
           if c.unknownIsFatal then Next(s.(quit := true), |line|) else Next(s.(out := s.out + line[pos..pos + 2]), pos + 2);
  }
}
