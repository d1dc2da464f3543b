/** DELIMITER commands in the input of client/mysql.cc: after such a line the statements that follow are cut at the
    delimiter it names. */
module DelimiterLines {
  import opened Text
  import opened StatementSplitter
  import opened LineReader
  import opened SplitterMeaning
  import opened SentStatements

  /** A delimiter that can be named without quotes. */
  ghost predicate Nameable(d: string) {
    && 0 < |d| <= 245 && '\\' !in d && NUL !in d && '\'' != d[0] && '"' != d[0] && '`' != d[0]
    && forall i :: 0 <= i < |d| ==> !IsSpace(d[i])
  }

  lemma {:induction false} WordIsSkipped(w: string, rest: string)
    requires (forall i :: 0 <= i < |w| ==> !IsSpace(w[i])) && (rest != "" ==> IsSpace(rest[0]))
    ensures SkipWord(w + rest) == rest
    decreases |w|
  {
    hide IsSpace;
    if w == "" {
      assert w + rest == rest;
    } else {
      assert (w + rest)[0] == w[0] && (w + rest)[1..] == w[1..] + rest;
      WordIsSkipped(w[1..], rest);
    }
  }

  lemma {:induction false} NothingToEscape(d: string)
    requires '\\' !in d && ' ' !in d
    ensures Unescaped(d, NUL) == d
  {
    if d != "" {
      NothingToEscape(d[1..]);
      assert d == [d[0]] + d[1..];
    }
  }

  lemma CommandWord(w: string)
    requires w in ["delimiter", "DELIMITER"]
    ensures |w| == 9 && !IsSpace(w[0]) && (forall i :: 0 <= i < |w| ==> !IsSpace(w[i]))
    ensures IsDelimiterCommand(w) && NUL !in w && '\n' !in w
  {
  }

  lemma {:induction false} UpToTheQuote(d: string, q: char, rest: string)
    requires '\\' !in d && q !in d && q != NUL && q != '\\'
    ensures Unescaped(d + [q] + rest, q) == d
    decreases |d|
  {
    var s := d + [q] + rest;
    if d != "" {
      assert s[0] == d[0] && s[1..] == d[1..] + [q] + rest;
      UpToTheQuote(d[1..], q, rest);
      assert d == [d[0]] + d[1..];
    } else {
      assert s[0] == q;
    }
  }

  /** In quotes a delimiter may hold blanks and other quotes. */
  lemma QuotedDelimiterIsNamed(w: string, d: string, q: char, rest: string)
    requires w in ["delimiter", "DELIMITER"] && q in "'\"`" && 0 < |d| <= 15 && '\\' !in d && NUL !in d && q !in d
    requires NUL !in rest && |rest| <= 200
    ensures var line := w + " " + [q] + d + [q] + rest; IsCommand(line) && NewDelimiter(line) == Some(d)
  {
    hide IsDelimiterCommand, SkipWord, Unescaped, CString, IsSpace;
    var a := [q] + d + [q] + rest;
    var line := w + " " + [q] + d + [q] + rest;
    CommandWord(w);
    Blank();
    Marks();
    assert line == w + (" " + a) && line[0] == w[0];
    assert StripLeft(line) == line;
    LongerCommand(w, " " + a);
    WordIsSkipped(w, " " + a);
    assert (" " + a)[1..] == a && a[0] == q && a[1..] == d + [q] + rest;
    assert StripLeft(" " + a) == StripLeft(a) == a;
    UpToTheQuote(d, q, rest);
    assert line[0..] == line && NUL !in line;
    CStringIsRest(line, 0);
  }

  lemma Marks() ensures !IsSpace('\'') && !IsSpace('"') && !IsSpace('`') {}

  /** The line names its delimiter, of which fifteen characters are kept. */
  lemma DelimiterIsNamed(w: string, d: string)
    requires w in ["delimiter", "DELIMITER"] && Nameable(d)
    ensures var line := w + " " + d; IsCommand(line) && NewDelimiter(line) == Some(if |d| <= 15 then d else d[..15]) && '\n' !in line
  {
    hide IsDelimiterCommand, SkipWord, Unescaped, CString, IsSpace;
    var line := w + " " + d;
    CommandWord(w);
    assert line[0] == w[0];
    assert StripLeft(line) == line;
    LongerCommand(w, " " + d);
    assert line == w + (" " + d);
    Blank();
    WordIsSkipped(w, " " + d);
    assert (" " + d)[1..] == d && (" " + d)[0] == ' ';
    assert StripLeft(" " + d) == StripLeft(d) == d;
    NoBlankIn(d);
    NothingToEscape(d);
    assert line[0..] == line && NUL !in line;
    CStringIsRest(line, 0);
  }

  lemma Blank() ensures IsSpace(' ') && IsSpace('\n') {}

  lemma NoBlankIn(d: string)
    requires forall i :: 0 <= i < |d| ==> !IsSpace(d[i])
    ensures ' ' !in d && '\n' !in d
  {
    Blank();
  }

  lemma LongerCommand(w: string, rest: string)
    requires IsDelimiterCommand(w)
    ensures IsDelimiterCommand(w + rest)
  {
    assert forall i :: 0 <= i < |w| ==> (w + rest)[i] == w[i];
  }

  /** Between statements, a line "DELIMITER d" and then clean statements, each with d behind it: the command is taken and
      the statements are sent, one by one and in order. */
  lemma DelimiterThenStatements(c: Config, s: Scan, w: string, d: string, stmts: seq<string>)
    requires s.delimiter != "" && Idle(s) && w in ["delimiter", "DELIMITER"] && Nameable(d) && |d| <= 15
    requires DelimiterOk(c, d) && (c.preserveComments ==> BlanksAreControl(c))
    requires forall i :: 0 <= i < |stmts| ==> CleanStatement(c, d, stmts[i])
    requires NoCommandLine(Written(d, stmts))
    ensures var r := LineRun(c, s, w + " " + d + "\n" + Written(d, stmts));
            r.sent == s.sent + [Command(w + " " + d)] + Expected(c, stmts, true) && r.buffer == ""
  {
    hide IsCommand, NewDelimiter, Nameable, DelimiterOk, CleanStatement, NoCommandLine, Written, Expected, AddLine;
    var line, rest := w + " " + d, Written(d, stmts);
    DelimiterIsNamed(w, d);
    PieceUnique(line + "\n" + rest, line, rest);
    NewDelimiterIsUsable(line);
    var t := TakeLine(c, s, line, false);
    assert t == s.(sent := s.sent + [Command(line)], delimiter := d);
    StatementsAreSent(c, t, stmts);
  }
}
