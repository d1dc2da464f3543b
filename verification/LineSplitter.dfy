/** `add_line` of client/mysql.cc as it runs: the line is rewritten in place while it is read, and the
    rewritten part never overtakes the part still to be read. */
module LineSplitter {
  import opened Text
  import S = StatementSplitter
  import opened StatementSplitter

  method SkipSpaces(line: string, start: nat) returns (ptr: nat)
    requires start <= |line|
    ensures start <= ptr <= |line| && line[ptr..] == StripLeft(line[start..])
  {
    hide IsSpace;
    ptr := start;
    while ptr < |line| && IsSpace(line[ptr])
      invariant start <= ptr <= |line| && StripLeft(line[ptr..]) == StripLeft(line[start..])
    {
      assert line[ptr..][1..] == line[ptr + 1..];
      ptr := ptr + 1;
    }
  }

  method SkipName(line: string, start: nat) returns (ptr: nat)
    requires start <= |line|
    ensures start <= ptr <= |line| && line[ptr..] == SkipWord(line[start..])
  {
    hide IsSpace;
    ptr := start;
    while ptr < |line| && !IsSpace(line[ptr])
      invariant start <= ptr <= |line| && SkipWord(line[ptr..]) == SkipWord(line[start..])
    {
      assert line[ptr..][1..] == line[ptr + 1..];
      ptr := ptr + 1;
    }
  }

  /** `get_arg`, for a command that is written out. */
  method GetArg(line: string) returns (arg: string)
    ensures arg == ArgumentOf(line)
  {
    hide StripLeft, SkipWord, Unescaped, IsQuote;
    var ptr := SkipSpaces(line, 0);
    ptr := SkipName(line, ptr);
    ptr := SkipSpaces(line, ptr);
    assert line[0..] == line;
    if ptr < |line| && IsQuote(line[ptr]) {
      assert line[ptr..][1..] == line[ptr + 1..];
      arg := TakeArg(line, ptr + 1, line[ptr]);
    } else {
      arg := TakeArg(line, ptr, NUL);
    }
  }

  /** The last loop of `get_arg`. */
  method TakeArg(line: string, start: nat, quote: char) returns (arg: string)
    requires start <= |line|
    ensures arg == Unescaped(line[start..], quote)
  {
    hide Unescaped;
    var ptr := start;
    arg := "";
    assert arg + Unescaped(line[ptr..], quote) == Unescaped(line[start..], quote);
    while ptr < |line|
      invariant start <= ptr <= |line| && arg + Unescaped(line[ptr..], quote) == Unescaped(line[start..], quote)
    {
      UnescapedFrom(line, ptr, quote, arg);
      if line[ptr] == '\\' && ptr + 1 < |line| {
        arg := arg + [line[ptr + 1]];
        ptr := ptr + 2;
      } else if line[ptr] == (if quote == NUL then ' ' else quote) {
        return;
      } else {
        arg := arg + [line[ptr]];
        ptr := ptr + 1;
      }
    }
    assert Unescaped(line[|line|..], quote) == "" by { NothingLeft(line, quote); }
  }

  lemma NothingLeft(line: string, quote: char)
    ensures Unescaped(line[|line|..], quote) == ""
  {
  }

  lemma UnescapedFrom(line: string, ptr: nat, quote: char, arg: string)
    requires ptr < |line|
    ensures arg + Unescaped(line[ptr..], quote) ==
            if line[ptr] == '\\' && ptr + 1 < |line| then arg + [line[ptr + 1]] + Unescaped(line[ptr + 2..], quote)
            else if line[ptr] == (if quote == NUL then ' ' else quote) then arg
            else arg + [line[ptr]] + Unescaped(line[ptr + 1..], quote)
  {
    var r := line[ptr..];
    assert r[1..] == line[ptr + 1..] && (|r| > 1 ==> r[1] == line[ptr + 1] && r[2..] == line[ptr + 2..]);
    if r[0] == '\\' && |r| > 1 {
      assert arg + ([r[1]] + Unescaped(r[2..], quote)) == arg + [r[1]] + Unescaped(r[2..], quote);
    } else if r[0] == (if quote == NUL then ' ' else quote) {
      assert arg + "" == arg;
    } else {
      assert arg + ([r[0]] + Unescaped(r[1..], quote)) == arg + [r[0]] + Unescaped(r[1..], quote);
    }
  }

  /** `com_delimiter`: the new delimiter, if there is one. */
  method ComDelimiter(command: string) returns (d: Option<string>)
    ensures d == NewDelimiter(command)
  {
    hide ArgumentOf;
    var tmp := GetArg(Shortened(CString(command, 0), MAX_COMMAND));
    if tmp == "" || '\\' in tmp || NUL in tmp { return None; }
    return Some(Shortened(tmp, MAX_DELIMITER));
  }

  class Splitter {
    const c: Config
    var delimiter: string
    var buffer: string
    var inString: char
    var mlComment: bool
    var sent: seq<Sent>
    // the locals of add_line
    var pos: nat
    var out: nat
    var ssComment: bool
    var needSpace: bool
    var quit: bool

    constructor (c: Config, delimiter: string)
      requires delimiter != ""
      ensures this.c == c && this.delimiter == delimiter && buffer == "" && inString == NUL && !mlComment && sent == [] && !quit
    {
      this.c, this.delimiter := c, delimiter;
      buffer, inString, mlComment, sent := "", NUL, false, [];
      pos, out, ssComment, needSpace, quit := 0, 0, false, false, false;
    }

    ghost function View(line: array<char>): Scan
      requires out <= line.Length
      reads this, line
    {
      Scan(delimiter, buffer, inString, mlComment, ssComment, needSpace, line[..out], sent, quit)
    }

    /** The characters from pos on are still those of the original line; what was written, and one more
        blank if it is due, ends before pos. */
    ghost predicate InPlace(line: array<char>, orig: string)
      reads this, line
    {
      && delimiter != "" && NUL !in delimiter && |orig| < line.Length && line[|orig|] == NUL
      && pos <= |orig| && (forall i :: pos <= i < |orig| ==> line[i] == orig[i])
      && out + (if needSpace then 1 else 0) <= pos
    }

    lemma LooksAhead(line: array<char>, orig: string)
      requires InPlace(line, orig) && pos < |orig|
      ensures line[pos] == orig[pos] == Peek(orig, pos) && line[pos + 1] == Peek(orig, pos + 1)
      ensures pos + 1 < |orig| ==> line[pos + 2] == Peek(orig, pos + 2)
    {
    }

    /** Write one character behind the part already rewritten. */
    method Put(line: array<char>, ch: char)
      requires out < line.Length
      modifies this`out, line
      ensures out == old(out) + 1 && line[..out] == old(line[..out]) + [ch]
      ensures forall i :: out <= i < line.Length ==> line[i] == old(line[i])
    {
      line[out] := ch;
      out := out + 1;
    }

    method FlushOut(line: array<char>)
      requires out <= line.Length
      modifies this`out, this`buffer
      ensures out == 0 && View(line) == Flush(old(View(line)))
    {
      if out != 0 {
        buffer := buffer + line[..out];
        out := 0;
      }
    }

    /** `com_go`. */
    method ComGo()
      modifies this`buffer, this`sent, this`quit
      ensures buffer == "" && sent == old(sent) + (if RemoveCntrl(c, old(buffer)) == "" then [] else [Statement(RemoveCntrl(c, old(buffer)))])
      ensures quit == if RemoveCntrl(c, old(buffer)) == "" then old(quit) else c.fatal(RemoveCntrl(c, old(buffer)))
      ensures exists k: nat :: CutsBehind(c, old(buffer), k) && sent == old(sent) + if k == 0 then [] else [Statement(old(buffer)[..k])]
    {
      var end := |buffer|;
      assert buffer[..end] == buffer;
      while 0 < end && !c.isGraph(buffer[end - 1])
        invariant 0 <= end <= |buffer| && RemoveCntrl(c, buffer) == RemoveCntrl(c, buffer[..end])
      {
        assert buffer[..end][..end - 1] == buffer[..end - 1];
        end := end - 1;
      }
      var text := buffer[..end];
      assert CutsBehind(c, buffer, |RemoveCntrl(c, buffer)|);
      buffer := "";
      if text != "" {
        sent := sent + [Statement(text)];
        quit := c.fatal(text);
      }
    }

    method RunBuffer(line: array<char>)
      requires delimiter != "" && NUL !in delimiter && out <= line.Length
      modifies this`buffer, this`sent, this`quit, this`delimiter
      ensures delimiter != "" && NUL !in delimiter && View(line) == Complete(c, old(View(line)))
    {
      hide IsCommand, RemoveCntrl;
      if IsCommand(buffer) {
        var d := ComDelimiter(buffer);
        NewDelimiterIsUsable(buffer);
        sent := sent + [Command(buffer)];
        if d.Some? { delimiter := d.value; }
        buffer := "";
      } else {
        ComGo();
      }
    }

    /** Whether a string or a server-side comment opens or closes at inchar. */
    method UpdateModes(inchar: char, next: char, next2: char)
      modifies this`ssComment, this`inString
      ensures ssComment == (if old(inString) == NUL && inchar == '/' && next == '*' && next2 == '!' then true
                            else if old(inString) == NUL && old(ssComment) && inchar == '*' && next == '/' then false
                            else old(ssComment))
      ensures inString == (if inchar == old(inString) then NUL
                           else if !mlComment && old(inString) == NUL && IsQuote(inchar) then inchar
                           else old(inString))
    {
      if inString == NUL && inchar == '/' && next == '*' && next2 == '!' {
        ssComment := true;
      } else if inString == NUL && ssComment && inchar == '*' && next == '/' {
        ssComment := false;
      }
      if inchar == inString {
        inString := NUL;
      } else if !mlComment && inString == NUL && IsQuote(inchar) {
        inString := inchar;
      }
    }

    /** The character goes to the rewritten part, after the blank that a removed comment leaves. */
    method Emit(line: array<char>, inchar: char)
      requires out + (if needSpace then 1 else 0) < line.Length
      modifies this`out, this`needSpace, line
      ensures !needSpace && out <= old(out) + (if old(needSpace) then 1 else 0) + 1 <= line.Length
      ensures line[..out] == old(line[..out]) + (if old(needSpace) && !IsSpace(inchar) then " " else "") + [inchar]
      ensures forall i :: old(out) + (if old(needSpace) then 1 else 0) < i < line.Length ==> line[i] == old(line[i])
    {
      hide IsSpace;
      if needSpace && !IsSpace(inchar) { Put(line, ' '); }
      needSpace := false;
      Put(line, inchar);
    }

    method StepTake(line: array<char>, ghost orig: string)
      requires InPlace(line, orig) && pos < |orig|
      modifies this, line
      ensures InPlace(line, orig) && Next(View(line), pos) == Take(c, old(View(line)), orig, old(pos))
    {
      hide IsSpace, Peek;
      LooksAhead(line, orig);
      var inchar := line[pos];
      var next, next2 := line[pos + 1], NUL;
      if next == '*' {
        assert pos + 1 < |orig| by { PeekBeyond(orig, pos + 1); }
        next2 := line[pos + 2];
      }
      UpdateModes(inchar, next, next2);
      if !mlComment || c.preserveComments { Emit(line, inchar); }
      pos := pos + 1;
    }

    lemma PeekBeyond(orig: string, i: nat)
      ensures i >= |orig| ==> Peek(orig, i) == NUL
    {
    }

    /** `is_prefix` against the delimiter. */
    method HasDelimiter(line: array<char>, p: nat, ghost orig: string) returns (r: bool)
      requires InPlace(line, orig) && pos <= p <= |orig|
      ensures r == DelimiterAt(View(line), orig, p)
    {
      var i := 0;
      while i < |delimiter| && line[p + i] == delimiter[i]
        invariant 0 <= i <= |delimiter| && p + i <= |orig| && delimiter[..i] == orig[p..p + i]
      {
        assert delimiter[..i + 1] == delimiter[..i] + [delimiter[i]];
        i := i + 1;
      }
      r := i == |delimiter|;
      if r {
        assert delimiter[..i] == delimiter && orig[p..][..i] == orig[p..p + i];
      }
    }

    /** `strlen`. */
    method StrEnd(line: array<char>, p: nat, ghost orig: string) returns (e: nat)
      requires InPlace(line, orig) && pos <= p <= |orig|
      ensures p <= e <= |orig| && CString(orig, p) == orig[p..e] == line[p..e]
    {
      e := p;
      while line[e] != NUL
        invariant p <= e <= |orig| && forall i :: p <= i < e ==> orig[i] != NUL
        decreases |orig| - e
      {
        e := e + 1;
      }
      CStringIs(orig, p, e);
    }

    method StepComment(line: array<char>, ghost orig: string, opens: bool)
      requires InPlace(line, orig) && pos < |orig|
      requires if opens then CommentOpens(orig, pos) else CommentCloses(orig, pos)
      modifies this, line
      ensures InPlace(line, orig)
      ensures var s := old(View(line));
              var s1 := Flush(s.(mlComment := opens, out := s.out + if !c.preserveComments then "" else if opens then "/*" else "*/"));
              Next(View(line), pos) == Next(if opens then s1 else s1.(needSpace := true), old(pos) + 2)
    {
      hide Flush;
      CopyMark(line, orig);
      pos := pos + 2;
      mlComment := opens;
      FlushOut(line);
      if !opens { needSpace := true; }
    }

    /** With comments preserved, the comment mark stays. */
    method CopyMark(line: array<char>, ghost orig: string)
      requires InPlace(line, orig) && pos + 1 < |orig|
      modifies this`out, line
      ensures out <= old(out) + 2 && out <= line.Length
      ensures line[..out] == old(line[..out]) + if c.preserveComments then [orig[pos], orig[pos + 1]] else ""
      ensures forall i :: pos + 2 <= i < line.Length ==> line[i] == old(line[i])
    {
      if c.preserveComments {
        var fst, snd := line[pos], line[pos + 1];
        Put(line, fst);
        Put(line, snd);
      }
    }

    method StepLineComment(line: array<char>, lineLength: nat, ghost orig: string)
      requires InPlace(line, orig) && pos < |orig| == lineLength
      modifies this, line
      ensures InPlace(line, orig) && Next(View(line), pos) == AtLineComment(c, old(View(line)), orig, old(pos))
    {
      hide RemoveCntrl;
      FlushOut(line);
      if c.preserveComments {
        var startedWithNothing := buffer == "";
        var e := StrEnd(line, pos, orig);
        buffer := buffer + line[pos..e];
        if startedWithNothing { ComGo(); }
      }
      pos := lineLength;
    }

    /** The end of the parameters of a short command. */
    method SkipParams(line: array<char>, p: nat, ghost orig: string) returns (e: nat)
      requires InPlace(line, orig) && pos <= p <= |orig|
      ensures e == AfterParams(c, View(line), orig, p)
    {
      hide DelimiterAt;
      e := p;
      while line[e] != NUL
        invariant p <= e <= |orig| && AfterParams(c, View(line), orig, p) == AfterParams(c, View(line), orig, e)
        decreases |orig| - e
      {
        if ssComment {
          if line[e] == '*' && line[e + 1] == '/' { return; }
        } else {
          var found := HasDelimiter(line, e, orig);
          if found { return e + |delimiter|; }
        }
        e := e + 1;
      }
    }

    method StepBackslash(line: array<char>, lineLength: nat, ghost orig: string)
      requires InPlace(line, orig) && pos < |orig| == lineLength
      modifies this, line
      ensures InPlace(line, orig) && Next(View(line), pos) == Backslash(c, old(View(line)), orig, old(pos))
    {
      hide AfterParams;
      LooksAhead(line, orig);
      var backslash, inchar := line[pos], line[pos + 1];
      if inchar == NUL {
        pos := lineLength;
      } else if inString != NUL || inchar == 'N' {
        PutTwo(line, orig, inchar);
      } else if inchar == 'C' {
        var command := line[pos..lineLength];
        assert command == orig[pos..];
        ghost var s := View(line);
        var e := SkipParams(line, pos + 2, orig);
        FlushOut(line);
        sent := sent + [Command(command)];
        quit := c.charsetFatal(command);
        pos := e;
      } else if c.unknownIsFatal {
        quit := true;
        pos := lineLength;
      } else {
        PutTwo(line, orig, inchar);
      }
    }

    method PutTwo(line: array<char>, ghost orig: string, inchar: char)
      requires InPlace(line, orig) && pos + 1 < |orig|
      modifies this`out, this`pos, line
      ensures InPlace(line, orig) && pos == old(pos) + 2
      ensures View(line) == old(View(line)).(out := old(line[..out]) + ['\\', inchar])
    {
      Put(line, '\\');
      Put(line, inchar);
      pos := pos + 2;
    }

    /** With comments preserved, blanks behind the delimiter stay with the statement. */
    method CopySpaces(line: array<char>, ghost orig: string)
      requires InPlace(line, orig)
      modifies this`out, this`pos, line
      ensures InPlace(line, orig) && pos == old(pos) + SpacesFrom(orig, old(pos))
      ensures View(line) == old(View(line)).(out := old(line[..out]) + orig[old(pos)..pos])
    {
      hide IsSpace;
      ghost var start := pos;
      while line[pos] != NUL && IsSpace(line[pos])
        invariant InPlace(line, orig) && start <= pos
        invariant pos + SpacesFrom(orig, pos) == start + SpacesFrom(orig, start)
        invariant line[..out] == old(line[..out]) + orig[start..pos]
        decreases |orig| - pos
      {
        var ch := line[pos];
        assert orig[start..pos + 1] == orig[start..pos] + [ch];
        Put(line, ch);
        pos := pos + 1;
      }
      assert pos < |orig| ==> !IsSpace(orig[pos]) by { NulIsNoSpace(); }
    }

    lemma NulIsNoSpace() ensures !IsSpace(NUL) {}

    method PassDelimiter(line: array<char>, ghost orig: string)
      requires InPlace(line, orig) && pos + |delimiter| <= |orig|
      modifies this`out, this`pos, this`buffer, line
      ensures InPlace(line, orig)
      ensures var s, p := old(View(line)), old(pos) + |delimiter|;
              var n := if c.preserveComments then SpacesFrom(orig, p) else 0;
              pos == p + n && View(line) == Flush(s.(out := s.out + orig[p..p + n]))
    {
      hide SpacesFrom;
      pos := pos + |delimiter|;
      if c.preserveComments { CopySpaces(line, orig); } else { assert line[..out] + orig[pos..pos + 0] == line[..out]; }
      FlushOut(line);
    }

    method StepDelimiter(line: array<char>, ghost orig: string)
      requires InPlace(line, orig) && pos < |orig| && DelimiterAt(View(line), orig, pos)
      modifies this, line
      ensures InPlace(line, orig) && Next(View(line), pos) == AtDelimiter(c, old(View(line)), orig, old(pos))
    {
      hide Complete, CString, SpacesFrom, CommentFollows, Flush;
      PassDelimiter(line, orig);
      KeepTrailing(line, orig);
      RunBuffer(line);
    }

    /** With comments preserved, a comment behind the delimiter stays with the statement. */
    method KeepTrailing(line: array<char>, ghost orig: string)
      requires InPlace(line, orig)
      modifies this`buffer, this`pos
      ensures InPlace(line, orig)
      ensures if c.preserveComments && CommentFollows(orig, old(pos)) then
                var kept := CString(orig, old(pos));
                pos == old(pos) + |kept| && View(line) == old(View(line)).(buffer := old(buffer) + kept)
              else pos == old(pos) && View(line) == old(View(line))
    {
      hide CommentFollows, CString;
      var comment := TrailingComment(line, orig);
      if c.preserveComments && comment {
        var e := StrEnd(line, pos, orig);
        buffer := buffer + line[pos..e];
        pos := e;
      }
    }

    method TrailingComment(line: array<char>, ghost orig: string) returns (r: bool)
      requires InPlace(line, orig)
      ensures r == CommentFollows(orig, pos)
    {
      hide IsSpace;
      r := line[pos] == '#' || (line[pos] == '-' && line[pos + 1] == '-' && IsSpace(line[pos + 2]));
    }

    method IsLineComment(line: array<char>, ghost orig: string) returns (r: bool)
      requires InPlace(line, orig) && pos < |orig|
      ensures r == LineComment(orig, pos)
    {
      hide IsSpace;
      r := line[pos] == '#'
           || (line[pos] == '-' && line[pos + 1] == '-' && (IsSpace(line[pos + 2]) || line[pos + 2] == NUL));
    }

    /** One iteration of the loop of `add_line`. */
    method StepLine(line: array<char>, lineLength: nat, ghost orig: string)
      requires InPlace(line, orig) && pos < |orig| == lineLength
      modifies this, line
      ensures InPlace(line, orig) && Next(View(line), pos) == S.Step(c, old(View(line)), orig, old(pos))
    {
      hide IsSpace, Take, Backslash, AtDelimiter, AtLineComment, LineComment, Flush, DelimiterAt, CommentOpens, CommentCloses;
      LooksAhead(line, orig);
      var inchar := line[pos];
      if !c.preserveComments && IsSpace(inchar) && out == 0 && buffer == "" {
        pos := pos + 1;
        return;
      }
      if !mlComment && inchar == '\\' && !(inString != NUL && c.noBackslashEscapes) {
        StepBackslash(line, lineLength, orig);
        return;
      }
      StepToken(line, lineLength, orig);
    }

    /** Not a leading blank and not a backslash: a delimiter, a comment, or an ordinary character. */
    method StepToken(line: array<char>, lineLength: nat, ghost orig: string)
      requires InPlace(line, orig) && pos < |orig| == lineLength
      requires !(!c.preserveComments && IsSpace(orig[pos]) && View(line).out == "" && buffer == "")
      requires !(!mlComment && orig[pos] == '\\' && !(inString != NUL && c.noBackslashEscapes))
      modifies this, line
      ensures InPlace(line, orig) && Next(View(line), pos) == S.Step(c, old(View(line)), orig, old(pos))
    {
      hide IsSpace, Take, Backslash, AtDelimiter, AtLineComment, LineComment, Flush, DelimiterAt;
      LooksAhead(line, orig);
      var inchar := line[pos];
      var found := HasDelimiter(line, pos, orig);
      var comment := IsLineComment(line, orig);
      if !mlComment && inString == NUL && found {
        StepDelimiter(line, orig);
      } else if !mlComment && inString == NUL && comment {
        StepLineComment(line, lineLength, orig);
      } else if inString == NUL && inchar == '/' && line[pos + 1] == '*' && line[pos + 2] != '!' {
        StepComment(line, orig, true);
      } else if mlComment && !ssComment && inchar == '*' && line[pos + 1] == '/' {
        StepComment(line, orig, false);
      } else {
        StepTake(line, orig);
      }
    }

    /** The state between lines. */
    ghost function State(): Scan
      reads this
    {
      Scan(delimiter, buffer, inString, mlComment, ssComment, needSpace, "", sent, quit)
    }

    /** The end of `add_line`: the rewritten line, with its line break, goes to the buffer. */
    method FinishLine(line: array<char>, truncated: bool)
      requires out < line.Length && !quit
      modifies this`buffer, this`out, line
      ensures out == 0 && State() == EndLine(c, old(View(line)), truncated)
    {
      hide IsDelimiterCommand;
      ghost var text := line[..out];
      if out != 0 || buffer != "" {
        if !truncated && (!IsDelimiterCommand(line[..out]) || inString != NUL || mlComment) { Put(line, '\n'); }
        if !mlComment || c.preserveComments { buffer := buffer + line[..out]; }
        out := 0;
      }
    }

    /** `add_line`: true ends the session. */
    method AddLine(line: array<char>, lineLength: nat, truncated: bool) returns (r: bool)
      requires lineLength < line.Length && line[lineLength] == NUL && delimiter != "" && NUL !in delimiter && !quit
      modifies this, line
      ensures delimiter != "" && NUL !in delimiter
      ensures var t := S.AddLine(c, old(State()), old(line[..lineLength]), truncated);
              r == quit == t.quit && sent == t.sent && (!quit ==> State() == t)
    {
      hide S.Step;
      if line[0] == NUL && buffer == "" { return false; }
      ghost var orig := line[..lineLength];
      pos, out, ssComment, needSpace := 0, 0, false, false;
      ghost var s := View(line);
      assert s == old(State()).(ssComment := false, needSpace := false, out := "");
      while pos < lineLength && !quit
        invariant InPlace(line, orig) && ScanFrom(c, View(line), orig, pos) == ScanFrom(c, s, orig, 0)
        decreases lineLength - pos
      {
        StepProgress(c, View(line), orig, pos);
        StepLine(line, lineLength, orig);
      }
      if quit { return true; }
      FinishLine(line, truncated);
      return false;
    }
  }

  lemma {:induction false} CStringIs(orig: string, p: nat, e: nat)
    requires p <= e <= |orig| && (forall i :: p <= i < e ==> orig[i] != NUL) && (e < |orig| ==> orig[e] == NUL)
    ensures CString(orig, p) == orig[p..e]
    decreases e - p
  {
    if p < e { CStringIs(orig, p + 1, e); }
  }
}
