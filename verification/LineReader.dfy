/** The buffered line reader of batch mode (client/readline.cc). */
module LineReader {
  import opened Text
  import opened Memory

  const IO_SIZE := 4096

  // ---------- plain line splitting ----------

  /** Position of the first line break at or after k; |s| when there is none. */
  ghost function BreakFrom(s: string, k: nat): (i: nat)
    requires k <= |s|
    ensures k <= i <= |s| && (i < |s| ==> s[i] == '\n')
    ensures forall j :: k <= j < i ==> s[j] != '\n'
    decreases |s| - k
  {
    if k == |s| || s[k] == '\n' then k else BreakFrom(s, k + 1)
  }

  ghost function FirstPiece(s: string): string { s[..BreakFrom(s, 0)] }

  ghost function AfterPiece(s: string): (r: string)
    ensures s != "" ==> |r| < |s|
  {
    var i := BreakFrom(s, 0);
    if i < |s| then s[i + 1..] else ""
  }

  /** The newline-separated pieces of a stream, a final unterminated one included. */
  ghost function SplitLines(s: string): seq<string>
    decreases |s|
  {
    if s == "" then [] else [FirstPiece(s)] + SplitLines(AfterPiece(s))
  }

  lemma PieceUnique(s: string, line: string, rest: string)
    requires '\n' !in line && (s == line + "\n" + rest || (s == line && rest == ""))
    ensures FirstPiece(s) == line && AfterPiece(s) == rest
  {
    var i := BreakFrom(s, 0);
    assert forall j :: 0 <= j < |line| ==> s[j] == line[j];
    if s == line + "\n" + rest { assert s[|line|] == '\n'; }
  }

  ghost function Terminated(lines: seq<string>): string {
    if lines == [] then "" else lines[0] + "\n" + Terminated(lines[1..])
  }

  lemma PieceParts(s: string)
    requires s != ""
    ensures '\n' !in FirstPiece(s)
    ensures s == FirstPiece(s) + "\n" + AfterPiece(s) || (s == FirstPiece(s) && AfterPiece(s) == "")
  {
    var i := BreakFrom(s, 0);
    assert i < |s| ==> s == s[..i] + [s[i]] + s[i + 1..];
  }

  ghost function WithBreak(s: string): string { if s == "" || s[|s| - 1] == '\n' then s else s + "\n" }

  lemma BreakBehind(line: string, rest: string)
    ensures WithBreak(line + "\n" + rest) == line + "\n" + WithBreak(rest)
  {
    assert rest != "" ==> (line + "\n" + rest)[|line| + |rest|] == rest[|rest| - 1];
  }

  /** Splitting is undone by writing every piece with a line break behind it. */
  lemma {:induction false} PiecesRejoin(s: string)
    ensures Terminated(SplitLines(s)) == WithBreak(s)
    ensures forall l :: l in SplitLines(s) ==> '\n' !in l
    decreases |s|
  {
    hide FirstPiece, AfterPiece, WithBreak;
    if s == "" {
      NoBreakAdded(s);
    } else {
      var line, rest := FirstPiece(s), AfterPiece(s);
      PieceParts(s);
      PiecesRejoin(rest);
      assert SplitLines(s)[1..] == SplitLines(rest);
      if s == line + "\n" + rest { BreakBehind(line, rest); } else { NoBreakAdded(s); }
    }
  }

  lemma NoBreakAdded(s: string)
    requires '\n' !in s
    ensures WithBreak(s) == (if s == "" then "" else s + "\n") && WithBreak("") == ""
  {
  }

  /** The raw line (with its break unless at the end of the file), what was pending before it and what is after it. */
  ghost predicate NextOf(raw: string, pending: string, rest: string, truncated: bool, eof: bool) {
    if truncated then raw != "" && '\n' !in raw && pending == raw + rest
    else if !eof then raw != "" && raw[|raw| - 1] == '\n' && '\n' !in raw[..|raw| - 1] && pending == raw + rest
    else '\n' !in raw && (pending == raw + "\n" + rest || (pending == raw && raw != "" && rest == ""))
  }

  /** A line break at position k of what is in the buffer. */
  lemma LineIsNext(all: string, k: nat, pending: string, unread: string, eof: bool, wasEof: bool)
    requires k < |all| && all[k] == '\n' && forall i :: 0 <= i < k ==> all[i] != '\n'
    requires if !eof then pending == all + unread else if wasEof then pending == all else pending != "" && all == pending + "\n"
    requires eof && !wasEof ==> '\n' !in pending
    ensures NextOf(if eof then all[..k] else all[..k + 1], pending, all[k + 1..] + if eof then "" else unread, false, eof)
  {
    CutAtBreak(all, k);
    if !eof {
      assert all[..k + 1] + all[k + 1..] + unread == all[..k + 1] + (all[k + 1..] + unread);
    } else if !wasEof {
      assert forall i :: 0 <= i < |pending| ==> all[i] == pending[i];
      assert all[..k] == pending && all[k + 1..] == "";
    } else {
      assert all[k + 1..] + "" == all[k + 1..];
    }
  }

  lemma CutAtBreak(all: string, k: nat)
    requires k < |all| && all[k] == '\n' && forall i :: 0 <= i < k ==> all[i] != '\n'
    ensures '\n' !in all[..k] && all[..k + 1] == all[..k] + "\n" && all == all[..k + 1] + all[k + 1..]
    ensures all[..k + 1][..k] == all[..k]
  {
  }

  /** Reads ask for whole blocks. */
  function WholeBlocks(n: nat): (r: nat)
    ensures r <= n < r + IO_SIZE && (r == 0 <==> n < IO_SIZE)
  {
    n / IO_SIZE * IO_SIZE
  }

  // ---------- the file ----------

  /** An open file: each read may return fewer bytes than asked for, or fail. */
  class InputFile {
    var rest: string

    constructor (content: string)
      ensures rest == content
    {
      rest := content;
    }

    method Read(count: nat) returns (data: string, ok: bool)
      requires count > 0
      modifies this
      ensures ok ==> old(rest) == data + rest && |data| <= count && (data == "" ==> old(rest) == "")
      ensures !ok ==> rest == old(rest)
    {
      if * { return "", false; }
      if rest == "" { return "", true; }
      var n := if |rest| < count then |rest| else count;
      var k :| 1 <= k <= n;
      data, ok, rest := rest[..k], true, rest[k..];
    }
  }

  // ---------- the buffer ----------

  /** What was given so far, its line break turned into a blank, and one more string with its line break. */
  ghost function JoinedText(kept: string, str: string): string {
    (if kept == "" then "" else kept[..|kept| - 1] + " ") + str + "\n"
  }

  lemma EndsWithBreak(kept: string, str: string)
    ensures var t := JoinedText(kept, str); |t| == |kept| + |str| + 1 && t[|t| - 1] == '\n'
  {
  }

  /** The bytes after the three writes of `init_line_buffer_from_string`. */
  lemma Joined(kept: string, spare: string, str: string)
    requires |spare| == |str| + 2
    ensures var n := |kept|;
            var t1 := if n > 0 then Written(kept + spare, n - 1, " ") else kept + spare;
            var t := Written(Written(t1, n, str), n + |str|, "\n");
            t[..n + |str| + 1] == JoinedText(kept, str)
  {
    var n := |kept|;
    var a := if n > 0 then kept[..n - 1] + " " else "";
    var t1 := if n > 0 then Written(kept + spare, n - 1, " ") else kept + spare;
    assert t1 == a + spare + "";
    Overwrite(a, spare, "", str);
    Overwrite(a + str, spare[|str|..], "", "\n");
  }

  class LineBuffer {
    const file: InputFile
    var buffer: array<char>
    var startOfLine: nat
    var endOfLine: nat
    var end: nat
    var bufread: nat
    var maxSize: nat
    var eof: bool
    var truncated: bool
    var error: bool

    ghost predicate Shaped()
      reads this, buffer
    {
      && startOfLine <= endOfLine <= end < buffer.Length
      && (!eof ==> buffer.Length == bufread + 1 && IO_SIZE <= bufread)
    }

    ghost predicate Valid()
      reads this, buffer
    {
      Shaped() && !error && (eof && endOfLine < end ==> buffer[end - 1] == '\n')
    }

    /** What has not been returned yet. */
    ghost function Pending(): string
      requires endOfLine <= end <= buffer.Length
      reads this, buffer, file
    {
      buffer[endOfLine..end] + if eof then "" else file.rest
    }

    /** `init_line_buffer`. */
    constructor (file: InputFile, maxSize: nat)
      ensures Valid() && this.file == file && fresh(buffer) && this.maxSize == maxSize
      ensures Pending() == file.rest && !eof
    {
      this.file, this.maxSize := file, maxSize;
      bufread := IO_SIZE;
      buffer := new char[IO_SIZE + 1];
      startOfLine, endOfLine, end := 0, 0, 0;
      eof, truncated, error := false, false, false;
    }

    /** The bigger buffer of `init_line_buffer_from_string`. */
    method JoinInto(str: string) returns (bigger: array<char>)
      requires end <= buffer.Length
      ensures fresh(bigger) && bigger.Length == end + |str| + 2
      ensures bigger[..end + |str| + 1] == JoinedText(buffer[..end], str)
    {
      hide Written, JoinedText;
      bigger := Realloc(buffer, end, end + |str| + 2);
      ghost var kept, spare := buffer[..end], bigger[end..];
      assert bigger[..] == kept + spare;
      if end > 0 { MemCpy(bigger, end - 1, " "); }
      MemCpy(bigger, end, str);
      MemCpy(bigger, end + |str|, "\n");
      Joined(kept, spare, str);
    }

    /** `init_line_buffer_from_string`: the strings given so far, joined by blanks, and a line break. */
    method InitFromString(str: string)
      requires end <= buffer.Length && !error
      modifies this
      ensures Valid() && eof && fresh(buffer)
      ensures Pending() == JoinedText(old(buffer[..end]), str)
    {
      hide JoinedText;
      var bigger := JoinInto(str);
      EndsWithBreak(buffer[..end], str);
      end := end + |str| + 1;
      buffer, startOfLine, endOfLine := bigger, 0, 0;
      eof, maxSize := true, 1;
      assert buffer[end - 1] == buffer[..end][end - 1];
      assert buffer[0..end] == buffer[..end];
    }

    /** Make room for at least IO_SIZE bytes; false when the size limit forbids it. */
    method Grow(bufbytes: nat) returns (readCount: nat)
      requires Shaped() && !eof && bufbytes == end - startOfLine
      modifies this
      ensures buffer.Length == bufread + 1 && IO_SIZE <= bufread && startOfLine == old(startOfLine)
      ensures startOfLine + bufbytes < buffer.Length && bufbytes <= bufread
      ensures buffer == old(buffer) || fresh(buffer)
      ensures buffer[startOfLine..startOfLine + bufbytes] == old(buffer[startOfLine..end])
      ensures eof == old(eof) && error == old(error) && truncated == old(truncated) && maxSize == old(maxSize)
      ensures endOfLine == old(endOfLine) && (startOfLine == 0 ==> end == bufbytes)
      ensures readCount > 0 ==> readCount <= bufread - bufbytes
      ensures readCount == 0 ==>
        && buffer == old(buffer) && bufread == old(bufread) && end == old(end)
        && bufbytes + IO_SIZE > bufread && 2 * bufread > maxSize
    {
      hide WholeBlocks;
      readCount := WholeBlocks(bufread - bufbytes);
      while readCount == 0
        invariant buffer.Length == bufread + 1 && IO_SIZE <= bufread && startOfLine == old(startOfLine)
        invariant startOfLine + bufbytes < buffer.Length && bufbytes <= bufread
        invariant buffer == old(buffer) || fresh(buffer)
        invariant buffer[startOfLine..startOfLine + bufbytes] == old(buffer[startOfLine..end])
        invariant eof == old(eof) && error == old(error) && truncated == old(truncated) && maxSize == old(maxSize)
        invariant endOfLine == old(endOfLine) && (startOfLine == 0 ==> end == bufbytes)
        invariant readCount == WholeBlocks(bufread - bufbytes)
        invariant readCount == 0 ==> buffer == old(buffer) && bufread == old(bufread) && end == old(end)
        decreases if readCount == 0 then 1 else 0
      {
        if bufread * 2 > maxSize { return; }
        var bigger := Realloc(buffer, buffer.Length, bufread * 2 + 1);
        assert bigger[startOfLine..startOfLine + bufbytes] == buffer[startOfLine..startOfLine + bufbytes];
        buffer, bufread := bigger, bufread * 2;
        end := bufbytes;
        readCount := WholeBlocks(bufread - bufbytes);
      }
    }

    /** `bmove`: bring the unfinished line to the front. */
    method ShiftDown(bufbytes: nat)
      requires startOfLine + bufbytes <= buffer.Length && (startOfLine == 0 ==> end == bufbytes)
      modifies this`end, buffer
      ensures end == bufbytes && buffer[..end] == old(buffer[startOfLine..startOfLine + bufbytes])
    {
      if startOfLine != 0 {
        MemMove(buffer, 0, startOfLine, bufbytes);
        end := bufbytes;
        assert buffer[..end] == buffer[..][..end];
      }
    }

    /** Read behind the unfinished line; a file that does not end with a line break gets one. */
    method ReadMore(readCount: nat) returns (n: int)
      requires !eof && !error && buffer.Length == bufread + 1 && 0 < readCount <= bufread - end
      modifies this`startOfLine, this`endOfLine, this`end, this`eof, this`error, buffer, file
      ensures n >= -1 && (error <==> n == -1)
      ensures n >= 0 ==>
        && startOfLine == 0 && endOfLine == old(end) && end == endOfLine + n < buffer.Length
        && buffer[..endOfLine] == old(buffer[..end])
        && (n == 0 ==> eof)
        && (!eof ==> old(file.rest) == buffer[endOfLine..end] + file.rest)
        && (eof ==> old(file.rest) == "" && AtEnd(n))
    {
      ghost var line := buffer[..end];
      var data, ok := file.Read(readCount);
      if !ok {
        error := true;
        return -1;
      }
      MemCpy(buffer, end, data);
      n := |data|;
      assert buffer[..end] == line && buffer[end..end + n] == data;
      var bufbytes := end;
      if n == 0 {
        eof := true;
        if bufbytes > 0 && buffer[end - 1] != '\n' {
          n := 1;
          buffer[end] := '\n';
        }
      }
      startOfLine := 0;
      endOfLine := bufbytes;
      end := end + n;
    }

    /** At the end of the file n bytes were added: a line break exactly when the last line lacks one. */
    ghost predicate AtEnd(n: int)
      requires endOfLine <= end <= buffer.Length && end == endOfLine + n
      reads this, buffer
    {
      n == (if endOfLine > 0 && buffer[endOfLine - 1] != '\n' then 1 else 0) && (n == 1 ==> buffer[endOfLine] == '\n')
    }

    /** `fill_buffer`: the number of new bytes; 0 at the end of the file or at the size limit; -1 on error. */
    method FillBuffer() returns (n: int)
      requires Shaped() && !error
      modifies this, buffer, file
      ensures n >= -1 && (error <==> n == -1)
      ensures buffer == old(buffer) || fresh(buffer)
      ensures n >= 0 ==> Shaped() && maxSize == old(maxSize)
      // everything was read before, or the limit is hit: nothing changes
      ensures old(eof) ==> n == 0 && eof
      ensures n == 0 && (!eof || old(eof)) ==>
        && eof == old(eof) && startOfLine == old(startOfLine) && endOfLine == old(endOfLine) && end == old(end)
        && buffer == old(buffer) && (forall i :: 0 <= i < buffer.Length ==> buffer[i] == old(buffer[i]))
        && file.rest == old(file.rest)
      ensures n == 0 && !eof ==> (end - startOfLine) + IO_SIZE > bufread && 2 * bufread > maxSize
      // otherwise the unfinished line is at the front, followed by the new bytes
      ensures !old(eof) && n >= 0 && (n > 0 || eof) ==>
        && startOfLine == 0 && endOfLine == old(end - startOfLine) && end == endOfLine + n
        && buffer[..endOfLine] == old(buffer[startOfLine..end])
        && (!eof ==> old(file.rest) == buffer[endOfLine..end] + file.rest)
        && (eof ==> old(file.rest) == "" && AtEnd(n))
    {
      hide AtEnd;
      var bufbytes := end - startOfLine;
      if eof { return 0; }
      var readCount := Grow(bufbytes);
      if readCount == 0 { return 0; }
      ShiftDown(bufbytes);
      n := ReadMore(readCount);
    }

    /** First line break, or the end of the data. */
    method Scan() returns (pos: nat)
      requires endOfLine <= end < buffer.Length
      ensures endOfLine <= pos <= end && (pos < end ==> buffer[pos] == '\n')
      ensures forall i :: endOfLine <= i < pos ==> buffer[i] != '\n'
    {
      pos := endOfLine;
      while pos != end && buffer[pos] != '\n'
        invariant endOfLine <= pos <= end
        invariant forall i :: endOfLine <= i < pos ==> buffer[i] != '\n'
        decreases end - pos
      {
        pos := pos + 1;
      }
    }

    /** How the unfinished line and the file make up what was pending when the call began. */
    ghost predicate Reading(pending: string, wasEof: bool)
      reads this, buffer, file
    {
      && Shaped() && !error
      && (forall i :: startOfLine <= i < endOfLine ==> buffer[i] != '\n')
      && (!eof ==> !wasEof && pending == buffer[startOfLine..end] + file.rest)
      && (eof && wasEof ==>
            && endOfLine == startOfLine && pending == buffer[startOfLine..end]
            && (startOfLine < end ==> buffer[end - 1] == '\n'))
      && (eof && !wasEof ==>
            && endOfLine + 1 == end && buffer[startOfLine..endOfLine] == pending
            && startOfLine < endOfLine && buffer[endOfLine] == '\n')
    }

    /** What a line of length len, starting at startOfLine, is of what was pending. */
    ghost predicate IsNext(pending: string, len: nat)
      requires startOfLine + len <= buffer.Length && endOfLine <= end <= buffer.Length
      reads this, buffer, file
    {
      NextOf(buffer[startOfLine..startOfLine + len], pending, Pending(), truncated, eof)
      && (truncated ==> !eof && 2 * (len + IO_SIZE) > maxSize)
    }

    ghost predicate NoBreak()
      requires startOfLine <= end <= buffer.Length
      reads this, buffer
    {
      forall i :: startOfLine <= i < end ==> buffer[i] != '\n'
    }

    /** No line break so far: read more. */
    method Refill(ghost pending: string, ghost wasEof: bool) returns (n: int)
      requires Reading(pending, wasEof) && NoBreak()
      modifies this, buffer, file
      ensures buffer == old(buffer) || fresh(buffer)
      ensures n >= -1 && (error <==> n == -1)
      ensures n >= 0 ==> maxSize == old(maxSize)
      ensures n == 0 && eof ==> Valid() && pending == "" && endOfLine == end
      ensures n == 0 && !eof ==>
        && Reading(pending, wasEof) && NoBreak() && end == old(end)
        && 2 * (end - startOfLine + IO_SIZE) > maxSize && startOfLine < end
      ensures n > 0 ==> Reading(pending, wasEof)
      ensures n > 0 ==> !old(eof) && (!eof ==> |file.rest| < |old(file.rest)|)
    {
      hide AtEnd;
      ghost var line, unread, wasAtEnd := buffer[startOfLine..end], file.rest, eof;
      BeforeFill(pending, wasEof);
      n := FillBuffer();
      if !wasAtEnd && n >= 0 && (n > 0 || eof) {
        AfterFill(line, unread, pending, n);
      } else if n == 0 {
        assert buffer[startOfLine..end] == line;
      }
    }

    /** No line break so far: what is in the buffer is all of the line that has been read. */
    lemma BeforeFill(pending: string, wasEof: bool)
      requires Reading(pending, wasEof) && NoBreak()
      ensures Shaped() && !error && '\n' !in buffer[startOfLine..end]
      ensures !eof ==> !wasEof && pending == buffer[startOfLine..end] + file.rest
      ensures eof ==> wasEof && pending == "" && startOfLine == endOfLine == end
    {
      var line := buffer[startOfLine..end];
      forall i | 0 <= i < |line| ensures line[i] != '\n' { assert line[i] == buffer[startOfLine + i]; }
    }

    /** The unfinished line is at the front, followed by n new bytes. */
    lemma AfterFill(line: string, unread: string, pending: string, n: nat)
      requires Shaped() && !error && startOfLine == 0 && endOfLine == |line| && end == endOfLine + n
      requires buffer[..endOfLine] == line && '\n' !in line && pending == line + unread
      requires if eof then unread == "" && AtEnd(n) else n > 0 && unread == buffer[endOfLine..end] + file.rest
      ensures n > 0 ==> Reading(pending, false)
      ensures n == 0 ==> Valid() && pending == "" && endOfLine == end
    {
      assert forall i :: 0 <= i < endOfLine ==> buffer[i] == buffer[..endOfLine][i] != '\n';
      SplitSlice(buffer, 0, endOfLine, end);
      assert buffer[0..endOfLine] == line;
      assert line + (buffer[endOfLine..end] + file.rest) == line + buffer[endOfLine..end] + file.rest;
    }

    method TakeLine(pos: nat, ghost pending: string, ghost wasEof: bool) returns (len: nat)
      requires Reading(pending, wasEof) && endOfLine <= pos < end && buffer[pos] == '\n'
      requires forall i :: endOfLine <= i < pos ==> buffer[i] != '\n'
      modifies this`truncated, this`endOfLine
      ensures Valid() && startOfLine + len <= end && IsNext(pending, len)
    {
      hide Reading, IsNext;
      BreakFound(pos, pending, wasEof);
      truncated := false;
      endOfLine := pos + 1;
      len := pos + 1 - (if eof then 1 else 0) - startOfLine;
      IsTaken(pos, len, pending, wasEof);
    }

    /** The line with its break at pos is the next one. */
    ghost predicate BreakAt(pos: nat, pending: string, wasEof: bool)
      requires startOfLine <= pos < end <= buffer.Length
      reads this, buffer, file
    {
      var all, k := buffer[startOfLine..end], pos - startOfLine;
      NextOf(if eof then all[..k] else all[..k + 1], pending, all[k + 1..] + if eof then "" else file.rest, false, eof)
    }

    lemma BreakFound(pos: nat, pending: string, wasEof: bool)
      requires Reading(pending, wasEof) && endOfLine <= pos < end && buffer[pos] == '\n'
      requires forall i :: endOfLine <= i < pos ==> buffer[i] != '\n'
      ensures Shaped() && !error && startOfLine <= pos && BreakAt(pos, pending, wasEof)
      ensures eof && pos + 1 < end ==> buffer[end - 1] == '\n'
    {
      hide Reading, NextOf;
      InBuffer(pos, pending, wasEof);
      LineIsNext(buffer[startOfLine..end], pos - startOfLine, pending, file.rest, eof, wasEof);
    }

    lemma IsTaken(pos: nat, len: nat, pending: string, wasEof: bool)
      requires startOfLine <= pos < end < buffer.Length && endOfLine == pos + 1 && BreakAt(pos, pending, wasEof)
      requires len == pos + 1 - (if eof then 1 else 0) - startOfLine && !truncated
      ensures IsNext(pending, len)
    {
      hide NextOf;
      SubSlice(buffer, startOfLine, end, 0, len);
      SubSlice(buffer, startOfLine, end, endOfLine - startOfLine, end - startOfLine);
      var all := buffer[startOfLine..end];
      assert all[endOfLine - startOfLine..] == all[endOfLine - startOfLine..end - startOfLine];
    }

    /** What is in the buffer when the next line break is at pos. */
    lemma InBuffer(pos: nat, pending: string, wasEof: bool)
      requires Reading(pending, wasEof) && endOfLine <= pos < end && buffer[pos] == '\n'
      requires forall i :: endOfLine <= i < pos ==> buffer[i] != '\n'
      ensures Shaped() && !error && startOfLine <= pos
      ensures eof && pos + 1 < end ==> buffer[end - 1] == '\n'
      ensures var all := buffer[startOfLine..end];
              && all[pos - startOfLine] == '\n'
              && (forall i :: 0 <= i < pos - startOfLine ==> all[i] != '\n')
              && (if !eof then pending == all + file.rest else if wasEof then pending == all else pending != "" && all == pending + "\n")
              && (eof && !wasEof ==> '\n' !in pending)
    {
      var all := buffer[startOfLine..end];
      forall i | 0 <= i < pos - startOfLine ensures all[i] != '\n' { assert all[i] == buffer[startOfLine + i]; }
      if eof && !wasEof {
        assert forall c :: c in pending ==> c in buffer[startOfLine..endOfLine];
        assert all == buffer[startOfLine..endOfLine] + [buffer[endOfLine]];
      }
    }

    method TakeTruncated(ghost pending: string, ghost wasEof: bool) returns (len: nat)
      requires Reading(pending, wasEof) && NoBreak() && !eof && startOfLine < end
      requires 2 * (end - startOfLine + IO_SIZE) > maxSize
      modifies this`truncated, this`endOfLine
      ensures Valid() && startOfLine + len <= end && IsNext(pending, len)
    {
      truncated := true;
      endOfLine := end;
      len := end - startOfLine;
    }

    /** `intern_read_line`: the line starts at startOfLine. */
    method InternReadLine() returns (found: bool, len: nat)
      requires Valid()
      modifies this, buffer, file
      ensures buffer == old(buffer) || fresh(buffer)
      ensures error ==> !found
      ensures !error ==> Valid() && maxSize == old(maxSize)
      ensures !error && !found ==> old(Pending()) == "" && eof && endOfLine == end
      ensures found ==> startOfLine + len <= end && IsNext(old(Pending()), len)
    {
      hide Reading, IsNext;
      ghost var pending, wasEof := Pending(), eof;
      startOfLine := endOfLine;
      assert Reading(pending, wasEof) by { StartReading(); }
      len := 0;
      while true
        invariant Reading(pending, wasEof) && maxSize == old(maxSize)
        invariant buffer == old(buffer) || fresh(buffer)
        decreases if eof then 0 else 1 + |file.rest|
      {
        ReadingBounds(pending, wasEof);
        var pos := Scan();
        if pos == end {
          var n := Refill(pending, wasEof);
          if n == -1 { return false, 0; }
          if n == 0 {
            if eof { return false, 0; }
            len := TakeTruncated(pending, wasEof);
            return true, len;
          }
        } else {
          len := TakeLine(pos, pending, wasEof);
          return true, len;
        }
      }
    }

    lemma StartReading()
      requires Valid() && startOfLine == endOfLine
      ensures Reading(Pending(), eof)
    {
    }

    lemma ReadingBounds(pending: string, wasEof: bool)
      requires Reading(pending, wasEof)
      ensures Shaped() && forall i :: startOfLine <= i < endOfLine ==> buffer[i] != '\n'
    {
    }

    /** The line returned, against what was pending before and after. */
    ghost predicate Returned(pending: string, binaryMode: bool, line: string)
      requires endOfLine <= end <= buffer.Length
      reads this, buffer, file
    {
      if truncated then
        line != "" && '\n' !in line && pending == line + Pending() && 2 * (|line| + IO_SIZE) > maxSize
      else
        && pending != "" && Pending() == AfterPiece(pending)
        && (line == FirstPiece(pending)
            || (!binaryMode && !eof && FirstPiece(pending) == line + "\r"))
        && (line == FirstPiece(pending) && !binaryMode && !eof && line != "" ==> line[|line| - 1] != '\r')
    }

    /** Cut off the line break and, outside binary mode, a carriage return before it. */
    method Strip(len: nat, binaryMode: bool) returns (line: string)
      requires startOfLine + len <= buffer.Length
      ensures line == Stripped(buffer[startOfLine..startOfLine + len], binaryMode)
    {
      hide Stripped;
      var outLength := len;
      if outLength > 0 && buffer[startOfLine + outLength - 1] == '\n' {
        outLength := outLength - 1;
        if outLength > 0 && !binaryMode && buffer[startOfLine + outLength - 1] == '\r' {
          outLength := outLength - 1;
        }
      }
      line := buffer[startOfLine..startOfLine + outLength];
      ghost var raw := buffer[startOfLine..startOfLine + len];
      assert len > 0 ==> raw[len - 1] == buffer[startOfLine + len - 1];
      assert len > 1 ==> raw[len - 2] == buffer[startOfLine + len - 2];
      StrippedIs(raw, outLength, binaryMode);
      SubSlice(buffer, startOfLine, startOfLine + len, 0, outLength);
    }

    /** `batch_readline`. */
    method BatchReadline(binaryMode: bool) returns (r: Option<string>)
      requires Valid()
      modifies this, buffer, file
      ensures buffer == old(buffer) || fresh(buffer)
      ensures error ==> r.None?
      ensures !error ==> Valid() && maxSize == old(maxSize)
      ensures !error ==> (r.None? <==> old(Pending()) == "")
      ensures !error && r.None? ==> eof && Pending() == ""
      ensures r.Some? ==> Returned(old(Pending()), binaryMode, r.value)
    {
      hide IsNext, Stripped;
      ghost var pending := Pending();
      var found, len := InternReadLine();
      if !found { return None; }
      var line := Strip(len, binaryMode);
      NextIsPiece(pending, len, binaryMode, line);
      r := Some(line);
    }

    /** From the raw line to the line returned. */
    lemma NextIsPiece(pending: string, len: nat, binaryMode: bool, line: string)
      requires startOfLine + len <= end < buffer.Length && endOfLine <= end && IsNext(pending, len)
      requires line == Stripped(buffer[startOfLine..startOfLine + len], binaryMode)
      ensures pending != "" && Returned(pending, binaryMode, line)
    {
      hide FirstPiece, AfterPiece, Pending;
      PieceOf(buffer[startOfLine..startOfLine + len], pending, Pending(), binaryMode, truncated, eof);
    }
  }

  /** `batch_readline` cuts off the line break and, outside binary mode, a carriage return before it. */
  ghost function Stripped(raw: string, binaryMode: bool): string {
    if raw == "" || raw[|raw| - 1] != '\n' then raw
    else
      var bare := raw[..|raw| - 1];
      if !binaryMode && bare != "" && bare[|bare| - 1] == '\r' then bare[..|bare| - 1] else bare
  }

  lemma StrippedIs(raw: string, n: nat, binaryMode: bool)
    requires n == if raw == "" || raw[|raw| - 1] != '\n' then |raw|
                  else if |raw| > 1 && !binaryMode && raw[|raw| - 2] == '\r' then |raw| - 2 else |raw| - 1
    ensures Stripped(raw, binaryMode) == raw[..n]
  {
  }

  lemma BareIsPiece(raw: string, pending: string, rest: string)
    requires raw != "" && raw[|raw| - 1] == '\n' && '\n' !in raw[..|raw| - 1] && pending == raw + rest
    ensures FirstPiece(pending) == raw[..|raw| - 1] && AfterPiece(pending) == rest
  {
    assert raw == raw[..|raw| - 1] + "\n";
    PieceUnique(pending, raw[..|raw| - 1], rest);
  }

  lemma StrippedReturn(bare: string)
    ensures bare != "" && bare[|bare| - 1] == '\r' ==> bare == bare[..|bare| - 1] + "\r"
  {
  }

  lemma PieceOf(raw: string, pending: string, rest: string, binaryMode: bool, truncated: bool, eof: bool)
    requires NextOf(raw, pending, rest, truncated, eof)
    ensures pending != ""
    ensures truncated ==> Stripped(raw, binaryMode) == raw
    ensures !truncated ==>
      var line := Stripped(raw, binaryMode);
      && rest == AfterPiece(pending)
      && (line == FirstPiece(pending) || (!binaryMode && !eof && FirstPiece(pending) == line + "\r"))
      && (line == FirstPiece(pending) && !binaryMode && !eof && line != "" ==> line[|line| - 1] != '\r')
  {
    hide FirstPiece, AfterPiece;
    if !truncated && !eof {
      BareIsPiece(raw, pending, rest);
      StrippedReturn(raw[..|raw| - 1]);
    } else if !truncated {
      PieceUnique(pending, raw, rest);
    }
  }

  // ---------- reading everything ----------

  /** One result of the reader: a whole piece, or a part of one (cut). */
  ghost predicate Consumes(s: string, line: string, cut: bool, rest: string) {
    if cut then line != "" && '\n' !in line && s == line + rest
    else s != "" && line == FirstPiece(s) && rest == AfterPiece(s)
  }

  /** The results, in order, use up s and leave rest. */
  ghost predicate Covers(s: string, lines: seq<string>, cuts: seq<bool>, rest: string)
    requires |lines| == |cuts|
  {
    if lines == [] then s == rest
    else
      var n := |lines| - 1;
      exists mid :: Covers(s, lines[..n], cuts[..n], mid) && Consumes(mid, lines[n], cuts[n], rest)
  }

  /** A piece is short enough that the buffer may always grow to hold it. */
  ghost predicate Short(line: string, maxSize: nat) { 2 * (|line| + IO_SIZE) <= maxSize }

  ghost predicate AllShort(s: string, maxSize: nat) {
    forall l :: l in SplitLines(s) ==> Short(l, maxSize)
  }

  lemma CoversSnoc(s: string, lines: seq<string>, cuts: seq<bool>, mid: string, line: string, cut: bool, rest: string)
    requires |lines| == |cuts| && Covers(s, lines, cuts, mid) && Consumes(mid, line, cut, rest)
    ensures Covers(s, lines + [line], cuts + [cut], rest)
  {
    var n := |lines|;
    assert (lines + [line])[..n] == lines && (cuts + [cut])[..n] == cuts;
    assert Covers(s, (lines + [line])[..n], (cuts + [cut])[..n], mid);
  }

  lemma PrefixShort(s: string, line: string, rest: string, maxSize: nat)
    requires s == line + rest && '\n' !in line && Short(FirstPiece(s), maxSize)
    ensures Short(line, maxSize)
  {
    assert forall j :: 0 <= j < |line| ==> s[j] == line[j];
    assert |line| <= BreakFrom(s, 0);
  }

  /** The loop of a batch client over the reader, in binary mode: whatever the pattern of short reads,
      the results cover the stream from its first to its last byte; and when every piece of the stream
      is short, they are exactly the pieces. */
  method ReadAll(b: LineBuffer) returns (lines: seq<string>, cuts: seq<bool>)
    requires b.Valid()
    modifies b, b.buffer, b.file
    ensures |lines| == |cuts|
    ensures !b.error ==> Covers(old(b.Pending()), lines, cuts, "")
    ensures !b.error && AllShort(old(b.Pending()), old(b.maxSize)) ==>
            lines == SplitLines(old(b.Pending())) && true !in cuts
  {
    hide Covers, Consumes, SplitLines, AllShort, FirstPiece, AfterPiece;
    ghost var content, maxSize, short := b.Pending(), b.maxSize, AllShort(b.Pending(), b.maxSize);
    lines, cuts := [], [];
    assert Covers(content, [], [], content) by { NothingCovered(content); }
    NoLines();
    var more := true;
    while more
      invariant b.buffer == old(b.buffer) || fresh(b.buffer)
      invariant |lines| == |cuts|
      invariant !b.error ==> b.Valid() && b.maxSize == maxSize && Covers(content, lines, cuts, b.Pending())
      invariant more ==> !b.error
      invariant !more && !b.error ==> b.Pending() == ""
      invariant short && !b.error ==>
        SplitLines(content) == lines + SplitLines(b.Pending()) && AllShort(b.Pending(), maxSize) && true !in cuts
      decreases more, if b.error then 0 else |b.Pending()|
    {
      ghost var before := b.Pending();
      var line := b.BatchReadline(true);
      if line.None? {
        more := false;
      } else {
        ReturnedConsumes(b, before, line.value);
        CoversSnoc(content, lines, cuts, before, line.value, b.truncated, b.Pending());
        if short { NotCut(b, before, line.value); }
        lines, cuts := lines + [line.value], cuts + [b.truncated];
      }
    }
  }

  lemma NoLines() ensures SplitLines("") == [] {}

  lemma NothingCovered(s: string)
    ensures Covers(s, [], [], s)
  {
  }

  lemma ReturnedConsumes(b: LineBuffer, before: string, line: string)
    requires b.Valid() && b.Returned(before, true, line)
    ensures Consumes(before, line, b.truncated, b.Pending()) && |b.Pending()| < |before|
    ensures !b.truncated ==> line == FirstPiece(before) && b.Pending() == AfterPiece(before) && before != ""
  {
  }

  lemma NotCut(b: LineBuffer, before: string, line: string)
    requires b.Valid() && b.Returned(before, true, line) && AllShort(before, b.maxSize)
    ensures !b.truncated && AllShort(b.Pending(), b.maxSize)
    ensures SplitLines(before) == [line] + SplitLines(b.Pending())
  {
    assert before != "";
    assert FirstPiece(before) == SplitLines(before)[0];
    if b.truncated { PrefixShort(before, line, b.Pending(), b.maxSize); }
  }
}
