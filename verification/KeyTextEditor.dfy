/** The in-place edit of a SHOW CREATE TABLE text (`skip_secondary_keys`) and the ALTER TABLE
    that brings the removed keys back (`dump_skipped_keys`), client/mysqldump.c. */
module KeyTextEditor {
  import opened Text
  import opened DeferredKeys
  import opened KeyText
  import opened Memory

  // ---------- the shape of the text ----------

  datatype TableText = TableText(header: string, defs: seq<string>, tail: string)

  datatype Slice = Slice(indent: string, line: string, after: string)

  const NUL: char := 0 as char

  ghost predicate PlainLine(s: string) {
    s != "" && '\n' !in s && NUL !in s && !IsSpace(s[0]) && s[|s| - 1] != ','
  }

  /** A header line, one definition per line (the first one a column), and a closing part that
      starts with a parenthesis; if there is a single definition, later lines of the closing part are no key lines. */
  ghost predicate Shape(t: TableText) {
    && PlainLine(t.header) && t.header[0] == 'C' && !(CONSTRAINT <= t.header)
    && t.defs != [] && t.defs[0] != "" && t.defs[0][0] == '`'
    && (forall i :: 0 <= i < |t.defs| ==> PlainLine(t.defs[i]) && t.defs[i][0] != ')')
    && t.tail != "" && t.tail[0] == ')' && NUL !in t.tail
    && (|t.defs| == 1 ==> NoKeyLine(BeyondBreak(t.tail[IndexFrom(t.tail, '\n', 0)..])))
  }

  /** Number of blanks at the start. */
  ghost function Blanks(r: string): (i: nat)
    ensures i <= |r| && (i < |r| ==> !IsSpace(r[i])) && forall j :: 0 <= j < i ==> IsSpace(r[j])
  {
    if r == "" || !IsSpace(r[0]) then 0 else 1 + Blanks(r[1..])
  }

  /** The line that comes next: blanks, the text up to its end, the rest. */
  ghost function NextSlice(r: string): Slice {
    var i := Blanks(r);
    var j := IndexFrom(r, '\n', i);
    Slice(r[..i], r[i..j], r[j..])
  }

  /** No line, save the last, reads as a secondary key, and the text does not end in blank lines. */
  ghost predicate NoKeyLine(r: string)
    decreases |r|
  {
    r != "" ==>
      var a := NextSlice(r);
      && NUL !in r && a.line != ""
      && (a.after != "" ==> !(KEY <= a.line) && !(UNIQUE_KEY <= a.line) && NoKeyLine(a.after[1..]))
  }

  ghost function Line(d: string): string { "  " + d + ",\n" }

  ghost function Lines(ds: seq<string>): string {
    if ds == [] then "" else Line(ds[0]) + Lines(ds[1..])
  }

  /** Definitions as the server lists them: a comma after every one but the last. */
  ghost function Listed(ds: seq<string>): string {
    if ds == [] then "" else if |ds| == 1 then "  " + ds[0] + "\n" else Line(ds[0]) + Listed(ds[1..])
  }

  ghost function FullText(t: TableText): string { t.header + "\n" + Listed(t.defs) + t.tail }

  /** Definitions with a comma after every one but the last, which is followed by e. */
  ghost function Ended(ds: seq<string>, e: string): string {
    if ds == [] then "" else Lines(ds[..|ds| - 1]) + "  " + ds[|ds| - 1] + e + "\n"
  }

  lemma {:induction false} LinesConcat(a: seq<string>, b: seq<string>)
    ensures Lines(a + b) == Lines(a) + Lines(b)
  {
    if a == [] {
      assert a + b == b;
    } else {
      assert (a + b)[1..] == a[1..] + b;
      LinesConcat(a[1..], b);
    }
  }

  /** The comma restored, a list that ends in a comma can be continued. */
  lemma EndedExtends(ds: seq<string>, d: string, e: string)
    ensures Ended(ds + [d], e) == Ended(ds, ",") + "  " + d + e + "\n"
  {
    assert (ds + [d])[..|ds|] == ds;
    if ds != [] {
      var n := |ds| - 1;
      LinesConcat(ds[..n], [ds[n]]);
      assert ds == ds[..n] + [ds[n]];
      assert Lines([ds[n]]) == Line(ds[n]) + Lines([]);
    }
  }

  ghost function Texts(ds: seq<Def>): (r: seq<string>)
    ensures |r| == |ds|
    ensures forall i :: 0 <= i < |ds| ==> r[i] == ds[i].text
  {
    seq(|ds|, i requires 0 <= i < |ds| => ds[i].text)
  }

  lemma TextsConcat(a: seq<Def>, b: seq<Def>)
    ensures Texts(a + b) == Texts(a) + Texts(b)
    ensures |b| == 1 ==> Texts(b) == [b[0].text]
    ensures |b| == 2 ==> Texts(b) == [b[0].text, b[1].text]
  {
  }

  // ---------- the buffer ----------

  /** Remove the characters [at, from) of the string that ends at strend. */
  method CutLine(buf: array<char>, at: nat, from: nat, strend: nat)
    requires at <= from <= strend < buf.Length
    modifies buf
    ensures buf[..strend - (from - at) + 1] == old(buf[..at]) + old(buf[from..strend + 1])
    ensures forall j :: strend < j < buf.Length ==> buf[j] == old(buf[j])
  {
    MemMove(buf, at, from, strend - from + 1);
    ghost var was := old(buf[..]);
    assert buf[..] == was[..at] + was[from..strend + 1] + was[at + (strend - from + 1)..];
  }

  /** Put the line of a key back at position `at` of the string that ends at strend. */
  method InsertLine(buf: array<char>, at: nat, key: string, strend: nat)
    requires at <= strend && strend + |key| + 4 < buf.Length
    modifies buf
    ensures buf[..strend + |key| + 5] == old(buf[..at]) + Line(key) + old(buf[at..strend + 1])
    ensures forall j :: strend + |key| + 5 <= j < buf.Length ==> buf[j] == old(buf[j])
  {
    hide Moved, Written;
    var len := |key| + 4;
    ghost var was := buf[..];
    MemMove(buf, at + len, at, strend - at + 1);
    MemCpy(buf, at, "  ");
    MemCpy(buf, at + 2, key);
    MemCpy(buf, at + len - 2, ",\n");
    LineInserted(was, at, key, strend);
    assert was[..at] == old(buf[..at]) && was[at..strend + 1] == old(buf[at..strend + 1]);
  }

  lemma {:induction false} LineInserted(t: string, at: nat, key: string, strend: nat)
    requires at <= strend && strend + |key| + 4 < |t|
    ensures var len := |key| + 4;
            var r := Written(Written(Written(Moved(t, at + len, at, strend - at + 1), at, "  "), at + 2, key), at + len - 2, ",\n");
            r == t[..at] + Line(key) + t[at..strend + 1] + t[strend + len + 1..]
  {
    hide Written;
    var len := |key| + 4;
    var a, g, r := t[..at], t[..at + len][at..], t[at..strend + 1] + t[strend + len + 1..];
    assert Moved(t, at + len, at, strend - at + 1) == a + g + r;
    Overwrite(a, g, r, "  ");
    Overwrite(a + "  ", g[2..], r, key);
    Overwrite(a + "  " + key, g[2..][|key|..], r, ",\n");
    assert g[2..][|key|..][2..] == "";
    assert a + "  " + key + ",\n" + "" + r == t[..at] + Line(key) + t[at..strend + 1] + t[strend + len + 1..];
  }

  // ---------- one line of the scan ----------

  /** The comma that ends the last kept line, rewritten to c. */
  ghost function WithComma(done: string, comma: int, c: char): string
    requires comma < |done|
  {
    if comma < 0 then done else done[comma := c]
  }

  lemma NoCommaChange(d: string)
    ensures WithComma(d, -1, ',') == d
  {
  }

  lemma CommaInPrefix(d: string, r: string, comma: int, c: char)
    requires comma < |d|
    ensures |WithComma(d, comma, c)| == |d|
    ensures WithComma(d + r, comma, c) == WithComma(d, comma, c) + r
  {
  }

  /** The next line as the scan delimits it. */
  ghost predicate Delimited(indent: string, line: string, after: string) {
    && (forall i :: 0 <= i < |indent| ==> IsSpace(indent[i]))
    && line != "" && !IsSpace(line[0]) && '\n' !in line && NUL !in line
    && (after != "" ==> after[0] == '\n')
  }

  ghost function BreakOf(after: string): string { if after == "" then "" else "\n" }
  ghost function BeyondBreak(after: string): string { if after == "" then "" else after[1..] }

  lemma LineSlices(done: string, indent: string, line: string, after: string)
    requires line != ""
    ensures var t, from := done + indent + line + after, |done| + |indent|;
            && t[..|done|] == done && t[from..from + |line|] == line && t[from + |line|..] == after
            && t[from + |line| - 1] == line[|line| - 1]
            && t[from..from + |line| - 1] == line[..|line| - 1]
  {
  }

  lemma Groups(a: string, b: string, c: string)
    ensures a + b + c == a + (b + c)
  {
  }

  lemma LastOfLine(done: string, line: string, after: string)
    requires line != ""
    ensures (done + line + after)[|done| + |line| - 1] == line[|line| - 1]
  {
  }

  lemma BreakLengths(after: string)
    ensures |BreakOf(after)| == (if after == "" then 0 else 1) && |BreakOf(after)| + |BeyondBreak(after)| == |after|
  {
  }

  lemma AcrossBreak(t: string, after: string)
    requires after != "" ==> after[0] == '\n'
    ensures t + after == (t + BreakOf(after)) + BeyondBreak(after)
  {
  }

  ghost function NoComma(line: string): string
    requires line != ""
  {
    if line[|line| - 1] == ',' then line[..|line| - 1] else line
  }

  datatype Action = Back(k: nat) | Out | Stay(kind: KeyType, hasAutoinc: bool)

  /** The local variables of `skip_secondary_keys`, with the static list of skipped keys. */
  class KeyScanner {
    const buf: array<char>
    const hasPk: bool
    var ptr: nat
    var strend: nat
    var lastComma: int               // -1 stands for NULL
    var pkProcessed: bool
    var autoincColumn: Option<string>
    var keysProcessed: bool
    var skippedKeys: seq<string>     // newest first

    ghost predicate Valid()
      reads this, buf
    {
      && ptr <= strend < buf.Length && buf[strend] == NUL
      && -1 <= lastComma && (lastComma == -1 || lastComma < ptr)
    }

    ghost function Done(): string
      requires ptr <= buf.Length
      reads this, buf
    {
      buf[..ptr]
    }

    ghost function Rest(): string
      requires ptr <= strend <= buf.Length
      reads this, buf
    {
      buf[ptr..strend]
    }

    ghost function Flags(): Scan
      reads this
    {
      Scan([], ClassifyAll(skippedKeys), pkProcessed, autoincColumn)
    }

    /** The effect of one line, given the flags f, the text done, the comma and the keys before it. */
    ghost predicate Effect(f: Scan, d: Def, out: bool, done: string, comma: int, keys: seq<string>,
                           indent: string, line: string, nl: string)
      requires ptr <= buf.Length && line != "" && comma < |done| && |f.skipped| == |keys|
      reads this, buf
    {
      if PutsBack(f, d) then
        var k := FindKey(f.skipped, d.constraint.value);
        && skippedKeys == Without(keys, k)
        && Done() == WithComma(done, comma, ',') + Line(keys[k]) + (indent + line) + nl
        && pkProcessed == f.pkDone && autoincColumn == f.autoinc && !keysProcessed
        && lastComma == (if line[|line| - 1] == ',' then |Done()| - |nl| - 1 else comma)
      else if out then
        && skippedKeys == [NoComma(line)] + keys
        && Done() == WithComma(done, comma, ' ')
        && pkProcessed == f.pkDone && autoincColumn == f.autoinc && !keysProcessed
        && lastComma == comma
      else
        && skippedKeys == keys
        && keysProcessed == (comma != -1 && line[0] == ')')
        && Done() == WithComma(done, if keysProcessed then -1 else comma, ',') + (indent + line) + nl
        && pkProcessed == (f.pkDone || (hasPk && d.kind.Unique?) || d.kind.Primary?)
        && autoincColumn == (if d.autoinc.Some? then d.autoinc else if LeadsWith(d, f.autoinc) then None else f.autoinc)
        && lastComma == (if line[|line| - 1] == ',' then |Done()| - |nl| - 1 else comma)
    }

    constructor (buf: array<char>, hasPk: bool, len: nat)
      requires len < buf.Length && buf[len] == NUL
      ensures Valid() && this.buf == buf && this.hasPk == hasPk
      ensures ptr == 0 && strend == len && lastComma == -1 && !keysProcessed
      ensures skippedKeys == [] && !pkProcessed && autoincColumn == None
    {
      this.buf, this.hasPk := buf, hasPk;
      ptr, strend, lastComma := 0, len, -1;
      pkProcessed, autoincColumn, keysProcessed, skippedKeys := false, None, false, [];
    }

    /** First key of the list whose quoted name matches. */
    method FindMatchingSkippedKey(name: string) returns (k: nat)
      ensures k == FindKey(ClassifyAll(skippedKeys), name)
    {
      hide Kind, LeadColumn, AutoincColumn, QuotedIdent;
      k := 0;
      while k < |skippedKeys|
        invariant k <= |skippedKeys|
        invariant forall j :: 0 <= j < k ==> Name(skippedKeys[j]) != Some(name)
      {
        var def := skippedKeys[k];
        var sp := ParseQuotedIdentifier(def);
        if sp.Some? && def[sp.value.from + 1..sp.value.to] == name { break; }
        k := k + 1;
      }
    }

    /** Start of the text of the next line, and its end. */
    method NextLine() returns (from: nat, to: nat)
      requires Valid()
      ensures ptr <= from <= to <= strend
      ensures forall i :: ptr <= i < from ==> IsSpace(buf[i])
      ensures from < strend ==> !IsSpace(buf[from]) || buf[from] == NUL
      ensures forall i :: from <= i < to ==> buf[i] != '\n'
      ensures forall i :: from <= i < to ==> buf[i] != NUL
      ensures to < strend ==> buf[to] == '\n' || buf[to] == NUL
    {
      from := ptr;
      while buf[from] != NUL && IsSpace(buf[from])
        invariant ptr <= from <= strend
        invariant forall i :: ptr <= i < from ==> IsSpace(buf[i])
        decreases strend - from
      {
        from := from + 1;
      }
      to := from;
      while buf[to] != '\n' && buf[to] != NUL
        invariant from <= to <= strend
        invariant forall i :: from <= i < to ==> buf[i] != '\n' && buf[i] != NUL
        decreases strend - to
      {
        to := to + 1;
      }
    }

    method AutoincName(line: string) returns (r: Option<string>)
      ensures r == AutoincColumn(line)
    {
      hide Occurs;
      r := None;
      if Occurs(line, AUTO_INCREMENT) && line != "" && line[0] == '`' {
        var end := 1;
        while end < |line| && (line[end] != '`' || (end + 1 < |line| && line[end + 1] == '`'))
          invariant 1 <= end <= |line| && NameEnd(line, 1) == NameEnd(line, end)
        {
          end := end + 1;
        }
        if end < |line| && end > 1 { r := Some(line[1..end]); }
      }
    }

    /** Put skipped key k back in front of the line that starts at orig. */
    method Restore(orig: nat, k: nat)
      requires ptr <= strend < buf.Length && buf[strend] == NUL
      requires orig <= ptr && k < |skippedKeys| && strend + |skippedKeys[k]| + 4 < buf.Length
      modifies this`ptr, this`strend, this`skippedKeys, buf
      ensures var key := old(skippedKeys)[k];
              && skippedKeys == Without(old(skippedKeys), k)
              && ptr == old(ptr) + |key| + 4 && strend == old(strend) + |key| + 4
              && strend < buf.Length && buf[strend] == NUL
              && buf[..strend] == old(buf[..orig]) + Line(key) + old(buf[orig..strend])
      ensures forall j :: strend < j < buf.Length ==> buf[j] == old(buf[j])
    {
      var key := skippedKeys[k];
      InsertLine(buf, orig, key, strend);
      skippedKeys := Without(skippedKeys, k);
      ptr, strend := ptr + |key| + 4, strend + |key| + 4;
      ghost var was := old(buf[..]);
      assert buf[..strend + 1] == was[..orig] + Line(key) + was[orig..old(strend) + 1];
      assert buf[..strend] == buf[..strend + 1][..strend];
    }

    method CutOut(at: nat, from: nat, ghost done: string, ghost rest: string)
      requires at == |done| <= from <= strend < buf.Length && buf[strend] == NUL
      requires buf[..strend][..at] == done && buf[..strend][from..] == rest
      modifies this`ptr, this`strend, buf
      ensures ptr == at && strend == at + |rest| && buf[strend] == NUL
      ensures buf[..strend] == done + rest
      ensures forall j :: old(strend) < j < buf.Length ==> buf[j] == old(buf[j])
    {
      CutLine(buf, at, from, strend);
      ptr := at;
      strend := strend - (from - at);
      assert buf[..strend] == buf[..strend + 1][..strend];
    }

    /** Take the line out of the text and its definition onto the list. */
    method Defer(orig: nat, to: nat, ghost done: string, ghost indent: string, ghost line: string, ghost after: string)
      requires orig == |done| && ptr == orig + |indent| && to == ptr + |line| && line != ""
      requires after != "" && strend == to + |after| < buf.Length && buf[strend] == NUL
      requires buf[..strend] == done + indent + line + after
      requires -1 <= lastComma && (lastComma == -1 || lastComma < orig)
      modifies this`ptr, this`strend, this`skippedKeys, buf
      ensures ptr <= strend < buf.Length && buf[strend] == NUL
      ensures skippedKeys == [NoComma(line)] + old(skippedKeys)
      ensures Done() == WithComma(done, lastComma, ' ') && Rest() == after[1..]
      ensures forall j :: old(strend) < j < buf.Length ==> buf[j] == old(buf[j])
    {
      hide WithComma;
      ghost var t := buf[..strend];
      LineSlices(done, indent, line, after);
      var end := if buf[to - 1] == ',' then to - 1 else to;
      PrefixSlice(buf, strend, ptr, end);
      assert buf[to - 1] == t[to - 1];
      assert buf[ptr..end] == NoComma(line);
      skippedKeys := [buf[ptr..end]] + skippedKeys;
      CutOut(orig, to + 1, done, after[1..]);
      SetComma(' ');
      CommaInPrefix(done, after[1..], lastComma, ' ');
      TwoParts(buf, ptr, strend, WithComma(done, lastComma, ' '), after[1..]);
    }

    method SetComma(c: char)
      requires -1 <= lastComma < strend < buf.Length
      modifies buf
      ensures buf[..strend] == WithComma(old(buf[..strend]), lastComma, c)
      ensures forall j :: strend <= j < buf.Length ==> buf[j] == old(buf[j])
    {
      if lastComma != -1 { buf[lastComma] := c; }
    }

    method KeepFlags(first: char, kind: KeyType, hasAutoinc: bool, line: string)
      modifies this`pkProcessed, this`autoincColumn
      ensures pkProcessed == (old(pkProcessed) || (hasPk && kind.Unique?) || kind.Primary?)
      ensures autoincColumn == if first == '`' && AutoincColumn(line).Some? then AutoincColumn(line)
                               else if !kind.NoKey? && hasAutoinc then None else old(autoincColumn)
    {
      hide AutoincColumn;
      if !kind.NoKey? && hasAutoinc { autoincColumn := None; }
      if (hasPk && kind.Unique? && !pkProcessed) || kind.Primary? { pkProcessed := true; }
      var announced := AutoincName(line);
      if first == '`' && announced.Some? { autoincColumn := announced; }
    }

    /** NextLine finds exactly the delimited line. */
    method LocateLine(ghost indent: string, ghost line: string, ghost after: string) returns (from: nat, to: nat)
      requires Valid() && Rest() == indent + line + after && Delimited(indent, line, after)
      ensures from == ptr + |indent| && to == from + |line|
      ensures buf[from..to] == line && (to == strend <==> after == "")
      ensures to < strend ==> buf[to] == '\n'
    {
      hide IsSpace, Delimited;
      DelimitedInBuffer(indent, line, after);
      from, to := NextLine();
      assert from == ptr + |indent|;
    }

    /** A delimited line, seen in the buffer. */
    lemma DelimitedInBuffer(indent: string, line: string, after: string)
      requires Valid() && Rest() == indent + line + after && Delimited(indent, line, after)
      ensures var m, n := ptr + |indent|, ptr + |indent| + |line|;
              && m < n <= strend && (n == strend <==> after == "") && (n < strend ==> buf[n] == '\n')
              && (forall i :: ptr <= i < m ==> IsSpace(buf[i]) && buf[i] != NUL) && !IsSpace(buf[m])
              && (forall i :: m <= i < n ==> buf[i] != '\n' && buf[i] != NUL)
              && buf[m..n] == line
    {
      var r, m, n := Rest(), ptr + |indent|, ptr + |indent| + |line|;
      forall i | ptr <= i < m ensures buf[i] == indent[i - ptr] { assert buf[i] == r[i - ptr]; }
      forall i | m <= i < n ensures buf[i] == line[i - m] { assert buf[i] == r[i - ptr]; }
      assert buf[m..n] == line;
      if n < strend { assert buf[n] == r[n - ptr] == after[0]; }
    }

    /** Restore the comma before the line, unless the line closes the table. */
    method RestoreComma(ghost done: string, ghost rest: string) returns (ghost comma: int)
      requires |done| <= ptr < strend == |done| + |rest| < buf.Length && buf[strend] == NUL && buf[..strend] == done + rest
      requires -1 <= lastComma && (lastComma == -1 || lastComma < |done|) && !keysProcessed
      modifies this`keysProcessed, buf
      ensures keysProcessed == (lastComma != -1 && old(buf[ptr]) == ')')
      ensures comma == (if keysProcessed then -1 else lastComma) && buf[..strend] == WithComma(done, comma, ',') + rest
      ensures forall j :: strend <= j < buf.Length ==> buf[j] == old(buf[j])
    {
      hide WithComma;
      comma := lastComma;
      if lastComma != -1 && buf[ptr] == ')' {
        keysProcessed := true;
        comma := -1;
        NoCommaChange(done);
      } else if lastComma != -1 && !keysProcessed {
        SetComma(',');
        CommaInPrefix(done, rest, lastComma, ',');
      } else {
        NoCommaChange(done);
      }
    }

    /** Leave the line in the text, with the comma before it restored. */
    method Keep(to: nat, ghost done: string, ghost line: string, ghost after: string)
      requires |done| <= ptr < to == |done| + |line| && strend == to + |after| < buf.Length && buf[strend] == NUL
      requires buf[..strend] == done + line + after && (after != "" ==> after[0] == '\n') && !keysProcessed
      requires -1 <= lastComma && (lastComma == -1 || lastComma < |done|)
      modifies this`ptr, this`lastComma, this`keysProcessed, buf
      ensures ptr <= strend && buf[strend] == NUL
      ensures keysProcessed == (old(lastComma) != -1 && old(buf[ptr]) == ')')
      ensures var comma := if keysProcessed then -1 else old(lastComma);
              Done() == WithComma(done, comma, ',') + line + BreakOf(after)
      ensures Rest() == BeyondBreak(after)
      ensures lastComma == if line[|line| - 1] == ',' then to - 1 else old(lastComma)
      ensures forall j :: strend < j < buf.Length ==> buf[j] == old(buf[j])
    {
      hide WithComma, BreakOf, BeyondBreak;
      var last := buf[to - 1];
      LastOfLine(done, line, after);
      assert last == buf[..strend][to - 1];
      Groups(done, line, after);
      ghost var comma := RestoreComma(done, line + after);
      ghost var front := WithComma(done, comma, ',');
      CommaInPrefix(done, "", comma, ',');
      Groups(front, line, after);
      AcrossBreak(front + line, after);
      BreakLengths(after);
      if last == ',' { lastComma := to - 1; }
      ptr := if to == strend then to else to + 1;
      TwoParts(buf, ptr, strend, front + line + BreakOf(after), BeyondBreak(after));
    }

    /** Put a key back and keep the constraint that names it. */
    method PutBack(orig: nat, to: nat, k: nat, ghost done: string, ghost line: string, ghost after: string)
      requires orig == |done| <= ptr < to == |done| + |line| && strend == to + |after| < buf.Length && buf[strend] == NUL
      requires buf[..strend] == done + line + after && (after != "" ==> after[0] == '\n') && !keysProcessed
      requires -1 <= lastComma && (lastComma == -1 || lastComma < |done|) && buf[ptr] != ')'
      requires k < |skippedKeys| && strend + |skippedKeys[k]| + 4 < buf.Length
      modifies this`ptr, this`strend, this`lastComma, this`keysProcessed, this`skippedKeys, buf
      ensures ptr <= strend < buf.Length && buf[strend] == NUL && !keysProcessed
      ensures skippedKeys == Without(old(skippedKeys), k)
      ensures Done() == WithComma(done, old(lastComma), ',') + Line(old(skippedKeys)[k]) + line + BreakOf(after)
      ensures Rest() == BeyondBreak(after)
      ensures lastComma == if line[|line| - 1] == ',' then |Done()| - |BreakOf(after)| - 1 else old(lastComma)
      ensures forall j :: strend < j < buf.Length ==> buf[j] == old(buf[j])
    {
      hide WithComma, Line;
      var key := skippedKeys[k];
      ghost var comma := lastComma;
      LineLength(key);
      Groups(done, line, after);
      TwoParts(buf, orig, strend, done, line + after);
      Restore(orig, k);
      Groups(done + Line(key), line, after);
      assert buf[ptr] == old(buf[ptr]);
      Keep(to + |key| + 4, done + Line(key), line, after);
      CommaInPrefix(done, Line(key), comma, ',');
    }

    /** What the scan does with a line, from its text and the flags. */
    method Decide(text: string, hasBreak: bool) returns (act: Action)
      requires text != ""
      ensures act.Back? ==> text[0] == 'C' && act.k < |skippedKeys|
      ensures var d, f := Classify(text), Flags();
              && d.autoinc == AutoincColumn(text)
              && (act.Back? <==> PutsBack(f, d)) && (act.Back? ==> act.k == FindKey(f.skipped, d.constraint.value))
              && (act.Out? <==> !PutsBack(f, d) && hasBreak && Defers(f, d, hasPk))
              && (act.Stay? ==> act.kind == d.kind && (act.hasAutoinc <==> LeadsWith(d, autoincColumn)))
    {
      hide Kind, QuotedIdent, LeadColumn, AutoincColumn, FindKey;
      if CONSTRAINT <= text {
        var sp := ParseQuotedIdentifier(text);
        if sp.Some? {
          var k := FindMatchingSkippedKey(text[sp.value.from + 1..sp.value.to]);
          if k < |skippedKeys| { return Back(k); }
        }
      }
      var kind := Kind(text);
      var hasAutoinc := false;
      if !kind.NoKey? { hasAutoinc := ContainsAutoincColumn(autoincColumn, text, kind); }
      if hasBreak && ((kind.Unique? && (pkProcessed || !hasPk)) || kind.NonUnique?) && !hasAutoinc { return Out; }
      return Stay(kind, hasAutoinc);
    }

    /** ptr stands at the first character of the line; the line starts at orig and ends at `to`. */
    ghost predicate AtLine(orig: nat, to: nat, done: string, indent: string, line: string, after: string)
      reads this, buf
    {
      && !keysProcessed && line != "" && (after != "" ==> after[0] == '\n')
      && orig == |done| && ptr == orig + |indent| && to == ptr + |line|
      && strend == to + |after| < buf.Length && buf[strend] == NUL
      && buf[..strend] == done + indent + line + after
      && -1 <= lastComma && (lastComma == -1 || lastComma < |done|)
    }

    /** Where the scan stands after a line: in order, and on the next one. */
    ghost predicate Past(after: string)
      reads this, buf
    {
      Valid() && Rest() == BeyondBreak(after)
    }

    method TakeBack(orig: nat, to: nat, k: nat, ghost f: Scan, ghost d: Def, ghost out: bool,
                    ghost done: string, ghost indent: string, ghost line: string, ghost after: string)
      requires AtLine(orig, to, done, indent, line, after) && line[0] != ')'
      requires k < |skippedKeys| && strend + |skippedKeys[k]| + 4 < buf.Length
      requires f.pkDone == pkProcessed && f.autoinc == autoincColumn && |f.skipped| == |skippedKeys|
      requires PutsBack(f, d) && k == FindKey(f.skipped, d.constraint.value)
      modifies this, buf
      ensures Past(after) && Effect(f, d, out, done, old(lastComma), old(skippedKeys), indent, line, BreakOf(after))
      ensures forall j :: strend < j < buf.Length ==> buf[j] == old(buf[j])
    {
      hide WithComma, FindKey, PutsBack;
      AtStart(orig, to, done, indent, line, after);
      PutBack(orig, to, k, done, indent + line, after);
      CommaInRange(f, d, out, done, old(lastComma), old(skippedKeys), indent, line, BreakOf(after));
    }

    /** The line and its indentation, seen as one piece. */
    lemma AtStart(orig: nat, to: nat, done: string, indent: string, line: string, after: string)
      requires AtLine(orig, to, done, indent, line, after)
      ensures buf[..strend] == done + (indent + line) + after && buf[ptr] == line[0]
      ensures (indent + line)[|indent + line| - 1] == line[|line| - 1]
    {
      assert done + (indent + line) + after == done + indent + line + after;
      assert buf[ptr] == buf[..strend][ptr];
    }

    method TakeOut(orig: nat, to: nat, ghost f: Scan, ghost d: Def,
                   ghost done: string, ghost indent: string, ghost line: string, ghost after: string)
      requires AtLine(orig, to, done, indent, line, after) && after != ""
      requires f.pkDone == pkProcessed && f.autoinc == autoincColumn && |f.skipped| == |skippedKeys| && !PutsBack(f, d)
      modifies this, buf
      ensures Past(after) && Effect(f, d, true, done, old(lastComma), old(skippedKeys), indent, line, BreakOf(after))
      ensures forall j :: old(strend) < j < buf.Length ==> buf[j] == old(buf[j])
    {
      hide WithComma, FindKey, PutsBack;
      Defer(orig, to, done, indent, line, after);
      CommaInRange(f, d, true, done, old(lastComma), old(skippedKeys), indent, line, BreakOf(after));
    }

    method LeaveIn(orig: nat, to: nat, kind: KeyType, hasAutoinc: bool, text: string, ghost f: Scan, ghost d: Def,
                   ghost done: string, ghost indent: string, ghost line: string, ghost after: string)
      requires AtLine(orig, to, done, indent, line, after) && text == line
      requires f.pkDone == pkProcessed && f.autoinc == autoincColumn && |f.skipped| == |skippedKeys|
      requires !PutsBack(f, d) && d.kind == kind && (hasAutoinc <==> LeadsWith(d, autoincColumn))
      requires d.autoinc == AutoincColumn(line)
      modifies this, buf
      ensures Past(after) && Effect(f, d, false, done, old(lastComma), old(skippedKeys), indent, line, BreakOf(after))
      ensures strend == old(strend) && forall j :: strend < j < buf.Length ==> buf[j] == old(buf[j])
    {
      hide WithComma, AutoincColumn, FindKey, PutsBack;
      AtStart(orig, to, done, indent, line, after);
      KeepFlags(text[0], kind, hasAutoinc, text);
      Keep(to, done, indent + line, after);
      CommaInRange(f, d, false, done, old(lastComma), old(skippedKeys), indent, line, BreakOf(after));
    }

    lemma CommaInRange(f: Scan, d: Def, out: bool, done: string, comma: int, keys: seq<string>, indent: string, line: string, nl: string)
      requires ptr <= buf.Length && line != "" && -1 <= comma < |done| && |f.skipped| == |keys|
      requires Effect(f, d, out, done, comma, keys, indent, line, nl)
      ensures -1 <= lastComma && (lastComma == -1 || lastComma < ptr)
    {
      hide FindKey, PutsBack;
    }

    /** One iteration of the scan over the line that comes next: a constraint that names a skipped key
        brings the key back in front of itself, a secondary key leaves the text, anything else stays. */
    method ProcessLine(ghost indent: string, ghost line: string, ghost after: string)
      requires Valid() && !keysProcessed
      requires Rest() == indent + line + after && Delimited(indent, line, after)
      requires line[0] == 'C' ==> forall k :: 0 <= k < |skippedKeys| ==> strend + |skippedKeys[k]| + 4 < buf.Length
      modifies this, buf
      ensures Valid() && Rest() == BeyondBreak(after)
      ensures forall j :: old(strend) < j < buf.Length && strend < j ==> buf[j] == old(buf[j])
      ensures var f, d := old(Flags()), Classify(line);
              var out := after != "" && Defers(f, d, hasPk);
              Effect(f, d, out, old(Done()), old(lastComma), old(skippedKeys), indent, line, BreakOf(after))
    {
      hide Classify, AutoincColumn, FindKey, PutsBack, Defers, Effect, Delimited;
      ghost var f, d, done := Flags(), Classify(line), Done();
      FromHere(indent, line, after);
      var orig := ptr;
      var from, to := LocateLine(indent, line, after);
      var text := buf[from..to];
      var act := Decide(text, to < strend);
      ptr := from;
      assert AtLine(orig, to, done, indent, line, after);
      match act {
        case Back(k) => TakeBack(orig, to, k, f, d, after != "" && Defers(f, d, hasPk), done, indent, line, after);
        case Out => TakeOut(orig, to, f, d, done, indent, line, after);
        case Stay(kind, hasAutoinc) => LeaveIn(orig, to, kind, hasAutoinc, text, f, d, done, indent, line, after);
      }
    }

    lemma FromHere(indent: string, line: string, after: string)
      requires Valid() && Rest() == indent + line + after && Delimited(indent, line, after)
      ensures buf[..strend] == Done() + indent + line + after && strend == ptr + |indent| + |line| + |after|
      ensures line != "" && (after != "" ==> after[0] == '\n')
    {
      hide IsSpace;
      assert buf[..strend] == Done() + Rest();
      assert Done() + (indent + line + after) == Done() + indent + line + after;
    }

    // ---------- the whole table ----------

    /** What holds when the effect of a line on the text of s is there. */
    ghost predicate Stepped(s2: Scan, h: string, e: string)
      requires ptr <= buf.Length
      reads this, buf
    {
      && Done() == h + Ended(Texts(s2.kept), e) && ClassifyAll(skippedKeys) == s2.skipped
      && pkProcessed == s2.pkDone && autoincColumn == s2.autoinc && s2.kept != []
    }

    /** The line of a definition, met with the flags f that agree with s. */
    ghost predicate Meets(s: Scan, h: string, e: string, sep: string, f: Scan, d: Def, comma: int, keys: seq<string>, def: string) {
      && def != "" && def[0] != ')' && def[|def| - 1] != ',' && (sep == "," || sep == "")
      && d.(text := def) == Classify(def)
      && f.skipped == s.skipped == ClassifyAll(keys) && f.pkDone == s.pkDone && f.autoinc == s.autoinc
      && CommaOf(comma, h, Texts(s.kept), e) && comma < |h + Ended(Texts(s.kept), e)|
      && (s.kept == [] ==> def[0] == '`')
    }

    lemma StepsBack(s: Scan, h: string, e: string, sep: string, f: Scan, d: Def, comma: int, keys: seq<string>, def: string, out: bool)
      requires ptr <= buf.Length && Meets(s, h, e, sep, f, d, comma, keys, def) && PutsBack(f, d)
      requires Effect(f, d, out, h + Ended(Texts(s.kept), e), comma, keys, "  ", def + sep, "\n")
      ensures Stepped(Step(s, Classify(def), hasPk), h, sep)
    {
      hide WithComma, Ended, Classify, FindKey, Defers;
      var ds, dd, i := Texts(s.kept), Classify(def), FindKey(f.skipped, d.constraint.value);
      SameDecision(f, s, d, dd, hasPk);
      TextBack(h, ds, e, comma, keys[i], def, sep);
      TextsConcat(s.kept, [s.skipped[i], dd]);
    }

    lemma StepsOut(s: Scan, h: string, e: string, sep: string, f: Scan, d: Def, comma: int, keys: seq<string>, def: string)
      requires ptr <= buf.Length && Meets(s, h, e, sep, f, d, comma, keys, def) && !PutsBack(f, d) && Defers(f, d, hasPk)
      requires Effect(f, d, true, h + Ended(Texts(s.kept), e), comma, keys, "  ", def + sep, "\n")
      ensures Stepped(Step(s, Classify(def), hasPk), h, " ") && s.kept != []
    {
      hide WithComma, Ended, Classify, FindKey, Defers, PutsBack;
      var dd := Classify(def);
      SameDecision(f, s, d, dd, hasPk);
      if s.kept == [] { ColumnStays(def, s, hasPk); }
      CommaRewritten(h, Texts(s.kept), e, ' ');
      assert NoComma(def + sep) == def;
    }

    lemma StepsStay(s: Scan, h: string, e: string, sep: string, f: Scan, d: Def, comma: int, keys: seq<string>, def: string)
      requires ptr <= buf.Length && Meets(s, h, e, sep, f, d, comma, keys, def) && !PutsBack(f, d) && !Defers(f, d, hasPk)
      requires Effect(f, d, false, h + Ended(Texts(s.kept), e), comma, keys, "  ", def + sep, "\n")
      ensures Stepped(Step(s, Classify(def), hasPk), h, sep)
    {
      hide WithComma, Ended, Classify, FindKey, Defers, PutsBack;
      var dd := Classify(def);
      SameDecision(f, s, d, dd, hasPk);
      TextStays(h, Texts(s.kept), e, comma, def, sep);
      TextsConcat(s.kept, [dd]);
    }

    /** After the effect of a line on the text of s, the text is that of s stepped. */
    lemma EffectIsStep(s: Scan, h: string, e: string, sep: string, f: Scan, d: Def, comma: int, keys: seq<string>, def: string)
      requires ptr <= buf.Length && Meets(s, h, e, sep, f, d, comma, keys, def)
      requires Effect(f, d, Defers(f, d, hasPk), h + Ended(Texts(s.kept), e), comma, keys, "  ", def + sep, "\n")
      ensures Stepped(Step(s, Classify(def), hasPk), h, EndOf(f, d, sep))
      ensures !PutsBack(f, d) && Defers(f, d, hasPk) ==> s.kept != []
    {
      hide Effect, Stepped, Step, Classify, Ended, Defers, PutsBack;
      if PutsBack(f, d) {
        StepsBack(s, h, e, sep, f, d, comma, keys, def, Defers(f, d, hasPk));
      } else if Defers(f, d, hasPk) {
        StepsOut(s, h, e, sep, f, d, comma, keys, def);
      } else {
        StepsStay(s, h, e, sep, f, d, comma, keys, def);
      }
    }

    /** A line keeps the comma in sight and gives back at most the room that keys left behind. */
    lemma EffectBounds(sep: string, f: Scan, d: Def, out: bool, done: string, comma: int, keys: seq<string>, def: string)
      requires ptr <= buf.Length && def != "" && def[0] != ')' && def[|def| - 1] != ',' && (sep == "," || sep == "")
      requires -1 <= comma < |done| && |f.skipped| == |keys|
      requires Effect(f, d, out, done, comma, keys, "  ", def + sep, "\n")
      ensures !keysProcessed && -1 <= lastComma < |Done()| && (sep == "" ==> lastComma == comma)
      ensures out && !PutsBack(f, d) ==> lastComma == comma && |Done()| == |done|
      ensures sep == "," && !(out && !PutsBack(f, d)) ==> lastComma == |Done()| - 2
      ensures sep == "," ==> |Done()| + Room(skippedKeys) == |done| + Room(keys) + |def| + 4
      ensures |Done()| <= |done| + Room(keys) + |def| + |sep| + 3
    {
      hide FindKey, Room, Line;
      if PutsBack(f, d) {
        var k := FindKey(f.skipped, d.constraint.value);
        RoomWithout(keys, k);
        assert |Line(keys[k])| == |keys[k]| + 4 by { LineLength(keys[k]); }
      } else if out {
        RoomCons(NoComma(def + sep), keys);
        assert NoComma(def + sep) == def;
      }
    }

    ghost function EndOf(f: Scan, d: Def, sep: string): string {
      if !PutsBack(f, d) && Defers(f, d, hasPk) then " " else sep
    }

    /** Once the effect of line k is there, k + 1 definitions are scanned. */
    lemma DefRead(t: TableText, k: nat, e: string, sep: string, f: Scan, d: Def, done: string, comma: int, keys: seq<string>, len: nat)
      requires Shape(t) && k < |t.defs| && ptr <= strend <= buf.Length && sep == (if k + 1 < |t.defs| then "," else "")
      requires d.(text := t.defs[k]) == Classify(t.defs[k]) && -1 <= comma < |done|
      requires WasStage(t, k, e, f, done, comma, keys, len)
      requires Effect(f, d, Defers(f, d, hasPk), done, comma, keys, "  ", t.defs[k] + sep, "\n")
      requires Rest() == Listed(t.defs[k + 1..]) + t.tail
      ensures strend <= |FullText(t)| && Stage(t, k + 1, EndOf(f, d, sep))
    {
      hide WithComma, Ended, Listed, Classify, PutsBack, Defers, Room, FullText, FindKey, Step, Effect;
      hide NoKeyLine, NextSlice, BeyondBreak, IndexFrom, IsSpace, Lines, Line;
      var def, s, h := t.defs[k], Scanned(ClassifyAll(t.defs), hasPk, k), t.header + "\n";
      ListedStep(t.defs, k);
      EffectIsStep(s, h, e, sep, f, d, comma, keys, def);
      EffectBounds(sep, f, d, Defers(f, d, hasPk), done, comma, keys, def);
      SameDecision(f, s, d, Classify(def), hasPk);
      var s2 := Scanned(ClassifyAll(t.defs), hasPk, k + 1);
      assert s2 == Step(s, Classify(def), hasPk);
      assert skippedKeys == Texts(s2.skipped);
    }

    /** Stage -1: nothing read; stage k: the header and k definitions; stage |defs| + 1: also the closing line. */
    ghost predicate Stage(t: TableText, k: int, e: string)
      requires -1 <= k <= |t.defs| + 1 && t.defs != [] && ptr <= strend <= buf.Length
      reads this, buf
    {
      if k <= |t.defs| then
        && WasStage(t, k, e, Flags(), Done(), lastComma, skippedKeys, strend) && !keysProcessed
        && Rest() == if k == -1 then FullText(t) else Listed(t.defs[k..]) + t.tail
      else
        && buf[..strend] == ReducedText(t, hasPk)
        && skippedKeys == Texts(Scanned(ClassifyAll(t.defs), hasPk, |t.defs|).skipped)
        && (keysProcessed || Passing())
    }

    /** Behind the closing parenthesis of a table with a single definition: nothing will be changed any more. */
    ghost predicate Passing()
      requires ptr <= strend <= buf.Length
      reads this, buf
    {
      NoKeyLine(Rest()) && skippedKeys == [] && (lastComma == -1 || (0 <= lastComma < ptr && buf[lastComma] == ','))
    }

    /** Stage k, stated on the values the scanner had then. */
    ghost predicate WasStage(t: TableText, k: int, e: string, f: Scan, done: string, comma: int, keys: seq<string>, len: nat)
      requires -1 <= k <= |t.defs| && t.defs != []
    {
      if k == -1 then
        done == "" && len == |FullText(t)| && comma == -1 && keys == [] && f == START
      else
        var s, n := Scanned(ClassifyAll(t.defs), hasPk, k), |t.defs|;
        && done == t.header + "\n" + Ended(Texts(s.kept), e) && len == |done| + |Listed(t.defs[k..])| + |t.tail|
        && f.skipped == s.skipped == ClassifyAll(keys) && keys == Texts(s.skipped)
        && f.pkDone == s.pkDone && f.autoinc == s.autoinc
        && (k == 0 ==> comma == -1)
        && (0 < k < n ==> s.kept != [] && |e| == 1 && comma == |done| - 2)
        && len <= |FullText(t)| && (k < n ==> len + Room(keys) == |FullText(t)|)
        && (k == n ==> e == Pad(t.defs, hasPk) && (comma == -1 <==> n == 1))
    }

    /** The line that comes next, and the room for keys that may come back. */
    lemma Ahead(t: TableText, k: int, e: string)
      requires Shape(t) && -1 <= k <= |t.defs| && Valid() && Stage(t, k, e) && |FullText(t)| < buf.Length
      ensures var a := LineAt(t, k);
              Rest() == a.indent + a.line + a.after && Delimited(a.indent, a.line, a.after)
      ensures buf[ptr] != NUL
      ensures strend <= |FullText(t)|
      ensures LineAt(t, k).line[0] == 'C' ==>
              forall i :: 0 <= i < |skippedKeys| ==> strend + |skippedKeys[i]| + 4 < buf.Length
    {
      hide Stage, FullText, Delimited, LineAt;
      RestAt(t, k, e);
      LineAtStage(t, k);
      LineNotEmpty(LineAt(t, k));
      assert buf[ptr] == Rest()[0];
      RoomAt(t, k, e);
    }

    lemma RestAt(t: TableText, k: int, e: string)
      requires Shape(t) && -1 <= k <= |t.defs| && Valid() && Stage(t, k, e)
      ensures Rest() == if k == -1 then FullText(t) else Listed(t.defs[k..]) + t.tail
    {
      hide WasStage, Listed, FullText;
    }

    lemma RoomAt(t: TableText, k: int, e: string)
      requires Shape(t) && -1 <= k <= |t.defs| && Valid() && Stage(t, k, e) && |FullText(t)| < buf.Length
      requires LineAt(t, k).line != ""
      ensures strend <= |FullText(t)|
      ensures LineAt(t, k).line[0] == 'C' ==>
              forall i :: 0 <= i < |skippedKeys| ==> strend + |skippedKeys[i]| + 4 < buf.Length
    {
      hide Ended, Listed, Classify, Room, FullText, Scanned, Pad, Texts;
      RoomCovers(skippedKeys);
      if k == |t.defs| { TailCloses(t); }
    }

    lemma HeaderRead(t: TableText, f: Scan, out: bool)
      requires Shape(t) && ptr <= strend <= buf.Length && f == START
      requires out ==> Defers(f, Classify(t.header), hasPk)
      requires Effect(f, Classify(t.header), out, "", -1, [], "", t.header, "\n")
      requires Rest() == Listed(t.defs) + t.tail
      ensures Stage(t, 0, "") && strend == |FullText(t)|
    {
      hide Listed;
      HeaderIsNoDefinition(t.header, hasPk);
      assert t.defs[0..] == t.defs;
      assert "" + ("" + t.header) + "\n" == t.header + "\n" + Ended([], "");
    }

    lemma TailRead(t: TableText, e: string, f: Scan, d: Def, out: bool, done: string, comma: int, keys: seq<string>)
      requires Shape(t) && ptr <= strend <= buf.Length && -1 <= comma < |done| && |f.skipped| == |keys|
      requires var a, s := LineAt(t, |t.defs|), Scanned(ClassifyAll(t.defs), hasPk, |t.defs|);
               && d == Classify(a.line) && (out ==> Defers(f, d, hasPk))
               && Effect(f, d, out, done, comma, keys, "", a.line, BreakOf(a.after)) && Rest() == BeyondBreak(a.after)
               && done == t.header + "\n" + Ended(Texts(s.kept), e) && keys == Texts(s.skipped)
               && e == Pad(t.defs, hasPk) && (comma == -1 <==> |t.defs| == 1)
      ensures Stage(t, |t.defs| + 1, e) && strend == |done| + |t.tail|
    {
      hide Listed, FullText, Ended, Classify, Defers, PutsBack, FindKey, Pad;
      hide WithComma, ReducedText, Effect, BreakOf, BeyondBreak, NoKeyLine, Scanned, Texts, IndexFrom;
      var a := LineAt(t, |t.defs|);
      assert a.line[0] == ')';
      TailIsNoDefinition(a.line, f, hasPk);
      EffectStays(f, d, out, done, comma, keys, "", a.line, BreakOf(a.after));
      NoCommaChange(done);
      TailText(done, t.tail);
      assert buf[..strend] == Done() + Rest();
      assert buf[..strend] == done + t.tail;
      Reduced(t, hasPk);
      if |t.defs| == 1 {
        NothingSkipped(t, hasPk);
        CommaIsThere(done, a.line, a.after);
      }
    }

    /** A comma at the end of the closing line is where lastComma points. */
    lemma CommaIsThere(done: string, line: string, after: string)
      requires line != "" && ptr <= buf.Length && Done() == done + line + BreakOf(after)
      requires lastComma == if line[|line| - 1] == ',' then |Done()| - |BreakOf(after)| - 1 else -1
      ensures lastComma == -1 || (0 <= lastComma < ptr && buf[lastComma] == ',')
    {
      if line[|line| - 1] == ',' { assert buf[lastComma] == Done()[lastComma] == line[|line| - 1]; }
    }

    /** From the effect of the line met at stage k to stage k + 1. */
    lemma NextStage(t: TableText, k: int, e: string, f: Scan, d: Def, done: string, comma: int, keys: seq<string>, len: nat)
                    returns (e2: string)
      requires Shape(t) && -1 <= k <= |t.defs| && ptr <= strend <= buf.Length && -1 <= comma < |done|
      requires WasStage(t, k, e, f, done, comma, keys, len)
      requires var a := LineAt(t, k);
               && d == Classify(a.line)
               && Effect(f, d, a.after != "" && Defers(f, d, hasPk), done, comma, keys, a.indent, a.line, BreakOf(a.after))
               && Rest() == BeyondBreak(a.after)
      ensures Stage(t, k + 1, e2) && strend <= |FullText(t)|
    {
      hide Listed, FullText, Ended, Classify, Defers, PutsBack, FindKey, Pad, WithComma, ReducedText, Effect, Room, Stage;
      var a, n := LineAt(t, k), |t.defs|;
      if k == -1 {
        HeaderRead(t, f, Defers(f, d, hasPk));
        e2 := "";
      } else if k < n {
        var sep := if k + 1 < n then "," else "";
        ReadWithSep(t.defs[k], sep);
        DefRead(t, k, e, sep, f, d, done, comma, keys, len);
        e2 := EndOf(f, d, sep);
      } else {
        TailRead(t, e, f, d, a.after != "" && Defers(f, d, hasPk), done, comma, keys);
        EmptyListed();
        assert t.defs[k..] == [];
        e2 := e;
      }
    }

    lemma Unfinished(t: TableText, k: int, e: string)
      requires Shape(t) && -1 <= k <= |t.defs| + 1 && Valid() && Stage(t, k, e)
      requires buf[ptr] != NUL && !keysProcessed
      ensures if k <= |t.defs| then WasStage(t, k, e, Flags(), Done(), lastComma, skippedKeys, strend)
              else
                && NoKeyLine(Rest()) && Rest() != "" && skippedKeys == [] && buf[..strend] == ReducedText(t, hasPk)
                && Texts(Scanned(ClassifyAll(t.defs), hasPk, |t.defs|).skipped) == []
                && (lastComma == -1 || (0 <= lastComma < ptr && Done()[lastComma] == ','))
    {
      hide WasStage, NoKeyLine, ReducedText, FullText, Listed, Scanned, Texts, Classify, NextSlice, BeyondBreak, IndexFrom, IsSpace, PlainLine;
    }

    lemma Finished(t: TableText, k: int, e: string)
      requires Shape(t) && -1 <= k <= |t.defs| + 1 && Valid() && Stage(t, k, e) && |FullText(t)| < buf.Length
      requires buf[ptr] == NUL || keysProcessed
      ensures buf[..strend] == ReducedText(t, hasPk)
      ensures skippedKeys == Texts(Scanned(ClassifyAll(t.defs), hasPk, |t.defs|).skipped)
    {
      hide WasStage, ReducedText, Delimited;
      if k <= |t.defs| { Ahead(t, k, e); }
    }

    lemma EffectStays(f: Scan, d: Def, out: bool, done: string, comma: int, keys: seq<string>, indent: string, line: string, nl: string)
      requires ptr <= buf.Length && line != "" && comma < |done| && |f.skipped| == |keys| && !PutsBack(f, d) && !out
      requires Effect(f, d, out, done, comma, keys, indent, line, nl)
      ensures skippedKeys == keys && keysProcessed == (comma != -1 && line[0] == ')')
      ensures Done() == WithComma(done, if keysProcessed then -1 else comma, ',') + (indent + line) + nl
      ensures lastComma == if line[|line| - 1] == ',' then |Done()| - |nl| - 1 else comma
    {
      hide WithComma, PutsBack, FindKey;
    }

    /** One line behind the closing parenthesis leaves the text as it is. */
    lemma PassedLine(t: TableText, e: string, f: Scan, done: string, comma: int, rest: string)
      requires t.defs != [] && ptr <= strend <= buf.Length && rest != "" && NoKeyLine(rest)
      requires f.skipped == [] && (comma == -1 || (0 <= comma < |done| && done[comma] == ','))
      requires done + rest == ReducedText(t, hasPk) && Texts(Scanned(ClassifyAll(t.defs), hasPk, |t.defs|).skipped) == []
      requires var a := NextSlice(rest);
               && a.line != "" && Rest() == BeyondBreak(a.after)
               && Effect(f, Classify(a.line), a.after != "" && Defers(f, Classify(a.line), hasPk), done, comma, [], a.indent, a.line, BreakOf(a.after))
      ensures Stage(t, |t.defs| + 1, e) && strend == |done| + |rest| && |Rest()| < |rest|
    {
      hide *;
      var a := NextSlice(rest);
      SliceIsDelimited(rest);
      PassedEffect(f, done, comma, rest);
      TextPassed(done, a, rest);
      PassedComma(done, comma, a);
      LastStage(t, e);
    }

    lemma LastStage(t: TableText, e: string)
      requires t.defs != [] && ptr <= strend <= buf.Length && buf[..strend] == ReducedText(t, hasPk)
      requires skippedKeys == [] == Texts(Scanned(ClassifyAll(t.defs), hasPk, |t.defs|).skipped) && NoKeyLine(Rest())
      requires lastComma == -1 || (0 <= lastComma < ptr && buf[lastComma] == ',')
      ensures Stage(t, |t.defs| + 1, e)
    {
      hide ReducedText, NoKeyLine, Scanned, Texts, Classify;
    }

    lemma PassedEffect(f: Scan, done: string, comma: int, rest: string)
      requires ptr <= buf.Length && rest != "" && NoKeyLine(rest) && NextSlice(rest).line != ""
      requires f.skipped == [] && (comma == -1 || (0 <= comma < |done| && done[comma] == ','))
      requires var a := NextSlice(rest);
               Effect(f, Classify(a.line), a.after != "" && Defers(f, Classify(a.line), hasPk), done, comma, [], a.indent, a.line, BreakOf(a.after))
      ensures var a := NextSlice(rest);
              && skippedKeys == [] && Done() == done + (a.indent + a.line) + BreakOf(a.after)
              && lastComma == if a.line[|a.line| - 1] == ',' then |Done()| - |BreakOf(a.after)| - 1 else comma
    {
      hide Classify, Defers, PutsBack, NoKeyLine, NextSlice, WithComma, BreakOf, Effect;
      var a := NextSlice(rest);
      SliceHasNoKey(rest);
      NoKeyIsKept(a.line, a.after, f, hasPk);
      EffectStays(f, Classify(a.line), a.after != "" && Defers(f, Classify(a.line), hasPk), done, comma, [], a.indent, a.line, BreakOf(a.after));
      CommaUnchanged(done, comma);
      CommaUnchanged(done, -1);
    }

    lemma TextPassed(done: string, a: Slice, rest: string)
      requires ptr <= strend <= buf.Length && rest == a.indent + a.line + a.after && (a.after != "" ==> a.after[0] == '\n')
      requires Done() == done + (a.indent + a.line) + BreakOf(a.after) && Rest() == BeyondBreak(a.after)
      ensures buf[..strend] == done + rest && strend == |done| + |rest|
    {
      hide BreakOf, BeyondBreak;
      SamePassed(done, a, rest);
      assert buf[..strend] == Done() + Rest();
    }

    lemma PassedComma(done: string, comma: int, a: Slice)
      requires a.line != "" && ptr <= buf.Length && Done() == done + (a.indent + a.line) + BreakOf(a.after)
      requires comma == -1 || (0 <= comma < |done| && done[comma] == ',')
      requires lastComma == if a.line[|a.line| - 1] == ',' then |Done()| - |BreakOf(a.after)| - 1 else comma
      ensures lastComma == -1 || (0 <= lastComma < ptr && buf[lastComma] == ',')
    {
      if lastComma != -1 { assert buf[lastComma] == Done()[lastComma]; }
    }

    /** One iteration, whatever the stage. */
    method OneLine(ghost t: TableText, ghost k: int, ghost e: string) returns (ghost k2: int, ghost e2: string)
      requires Shape(t) && -1 <= k <= |t.defs| + 1 && Valid() && Stage(t, k, e) && strend <= |FullText(t)| < buf.Length
      requires buf[ptr] != NUL && !keysProcessed
      modifies this, buf
      ensures Valid() && k <= k2 <= |t.defs| + 1 && Stage(t, k2, e2) && strend <= |FullText(t)|
      ensures k < k2 || strend - ptr < old(strend - ptr)
      ensures forall j :: |FullText(t)| < j < buf.Length ==> buf[j] == old(buf[j])
    {
      hide Delimited, Effect, Classify, Defers, PutsBack, LineAt, WasStage, FullText, ReducedText, Stage, NoKeyLine, NextSlice, BeyondBreak, BreakOf;
      Unfinished(t, k, e);
      ghost var rest := Rest();
      ghost var a := if k <= |t.defs| then LineAt(t, k) else NextSlice(rest);
      if k <= |t.defs| { Ahead(t, k, e); } else { SliceIsDelimited(rest); }
      ghost var f, done, comma, keys, len := Flags(), Done(), lastComma, skippedKeys, strend;
      assert done + rest == buf[..strend];
      ProcessLine(a.indent, a.line, a.after);
      if k <= |t.defs| {
        e2 := NextStage(t, k, e, f, Classify(a.line), done, comma, keys, len);
        k2 := k + 1;
      } else {
        PassedLine(t, e, f, done, comma, rest);
        k2, e2 := k, e;
      }
    }

    /** `skip_secondary_keys`: the buffer ends up holding the reduced text and the list the deferred
        keys, newest first; no character beyond the original text is written. */
    method SkipSecondaryKeys(ghost t: TableText)
      requires Shape(t) && Valid() && |FullText(t)| < buf.Length && Stage(t, -1, "")
      modifies this, buf
      ensures Valid() && buf[..strend] == ReducedText(t, hasPk) && strend <= |FullText(t)|
      ensures skippedKeys == Texts(Scanned(ClassifyAll(t.defs), hasPk, |t.defs|).skipped)
      ensures forall j :: |FullText(t)| < j < buf.Length ==> buf[j] == old(buf[j])
    {
      hide Delimited, Effect, Classify, Defers, PutsBack, LineAt, WasStage, FullText, ReducedText, Stage;
      ghost var k, e := -1, "";
      Ahead(t, k, e);
      while buf[ptr] != NUL && !keysProcessed
        invariant Valid() && -1 <= k <= |t.defs| + 1 && Stage(t, k, e) && strend <= |FullText(t)|
        invariant forall j :: |FullText(t)| < j < buf.Length ==> buf[j] == old(buf[j])
        decreases |t.defs| + 1 - k, strend - ptr
      {
        k, e := OneLine(t, k, e);
      }
      Finished(t, k, e);
    }

    /** `dump_skipped_keys`: one ALTER TABLE adds the skipped keys, oldest first, and empties the list. */
    method DumpSkippedKeys(table: string) returns (out: string)
      modifies this`skippedKeys
      ensures skippedKeys == []
      ensures out == if old(skippedKeys) == [] then ""
                     else "ALTER TABLE " + table + " ADD " + Join(Reverse(old(skippedKeys)), ", ADD ") + ";\n"
    {
      if skippedKeys == [] { return ""; }
      ReverseList();
      AddListIs(skippedKeys);
      AlterText(table, Join(skippedKeys, ", ADD "));
      out := "ALTER TABLE " + table + " ";
      ghost var all := "ALTER TABLE " + table + " " + AddList(skippedKeys);
      while skippedKeys != []
        invariant out + AddList(skippedKeys) == all
        decreases |skippedKeys|
      {
        var def := skippedKeys[0];
        ghost var rest := AddList(skippedKeys[1..]);
        assert out + AddList(skippedKeys) == out + "ADD " + def + (if |skippedKeys| > 1 then ", " else ";\n") + rest;
        out := out + "ADD " + def + (if |skippedKeys| > 1 then ", " else ";\n");
        skippedKeys := skippedKeys[1..];
      }
    }

    lemma AlterText(table: string, list: string)
      ensures "ALTER TABLE " + table + " " + ("ADD " + list + ";\n") == "ALTER TABLE " + table + " ADD " + list + ";\n"
    {
    }

    method ReverseList()
      modifies this`skippedKeys
      ensures skippedKeys == Reverse(old(skippedKeys))
    {
      var rest, done := skippedKeys, [];
      while rest != []
        invariant Reverse(old(skippedKeys)) == Reverse(rest) + done
        decreases |rest|
      {
        done, rest := [rest[0]] + done, rest[1..];
      }
      skippedKeys := done;
    }
  }

  ghost function AddList(keys: seq<string>): string {
    if keys == [] then ""
    else "ADD " + keys[0] + (if |keys| > 1 then ", " else ";\n") + AddList(keys[1..])
  }

  lemma {:induction false} AddListIs(keys: seq<string>)
    requires keys != []
    ensures AddList(keys) == "ADD " + Join(keys, ", ADD ") + ";\n"
    decreases |keys|
  {
    if |keys| == 1 {
      assert keys[1..] == [] && AddList(keys[1..]) == "";
    } else {
      AddListIs(keys[1..]);
      var rest := Join(keys[1..], ", ADD ");
      assert "ADD " + keys[0] + ", " + ("ADD " + rest + ";\n") == "ADD " + (keys[0] + ", ADD " + rest) + ";\n";
    }
  }

  /** The line met at stage k. */
  ghost function LineAt(t: TableText, k: int): Slice
    requires -1 <= k <= |t.defs|
  {
    if k == -1 then Slice("", t.header, "\n" + (Listed(t.defs) + t.tail))
    else if k < |t.defs| then
      Slice("  ", t.defs[k] + (if k + 1 < |t.defs| then "," else ""), "\n" + (Listed(t.defs[k + 1..]) + t.tail))
    else
      var i := IndexFrom(t.tail, '\n', 0);
      Slice("", t.tail[..i], t.tail[i..])
  }

  lemma LineNotEmpty(a: Slice)
    requires Delimited(a.indent, a.line, a.after)
    ensures a.line != ""
  {
  }

  lemma TailCloses(t: TableText)
    requires Shape(t) && LineAt(t, |t.defs|).line != ""
    ensures LineAt(t, |t.defs|).line[0] == ')'
  {
  }

  lemma LineAtStage(t: TableText, k: int)
    requires Shape(t) && -1 <= k <= |t.defs|
    ensures var a := LineAt(t, k);
            && Delimited(a.indent, a.line, a.after)
            && a.indent + a.line + a.after == (if k == -1 then FullText(t) else Listed(t.defs[k..]) + t.tail)
            && (a.indent + a.line + a.after)[0] != NUL
  {
    hide Listed, Delimited;
    if k == -1 {
      HeaderLine(t.header, Listed(t.defs), t.tail);
    } else if k < |t.defs| {
      var sep := if k + 1 < |t.defs| then "," else "";
      ListedStep(t.defs, k);
      LineDelimited(t.defs[k], sep, Listed(t.defs[k + 1..]) + t.tail);
      BreakBefore("  " + (t.defs[k] + sep), Listed(t.defs[k + 1..]), t.tail);
    } else {
      EmptyListed();
      assert t.defs[k..] == [];
      TailLine(t.tail);
    }
  }

  lemma NothingSkipped(t: TableText, hasPk: bool)
    requires Shape(t) && |t.defs| == 1
    ensures Scanned(ClassifyAll(t.defs), hasPk, 1).skipped == []
  {
    hide Classify;
    ColumnStays(t.defs[0], START, hasPk);
    assert Scanned(ClassifyAll(t.defs), hasPk, 0) == START;
  }

  lemma CutIsDelimited(r: string, i: nat, j: nat)
    requires i < j <= |r| && NUL !in r && (j < |r| ==> r[j] == '\n') && !IsSpace(r[i])
    requires (forall k :: 0 <= k < i ==> IsSpace(r[k])) && forall k :: i <= k < j ==> r[k] != '\n'
    ensures r == r[..i] + r[i..j] + r[j..] && Delimited(r[..i], r[i..j], r[j..])
  {
    hide IsSpace;
    var line := r[i..j];
    assert line[0] == r[i];
    forall k | 0 <= k < |line| ensures line[k] != '\n' && line[k] != NUL { assert line[k] == r[i + k]; }
  }

  lemma SliceIsDelimited(r: string)
    requires r != "" && NoKeyLine(r)
    ensures var a := NextSlice(r);
            && r == a.indent + a.line + a.after && Delimited(a.indent, a.line, a.after) && r[0] != NUL
            && a.line != "" && (a.after != "" ==> a.after[0] == '\n')
            && |BeyondBreak(a.after)| < |r| && NoKeyLine(BeyondBreak(a.after))
  {
    hide IsSpace, Delimited, Blanks, IndexFrom;
    var i := Blanks(r);
    CutIsDelimited(r, i, IndexFrom(r, '\n', i));
  }

  lemma SliceHasNoKey(r: string)
    requires r != "" && NoKeyLine(r)
    ensures var a := NextSlice(r); a.after != "" ==> !(KEY <= a.line) && !(UNIQUE_KEY <= a.line)
  {
    hide NextSlice;
  }

  lemma CommaUnchanged(done: string, comma: int)
    requires comma == -1 || (0 <= comma < |done| && done[comma] == ',')
    ensures WithComma(done, comma, ',') == done
  {
  }

  lemma SamePassed(done: string, a: Slice, rest: string)
    requires rest == a.indent + a.line + a.after && (a.after != "" ==> a.after[0] == '\n')
    ensures done + (a.indent + a.line) + BreakOf(a.after) + BeyondBreak(a.after) == done + rest
  {
    AcrossBreak(done + (a.indent + a.line), a.after);
    Groups(done, a.indent + a.line, a.after);
  }

  lemma NoKeyIsKept(line: string, after: string, f: Scan, hasPk: bool)
    requires f.skipped == [] && (after != "" ==> !(KEY <= line) && !(UNIQUE_KEY <= line))
    ensures !PutsBack(f, Classify(line)) && !(after != "" && Defers(f, Classify(line), hasPk))
  {
    hide Name, LeadColumn, AutoincColumn;
  }

  lemma Reduced(t: TableText, hasPk: bool)
    requires t.defs != []
    ensures ReducedText(t, hasPk) ==
      t.header + "\n" + Ended(Texts(Scanned(ClassifyAll(t.defs), hasPk, |t.defs|).kept), Pad(t.defs, hasPk)) + t.tail
  {
  }

  lemma TailText(done: string, tail: string)
    requires tail != ""
    ensures var i := IndexFrom(tail, '\n', 0);
            done + ("" + tail[..i]) + BreakOf(tail[i..]) + BeyondBreak(tail[i..]) == done + tail
  {
    hide IndexFrom;
    var i := IndexFrom(tail, '\n', 0);
    var b, r := BreakOf(tail[i..]), BeyondBreak(tail[i..]);
    assert tail[i..] == b + r;
    assert tail == tail[..i] + tail[i..];
    assert done + ("" + tail[..i]) + b + r == done + (tail[..i] + (b + r));
  }

  lemma EmptyListed() ensures Listed([]) == "" {}

  lemma BreakBefore(x: string, y: string, z: string)
    ensures x + "\n" + y + z == x + ("\n" + (y + z))
  {
  }

  lemma HeaderLine(header: string, list: string, tail: string)
    requires PlainLine(header)
    ensures Delimited("", header, "\n" + (list + tail))
    ensures "" + header + ("\n" + (list + tail)) == header + "\n" + list + tail
  {
  }

  lemma TailLine(tail: string)
    requires tail != "" && tail[0] == ')' && NUL !in tail
    ensures var i := IndexFrom(tail, '\n', 0);
            Delimited("", tail[..i], tail[i..]) && "" + tail[..i] + tail[i..] == tail
  {
  }

  /** The reduced text: same header, the definitions that stay, same closing part. */
  ghost function ReducedText(t: TableText, hasPk: bool): string
    requires t.defs != []
  {
    var s := Scanned(ClassifyAll(t.defs), hasPk, |t.defs|);
    t.header + "\n" + Ended(Texts(s.kept), Pad(t.defs, hasPk)) + t.tail
  }

  /** Characters taken out of the text for the keys of the list. */
  ghost function Room(keys: seq<string>): nat {
    if keys == [] then 0 else |keys[0]| + 4 + Room(keys[1..])
  }

  lemma RoomCons(key: string, keys: seq<string>)
    ensures Room([key] + keys) == |key| + 4 + Room(keys)
  {
    assert ([key] + keys)[1..] == keys;
  }

  lemma LineLength(d: string)
    ensures |Line(d)| == |d| + 4
  {
  }

  lemma {:induction false} RoomWithout(keys: seq<string>, k: nat)
    requires k < |keys|
    ensures Room(keys) == Room(Without(keys, k)) + |keys[k]| + 4
  {
    if k > 0 {
      RoomWithout(keys[1..], k - 1);
      assert Without(keys, k)[1..] == Without(keys[1..], k - 1);
    } else {
      assert Without(keys, 0) == keys[1..];
    }
  }

  /** What follows the last definition: nothing, or the blank that replaced its comma. */
  ghost function Pad(defs: seq<string>, hasPk: bool): string
    requires defs != []
  {
    var n := |defs| - 1;
    var s := Scanned(ClassifyAll(defs), hasPk, n);
    if !PutsBack(s, Classify(defs[n])) && Defers(s, Classify(defs[n]), hasPk) then " " else ""
  }

  /** Rewriting the comma of the last line changes just how that line ends. */
  lemma CommaRewritten(h: string, ds: seq<string>, e: string, c: char)
    requires ds != [] && |e| == 1
    ensures var t := h + Ended(ds, e); WithComma(t, |t| - 2, c) == h + Ended(ds, [c])
  {
    var a := h + (Lines(ds[..|ds| - 1]) + "  " + ds[|ds| - 1]);
    assert h + Ended(ds, e) == a + e + "\n";
    assert h + Ended(ds, [c]) == a + [c] + "\n";
  }

  /** Where the comma of the last line stands. */
  ghost predicate CommaOf(comma: int, h: string, ds: seq<string>, e: string) {
    if ds == [] then comma == -1 else |e| == 1 && comma == |h + Ended(ds, e)| - 2
  }

  lemma CommaRestored(h: string, ds: seq<string>, e: string, comma: int)
    requires CommaOf(comma, h, ds, e)
    ensures comma < |h + Ended(ds, e)|
    ensures WithComma(h + Ended(ds, e), comma, ',') == h + Ended(ds, ",")
  {
    if ds != [] { CommaRewritten(h, ds, e, ','); }
  }

  /** The text after a line that stayed. */
  lemma TextStays(h: string, ds: seq<string>, e: string, comma: int, d: string, sep: string)
    requires CommaOf(comma, h, ds, e) && comma < |h + Ended(ds, e)|
    ensures WithComma(h + Ended(ds, e), comma, ',') + ("  " + (d + sep)) + "\n" == h + Ended(ds + [d], sep)
  {
    hide Ended, WithComma;
    CommaRestored(h, ds, e, comma);
    EndedExtends(ds, d, sep);
    Regroup(h, Ended(ds, ","), d, sep);
  }

  /** The text after a constraint that brought a key back. */
  lemma TextBack(h: string, ds: seq<string>, e: string, comma: int, key: string, d: string, sep: string)
    requires CommaOf(comma, h, ds, e) && comma < |h + Ended(ds, e)|
    ensures WithComma(h + Ended(ds, e), comma, ',') + Line(key) + ("  " + (d + sep)) + "\n" == h + Ended(ds + [key, d], sep)
  {
    hide Ended, WithComma;
    CommaRestored(h, ds, e, comma);
    var x := Ended(ds, ",");
    EndedExtends(ds, key, ",");
    EndedExtends(ds + [key], d, sep);
    assert ds + [key] + [d] == ds + [key, d];
    Regroup(h, x, key, ",");
    WholeLine(h + x, key);
    Regroup(h, Ended(ds + [key], ","), d, sep);
  }

  lemma WholeLine(x: string, key: string)
    ensures x + ("  " + (key + ",")) + "\n" == x + Line(key)
  {
  }

  lemma Regroup(h: string, x: string, d: string, sep: string)
    ensures h + x + ("  " + (d + sep)) + "\n" == h + (x + "  " + d + sep + "\n")
  {
  }

  /** The next definition as it stands in the text. */
  lemma ListedStep(defs: seq<string>, k: nat)
    requires k < |defs|
    ensures var sep := if k + 1 < |defs| then "," else "";
            Listed(defs[k..]) == "  " + (defs[k] + sep) + "\n" + Listed(defs[k + 1..])
  {
    assert defs[k..][1..] == defs[k + 1..];
  }

  /** Reading the line instead of the definition changes no decision. */
  lemma SameDecision(f: Scan, s: Scan, d: Def, dd: Def, hasPk: bool)
    requires f.skipped == s.skipped && f.pkDone == s.pkDone && f.autoinc == s.autoinc && d.(text := dd.text) == dd
    ensures PutsBack(f, d) == PutsBack(s, dd) && Defers(f, d, hasPk) == Defers(s, dd, hasPk)
  {
  }

  lemma ReadWithSep(def: string, sep: string)
    requires def != "" && (sep == "," || sep == "")
    ensures Classify(def + sep).(text := def) == Classify(def)
  {
    if sep == "" { assert def + sep == def; } else { ClassifyComma(def); }
  }

  lemma ColumnStays(def: string, s: Scan, hasPk: bool)
    requires def != "" && def[0] == '`'
    ensures !PutsBack(s, Classify(def)) && !Defers(s, Classify(def), hasPk)
  {
    hide Name, LeadColumn, AutoincColumn;
  }

  lemma LineDelimited(def: string, sep: string, rest: string)
    requires PlainLine(def) && (sep == "," || sep == "")
    ensures Delimited("  ", def + sep, "\n" + rest)
  {
  }

  lemma {:induction false} RoomCovers(keys: seq<string>)
    ensures forall k :: 0 <= k < |keys| ==> |keys[k]| + 4 <= Room(keys)
  {
    if keys != [] { RoomCovers(keys[1..]); }
  }

  lemma HeaderIsNoDefinition(header: string, hasPk: bool)
    requires header != "" && header[0] == 'C' && !(CONSTRAINT <= header)
    ensures var d := Classify(header);
            !PutsBack(START, d) && !Defers(START, d, hasPk) && d.kind.NoKey? && d.autoinc.None?
  {
    hide Name, LeadColumn;
  }

  lemma TailIsNoDefinition(line: string, f: Scan, hasPk: bool)
    requires line != "" && line[0] == ')'
    ensures !PutsBack(f, Classify(line)) && !Defers(f, Classify(line), hasPk)
  {
    hide Name, LeadColumn, FindKey;
  }
}
