/** Extended INSERT statements (`dump_table` in client/mysqldump.c): rows are packed into statements as long as
    the accounted length stays below the network buffer. */
module InsertBatcher {
  import opened Text

  /** `pat` is everything up to the first row; `limit` is `opt_net_buffer_length`. */
  datatype Config = Config(pat: string, limit: nat)

  // ---------- text of the statements ----------

  ghost function Rows(batch: seq<string>): string
    requires batch != []
  {
    var n := |batch| - 1;
    if n == 0 then batch[0] else Rows(batch[..n]) + "," + batch[n]
  }

  /** One statement with its terminator. */
  ghost function Statement(c: Config, batch: seq<string>): string
    requires batch != []
  {
    c.pat + Rows(batch) + ";\n"
  }

  ghost predicate Filled(batches: seq<seq<string>>) { forall i :: 0 <= i < |batches| ==> batches[i] != [] }

  ghost function Statements(c: Config, batches: seq<seq<string>>): string
    requires Filled(batches)
  {
    if batches == [] then ""
    else var n := |batches| - 1; Statements(c, batches[..n]) + Statement(c, batches[n])
  }

  /** The statements so far, the last one still without its terminator. */
  ghost function Unterminated(c: Config, batches: seq<seq<string>>): string
    requires Filled(batches)
  {
    if batches == [] then ""
    else var n := |batches| - 1; Statements(c, batches[..n]) + c.pat + Rows(batches[n])
  }

  // ---------- accounting ----------

  ghost function RowsLength(batch: seq<string>): nat {
    if batch == [] then 0 else var n := |batch| - 1; RowsLength(batch[..n]) + 2 + |batch[n]|
  }

  ghost function Accounted(c: Config, batch: seq<string>): nat { |c.pat| + 4 + RowsLength(batch) }

  /** A statement may have any single row; with more rows the accounted length must stay below the limit. */
  ghost predicate Allowed(c: Config, batch: seq<string>) {
    batch != [] && (|batch| > 1 ==> Accounted(c, batch) < c.limit)
  }

  ghost function Flatten(batches: seq<seq<string>>): seq<string> {
    if batches == [] then [] else var n := |batches| - 1; Flatten(batches[..n]) + batches[n]
  }

  /** A way to write the rows, in order, with allowed statements. */
  ghost predicate Split(c: Config, rows: seq<string>, batches: seq<seq<string>>) {
    Flatten(batches) == rows && forall i :: 0 <= i < |batches| ==> Allowed(c, batches[i])
  }

  // ---------- the packing ----------

  ghost function Appended(batches: seq<seq<string>>, row: string): seq<seq<string>>
    requires batches != []
  {
    var n := |batches| - 1;
    batches[..n] + [batches[n] + [row]]
  }

  ghost predicate Fits(c: Config, batches: seq<seq<string>>, row: string) {
    batches != [] && Accounted(c, batches[|batches| - 1]) + 2 + |row| < c.limit
  }

  ghost function Packed(c: Config, rows: seq<string>): seq<seq<string>> {
    if rows == [] then []
    else
      var n := |rows| - 1;
      var batches := Packed(c, rows[..n]);
      if Fits(c, batches, rows[n]) then Appended(batches, rows[n]) else batches + [[rows[n]]]
  }

  /** The loop over the rows of a table. */
  method DumpRows(c: Config, rows: seq<string>) returns (out: string)
    ensures Split(c, rows, Packed(c, rows))
    ensures Filled(Packed(c, rows)) && out == Statements(c, Packed(c, rows))
  {
    hide Statements, Rows, RowsLength, Split, Packed;
    out := "";
    var totalLength, rowBreak, initLength := c.limit, false, |c.pat| + 4;
    ghost var batches: seq<seq<string>> := [];
    NothingPacked(c, rows);
    for i := 0 to |rows|
      invariant batches == Packed(c, rows[..i]) && Split(c, rows[..i], batches) && Filled(batches)
      invariant out == Unterminated(c, batches) && rowBreak == (batches != [])
      invariant totalLength == if batches == [] then c.limit else Accounted(c, batches[|batches| - 1])
    {
      var row := rows[i];
      var rowLength := 2 + |row|;
      PackNext(c, rows, i);
      if totalLength + rowLength < c.limit {
        totalLength := totalLength + rowLength;
        out := out + "," + row;
        AppendedText(c, batches, row);
        batches := Appended(batches, row);
      } else {
        if rowBreak { out := out + ";\n"; }
        rowBreak := true;
        out := out + c.pat + row;
        totalLength := rowLength + initLength;
        OpenedText(c, batches, row);
        batches := batches + [[row]];
      }
    }
    assert rows[..|rows|] == rows;
    if rowBreak { out := out + ";\n"; }
    TerminatedText(c, batches);
  }

  lemma NothingPacked(c: Config, rows: seq<string>)
    ensures Packed(c, rows[..0]) == [] && Split(c, rows[..0], [])
  {
  }

  /** One more row. */
  lemma PackNext(c: Config, rows: seq<string>, i: nat)
    requires i < |rows| && Split(c, rows[..i], Packed(c, rows[..i]))
    ensures var batches, row := Packed(c, rows[..i]), rows[i];
            && Packed(c, rows[..i + 1]) == (if Fits(c, batches, row) then Appended(batches, row) else batches + [[row]])
            && Split(c, rows[..i + 1], Packed(c, rows[..i + 1]))
            && (Fits(c, batches, row) ==> Filled(Appended(batches, row)))
            && Filled(batches + [[row]])
  {
    var batches, row := Packed(c, rows[..i]), rows[i];
    assert rows[..i + 1][..i] == rows[..i];
    assert rows[..i + 1] == rows[..i] + [row];
    if Fits(c, batches, row) { SplitAppended(c, rows[..i], batches, row); } else { SplitOpened(c, rows[..i], batches, row); }
    assert Filled(batches + [[row]]);
  }

  lemma SplitAppended(c: Config, rows: seq<string>, batches: seq<seq<string>>, row: string)
    requires Split(c, rows, batches) && Fits(c, batches, row)
    ensures Split(c, rows + [row], Appended(batches, row)) && Filled(Appended(batches, row))
  {
    var n := |batches| - 1;
    var more := Appended(batches, row);
    assert more[..n] == batches[..n];
    assert Flatten(batches[..n]) + (batches[n] + [row]) == Flatten(batches[..n]) + batches[n] + [row];
    LongerBatch(batches[n], row);
    assert Allowed(c, more[n]);
  }

  lemma LongerBatch(batch: seq<string>, row: string)
    ensures RowsLength(batch + [row]) == RowsLength(batch) + 2 + |row|
    ensures batch != [] ==> Rows(batch + [row]) == Rows(batch) + "," + row
  {
    assert (batch + [row])[..|batch|] == batch;
  }

  lemma SplitOpened(c: Config, rows: seq<string>, batches: seq<seq<string>>, row: string)
    requires Split(c, rows, batches)
    ensures Split(c, rows + [row], batches + [[row]])
  {
    assert (batches + [[row]])[..|batches|] == batches;
  }

  lemma AppendedText(c: Config, batches: seq<seq<string>>, row: string)
    requires Filled(batches) && batches != [] && Filled(Appended(batches, row))
    ensures Unterminated(c, Appended(batches, row)) == Unterminated(c, batches) + "," + row
    ensures Accounted(c, Appended(batches, row)[|batches| - 1]) == Accounted(c, batches[|batches| - 1]) + 2 + |row|
  {
    hide Statements, Rows, RowsLength;
    var n := |batches| - 1;
    assert Appended(batches, row)[..n] == batches[..n];
    LongerBatch(batches[n], row);
    var head := Statements(c, batches[..n]) + c.pat;
    assert head + (Rows(batches[n]) + "," + row) == head + Rows(batches[n]) + "," + row;
  }

  lemma TerminatedText(c: Config, batches: seq<seq<string>>)
    requires Filled(batches)
    ensures Statements(c, batches) == Unterminated(c, batches) + if batches == [] then "" else ";\n"
  {
    hide Rows;
    if batches != [] {
      var n := |batches| - 1;
      var head := Statements(c, batches[..n]);
      assert head + (c.pat + Rows(batches[n]) + ";\n") == head + c.pat + Rows(batches[n]) + ";\n";
    }
  }

  lemma OpenedText(c: Config, batches: seq<seq<string>>, row: string)
    requires Filled(batches) && Filled(batches + [[row]])
    ensures Unterminated(c, batches + [[row]]) == Statements(c, batches) + c.pat + row
    ensures Statements(c, batches) == Unterminated(c, batches) + if batches == [] then "" else ";\n"
    ensures Accounted(c, [row]) == |c.pat| + 4 + 2 + |row|
  {
    TerminatedText(c, batches);
    assert (batches + [[row]])[..|batches|] == batches;
    LongerBatch([], row);
    assert [] + [row] == [row];
  }

  /** A statement is the pattern, its rows with commas between them, and the terminator; the output is one statement
      behind the other. */
  lemma StatementsSpelledOut(c: Config, batches: seq<seq<string>>, batch: seq<string>)
    requires Filled(batches) && batch != []
    ensures Filled(batches + [batch]) && Statements(c, []) == ""
    ensures Statements(c, batches + [batch]) == Statements(c, batches) + (c.pat + Join(batch, ",") + ";\n")
  {
    RowsJoined(batch);
    assert (batches + [batch])[..|batches|] == batches;
  }

  lemma {:induction false} RowsJoined(batch: seq<string>)
    requires batch != []
    ensures Rows(batch) == Join(batch, ",")
    decreases |batch|
  {
    var n := |batch| - 1;
    if n > 0 {
      RowsJoined(batch[..n]);
      JoinConcat(batch[..n], [batch[n]], ",");
      assert batch[..n] + [batch[n]] == batch;
    }
  }

  // ---------- what the packing promises ----------

  lemma {:induction false} PackedIsSplit(c: Config, rows: seq<string>)
    ensures Split(c, rows, Packed(c, rows))
  {
    if rows != [] {
      var n := |rows| - 1;
      PackedIsSplit(c, rows[..n]);
      PackNext(c, rows, n);
      assert rows[..n + 1] == rows;
    }
  }

  lemma {:induction false} RowsBytes(batch: seq<string>)
    requires batch != []
    ensures |Rows(batch)| + |batch| + 1 == RowsLength(batch)
  {
    var n := |batch| - 1;
    if n == 0 { assert batch[..0] == []; } else { RowsBytes(batch[..n]); }
  }

  /** A statement of two or more rows takes fewer bytes than the network buffer, terminator included. */
  lemma StatementIsShort(c: Config, rows: seq<string>, i: nat)
    requires i < |Packed(c, rows)| && |Packed(c, rows)[i]| > 1
    ensures |Statement(c, Packed(c, rows)[i])| < c.limit
  {
    hide Packed, Rows, RowsLength;
    PackedIsSplit(c, rows);
    var batch := Packed(c, rows)[i];
    assert Allowed(c, batch);
    RowsBytes(batch);
  }

  /** The accounted length of a statement is its length in bytes, one byte for each row and three more. */
  lemma AccountedIs(c: Config, batch: seq<string>)
    requires batch != []
    ensures Accounted(c, batch) == |Statement(c, batch)| + |batch| + 3
  {
    hide Rows, RowsLength;
    RowsBytes(batch);
  }

  /** A new statement is begun only when the row would have brought the one before it to the limit. */
  lemma {:induction false} StatementIsFull(c: Config, rows: seq<string>, i: nat)
    requires i + 1 < |Packed(c, rows)|
    ensures var p := Packed(c, rows);
            p[i + 1] != [] && p[i] != [] && |Statement(c, p[i] + [p[i + 1][0]])| + |p[i]| + 4 >= c.limit
    decreases |rows|
  {
    hide Statement, RowsLength;
    PackedIsSplit(c, rows);
    assert Allowed(c, Packed(c, rows)[i]) && Allowed(c, Packed(c, rows)[i + 1]);
    if rows != [] {
      var n := |rows| - 1;
      var before := Packed(c, rows[..n]);
      if Fits(c, before, rows[n]) {
        FirstRowStays(before, rows[n], i);
        StatementIsFull(c, rows[..n], i);
      } else if i + 1 < |before| {
        StatementIsFull(c, rows[..n], i);
      } else {
        LongerBatch(before[i], rows[n]);
        AccountedIs(c, before[i] + [rows[n]]);
      }
    }
  }

  lemma FirstRowStays(batches: seq<seq<string>>, row: string, i: nat)
    requires i + 1 < |batches| && batches[i + 1] != []
    ensures Appended(batches, row)[i] == batches[i] && Appended(batches, row)[i + 1][0] == batches[i + 1][0]
  {
  }

  lemma LastIsSuffix(c: Config, rows: seq<string>, batches: seq<seq<string>>)
    requires Split(c, rows, batches) && batches != []
    ensures var last := batches[|batches| - 1]; |last| <= |rows| && last == rows[|rows| - |last|..]
  {
  }

  lemma {:induction false} SuffixIsShorter(batch: seq<string>, k: nat)
    requires k <= |batch|
    ensures RowsLength(batch[k..]) <= RowsLength(batch)
  {
    if k < |batch| {
      var n := |batch| - 1;
      assert batch[k..][..n - k] == batch[..n][k..];
      SuffixIsShorter(batch[..n], k);
    }
  }

  lemma SplitShortened(c: Config, rows: seq<string>, other: seq<seq<string>>)
    requires Split(c, rows, other) && rows != []
    ensures other != []
    ensures var m, n := |other| - 1, |rows| - 1;
            var last := other[m];
            && last != [] && last[|last| - 1] == rows[n]
            && (|last| == 1 ==> Split(c, rows[..n], other[..m]))
            && (|last| > 1 ==> Split(c, rows[..n], other[..m] + [last[..|last| - 1]]))
  {
    var m, n := |other| - 1, |rows| - 1;
    var last := other[m];
    assert Allowed(c, last);
    var k := |last| - 1;
    assert last == last[..k] + [last[k]];
    assert rows[..n] == Flatten(other[..m]) + last[..k];
    if k > 0 {
      var shorter := other[..m] + [last[..k]];
      assert shorter[..m] == other[..m];
      assert forall i :: 0 <= i < m ==> shorter[i] == other[i];
      assert Allowed(c, last[..k]);
    } else {
      assert last[..k] == [];
    }
  }

  /** No other way needs fewer statements; with as many, the last statement of the packing is the shortest. */
  lemma {:induction false} PackedIsAhead(c: Config, rows: seq<string>, other: seq<seq<string>>)
    requires Split(c, rows, other)
    ensures |Packed(c, rows)| <= |other|
    ensures rows != [] && |Packed(c, rows)| == |other| ==>
            other != [] && |Packed(c, rows)[|other| - 1]| <= |other[|other| - 1]|
    decreases |rows|
  {
    hide Split, RowsLength;
    if rows != [] {
      var n := |rows| - 1;
      SplitShortened(c, rows, other);
      var m := |other| - 1;
      var last := other[m];
      var batches := Packed(c, rows[..n]);
      if |last| == 1 {
        PackedIsAhead(c, rows[..n], other[..m]);
      } else {
        var shorter := other[..m] + [last[..|last| - 1]];
        PackedIsAhead(c, rows[..n], shorter);
        if |batches| == |other| && !Fits(c, batches, rows[n]) {
          PackedIsSplit(c, rows[..n]);
          WouldFit(c, rows, other, batches);
        }
      }
    }
  }

  /** Where the other way still has room for the last row, so has a shorter last statement. */
  lemma WouldFit(c: Config, rows: seq<string>, other: seq<seq<string>>, batches: seq<seq<string>>)
    requires rows != [] && Split(c, rows, other) && Split(c, rows[..|rows| - 1], batches) && |batches| == |other| > 0
    requires |batches[|batches| - 1]| < |other[|other| - 1]| && |other[|other| - 1]| > 1
    ensures Fits(c, batches, rows[|rows| - 1])
  {
    var n := |rows| - 1;
    var mine, last := batches[|batches| - 1], other[|other| - 1];
    LastIsSuffix(c, rows, other);
    LastIsSuffix(c, rows[..n], batches);
    assert Allowed(c, last);
    var k := |last| - 1 - |mine|;
    assert mine + [rows[n]] == last[k..];
    SuffixIsShorter(last, k);
    LongerBatch(mine, rows[n]);
  }

  /** The packing uses as few statements as any way to write the rows in order under the same accounting. */
  lemma PackedIsMinimal(c: Config, rows: seq<string>, other: seq<seq<string>>)
    requires Split(c, rows, other)
    ensures Split(c, rows, Packed(c, rows)) && |Packed(c, rows)| <= |other|
  {
    PackedIsSplit(c, rows);
    PackedIsAhead(c, rows, other);
  }
}
