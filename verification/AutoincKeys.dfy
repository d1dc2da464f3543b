/** When the CREATE TABLE that client/mysqldump.c writes without secondary keys still has a key on its AUTO_INCREMENT
    column, without which the server refuses it: a theorem with three provisos, and for each of them the tables that
    lose their key without it. */
module AutoincKeys {
  import opened Text
  import opened DeferredKeys
  import opened KeyText
  import opened KeyLines
  import opened KeyTextEditor
  import opened KeyDump

  // ---------- the key stays ----------

  /** If column k of the table is its AUTO_INCREMENT column and a key below leads with it, the CREATE TABLE written has
      such a key, provided (1) no back-quote of the column's name is followed by another character, (2) no column below
      has the word AUTO_INCREMENT anywhere in its line, (3) no key below leads with a proper prefix of the column. */
  lemma WrittenAutoincKeyStays(t: TableText, hasPk: bool, k: nat, id: string, rest: string)
    requires Shape(t) && DistinctKeyNames(ClassifyAll(t.defs))
    requires k < |t.defs| && t.defs[k] == ColumnDef(id, rest) && id != "" && rest != "" && rest[0] != '`'
    requires Occurs(t.defs[k], AUTO_INCREMENT)
    requires exists i :: k < i < |t.defs| && KeyOn(Classify(t.defs[i]), Quoted(id))
    requires !InnerQuote(id)
    requires forall j :: k < j < |t.defs| && t.defs[j][0] == '`' ==> !Occurs(t.defs[j], AUTO_INCREMENT)
    requires forall j :: k < j < |t.defs| ==> !LeadsWithPart(t.defs[j], Quoted(id))
    ensures HasKeyOn(ClassifyAll(Written(t, hasPk)), Quoted(id))
  {
    hide Scanned, Classify, HasKeyOn, Shape, Written, KeyOn, Occurs, LeadsWithPart, InnerQuote, Quoted;
    var defs, a := ClassifyAll(t.defs), Quoted(id);
    ColumnIsRead(id, rest);
    RememberedIsPrefix(id);
    var i :| k < i < |t.defs| && KeyOn(Classify(t.defs[i]), a);
    assert KeyOn(defs[i], a);
    forall j | k < j < |defs| ensures defs[j].autoinc.None? { NothingAnnounced(t.defs[j]); }
    forall j | k < j < |defs| && LeadsWith(defs[j], Some(a)) ensures defs[j].lead == Some(a) { WholeOrPart(t.defs[j], a); }
    AllCoherent(t);
    LeftIsReadAgain(t, hasPk);
    AutoincKeyStays(defs, hasPk, k, a);
    WrittenKeyOn(t, hasPk, a);
  }

  /** The line is a key whose first column is a proper prefix of a. */
  ghost predicate LeadsWithPart(def: string, a: string) {
    !Kind(def).NoKey? && LeadColumn(def, Kind(def)).Some? && LeadColumn(def, Kind(def)).value < a
  }

  lemma NothingAnnounced(def: string)
    requires def != "" && def[0] == '`' ==> !Occurs(def, AUTO_INCREMENT)
    ensures Classify(def).autoinc.None?
  {
    hide Occurs, NameEnd, Kind, Name, LeadColumn;
  }

  lemma WholeOrPart(def: string, a: string)
    requires !LeadsWithPart(def, a) && LeadsWith(Classify(def), Some(a))
    ensures Classify(def).lead == Some(a)
  {
    hide Occurs, NameEnd, Kind, Name, LeadColumn, AutoincColumn;
    var p := LeadColumn(def, Kind(def)).value;
    assert a[..|p|] == p && a[..|a|] == a;
  }

  // ---------- tables that lose their key ----------

  const AUTO := " int AUTO_INCREMENT"
  const PLAIN := " int"
  const REMARK := " int COMMENT 'AUTO_INCREMENT'"

  ghost predicate Identifier(id: string) { id != "" && '\n' !in id && NUL !in id }

  ghost function Table(defs: seq<string>): TableText { TableText("CREATE TABLE `t` (", defs, ") ENGINE=InnoDB") }

  lemma Announcing(id: string)
    ensures Occurs(ColumnDef(id, AUTO), AUTO_INCREMENT) && Occurs(ColumnDef(id, REMARK), AUTO_INCREMENT)
  {
    var a, b, n := ColumnDef(id, AUTO), ColumnDef(id, REMARK), |Quoted(id)| + 2;
    assert a[n + 5..n + 5 + |AUTO_INCREMENT|] == AUTO_INCREMENT && MatchesAt(a, AUTO_INCREMENT, n + 5);
    assert b[n + 14..n + 14 + |AUTO_INCREMENT|] == AUTO_INCREMENT && MatchesAt(b, AUTO_INCREMENT, n + 14);
  }

  lemma KeyIsPlain(name: string, column: string)
    requires Identifier(name) && Identifier(column)
    ensures KeyDef(name, column) != "" && PlainLine(KeyDef(name, column)) && KeyDef(name, column)[0] == 'K'
  {
    QuotedChars(name, '\n');
    QuotedChars(name, NUL);
    QuotedChars(column, '\n');
    QuotedChars(column, NUL);
    var k := KeyDef(name, column);
    assert k[0] == 'K' && k[|k| - 1] == ')';
  }

  lemma ColumnIsPlain(id: string, rest: string)
    requires Identifier(id) && rest in [AUTO, PLAIN, REMARK]
    ensures ColumnDef(id, rest) != "" && PlainLine(ColumnDef(id, rest)) && ColumnDef(id, rest)[0] == '`'
  {
    hide Quoted, ColumnDef;
    QuotedChars(id, '\n');
    QuotedChars(id, NUL);
    ColumnParts(id, rest);
    NothingOdd("`", Quoted(id), rest);
  }

  lemma NothingOdd(a: string, q: string, rest: string)
    requires a == "`" && rest in [AUTO, PLAIN, REMARK] && '\n' !in q && NUL !in q
    ensures '\n' !in "" + a + q + a + rest && NUL !in "" + a + q + a + rest
  {
    assert '\n' !in rest && NUL !in rest;
  }

  lemma TableIsShaped(defs: seq<string>)
    requires |defs| > 1 && defs[0] != "" && defs[0][0] == '`'
    requires forall i :: 0 <= i < |defs| ==> PlainLine(defs[i]) && defs[i][0] != ')'
    ensures Shape(Table(defs))
  {
    hide PlainLine;
    HeaderIsPlain(Table(defs).header);
  }

  lemma HeaderIsPlain(header: string)
    requires header == "CREATE TABLE `t` ("
    ensures PlainLine(header) && !(CONSTRAINT <= header)
  {
    assert header[1] == 'R' && CONSTRAINT[1] == 'O' && header[|header| - 1] == '(';
  }

  /** A table that has a key on column c and is written without one. */
  ghost predicate LosesKey(t: TableText, hasPk: bool, c: string) {
    && Shape(t) && DistinctKeyNames(ClassifyAll(t.defs)) && HasKeyOn(ClassifyAll(t.defs), Quoted(c))
    && !HasKeyOn(ClassifyAll(Written(t, hasPk)), Quoted(c))
  }

  /** A table whose only key on column c is its last line, a secondary one, keeps it iff it serves AUTO_INCREMENT. */
  lemma LastKeyStaysIff(t: TableText, hasPk: bool, c: string)
    requires Shape(t) && DistinctKeyNames(ClassifyAll(t.defs))
    requires var defs, n := ClassifyAll(t.defs), |t.defs| - 1;
             && defs[n].kind.NonUnique? && defs[n].lead == Some(Quoted(c))
             && forall i :: 0 <= i < n ==> !KeyOn(defs[i], Quoted(c))
    ensures HasKeyOn(ClassifyAll(t.defs), Quoted(c))
    ensures HasKeyOn(ClassifyAll(Written(t, hasPk)), Quoted(c)) <==> ServesAutoinc(ClassifyAll(t.defs), |t.defs| - 1)
  {
    hide Classify, Scanned, Shape, Written, ServesAutoinc;
    HasDefs(t);
    var defs, n := ClassifyAll(t.defs), |t.defs| - 1;
    assert KeyOn(defs[n], Quoted(c)) && defs[n] in defs;
    WrittenKeyOnIff(t, hasPk, Quoted(c));
    assert SafeKeyOn(defs, hasPk, n, Quoted(c)) <==> ServesAutoinc(defs, n);
  }

  /** Without proviso (1): the table of one AUTO_INCREMENT column and a key on it keeps the key exactly when no
      back-quote of the column's name is followed by another character. */
  lemma InnerQuoteLosesKey(hasPk: bool, y: string, c: string)
    requires Identifier(y) && Identifier(c)
    ensures LosesKey(Table([ColumnDef(c, AUTO), KeyDef(y, c)]), hasPk, c) <==> InnerQuote(c)
  {
    hide Classify, Scanned, KeyDef, ColumnDef, Shape, Written, Occurs, HasKeyOn, InnerQuote, Quoted, PlainLine;
    var ds := [ColumnDef(c, AUTO), KeyDef(y, c)];
    var t, defs := Table(ds), ClassifyAll(ds);
    ColumnIsPlain(c, AUTO);
    KeyIsPlain(y, c);
    TableIsShaped(ds);
    ColumnIsRead(c, AUTO);
    Announcing(c);
    KeyIsRead(y, c);
    LastKeyStaysIff(t, hasPk, c);
    RememberedIsPrefix(c);
    assert AwaitsKey(defs, 0, 1, Remembered(c));
    assert ServesAutoinc(defs, 1) <==> LeadsWith(defs[1], Some(Remembered(c)));
  }

  /** Without proviso (2): the key on c is lost when another column x says AUTO_INCREMENT in its comment. */
  lemma RemarkLosesKey(hasPk: bool, c: string, x: string, y: string)
    requires Identifier(c) && Identifier(x) && Identifier(y) && !(c <= x)
    ensures LosesKey(Table([ColumnDef(c, AUTO), ColumnDef(x, REMARK), KeyDef(y, c)]), hasPk, c)
  {
    hide Classify, Scanned, KeyDef, ColumnDef, Shape, Written, Occurs, HasKeyOn, Quoted, PlainLine;
    var ds := [ColumnDef(c, AUTO), ColumnDef(x, REMARK), KeyDef(y, c)];
    var t, defs := Table(ds), ClassifyAll(ds);
    ColumnIsPlain(c, AUTO);
    ColumnIsPlain(x, REMARK);
    KeyIsPlain(y, c);
    TableIsShaped(ds);
    ColumnIsRead(c, AUTO);
    ColumnIsRead(x, REMARK);
    Announcing(x);
    KeyIsRead(y, c);
    LastKeyStaysIff(t, hasPk, c);
    RememberedIsPrefix(x);
    QuotedPrefix(c, x);
    PrefixOfPrefix(Quoted(c), Remembered(x), Quoted(x));
    assert !LeadsWith(defs[2], Some(Remembered(x)));
    LastAnnounced(defs, 2, Remembered(x));
  }

  /** The column announced last is the one that awaits its key. */
  lemma LastAnnounced(defs: seq<Def>, n: nat, r: string)
    requires 0 < n <= |defs| && defs[n - 1].autoinc == Some(r)
    ensures forall k, a :: 0 <= k < n && AwaitsKey(defs, k, n, a) ==> a == r
  {
    forall k, a | 0 <= k < n && AwaitsKey(defs, k, n, a) ensures a == r { LaterAnnounced(defs, k, n - 1, n, a); }
  }

  lemma PrefixOfPrefix(a: string, b: string, c: string)
    requires b <= c
    ensures a <= b ==> a <= c
  {
    if a <= b { assert c[..|b|][..|a|] == c[..|a|]; }
  }

  /** Without proviso (3): the key on c is lost when a key on a proper prefix p of c comes first. */
  lemma PrefixColumnLosesKey(hasPk: bool, x: string, p: string, y: string, c: string)
    requires Identifier(x) && Identifier(y) && x != y && Identifier(p) && Identifier(c) && p < c
    ensures LosesKey(Table([ColumnDef(p, PLAIN), ColumnDef(c, AUTO), KeyDef(x, p), KeyDef(y, c)]), hasPk, c)
  {
    hide Classify, Scanned, KeyDef, ColumnDef, Shape, Written, Occurs, HasKeyOn, Quoted, PlainLine;
    var ds := [ColumnDef(p, PLAIN), ColumnDef(c, AUTO), KeyDef(x, p), KeyDef(y, c)];
    var t, defs := Table(ds), ClassifyAll(ds);
    ColumnIsPlain(p, PLAIN);
    ColumnIsPlain(c, AUTO);
    KeyIsPlain(x, p);
    KeyIsPlain(y, c);
    TableIsShaped(ds);
    ColumnIsRead(p, PLAIN);
    ColumnIsRead(c, AUTO);
    Announcing(c);
    KeyIsRead(x, p);
    KeyIsRead(y, c);
    QuotedPrefix(p, c);
    QuotedPrefix(c, p);
    QuotedPrefix(x, y);
    QuotedPrefix(y, x);
    LastKeyStaysIff(t, hasPk, c);
    RememberedIsPrefix(c);
    TakenBefore(defs, Quoted(p), Quoted(c), Remembered(c));
  }

  /** Two keys below an AUTO_INCREMENT column: when the second one matches it, so does the first. */
  lemma TakenBefore(defs: seq<Def>, p: string, c: string, r: string)
    requires |defs| == 4 && defs[1].autoinc == Some(r) && defs[2].autoinc.None? && p <= c && r <= c
    requires defs[2].kind.NonUnique? && defs[2].lead == Some(p) && defs[3].kind.NonUnique? && defs[3].lead == Some(c)
    ensures !ServesAutoinc(defs, 3)
  {
    forall k, a | 0 <= k < 3 && AwaitsKey(defs, k, 3, a) ensures k == 1 && a == r {
      LaterAnnounced(defs, k, 1, 3, a);
    }
    assert c <= r ==> p <= r;
    assert LeadsWith(defs[3], Some(r)) ==> LeadsWith(defs[2], Some(r));
    assert !AwaitsKey(defs, 1, 3, r) || !LeadsWith(defs[3], Some(r));
  }

  lemma LaterAnnounced(defs: seq<Def>, k: nat, j: nat, n: nat, a: string)
    requires k < n <= |defs| && j < n && AwaitsKey(defs, k, n, a) && defs[j].autoinc.Some?
    ensures j <= k
  {
  }
}
