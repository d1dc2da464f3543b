/** Which lines of a table client/mysqldump.c moves to the ALTER TABLE, said of the lines as the server writes them. */
module MovedKeys {
  import opened Text
  import opened DeferredKeys
  import opened KeyText
  import opened KeyLines
  import opened KeyTextEditor
  import opened KeyDump

  /** A line is moved exactly when its definition is deferred at the end. */
  lemma MovedIff(t: TableText, hasPk: bool, i: nat)
    requires DistinctKeyNames(ClassifyAll(t.defs)) && i < |t.defs|
    ensures t.defs[i] in Added(t, hasPk) <==> DeferredAfter(ClassifyAll(t.defs), hasPk, i, |t.defs|)
    ensures t.defs[i] in Left(t, hasPk) <==> !DeferredAfter(ClassifyAll(t.defs), hasPk, i, |t.defs|)
  {
    hide Scanned, Classify, DeferredAfter;
    var defs, n := ClassifyAll(t.defs), |t.defs|;
    var s := Decided(t, hasPk);
    AllCoherent(t);
    SkippedIsDeferred(defs, hasPk, n);
    StaysIff(defs, hasPk, i);
    ReverseMultiset(Texts(s.skipped));
    assert t.defs[i] in Added(t, hasPk) <==> t.defs[i] in multiset(Texts(s.skipped));
    LeftIsReadAgain(t, hasPk);
    TextIsThere(s.kept, t.defs[i]);
    SkippedAreRead(t, hasPk);
    TextIsThere(s.skipped, t.defs[i]);
    if DeferredAfter(defs, hasPk, i, n) {
      DeferredHolds(defs, hasPk, n, n, i);
    } else if defs[i] in s.skipped {
      DeferredOrigin(defs, hasPk, n, n, defs[i]);
      var j :| 0 <= j < n && defs[j] == defs[i] && DeferredAfter(defs, hasPk, j, n);
      SameSkipped(defs, hasPk, i, j);
    }
  }

  lemma SameSkipped(defs: seq<Def>, hasPk: bool, i: nat, j: nat)
    requires i < |defs| && j < |defs| && Coherent(defs) && DistinctKeyNames(defs) && defs[i] == defs[j]
    requires DeferredAfter(defs, hasPk, j, |defs|)
    ensures DeferredAfter(defs, hasPk, i, |defs|)
  {
    SameKey(defs, i, j);
  }

  /** Definitions read from their texts are found by them. */
  lemma TextIsThere(ds: seq<Def>, x: string)
    requires forall d :: d in ds ==> d == Classify(d.text)
    ensures x in Texts(ds) <==> Classify(x) in ds
  {
    hide Classify;
    if x in Texts(ds) {
      var k :| 0 <= k < |ds| && Texts(ds)[k] == x;
      assert ds[k] in ds;
    }
    if Classify(x) in ds {
      var k :| 0 <= k < |ds| && ds[k] == Classify(x);
      assert Texts(ds)[k] == x;
    }
  }

  lemma SkippedAreRead(t: TableText, hasPk: bool)
    ensures forall d :: d in Decided(t, hasPk).kept || d in Decided(t, hasPk).skipped ==> d == Classify(d.text)
  {
    hide Scanned, Classify;
    var s, defs := Decided(t, hasPk), ClassifyAll(t.defs);
    DefinitionsConserved(defs, hasPk);
    forall d | d in s.kept || d in s.skipped ensures d == Classify(d.text) {
      assert d in multiset(s.kept) + multiset(s.skipped) && d in multiset(defs);
      assert d in defs;
    }
  }

  /** A key that is not unique is moved, unless it is the first one on the AUTO_INCREMENT column or a later constraint has
      its name. */
  lemma KeyMoves(t: TableText, hasPk: bool, i: nat, name: string, column: string, rest: string)
    requires DistinctKeyNames(ClassifyAll(t.defs)) && i < |t.defs| && name != "" && column != "" && (rest != "" ==> rest[0] != '`')
    requires t.defs[i] == SecondaryDef("KEY ", name, column, rest)
    ensures var defs := ClassifyAll(t.defs);
            t.defs[i] in Added(t, hasPk) <==> !ServesAutoinc(defs, i) && !NamedBelow(t, i, name)
    ensures t.defs[i] in Left(t, hasPk) <==> t.defs[i] !in Added(t, hasPk)
  {
    hide Classify, Added, Left, ServesAutoinc, Quoted;
    KeyLineIsRead(name, column, rest);
    MovedIff(t, hasPk, i);
  }

  /** A later line is a constraint of that name. */
  ghost predicate NamedBelow(t: TableText, i: nat, name: string) {
    exists k :: i < k < |t.defs| && Classify(t.defs[k]).constraint == Some(Quoted(name))
  }

  /** A unique key is moved under the same conditions, and only if it does not stand in for a primary key: the table has
      none, or a primary or unique key came before. */
  lemma UniqueMoves(t: TableText, hasPk: bool, i: nat, name: string, column: string, rest: string)
    requires DistinctKeyNames(ClassifyAll(t.defs)) && i < |t.defs| && name != "" && column != "" && (rest != "" ==> rest[0] != '`')
    requires t.defs[i] == SecondaryDef("UNIQUE KEY ", name, column, rest)
    ensures var defs := ClassifyAll(t.defs);
            t.defs[i] in Added(t, hasPk) <==>
            (hasPk ==> PkBefore(defs, hasPk, i)) && !ServesAutoinc(defs, i) && !NamedBelow(t, i, name)
    ensures t.defs[i] in Left(t, hasPk) <==> t.defs[i] !in Added(t, hasPk)
  {
    hide Classify, Added, Left, ServesAutoinc, Quoted, PkBefore;
    UniqueLineIsRead(name, column, rest);
    MovedIff(t, hasPk, i);
  }

  /** In particular behind the primary key's line. */
  lemma UniqueMovesBehindPrimary(t: TableText, hasPk: bool, j: nat, pk: string, more: string,
                                 i: nat, name: string, column: string, rest: string)
    requires DistinctKeyNames(ClassifyAll(t.defs)) && j < i < |t.defs| && name != "" && column != "" && (rest != "" ==> rest[0] != '`')
    requires pk != "" && (more != "" ==> more[0] != '`') && t.defs[j] == "PRIMARY KEY (`" + Quoted(pk) + "`" + more
    requires t.defs[i] == SecondaryDef("UNIQUE KEY ", name, column, rest)
    requires !ServesAutoinc(ClassifyAll(t.defs), i) && !NamedBelow(t, i, name)
    ensures t.defs[i] in Added(t, hasPk) && t.defs[i] !in Left(t, hasPk)
  {
    hide Classify, Added, Left, ServesAutoinc, Quoted;
    PrimaryLineIsRead(pk, more);
    assert ClassifyAll(t.defs)[j].kind.Primary?;
    UniqueMoves(t, hasPk, i, name, column, rest);
  }

  /** The primary key's line, a column's and a constraint's are never moved. */
  lemma PrimaryStays(t: TableText, hasPk: bool, i: nat, column: string, rest: string)
    requires DistinctKeyNames(ClassifyAll(t.defs)) && i < |t.defs| && column != "" && (rest != "" ==> rest[0] != '`')
    requires t.defs[i] == "PRIMARY KEY (`" + Quoted(column) + "`" + rest || t.defs[i] == "CONSTRAINT `" + Quoted(column) + "`" + rest
    ensures t.defs[i] in Left(t, hasPk) && t.defs[i] !in Added(t, hasPk)
  {
    hide Classify, Added, Left, Quoted;
    PrimaryLineIsRead(column, rest);
    ConstraintLineIsRead(column, rest);
    MovedIff(t, hasPk, i);
  }

  /** A key whose name a constraint below has stays. */
  lemma ConstraintKeepsKey(t: TableText, hasPk: bool, i: nat, k: nat, word: string, name: string, column: string, rest: string, more: string)
    requires DistinctKeyNames(ClassifyAll(t.defs)) && i < k < |t.defs| && name != "" && column != ""
    requires (rest != "" ==> rest[0] != '`') && (more != "" ==> more[0] != '`') && word in ["KEY ", "UNIQUE KEY "]
    requires t.defs[i] == SecondaryDef(word, name, column, rest) && t.defs[k] == "CONSTRAINT `" + Quoted(name) + "`" + more
    ensures t.defs[i] in Left(t, hasPk) && t.defs[i] !in Added(t, hasPk)
  {
    hide Classify, Added, Left, ServesAutoinc, Quoted, PkBefore, SecondaryDef;
    ConstraintLineIsRead(name, more);
    if word == "KEY " { KeyMoves(t, hasPk, i, name, column, rest); } else { UniqueMoves(t, hasPk, i, name, column, rest); }
  }
}
