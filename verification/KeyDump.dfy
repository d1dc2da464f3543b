/** A table's CREATE TABLE text and the ALTER TABLE that adds its secondary keys later, from the buffer the server's
    text arrives in to the two statements written out (client/mysqldump.c). */
module KeyDump {
  import opened Text
  import opened DeferredKeys
  import opened KeyText
  import opened KeyTextEditor

  ghost function Decided(t: TableText, hasPk: bool): Scan { Scanned(ClassifyAll(t.defs), hasPk, |t.defs|) }

  /** The definitions the CREATE TABLE keeps and those the ALTER TABLE adds. */
  ghost function Left(t: TableText, hasPk: bool): seq<string> { Texts(Decided(t, hasPk).kept) }
  ghost function Added(t: TableText, hasPk: bool): seq<string> { Reverse(Texts(Decided(t, hasPk).skipped)) }

  /** `skip_secondary_keys` on the text of a table, and `dump_skipped_keys` after its rows. */
  method DumpTable(buf: array<char>, len: nat, hasPk: bool, table: string, ghost t: TableText)
    returns (create: string, alter: string)
    requires Shape(t) && len == |FullText(t)| < buf.Length && buf[len] == NUL && buf[..len] == FullText(t)
    modifies buf
    ensures create == ReducedText(t, hasPk)
    ensures alter == if Added(t, hasPk) == [] then "" else "ALTER TABLE " + table + " ADD " + Join(Added(t, hasPk), ", ADD ") + ";\n"
    ensures forall j :: len < j < buf.Length ==> buf[j] == old(buf[j])
  {
    hide ReducedText, FullText, Shape, Join, Scanned;
    var scanner := new KeyScanner(buf, hasPk, len);
    assert scanner.Rest() == buf[..len];
    scanner.SkipSecondaryKeys(t);
    create := buf[..scanner.strend];
    alter := scanner.DumpSkippedKeys(table);
  }

  /** The text of a table: its header, its definitions with a comma and a line break between them, its closing part. */
  lemma FullTextIs(t: TableText)
    requires t.defs != []
    ensures FullText(t) == t.header + "\n  " + Join(t.defs, ",\n  ") + "\n" + t.tail
  {
    ListedIs(t.defs);
    assert t.header + "\n" + ("  " + Join(t.defs, ",\n  ") + "\n") + t.tail == t.header + "\n  " + Join(t.defs, ",\n  ") + "\n" + t.tail;
  }

  lemma {:induction false} ListedIs(defs: seq<string>)
    requires defs != []
    ensures Listed(defs) == "  " + Join(defs, ",\n  ") + "\n"
    decreases |defs|
  {
    if |defs| > 1 {
      ListedIs(defs[1..]);
      var rest := Join(defs[1..], ",\n  ");
      assert "  " + defs[0] + ",\n" + ("  " + rest + "\n") == "  " + (defs[0] + ",\n  " + rest) + "\n";
    }
  }

  // ---------- nothing is lost ----------

  lemma TextsSnoc(ds: seq<Def>, n: nat)
    requires n < |ds|
    ensures multiset(Texts(ds[..n + 1])) == multiset(Texts(ds[..n])) + multiset{ds[n].text}
  {
    assert Texts(ds[..n + 1]) == Texts(ds[..n]) + [ds[n].text];
  }

  /** How often a text occurs is how often definitions with that text do. */
  ghost function Times(ds: multiset<Def>, text: string): nat
    decreases |ds|
  {
    if ds == multiset{} then 0
    else
      var d :| d in ds;
      Times(ds - multiset{d}, text) + if d.text == text then 1 else 0
  }

  lemma {:induction false} TimesWithout(ds: multiset<Def>, d: Def, text: string)
    requires d in ds
    ensures Times(ds, text) == Times(ds - multiset{d}, text) + if d.text == text then 1 else 0
    decreases |ds|
  {
    var e :| e in ds && Times(ds, text) == Times(ds - multiset{e}, text) + if e.text == text then 1 else 0;
    hide Times;
    if e != d {
      EitherFirst(ds, d, e);
      TimesWithout(ds - multiset{e}, d, text);
      TimesWithout(ds - multiset{d}, e, text);
    }
  }

  lemma EitherFirst<T>(s: multiset<T>, x: T, y: T)
    requires x in s && y in s && x != y
    ensures x in s - multiset{y} && y in s - multiset{x} && |s - multiset{x}| < |s| && |s - multiset{y}| < |s|
    ensures s - multiset{y} - multiset{x} == s - multiset{x} - multiset{y}
  {
  }

  lemma LastTaken<T>(s: seq<T>)
    requires s != []
    ensures var n := |s| - 1; s[..n + 1] == s && s[n] in multiset(s) && multiset(s) - multiset{s[n]} == multiset(s[..n])
  {
    MultisetSnoc(s, |s| - 1);
    assert s[..|s|] == s;
  }

  lemma {:induction false} TextsCount(ds: seq<Def>, text: string)
    ensures multiset(Texts(ds))[text] == Times(multiset(ds), text)
    decreases |ds|
  {
    if ds != [] {
      var n := |ds| - 1;
      hide Times, Texts;
      TextsSnoc(ds, n);
      LastTaken(ds);
      TextsCount(ds[..n], text);
      TimesWithout(multiset(ds), ds[n], text);
    }
  }

  lemma {:induction false} ReverseMultiset<T>(s: seq<T>)
    ensures multiset(Reverse(s)) == multiset(s)
    decreases |s|
  {
    if s != [] {
      ReverseMultiset(s[1..]);
      assert s == [s[0]] + s[1..];
    }
  }

  /** Every definition of the table is in the CREATE TABLE or in the ALTER TABLE, as often as in the table. */
  lemma NothingIsLost(t: TableText, hasPk: bool)
    ensures multiset(Left(t, hasPk)) + multiset(Added(t, hasPk)) == multiset(t.defs)
  {
    hide Scanned, Classify;
    var s, defs := Decided(t, hasPk), ClassifyAll(t.defs);
    DefinitionsConserved(defs, hasPk);
    ReverseMultiset(Texts(s.skipped));
    TextsConcat(s.kept, s.skipped);
    assert multiset(s.kept + s.skipped) == multiset(defs);
    forall x ensures multiset(Texts(s.kept + s.skipped))[x] == multiset(Texts(defs))[x] {
      TextsCount(s.kept + s.skipped, x);
      TextsCount(defs, x);
    }
    AllTexts(t.defs);
  }

  lemma AllTexts(defs: seq<string>)
    ensures Texts(ClassifyAll(defs)) == defs
  {
  }

  /** The ALTER TABLE adds the moved keys in the order of the table. */
  lemma AddedInTableOrder(t: TableText, hasPk: bool)
    requires DistinctKeyNames(ClassifyAll(t.defs))
    ensures Added(t, hasPk) == Texts(InTableOrder(ClassifyAll(t.defs), hasPk, |t.defs|))
  {
    hide Scanned, Classify, InTableOrder;
    var defs := ClassifyAll(t.defs);
    forall i | 0 <= i < |defs| ensures CoherentDef(defs[i]) { ClassifyCoherent(t.defs[i]); }
    MovedKeysKeepOrder(defs, hasPk);
    ReverseTexts(Decided(t, hasPk).skipped);
  }

  lemma {:induction false} ReverseTexts(ds: seq<Def>)
    ensures Reverse(Texts(ds)) == Texts(Reverse(ds))
    decreases |ds|
  {
    if ds != [] {
      ReverseTexts(ds[1..]);
      assert Texts(ds)[1..] == Texts(ds[1..]);
      TextsConcat(Reverse(ds[1..]), [ds[0]]);
    }
  }

  // ---------- the reduced text is a table text ----------

  lemma Regrouped(a: string, b: string, c: string)
    ensures a + b + "  " + c + "" + "\n" == a + (b + "  " + c + "" + "\n")
  {
  }

  lemma TailsAgree(ds: seq<string>)
    requires |ds| > 1
    ensures var n := |ds| - 1; ds[..n][1..] == ds[1..][..n - 1] && ds[1..][n - 1] == ds[n] && ds[..n][0] == ds[0]
  {
  }

  lemma LinesCons(ds: seq<string>)
    requires ds != []
    ensures Lines(ds) == Line(ds[0]) + Lines(ds[1..])
  {
  }

  lemma EndedCons(ds: seq<string>)
    requires |ds| > 1
    ensures Ended(ds, "") == Line(ds[0]) + Ended(ds[1..], "")
  {
    hide Line, Lines;
    var n := |ds| - 1;
    TailsAgree(ds);
    LinesCons(ds[..n]);
    Regrouped(Line(ds[0]), Lines(ds[1..][..n - 1]), ds[n]);
  }

  lemma ListedCons(ds: seq<string>)
    requires ds != []
    ensures Listed(ds) == if |ds| == 1 then Ended(ds, "") else Line(ds[0]) + Listed(ds[1..])
  {
    hide Line;
    if |ds| == 1 {
      assert ds[..0] == [];
      Bare(ds[0]);
    }
  }

  lemma Bare(d: string)
    ensures "" + "  " + d + "" + "\n" == "  " + d + "\n"
  {
  }

  lemma {:induction false} EndedIsListed(ds: seq<string>)
    requires ds != []
    ensures Ended(ds, "") == Listed(ds)
    decreases |ds|
  {
    hide Line, Ended, Listed;
    ListedCons(ds);
    if |ds| > 1 {
      EndedIsListed(ds[1..]);
      EndedCons(ds);
    }
  }

  lemma EndedWithPad(ds: seq<string>, e: string)
    requires ds != []
    ensures Ended(ds, e) == Ended(ds[..|ds| - 1] + [ds[|ds| - 1] + e], "")
  {
    var n := |ds| - 1;
    assert (ds[..n] + [ds[n] + e])[..n] == ds[..n];
    assert Lines(ds[..n]) + "  " + ds[n] + e + "\n" == Lines(ds[..n]) + "  " + (ds[n] + e) + "" + "\n";
  }

  lemma {:induction false} FirstStays(defs: seq<string>, hasPk: bool, n: nat)
    requires 0 < n <= |defs| && defs[0] != "" && defs[0][0] == '`'
    ensures Scanned(ClassifyAll(defs), hasPk, n).kept != []
    decreases n
  {
    hide Classify;
    if n == 1 {
      ColumnStays(defs[0], START, hasPk);
      assert Scanned(ClassifyAll(defs), hasPk, 0) == START;
    } else {
      FirstStays(defs, hasPk, n - 1);
    }
  }

  /** The lines of the CREATE TABLE written. */
  ghost function Written(t: TableText, hasPk: bool): seq<string>
    requires t.defs != []
  {
    var ds := Left(t, hasPk);
    if ds == [] then [] else ds[..|ds| - 1] + [ds[|ds| - 1] + Pad(t.defs, hasPk)]
  }

  /** Same header, same closing part, and between them the kept definitions as the server would list them; a blank
      stands behind the last one when the line that followed it was taken out. */
  lemma ReducedIsTable(t: TableText, hasPk: bool)
    requires Shape(t)
    ensures Left(t, hasPk) != []
    ensures ReducedText(t, hasPk) == FullText(TableText(t.header, Written(t, hasPk), t.tail))
  {
    hide Ended, Listed, Pad, Scanned;
    FirstStays(t.defs, hasPk, |t.defs|);
    var ds, e := Left(t, hasPk), Pad(t.defs, hasPk);
    EndedWithPad(ds, e);
    EndedIsListed(ds[..|ds| - 1] + [ds[|ds| - 1] + e]);
  }

  // ---------- keys in the CREATE TABLE written ----------

  /** What stays is read from its text as it was read in the table. */
  lemma LeftIsReadAgain(t: TableText, hasPk: bool)
    ensures ClassifyAll(Left(t, hasPk)) == Decided(t, hasPk).kept
  {
    hide Scanned, Classify;
    var s, defs := Decided(t, hasPk), ClassifyAll(t.defs);
    DefinitionsConserved(defs, hasPk);
    forall i | 0 <= i < |s.kept| ensures Classify(s.kept[i].text) == s.kept[i] {
      assert s.kept[i] in multiset(s.kept) && s.kept[i] in multiset(defs);
      assert s.kept[i] in defs;
    }
  }

  lemma AllCoherent(t: TableText)
    ensures Coherent(ClassifyAll(t.defs))
  {
    hide Classify, CoherentDef;
    forall i | 0 <= i < |t.defs| ensures CoherentDef(ClassifyAll(t.defs)[i]) { ClassifyCoherent(t.defs[i]); }
  }

  lemma PaddedKeyOn(s: string, e: string, a: string)
    requires s != "" && (e == " " || e == "")
    ensures KeyOn(Classify(s + e), a) <==> KeyOn(Classify(s), a)
  {
    hide LeadColumn, AutoincColumn, Name, Kind, BareWord;
    if e == "" {
      assert s + e == s;
    } else if BareWord(s) {
      BareWordLeads(s, Kind(s));
      BareWordLeads(s, Kind(s + " "));
    } else {
      ClassifyBlank(s);
    }
  }

  /** The blank behind the last line changes no key. */
  lemma WrittenKeyOn(t: TableText, hasPk: bool, a: string)
    requires Shape(t)
    ensures HasKeyOn(ClassifyAll(Written(t, hasPk)), a) <==> HasKeyOn(ClassifyAll(Left(t, hasPk)), a)
  {
    hide *;
    HasDefs(t);
    ReducedIsTable(t, hasPk);
    var n := |Left(t, hasPk)| - 1;
    var x, e := Left(t, hasPk)[n], Pad(t.defs, hasPk);
    LeftIsNotEmpty(t, hasPk, n);
    WrittenIs(t, hasPk);
    PaddedKeyOn(x, e, a);
    LastReplaced(Left(t, hasPk)[..n], x, x + e, a);
  }

  lemma WrittenIs(t: TableText, hasPk: bool)
    requires t.defs != [] && Left(t, hasPk) != []
    ensures var ds, e := Left(t, hasPk), Pad(t.defs, hasPk);
            && Written(t, hasPk) == ds[..|ds| - 1] + [ds[|ds| - 1] + e] && ds == ds[..|ds| - 1] + [ds[|ds| - 1]]
            && (e == " " || e == "")
  {
    hide Left, Scanned, Classify;
  }

  lemma LastReplaced(ds: seq<string>, x: string, y: string, a: string)
    requires KeyOn(Classify(x), a) <==> KeyOn(Classify(y), a)
    ensures HasKeyOn(ClassifyAll(ds + [x]), a) <==> HasKeyOn(ClassifyAll(ds + [y]), a)
  {
    hide Classify, KeyOn;
    assert ClassifyAll(ds + [x]) == ClassifyAll(ds) + [Classify(x)];
    assert ClassifyAll(ds + [y]) == ClassifyAll(ds) + [Classify(y)];
  }

  lemma HasDefs(t: TableText)
    requires Shape(t)
    ensures t.defs != []
  {
  }

  lemma LeftIsNotEmpty(t: TableText, hasPk: bool, n: nat)
    requires Shape(t) && n < |Left(t, hasPk)|
    ensures Left(t, hasPk)[n] != ""
  {
    hide Scanned, Classify;
    NothingIsLost(t, hasPk);
    var x := Left(t, hasPk)[n];
    assert x in multiset(Left(t, hasPk)) && x in multiset(t.defs);
  }

  /** The CREATE TABLE written has a key on column a exactly when one of the table's keys on a is the primary key or
      stands in for it, is the first key matching its AUTO_INCREMENT column, or is named by a later constraint. */
  lemma WrittenKeyOnIff(t: TableText, hasPk: bool, a: string)
    requires Shape(t) && DistinctKeyNames(ClassifyAll(t.defs))
    ensures HasKeyOn(ClassifyAll(Written(t, hasPk)), a) <==>
            exists i :: 0 <= i < |t.defs| && SafeKeyOn(ClassifyAll(t.defs), hasPk, i, a)
  {
    hide Scanned, Classify, SafeKeyOn, HasKeyOn, Shape, Written;
    AllCoherent(t);
    LeftIsReadAgain(t, hasPk);
    WrittenKeyOn(t, hasPk, a);
    KeyOnStaysIff(ClassifyAll(t.defs), hasPk, a);
  }
}
