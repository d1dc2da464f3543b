/** How the scan of client/mysqldump.c reads the lines the server writes: columns, keys and constraints, for every
    identifier. */
module KeyLines {
  import opened Text
  import opened DeferredKeys
  import opened KeyText

  // ---------- identifiers ----------

  /** A back-quote of the identifier is followed by some other character. */
  ghost predicate InnerQuote(id: string) { exists i :: 0 <= i < |id| - 1 && id[i] == '`' && id[i + 1] != '`' }

  /** What the loop that looks for the end of an AUTO_INCREMENT column's name makes of the identifier. */
  ghost function Remembered(id: string): string {
    if id == "" then ""
    else if id[0] == '`' && |id| > 1 && id[1] != '`' then "`"
    else (if id[0] == '`' then "``" else [id[0]]) + Remembered(id[1..])
  }

  lemma {:induction false} RememberedIsPrefix(id: string)
    ensures Remembered(id) <= Quoted(id) && (id != "" ==> Remembered(id) != "")
    ensures Remembered(id) == Quoted(id) <==> !InnerQuote(id)
  {
    if id != "" {
      RememberedIsPrefix(id[1..]);
      InnerQuoteCons(id);
    }
  }

  lemma InnerQuoteCons(id: string)
    requires id != ""
    ensures InnerQuote(id) <==> (id[0] == '`' && |id| > 1 && id[1] != '`') || InnerQuote(id[1..])
  {
    var r := id[1..];
    assert forall i :: 0 <= i < |r| ==> r[i] == id[i + 1];
    if InnerQuote(id) {
      var i :| 0 <= i < |id| - 1 && id[i] == '`' && id[i + 1] != '`';
      if i > 0 { assert r[i - 1] == '`' && r[i] != '`'; }
    }
    if InnerQuote(r) {
      var i :| 0 <= i < |r| - 1 && r[i] == '`' && r[i + 1] != '`';
      assert id[i + 1] == '`' && id[i + 1 + 1] != '`';
    }
  }

  /** Quoting keeps prefixes and invents none. */
  lemma {:induction false} QuotedPrefix(p: string, c: string)
    ensures p <= c <==> Quoted(p) <= Quoted(c)
    decreases |p|
  {
    if p != "" && c != "" {
      QuotedPrefix(p[1..], c[1..]);
      var a, b := if p[0] == '`' then "``" else [p[0]], if c[0] == '`' then "``" else [c[0]];
      if p[0] == c[0] {
        SamePrefix(a, Quoted(p[1..]), Quoted(c[1..]));
        SamePrefix([p[0]], p[1..], c[1..]);
        assert p == [p[0]] + p[1..] && c == [c[0]] + c[1..];
      } else {
        assert Quoted(p)[0] == a[0] != b[0] == Quoted(c)[0];
      }
    } else if c == "" && p != "" {
      assert |Quoted(p)| > 0;
    }
  }

  lemma SamePrefix(a: string, x: string, y: string)
    ensures a + x <= a + y <==> x <= y
  {
    assert (a + x)[|a|..] == x && (a + y)[|a|..] == y;
    if x <= y { assert (a + y)[..|a + x|] == a + x; }
    if a + x <= a + y { assert (a + y)[..|a + x|][|a|..] == y[..|x|]; }
  }

  lemma {:induction false} QuotedChars(id: string, ch: char)
    requires ch !in id
    ensures ch !in Quoted(id)
  {
    if id != "" { QuotedChars(id[1..], ch); }
  }

  // ---------- how lines are read ----------

  ghost function ColumnDef(id: string, rest: string): string { "`" + Quoted(id) + "`" + rest }

  ghost function KeyDef(name: string, column: string): string { "KEY `" + Quoted(name) + "` (`" + Quoted(column) + "`)" }

  /** What follows the first column is free: other columns, or the end. */
  ghost function SecondaryDef(word: string, name: string, column: string, rest: string): string {
    word + "`" + Quoted(name) + "` (`" + Quoted(column) + "`" + rest
  }

  /** The loop ends inside the identifier exactly at its first inner back-quote. */
  lemma {:induction false} NameEndIs(pre: string, id: string, rest: string)
    requires rest != "" && rest[0] != '`'
    ensures NameEnd(pre + Quoted(id) + "`" + rest, |pre|) == |pre| + |Remembered(id)|
    decreases |id|
  {
    var s, k := pre + Quoted(id) + "`" + rest, |pre|;
    if id == "" {
      assert s[k] == '`' && s[k + 1] == rest[0];
    } else {
      var head := if id[0] == '`' then "``" else [id[0]];
      assert s == (pre + head) + Quoted(id[1..]) + "`" + rest && s[k] == head[0];
      if id[0] == '`' {
        NextChar(pre + head, id[1..], rest);
        assert s[k + 1] == '`';
        if |id| > 1 && id[1] != '`' {
          assert NameEnd(s, k + 1) == k + 1;
        } else {
          NameEndIs(pre + head, id[1..], rest);
          assert NameEnd(s, k + 1) == NameEnd(s, k + 2);
        }
      } else {
        NameEndIs(pre + head, id[1..], rest);
      }
    }
  }

  lemma NextChar(pre: string, id: string, rest: string)
    ensures var s := pre + Quoted(id) + "`" + rest; |s| > |pre| && s[|pre|] == if id == "" then '`' else id[0]
  {
  }

  lemma QuotedSpan(pre: string, id: string, post: string)
    requires '`' !in pre && id != "" && (post != "" ==> post[0] != '`')
    ensures var s := pre + "`" + Quoted(id) + "`" + post;
            && QuotedIdent(s) == Some(Span(|pre|, |pre| + 1 + |Quoted(id)|)) && Name(s) == Some(Quoted(id))
            && s[|pre| + 2 + |Quoted(id)|..] == post
  {
    hide ClosingQuote, QuotedIdent, Quoted;
    QuotedIsLong(id);
    ClosingQuoteSkipsName(pre + "`", id, post);
    NameSlices(pre, Quoted(id), post);
    SpanAt(pre + "`" + Quoted(id) + "`" + post, |pre|, |pre| + 1 + |Quoted(id)|);
  }

  lemma QuotedIsLong(id: string)
    requires id != ""
    ensures Quoted(id) != ""
  {
  }

  lemma NameSlices(pre: string, q: string, post: string)
    ensures var s, n := pre + "`" + q + "`" + post, |pre|;
            && s[n] == '`' && (forall j :: 0 <= j < n ==> s[j] == pre[j])
            && s[n + 1..n + 1 + |q|] == q && s[n + 2 + |q|..] == post
  {
  }

  /** A column's line is read as that column; with the word AUTO_INCREMENT anywhere in it, it announces one. */
  lemma ColumnIsRead(id: string, rest: string)
    requires id != "" && rest != "" && rest[0] != '`'
    ensures var def := ColumnDef(id, rest);
            Classify(def) == Def(def, NoKey, Some(Quoted(id)), None,
                                 if Occurs(def, AUTO_INCREMENT) then Some(Remembered(id)) else None, None)
  {
    hide QuotedIdent, Name, AutoincColumn, Occurs, Kind, Quoted, ColumnDef, LeadColumn;
    ColumnParts(id, rest);
    QuotedSpan("", id, rest);
    ColumnAnnounces(id, rest);
    NoKeyAtQuote(ColumnDef(id, rest));
  }

  lemma ColumnParts(id: string, rest: string)
    ensures var def := ColumnDef(id, rest);
            def == "" + "`" + Quoted(id) + "`" + rest && def[0] == '`' && def[|def| - 1] == (if rest == "" then '`' else rest[|rest| - 1])
  {
    hide Quoted;
  }

  lemma NoKeyAtQuote(def: string)
    requires def != "" && def[0] == '`'
    ensures Kind(def) == NoKey && !(CONSTRAINT <= def) && LeadColumn(def, NoKey) == None
  {
  }

  lemma ColumnAnnounces(id: string, rest: string)
    requires id != "" && rest != "" && rest[0] != '`'
    ensures var def := ColumnDef(id, rest);
            AutoincColumn(def) == if Occurs(def, AUTO_INCREMENT) then Some(Remembered(id)) else None
  {
    hide Occurs, NameEnd, Remembered, Quoted;
    var def, m := ColumnDef(id, rest), Remembered(id);
    NameEndIs("`", id, rest);
    RememberedIsPrefix(id);
    assert def[0] == '`' && def[1..1 + |m|] == Quoted(id)[..|m|] == m;
  }

  /** The scan takes an AUTO_INCREMENT column by its name exactly when none of the name's back-quotes is followed by
      another character. */
  lemma AnnouncedIsName(id: string, rest: string)
    requires id != "" && rest != "" && rest[0] != '`' && Occurs(ColumnDef(id, rest), AUTO_INCREMENT)
    ensures AutoincColumn(ColumnDef(id, rest)) == Name(ColumnDef(id, rest)) <==> !InnerQuote(id)
  {
    hide Occurs, Name, AutoincColumn;
    ColumnIsRead(id, rest);
    RememberedIsPrefix(id);
  }

  // ---------- keys and constraints ----------

  lemma SecondaryNames(word: string, name: string, column: string, rest: string)
    requires '`' !in word && name != "" && column != "" && (rest != "" ==> rest[0] != '`')
    ensures var def := SecondaryDef(word, name, column, rest);
            && Name(def) == Some(Quoted(name))
            && LeadColumn(def, Unique) == Some(Quoted(column)) && LeadColumn(def, NonUnique) == Some(Quoted(column))
  {
    hide QuotedIdent, Name, Quoted, SecondaryDef;
    SecondaryParts(word, name, column, rest);
    QuotedSpan(word, name, " (" + "`" + Quoted(column) + "`" + rest);
    QuotedSpan(" (", column, rest);
  }

  lemma SecondaryParts(word: string, name: string, column: string, rest: string)
    ensures SecondaryDef(word, name, column, rest) == word + "`" + Quoted(name) + "`" + (" (" + "`" + Quoted(column) + "`" + rest)
  {
    hide Quoted;
  }

  lemma WordsOfSecondary(word: string, name: string, column: string, rest: string)
    ensures var def := SecondaryDef(word, name, column, rest);
            word <= def && (word != "" ==> def[0] == word[0]) && def != ""
  {
    var def := SecondaryDef(word, name, column, rest);
    assert def[..|word|] == word;
  }

  /** A line "KEY `n` (`c`…" is a key n on c that is not unique. */
  lemma KeyLineIsRead(name: string, column: string, rest: string)
    requires name != "" && column != "" && (rest != "" ==> rest[0] != '`')
    ensures var def := SecondaryDef("KEY ", name, column, rest);
            Classify(def) == Def(def, NonUnique, Some(Quoted(name)), Some(Quoted(column)), None, None)
  {
    hide QuotedIdent, Name, LeadColumn, Quoted, SecondaryDef, Occurs, NameEnd;
    WordsOfSecondary("KEY ", name, column, rest);
    SecondaryNames("KEY ", name, column, rest);
    FirstLetters(SecondaryDef("KEY ", name, column, rest));
  }

  /** A line "UNIQUE KEY `n` (`c`…" is a unique key n on c. */
  lemma UniqueLineIsRead(name: string, column: string, rest: string)
    requires name != "" && column != "" && (rest != "" ==> rest[0] != '`')
    ensures var def := SecondaryDef("UNIQUE KEY ", name, column, rest);
            Classify(def) == Def(def, Unique, Some(Quoted(name)), Some(Quoted(column)), None, None)
  {
    hide QuotedIdent, Name, LeadColumn, Quoted, SecondaryDef, Occurs, NameEnd;
    WordsOfSecondary("UNIQUE KEY ", name, column, rest);
    SecondaryNames("UNIQUE KEY ", name, column, rest);
    FirstLetters(SecondaryDef("UNIQUE KEY ", name, column, rest));
  }

  /** What the first letter of a line rules out. */
  lemma FirstLetters(def: string)
    requires def != ""
    ensures UNIQUE_KEY <= def ==> def[0] == 'U'
    ensures KEY <= def ==> def[0] == 'K'
    ensures PRIMARY_KEY <= def ==> def[0] == 'P'
    ensures CONSTRAINT <= def ==> def[0] == 'C'
    ensures AutoincColumn(def).Some? ==> def[0] == '`'
  {
    hide Occurs, NameEnd;
  }

  /** A line "PRIMARY KEY (`c`…" is the primary key, on c. */
  lemma PrimaryLineIsRead(column: string, rest: string)
    requires column != "" && (rest != "" ==> rest[0] != '`')
    ensures var def := "PRIMARY KEY (`" + Quoted(column) + "`" + rest;
            Classify(def) == Def(def, Primary, Some(Quoted(column)), Some(Quoted(column)), None, None)
  {
    hide QuotedIdent, Name, Quoted, Occurs, NameEnd;
    var def := "PRIMARY KEY (`" + Quoted(column) + "`" + rest;
    assert def == "PRIMARY KEY (" + "`" + Quoted(column) + "`" + rest;
    assert def[..12] == "PRIMARY KEY " && def[0] == 'P';
    QuotedSpan("PRIMARY KEY (", column, rest);
    FirstLetters(def);
  }

  /** A line "CONSTRAINT `n` …" is a constraint n and no key. */
  lemma ConstraintLineIsRead(name: string, rest: string)
    requires name != "" && (rest != "" ==> rest[0] != '`')
    ensures var def := "CONSTRAINT `" + Quoted(name) + "`" + rest;
            Classify(def) == Def(def, NoKey, Some(Quoted(name)), None, None, Some(Quoted(name)))
  {
    hide QuotedIdent, Name, Quoted, Occurs, NameEnd;
    var def := "CONSTRAINT `" + Quoted(name) + "`" + rest;
    assert def == "CONSTRAINT " + "`" + Quoted(name) + "`" + rest;
    assert def[..11] == "CONSTRAINT " && def[0] == 'C';
    QuotedSpan("CONSTRAINT ", name, rest);
    FirstLetters(def);
  }

  lemma KeyIsRead(name: string, column: string)
    requires name != "" && column != ""
    ensures var def := KeyDef(name, column);
            Classify(def) == Def(def, NonUnique, Some(Quoted(name)), Some(Quoted(column)), None, None)
  {
    hide Classify, Quoted;
    KeyLineIsRead(name, column, ")");
    assert KeyDef(name, column) == SecondaryDef("KEY ", name, column, ")");
  }
}
