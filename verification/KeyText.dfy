/** How the scan of client/mysqldump.c reads a definition line: quoted identifiers, the kind
    of key, the first indexed column, the AUTO_INCREMENT column. */
module KeyText {
  import opened Text
  import opened DeferredKeys

  // ---------- quoted identifiers ----------

  /** Position of the back-tick that closes an identifier, scanning from k;
      a doubled back-tick is part of the identifier. */
  function ClosingQuote(s: string, k: nat): (r: Option<nat>)
    decreases |s| - k
    ensures r.Some? ==> k <= r.value < |s| && s[r.value] == '`'
  {
    if k >= |s| then None
    else if s[k] != '`' then ClosingQuote(s, k + 1)
    else if k + 1 < |s| && s[k + 1] == '`' then ClosingQuote(s, k + 2)
    else Some(k)
  }

  /** `strchr` from position k; |s| when the character does not occur. */
  function IndexFrom(s: string, c: char, k: nat): (r: nat)
    requires k <= |s|
    ensures k <= r <= |s| && (r < |s| ==> s[r] == c)
    ensures forall j :: k <= j < r ==> s[j] != c
    decreases |s| - k
  {
    if k == |s| || s[k] == c then k else IndexFrom(s, c, k + 1)
  }

  datatype Span = Span(from: nat, to: nat)

  /** The first quoted identifier of s: its opening and closing quote. */
  function QuotedIdent(s: string): (r: Option<Span>)
    ensures r.Some? ==> r.value.from + 1 < r.value.to < |s|
  {
    var from := IndexFrom(s, '`', 0);
    if from == |s| then None else
    match ClosingQuote(s, from + 1)
    case None => None
    case Some(to) => if to <= from + 1 then None else Some(Span(from, to))
  }

  method ParseQuotedIdentifier(s: string) returns (r: Option<Span>)
    ensures r == QuotedIdent(s)
  {
    var from := IndexFrom(s, '`', 0);
    if from == |s| { return None; }
    var to := IndexFrom(s, '`', from + 1);
    ClosingFromIndex(s, from + 1);
    while to < |s| && to + 1 < |s| && s[to + 1] == '`'
      invariant from < to <= |s|
      invariant to < |s| ==> s[to] == '`' && ClosingQuote(s, from + 1) == ClosingQuote(s, to)
      invariant to == |s| ==> ClosingQuote(s, from + 1) == None
      decreases |s| - to
    {
      ClosingFromIndex(s, to + 2);
      to := IndexFrom(s, '`', to + 2);
    }
    if to == |s| || to <= from + 1 { return None; }
    return Some(Span(from, to));
  }

  lemma {:induction false} ClosingFromIndex(s: string, k: nat)
    requires k <= |s|
    ensures var i := IndexFrom(s, '`', k); ClosingQuote(s, k) == if i < |s| then ClosingQuote(s, i) else None
    decreases |s| - k
  {
    if k < |s| && s[k] != '`' { ClosingFromIndex(s, k + 1); }
  }

  /** The text between the quotes of the first quoted identifier. */
  function Name(s: string): Option<string> {
    match QuotedIdent(s)
    case None => None
    case Some(sp) => Some(s[sp.from + 1..sp.to])
  }

  /** An identifier as the server writes it: every back-tick doubled. */
  function Quoted(id: string): string {
    if id == "" then "" else (if id[0] == '`' then "``" else [id[0]]) + Quoted(id[1..])
  }

  lemma {:induction false} ClosingQuoteSkipsName(pre: string, id: string, post: string)
    requires post != "" ==> post[0] != '`'
    ensures ClosingQuote(pre + Quoted(id) + "`" + post, |pre|) == Some(|pre| + |Quoted(id)|)
    decreases |id|
  {
    var s := pre + Quoted(id) + "`" + post;
    if id == "" {
      assert s[|pre|] == '`';
      assert |pre| + 1 < |s| ==> s[|pre| + 1] == post[0];
    } else {
      var head := if id[0] == '`' then "``" else [id[0]];
      assert Quoted(id) == head + Quoted(id[1..]);
      ClosingQuoteSkipsName(pre + head, id[1..], post);
      assert s == (pre + head) + Quoted(id[1..]) + "`" + post;
      assert s[|pre|] == head[0];
      if id[0] == '`' { assert s[|pre| + 1] == '`'; }
    }
  }

  lemma SpanAt(s: string, from: nat, to: nat)
    requires from < |s| && s[from] == '`' && forall j :: 0 <= j < from ==> s[j] != '`'
    requires ClosingQuote(s, from + 1) == Some(to) && from + 1 < to
    ensures QuotedIdent(s) == Some(Span(from, to))
  {
    assert IndexFrom(s, '`', 0) == from;
  }

  /** Parsing undoes quoting: whatever characters an identifier has, the parser
      returns exactly its quoted text. */
  lemma QuotedNameIsRead(pre: string, id: string, post: string)
    requires '`' !in pre && id != ""
    requires post != "" ==> post[0] != '`'
    ensures Name(pre + "`" + Quoted(id) + "`" + post) == Some(Quoted(id))
  {
    hide ClosingQuote, QuotedIdent;
    var q := Quoted(id);
    assert |q| > 0;
    var s := pre + "`" + q + "`" + post;
    ClosingQuoteSkipsName(pre + "`", id, post);
    SpanAt(s, |pre|, |pre| + 1 + |q|);
    assert s[|pre| + 1..|pre| + 1 + |q|] == q;
  }

  // ---------- kinds of definition ----------

  const CONSTRAINT := "CONSTRAINT "
  const UNIQUE_KEY := "UNIQUE KEY "
  const KEY := "KEY "
  const PRIMARY_KEY := "PRIMARY KEY "
  const AUTO_INCREMENT := "AUTO_INCREMENT"

  function Kind(def: string): KeyType {
    if UNIQUE_KEY <= def then Unique
    else if KEY <= def then NonUnique
    else if PRIMARY_KEY <= def then Primary
    else NoKey
  }

  /** The first indexed column: the first quoted identifier of a PRIMARY KEY, the
      second of a secondary key (the first one is the key's own name). */
  function LeadColumn(def: string, kind: KeyType): Option<string> {
    if kind.NoKey? then None
    else if kind.Primary? then Name(def)
    else
      match QuotedIdent(def)
      case None => None
      case Some(sp) => Name(def[sp.to + 1..])
  }

  function NameEnd(def: string, k: nat): (e: nat)
    requires k <= |def|
    ensures k <= e <= |def|
    decreases |def| - k
  {
    if k < |def| && (def[k] != '`' || (k + 1 < |def| && def[k + 1] == '`')) then NameEnd(def, k + 1) else k
  }

  /** The column that an AUTO_INCREMENT column definition announces. */
  function AutoincColumn(def: string): (r: Option<string>)
    ensures r.Some? ==> def != "" && def[0] == '`'
  {
    if def != "" && def[0] == '`' && Occurs(def, AUTO_INCREMENT) && 1 < NameEnd(def, 1) < |def|
    then Some(def[1..NameEnd(def, 1)]) else None
  }

  function Classify(def: string): (r: Def)
    ensures r.text == def
  {
    Def(def, Kind(def), Name(def), LeadColumn(def, Kind(def)), AutoincColumn(def),
        if CONSTRAINT <= def then Name(def) else None)
  }

  function ClassifyAll(defs: seq<string>): (r: seq<Def>)
    ensures |r| == |defs|
    ensures forall i :: 0 <= i < |defs| ==> r[i] == Classify(defs[i])
  {
    seq(|defs|, i requires 0 <= i < |defs| => Classify(defs[i]))
  }

  /** A line is a key, a constraint or a column; their first letters differ. */
  lemma ClassifyCoherent(def: string)
    ensures CoherentDef(Classify(def))
  {
    hide Name, LeadColumn, NameEnd, Occurs;
    if CONSTRAINT <= def { assert def[0] == 'C'; }
    if UNIQUE_KEY <= def { assert def[0] == 'U'; }
    if KEY <= def { assert def[0] == 'K'; }
    if PRIMARY_KEY <= def { assert def[0] == 'P'; }
  }

  // ---------- a line with one more character behind it ----------

  lemma {:induction false} ClosingQuoteMore(s: string, k: nat, x: char)
    requires x != '`'
    ensures ClosingQuote(s + [x], k) == ClosingQuote(s, k)
    decreases |s| - k
  {
    var t := s + [x];
    if k < |s| {
      assert t[k] == s[k];
      if s[k] != '`' {
        ClosingQuoteMore(s, k + 1, x);
      } else if k + 1 < |s| && s[k + 1] == '`' {
        ClosingQuoteMore(s, k + 2, x);
      }
    } else if k == |s| {
      assert ClosingQuote(t, k + 1) == None;
    }
  }

  lemma {:induction false} IndexMore(s: string, k: nat, x: char)
    requires k <= |s| && x != '`'
    ensures var i, j := IndexFrom(s, '`', k), IndexFrom(s + [x], '`', k);
            if i < |s| then j == i else j == |s| + 1
    decreases |s| - k
  {
    if k < |s| && s[k] != '`' { IndexMore(s, k + 1, x); }
  }

  lemma QuotedIdentMore(s: string, x: char)
    requires x != '`'
    ensures QuotedIdent(s + [x]) == QuotedIdent(s)
  {
    IndexMore(s, 0, x);
    ClosingQuoteMore(s, IndexFrom(s, '`', 0) + 1, x);
  }

  lemma NameMore(s: string, x: char)
    requires x != '`'
    ensures Name(s + [x]) == Name(s)
  {
    QuotedIdentMore(s, x);
    if QuotedIdent(s).Some? {
      var sp := QuotedIdent(s).value;
      assert (s + [x])[sp.from + 1..sp.to] == s[sp.from + 1..sp.to];
    }
  }

  lemma LeadMore(s: string, kind: KeyType, x: char)
    requires x != '`'
    ensures LeadColumn(s + [x], kind) == LeadColumn(s, kind)
  {
    hide QuotedIdent, Name;
    NameMore(s, x);
    QuotedIdentMore(s, x);
    if QuotedIdent(s).Some? {
      var sp := QuotedIdent(s).value;
      NameMore(s[sp.to + 1..], x);
      assert (s + [x])[sp.to + 1..] == s[sp.to + 1..] + [x];
    }
  }

  lemma OccursMore(s: string, p: string, x: char)
    requires p != "" && p[|p| - 1] != x
    ensures Occurs(s + [x], p) <==> Occurs(s, p)
  {
    var t := s + [x];
    forall i | 0 <= i <= |s| - |p| && MatchesAt(s, p, i) ensures MatchesAt(t, p, i) {
      assert t[i..i + |p|] == s[i..i + |p|];
    }
    forall i | 0 <= i <= |t| - |p| && MatchesAt(t, p, i) ensures MatchesAt(s, p, i) {
      assert p[|p| - 1] == t[i + |p| - 1];
      assert t[i..i + |p|] == s[i..i + |p|];
    }
  }

  lemma {:induction false} NameEndMore(s: string, k: nat, x: char)
    requires k <= |s| && x != '`'
    ensures var e, f := NameEnd(s, k), NameEnd(s + [x], k);
            if e < |s| then f == e else f == |s| + 1
    decreases |s| - k
  {
    var t := s + [x];
    if k < |s| {
      assert t[k] == s[k];
      if s[k] != '`' || (k + 1 < |s| && s[k + 1] == '`') { NameEndMore(s, k + 1, x); }
    } else {
      assert NameEnd(t, k + 1) == k + 1;
    }
  }

  lemma AutoincMore(s: string, x: char)
    requires s != "" && x != '`' && x != 'T'
    ensures AutoincColumn(s + [x]) == AutoincColumn(s)
  {
    hide Occurs;
    OccursMore(s, AUTO_INCREMENT, x);
    NameEndMore(s, 1, x);
    var e := NameEnd(s, 1);
    if e < |s| { assert (s + [x])[1..e] == s[1..e]; }
  }

  /** Apart from how it begins, a line is read the same. */
  lemma ClassifyMore(s: string, x: char)
    requires s != "" && (x == ',' || x == ' ')
    requires Kind(s + [x]) == Kind(s) && (CONSTRAINT <= s + [x] <==> CONSTRAINT <= s)
    ensures Classify(s + [x]).(text := s) == Classify(s)
  {
    hide Name, Kind, LeadColumn, AutoincColumn;
    NameMore(s, x);
    LeadMore(s, Kind(s), x);
    AutoincMore(s, x);
  }

  lemma PrefixMore(p: string, s: string, x: char)
    requires p != ""
    ensures p <= s + [x] <==> p <= s || p == s + [x]
  {
    if p <= s + [x] && |p| <= |s| { assert (s + [x])[..|p|] == s[..|p|]; }
  }

  /** A key or constraint line of which nothing follows but a blank. */
  predicate BareWord(s: string) { s + [' '] in [UNIQUE_KEY, KEY, PRIMARY_KEY, CONSTRAINT] }

  lemma KindMore(s: string, x: char)
    requires x == ',' || (x == ' ' && !BareWord(s))
    ensures Kind(s + [x]) == Kind(s) && (CONSTRAINT <= s + [x] <==> CONSTRAINT <= s)
  {
    PrefixMore(UNIQUE_KEY, s, x);
    PrefixMore(KEY, s, x);
    PrefixMore(PRIMARY_KEY, s, x);
    PrefixMore(CONSTRAINT, s, x);
    assert (s + [x])[|s|] == x;
  }

  /** The trailing comma of a line does not change how it is read. */
  lemma ClassifyComma(s: string)
    requires s != ""
    ensures Classify(s + ",").(text := s) == Classify(s)
  {
    hide Classify, Kind;
    KindMore(s, ',');
    ClassifyMore(s, ',');
  }

  /** Nor does a trailing blank, unless the line is a bare keyword. */
  lemma ClassifyBlank(s: string)
    requires s != "" && !BareWord(s)
    ensures Classify(s + " ").(text := s) == Classify(s)
  {
    hide Classify, Kind;
    KindMore(s, ' ');
    ClassifyMore(s, ' ');
  }

  /** A bare keyword has no column, with or without a blank. */
  lemma BareWordLeads(s: string, kind: KeyType)
    requires BareWord(s)
    ensures LeadColumn(s, kind) == None && LeadColumn(s + " ", kind) == None
  {
    hide Name, LeadColumn;
    LeadMore(s, kind, ' ');
    assert '`' !in s by { assert forall i :: 0 <= i < |s| ==> s[i] == (s + [' '])[i]; }
    NoQuote(s, kind);
  }

  lemma NoQuote(s: string, kind: KeyType)
    requires '`' !in s
    ensures LeadColumn(s, kind) == None
  {
    assert IndexFrom(s, '`', 0) == |s|;
  }

  method ContainsAutoincColumn(autoinc: Option<string>, def: string, kind: KeyType) returns (r: bool)
    requires !kind.NoKey?
    ensures r == (autoinc.Some? && LeadColumn(def, kind).Some? && LeadColumn(def, kind).value <= autoinc.value)
  {
    if autoinc.None? { return false; }
    var idnum := 0;
    var keydef := def;
    while true
      invariant idnum == 0 ==> keydef == def
      invariant idnum == 0 || (idnum == 1 && !kind.Primary?)
      invariant idnum == 1 ==> QuotedIdent(def).Some? && keydef == def[QuotedIdent(def).value.to + 1..]
      decreases 2 - idnum
    {
      var sp := ParseQuotedIdentifier(keydef);
      if sp.None? { return false; }
      idnum := idnum + 1;
      if (kind.Primary? || idnum != 1) && keydef[sp.value.from + 1..sp.value.to] <= autoinc.value {
        return true;
      }
      if idnum == 1 + (if kind.Primary? then 0 else 1) { return false; }
      keydef := keydef[sp.value.to + 1..];
    }
  }
}
