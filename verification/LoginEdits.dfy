/** Removing a section or an option from the text of the login file (client/mysql_config_editor.cc): what the
    edits of the text do to the list of sections. */
module LoginEdits {
  import opened Text
  import opened LoginText

  // ---------- the edits on text ----------

  /** `remove_login_path`: up to the next header, or up to the end. */
  ghost function RemoveIn(t: string, name: string): string {
    var a := LocateIn(t, name);
    if a == NONE then t
    else var e := First(t, "\n[", a); if e == NONE then t[..a] else t[..a] + t[e + 1..]
  }

  /** The first line break at or after k. */
  ghost function LineEnd(t: string, k: nat): (i: nat)
    requires k <= |t|
    ensures k <= i <= |t|
    decreases |t| - k
  {
    if k == |t| || t[k] == '\n' then k else LineEnd(t, k + 1)
  }

  lemma {:induction false} LineEndIs(t: string, k: nat, i: nat)
    requires k <= i < |t| && t[i] == '\n' && forall j :: k <= j < i ==> t[j] != '\n'
    ensures LineEnd(t, k) == i
    decreases i - k
  {
    if k < i { LineEndIs(t, k + 1, i); }
  }

  /** Where the search of `remove_option` stops. */
  ghost function SearchEnd(t: string, a: nat): (e: nat)
    requires a <= |t|
    ensures a <= e <= |t|
  {
    var e := First(t, "\n[", a);
    if e == NONE then |t| else e
  }

  /** `remove_option`: the first line of the section that starts with the key. */
  ghost function RemoveOptionIn(t: string, name: string, key: string): string {
    var a := LocateIn(t, name);
    if a == NONE then t
    else
      var p := First(t, "\n" + key, a);
      if p != NONE && p + 1 < SearchEnd(t, a) then t[..p] + t[LineEnd(t, p + 1)..] else t
  }

  // ---------- the edits on sections ----------

  function Without(ss: seq<Section>, name: string): seq<Section> {
    var i := Find(ss, name);
    if i < |ss| then ss[..i] + ss[i + 1..] else ss
  }

  function FindKey(es: seq<Entry>, key: string): (k: nat)
    ensures k <= |es| && (k < |es| ==> es[k].key == key)
  {
    if es == [] then 0 else if es[0].key == key then 0 else 1 + FindKey(es[1..], key)
  }

  function WithoutKey(es: seq<Entry>, key: string): seq<Entry> {
    var k := FindKey(es, key);
    if k < |es| then es[..k] + es[k + 1..] else es
  }

  function WithoutOption(ss: seq<Section>, name: string, key: string): seq<Section> {
    var i := Find(ss, name);
    if i < |ss| then ss[i := ss[i].(entries := WithoutKey(ss[i].entries, key))] else ss
  }

  // ---------- removing a section ----------

  /** The text around section i. */
  lemma Around(ss: seq<Section>, i: nat)
    requires i < |ss|
    ensures FileText(ss) == FileText(ss[..i]) + (SectionText(ss[i]) + FileText(ss[i + 1..]))
  {
    hide FileText, SectionText;
    Regrouped(ss, i);
    FileTextOf(ss[..i], [ss[i]] + ss[i + 1..]);
    FileTextCons(ss[i], ss[i + 1..]);
  }

  lemma Regrouped<T>(s: seq<T>, i: nat)
    requires i < |s|
    ensures s[..i] + ([s[i]] + s[i + 1..]) == s
  {
  }

  lemma FileTextCons(s: Section, ss: seq<Section>)
    ensures FileText([s] + ss) == SectionText(s) + FileText(ss)
  {
    assert ([s] + ss)[1..] == ss;
  }

  /** Where the section at the end of a ends. */
  lemma SectionEnds(a: string, s: Section, rest: string)
    requires GoodSection(s) && Follows(rest)
    ensures var t, n := a + (SectionText(s) + rest), |a| + |SectionText(s)|;
            First(t, "\n[", |a|) == if rest == "" then NONE else n - 1
  {
    hide SectionText, Header, EntriesText, First, MatchesAt, NoMatch, GoodSection, FindKey;
    NextHeader(s, rest);
    FirstFrom(a, SectionText(s) + rest, "\n[");
  }

  lemma Slices(a: string, b: string, c: string)
    ensures var t := a + (b + c); t[..|a|] == a && t[|a| + |b|..] == c
  {
  }

  lemma RemoveSection(ss: seq<Section>, name: string)
    requires Good(ss) && GoodName(name)
    ensures RemoveIn(FileText(ss), name) == FileText(Without(ss, name))
  {
    hide SectionText, First, FileText, LocateIn, Good, Find;
    LocateSection(ss, name);
    var i := Find(ss, name);
    if i < |ss| {
      var a, s, rest := FileText(ss[..i]), ss[i], FileText(ss[i + 1..]);
      Around(ss, i);
      FileFollows(ss[i + 1..]);
      assert GoodSection(s) by { GoodAt(ss, i); }
      SectionEnds(a, s, rest);
      SectionNotEmpty(s);
      FileTextOf(ss[..i], ss[i + 1..]);
      Slices(a, SectionText(s), rest);
    }
  }

  lemma GoodAt(ss: seq<Section>, i: nat)
    requires Good(ss) && i < |ss|
    ensures GoodSection(ss[i])
  {
  }

  // ---------- removing an option ----------

  lemma MatchBehindBreak(t: string, key: string)
    requires t != "" && t[0] == '\n'
    ensures MatchesAt(t, "\n" + key, 0) <==> 1 + |key| <= |t| && t[1..1 + |key|] == key
  {
    assert ("\n" + key)[1..] == key;
    if 1 + |key| <= |t| { assert t[0..1 + |key|] == [t[0]] + t[1..1 + |key|]; }
  }

  /** The start of an option line. */
  lemma EntryStart(e: Entry, rest: string, n: nat)
    ensures var t := EntryText(e) + rest;
            && |t| > 1 + |e.key| && t[0] == '\n' && t[1 + |e.key|] == ' '
            && (n <= |e.key| ==> t[1..1 + n] == e.key[..n])
            && (|e.key| < n && 1 + n <= |t| ==> t[1..1 + n][|e.key|] == ' ')
  {
    var t := EntryText(e) + rest;
    assert t == "\n" + (e.key + (" = " + e.value + rest));
  }

  lemma EntryIs(e: Entry, rest: string, key: string)
    requires GoodEntry(e) && key in KEYS
    ensures MatchesAt(EntryText(e) + rest, "\n" + key, 0) <==> e.key == key
  {
    hide EntryText, MatchesAt;
    KeyFacts(key);
    EntryStart(e, rest, |key|);
    MatchBehindBreak(EntryText(e) + rest, key);
    if |key| <= |e.key| && e.key[..|key|] == key { KeysArePrefixFree(key, e.key); }
    assert e.key == key ==> e.key[..|key|] == key;
  }

  /** The first line of the key among the option lines. */
  lemma {:induction false} KeyInEntries(es: seq<Entry>, rest: string, key: string)
    requires (forall i :: 0 <= i < |es| ==> GoodEntry(es[i])) && key in KEYS
    ensures var k, p := FindKey(es, key), "\n" + key;
            if k < |es| then First(EntriesText(es) + rest, p, 0) == |EntriesText(es[..k])|
            else First(EntriesText(es) + rest, p, 0) == Shifted(First(rest, p, 0), |EntriesText(es)|)
    decreases |es|
  {
    hide EntryText, First, NoMatch, GoodEntry;
    var p := "\n" + key;
    if es == [] {
      assert EntriesText(es) + rest == rest;
    } else {
      var head, tail := EntryText(es[0]), EntriesText(es[1..]) + rest;
      var t := EntriesText(es) + rest;
      assert t == head + tail;
      EntryIs(es[0], tail, key);
      if es[0].key == key {
        FirstAtOnce(t, p);
        assert es[..0] == [];
      } else {
        NoMatchInEntry(es[0], tail, key);
        FirstBehind(head, tail, p, 0);
        KeyInEntries(es[1..], rest, key);
        var k := FindKey(es[1..], key);
        assert es[..k + 1][1..] == es[1..][..k];
      }
    }
  }

  lemma FirstAtOnce(t: string, p: string)
    requires MatchesAt(t, p, 0)
    ensures First(t, p, 0) == 0
  {
  }

  lemma NoMatchInEntry(e: Entry, tail: string, key: string)
    requires GoodEntry(e) && key in KEYS && e.key != key
    ensures NoMatch(EntryText(e) + tail, "\n" + key, 0, |EntryText(e)|)
  {
    hide EntryText;
    var t, p := EntryText(e) + tail, "\n" + key;
    forall j | 0 <= j < |EntryText(e)| ensures !MatchesAt(t, p, j) {
      if j == 0 {
        EntryIs(e, tail, key);
      } else {
        OneLine(e, j);
        assert t[j] == EntryText(e)[j];
        if MatchesAt(t, p, j) { MatchStarts(t, p, j); }
      }
    }
  }

  lemma {:induction false} EntriesTextOf(a: seq<Entry>, b: seq<Entry>)
    ensures EntriesText(a + b) == EntriesText(a) + EntriesText(b)
    decreases |a|
  {
    if a == [] {
      assert a + b == b;
    } else {
      assert (a + b)[1..] == a[1..] + b;
      EntriesTextOf(a[1..], b);
    }
  }

  lemma EntryNotEmpty(e: Entry)
    ensures |EntryText(e)| > 3
  {
  }

  /** The line that starts behind x ends where the next one starts. */
  lemma LineEnds(x: string, e: Entry, rest: string)
    requires GoodEntry(e) && rest != "" && rest[0] == '\n'
    ensures LineEnd(x + (EntryText(e) + rest), |x| + 1) == |x| + |EntryText(e)|
  {
    hide EntryText, GoodEntry, LineEnd;
    var t, n := x + (EntryText(e) + rest), |EntryText(e)|;
    EntryNotEmpty(e);
    forall j | |x| + 1 <= j < |x| + n ensures t[j] != '\n' {
      OneLine(e, j - |x|);
      assert t[j] == EntryText(e)[j - |x|];
    }
    assert t[|x| + n] == '\n';
    LineEndIs(t, |x| + 1, |x| + n);
  }

  lemma NoBreakInHeader(name: string, x: string, key: string)
    requires GoodName(name)
    ensures NoMatch(Header(name) + x, "\n" + key, 0, |Header(name)|)
  {
    var t, p := Header(name) + x, "\n" + key;
    forall j | 0 <= j < |Header(name)| ensures !MatchesAt(t, p, j) {
      assert t[j] == Header(name)[j];
      if MatchesAt(t, p, j) { MatchStarts(t, p, j); }
    }
  }

  lemma SectionShape(s: Section, rest: string)
    ensures SectionText(s) + rest == Header(s.name) + (EntriesText(s.entries) + ("\n" + rest))
    ensures |SectionText(s)| == |Header(s.name)| + |EntriesText(s.entries)| + 1
  {
    hide Header, EntriesText;
  }

  lemma GoodParts(s: Section)
    requires GoodSection(s)
    ensures GoodName(s.name) && forall i :: 0 <= i < |s.entries| ==> GoodEntry(s.entries[i])
  {
  }

  /** A search from the start of a section passes its header. */
  lemma PastHeader(a: string, name: string, x: string, key: string)
    requires GoodName(name)
    ensures First(a + (Header(name) + x), "\n" + key, |a|) == Shifted(First(x, "\n" + key, 0), |a| + |Header(name)|)
  {
    hide SectionText, Header, EntriesText, First, MatchesAt, NoMatch, GoodSection, FindKey;
    var h, p := Header(name), "\n" + key;
    FirstFrom(a, h + x, p);
    NoBreakInHeader(name, x, key);
    FirstBehind(h, x, p, 0);
  }

  /** The line of a key in the section that starts behind a. */
  lemma KeyInSection(a: string, s: Section, rest: string, key: string)
    requires GoodSection(s) && key in KEYS
    ensures var k, es := FindKey(s.entries, key), s.entries;
            var r := First(a + (SectionText(s) + rest), "\n" + key, |a|);
            if k < |es| then r == |a| + |Header(s.name)| + |EntriesText(es[..k])|
            else r == NONE || r >= |a| + |SectionText(s)| - 1
  {
    hide SectionText, Header, EntriesText, First, MatchesAt, NoMatch, GoodSection, FindKey;
    var p, es := "\n" + key, s.entries;
    var x := EntriesText(es) + ("\n" + rest);
    SectionShape(s, rest);
    GoodParts(s);
    PastHeader(a, s.name, x, key);
    KeyInEntries(es, "\n" + rest, key);
  }

  lemma EntriesAround(es: seq<Entry>, k: nat)
    requires k < |es|
    ensures EntriesText(es) == EntriesText(es[..k]) + (EntryText(es[k]) + EntriesText(es[k + 1..]))
    ensures EntriesText(es[..k] + es[k + 1..]) == EntriesText(es[..k]) + EntriesText(es[k + 1..])
  {
    hide EntriesText, EntryText;
    Regrouped(es, k);
    EntriesTextOf(es[..k], [es[k]] + es[k + 1..]);
    EntriesTextCons(es[k], es[k + 1..]);
    EntriesTextOf(es[..k], es[k + 1..]);
  }

  lemma EntriesTextCons(e: Entry, es: seq<Entry>)
    ensures EntriesText([e] + es) == EntryText(e) + EntriesText(es)
  {
    assert ([e] + es)[1..] == es;
  }

  lemma EntriesFollow(es: seq<Entry>, rest: string)
    ensures var t := EntriesText(es) + ("\n" + rest); t != "" && t[0] == '\n'
  {
  }

  /** Cutting a line out of the text around it. */
  lemma Cut(t: string, q: nat, x: string, e: Entry, tail: string)
    requires GoodEntry(e) && tail != "" && tail[0] == '\n' && t == x + (EntryText(e) + tail) && q == |x|
    ensures q + 1 <= |t| && t[..q] + t[LineEnd(t, q + 1)..] == x + tail
  {
    hide EntryText, GoodEntry, LineEnd;
    EntryNotEmpty(e);
    LineEnds(x, e, tail);
  }

  lemma Regroup(a: string, h: string, b: string, l: string, c: string, n: string)
    ensures a + (h + ((b + (l + c)) + n)) == (a + (h + b)) + (l + (c + n))
    ensures a + (h + ((b + c) + n)) == (a + (h + b)) + (c + n)
  {
  }

  /** The text around an option line. */
  lemma AroundLine(a: string, s: Section, rest: string, k: nat)
    requires k < |s.entries|
    ensures var es := s.entries;
            var x, tail := a + (Header(s.name) + EntriesText(es[..k])), EntriesText(es[k + 1..]) + ("\n" + rest);
            && a + (SectionText(s) + rest) == x + (EntryText(es[k]) + tail)
            && a + (SectionText(s.(entries := es[..k] + es[k + 1..])) + rest) == x + tail
            && |x| + 2 <= |a| + |SectionText(s)| - 1
  {
    hide *;
    var es := s.entries;
    EntriesAround(es, k);
    SectionShape(s, rest);
    SectionShape(s.(entries := es[..k] + es[k + 1..]), rest);
    Regroup(a, Header(s.name), EntriesText(es[..k]), EntryText(es[k]), EntriesText(es[k + 1..]), "\n" + rest);
    EntryNotEmpty(es[k]);
  }

  /** The edit inside one section. */
  lemma CutLine(t: string, q: nat, a: string, s: Section, rest: string, key: string)
    requires GoodSection(s) && key in KEYS && FindKey(s.entries, key) < |s.entries|
    requires t == a + (SectionText(s) + rest) && q == |a| + |Header(s.name)| + |EntriesText(s.entries[..FindKey(s.entries, key)])|
    ensures q + 2 <= |a| + |SectionText(s)| - 1 <= |t|
    ensures t[..q] + t[LineEnd(t, q + 1)..] == a + (SectionText(s.(entries := WithoutKey(s.entries, key))) + rest)
  {
    hide Header, EntryText, EntriesText, SectionText, GoodEntry, LineEnd, FindKey;
    var k, es := FindKey(s.entries, key), s.entries;
    AroundLine(a, s, rest, k);
    var x, tail := a + (Header(s.name) + EntriesText(es[..k])), EntriesText(es[k + 1..]) + ("\n" + rest);
    EntriesFollow(es[k + 1..], rest);
    Cut(t, q, x, es[k], tail);
  }

  lemma RemoveOption(ss: seq<Section>, name: string, key: string)
    requires Good(ss) && GoodName(name) && key in KEYS
    ensures RemoveOptionIn(FileText(ss), name, key) == FileText(WithoutOption(ss, name, key))
  {
    hide SectionText, First, EntriesText, FileText, LocateIn, Good, Find, FindKey, GoodSection, LineEnd;
    LocateSection(ss, name);
    var i := Find(ss, name);
    if i < |ss| {
      var a, s, rest := FileText(ss[..i]), ss[i], FileText(ss[i + 1..]);
      Around(ss, i);
      FileFollows(ss[i + 1..]);
      GoodAt(ss, i);
      SectionEnds(a, s, rest);
      SectionNotEmpty(s);
      KeyInSection(a, s, rest, key);
      var edited := s.(entries := WithoutKey(s.entries, key));
      Around(ss[i := edited], i);
      assert ss[i := edited][..i] == ss[..i] && ss[i := edited][i + 1..] == ss[i + 1..];
      if FindKey(s.entries, key) < |s.entries| {
        CutLine(FileText(ss), First(FileText(ss), "\n" + key, |a|), a, s, rest, key);
      } else {
        assert edited == s && ss[i := edited] == ss;
      }
    }
  }

  // ---------- the text determines the sections ----------

  lemma SameEntry(x: Entry, y: Entry, r: string, q: string)
    requires GoodEntry(x) && GoodEntry(y) && r != "" && r[0] == '\n' && q != "" && q[0] == '\n'
    requires EntryText(x) + r == EntryText(y) + q
    ensures x == y && r == q
  {
    var t := EntryText(x) + r;
    assert EntryText(x) == EntryText(y) && r == q && x.key == y.key by {
      hide EntryText, GoodEntry, LineEnd;
      EntryIs(x, r, x.key);
      EntryIs(y, q, x.key);
      LineEnds("", x, r);
      LineEnds("", y, q);
      assert "" + t == t;
      assert t[..|EntryText(x)|] == EntryText(x) && t[..|EntryText(y)|] == EntryText(y);
      assert t[|EntryText(x)|..] == r && t[|EntryText(y)|..] == q;
    }
    var n := |x.key| + 4;
    assert x.value == EntryText(x)[n..] == EntryText(y)[n..] == y.value;
  }

  lemma WithBreakBehind(es: seq<Entry>)
    ensures var t := EntriesText(es) + "\n"; t != "" && t[0] == '\n' && EntriesText(es) == t[..|t| - 1]
    ensures es == [] <==> EntriesText(es) == ""
    ensures es != [] ==> EntriesText(es) + "\n" == EntryText(es[0]) + (EntriesText(es[1..]) + "\n")
  {
    if es != [] { EntryNotEmpty(es[0]); }
  }

  lemma {:induction false} SameEntries(x: seq<Entry>, y: seq<Entry>)
    requires (forall i :: 0 <= i < |x| ==> GoodEntry(x[i])) && (forall i :: 0 <= i < |y| ==> GoodEntry(y[i]))
    requires EntriesText(x) == EntriesText(y)
    ensures x == y
    decreases |x|
  {
    hide *;
    WithBreakBehind(x);
    WithBreakBehind(y);
    if x != [] {
      WithBreakBehind(x[1..]);
      WithBreakBehind(y[1..]);
      SameEntry(x[0], y[0], EntriesText(x[1..]) + "\n", EntriesText(y[1..]) + "\n");
      SameEntries(x[1..], y[1..]);
      assert x == [x[0]] + x[1..] && y == [y[0]] + y[1..];
    }
  }

  lemma SameSection(s: Section, u: Section, r: string, q: string)
    requires GoodSection(s) && GoodSection(u) && Follows(r) && Follows(q) && SectionText(s) + r == SectionText(u) + q
    ensures s == u && r == q
  {
    var t := SectionText(s) + r;
    assert SectionText(s) == SectionText(u) && r == q && s.name == u.name by {
      hide SectionText, GoodSection, First, NoMatch;
      assert GoodName(s.name) by { GoodParts(s); }
      HeaderIs(s, r, s.name);
      HeaderIs(u, q, s.name);
      NextHeader(s, r);
      NextHeader(u, q);
      SectionNotEmpty(s);
      assert |SectionText(s)| == |SectionText(u)|;
      assert t[..|SectionText(s)|] == SectionText(s) && t[..|SectionText(u)|] == SectionText(u);
    }
    var n := |Header(s.name)|;
    assert EntriesText(s.entries) == SectionText(s)[n..|SectionText(s)| - 1] == EntriesText(u.entries);
    SameEntries(s.entries, u.entries);
  }

  /** Different lists of sections have different texts. */
  lemma {:induction false} TextDeterminesSections(a: seq<Section>, b: seq<Section>)
    requires Good(a) && Good(b) && FileText(a) == FileText(b)
    ensures a == b
    decreases |a|
  {
    hide SectionText, GoodSection;
    FileFollows(a);
    FileFollows(b);
    if a != [] {
      FileFollows(a[1..]);
      FileFollows(b[1..]);
      SameSection(a[0], b[0], FileText(a[1..]), FileText(b[1..]));
      TextDeterminesSections(a[1..], b[1..]);
      assert a == [a[0]] + a[1..] && b == [b[0]] + b[1..];
    }
  }
}
