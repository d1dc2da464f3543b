/** The text of the login file (client/mysql_config_editor.cc): sections with their options, and what the text
    searches of the editor mean on it. */
module LoginText {
  import opened Text

  datatype Entry = Entry(key: string, value: string)
  datatype Section = Section(name: string, entries: seq<Entry>)

  const KEYS: set<string> := {"user", "password", "host", "socket", "port"}

  function EntryText(e: Entry): string { "\n" + e.key + " = " + e.value }

  function EntriesText(es: seq<Entry>): string {
    if es == [] then "" else EntryText(es[0]) + EntriesText(es[1..])
  }

  function Header(name: string): string { "[" + name + "]" }

  function SectionText(s: Section): string { Header(s.name) + EntriesText(s.entries) + "\n" }

  function FileText(ss: seq<Section>): string {
    if ss == [] then "" else SectionText(ss[0]) + FileText(ss[1..])
  }

  predicate GoodName(name: string) { ']' !in name && '\n' !in name }

  predicate GoodEntry(e: Entry) { e.key in KEYS && '\n' !in e.value }

  predicate GoodSection(s: Section) {
    GoodName(s.name) && forall i :: 0 <= i < |s.entries| ==> GoodEntry(s.entries[i])
  }

  predicate Good(ss: seq<Section>) { forall i :: 0 <= i < |ss| ==> GoodSection(ss[i]) }

  lemma KeyFacts(k: string)
    requires k in KEYS
    ensures |k| >= 4 && k[0] != '[' && '\n' !in k && ' ' !in k
  {
  }

  /** No key starts another one. */
  lemma KeysArePrefixFree(k: string, l: string)
    requires k in KEYS && l in KEYS && k <= l
    ensures k == l
  {
    KeyFacts(k);
    assert l[..2] == k[..2];
    assert k[0] == l[0] && k[1] == l[1];
  }

  // ---------- strstr ----------

  const NONE := -1

  /** The first occurrence of p at or after k. */
  ghost function First(t: string, p: string, k: nat): (r: int)
    ensures r == NONE || (k <= r && r + |p| <= |t|)
    decreases |t| - k
  {
    if MatchesAt(t, p, k) then k else if k >= |t| then NONE else First(t, p, k + 1)
  }

  ghost predicate NoMatch(t: string, p: string, k: nat, i: int) { forall j :: k <= j < i ==> !MatchesAt(t, p, j) }

  lemma {:induction false} FirstIs(t: string, p: string, k: nat, i: nat)
    requires k <= i <= |t| && MatchesAt(t, p, i) && NoMatch(t, p, k, i)
    ensures First(t, p, k) == i
    decreases i - k
  {
    if k < i { FirstIs(t, p, k + 1, i); }
  }

  lemma {:induction false} FirstIsNone(t: string, p: string, k: nat)
    requires k <= |t| && NoMatch(t, p, k, |t| + 1)
    ensures First(t, p, k) == NONE
    decreases |t| - k
  {
    if k < |t| { FirstIsNone(t, p, k + 1); }
  }

  lemma {:induction false} FirstFacts(t: string, p: string, k: nat)
    requires k <= |t|
    ensures var r := First(t, p, k);
            if r == NONE then NoMatch(t, p, k, |t| + 1) else MatchesAt(t, p, r) && NoMatch(t, p, k, r)
    decreases |t| - k
  {
    if !MatchesAt(t, p, k) && k < |t| { FirstFacts(t, p, k + 1); }
  }

  lemma MatchStarts(t: string, p: string, j: nat)
    requires p != "" && MatchesAt(t, p, j)
    ensures j < |t| && t[j] == p[0]
  {
    assert t[j..j + |p|][0] == t[j];
  }

  ghost function Shifted(r: int, n: nat): int { if r == NONE then NONE else r + n }

  lemma MatchShifted(a: string, x: string, p: string, j: nat)
    ensures MatchesAt(a + x, p, |a| + j) <==> MatchesAt(x, p, j)
  {
    if j + |p| <= |x| { assert (a + x)[|a| + j..|a| + j + |p|] == x[j..j + |p|]; }
  }

  /** A search that starts behind a, or finds nothing in a. */
  lemma FirstBehind(a: string, x: string, p: string, k: nat)
    requires k <= |a| && NoMatch(a + x, p, k, |a|)
    ensures First(a + x, p, k) == Shifted(First(x, p, 0), |a|)
  {
    hide First, MatchesAt;
    var r := First(x, p, 0);
    FirstFacts(x, p, 0);
    var n := if r != NONE then |a| + r else |a + x| + 1;
    forall j | k <= j < n ensures !MatchesAt(a + x, p, j) {
      if j >= |a| { MatchShifted(a, x, p, j - |a|); }
    }
    if r != NONE {
      MatchShifted(a, x, p, r);
      FirstIs(a + x, p, k, n);
    } else {
      FirstIsNone(a + x, p, k);
    }
  }

  lemma FirstFrom(a: string, x: string, p: string)
    ensures First(a + x, p, |a|) == Shifted(First(x, p, 0), |a|)
  {
    FirstBehind(a, x, p, |a|);
  }

  // ---------- where a line starts ----------

  /** What may follow a section: the end of the text or another header. */
  ghost predicate Follows(rest: string) { rest == "" || rest[0] == '[' }

  lemma OneLine(e: Entry, j: nat)
    requires GoodEntry(e) && j < |EntryText(e)|
    ensures EntryText(e)[j] == '\n' <==> j == 0
    ensures |EntryText(e)| >= 2 && EntryText(e)[1] != '['
  {
    KeyFacts(e.key);
    var t := EntryText(e);
    assert t == "\n" + (e.key + " = " + e.value);
    if 0 < j { assert t[j] == (e.key + " = " + e.value)[j - 1]; }
  }

  /** No header in the option lines. */
  lemma {:induction false} NoHeaderInEntries(es: seq<Entry>, rest: string, j: nat)
    requires (forall i :: 0 <= i < |es| ==> GoodEntry(es[i])) && j < |EntriesText(es)|
    ensures !MatchesAt(EntriesText(es) + rest, "\n[", j)
    decreases |es|
  {
    hide EntryText;
    var head, tail := EntryText(es[0]), EntriesText(es[1..]) + rest;
    var t := EntriesText(es) + rest;
    assert t == head + tail;
    if j < |head| {
      OneLine(es[0], j);
      assert t[j] == head[j];
      if j == 0 { assert t[1] == head[1]; }
    } else {
      NoHeaderInEntries(es[1..], rest, j - |head|);
      MatchShifted(head, tail, "\n[", j - |head|);
    }
  }

  /** The first header behind the start of a section is the next section's. */
  lemma NextHeader(s: Section, rest: string)
    requires GoodSection(s) && Follows(rest)
    ensures var n := |SectionText(s)| - 1;
            && n >= 0
            && NoMatch(SectionText(s) + rest, "\n[", 0, n)
            && First(SectionText(s) + rest, "\n[", 0) == (if rest == "" then NONE else n)
            && (MatchesAt(SectionText(s) + rest, "\n[", n) <==> rest != "")
  {
    var head, body, n := Header(s.name), EntriesText(s.entries), |SectionText(s)| - 1;
    var t := SectionText(s) + rest;
    assert t == head + (body + ("\n" + rest));
    forall j | 0 <= j < n ensures !MatchesAt(t, "\n[", j) {
      if j < |head| {
        assert t[j] == head[j];
      } else {
        NoHeaderInEntries(s.entries, "\n" + rest, j - |head|);
        MatchShifted(head, body + ("\n" + rest), "\n[", j - |head|);
      }
    }
    assert t[n] == '\n';
    if rest != "" {
      assert t[n..n + 2] == "\n[";
      FirstIs(t, "\n[", 0, n);
    } else {
      assert |t| == n + 1;
      FirstIsNone(t, "\n[", 0);
    }
  }

  lemma FileFollows(ss: seq<Section>)
    ensures Follows(FileText(ss)) && (FileText(ss) == "" <==> ss == [])
  {
  }

  lemma {:induction false} FileTextOf(a: seq<Section>, b: seq<Section>)
    ensures FileText(a + b) == FileText(a) + FileText(b)
    decreases |a|
  {
    if a == [] {
      assert a + b == b;
    } else {
      assert (a + b)[1..] == a[1..] + b;
      FileTextOf(a[1..], b);
    }
  }

  // ---------- locating a section ----------

  /** Where the section of a name starts. */
  ghost function LocateIn(t: string, name: string): (r: int)
    ensures NONE <= r <= |t|
  {
    if Header(name) <= t then 0 else Shifted(First(t, "\n" + Header(name), 0), 1)
  }

  /** The first section of a name; |ss| when there is none. */
  function Find(ss: seq<Section>, name: string): (i: nat)
    ensures i <= |ss| && (i < |ss| ==> ss[i].name == name)
  {
    if ss == [] then 0 else if ss[0].name == name then 0 else 1 + Find(ss[1..], name)
  }

  lemma HeaderIs(s: Section, rest: string, name: string)
    requires GoodSection(s) && GoodName(name)
    ensures Header(name) <= SectionText(s) + rest <==> s.name == name
  {
    var t := SectionText(s) + rest;
    assert t == Header(s.name) + (EntriesText(s.entries) + "\n" + rest);
    var m, n := |s.name|, |name|;
    assert t[..m + 2] == Header(s.name);
    if Header(name) <= t {
      assert t[n + 1] == ']' && t[m + 1] == ']';
      assert name == Header(name)[1..n + 1] == t[1..n + 1] == s.name;
    }
  }

  lemma HeaderBehindBreak(t: string, name: string, j: nat)
    requires j < |t| && t[j] == '\n'
    ensures MatchesAt(t, "\n" + Header(name), j) <==> Header(name) <= t[j + 1..]
  {
    var h := Header(name);
    assert MatchesAt(t, "\n" + h, j) ==> t[j + 1..][..|h|] == ("\n" + h)[1..] == h;
    if h <= t[j + 1..] { assert t[j..j + 1 + |h|] == "\n" + h; }
  }

  lemma HeaderNeedsBreak(t: string, name: string, j: nat)
    requires MatchesAt(t, "\n" + Header(name), j)
    ensures MatchesAt(t, "\n[", j)
  {
    var p := "\n" + Header(name);
    assert t[j..j + |p|][0] == '\n' && t[j..j + |p|][1] == '[';
  }

  /** Where a name is found behind a section. */
  lemma NameBehind(s: Section, more: seq<Section>, name: string)
    requires GoodSection(s) && Good(more) && GoodName(name)
    ensures var rest, p := FileText(more), "\n" + Header(name);
            First(SectionText(s) + rest, p, 0) ==
            if more == [] then NONE
            else if more[0].name == name then |SectionText(s)| - 1
            else Shifted(First(rest, p, 0), |SectionText(s)|)
  {
    hide SectionText, Header;
    var rest, p, n := FileText(more), "\n" + Header(name), |SectionText(s)| - 1;
    var t := SectionText(s) + rest;
    FileFollows(more);
    NextHeader(s, rest);
    forall j | 0 <= j < n ensures !MatchesAt(t, p, j) {
      if MatchesAt(t, p, j) { HeaderNeedsBreak(t, name, j); }
    }
    LastBreak(s, rest);
    HeaderBehindBreak(t, name, n);
    if more == [] {
      HeaderTooLong(t, name, n);
    } else {
      HeaderIs(more[0], FileText(more[1..]), name);
      if more[0].name == name { FirstIs(t, p, 0, n); } else { FirstBehind(SectionText(s), rest, p, 0); }
    }
  }

  /** The first occurrence of a name behind the first section. */
  lemma {:induction false} NameBehindFirst(ss: seq<Section>, name: string)
    requires Good(ss) && GoodName(name) && ss != []
    ensures var i := Find(ss[1..], name);
            First(FileText(ss), "\n" + Header(name), 0) ==
            if i < |ss| - 1 then |SectionText(ss[0])| + |FileText(ss[1..][..i])| - 1 else NONE
    decreases |ss|
  {
    hide SectionText, Header, First, GoodSection;
    var more := ss[1..];
    NameBehind(ss[0], more, name);
    if more != [] {
      if more[0].name == name {
        assert more[..0] == [];
      } else {
        NameBehindFirst(more, name);
        SectionNotEmpty(more[0]);
        var i := Find(more[1..], name);
        assert more[..i + 1][1..] == more[1..][..i];
      }
    }
  }

  lemma SectionNotEmpty(s: Section)
    ensures |SectionText(s)| >= 3
  {
  }

  lemma LastBreak(s: Section, rest: string)
    ensures var t, n := SectionText(s) + rest, |SectionText(s)| - 1; n >= 0 && t[n] == '\n' && t[n + 1..] == rest
  {
  }

  lemma HeaderTooLong(t: string, name: string, n: nat)
    requires |t| == n + 1 && t[n] == '\n' && NoMatch(t, "\n" + Header(name), 0, n)
    ensures First(t, "\n" + Header(name), 0) == NONE
  {
    FirstIsNone(t, "\n" + Header(name), 0);
  }

  /** The search finds the first section of the name. */
  lemma LocateSection(ss: seq<Section>, name: string)
    requires Good(ss) && GoodName(name)
    ensures var i := Find(ss, name);
            LocateIn(FileText(ss), name) == if i < |ss| then |FileText(ss[..i])| else NONE
  {
    hide SectionText;
    if ss == [] {
    } else {
      HeaderIs(ss[0], FileText(ss[1..]), name);
      if ss[0].name == name {
        assert ss[..0] == [];
      } else {
        NameBehindFirst(ss, name);
        var i := Find(ss[1..], name);
        assert ss[..i + 1][1..] == ss[1..][..i];
      }
    }
  }
}
