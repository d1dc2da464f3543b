/** Which definitions of a CREATE TABLE stay in it and which are deferred to a later
    ALTER TABLE (client/mysqldump.c, --innodb-optimize-keys).  The decision is taken
    line by line; the theorems say what it amounts to on the whole table.  KeyText
    reads a `Def` off a line, KeyTextEditor carries the decision out on the buffer. */
module DeferredKeys {
  import opened Text

  datatype KeyType = NoKey | Primary | Unique | NonUnique

  /** What the scan looks at in one definition. */
  datatype Def = Def(
    text: string,
    kind: KeyType,
    name: Option<string>,        // first quoted identifier: the name of a secondary key
    lead: Option<string>,        // first indexed column
    autoinc: Option<string>,     // the column, for an AUTO_INCREMENT column definition
    constraint: Option<string>)  // the name, for a CONSTRAINT definition

  predicate IsSecondary(d: Def) { d.kind.Unique? || d.kind.NonUnique? }

  /** The source compares only as many characters as the key column's name has. */
  predicate LeadsWith(d: Def, column: Option<string>) {
    !d.kind.NoKey? && column.Some? && d.lead.Some? && d.lead.value <= column.value
  }

  // ---------- the streaming decision ----------

  datatype Scan = Scan(kept: seq<Def>, skipped: seq<Def>, pkDone: bool, autoinc: Option<string>)

  const START := Scan([], [], false, None)

  /** First (newest) skipped key of that name; |skipped| when there is none. */
  function FindKey(skipped: seq<Def>, name: string): (k: nat)
    ensures k <= |skipped|
    ensures k < |skipped| ==> skipped[k].name == Some(name)
    ensures forall j :: 0 <= j < k ==> skipped[j].name != Some(name)
  {
    if skipped == [] || skipped[0].name == Some(name) then 0 else 1 + FindKey(skipped[1..], name)
  }

  predicate PutsBack(s: Scan, d: Def) {
    d.constraint.Some? && FindKey(s.skipped, d.constraint.value) < |s.skipped|
  }

  predicate Defers(s: Scan, d: Def, hasPk: bool) {
    && ((d.kind.Unique? && (s.pkDone || !hasPk)) || d.kind.NonUnique?)
    && !LeadsWith(d, s.autoinc)
  }

  function Without<T>(s: seq<T>, k: nat): seq<T>
    requires k < |s|
  {
    s[..k] + s[k + 1..]
  }

  function Step(s: Scan, d: Def, hasPk: bool): Scan {
    if PutsBack(s, d) then
      var k := FindKey(s.skipped, d.constraint.value);
      s.(kept := s.kept + [s.skipped[k], d], skipped := Without(s.skipped, k))
    else if Defers(s, d, hasPk) then
      s.(skipped := [d] + s.skipped)
    else
      s.(kept := s.kept + [d],
         pkDone := s.pkDone || (hasPk && d.kind.Unique?) || d.kind.Primary?,
         autoinc := if d.autoinc.Some? then d.autoinc
                    else if LeadsWith(d, s.autoinc) then None else s.autoinc)
  }

  function Scanned(defs: seq<Def>, hasPk: bool, n: nat): Scan
    requires n <= |defs|
  {
    if n == 0 then START else Step(Scanned(defs, hasPk, n - 1), defs[n - 1], hasPk)
  }

  // ---------- conservation ----------

  ghost function Contents(s: Scan): multiset<Def> { multiset(s.kept + s.skipped) }

  lemma StepConserves(s: Scan, d: Def, hasPk: bool)
    ensures Contents(Step(s, d, hasPk)) == Contents(s) + multiset{d}
  {
    if PutsBack(s, d) {
      var k := FindKey(s.skipped, d.constraint.value);
      assert s.skipped == s.skipped[..k] + [s.skipped[k]] + s.skipped[k + 1..];
    }
  }

  lemma StepExtends(s: Scan, defs: seq<Def>, hasPk: bool, n: nat)
    requires n < |defs| && Contents(s) == multiset(defs[..n])
    ensures Contents(Step(s, defs[n], hasPk)) == multiset(defs[..n + 1])
  {
    StepConserves(s, defs[n], hasPk);
    MultisetSnoc(defs, n);
  }

  /** Nothing is lost, invented or duplicated: what stays plus what is deferred is the table. */
  lemma {:induction false} ScanConserves(defs: seq<Def>, hasPk: bool, n: nat)
    requires n <= |defs|
    ensures Contents(Scanned(defs, hasPk, n)) == multiset(defs[..n])
    decreases n
  {
    hide Contents, Step;
    if n == 0 {
      StartIsEmpty(defs);
    } else {
      ScanConserves(defs, hasPk, n - 1);
      StepExtends(Scanned(defs, hasPk, n - 1), defs, hasPk, n - 1);
    }
  }

  lemma StartIsEmpty(defs: seq<Def>)
    ensures Contents(START) == multiset(defs[..0])
  {
  }

  /** The reduced table and the deferred keys together hold every definition exactly as often
      as the table does. */
  lemma DefinitionsConserved(defs: seq<Def>, hasPk: bool)
    ensures var t := Scanned(defs, hasPk, |defs|);
            multiset(t.kept) + multiset(t.skipped) == multiset(defs)
  {
    ScanConserves(defs, hasPk, |defs|);
    assert defs[..|defs|] == defs;
  }

  // ---------- the same decision on the table as a whole ----------

  /** A line is a key, a constraint or a column, and only a column announces AUTO_INCREMENT. */
  ghost predicate CoherentDef(d: Def) {
    && (d.kind.NoKey? || (d.autoinc.None? && d.constraint.None?))
    && (d.constraint.None? || d.autoinc.None?)
  }

  ghost predicate Coherent(defs: seq<Def>) {
    forall i :: 0 <= i < |defs| ==> CoherentDef(defs[i])
  }

  ghost predicate NoClash(a: Def, b: Def) {
    IsSecondary(a) && IsSecondary(b) ==> a.name != b.name
  }

  /** Key names are distinct (the server guarantees this within a table). */
  ghost predicate DistinctKeyNames(defs: seq<Def>) {
    forall i, j :: 0 <= i < j < |defs| ==> NoClash(defs[i], defs[j])
  }

  /** A PRIMARY key, or a UNIQUE key standing in for it, precedes position n. */
  ghost predicate PkBefore(defs: seq<Def>, hasPk: bool, n: nat)
    requires n <= |defs|
  {
    exists i :: 0 <= i < n && (defs[i].kind.Primary? || (hasPk && defs[i].kind.Unique?))
  }

  /** Column k announces AUTO_INCREMENT column a, and no definition between k and n
      replaces it or leads with (a prefix of) it. */
  ghost predicate AwaitsKey(defs: seq<Def>, k: nat, n: nat, a: string)
    requires k < n <= |defs|
  {
    && defs[k].autoinc == Some(a)
    && forall j :: k < j < n ==> defs[j].autoinc.None? && !LeadsWith(defs[j], Some(a))
  }

  /** Definition i is the first key after its AUTO_INCREMENT column that leads with it. */
  ghost predicate ServesAutoinc(defs: seq<Def>, i: nat)
    requires i < |defs|
  {
    exists k, a :: 0 <= k < i && AwaitsKey(defs, k, i, a) && LeadsWith(defs[i], Some(a))
  }

  /** The decision taken when line i is met, stated on the table alone. */
  ghost predicate DeferredWhenMet(defs: seq<Def>, hasPk: bool, i: nat)
    requires i < |defs|
  {
    && IsSecondary(defs[i])
    && !(defs[i].kind.Unique? && hasPk && !PkBefore(defs, hasPk, i))
    && !ServesAutoinc(defs, i)
  }

  /** A constraint between i and n carries the name of key i. */
  ghost predicate NamedByConstraint(defs: seq<Def>, i: nat, n: nat)
    requires i < |defs| && n <= |defs|
  {
    exists j :: i < j < n && defs[j].constraint.Some? && defs[j].constraint == defs[i].name
  }

  /** Once n lines have been met, definition i is deferred. */
  ghost predicate DeferredAfter(defs: seq<Def>, hasPk: bool, i: nat, n: nat)
    requires i < |defs| && n <= |defs|
  {
    DeferredWhenMet(defs, hasPk, i) && !NamedByConstraint(defs, i, n)
  }

  /** The definitions below m that are deferred once n lines have been met, last one first. */
  ghost function Deferred(defs: seq<Def>, hasPk: bool, m: nat, n: nat): seq<Def>
    requires m <= |defs| && n <= |defs|
  {
    if m == 0 then []
    else
      var rest := Deferred(defs, hasPk, m - 1, n);
      if DeferredAfter(defs, hasPk, m - 1, n) then [defs[m - 1]] + rest else rest
  }

  lemma {:induction false} PkDoneMeans(defs: seq<Def>, hasPk: bool, n: nat)
    requires n <= |defs| && Coherent(defs)
    ensures Scanned(defs, hasPk, n).pkDone <==> PkBefore(defs, hasPk, n)
  {
    hide Step;
    if n > 0 {
      PkDoneMeans(defs, hasPk, n - 1);
      StepDonePk(Scanned(defs, hasPk, n - 1), defs[n - 1], hasPk);
    }
  }

  lemma StepDonePk(s: Scan, d: Def, hasPk: bool)
    requires CoherentDef(d)
    ensures s.pkDone || !(hasPk && d.kind.Unique?) ==> Step(s, d, hasPk).pkDone == (s.pkDone || d.kind.Primary?)
    ensures !s.pkDone && hasPk && d.kind.Unique? ==> Step(s, d, hasPk).pkDone
  {
    hide FindKey, LeadsWith;
  }

  lemma {:induction false} AutoincMeans(defs: seq<Def>, hasPk: bool, n: nat)
    requires n <= |defs| && Coherent(defs)
    ensures var c := Scanned(defs, hasPk, n).autoinc;
            && (c.Some? ==> exists k :: 0 <= k < n && AwaitsKey(defs, k, n, c.value))
            && (forall k, a :: 0 <= k < n && AwaitsKey(defs, k, n, a) ==> c == Some(a))
  {
    if n > 0 {
      AutoincMeans(defs, hasPk, n - 1);
      var s, d := Scanned(defs, hasPk, n - 1), defs[n - 1];
      var c := Step(s, d, hasPk).autoinc;
      if c.Some? {
        if d.autoinc.Some? && !PutsBack(s, d) {
          assert AwaitsKey(defs, n - 1, n, c.value);
        } else {
          var k :| 0 <= k < n - 1 && AwaitsKey(defs, k, n - 1, c.value);
          assert AwaitsKey(defs, k, n, c.value);
        }
      }
      forall k, a | 0 <= k < n && AwaitsKey(defs, k, n, a)
        ensures c == Some(a)
      {
        if k < n - 1 { assert AwaitsKey(defs, k, n - 1, a); }
      }
    }
  }

  /** The streaming flags decide exactly as the closed form does. */
  lemma DeferralIsClosedForm(defs: seq<Def>, hasPk: bool, n: nat)
    requires n < |defs| && Coherent(defs)
    ensures Defers(Scanned(defs, hasPk, n), defs[n], hasPk) <==> DeferredWhenMet(defs, hasPk, n)
  {
    PkDoneMeans(defs, hasPk, n);
    AutoincMeans(defs, hasPk, n);
    var s := Scanned(defs, hasPk, n);
    if LeadsWith(defs[n], s.autoinc) {
      var k :| 0 <= k < n && AwaitsKey(defs, k, n, s.autoinc.value);
      assert ServesAutoinc(defs, n);
    }
  }

  // ---------- the list of deferred keys ----------

  ghost function DropName(s: seq<Def>, name: string): seq<Def> {
    if s == [] then []
    else if s[0].name == Some(name) then DropName(s[1..], name)
    else [s[0]] + DropName(s[1..], name)
  }

  lemma {:induction false} DropNameAbsent(s: seq<Def>, name: string)
    requires FindKey(s, name) == |s|
    ensures DropName(s, name) == s
  {
    if s != [] { DropNameAbsent(s[1..], name); }
  }

  lemma {:induction false} FindKeyAbsent(s: seq<Def>, name: string)
    requires forall e :: e in s ==> e.name != Some(name)
    ensures FindKey(s, name) == |s|
  {
    if s != [] { FindKeyAbsent(s[1..], name); }
  }

  /** Where a deferred definition comes from. */
  lemma {:induction false} DeferredOrigin(defs: seq<Def>, hasPk: bool, m: nat, n: nat, e: Def)
    requires m <= |defs| && n <= |defs| && e in Deferred(defs, hasPk, m, n)
    ensures IsSecondary(e)
    ensures exists i :: 0 <= i < m && defs[i] == e && DeferredAfter(defs, hasPk, i, n)
    decreases m
  {
    if m > 0 && !(DeferredAfter(defs, hasPk, m - 1, n) && e == defs[m - 1]) {
      DeferredOrigin(defs, hasPk, m - 1, n, e);
    }
  }

  lemma {:induction false} DeferredHolds(defs: seq<Def>, hasPk: bool, m: nat, n: nat, i: nat)
    requires i < m <= |defs| && n <= |defs| && DeferredAfter(defs, hasPk, i, n)
    ensures defs[i] in Deferred(defs, hasPk, m, n)
    decreases m
  {
    if i < m - 1 { DeferredHolds(defs, hasPk, m - 1, n, i); }
  }

  ghost predicate DistinctNames(s: seq<Def>) {
    forall i, j :: 0 <= i < j < |s| ==> s[i].name != s[j].name
  }

  /** With distinct names, removing the key found is removing the name. */
  lemma {:induction false} DropIsWithout(s: seq<Def>, name: string)
    requires DistinctNames(s) && FindKey(s, name) < |s|
    ensures DropName(s, name) == Without(s, FindKey(s, name))
  {
    if s[0].name == Some(name) {
      FindKeyAbsent(s[1..], name);
      DropNameAbsent(s[1..], name);
    } else {
      DropIsWithout(s[1..], name);
    }
  }

  lemma {:induction false} DeferredDistinct(defs: seq<Def>, hasPk: bool, m: nat, n: nat)
    requires m <= |defs| && n <= |defs| && DistinctKeyNames(defs)
    ensures DistinctNames(Deferred(defs, hasPk, m, n))
    decreases m
  {
    hide DeferredWhenMet, NamedByConstraint;
    if m > 0 {
      DeferredDistinct(defs, hasPk, m - 1, n);
      var r := Deferred(defs, hasPk, m - 1, n);
      if DeferredAfter(defs, hasPk, m - 1, n) {
        DeferredHolds(defs, hasPk, m, n, m - 1);
        DeferredOrigin(defs, hasPk, m, n, defs[m - 1]);
        forall j | 0 <= j < |r| ensures r[j].name != defs[m - 1].name {
          DeferredOrigin(defs, hasPk, m - 1, n, r[j]);
          assert forall i :: 0 <= i < m - 1 ==> NoClash(defs[i], defs[m - 1]);
        }
      }
    }
  }

  lemma DropNameCons(d: Def, s: seq<Def>, name: string)
    ensures DropName([d] + s, name) == if d.name == Some(name) then DropName(s, name) else [d] + DropName(s, name)
  {
    assert ([d] + s)[1..] == s;
  }

  lemma OneMoreLineAt(defs: seq<Def>, hasPk: bool, i: nat, n: nat)
    requires i < n < |defs|
    ensures var c := defs[n].constraint;
            DeferredAfter(defs, hasPk, i, n + 1) <==>
              DeferredAfter(defs, hasPk, i, n) && !(c.Some? && c == defs[i].name)
  {
    hide DeferredWhenMet;
  }

  /** Meeting a constraint takes the key it names off the list, and nothing else. */
  lemma {:induction false} OneMoreConstraint(defs: seq<Def>, hasPk: bool, m: nat, n: nat, name: string)
    requires m <= n < |defs| && defs[n].constraint == Some(name)
    ensures Deferred(defs, hasPk, m, n + 1) == DropName(Deferred(defs, hasPk, m, n), name)
    decreases m
  {
    hide DeferredAfter;
    if m > 0 {
      OneMoreConstraint(defs, hasPk, m - 1, n, name);
      OneMoreLineAt(defs, hasPk, m - 1, n);
      DropNameCons(defs[m - 1], Deferred(defs, hasPk, m - 1, n), name);
    }
  }

  lemma {:induction false} OneMoreOther(defs: seq<Def>, hasPk: bool, m: nat, n: nat)
    requires m <= n < |defs| && defs[n].constraint.None?
    ensures Deferred(defs, hasPk, m, n + 1) == Deferred(defs, hasPk, m, n)
    decreases m
  {
    hide DeferredAfter;
    if m > 0 {
      OneMoreOther(defs, hasPk, m - 1, n);
      OneMoreLineAt(defs, hasPk, m - 1, n);
    }
  }

  lemma DeferredWhenMetOnly(defs: seq<Def>, hasPk: bool, n: nat)
    requires n < |defs|
    ensures var rest := Deferred(defs, hasPk, n, n + 1);
            Deferred(defs, hasPk, n + 1, n + 1) == if DeferredWhenMet(defs, hasPk, n) then [defs[n]] + rest else rest
  {
    hide DeferredWhenMet;
    assert !NamedByConstraint(defs, n, n + 1);
  }

  lemma SkippedStep(defs: seq<Def>, hasPk: bool, n: nat, s: Scan)
    requires n < |defs| && CoherentDef(defs[n]) && DistinctKeyNames(defs)
    requires s.skipped == Deferred(defs, hasPk, n, n)
    requires Defers(s, defs[n], hasPk) <==> DeferredWhenMet(defs, hasPk, n)
    ensures Step(s, defs[n], hasPk).skipped == Deferred(defs, hasPk, n + 1, n + 1)
  {
    hide DeferredWhenMet;
    DeferredWhenMetOnly(defs, hasPk, n);
    if defs[n].constraint.Some? {
      var name := defs[n].constraint.value;
      OneMoreConstraint(defs, hasPk, n, n, name);
      if PutsBack(s, defs[n]) {
        DeferredDistinct(defs, hasPk, n, n);
        DropIsWithout(s.skipped, name);
      } else {
        DropNameAbsent(s.skipped, name);
      }
    } else {
      OneMoreOther(defs, hasPk, n, n);
    }
  }

  /** The list of skipped keys, at every point of the scan, in closed form. */
  lemma {:induction false} SkippedIsDeferred(defs: seq<Def>, hasPk: bool, n: nat)
    requires n <= |defs| && Coherent(defs) && DistinctKeyNames(defs)
    ensures Scanned(defs, hasPk, n).skipped == Deferred(defs, hasPk, n, n)
    decreases n
  {
    hide DeferredWhenMet, Step;
    if n > 0 {
      SkippedIsDeferred(defs, hasPk, n - 1);
      DeferralIsClosedForm(defs, hasPk, n - 1);
      SkippedStep(defs, hasPk, n - 1, Scanned(defs, hasPk, n - 1));
    }
  }

  /** The deferred definitions below m, in table order. */
  ghost function InTableOrder(defs: seq<Def>, hasPk: bool, m: nat): seq<Def>
    requires m <= |defs|
  {
    if m == 0 then []
    else
      var before := InTableOrder(defs, hasPk, m - 1);
      if DeferredAfter(defs, hasPk, m - 1, |defs|) then before + [defs[m - 1]] else before
  }

  lemma {:induction false} ReversedIsInTableOrder(defs: seq<Def>, hasPk: bool, m: nat)
    requires m <= |defs|
    ensures Reverse(Deferred(defs, hasPk, m, |defs|)) == InTableOrder(defs, hasPk, m)
    decreases m
  {
    hide DeferredAfter;
    if m > 0 {
      ReversedIsInTableOrder(defs, hasPk, m - 1);
      assert ([defs[m - 1]] + Deferred(defs, hasPk, m - 1, |defs|))[1..] == Deferred(defs, hasPk, m - 1, |defs|);
    }
  }

  /** Reversed, as it is before it is written out, the list of skipped keys holds exactly the
      deferred definitions in the order of the table. */
  lemma MovedKeysKeepOrder(defs: seq<Def>, hasPk: bool)
    requires Coherent(defs) && DistinctKeyNames(defs)
    ensures Reverse(Scanned(defs, hasPk, |defs|).skipped) == InTableOrder(defs, hasPk, |defs|)
  {
    SkippedIsDeferred(defs, hasPk, |defs|);
    ReversedIsInTableOrder(defs, hasPk, |defs|);
  }

  lemma SameKey(defs: seq<Def>, i: nat, j: nat)
    requires i < |defs| && j < |defs| && DistinctKeyNames(defs)
    requires IsSecondary(defs[i]) && IsSecondary(defs[j]) && defs[i].name == defs[j].name
    ensures i == j
  {
  }

  // ---------- the list of definitions that stay ----------

  /** Constraint i names key q, which is deferred when i is met. */
  ghost predicate Names(defs: seq<Def>, hasPk: bool, q: nat, i: nat)
    requires q < i < |defs|
  {
    defs[i].constraint.Some? && defs[i].constraint == defs[q].name && DeferredAfter(defs, hasPk, q, i)
  }

  /** What line i adds to the table: nothing, itself, or itself behind the key it names. */
  ghost function Piece(defs: seq<Def>, hasPk: bool, i: nat): seq<Def>
    requires i < |defs|
  {
    if exists q :: 0 <= q < i && Names(defs, hasPk, q, i) then
      var q :| 0 <= q < i && Names(defs, hasPk, q, i);
      [defs[q], defs[i]]
    else if DeferredWhenMet(defs, hasPk, i) then []
    else [defs[i]]
  }

  ghost function Kept(defs: seq<Def>, hasPk: bool, n: nat): seq<Def>
    requires n <= |defs|
  {
    if n == 0 then [] else Kept(defs, hasPk, n - 1) + Piece(defs, hasPk, n - 1)
  }

  /** The streaming look-up finds a key exactly when some key is named, and finds that one. */
  lemma FoundIsNamed(defs: seq<Def>, hasPk: bool, n: nat, s: Scan)
    requires n < |defs| && DistinctKeyNames(defs)
    requires s.skipped == Deferred(defs, hasPk, n, n)
    ensures PutsBack(s, defs[n]) <==> exists q :: 0 <= q < n && Names(defs, hasPk, q, n)
    ensures PutsBack(s, defs[n]) ==>
      forall q :: 0 <= q < n && Names(defs, hasPk, q, n) ==>
        s.skipped[FindKey(s.skipped, defs[n].constraint.value)] == defs[q]
  {
    hide DeferredWhenMet, NamedByConstraint;
    forall q | 0 <= q < n && Names(defs, hasPk, q, n)
      ensures PutsBack(s, defs[n])
    {
      DeferredHolds(defs, hasPk, n, n, q);
      assert defs[q] in s.skipped;
    }
    if PutsBack(s, defs[n]) {
      var e := s.skipped[FindKey(s.skipped, defs[n].constraint.value)];
      DeferredOrigin(defs, hasPk, n, n, e);
      var i :| 0 <= i < n && defs[i] == e && DeferredAfter(defs, hasPk, i, n);
      assert Names(defs, hasPk, i, n);
      forall q | 0 <= q < n && Names(defs, hasPk, q, n)
        ensures e == defs[q]
      {
        DeferredHolds(defs, hasPk, n, n, q);
        DeferredOrigin(defs, hasPk, n, n, defs[q]);
        SameKey(defs, i, q);
      }
    }
  }

  lemma KeptStep(defs: seq<Def>, hasPk: bool, n: nat, s: Scan)
    requires n < |defs| && DistinctKeyNames(defs)
    requires s.skipped == Deferred(defs, hasPk, n, n)
    requires Defers(s, defs[n], hasPk) <==> DeferredWhenMet(defs, hasPk, n)
    ensures Step(s, defs[n], hasPk).kept == s.kept + Piece(defs, hasPk, n)
  {
    hide DeferredWhenMet, Deferred, Names;
    FoundIsNamed(defs, hasPk, n, s);
  }

  /** The reduced table, in closed form: the definitions that stay, in table order, each
      key that was put back standing directly before the constraint of its name. */
  lemma {:induction false} KeptIsClosedForm(defs: seq<Def>, hasPk: bool, n: nat)
    requires n <= |defs| && Coherent(defs) && DistinctKeyNames(defs)
    ensures Scanned(defs, hasPk, n).kept == Kept(defs, hasPk, n)
    decreases n
  {
    hide DeferredWhenMet, Step, Piece;
    if n > 0 {
      KeptIsClosedForm(defs, hasPk, n - 1);
      SkippedIsDeferred(defs, hasPk, n - 1);
      DeferralIsClosedForm(defs, hasPk, n - 1);
      KeptStep(defs, hasPk, n - 1, Scanned(defs, hasPk, n - 1));
    }
  }

  // ---------- membership ----------

  lemma {:induction false} SingleOccurrence(defs: seq<Def>, i: nat)
    requires i < |defs|
    requires forall j :: 0 <= j < |defs| && j != i ==> defs[j] != defs[i]
    ensures multiset(defs)[defs[i]] == 1
  {
    assert defs == defs[..i] + [defs[i]] + defs[i + 1..];
    assert defs[i] !in defs[..i] && defs[i] !in defs[i + 1..];
  }

  /** A definition is in the reduced table exactly when it is not among the deferred ones. */
  lemma StaysIff(defs: seq<Def>, hasPk: bool, i: nat)
    requires i < |defs| && Coherent(defs) && DistinctKeyNames(defs)
    ensures defs[i] in Scanned(defs, hasPk, |defs|).kept <==> !DeferredAfter(defs, hasPk, i, |defs|)
  {
    hide DeferredWhenMet, NamedByConstraint, Scanned;
    var n := |defs|;
    var s := Scanned(defs, hasPk, n);
    SkippedIsDeferred(defs, hasPk, n);
    ScanConserves(defs, hasPk, n);
    assert defs[..n] == defs;
    assert Contents(s)[defs[i]] == multiset(s.kept)[defs[i]] + multiset(s.skipped)[defs[i]];
    if DeferredAfter(defs, hasPk, i, n) {
      DeferredHolds(defs, hasPk, n, n, i);
      DeferredOrigin(defs, hasPk, n, n, defs[i]);
      forall j | 0 <= j < n && defs[j] == defs[i] ensures j == i { SameKey(defs, i, j); }
      SingleOccurrence(defs, i);
    } else {
      if defs[i] in s.skipped {
        DeferredOrigin(defs, hasPk, n, n, defs[i]);
        var j :| 0 <= j < n && defs[j] == defs[i] && DeferredAfter(defs, hasPk, j, n);
        SameKey(defs, i, j);
      }
      assert defs[i] in multiset(defs);
    }
  }

  // ---------- the AUTO_INCREMENT column stays indexed ----------

  /** d is a key whose first column is exactly a. */
  ghost predicate KeyOn(d: Def, a: string) { !d.kind.NoKey? && d.lead == Some(a) }

  ghost predicate HasKeyOn(defs: seq<Def>, a: string) { exists d :: d in defs && KeyOn(d, a) }

  /** What a caller can check beforehand about key i on column a. */
  ghost predicate SafeKeyOn(defs: seq<Def>, hasPk: bool, i: nat, a: string)
    requires i < |defs|
  {
    && KeyOn(defs[i], a)
    && (|| defs[i].kind.Primary?
        || (defs[i].kind.Unique? && hasPk && !PkBefore(defs, hasPk, i))
        || ServesAutoinc(defs, i)
        || NamedByConstraint(defs, i, |defs|))
  }

  /** The reduced table has a key on column a exactly when one of the table's keys on a is the
      primary key or stands in for it, is the first key matching its AUTO_INCREMENT column,
      or is named by a later constraint. */
  lemma KeyOnStaysIff(defs: seq<Def>, hasPk: bool, a: string)
    requires Coherent(defs) && DistinctKeyNames(defs)
    ensures HasKeyOn(Scanned(defs, hasPk, |defs|).kept, a) <==>
            exists i :: 0 <= i < |defs| && SafeKeyOn(defs, hasPk, i, a)
  {
    hide PkBefore, ServesAutoinc, NamedByConstraint, Scanned;
    var n := |defs|;
    var kept := Scanned(defs, hasPk, n).kept;
    if HasKeyOn(kept, a) {
      var d :| d in kept && KeyOn(d, a);
      ScanConserves(defs, hasPk, n);
      assert defs[..n] == defs;
      assert d in multiset(kept) && d in multiset(defs);
      var i :| 0 <= i < n && defs[i] == d;
      StaysIff(defs, hasPk, i);
      assert SafeKeyOn(defs, hasPk, i, a);
    }
    forall i | 0 <= i < n && SafeKeyOn(defs, hasPk, i, a)
      ensures HasKeyOn(kept, a)
    {
      StaysIff(defs, hasPk, i);
    }
  }

  lemma {:induction false} FirstMatch(defs: seq<Def>, k: nat, i: nat, a: string) returns (f: nat)
    requires k < i < |defs| && defs[k].autoinc == Some(a)
    requires forall j :: k < j < |defs| ==> defs[j].autoinc.None?
    requires LeadsWith(defs[i], Some(a))
    ensures k < f <= i && LeadsWith(defs[f], Some(a)) && ServesAutoinc(defs, f)
  {
    if j :| k < j < i && LeadsWith(defs[j], Some(a)) {
      f := FirstMatch(defs, k, j, a);
    } else {
      f := i;
      assert AwaitsKey(defs, k, i, a);
    }
  }

  /** If a key leads with the column that definition k announces as AUTO_INCREMENT, so does one of the reduced table,
      provided no later definition announces another one and no key leads with a proper prefix of it. */
  lemma AutoincKeyStays(defs: seq<Def>, hasPk: bool, k: nat, a: string)
    requires Coherent(defs) && DistinctKeyNames(defs)
    requires k < |defs| && defs[k].autoinc == Some(a)
    requires forall j :: k < j < |defs| ==> defs[j].autoinc.None?
    requires forall j :: k < j < |defs| && LeadsWith(defs[j], Some(a)) ==> defs[j].lead == Some(a)
    requires exists i :: k < i < |defs| && KeyOn(defs[i], a)
    ensures HasKeyOn(Scanned(defs, hasPk, |defs|).kept, a)
  {
    hide ServesAutoinc, PkBefore, NamedByConstraint;
    var i :| k < i < |defs| && KeyOn(defs[i], a);
    var f := FirstMatch(defs, k, i, a);
    assert SafeKeyOn(defs, hasPk, f, a);
    KeyOnStaysIff(defs, hasPk, a);
  }
}
