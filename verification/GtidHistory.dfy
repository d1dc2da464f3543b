/** Where the output of client/mysqlbinlog.cc breaks a replaying session, said of the log alone: for every log of GTID
    groups, complete or given up, in terms of the events before and what has come since. */
module GtidHistory {
  import opened Text
  import opened Binlog
  import opened GtidFiltering
  import opened GtidGroups

  // ---------- what event j is ----------

  ghost predicate At(o: Options, evs: seq<Event>, j: nat, p: Phase) {
    j < |evs| && PhaseAfter(o, evs[..j]) == Some(p)
  }

  /** A GTID that is not filtered. */
  ghost predicate Passing(o: Options, evs: seq<Event>, j: nat) {
    j < |evs| && evs[j].body.Gtid? && !Fails(o, evs[j].body.gtid)
  }

  /** BEGIN of a group that is not filtered. */
  ghost predicate Begins(o: Options, evs: seq<Event>, j: nat) {
    At(o, evs, j, Opened(true)) && evs[j].body.Query? && evs[j].body.starts
  }

  /** COMMIT or XID of such a group. */
  ghost predicate Ending(o: Options, evs: seq<Event>, j: nat) { At(o, evs, j, Inside(true)) && Ends(evs[j].body) }

  /** Such a group that is one statement. */
  ghost predicate Alone(o: Options, evs: seq<Event>, j: nat) {
    At(o, evs, j, Opened(true)) && PlainQuery(evs[j].body)
  }

  /** A format description at which an open group is given up. */
  ghost predicate Abandons(evs: seq<Event>, j: nat) { j < |evs| && GivesUp(LocalServer(evs[..j]), evs[j]) }

  // ---------- what has come since ----------

  /** A BEGIN, and neither COMMIT nor XID since: its group was given up, or is still open. */
  ghost predicate OpenAt(o: Options, evs: seq<Event>, n: nat) {
    exists j :: 0 <= j < n && Begins(o, evs, j) && forall k :: j < k < n ==> !Ending(o, evs, k)
  }

  /** A table map of table t that --database drops. */
  ghost predicate DropsMap(o: Options, evs: seq<Event>, j: nat, t: nat) {
    At(o, evs, j, Inside(true)) && evs[j].body.TableMap? && evs[j].body.tableId == t && SkipDatabase(o, evs[j].body.tdb)
  }

  ghost predicate EndsRows(o: Options, evs: seq<Event>, j: nat) {
    At(o, evs, j, Inside(true)) && evs[j].body.Rows? && evs[j].body.stmtEnd
  }

  /** Table t was mapped and its map dropped, and no row statement has ended since. */
  ghost predicate MapDropped(o: Options, evs: seq<Event>, t: nat, n: nat) {
    exists j :: 0 <= j < n && DropsMap(o, evs, j, t) && forall k :: j < k < n ==> !EndsRows(o, evs, k)
  }

  /** A statement of its own that --database drops after a group was given up. */
  ghost predicate DropsAlone(o: Options, evs: seq<Event>, j: nat) {
    Alone(o, evs, j) && QuerySkips(o, evs[j].body) && OpenAt(o, evs, j)
  }

  /** --database drops the event from its group. */
  ghost predicate Dropped(o: Options, evs: seq<Event>, j: nat) {
    || DropsAlone(o, evs, j)
    || (At(o, evs, j, Inside(true)) && !Ends(evs[j].body) &&
        if evs[j].body.Rows? then MapDropped(o, evs, evs[j].body.tableId, j) else DropsEvent(o, {}, evs[j].body))
  }

  /** An event of the last group that passes was dropped, and the group has not ended. */
  ghost predicate DropsAt(o: Options, evs: seq<Event>, n: nat) {
    exists j :: 0 <= j < n && Dropped(o, evs, j) && forall k :: j < k < n ==> !Ending(o, evs, k) && !Passing(o, evs, k)
  }

  /** No COMMIT was added for a statement dropped after a group was given up, and its GTID still waits. */
  ghost predicate ArmedAt(o: Options, evs: seq<Event>, n: nat) {
    exists j :: 0 <= j < n && DropsAlone(o, evs, j) && forall k :: j < k < n ==> !Passing(o, evs, k) && !Abandons(evs, k)
  }

  /** The event shows that the last GTID has been used, or that a server has started. */
  ghost predicate Spends(o: Options, evs: seq<Event>, j: nat) {
    || (j < |evs| && evs[j].body.FormatDescription? && evs[j].body.created)
    || Ending(o, evs, j)
    || (Alone(o, evs, j) && !QuerySkips(o, evs[j].body) && !OpenAt(o, evs, j))
  }

  /** A GTID passed, and nothing has shown it to be used. */
  ghost predicate UnspentAt(o: Options, evs: seq<Event>, n: nat) {
    exists j :: 0 <= j < n && Passing(o, evs, j) && forall k :: j < k < n ==> !Spends(o, evs, k)
  }

  // ---------- one event more ----------

  lemma OpenStep(o: Options, evs: seq<Event>, n: nat)
    ensures OpenAt(o, evs, n + 1) <==> Begins(o, evs, n) || (OpenAt(o, evs, n) && !Ending(o, evs, n))
  {
    hide Begins, Ending;
  }

  lemma MapStep(o: Options, evs: seq<Event>, t: nat, n: nat)
    ensures MapDropped(o, evs, t, n + 1) <==> DropsMap(o, evs, n, t) || (MapDropped(o, evs, t, n) && !EndsRows(o, evs, n))
  {
    hide DropsMap, EndsRows;
  }

  lemma DropStep(o: Options, evs: seq<Event>, n: nat)
    ensures DropsAt(o, evs, n + 1) <==>
            Dropped(o, evs, n) || (DropsAt(o, evs, n) && !Ending(o, evs, n) && !Passing(o, evs, n))
  {
    hide Dropped, Ending, Passing;
  }

  lemma ArmStep(o: Options, evs: seq<Event>, n: nat)
    ensures ArmedAt(o, evs, n + 1) <==>
            DropsAlone(o, evs, n) || (ArmedAt(o, evs, n) && !Passing(o, evs, n) && !Abandons(evs, n))
  {
    hide DropsAlone, Passing, Abandons;
  }

  lemma UnspentStep(o: Options, evs: seq<Event>, n: nat)
    ensures UnspentAt(o, evs, n + 1) <==> Passing(o, evs, n) || (UnspentAt(o, evs, n) && !Spends(o, evs, n))
  {
    hide Passing, Spends;
  }

  // ---------- what the log leaves behind ----------

  /** The record of what is left behind says this of the first n events. */
  ghost predicate Tells(o: Options, evs: seq<Event>, n: nat, l: Left) {
    && (l.open <==> OpenAt(o, evs, n)) && (l.drops <==> DropsAt(o, evs, n)) && (l.armed <==> ArmedAt(o, evs, n))
    && (l.unspent <==> UnspentAt(o, evs, n)) && forall t: nat :: t in l.ignored <==> MapDropped(o, evs, t, n)
  }

  /** Directly after a GTID that passes. */
  ghost predicate JustOpened(p: Phase, l: Left) { p == Opened(true) ==> l.unspent && !l.drops && !l.armed }

  lemma StillOpened(o: Options, local: int, p: Phase, l: Left, ev: Event)
    requires JustOpened(p, l) && Advance(o, local, p, ev).Some?
    ensures JustOpened(Advance(o, local, p, ev).value, LeftAfter(o, local, p, l, ev))
  {
    hide Foreign, Fails, QuerySkips;
  }

  /** What event n is, from the phase before it. */
  lemma EventIs(o: Options, evs: seq<Event>, n: nat, p: Phase)
    requires n < |evs| && PhaseAfter(o, evs[..n]) == Some(p)
    ensures var b := evs[n].body;
            && (Passing(o, evs, n) <==> b.Gtid? && !Fails(o, b.gtid))
            && (Begins(o, evs, n) <==> p == Opened(true) && b.Query? && b.starts)
            && (Ending(o, evs, n) <==> p == Inside(true) && Ends(b))
            && (Alone(o, evs, n) <==> p == Opened(true) && PlainQuery(b))
            && (Abandons(evs, n) <==> GivesUp(LocalServer(evs[..n]), evs[n]))
            && (EndsRows(o, evs, n) <==> p == Inside(true) && b.Rows? && b.stmtEnd)
  {
  }

  lemma OpenTold(o: Options, evs: seq<Event>, n: nat, p: Phase, l: Left)
    requires n < |evs| && PhaseAfter(o, evs[..n]) == Some(p) && Advance(o, LocalServer(evs[..n]), p, evs[n]).Some?
    requires l.open <==> OpenAt(o, evs, n)
    ensures LeftAfter(o, LocalServer(evs[..n]), p, l, evs[n]).open <==> OpenAt(o, evs, n + 1)
  {
    hide OpenAt, Begins, Ending, PhaseAfter, LocalServer, Fails, QuerySkips, DropsEvent;
    OpenStep(o, evs, n);
    EventIs(o, evs, n, p);
  }

  lemma MapTold(o: Options, evs: seq<Event>, n: nat, p: Phase, l: Left, t: nat)
    requires n < |evs| && PhaseAfter(o, evs[..n]) == Some(p)
    requires t in l.ignored <==> MapDropped(o, evs, t, n)
    ensures t in LeftAfter(o, LocalServer(evs[..n]), p, l, evs[n]).ignored <==> MapDropped(o, evs, t, n + 1)
  {
    hide MapDropped, PhaseAfter, LocalServer, Fails, QuerySkips, SkipDatabase, DropsEvent;
    MapStep(o, evs, t, n);
    EventIs(o, evs, n, p);
  }

  lemma DropTold(o: Options, evs: seq<Event>, n: nat, p: Phase, l: Left)
    requires n < |evs| && PhaseAfter(o, evs[..n]) == Some(p) && Advance(o, LocalServer(evs[..n]), p, evs[n]).Some?
    requires Tells(o, evs, n, l) && JustOpened(p, l)
    ensures LeftAfter(o, LocalServer(evs[..n]), p, l, evs[n]).drops <==> DropsAt(o, evs, n + 1)
  {
    hide DropsAt, MapDropped, OpenAt, ArmedAt, UnspentAt, Ending, Alone, Passing, PhaseAfter, LocalServer, Fails, QuerySkips, SkipDatabase;
    DropStep(o, evs, n);
    EventIs(o, evs, n, p);
  }

  lemma ArmTold(o: Options, evs: seq<Event>, n: nat, p: Phase, l: Left)
    requires n < |evs| && PhaseAfter(o, evs[..n]) == Some(p) && Advance(o, LocalServer(evs[..n]), p, evs[n]).Some?
    requires (l.open <==> OpenAt(o, evs, n)) && (l.armed <==> ArmedAt(o, evs, n)) && JustOpened(p, l)
    ensures LeftAfter(o, LocalServer(evs[..n]), p, l, evs[n]).armed <==> ArmedAt(o, evs, n + 1)
  {
    hide ArmedAt, OpenAt, Alone, Passing, Abandons, PhaseAfter, LocalServer, Fails, QuerySkips, SkipDatabase, DropsEvent;
    ArmStep(o, evs, n);
    EventIs(o, evs, n, p);
  }

  lemma UnspentTold(o: Options, evs: seq<Event>, n: nat, p: Phase, l: Left)
    requires n < |evs| && PhaseAfter(o, evs[..n]) == Some(p) && Advance(o, LocalServer(evs[..n]), p, evs[n]).Some?
    requires (l.open <==> OpenAt(o, evs, n)) && (l.unspent <==> UnspentAt(o, evs, n)) && JustOpened(p, l)
    ensures LeftAfter(o, LocalServer(evs[..n]), p, l, evs[n]).unspent <==> UnspentAt(o, evs, n + 1)
  {
    hide UnspentAt, OpenAt, Ending, Alone, Passing, PhaseAfter, LocalServer, Fails, QuerySkips, SkipDatabase, DropsEvent;
    UnspentStep(o, evs, n);
    EventIs(o, evs, n, p);
  }

  lemma {:induction false} LeftTells(o: Options, evs: seq<Event>, n: nat)
    requires n <= |evs| && PhaseAfter(o, evs[..n]).Some?
    ensures Tells(o, evs, n, LeftBy(o, evs[..n])) && JustOpened(PhaseAfter(o, evs[..n]).value, LeftBy(o, evs[..n]))
    decreases n
  {
    hide Advance, LeftAfter, OpenAt, MapDropped, DropsAt, ArmedAt, UnspentAt, JustOpened;
    if n == 0 {
      NothingTold(o, evs);
    } else {
      assert evs[..n][..n - 1] == evs[..n - 1];
      var local, p, l := LocalServer(evs[..n - 1]), PhaseAfter(o, evs[..n - 1]).value, LeftBy(o, evs[..n - 1]);
      LeftTells(o, evs, n - 1);
      StillOpened(o, local, p, l, evs[n - 1]);
      OpenTold(o, evs, n - 1, p, l);
      DropTold(o, evs, n - 1, p, l);
      ArmTold(o, evs, n - 1, p, l);
      UnspentTold(o, evs, n - 1, p, l);
      forall t: nat ensures t in LeftAfter(o, local, p, l, evs[n - 1]).ignored <==> MapDropped(o, evs, t, n) {
        MapTold(o, evs, n - 1, p, l, t);
      }
    }
  }

  lemma NothingTold(o: Options, evs: seq<Event>)
    ensures Tells(o, evs, 0, NOTHING) && JustOpened(Between, NOTHING) && PhaseAfter(o, evs[..0]) == Some(Between)
    ensures LeftBy(o, evs[..0]) == NOTHING
  {
    assert evs[..0] == [];
  }

  // ---------- where the session breaks ----------

  /** No group that passes is open, and no GTID waits. */
  ghost predicate NoneOpen(o: Options, evs: seq<Event>, n: nat)
    requires n <= |evs|
  {
    var p := PhaseAfter(o, evs[..n]);
    p != Some(Opened(true)) && p != Some(Inside(true)) && !ArmedAt(o, evs, n)
  }

  /** Event i makes the loop write a COMMIT for the last group, of which --database dropped a part and which has been
      given up; or BEGIN and ROLLBACK for a GTID that has been used. */
  ghost predicate BreaksHere(o: Options, evs: seq<Event>, i: nat)
    requires i < |evs|
  {
    NoneOpen(o, evs, i) &&
    if evs[i].body.Gtid? then Passing(o, evs, i) && DropsAt(o, evs, i)
    else Foreign(LocalServer(evs[..i]), evs[i]) && !evs[i].body.created && UnspentAt(o, evs, i) && !OpenAt(o, evs, i)
  }

  lemma BreaksHereIff(o: Options, evs: seq<Event>, i: nat)
    requires i < |evs| && PhaseAfter(o, evs[..i]).Some?
    ensures BreaksAt(o, evs, i) <==> BreaksHere(o, evs, i)
  {
    hide PhaseAfter, LeftBy, LocalServer, OpenAt, MapDropped, DropsAt, ArmedAt, UnspentAt, Fails, Foreign;
    LeftTells(o, evs, i);
  }

  /** For every log of GTID groups, complete or given up, with format descriptions of any servers: the complete output
      breaks a replaying session exactly when it does at an event the loop gets to, or at the end a COMMIT is written
      for a group that has been given up. */
  lemma ReplayBreaksWhere(o: Options, s: State, evs: seq<Event>)
    requires Initial(s) && s.fdServerId == 0 && !o.skipGtids && FromStart(o, s, evs) && PhaseAfter(o, evs).Some?
    ensures var t, g := Run(o, s, evs).0, Got(o, s, evs);
            ReadAll(Idle, t.out + FinishTokens(t.flags)).Broken? <==>
            (exists i :: 0 <= i < |g| && BreaksHere(o, g, i)) || (NoneOpen(o, g, |g|) && DropsAt(o, g, |g|))
  {
    hide Run, Got, PhaseAfter, LeftBy, BreaksHere, BreaksAt, ArmedAt, DropsAt, OpenAt, UnspentAt, MapDropped, ReadAll, FinishTokens;
    var g := Got(o, s, evs);
    ReplayBreaksIff(o, s, evs);
    assert g[..|g|] == g;
    LeftTells(o, g, |g|);
    forall i | 0 <= i < |g| ensures PhaseAfter(o, g[..i]).Some? && (BreaksAt(o, g, i) <==> BreaksHere(o, g, i)) {
      PhasePrefix(o, g, i);
      BreaksHereIff(o, g, i);
    }
  }

  /** And GTID_NEXT is left explicit exactly when nothing has shown the last GTID to be used. */
  lemma EndsExplicitWhere(o: Options, s: State, evs: seq<Event>)
    requires Initial(s) && s.fdServerId == 0 && !o.skipGtids && FromStart(o, s, evs) && PhaseAfter(o, evs).Some?
    ensures var t, g := Run(o, s, evs).0, Got(o, s, evs); Explicit(t.out + FinishTokens(t.flags)) <==> UnspentAt(o, g, |g|)
  {
    hide Run, Got, PhaseAfter, LeftBy, ArmedAt, DropsAt, OpenAt, UnspentAt, MapDropped, Explicit, FinishTokens;
    var g := Got(o, s, evs);
    EndsExplicitIff(o, s, evs);
    assert g[..|g|] == g;
    LeftTells(o, g, |g|);
  }

  // ---------- where GTID_NEXT is set back ----------

  ghost predicate Sane(f: Flags) { (f.nextSet ==> f.seenGtids) && (!f.nextValid ==> f.nextSet) }

  lemma FlagsStaySane(o: Options, s: State, ev: Event)
    requires Sane(s.flags)
    ensures Sane(FlagsAfter(o, s, ev))
  {
    hide QuerySkips, SkipDatabase, DropsDdl;
  }

  lemma {:induction false} SeenWhenSet(o: Options, s: State, evs: seq<Event>)
    requires Initial(s)
    ensures Sane(Run(o, s, evs).0.flags)
    decreases |evs|
  {
    hide FlagsAfter, FilesAfter, IgnoredAfter, TokensOf, GtidFilter, GateOf, RangeAfter, StatusOf;
    if evs != [] {
      var n := |evs| - 1;
      SeenWhenSet(o, s, evs[..n]);
      var t := Run(o, s, evs[..n]).0;
      FlagsStaySane(o, t.(filterOnGtids := GtidFilter(o, t.filterOnGtids, evs[n].body).1, range := RangeAfter(t.range, evs[n])), evs[n]);
    }
  }

  /** The event writes SET GTID_NEXT = AUTOMATIC. */
  ghost predicate SetsBack(t: State, u: State) { |t.out| <= |u.out| && SetAutomatic in u.out[|t.out|..] }

  /** A rotation that is not artificial sets GTID_NEXT back exactly when it is explicit, its GTID has been used and no
      transaction is open; a format description does when it is explicit and a server has started or the GTID has been
      used. */
  lemma SetsBackIff(o: Options, s: State, evs: seq<Event>, ev: Event)
    requires Initial(s) && s.fdServerId == 0 && !o.skipGtids && FromStart(o, s, evs) && PhaseAfter(o, evs).Some?
    requires Run(o, s, evs).1.OkContinue? && Accepted(o, Run(o, s, evs).0, ev) && (ev.body.Rotate? || ev.body.FormatDescription?)
    ensures var t, u, n := Run(o, s, evs).0, Run(o, s, evs + [ev]).0, |evs|;
            SetsBack(t, u) <==>
            Explicit(t.out) &&
            if ev.body.Rotate? then ev.when != 0 && !UnspentAt(o, evs, n) && !OpenAt(o, evs, n)
            else ev.body.created || !UnspentAt(o, evs, n)
  {
    hide *;
    var t, n := Run(o, s, evs).0, |evs|;
    WholePrefix(evs);
    SeenWhenSet(o, s, evs);
    RunMirrorsNext(o, s, evs);
    WholeInStep(o, s, evs);
    StepFlags(PhaseAfter(o, evs).value, LeftBy(o, evs), t, LocalServer(evs));
    LeftTells(o, evs, n);
    OpenAndUnspent(o, evs, n, LeftBy(o, evs));
    Writes(o, s, evs, ev);
    TokensSetBack(o, t, ev);
  }

  lemma WholePrefix<T>(s: seq<T>) ensures s[..|s|] == s {}

  lemma StepFlags(p: Phase, l: Left, s: State, local: int)
    requires InStep(p, l, s, local)
    ensures s.flags.inTransaction == l.open && (s.flags.nextSet && s.flags.nextValid) == l.unspent
  {
  }

  lemma OpenAndUnspent(o: Options, evs: seq<Event>, n: nat, l: Left)
    requires Tells(o, evs, n, l)
    ensures (l.open <==> OpenAt(o, evs, n)) && (l.unspent <==> UnspentAt(o, evs, n))
  {
    hide OpenAt, UnspentAt, DropsAt, ArmedAt, MapDropped;
  }

  /** What one more event adds to the output. */
  lemma Writes(o: Options, s: State, evs: seq<Event>, ev: Event)
    requires Run(o, s, evs).1.OkContinue? && Accepted(o, Run(o, s, evs).0, ev) && (ev.body.Rotate? || ev.body.FormatDescription?)
    ensures var t, u := Run(o, s, evs).0, Run(o, s, evs + [ev]).0; SetsBack(t, u) <==> SetAutomatic in TokensOf(o, t, ev)
  {
    hide FlagsAfter, FilesAfter, IgnoredAfter, GtidFilter, GateOf, RangeAfter, StatusOf, FdTokens;
    assert (evs + [ev])[..|evs|] == evs;
    var t := Run(o, s, evs).0;
    var t1 := t.(filterOnGtids := GtidFilter(o, t.filterOnGtids, ev.body).1, range := RangeAfter(t.range, ev));
    assert TokensOf(o, t1, ev) == TokensOf(o, t, ev) by { SameTokens(o, t, t1, ev); }
    Behind(t.out, TokensOf(o, t, ev));
  }

  lemma Behind<T>(a: seq<T>, b: seq<T>) ensures (a + b)[|a|..] == b {}

  lemma SameTokens(o: Options, s: State, t: State, ev: Event)
    requires s.flags == t.flags && s.fdServerId == t.fdServerId && (ev.body.Rotate? || ev.body.FormatDescription?)
    ensures TokensOf(o, s, ev) == TokensOf(o, t, ev)
  {
  }

  lemma TokensSetBack(o: Options, s: State, ev: Event)
    requires Sane(s.flags) && (ev.body.Rotate? || ev.body.FormatDescription?)
    ensures SetAutomatic in TokensOf(o, s, ev) <==>
            s.flags.nextSet &&
            if ev.body.Rotate? then ev.when != 0 && !s.flags.nextValid && !s.flags.inTransaction
            else ev.body.created || !s.flags.nextValid
  {
  }

  lemma WholeInStep(o: Options, s: State, evs: seq<Event>)
    requires Initial(s) && s.fdServerId == 0 && !o.skipGtids && FromStart(o, s, evs) && PhaseAfter(o, evs).Some?
    requires Run(o, s, evs).1.OkContinue?
    ensures InStep(PhaseAfter(o, evs).value, LeftBy(o, evs), Run(o, s, evs).0, LocalServer(evs))
  {
    hide InStep, Run, PhaseAfter, LeftBy, LocalServer, GetsTo;
    StillGoing(o, s, evs);
    RunInStep(o, s, evs);
  }

  // ---------- logs without GTIDs ----------

  /** As if no GTID had been seen. */
  ghost predicate Forgotten(f: Flags) { !f.seenGtids && !f.nextSet && f.nextValid }

  /** A token that is written on account of GTIDs. */
  ghost predicate OnAccount(t: Token) { t.SetGtid? || t.SetAutomatic? || t.AddedCommit? || t.BeginRollback? }

  lemma PlainStep(o: Options, s: State, ev: Event)
    requires Forgotten(s.flags) && !ev.body.Gtid?
    ensures Forgotten(FlagsAfter(o, s, ev)) && forall t :: t in TokensOf(o, s, ev) ==> !OnAccount(t)
  {
    hide SkipDatabase, FilesAfter, Grabbed;
  }

  /** While no GTID reaches the switch nothing is written on account of GTIDs, from the start or from a rotation that set
      GTID_NEXT back. */
  lemma {:induction false} PlainLogsStayPlain(o: Options, s: State, evs: seq<Event>)
    requires Forgotten(s.flags) && forall ev :: ev in Handled(o, s, evs) ==> !ev.body.Gtid?
    ensures var t := Run(o, s, evs).0;
            && Forgotten(t.flags) && |s.out| <= |t.out| && t.out[..|s.out|] == s.out
            && forall k :: |s.out| <= k < |t.out| ==> !OnAccount(t.out[k])
    decreases |evs|
  {
    hide FlagsAfter, FilesAfter, IgnoredAfter, TokensOf, RangeAfter, GtidFilter, GateOf, StatusOf, OnAccount, Forgotten;
    if evs != [] {
      var n := |evs| - 1;
      var (t, status) := Run(o, s, evs[..n]);
      var h := Handled(o, s, evs[..n]);
      assert forall ev :: ev in h ==> ev in Handled(o, s, evs);
      PlainLogsStayPlain(o, s, evs[..n]);
      if status.OkContinue? && Accepted(o, t, evs[n]) {
        assert evs[n] in Handled(o, s, evs);
        var t1 := t.(filterOnGtids := GtidFilter(o, t.filterOnGtids, evs[n].body).1, range := RangeAfter(t.range, evs[n]));
        PlainStep(o, t1, evs[n]);
      }
    }
  }

  lemma RotationForgets(o: Options, s: State, ev: Event)
    requires ev.body.Rotate? && SetAutomatic in TokensOf(o, s, ev)
    ensures Forgotten(FlagsAfter(o, s, ev))
  {
  }
}
