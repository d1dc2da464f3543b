/** What client/mysqlbinlog.cc prints over a whole run: every event that reaches the switch and is not dropped by
    --database, in order and once, and every GTID; and which events reach the switch. */
module BinlogOutput {
  import opened Text
  import opened Binlog
  import opened BufferedVars

  // ---------- which events are dropped ----------

  ghost predicate OfOther(o: Options, db: Option<string>) {
    o.database.Some? && db.Some? && db.value != o.database.value
  }

  /** A table map of table t in another database. */
  ghost predicate MapsAway(o: Options, h: seq<Event>, j: nat, t: nat) {
    j < |h| && h[j].body.TableMap? && h[j].body.tableId == t && OfOther(o, h[j].body.tdb)
  }

  ghost predicate EndsRows(h: seq<Event>, j: nat) { j < |h| && h[j].body.Rows? && h[j].body.stmtEnd }

  /** Table t was mapped to another database, and no row statement has ended since. */
  ghost predicate MappedAway(o: Options, h: seq<Event>, t: nat, n: nat) {
    exists j :: 0 <= j < n && MapsAway(o, h, j, t) && forall k :: j < k < n ==> !EndsRows(h, k)
  }

  /** --database drops event i of the history. */
  ghost predicate Away(o: Options, h: seq<Event>, i: nat)
    requires i < |h|
  {
    match h[i].body
    case Query(db, _, _, keyword) => !keyword && OfOther(o, db)
    case CreateFile(db, _, _, _) => OfOther(o, db)
    case TableMap(db, _) => OfOther(o, db)
    case Rows(t, _) => MappedAway(o, h, t, i)
    case _ => false
  }

  // ---------- what the output shows ----------

  ghost function PrintedIn(ts: seq<Token>): seq<Event> {
    if ts == [] then []
    else
      var n := |ts| - 1;
      if ts[n].Printed? then PrintedIn(ts[..n]) + [ts[n].ev] else PrintedIn(ts[..n])
  }

  ghost function GtidsIn(ts: seq<Token>): seq<nat> {
    if ts == [] then []
    else
      var n := |ts| - 1;
      if ts[n].SetGtid? then GtidsIn(ts[..n]) + [ts[n].gtid] else GtidsIn(ts[..n])
  }

  /** What the history says must be shown: everything but what --database drops, where it comes; an event that waits for
      its query is shown directly before it, a GTID and the execution of a load have statements of their own. */
  ghost function Due(o: Options, h: seq<Event>): seq<Event> {
    if h == [] then []
    else
      var n := |h| - 1;
      var before, b := Due(o, h[..n]), h[n].body;
      if b.Var? || b.Gtid? || b.ExecuteLoad? || Away(o, h, n) then before
      else if b.Query? then before + Waiting(h[..n]) + [h[n]]
      else before + [h[n]]
  }

  ghost function GtidsOf(h: seq<Event>): seq<nat> {
    if h == [] then []
    else
      var n := |h| - 1;
      if h[n].body.Gtid? then GtidsOf(h[..n]) + [h[n].body.gtid] else GtidsOf(h[..n])
  }

  lemma {:induction false} InConcat(a: seq<Token>, b: seq<Token>)
    ensures PrintedIn(a + b) == PrintedIn(a) + PrintedIn(b) && GtidsIn(a + b) == GtidsIn(a) + GtidsIn(b)
  {
    if b == [] {
      assert a + b == a;
    } else {
      InConcat(a, b[..|b| - 1]);
      assert (a + b)[..|a + b| - 1] == a + b[..|b| - 1];
    }
  }

  lemma {:induction false} InPrintAll(evs: seq<Event>)
    ensures PrintedIn(PrintAll(evs)) == evs && GtidsIn(PrintAll(evs)) == []
  {
    if evs != [] {
      var n := |evs| - 1;
      InPrintAll(evs[..n]);
      assert PrintAll(evs)[..n] == PrintAll(evs[..n]) && evs == evs[..n] + [evs[n]];
    }
  }

  lemma InOne(t: Token)
    ensures PrintedIn([t]) == if t.Printed? then [t.ev] else []
    ensures GtidsIn([t]) == if t.SetGtid? then [t.gtid] else []
    ensures PrintedIn([]) == [] && GtidsIn([]) == []
  {
    assert [t][..0] == [];
  }

  // ---------- one event more ----------

  lemma MapStep(o: Options, h: seq<Event>, t: nat, n: nat)
    ensures MappedAway(o, h, t, n + 1) <==> MapsAway(o, h, n, t) || (MappedAway(o, h, t, n) && !EndsRows(h, n))
  {
    hide MapsAway, EndsRows;
  }

  /** The history so far does not change when one more event comes. */
  lemma MapPrefix(o: Options, h: seq<Event>, ev: Event, t: nat, n: nat)
    requires n <= |h|
    ensures MappedAway(o, h + [ev], t, n) <==> MappedAway(o, h, t, n)
  {
    var g := h + [ev];
    assert forall j :: 0 <= j < n ==> (MapsAway(o, g, j, t) <==> MapsAway(o, h, j, t));
    assert forall j :: 0 <= j < n ==> (EndsRows(g, j) <==> EndsRows(h, j));
  }

  /** The table ids in the state are those mapped away. */
  ghost predicate IgnoresAway(o: Options, s: State, h: seq<Event>) {
    forall t: nat :: t in s.ignoredMaps <==> MappedAway(o, h, t, |h|)
  }

  lemma IgnoredStep(o: Options, s: State, ev: Event, h: seq<Event>)
    requires IgnoresAway(o, s, h)
    ensures IgnoresAway(o, Handle(o, s, ev), h + [ev])
  {
    hide MappedAway, FlagsAfter, FilesAfter, TokensOf;
    forall t: nat ensures t in IgnoredAfter(o, s.ignoredMaps, ev.body) <==> MappedAway(o, h + [ev], t, |h| + 1) {
      MapPrefix(o, h, ev, t, |h|);
      MapStep(o, h + [ev], t, |h|);
    }
  }

  lemma DueSnoc(o: Options, h: seq<Event>, ev: Event)
    ensures var b := ev.body;
            Due(o, h + [ev]) ==
            if b.Var? || b.Gtid? || b.ExecuteLoad? || Away(o, h + [ev], |h|) then Due(o, h)
            else if b.Query? then Due(o, h) + Waiting(h) + [ev]
            else Due(o, h) + [ev]
    ensures GtidsOf(h + [ev]) == GtidsOf(h) + if ev.body.Gtid? then [ev.body.gtid] else []
  {
    hide Away, Waiting;
    assert (h + [ev])[..|h|] == h;
  }

  /** The tokens show these events and set these GTIDs. */
  ghost predicate Show(ts: seq<Token>, evs: seq<Event>, gtids: seq<nat>) { PrintedIn(ts) == evs && GtidsIn(ts) == gtids }

  lemma OneShows(t: Token)
    ensures Show([t], if t.Printed? then [t.ev] else [], if t.SetGtid? then [t.gtid] else []) && Show([], [], [])
  {
    InOne(t);
  }

  lemma BothShow(a: seq<Token>, b: seq<Token>, x: seq<Event>, y: seq<Event>, g: seq<nat>)
    requires Show(a, x, []) && Show(b, y, g)
    ensures Show(a + b, x + y, g) && (x == [] ==> x + y == y) && (y == [] ==> x + y == x)
  {
    InConcat(a, b);
    assert [] + g == g;
  }

  lemma QueryShows(o: Options, s: State, ev: Event)
    requires ev.body.Query?
    ensures Show(QueryTokens(o, s, ev), if !ev.body.keyword && OfOther(o, ev.body.db) then [] else s.buffered + [ev], [])
  {
    hide Show, DropsDdl;
    InPrintAll(s.buffered);
    assert Show(PrintAll(s.buffered), s.buffered, []) by { AllShown(s.buffered); }
    OneShows(Printed(ev));
    OneShows(AddedCommit);
    BothShow(PrintAll(s.buffered), [Printed(ev)], s.buffered, [ev], []);
  }

  lemma AllShown(evs: seq<Event>)
    ensures Show(PrintAll(evs), evs, [])
  {
    InPrintAll(evs);
  }

  lemma LoadShows(taken: Option<FileName>)
    ensures Show(LoadTokens(taken), [], [])
  {
    hide Show;
    OneShows(if taken.Some? then LoadFile(taken.value) else Rollback);
  }

  lemma FdShows(s: State, ev: Event)
    requires ev.body.FormatDescription?
    ensures Show(FdTokens(s, ev), [ev], [])
  {
    hide Show, FdFlags, FdRollsBack, Spent;
    var f := FdFlags(s.flags, ev.body.created);
    var a := if ev.body.created then [Rollback] else [];
    var b := if !(if ev.body.created then Spent(s.flags) else s.flags).nextValid then [SetAutomatic] else [];
    var c := if !FdRollsBack(s.fdServerId, ev) then []
             else if f.inTransaction then [Rollback]
             else if f.nextSet && f.nextValid then [BeginRollback]
             else [];
    OneShows(Printed(ev));
    OneShows(Rollback);
    OneShows(SetAutomatic);
    OneShows(BeginRollback);
    BothShow([Printed(ev)], a, [ev], [], []);
    BothShow([Printed(ev)] + a, b, [ev] + [], [], []);
    BothShow([Printed(ev)] + a + b, c, [ev] + [] + [], [], []);
  }

  /** What must be shown of one event more. */
  ghost function DueOf(o: Options, s: State, ev: Event, h: seq<Event>): seq<Event> {
    var b := ev.body;
    if b.Var? || b.Gtid? || b.ExecuteLoad? || Away(o, h + [ev], |h|) then []
    else if b.Query? then s.buffered + [ev]
    else [ev]
  }

  lemma TokensShow(o: Options, s: State, ev: Event, h: seq<Event>)
    requires IgnoresAway(o, s, h) && !StatusOf(o, s, ev.body).ErrorStop?
    ensures Show(TokensOf(o, s, ev), DueOf(o, s, ev, h), if ev.body.Gtid? then [ev.body.gtid] else [])
  {
    hide Show, MappedAway, QueryTokens, FdTokens, LoadTokens, RotateResets, NewFile, Grabbed, DropsDdl;
    OneShows(Printed(ev));
    match ev.body {
      case Query(_, _, _, _) => QueryShows(o, s, ev);
      case FormatDescription(_, _, _) => FdShows(s, ev);
      case ExecLoad(f) =>
        LoadShows(Grabbed(s.files, f, true));
        BothShow([Printed(ev)], LoadTokens(Grabbed(s.files, f, true)), [ev], [], []);
      case ExecuteLoad(_, f) => LoadShows(Grabbed(s.files, f, false));
      case Rows(t, _) => MapPrefix(o, h, ev, t, |h|);
      case Gtid(g) =>
        OneShows(AddedCommit);
        OneShows(SetGtid(g));
        BothShow(if s.flags.skipped then [AddedCommit] else [], [SetGtid(g)], [], [], [g]);
      case Rotate =>
        OneShows(SetAutomatic);
        BothShow(if RotateResets(s.flags, ev) then [SetAutomatic] else [], [Printed(ev)], [], [ev], []);
      case _ =>
    }
  }

  // ---------- over a run ----------

  ghost predicate ShowsDue(o: Options, s: State, h: seq<Event>) {
    s.buffered == Waiting(h) && IgnoresAway(o, s, h) && PrintedIn(s.out) == Due(o, h) && GtidsIn(s.out) == GtidsOf(h)
  }

  lemma HandleShows(o: Options, s: State, ev: Event, h: seq<Event>)
    requires ShowsDue(o, s, h) && !StatusOf(o, s, ev.body).ErrorStop?
    ensures ShowsDue(o, Handle(o, s, ev), h + [ev])
  {
    hide PrintedIn, GtidsIn, Due, GtidsOf, Waiting, Away, FlagsAfter, FilesAfter, IgnoredAfter, TokensOf, StatusOf, IgnoresAway;
    HistorySnoc(o, h, ev);
    DueSnoc(o, h, ev);
    TokensShow(o, s, ev, h);
    IgnoredStep(o, s, ev, h);
    InConcat(s.out, TokensOf(o, s, ev));
    QueryDue(Due(o, h), Waiting(h), ev);
  }

  lemma QueryDue(a: seq<Event>, b: seq<Event>, ev: Event)
    ensures a + (b + [ev]) == a + b + [ev] && a + [] == a
  {
  }

  /** In every run that does not end in an error the events shown are those due, in order and once each, and the GTIDs
      set are those of the history, in order. */
  lemma {:induction false} EverythingIsShown(o: Options, s: State, evs: seq<Event>)
    requires Initial(s) && !Run(o, s, evs).1.ErrorStop?
    ensures var t, h := Run(o, s, evs).0, Handled(o, s, evs); ShowsDue(o, t, h)
    ensures var t, h := Run(o, s, evs).0, Handled(o, s, evs); PrintedIn(t.out) == Due(o, h) && GtidsIn(t.out) == GtidsOf(h)
    decreases |evs|
  {
    hide Handle, GtidFilter, GateOf, RangeAfter, StatusOf, PrintedIn, GtidsIn, Due, GtidsOf, Waiting, IgnoresAway;
    if evs == [] {
      Nothing(o, s);
    } else {
      var n := |evs| - 1;
      EverythingIsShown(o, s, evs[..n]);
      var (t, status) := Run(o, s, evs[..n]);
      var h := Handled(o, s, evs[..n]);
      if status.OkContinue? && Accepted(o, t, evs[n]) {
        var t1 := t.(filterOnGtids := GtidFilter(o, t.filterOnGtids, evs[n].body).1, range := RangeAfter(t.range, evs[n]));
        SameShown(o, t, t1, h);
        HandleShows(o, t1, evs[n], h);
      } else if status.OkContinue? {
        var t1 := Run(o, s, evs).0;
        SameShown(o, t, t1, h);
      }
    }
  }

  lemma Nothing(o: Options, s: State)
    requires Initial(s)
    ensures ShowsDue(o, s, [])
  {
  }

  lemma SameShown(o: Options, s: State, t: State, h: seq<Event>)
    requires ShowsDue(o, s, h) && t.buffered == s.buffered && t.ignoredMaps == s.ignoredMaps && t.out == s.out
    ensures ShowsDue(o, t, h)
  {
    hide PrintedIn, GtidsIn, Due, GtidsOf, Waiting, MappedAway;
  }

  // ---------- when a run fails ----------

  /** A format description was shown in base64. */
  lemma {:induction false} FdPrintedMeans(o: Options, s: State, evs: seq<Event>)
    ensures Run(o, s, evs).0.fdPrinted <==>
            s.fdPrinted || (o.fdInBase64 && exists ev :: ev in Handled(o, s, evs) && ev.body.FormatDescription?)
    decreases |evs|
  {
    hide FlagsAfter, FilesAfter, IgnoredAfter, TokensOf, RangeAfter, GtidFilter, GateOf, StatusOf;
    if evs != [] {
      var n := |evs| - 1;
      FdPrintedMeans(o, s, evs[..n]);
      var h := Handled(o, s, evs[..n]);
      assert forall x :: x in h + [evs[n]] <==> x in h || x == evs[n];
    }
  }

  /** No version of the name is free. */
  ghost predicate AllTaken(disk: map<FileName, Bytes>, base: string, fileId: nat) {
    forall v: nat :: v < 1000 ==> FileName(base, fileId, v) in disk
  }

  lemma NewFileFails(fs: Files, base: string, fileId: nat)
    ensures NewFile(fs, base, fileId).None? <==> AllTaken(fs.disk, base, fileId)
  {
  }

  /** An event that reaches the switch ends the run in an error exactly when it is a format description of a log in use,
      a row event that needs a format description which was not shown, or the first event of a load for which no file
      name is free. */
  lemma EndsInErrorIff(o: Options, s: State, evs: seq<Event>, ev: Event)
    requires Initial(s) && Run(o, s, evs).1.OkContinue? && Accepted(o, Run(o, s, evs).0, ev)
    ensures var t, h, b := Run(o, s, evs).0, Handled(o, s, evs), ev.body;
            Run(o, s, evs + [ev]).1.ErrorStop? <==>
            || (b.FormatDescription? && b.inUse && !o.forceIfOpen)
            || (b.Rows? && !MappedAway(o, h, b.tableId, |h|) && o.rowsNeedFd && !s.fdPrinted
                && !(o.fdInBase64 && exists e :: e in h && e.body.FormatDescription?))
            || (b.CreateFile? && !OfOther(o, b.cdb) && AllTaken(t.files.disk, b.base, b.fileId))
            || (b.BeginLoad? && AllTaken(t.files.disk, "SQL_LOAD_MB", b.fileId))
  {
    hide Handled, MappedAway, AllTaken, NewFile, FlagsAfter, FilesAfter, IgnoredAfter, TokensOf, RangeAfter, GtidFilter, GateOf, PrintedIn, GtidsIn, Due, GtidsOf;
    assert (evs + [ev])[..|evs|] == evs;
    EverythingIsShown(o, s, evs);
    FdPrintedMeans(o, s, evs);
    var t := Run(o, s, evs).0;
    match ev.body {
      case CreateFile(_, base, f, _) => NewFileFails(t.files, base, f);
      case BeginLoad(f, _) => NewFileFails(t.files, "SQL_LOAD_MB", f);
      case _ =>
    }
  }
}
