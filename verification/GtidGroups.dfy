/** What a server sees when the output of client/mysqlbinlog.cc is replayed: every SET GTID_NEXT is
    used by exactly one transaction, whatever --database, --include-gtids and --exclude-gtids drop. */
module GtidGroups {
  import opened Text
  import opened Binlog
  import opened GtidFiltering

  // ---------- the replaying session ----------

  /** No GTID pending; GTID_NEXT set and unused; inside BEGIN; or a statement that must not come. */
  datatype Session = Idle | Armed | InGroup | Broken

  ghost predicate PlainQuery(b: Body) { b.Query? && !b.starts && !b.ends }

  ghost function ReadPrinted(m: Session, b: Body): Session {
    match b
    case Xid => if m.InGroup? then Idle else Broken
    case Query(_, starts, ends, _) =>
      if ends then (if m.InGroup? then Idle else Broken)
      else if starts then (if m.Armed? then InGroup else Broken)
      else if m.Armed? then Idle        // a statement that is its own transaction
      else if m.InGroup? then InGroup
      else Broken
    case TableMap(_, _) => if m.InGroup? then InGroup else Broken
    case Rows(_, _) => if m.InGroup? then InGroup else Broken
    case _ => m
  }

  ghost function Read(m: Session, t: Token): Session {
    if m.Broken? then Broken else
    match t
    case SetGtid(_) => if m.Idle? then Armed else Broken
    case SetAutomatic => if m.Idle? then Idle else Broken
    case AddedCommit => if m.Idle? then Broken else Idle
    case Rollback => Idle
    case BeginRollback => if m.Armed? then Idle else Broken
    case LoadFile(_) => if m.InGroup? then InGroup else Broken
    case Printed(ev) => ReadPrinted(m, ev.body)
  }

  ghost function ReadAll(m: Session, ts: seq<Token>): Session {
    if ts == [] then m else Read(ReadAll(m, ts[..|ts| - 1]), ts[|ts| - 1])
  }

  lemma {:induction false} ReadConcat(m: Session, a: seq<Token>, b: seq<Token>)
    ensures ReadAll(m, a + b) == ReadAll(ReadAll(m, a), b)
  {
    if b == [] {
      assert a + b == a;
    } else {
      ReadConcat(m, a, b[..|b| - 1]);
      assert (a + b)[..|a + b| - 1] == a + b[..|b| - 1];
    }
  }

  lemma Read1(m: Session, t: Token)
    ensures ReadAll(m, [t]) == Read(m, t)
  {
    assert [t][..0] == [];
    assert ReadAll(m, []) == m;
  }

  lemma Read2(m: Session, t: Token, u: Token)
    ensures ReadAll(m, [t, u]) == Read(Read(m, t), u)
  {
    assert [t, u][..1] == [t];
    Read1(m, t);
  }

  lemma {:induction false} ReadVars(m: Session, evs: seq<Event>)
    requires !m.Broken? && forall i :: 0 <= i < |evs| ==> evs[i].body.Var?
    ensures ReadAll(m, PrintAll(evs)) == m
    decreases |evs|
  {
    if evs != [] {
      ReadVars(m, evs[..|evs| - 1]);
      assert PrintAll(evs)[..|evs| - 1] == PrintAll(evs[..|evs| - 1]);
    }
  }

  // ---------- logs of GTID groups ----------

  /** Between groups; after the GTID event; after BEGIN.  `passes`: the GTID is not filtered. */
  datatype Phase = Between | Opened(passes: bool) | Inside(passes: bool)

  /** The server whose log this is: the one of the first format description that names a server. */
  ghost function LocalServer(evs: seq<Event>): int {
    if evs == [] then 0
    else
      var n := |evs| - 1;
      LocalAfter(LocalServer(evs[..n]), evs[n])
  }

  ghost function LocalAfter(local: int, ev: Event): int {
    if local == 0 && ev.body.FormatDescription? then ev.serverId else local
  }

  /** A format description of another server that begins a log there (as in a relay log). */
  ghost predicate Foreign(local: int, ev: Event) {
    ev.body.FormatDescription? && ev.serverId != 0 && local != 0 && ev.serverId != local && ev.body.logPos > 0
  }

  /** A server start, here or at the source: a group that is open now will not be finished. */
  ghost predicate GivesUp(local: int, ev: Event) {
    ev.body.FormatDescription? && (ev.body.created || Foreign(local, ev))
  }

  ghost predicate Ends(b: Body) { b.Xid? || (b.Query? && b.ends) }

  /** One event of a log of GTID groups; None when the event cannot come here.  A group is complete, or given up
      where a server started; other format descriptions and rotations may fall anywhere. */
  ghost function Advance(o: Options, local: int, p: Phase, ev: Event): Option<Phase> {
    var b := ev.body;
    if GivesUp(local, ev) then Some(Between)
    else if IsControl(b) || b.PreviousGtids? then Some(p)
    else
      match p
      case Between => if b.Gtid? then Some(Opened(!Fails(o, b.gtid))) else None
      case Opened(v) =>
        if b.Query? && b.starts && !b.ends && b.keyword then Some(Inside(v))
        else if PlainQuery(b) then Some(Between)
        else if b.Var? then Some(p)
        else None
      case Inside(v) =>
        if b.Xid? || (b.Query? && b.ends && !b.starts && b.keyword) then Some(Between)
        else if b.Gtid? || (b.Query? && (b.starts || b.ends)) then None
        else Some(p)
  }

  ghost function PhaseAfter(o: Options, evs: seq<Event>): Option<Phase> {
    if evs == [] then Some(Between)
    else
      var n := |evs| - 1;
      var p := PhaseAfter(o, evs[..n]);
      if p.None? then None else Advance(o, LocalServer(evs[..n]), p.value, evs[n])
  }

  lemma {:induction false} PhasePrefix(o: Options, evs: seq<Event>, n: nat)
    requires n <= |evs| && PhaseAfter(o, evs).Some?
    ensures PhaseAfter(o, evs[..n]).Some?
    decreases |evs|
  {
    hide Advance;
    if n == |evs| {
      assert evs[..n] == evs;
    } else {
      assert evs[..|evs| - 1][..n] == evs[..n];
      PhasePrefix(o, evs[..|evs| - 1], n);
    }
  }

  // ---------- what a log leaves behind ----------

  /** What the groups so far leave behind.  `open`: BEGIN was seen and neither COMMIT nor XID since.  `drops`: an event
      of the last group was dropped by --database.  `armed`: that event was a statement of its own, and no COMMIT was
      added for it.  `unspent`: the last GTID is not known to have been used.  `ignored`: table ids whose map was
      dropped. */
  datatype Left = Left(open: bool, drops: bool, armed: bool, unspent: bool, ignored: set<nat>)

  const NOTHING := Left(false, false, false, false, {})

  ghost predicate DropsEvent(o: Options, ignored: set<nat>, b: Body) {
    match b
    case Query(_, _, _, _) => QuerySkips(o, b)
    case CreateFile(db, _, _, _) => SkipDatabase(o, db)
    case ExecuteLoad(db, _) => SkipDatabase(o, db)
    case TableMap(db, _) => SkipDatabase(o, db)
    case Rows(t, _) => t in ignored
    case _ => false
  }

  ghost function LeftAfter(o: Options, local: int, p: Phase, l: Left, ev: Event): Left {
    var b := ev.body;
    if b.FormatDescription? then l.(unspent := l.unspent && !b.created, armed := l.armed && !GivesUp(local, ev))
    else if b.Gtid? then if Fails(o, b.gtid) then l else l.(drops := false, armed := false, unspent := true)
    else
      match p
      case Opened(true) =>
        if b.Query? && b.starts then l.(open := true)
        else if !b.Query? then l
        else if QuerySkips(o, b) then l.(drops := l.open, armed := l.open)
        else l.(unspent := l.open)
      case Inside(true) =>
        if Ends(b) then l.(open := false, drops := false, unspent := false)
        else l.(drops := l.drops || DropsEvent(o, l.ignored, b), ignored := IgnoredAfter(o, l.ignored, b))
      case _ => l
  }

  ghost function LeftBy(o: Options, evs: seq<Event>): Left
    requires PhaseAfter(o, evs).Some?
  {
    if evs == [] then NOTHING
    else
      var n := |evs| - 1;
      LeftAfter(o, LocalServer(evs[..n]), PhaseAfter(o, evs[..n]).value, LeftBy(o, evs[..n]), evs[n])
  }

  /** Where the replaying session stands, unless it is broken. */
  ghost function SessionAt(p: Phase, l: Left): Session {
    match p
    case Opened(true) => Armed
    case Inside(true) => InGroup
    case _ => if l.armed then Armed else Idle
  }

  /** The event makes the loop end or open a transaction that is not there: a COMMIT is added for a group that has been
      rolled back, or BEGIN and ROLLBACK for a GTID that has been used. */
  ghost predicate Breaks(o: Options, local: int, p: Phase, l: Left, ev: Event) {
    SessionAt(p, l).Idle? &&
    if ev.body.Gtid? then l.drops && !Fails(o, ev.body.gtid)
    else Foreign(local, ev) && !ev.body.created && l.unspent && !l.open
  }

  // ---------- state, log and session in step ----------

  /** GTID_NEXT is taken for set and not yet used. */
  ghost predicate Pending(f: Flags) { f.nextSet && f.nextValid }

  /** The state is what the log leaves behind. */
  ghost predicate InStep(p: Phase, l: Left, s: State, local: int) {
    && s.fdServerId == local && s.ignoredMaps == l.ignored
    && (forall i :: 0 <= i < |s.buffered| ==> s.buffered[i].body.Var?)
    && s.flags.inTransaction == l.open && s.flags.skipped == l.drops && Pending(s.flags) == l.unspent
    && (l.armed ==> l.open && l.drops && l.unspent)
    && match p
       case Between => true
       case Opened(true) => s.flags.seenGtids && l.unspent && !l.drops && !l.armed && !s.filterOnGtids
       case Inside(true) => l.open && l.unspent && !l.armed && !s.filterOnGtids
       case _ => s.filterOnGtids
  }

  /** What the tokens of one event must do to the session. */
  ghost predicate SessionFollows(o: Options, local: int, p: Phase, l: Left, ev: Event, ts: seq<Token>, p2: Phase) {
    ReadAll(SessionAt(p, l), ts) ==
    if Breaks(o, local, p, l, ev) then Broken else SessionAt(p2, LeftAfter(o, local, p, l, ev))
  }

  lemma QueryReads(o: Options, s: State, ev: Event, m: Session)
    requires ev.body.Query? && !m.Broken? && forall i :: 0 <= i < |s.buffered| ==> s.buffered[i].body.Var?
    ensures ReadAll(m, TokensOf(o, s, ev)) ==
            if !QuerySkips(o, ev.body) then Read(m, Printed(ev))
            else if DropsDdl(o, s.flags, ev.body) then Read(m, AddedCommit)
            else m
  {
    if !QuerySkips(o, ev.body) {
      ReadConcat(m, PrintAll(s.buffered), [Printed(ev)]);
      ReadVars(m, s.buffered);
      Read1(m, Printed(ev));
    } else if DropsDdl(o, s.flags, ev.body) {
      Read1(m, AddedCommit);
    }
  }

  /** A query that reaches the switch at a place where the log allows it. */
  lemma QueryInStep(o: Options, local: int, p: Phase, l: Left, s: State, ev: Event, p2: Phase)
    requires ev.body.Query? && (p == Opened(true) || p == Inside(true))
    requires InStep(p, l, s, local) && Advance(o, local, p, ev) == Some(p2)
    ensures InStep(p2, LeftAfter(o, local, p, l, ev), Handle(o, s, ev), local)
    ensures SessionFollows(o, local, p, l, ev, TokensOf(o, s, ev), p2)
  {
    hide TokensOf, FilesAfter, SkipDatabase;
    QueryReads(o, s, ev, SessionAt(p, l));
  }

  /** Rotations and other control events, wherever they fall: GTID_NEXT is reset only between groups. */
  lemma ControlInStep(o: Options, local: int, p: Phase, l: Left, s: State, ev: Event)
    requires ev.body.Rotate? || ev.body.Control? || ev.body.PreviousGtids?
    requires InStep(p, l, s, local)
    ensures InStep(p, l, Handle(o, s, ev), local) && ReadAll(SessionAt(p, l), TokensOf(o, s, ev)) == SessionAt(p, l)
  {
    hide FilesAfter, SkipDatabase, TokensOf, ReadAll;
    ControlReads(o, s, ev, SessionAt(p, l));
  }

  lemma ControlReads(o: Options, s: State, ev: Event, m: Session)
    requires ev.body.Rotate? || ev.body.Control? || ev.body.PreviousGtids?
    requires !m.Broken? && (m.Idle? || Pending(s.flags))
    ensures ReadAll(m, TokensOf(o, s, ev)) == m
  {
    if ev.body.Rotate? && RotateResets(s.flags, ev) {
      assert TokensOf(o, s, ev) == [SetAutomatic, Printed(ev)];
      Read2(m, SetAutomatic, Printed(ev));
    } else {
      assert TokensOf(o, s, ev) == [Printed(ev)];
      Read1(m, Printed(ev));
    }
  }

  /** A format description gives up the open group, or changes nothing. */
  lemma FdInStep(o: Options, local: int, p: Phase, l: Left, s: State, ev: Event)
    requires ev.body.FormatDescription? && InStep(p, l, s, local)
    ensures var p2 := if GivesUp(local, ev) then Between else p;
            && InStep(p2, LeftAfter(o, local, p, l, ev), Handle(o, s, ev), LocalAfter(local, ev))
            && SessionFollows(o, local, p, l, ev, TokensOf(o, s, ev), p2)
  {
    hide Handle, FdTokens, ReadAll;
    FdKeeps(o, s, ev);
    FdReads(s, ev, SessionAt(p, l));
  }

  lemma FdKeeps(o: Options, s: State, ev: Event)
    requires ev.body.FormatDescription?
    ensures var t := Handle(o, s, ev);
            && t.ignoredMaps == s.ignoredMaps && t.buffered == s.buffered && t.filterOnGtids == s.filterOnGtids
            && t.fdServerId == LocalAfter(s.fdServerId, ev)
            && t.flags.inTransaction == s.flags.inTransaction && t.flags.skipped == s.flags.skipped
            && t.flags.seenGtids == s.flags.seenGtids && Pending(t.flags) == (Pending(s.flags) && !ev.body.created)
  {
    hide FdTokens;
  }

  /** Where an open group is given up it is rolled back. */
  lemma FdReads(s: State, ev: Event, m: Session)
    requires ev.body.FormatDescription? && !m.Broken? && (m.Idle? || Pending(s.flags)) && (m.InGroup? ==> s.flags.inTransaction)
    ensures ReadAll(m, FdTokens(s, ev)) ==
            if !GivesUp(s.fdServerId, ev) then m
            else if !ev.body.created && m.Idle? && !s.flags.inTransaction && Pending(s.flags) then Broken
            else Idle
  {
    var created, f := ev.body.created, FdFlags(s.flags, ev.body.created);
    var a := if created then [Rollback] else [];
    var b := if !(if created then Spent(s.flags) else s.flags).nextValid then [SetAutomatic] else [];
    var c := if !Foreign(s.fdServerId, ev) then [] else if f.inTransaction then [Rollback]
             else if Pending(f) then [BeginRollback] else [];
    assert FdTokens(s, ev) == [Printed(ev)] + a + b + c;
    ReadConcat(m, [Printed(ev)] + a + b, c);
    ReadConcat(m, [Printed(ev)] + a, b);
    ReadConcat(m, [Printed(ev)], a);
    Read1(m, Printed(ev));
    Read1(m, Rollback);
    var m1 := if created then Idle else m;
    Read1(m1, SetAutomatic);
    Read1(m1, Rollback);
    Read1(m1, BeginRollback);
  }

  /** Everything else inside a transaction leaves the session inside it. */
  lemma BodyInStep(o: Options, local: int, p: Phase, l: Left, s: State, ev: Event)
    requires !ev.body.Query? && !ev.body.Xid? && !IsControl(ev.body) && !ev.body.PreviousGtids? && !ev.body.Gtid?
    requires p == Inside(true) || (p == Opened(true) && ev.body.Var?)
    requires InStep(p, l, s, local)
    ensures InStep(p, LeftAfter(o, local, p, l, ev), Handle(o, s, ev), local)
    ensures SessionFollows(o, local, p, l, ev, TokensOf(o, s, ev), p)
  {
    hide FilesAfter, SkipDatabase;
    var ts, m := TokensOf(o, s, ev), SessionAt(p, l);
    Read1(m, Printed(ev));
    if |ts| == 1 { assert ts == [ts[0]]; Read1(m, ts[0]); }
    if |ts| == 2 { assert ts == [ts[0], ts[1]]; Read2(m, ts[0], ts[1]); }
  }

  lemma XidInStep(o: Options, local: int, l: Left, s: State, ev: Event)
    requires ev.body.Xid? && InStep(Inside(true), l, s, local)
    ensures InStep(Between, LeftAfter(o, local, Inside(true), l, ev), Handle(o, s, ev), local)
    ensures SessionFollows(o, local, Inside(true), l, ev, TokensOf(o, s, ev), Between)
  {
    hide FilesAfter, SkipDatabase;
    Read1(InGroup, Printed(ev));
  }

  lemma GtidInStep(o: Options, local: int, l: Left, s: State, ev: Event)
    requires ev.body.Gtid? && InStep(Between, l, s, local) && !s.filterOnGtids && !Fails(o, ev.body.gtid)
    ensures InStep(Opened(true), LeftAfter(o, local, Between, l, ev), Handle(o, s, ev), local)
    ensures SessionFollows(o, local, Between, l, ev, TokensOf(o, s, ev), Opened(true))
  {
    hide FilesAfter, SkipDatabase, Fails;
    var m, g := SessionAt(Between, l), SetGtid(ev.body.gtid);
    if s.flags.skipped {
      assert TokensOf(o, s, ev) == [AddedCommit, g];
      Read2(m, AddedCommit, g);
    } else {
      assert TokensOf(o, s, ev) == [g];
      Read1(m, g);
    }
  }

  /** The tokens that one call of `process_event` adds. */
  ghost function Added(o: Options, s: State, ev: Event): seq<Token> {
    if Accepted(o, s, ev) then TokensOf(o, s, ev) else []
  }

  lemma ProcessAdds(o: Options, s: State, ev: Event)
    ensures Process(o, s, ev).0.out == s.out + Added(o, s, ev)
  {
    hide FlagsAfter, FilesAfter, IgnoredAfter, GtidFilter, GateOf, RangeAfter, StatusOf, TokensOf, Ids;
    var s1 := s.(filterOnGtids := GtidFilter(o, s.filterOnGtids, ev.body).1, range := RangeAfter(s.range, ev));
    TokensIgnoreFilter(o, s, s1, ev);
  }

  /** An event that is filtered leaves everything as it is. */
  lemma FilteredInStep(o: Options, local: int, p: Phase, l: Left, s: State, ev: Event, p2: Phase)
    requires !o.skipGtids && GtidFilter(o, s.filterOnGtids, ev.body).0
    requires InStep(p, l, s, local) && Advance(o, local, p, ev) == Some(p2)
    ensures InStep(p2, LeftAfter(o, local, p, l, ev), s.(filterOnGtids := GtidFilter(o, s.filterOnGtids, ev.body).1), LocalAfter(local, ev))
    ensures SessionFollows(o, local, p, l, ev, [], p2)
  {
    hide Fails;
  }

  /** An event that is not filtered. */
  lemma HandledInStep(o: Options, local: int, p: Phase, l: Left, s: State, ev: Event, p2: Phase)
    requires !o.skipGtids && !GtidFilter(o, s.filterOnGtids, ev.body).0
    requires InStep(p, l, s, local) && Advance(o, local, p, ev) == Some(p2)
    ensures var s1 := s.(filterOnGtids := GtidFilter(o, s.filterOnGtids, ev.body).1);
            InStep(p2, LeftAfter(o, local, p, l, ev), Handle(o, s1, ev), LocalAfter(local, ev))
            && SessionFollows(o, local, p, l, ev, TokensOf(o, s1, ev), p2)
  {
    hide Handle, TokensOf, Fails;
    var s1 := s.(filterOnGtids := GtidFilter(o, s.filterOnGtids, ev.body).1);
    if ev.body.FormatDescription? {
      FdInStep(o, local, p, l, s1, ev);
    } else if IsControl(ev.body) || ev.body.PreviousGtids? {
      ControlInStep(o, local, p, l, s1, ev);
    } else if ev.body.Gtid? {
      GtidInStep(o, local, l, s1, ev);
    } else if ev.body.Query? {
      QueryInStep(o, local, p, l, s1, ev, p2);
    } else if ev.body.Xid? {
      XidInStep(o, local, l, s1, ev);
    } else {
      BodyInStep(o, local, p, l, s1, ev);
    }
  }

  /** One call keeps state, log and session in step, unless the event breaks the session. */
  lemma ProcessInStep(o: Options, local: int, p: Phase, l: Left, s: State, ev: Event, p2: Phase)
    requires !o.skipGtids && GateOf(o, s.range, ev).Passed?
    requires InStep(p, l, s, local) && Advance(o, local, p, ev) == Some(p2)
    ensures InStep(p2, LeftAfter(o, local, p, l, ev), Process(o, s, ev).0, LocalAfter(local, ev))
    ensures SessionFollows(o, local, p, l, ev, Added(o, s, ev), p2)
  {
    hide Handle, LeftAfter, Advance, SessionFollows, LocalAfter, GateOf, RangeAfter, StatusOf, TokensOf, GtidFilter;
    var s0 := s.(range := RangeAfter(s.range, ev));
    var s1 := s0.(filterOnGtids := GtidFilter(o, s.filterOnGtids, ev.body).1);
    TokensIgnoreFilter(o, s, s1, ev);
    if Accepted(o, s, ev) { HandledInStep(o, local, p, l, s0, ev, p2); } else { FilteredInStep(o, local, p, l, s0, ev, p2); }
  }

  lemma TokensIgnoreFilter(o: Options, s: State, t: State, ev: Event)
    requires t == s.(filterOnGtids := t.filterOnGtids, range := t.range)
    ensures TokensOf(o, t, ev) == TokensOf(o, s, ev)
  {
  }

  // ---------- whole runs ----------

  /** The events the loop handles or filters before it stops. */
  ghost function Got(o: Options, s: State, evs: seq<Event>): seq<Event> {
    if evs == [] then []
    else
      var n := |evs| - 1;
      if GetsTo(o, s, evs) then evs else Got(o, s, evs[..n])
  }

  /** The loop is still going at the last event, and the event does not end it. */
  ghost predicate GetsTo(o: Options, s: State, evs: seq<Event>) {
    evs == [] || (Run(o, s, evs[..|evs| - 1]).1.OkContinue? && !Stops(o, evs[|evs| - 1]))
  }

  lemma {:induction false} GotAll(o: Options, s: State, evs: seq<Event>)
    requires Initial(s) && FromStart(o, s, evs)
    ensures var g := Got(o, s, evs);
            && g <= evs && GetsTo(o, s, g)
            && Run(o, s, g).0 == Run(o, s, evs).0.(range := Run(o, s, g).0.range)
            && (PhaseAfter(o, evs).Some? ==> PhaseAfter(o, g).Some?)
            && (Run(o, s, evs).1.OkContinue? ==> g == evs)
    decreases |evs|
  {
    hide Advance, Handle, GtidFilter, RangeAfter, StatusOf, LocalServer;
    if evs != [] {
      var n := |evs| - 1;
      if Run(o, s, evs[..n]).1.OkContinue? {
        RunFlag(o, s, evs[..n]);
        Gates(o, s, Run(o, s, evs[..n]).0, evs);
      }
      if !GetsTo(o, s, evs) { GotAll(o, s, evs[..n]); }
    }
  }

  lemma Gates(o: Options, s: State, t: State, evs: seq<Event>)
    requires evs != [] && FromStart(o, s, evs) && t.range.offset == 0 && t.range.startDatetime == 0
    ensures GateOf(o, t.range, evs[|evs| - 1]) == if Stops(o, evs[|evs| - 1]) then Stopped else Passed
  {
  }

  /** When the loop gets to the last event it leaves the state in step with the log. */
  lemma {:induction false} RunInStep(o: Options, s: State, evs: seq<Event>)
    requires Initial(s) && s.fdServerId == 0 && !o.skipGtids && FromStart(o, s, evs) && PhaseAfter(o, evs).Some?
    requires GetsTo(o, s, evs)
    ensures InStep(PhaseAfter(o, evs).value, LeftBy(o, evs), Run(o, s, evs).0, LocalServer(evs))
    decreases |evs|
  {
    hide Process, Advance, InStep, GateOf, LeftAfter, LocalAfter;
    if evs == [] {
      InitiallyInStep(s);
    } else {
      var n := |evs| - 1;
      StillGoing(o, s, evs[..n]);
      RunInStep(o, s, evs[..n]);
      var t, local := Run(o, s, evs[..n]).0, LocalServer(evs[..n]);
      RunFlag(o, s, evs[..n]);
      Gates(o, s, t, evs);
      ProcessInStep(o, local, PhaseAfter(o, evs[..n]).value, LeftBy(o, evs[..n]), t, evs[n], PhaseAfter(o, evs).value);
    }
  }

  lemma StillGoing(o: Options, s: State, evs: seq<Event>)
    requires Initial(s) && FromStart(o, s, evs) && Run(o, s, evs).1.OkContinue?
    ensures GetsTo(o, s, evs)
  {
    hide Handle, GtidFilter, RangeAfter, StatusOf;
    if evs != [] {
      var n := |evs| - 1;
      RunFlag(o, s, evs[..n]);
      Gates(o, s, Run(o, s, evs[..n]).0, evs);
    }
  }

  lemma InitiallyInStep(s: State)
    requires Initial(s) && s.fdServerId == 0
    ensures InStep(Between, NOTHING, s, 0)
  {
  }

  /** Event i breaks the session. */
  ghost predicate BreaksAt(o: Options, evs: seq<Event>, i: nat)
    requires i < |evs| && PhaseAfter(o, evs[..i]).Some?
  {
    Breaks(o, LocalServer(evs[..i]), PhaseAfter(o, evs[..i]).value, LeftBy(o, evs[..i]), evs[i])
  }

  /** Some event does. */
  ghost predicate BrokenBy(o: Options, evs: seq<Event>) {
    exists i :: 0 <= i < |evs| && PhaseAfter(o, evs[..i]).Some? && BreaksAt(o, evs, i)
  }

  /** The end does: a COMMIT is added for a group that has been rolled back. */
  ghost predicate BreaksAtEnd(o: Options, evs: seq<Event>)
    requires PhaseAfter(o, evs).Some?
  {
    LeftBy(o, evs).drops && SessionAt(PhaseAfter(o, evs).value, LeftBy(o, evs)).Idle?
  }

  lemma BrokenByStep(o: Options, evs: seq<Event>)
    requires evs != [] && PhaseAfter(o, evs).Some?
    ensures var n := |evs| - 1; BrokenBy(o, evs) <==> BrokenBy(o, evs[..n]) || BreaksAt(o, evs, n)
  {
    hide PhaseAfter, BreaksAt;
    var n := |evs| - 1;
    PhaseBefore(o, evs);
    forall i | 0 <= i < n && PhaseAfter(o, evs[..i]).Some?
      ensures PhaseAfter(o, evs[..n][..i]).Some? && (BreaksAt(o, evs[..n], i) <==> BreaksAt(o, evs, i))
    {
      SameBreak(o, evs, n, i);
    }
    forall i | 0 <= i < n ensures evs[..n][..i] == evs[..i] { }
    if BrokenBy(o, evs) {
      var i :| 0 <= i < |evs| && PhaseAfter(o, evs[..i]).Some? && BreaksAt(o, evs, i);
      if i < n { assert PhaseAfter(o, evs[..n][..i]).Some? && BreaksAt(o, evs[..n], i); }
    }
    if BrokenBy(o, evs[..n]) {
      var i :| 0 <= i < n && PhaseAfter(o, evs[..n][..i]).Some? && BreaksAt(o, evs[..n], i);
      assert PhaseAfter(o, evs[..i]).Some? && BreaksAt(o, evs, i);
    }
  }

  lemma PhaseBefore(o: Options, evs: seq<Event>)
    requires evs != [] && PhaseAfter(o, evs).Some?
    ensures PhaseAfter(o, evs[..|evs| - 1]).Some?
  {
    hide Advance;
  }

  lemma SameBreak(o: Options, evs: seq<Event>, n: nat, i: nat)
    requires i < n <= |evs| && PhaseAfter(o, evs[..i]).Some?
    ensures PhaseAfter(o, evs[..n][..i]).Some? && (BreaksAt(o, evs[..n], i) <==> BreaksAt(o, evs, i))
  {
    hide PhaseAfter, LeftBy, LocalServer, Breaks;
    assert evs[..n][..i] == evs[..i] && evs[..n][i] == evs[i];
  }

  lemma {:induction false} BrokenStays(ts: seq<Token>)
    ensures ReadAll(Broken, ts) == Broken
    decreases |ts|
  {
    if ts != [] { BrokenStays(ts[..|ts| - 1]); }
  }

  /** The session that reads the output. */
  lemma {:induction false} RunSession(o: Options, s: State, evs: seq<Event>)
    requires Initial(s) && s.fdServerId == 0 && !o.skipGtids && FromStart(o, s, evs) && PhaseAfter(o, evs).Some?
    requires GetsTo(o, s, evs)
    ensures ReadAll(Idle, Run(o, s, evs).0.out) ==
            if BrokenBy(o, evs) then Broken else SessionAt(PhaseAfter(o, evs).value, LeftBy(o, evs))
    decreases |evs|
  {
    hide Process, Advance, InStep, GateOf, LeftAfter, LocalAfter, BreaksAt, BrokenBy, SessionAt;
    if evs == [] {
      NoBreakYet(o);
    } else {
      var n := |evs| - 1;
      var t := Run(o, s, evs[..n]).0;
      StillGoing(o, s, evs[..n]);
      RunSession(o, s, evs[..n]);
      RunInStep(o, s, evs[..n]);
      RunFlag(o, s, evs[..n]);
      Gates(o, s, t, evs);
      var local, p, l, p2 := LocalServer(evs[..n]), PhaseAfter(o, evs[..n]).value, LeftBy(o, evs[..n]), PhaseAfter(o, evs).value;
      ProcessInStep(o, local, p, l, t, evs[n], p2);
      ProcessAdds(o, t, evs[n]);
      ReadConcat(Idle, t.out, Added(o, t, evs[n]));
      BrokenStays(Added(o, t, evs[n]));
      BrokenByStep(o, evs);
      assert BreaksAt(o, evs, n) == Breaks(o, local, p, l, evs[n]) by { BreaksIs(o, evs, n); }
    }
  }

  lemma BreaksIs(o: Options, evs: seq<Event>, i: nat)
    requires i < |evs| && PhaseAfter(o, evs[..i]).Some?
    ensures BreaksAt(o, evs, i) ==
            Breaks(o, LocalServer(evs[..i]), PhaseAfter(o, evs[..i]).value, LeftBy(o, evs[..i]), evs[i])
  {
  }

  lemma NoBreakYet(o: Options)
    ensures !BrokenBy(o, []) && SessionAt(Between, NOTHING) == Idle
  {
  }

  /** The tokens written at the end. */
  lemma FinishReads(p: Phase, l: Left, s: State, local: int)
    requires InStep(p, l, s, local)
    ensures var m := SessionAt(p, l); ReadAll(m, FinishTokens(s.flags)).Broken? <==> l.drops && m.Idle?
  {
    var m := SessionAt(p, l);
    var a := if s.flags.skipped then [AddedCommit] else [];
    var b := if !s.flags.nextValid then [SetAutomatic] else [];
    ReadConcat(m, a, b);
    Read1(m, AddedCommit);
    Read1(ReadAll(m, a), SetAutomatic);
    if ReadAll(m, a).Broken? { BrokenStays(b); }
  }

  /** For every log of GTID groups, complete or given up, with format descriptions of any servers, and for every
      combination of --database, --include-gtids and --exclude-gtids, the complete output breaks a replaying session
      exactly when an event the loop gets to, or the end, makes the loop end or open a transaction that is not there. */
  lemma ReplayBreaksIff(o: Options, s: State, evs: seq<Event>)
    requires Initial(s) && s.fdServerId == 0 && !o.skipGtids && FromStart(o, s, evs) && PhaseAfter(o, evs).Some?
    ensures var t, g := Run(o, s, evs).0, Got(o, s, evs);
            && PhaseAfter(o, g).Some?
            && (ReadAll(Idle, t.out + FinishTokens(t.flags)).Broken? <==> BrokenBy(o, g) || BreaksAtEnd(o, g))
  {
    hide InStep, Run, PhaseAfter, LeftBy, BrokenBy, FinishTokens, Got, SessionAt;
    GotAll(o, s, evs);
    var t, g := Run(o, s, evs).0, Got(o, s, evs);
    RunSession(o, s, g);
    RunInStep(o, s, g);
    FinishReads(PhaseAfter(o, g).value, LeftBy(o, g), Run(o, s, g).0, LocalServer(g));
    BrokenStays(FinishTokens(t.flags));
    ReadConcat(Idle, t.out, FinishTokens(t.flags));
  }

  // ---------- what an unbroken session means ----------

  /** The session before token k. */
  ghost function At(ts: seq<Token>, k: nat): Session
    requires k <= |ts|
  {
    ReadAll(Idle, ts[..k])
  }

  lemma AtStep(ts: seq<Token>, k: nat)
    requires k < |ts|
    ensures At(ts, k + 1) == Read(At(ts, k), ts[k])
  {
    assert ts[..k + 1][..k] == ts[..k];
  }

  /** Token k ends the transaction that uses the current GTID. */
  ghost predicate Closes(ts: seq<Token>, k: nat)
    requires k < |ts|
  {
    !At(ts, k).Idle? && At(ts, k + 1).Idle?
  }

  lemma {:induction false} UnbrokenBefore(ts: seq<Token>, k: nat)
    requires k <= |ts| && !ReadAll(Idle, ts).Broken?
    ensures !At(ts, k).Broken?
    decreases |ts| - k
  {
    if k == |ts| {
      assert ts[..k] == ts;
    } else {
      UnbrokenBefore(ts, k + 1);
      AtStep(ts, k);
    }
  }

  /** Without another SET GTID_NEXT an idle session stays idle. */
  lemma {:induction false} IdleStays(ts: seq<Token>, k: nat, j: nat)
    requires k <= j <= |ts| && At(ts, k).Idle? && !ReadAll(Idle, ts).Broken?
    requires forall i :: k <= i < j ==> !ts[i].SetGtid?
    ensures At(ts, j).Idle?
    decreases j - k
  {
    if k < j {
      AtStep(ts, k);
      UnbrokenBefore(ts, k + 1);
      IdleStays(ts, k + 1, j);
    }
  }

  lemma {:induction false} FirstClose(ts: seq<Token>, k: nat, j: nat) returns (c: nat)
    requires k < j <= |ts| && !At(ts, k).Idle? && At(ts, j).Idle?
    ensures k <= c < j && Closes(ts, c)
    decreases j - k
  {
    if At(ts, k + 1).Idle? { c := k; } else { c := FirstClose(ts, k + 1, j); }
  }

  lemma OneClose(ts: seq<Token>, i: nat, c: nat, d: nat, j: nat)
    requires i < c < j && i < d < j && j <= |ts| && !ReadAll(Idle, ts).Broken?
    requires forall l :: i < l < j ==> !ts[l].SetGtid?
    requires Closes(ts, c) && Closes(ts, d)
    ensures c == d
  {
    if c < d { IdleStays(ts, c + 1, d); }
    if d < c { IdleStays(ts, d + 1, c); }
  }

  /** Between two consecutive SET GTID_NEXT there is exactly one token that ends a transaction. */
  lemma ExactlyOneTerminator(ts: seq<Token>, i: nat, j: nat)
    requires i < j < |ts| && ts[i].SetGtid? && ts[j].SetGtid? && !ReadAll(Idle, ts).Broken?
    requires forall l :: i < l < j ==> !ts[l].SetGtid?
    ensures exists c :: i < c < j && Closes(ts, c) && forall d :: i < d < j && Closes(ts, d) ==> d == c
  {
    AtStep(ts, i);
    AtStep(ts, j);
    UnbrokenBefore(ts, i + 1);
    UnbrokenBefore(ts, j + 1);
    var c := FirstClose(ts, i + 1, j);
    forall d | i < d < j && Closes(ts, d) ensures d == c { OneClose(ts, i, c, d, j); }
  }

  // ---------- whether GTID_NEXT ends up AUTOMATIC ----------

  /** The last assignment to GTID_NEXT is an explicit GTID. */
  ghost predicate Explicit(ts: seq<Token>) {
    ts != [] && (ts[|ts| - 1].SetGtid? || (!ts[|ts| - 1].SetAutomatic? && Explicit(ts[..|ts| - 1])))
  }

  ghost predicate Assigns(ts: seq<Token>) { exists i :: 0 <= i < |ts| && (ts[i].SetGtid? || ts[i].SetAutomatic?) }

  lemma {:induction false} ExplicitConcat(a: seq<Token>, b: seq<Token>)
    ensures Explicit(a + b) <==> if Assigns(b) then Explicit(b) else Explicit(a)
    decreases |b|
  {
    if b == [] {
      assert a + b == a;
    } else {
      var n := |b| - 1;
      assert (a + b)[..|a + b| - 1] == a + b[..n];
      ExplicitConcat(a, b[..n]);
      assert Assigns(b) <==> Assigns(b[..n]) || b[n].SetGtid? || b[n].SetAutomatic?;
    }
  }

  /** The flag is_gtid_next_set mirrors the output, event by event. */
  lemma TokensAssign(o: Options, s: State, ev: Event)
    ensures var ts, g := TokensOf(o, s, ev), FlagsAfter(o, s, ev);
            g.nextSet == if Assigns(ts) then Explicit(ts) else s.flags.nextSet
  {
    hide TokensOf, FlagsAfter, Explicit;
    if ev.body.Gtid? {
      GtidAssigns(o, s, ev);
    } else if ev.body.Rotate? {
      RotateAssigns(o, s, ev);
    } else if ev.body.FormatDescription? {
      FdAssigns(s, ev);
      FdTokensAre(o, s, ev);
    } else {
      OthersAssignNothing(o, s, ev);
    }
  }

  lemma GtidAssigns(o: Options, s: State, ev: Event)
    requires ev.body.Gtid?
    ensures Assigns(TokensOf(o, s, ev)) && Explicit(TokensOf(o, s, ev)) && FlagsAfter(o, s, ev).nextSet
  {
    var ts := TokensOf(o, s, ev);
    assert ts[|ts| - 1].SetGtid?;
  }

  lemma RotateAssigns(o: Options, s: State, ev: Event)
    requires ev.body.Rotate?
    ensures var ts, g := TokensOf(o, s, ev), FlagsAfter(o, s, ev);
            g.nextSet == if Assigns(ts) then Explicit(ts) else s.flags.nextSet
  {
    hide Explicit;
    var ts := TokensOf(o, s, ev);
    if RotateResets(s.flags, ev) {
      assert ts == [SetAutomatic] + [Printed(ev)] && [] + [SetAutomatic] == [SetAutomatic];
      assert ts[0] == SetAutomatic;
      ExplicitSnoc([], SetAutomatic);
      ExplicitSnoc([SetAutomatic], Printed(ev));
    } else {
      assert ts == [Printed(ev)];
    }
  }

  lemma ExplicitSnoc(ts: seq<Token>, t: Token)
    ensures Explicit(ts + [t]) <==> t.SetGtid? || (!t.SetAutomatic? && Explicit(ts))
  {
    assert (ts + [t])[..|ts|] == ts;
  }

  lemma FdTokensAre(o: Options, s: State, ev: Event)
    requires ev.body.FormatDescription?
    ensures TokensOf(o, s, ev) == FdTokens(s, ev) && FlagsAfter(o, s, ev) == FdFlags(s.flags, ev.body.created)
  {
    hide FdTokens, FdFlags;
  }

  lemma OthersAssignNothing(o: Options, s: State, ev: Event)
    requires !ev.body.Gtid? && !ev.body.Rotate? && !ev.body.FormatDescription?
    ensures !Assigns(TokensOf(o, s, ev)) && FlagsAfter(o, s, ev).nextSet == s.flags.nextSet
  {
    hide SkipDatabase;
    var ts := TokensOf(o, s, ev);
    forall i | 0 <= i < |ts| ensures !ts[i].SetGtid? && !ts[i].SetAutomatic? { }
  }

  lemma FdAssigns(s: State, ev: Event)
    requires ev.body.FormatDescription?
    ensures var ts, g := FdTokens(s, ev), FdFlags(s.flags, ev.body.created);
            g.nextSet == if Assigns(ts) then Explicit(ts) else s.flags.nextSet
  {
    hide Explicit;
    var created, ts := ev.body.created, FdTokens(s, ev);
    if !(if created then Spent(s.flags) else s.flags).nextValid {
      var k := if created then 2 else 1;
      assert ts[k] == SetAutomatic;
      ExplicitSnoc(ts[..k], SetAutomatic);
      assert ts[..k + 1] == ts[..k] + [SetAutomatic];
      if |ts| > k + 1 {
        assert ts == ts[..k + 1] + [ts[k + 1]];
        ExplicitSnoc(ts[..k + 1], ts[k + 1]);
      } else {
        assert ts == ts[..k + 1];
      }
    } else {
      forall i | 0 <= i < |ts| ensures !ts[i].SetGtid? && !ts[i].SetAutomatic? { }
    }
  }

  lemma {:induction false} RunMirrorsNext(o: Options, s: State, evs: seq<Event>)
    requires Initial(s)
    ensures var t := Run(o, s, evs).0; t.flags.nextSet == Explicit(t.out)
    decreases |evs|
  {
    hide TokensOf, FlagsAfter, FilesAfter, IgnoredAfter, GtidFilter, GateOf, RangeAfter, StatusOf, Explicit;
    if evs == [] {
      assert !Explicit([]) by { NothingExplicit(); }
    } else {
      var n := |evs| - 1;
      RunMirrorsNext(o, s, evs[..n]);
      var (t, status) := Run(o, s, evs[..n]);
      if status.OkContinue? && Accepted(o, t, evs[n]) {
        var t1 := t.(filterOnGtids := GtidFilter(o, t.filterOnGtids, evs[n].body).1, range := RangeAfter(t.range, evs[n]));
        TokensAssign(o, t1, evs[n]);
        ExplicitConcat(t.out, TokensOf(o, t1, evs[n]));
      }
    }
  }

  lemma NothingExplicit() ensures !Explicit([]) {}

  /** At the end of a log GTID_NEXT is left explicit exactly when the last GTID is not known to have been used. */
  lemma EndsExplicitIff(o: Options, s: State, evs: seq<Event>)
    requires Initial(s) && s.fdServerId == 0 && !o.skipGtids && FromStart(o, s, evs) && PhaseAfter(o, evs).Some?
    ensures var t, g := Run(o, s, evs).0, Got(o, s, evs);
            PhaseAfter(o, g).Some? && (Explicit(t.out + FinishTokens(t.flags)) <==> LeftBy(o, g).unspent)
  {
    hide Run, PhaseAfter, LeftBy, Got;
    GotAll(o, s, evs);
    var t, g := Run(o, s, evs).0, Got(o, s, evs);
    RunInStep(o, s, g);
    RunMirrorsNext(o, s, evs);
    var ts := FinishTokens(t.flags);
    ExplicitConcat(t.out, ts);
    if !t.flags.nextValid { assert ts[|ts| - 1] == SetAutomatic; }
  }
}
