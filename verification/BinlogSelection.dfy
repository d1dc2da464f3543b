/** Which events of a log reach the switch of client/mysqlbinlog.cc: what each option that selects events selects. */
module BinlogSelection {
  import opened Text
  import opened Binlog
  import opened GtidFiltering
  import opened BinlogOutput

  // ---------- position, time and server ----------

  /** Event j is the offset's or a later one, and not before the start time; format descriptions do not count. */
  ghost predicate InRange(r: Range, evs: seq<Event>, j: nat) {
    j < |evs| && !evs[j].body.FormatDescription? && j >= r.offset && evs[j].when >= r.startDatetime
  }

  /** One of the first n events is in range. */
  ghost predicate Begun(r: Range, evs: seq<Event>, n: nat) { exists j :: 0 <= j < n && InRange(r, evs, j) }

  lemma BegunStep(r: Range, evs: seq<Event>, ev: Event)
    ensures Begun(r, evs + [ev], |evs| + 1) <==> Begun(r, evs, |evs|) || InRange(r, evs + [ev], |evs|)
  {
    var g := evs + [ev];
    assert forall j :: 0 <= j < |evs| ==> (InRange(r, g, j) <==> InRange(r, evs, j));
  }

  /** Once an event is in range, offset and start time have lost their effect. */
  lemma {:induction false} RunRange(o: Options, s: State, evs: seq<Event>)
    requires s.range.recCount == 0 && Run(o, s, evs).1.OkContinue?
    ensures var t := Run(o, s, evs).0;
            && t.range.recCount == |evs|
            && t.range.offset == (if Begun(s.range, evs, |evs|) then 0 else s.range.offset)
            && t.range.startDatetime == (if Begun(s.range, evs, |evs|) then 0 else s.range.startDatetime)
    decreases |evs|
  {
    hide FlagsAfter, FilesAfter, IgnoredAfter, TokensOf, RangeAfter, GtidFilter, GateOf, StatusOf, Begun, InRange;
    if evs == [] {
      NotBegun(s.range, evs);
    } else {
      var n := |evs| - 1;
      RunRange(o, s, evs[..n]);
      BegunStep(s.range, evs[..n], evs[n]);
      assert evs[..n] + [evs[n]] == evs;
      RangeStep(s.range, Run(o, s, evs[..n]).0.range, evs, n);
    }
  }

  lemma NotBegun(r: Range, evs: seq<Event>)
    ensures !Begun(r, evs, 0)
  {
  }

  lemma RangeStep(r: Range, q: Range, evs: seq<Event>, n: nat)
    requires n < |evs| && q.recCount == n
    requires (q.offset == 0 && q.startDatetime == 0) || (q.offset == r.offset && q.startDatetime == r.startDatetime)
    ensures var a := RangeAfter(q, evs[n]);
            && a.recCount == n + 1
            && (q.offset == 0 && q.startDatetime == 0 ==> a.offset == 0 && a.startDatetime == 0)
            && (InRange(r, evs, n) && q.offset == r.offset && q.startDatetime == r.startDatetime ==> a.offset == 0 && a.startDatetime == 0)
            && (!InRange(r, evs, n) && q.offset == r.offset && q.startDatetime == r.startDatetime ==> a == q.(recCount := n + 1))
  {
  }

  /** The run has reached its range, at this event or before; format descriptions are always in it. */
  ghost predicate Reached(r: Range, evs: seq<Event>, ev: Event) {
    ev.body.FormatDescription? || Begun(r, evs, |evs|) || InRange(r, evs + [ev], |evs|)
  }

  /** With --server-id, events of other servers are left out, save format descriptions and rotations. */
  ghost predicate OfServer(o: Options, ev: Event) {
    o.filterServerId == 0 || ev.serverId == o.filterServerId || ev.body.FormatDescription? || ev.body.Rotate?
  }

  lemma GateMeans(o: Options, s: State, evs: seq<Event>, ev: Event)
    requires s.range.recCount == 0 && Run(o, s, evs).1.OkContinue? && ev.when >= 0
    ensures GateOf(o, Run(o, s, evs).0.range, ev) ==
            if !Reached(s.range, evs, ev) || !OfServer(o, ev) then Dropped
            else if (o.stopDatetime.Some? && ev.when >= o.stopDatetime.value) || (o.stopPosition.Some? && ev.pos >= o.stopPosition.value)
            then Stopped
            else Passed
  {
    hide Run, Begun;
    RunRange(o, s, evs);
  }

  /** Without options on GTIDs the events that reach the switch are those in range, of the server asked for, up to the
      stop. */
  lemma SelectedByOptions(o: Options, s: State, evs: seq<Event>, ev: Event)
    requires Initial(s) && s.range.recCount == 0 && Run(o, s, evs).1.OkContinue? && ev.when >= 0
    requires o.includeGtids.None? && o.excludeGtids.None? && !o.skipGtids
    ensures Accepted(o, Run(o, s, evs).0, ev) <==> Reached(s.range, evs, ev) && OfServer(o, ev) && !Stops(o, ev)
  {
    hide Run, GateOf, Reached, OfServer;
    GateMeans(o, s, evs, ev);
    NoFilter(o, s, evs);
  }

  lemma {:induction false} NoFilter(o: Options, s: State, evs: seq<Event>)
    requires Initial(s) && o.includeGtids.None? && o.excludeGtids.None?
    ensures !Run(o, s, evs).0.filterOnGtids
    decreases |evs|
  {
    hide GateOf, RangeAfter, FlagsAfter, FilesAfter, IgnoredAfter, TokensOf, StatusOf;
    if evs != [] { NoFilter(o, s, evs[..|evs| - 1]); }
  }

  /** Without any option that selects events, every event of a run that goes on to the end reaches the switch. */
  lemma {:induction false} NothingIsLeftOut(o: Options, s: State, evs: seq<Event>)
    requires Initial(s) && FromStart(o, s, evs) && s.range.recCount == 0 && Run(o, s, evs).1.OkContinue?
    requires o.includeGtids.None? && o.excludeGtids.None? && !o.skipGtids && o.stopDatetime.None? && o.stopPosition.None?
    ensures Handled(o, s, evs) == evs
    decreases |evs|
  {
    hide Process, Begun;
    if evs != [] {
      var n := |evs| - 1;
      NothingIsLeftOut(o, s, evs[..n]);
      SelectedByOptions(o, s, evs[..n], evs[n]);
      InFromStart(s.range, evs[..n], evs[n]);
      assert evs == evs[..n] + [evs[n]];
    }
  }

  lemma InFromStart(r: Range, evs: seq<Event>, ev: Event)
    requires r.offset == 0 && r.startDatetime == 0 && ev.when >= 0
    ensures Reached(r, evs, ev)
  {
  }

  // ---------- GTIDs ----------

  /** With --include-gtids alone the events of exactly the groups with a GTID in the set reach the switch, and all that
      belongs to no group. */
  lemma IncludeMeans(o: Options, s: State, evs: seq<Event>, ev: Event, gtids: set<nat>)
    requires Initial(s) && FromStart(o, s, evs + [ev]) && Run(o, s, evs).1.OkContinue? && WellGrouped(Bodies(evs + [ev]))
    requires o.includeGtids == Some(gtids) && o.excludeGtids.None? && !o.skipGtids && o.stopDatetime.None? && o.stopPosition.None?
    ensures Accepted(o, Run(o, s, evs).0, ev) <==>
            || IsControl(ev.body) || ev.body.PreviousGtids?
            || (ev.body.Gtid? && ev.body.gtid in gtids)
            || (!ev.body.Gtid? && exists k :: 0 <= k < |evs| && GroupOpenedAt(Bodies(evs + [ev]), k, |evs|) && evs[k].body.gtid in gtids)
  {
    hide Run, Accepted;
    var bs := Bodies(evs + [ev]);
    AcceptedByGroup(o, s, evs, ev);
    assert bs[|evs|] == ev.body && forall k :: 0 <= k < |evs| ==> bs[k] == evs[k].body;
    forall k, l | 0 <= k < |evs| && 0 <= l < |evs| && GroupOpenedAt(bs, k, |evs|) && GroupOpenedAt(bs, l, |evs|) ensures k == l {
      OneOpenGroup(bs, k, l, |evs|);
    }
  }

  /** With --exclude-gtids alone exactly the groups with a GTID in the set are left out. */
  lemma ExcludeMeans(o: Options, s: State, evs: seq<Event>, ev: Event, gtids: set<nat>)
    requires Initial(s) && FromStart(o, s, evs + [ev]) && Run(o, s, evs).1.OkContinue? && WellGrouped(Bodies(evs + [ev]))
    requires o.excludeGtids == Some(gtids) && o.includeGtids.None? && !o.skipGtids && o.stopDatetime.None? && o.stopPosition.None?
    ensures Accepted(o, Run(o, s, evs).0, ev) <==>
            || IsControl(ev.body) || ev.body.PreviousGtids?
            || (ev.body.Gtid? && ev.body.gtid !in gtids)
            || (!ev.body.Gtid? && exists k :: 0 <= k < |evs| && GroupOpenedAt(Bodies(evs + [ev]), k, |evs|) && evs[k].body.gtid !in gtids)
  {
    hide Run, Accepted;
    var bs := Bodies(evs + [ev]);
    AcceptedByGroup(o, s, evs, ev);
    assert bs[|evs|] == ev.body && forall k :: 0 <= k < |evs| ==> bs[k] == evs[k].body;
    forall k, l | 0 <= k < |evs| && 0 <= l < |evs| && GroupOpenedAt(bs, k, |evs|) && GroupOpenedAt(bs, l, |evs|) ensures k == l {
      OneOpenGroup(bs, k, l, |evs|);
    }
  }

  /** With --skip-gtids no GTID is set. */
  lemma {:induction false} SkipGtidsMeans(o: Options, s: State, evs: seq<Event>)
    requires Initial(s) && o.skipGtids && !Run(o, s, evs).1.ErrorStop?
    ensures GtidsIn(Run(o, s, evs).0.out) == []
  {
    EverythingIsShown(o, s, evs);
    NoGtidHandled(o, s, evs);
  }

  lemma {:induction false} NoGtidHandled(o: Options, s: State, evs: seq<Event>)
    requires o.skipGtids
    ensures GtidsOf(Handled(o, s, evs)) == []
    decreases |evs|
  {
    hide Run, GateOf;
    if evs != [] {
      var n := |evs| - 1;
      NoGtidHandled(o, s, evs[..n]);
      var h := Handled(o, s, evs[..n]);
      assert (h + [evs[n]])[..|h|] == h;
    }
  }
}
