/** When the output of client/mysqlbinlog.cc can be replayed: the exact condition on logs of complete groups, logs for
    which the code keeps its promise, and logs on which it does not. */
module GtidReplay {
  import opened Text
  import opened Binlog
  import opened GtidFiltering
  import opened GtidGroups

  // ---------- complete groups ----------

  /** No group is given up. */
  ghost predicate AllComplete(o: Options, evs: seq<Event>) {
    forall i :: 0 <= i < |evs| && GivesUp(LocalServer(evs[..i]), evs[i]) ==> PhaseAfter(o, evs[..i]) == Some(Between)
  }

  /** The last group of the log that passes the GTID filter is a statement of its own that the
      database filter drops, and no server start was logged after it. */
  ghost predicate EndsInDroppedDdl(o: Options, evs: seq<Event>) {
    evs != [] &&
    var n := |evs| - 1;
    var p, b := PhaseAfter(o, evs[..n]), evs[n].body;
    if p == Some(Opened(true)) && PlainQuery(b) then QuerySkips(o, b)
    else if p == Some(Inside(true)) && Ends(b) then false
    else if b.FormatDescription? && b.created then false
    else EndsInDroppedDdl(o, evs[..n])
  }

  lemma CompleteBefore(o: Options, evs: seq<Event>)
    requires AllComplete(o, evs) && evs != []
    ensures var n := |evs| - 1;
            AllComplete(o, evs[..n]) && (GivesUp(LocalServer(evs[..n]), evs[n]) ==> PhaseAfter(o, evs[..n]) == Some(Between))
  {
    hide PhaseAfter, LocalServer, GivesUp;
    var n := |evs| - 1;
    forall i | 0 <= i < n && GivesUp(LocalServer(evs[..n][..i]), evs[..n][i]) ensures PhaseAfter(o, evs[..n][..i]) == Some(Between) {
      assert evs[..n][..i] == evs[..i] && evs[..n][i] == evs[i];
    }
  }

  /** What complete groups leave behind while none of them is open. */
  lemma {:induction false} CompleteLeaves(o: Options, evs: seq<Event>)
    requires PhaseAfter(o, evs).Some? && AllComplete(o, evs)
    ensures var p, l := PhaseAfter(o, evs).value, LeftBy(o, evs);
            && !l.armed && (p != Inside(true) ==> !l.open && !l.drops) && (p == Opened(true) ==> l.unspent)
            && (p != Opened(true) && p != Inside(true) ==> (l.unspent <==> EndsInDroppedDdl(o, evs)))
    decreases |evs|
  {
    hide Fails, SkipDatabase, AllComplete, LocalServer, Foreign;
    if evs != [] {
      CompleteBefore(o, evs);
      CompleteLeaves(o, evs[..|evs| - 1]);
    }
  }

  lemma CompletePrefix(o: Options, evs: seq<Event>, n: nat)
    requires n <= |evs| && AllComplete(o, evs)
    ensures AllComplete(o, evs[..n])
  {
    hide PhaseAfter, LocalServer, GivesUp;
    forall i | 0 <= i < n && GivesUp(LocalServer(evs[..n][..i]), evs[..n][i]) ensures PhaseAfter(o, evs[..n][..i]) == Some(Between) {
      assert evs[..n][..i] == evs[..i] && evs[..n][i] == evs[i];
    }
  }

  /** Event i is a format description of another server, not of a server start, and the last group before it that
      passes the filters is a statement dropped by --database. */
  ghost predicate ForeignAfterDrop(o: Options, evs: seq<Event>, i: nat)
    requires i < |evs|
  {
    Foreign(LocalServer(evs[..i]), evs[i]) && !evs[i].body.created && EndsInDroppedDdl(o, evs[..i])
  }

  lemma CompleteBreaksAt(o: Options, evs: seq<Event>, i: nat)
    requires i < |evs| && PhaseAfter(o, evs).Some? && AllComplete(o, evs)
    ensures PhaseAfter(o, evs[..i]).Some? && (BreaksAt(o, evs, i) <==> ForeignAfterDrop(o, evs, i))
  {
    hide PhaseAfter, LocalServer, LeftBy, EndsInDroppedDdl;
    PhasePrefix(o, evs, i);
    CompletePrefix(o, evs, i);
    CompleteLeaves(o, evs[..i]);
  }

  /** For every log of complete GTID groups, with format descriptions of any servers, and every --database,
      --include-gtids and --exclude-gtids, the complete output breaks a replaying session exactly when the loop gets to
      a format description of another server after a group dropped by --database: it takes the GTID of that group for
      unused and opens a second transaction under it. */
  lemma CompleteReplayBreaksIff(o: Options, s: State, evs: seq<Event>)
    requires Initial(s) && s.fdServerId == 0 && !o.skipGtids && FromStart(o, s, evs)
    requires PhaseAfter(o, evs).Some? && AllComplete(o, evs)
    ensures var t, g := Run(o, s, evs).0, Got(o, s, evs);
            ReadAll(Idle, t.out + FinishTokens(t.flags)).Broken? <==> exists i :: 0 <= i < |g| && ForeignAfterDrop(o, g, i)
  {
    hide Run, Got, PhaseAfter, LeftBy, ForeignAfterDrop, AllComplete, BreaksAt;
    var g := Got(o, s, evs);
    GotAll(o, s, evs);
    assert g == evs[..|g|];
    CompletePrefix(o, evs, |g|);
    ReplayBreaksIff(o, s, evs);
    CompleteLeaves(o, g);
    forall i | 0 <= i < |g| ensures PhaseAfter(o, g[..i]).Some? && (BreaksAt(o, g, i) <==> ForeignAfterDrop(o, g, i)) {
      CompleteBreaksAt(o, g, i);
    }
  }

  /** After a log of complete groups the session is left with GTID_NEXT = AUTOMATIC, except exactly when the last group
      was a statement dropped by --database: the added COMMIT does not mark its GTID as spent. */
  lemma LeavesAutomatic(o: Options, s: State, evs: seq<Event>)
    requires Initial(s) && s.fdServerId == 0 && !o.skipGtids && FromStart(o, s, evs)
    requires PhaseAfter(o, evs) == Some(Between) && AllComplete(o, evs) && Run(o, s, evs).1.OkContinue?
    ensures var t := Run(o, s, evs).0;
            Explicit(t.out + FinishTokens(t.flags)) <==> EndsInDroppedDdl(o, evs)
  {
    hide Run, Got, PhaseAfter, LeftBy, EndsInDroppedDdl, AllComplete, Explicit;
    GotAll(o, s, evs);
    EndsExplicitIff(o, s, evs);
    CompleteLeaves(o, evs);
  }

  // ---------- logs for which the promise is kept ----------

  ghost predicate OneServer(evs: seq<Event>, sid: int) {
    forall i :: 0 <= i < |evs| && evs[i].body.FormatDescription? ==> evs[i].serverId == sid
  }

  lemma {:induction false} NothingDropped(o: Options, evs: seq<Event>)
    requires o.database.None?
    ensures !EndsInDroppedDdl(o, evs)
    decreases |evs|
  {
    hide PhaseAfter;
    if evs != [] { NothingDropped(o, evs[..|evs| - 1]); }
  }

  lemma {:induction false} LocalIsTheOne(evs: seq<Event>, sid: int)
    requires OneServer(evs, sid)
    ensures LocalServer(evs) == 0 || LocalServer(evs) == sid
    decreases |evs|
  {
    if evs != [] { LocalIsTheOne(evs[..|evs| - 1], sid); }
  }

  /** Without --database, or when all format descriptions come from one server, complete groups never break a replaying
      session: each SET GTID_NEXT is used by one transaction before the next one, and AUTOMATIC is set only while no
      group is open. */
  lemma ReplayIsSound(o: Options, s: State, evs: seq<Event>, sid: int)
    requires Initial(s) && s.fdServerId == 0 && !o.skipGtids && FromStart(o, s, evs)
    requires PhaseAfter(o, evs).Some? && AllComplete(o, evs) && (o.database.None? || OneServer(evs, sid))
    ensures var t := Run(o, s, evs).0; !ReadAll(Idle, t.out + FinishTokens(t.flags)).Broken?
  {
    hide Run, Got, PhaseAfter, AllComplete, EndsInDroppedDdl;
    var g := Got(o, s, evs);
    GotAll(o, s, evs);
    CompleteReplayBreaksIff(o, s, evs);
    forall i | 0 <= i < |g| ensures !ForeignAfterDrop(o, g, i) {
      if o.database.None? {
        NothingDropped(o, g[..i]);
      } else {
        assert forall j :: 0 <= j < |g| ==> g[j] == evs[j];
        LocalIsTheOne(g[..i], sid);
      }
    }
  }

  // ---------- logs on which it is not ----------

  /** Events of server 2: a server start, a GTID, a statement on database b, a transaction on it. */
  const START := Event(0, 0, 2, 4, FormatDescription(true, 120, false))
  const GTID := Event(3, 0, 2, 240, Gtid(7))
  const STATEMENT := Event(4, 0, 2, 288, Query(Some("b"), false, false, false))
  const BEGIN := Event(4, 0, 2, 288, Query(None, true, false, true))
  const MAP := Event(5, 0, 2, 360, TableMap(Some("b"), 1))

  /** How a relay log of server 1 begins, and what the source, server 2, sends whenever the connection is made. */
  const LOCAL := Event(0, 0, 1, 4, FormatDescription(false, 120, false))
  const ROTATE := Event(1, 0, 2, 120, Rotate)
  const SOURCE := Event(2, 0, 2, 160, FormatDescription(false, 120, false))

  ghost function RelayLog(group: seq<Event>): seq<Event> { [LOCAL, ROTATE, SOURCE] + group + [ROTATE, SOURCE] }

  /** A run with --database=a and no other option that selects events. */
  ghost predicate OnlyDatabaseA(o: Options, s: State) {
    && Initial(s) && s.fdServerId == 0 && FromStart(o, s, []) && !o.skipGtids
    && o.includeGtids.None? && o.excludeGtids.None? && o.stopDatetime.None? && o.stopPosition.None? && o.database == Some("a")
  }

  lemma Snoc(o: Options, evs: seq<Event>, ev: Event)
    requires PhaseAfter(o, evs).Some?
    ensures LocalServer(evs + [ev]) == LocalAfter(LocalServer(evs), ev)
    ensures PhaseAfter(o, evs + [ev]) == Advance(o, LocalServer(evs), PhaseAfter(o, evs).value, ev)
    ensures PhaseAfter(o, evs + [ev]).Some? ==>
              LeftBy(o, evs + [ev]) == LeftAfter(o, LocalServer(evs), PhaseAfter(o, evs).value, LeftBy(o, evs), ev)
  {
    hide Advance, LeftAfter, LocalAfter;
    assert (evs + [ev])[..|evs|] == evs;
  }

  /** Events that never stop the loop. */
  ghost predicate Harmless(b: Body) {
    b.Gtid? || b.Query? || b.TableMap? || b.Rotate? || (b.FormatDescription? && !b.inUse)
  }

  lemma {:induction false} NeverStops(o: Options, s: State, evs: seq<Event>)
    requires Initial(s) && FromStart(o, s, evs) && o.stopDatetime.None? && o.stopPosition.None?
    requires forall i :: 0 <= i < |evs| ==> Harmless(evs[i].body)
    ensures Run(o, s, evs).1.OkContinue? && Got(o, s, evs) == evs
    decreases |evs|
  {
    hide Handle, GtidFilter, GateOf, RangeAfter;
    if evs != [] {
      var n := |evs| - 1;
      NeverStops(o, s, evs[..n]);
      RunFlag(o, s, evs[..n]);
      Gates(o, s, Run(o, s, evs[..n]).0, evs);
    }
  }

  lemma Nothing(o: Options)
    ensures PhaseAfter(o, []) == Some(Between) && LeftBy(o, []) == NOTHING && LocalServer([]) == 0
  {
  }

  /** What precedes the first group. */
  lemma AfterStart(o: Options)
    ensures PhaseAfter(o, [START]) == Some(Between) && LeftBy(o, [START]) == NOTHING && LocalServer([START]) == 2
  {
    hide PhaseAfter, LeftBy, LocalServer;
    Nothing(o);
    Snoc(o, [], START);
    assert [] + [START] == [START];
  }

  lemma AfterHeader(o: Options)
    ensures var h := [LOCAL, ROTATE, SOURCE];
            PhaseAfter(o, h) == Some(Between) && LeftBy(o, h) == NOTHING && LocalServer(h) == 1
    ensures PhaseAfter(o, [LOCAL, ROTATE]) == Some(Between)
  {
    hide PhaseAfter, LeftBy, LocalServer;
    Nothing(o);
    Snoc(o, [], LOCAL);
    assert [] + [LOCAL] == [LOCAL] && [LOCAL] + [ROTATE] == [LOCAL, ROTATE];
    Snoc(o, [LOCAL], ROTATE);
    Snoc(o, [LOCAL, ROTATE], SOURCE);
    assert [LOCAL, ROTATE] + [SOURCE] == [LOCAL, ROTATE, SOURCE];
  }

  lemma AfterGtid(o: Options, s: State, h: seq<Event>)
    requires OnlyDatabaseA(o, s) && PhaseAfter(o, h) == Some(Between) && LeftBy(o, h) == NOTHING
    ensures var evs := h + [GTID];
            && PhaseAfter(o, evs) == Some(Opened(true)) && LocalServer(evs) == LocalServer(h)
            && LeftBy(o, evs) == NOTHING.(unspent := true)
  {
    hide PhaseAfter, LeftBy, LocalServer;
    Snoc(o, h, GTID);
  }

  /** A statement on database b, dropped. */
  lemma AfterStatement(o: Options, s: State, h: seq<Event>)
    requires OnlyDatabaseA(o, s) && PhaseAfter(o, h) == Some(Between) && LeftBy(o, h) == NOTHING
    ensures var evs := h + [GTID] + [STATEMENT];
            && PhaseAfter(o, evs) == Some(Between) && LocalServer(evs) == LocalServer(h)
            && LeftBy(o, evs) == NOTHING.(unspent := true)
  {
    hide PhaseAfter, LeftBy, LocalServer;
    AfterGtid(o, s, h);
    Snoc(o, h + [GTID], STATEMENT);
  }

  /** A group with one dropped event, still open. */
  lemma AfterMap(o: Options, s: State, h: seq<Event>)
    requires OnlyDatabaseA(o, s) && PhaseAfter(o, h) == Some(Between) && LeftBy(o, h) == NOTHING
    ensures var evs := h + [GTID] + [BEGIN] + [MAP];
            && PhaseAfter(o, evs) == Some(Inside(true)) && LocalServer(evs) == LocalServer(h)
            && LeftBy(o, evs) == Left(true, true, false, true, {1})
  {
    hide PhaseAfter, LeftBy, LocalServer;
    AfterGtid(o, s, h);
    Snoc(o, h + [GTID], BEGIN);
    Snoc(o, h + [GTID] + [BEGIN], MAP);
  }

  /** A log of one server with one dropped statement: GTID_NEXT stays explicit after it. */
  lemma StaysExplicit(o: Options, s: State)
    requires OnlyDatabaseA(o, s)
    ensures var t := Run(o, s, [START, GTID, STATEMENT]).0; Explicit(t.out + FinishTokens(t.flags))
  {
    hide Run, PhaseAfter, LeftBy, Got, Explicit, LocalServer;
    var evs := [START, GTID, STATEMENT];
    AfterStart(o);
    AfterStatement(o, s, [START]);
    assert [START] + [GTID] + [STATEMENT] == evs;
    NeverStops(o, s, evs);
    EndsExplicitIff(o, s, evs);
  }

  /** A relay log with one group, and the connection made again. */
  lemma AfterReconnect(o: Options, s: State, h: seq<Event>, l: Left)
    requires OnlyDatabaseA(o, s) && PhaseAfter(o, h).Some? && LocalServer(h) == 1 && LeftBy(o, h) == l
    ensures PhaseAfter(o, h + [ROTATE]) == PhaseAfter(o, h) && LeftBy(o, h + [ROTATE]) == l && LocalServer(h + [ROTATE]) == 1
    ensures PhaseAfter(o, h + [ROTATE] + [SOURCE]) == Some(Between)
    ensures LeftBy(o, h + [ROTATE] + [SOURCE]) == l.(armed := false)
  {
    hide PhaseAfter, LeftBy, LocalServer;
    Snoc(o, h, ROTATE);
    Snoc(o, h + [ROTATE], SOURCE);
  }

  /** A relay log of complete groups: the format description the source sends on a new connection, after the dropped
      statement, makes the loop open a transaction under a GTID that has been used. */
  lemma RelayLogBreaks(o: Options, s: State)
    requires OnlyDatabaseA(o, s)
    ensures AllComplete(o, RelayLog([GTID, STATEMENT]))
    ensures var t := Run(o, s, RelayLog([GTID, STATEMENT])).0; ReadAll(Idle, t.out + FinishTokens(t.flags)).Broken?
  {
    hide Run, PhaseAfter, LeftBy, Got, LocalServer;
    var h := [LOCAL, ROTATE, SOURCE];
    var g := h + [GTID] + [STATEMENT];
    AfterHeader(o);
    AfterStatement(o, s, h);
    AfterReconnect(o, s, g, NOTHING.(unspent := true));
    var evs := RelayLog([GTID, STATEMENT]);
    assert evs == g + [ROTATE] + [SOURCE] && evs[..6] == g + [ROTATE];
    Nothing(o);
    assert evs[..0] == [] && evs[..2] == [LOCAL, ROTATE];
    NeverStops(o, s, evs);
    assert BreaksAt(o, evs, 6);
    ReplayBreaksIff(o, s, evs);
  }

  /** A relay log with a group given up: what --database dropped of it is followed by a COMMIT after its ROLLBACK. */
  lemma GivenUpGroupBreaks(o: Options, s: State)
    requires OnlyDatabaseA(o, s)
    ensures var t := Run(o, s, RelayLog([GTID, BEGIN, MAP])).0; ReadAll(Idle, t.out + FinishTokens(t.flags)).Broken?
  {
    hide Run, PhaseAfter, LeftBy, Got, LocalServer;
    var h := [LOCAL, ROTATE, SOURCE];
    var g := h + [GTID] + [BEGIN] + [MAP];
    AfterHeader(o);
    AfterMap(o, s, h);
    AfterReconnect(o, s, g, Left(true, true, false, true, {1}));
    var evs := RelayLog([GTID, BEGIN, MAP]);
    assert evs == g + [ROTATE] + [SOURCE];
    NeverStops(o, s, evs);
    ReplayBreaksIff(o, s, evs);
  }
}
