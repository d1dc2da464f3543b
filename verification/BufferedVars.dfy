/** Intvar, Rand and User_var events wait for their query (client/mysqlbinlog.cc, buff_ev). */
module BufferedVars {
  import opened Binlog
  import BinlogDumper

  /** The Var events of a history since its last query, in arrival order. */
  ghost function Waiting(h: seq<Event>): seq<Event> {
    if h == [] then []
    else
      var last := h[|h| - 1];
      if last.body.Query? then []
      else if last.body.Var? then Waiting(h[..|h| - 1]) + [last]
      else Waiting(h[..|h| - 1])
  }

  /** The Var events up to the last query, in arrival order. */
  ghost function Settled(h: seq<Event>): seq<Event> {
    if h == [] then []
    else
      var before := h[..|h| - 1];
      if h[|h| - 1].body.Query? then Settled(before) + Waiting(before) else Settled(before)
  }

  ghost function Vars(h: seq<Event>): seq<Event> {
    if h == [] then []
    else
      var before := Vars(h[..|h| - 1]);
      if h[|h| - 1].body.Var? then before + [h[|h| - 1]] else before
  }

  /** Every Var event is settled or waiting, exactly once and in order. */
  lemma {:induction false} SettledThenWaiting(h: seq<Event>)
    ensures Settled(h) + Waiting(h) == Vars(h)
  {
    if h != [] { SettledThenWaiting(h[..|h| - 1]); }
  }

  /** What the output must show of queries and Var events: each printed query directly
      preceded by the events that waited for it; a filtered query takes them with it. */
  ghost function Script(o: Options, h: seq<Event>): seq<Token> {
    if h == [] then []
    else
      var before, last := h[..|h| - 1], h[|h| - 1];
      if last.body.Query? && !QuerySkips(o, last.body)
      then Script(o, before) + PrintAll(Waiting(before)) + [Printed(last)]
      else Script(o, before)
  }

  ghost predicate Scripted(t: Token) { t.Printed? && (t.ev.body.Query? || t.ev.body.Var?) }

  ghost function Shown(ts: seq<Token>): seq<Token> {
    if ts == [] then []
    else
      var before := Shown(ts[..|ts| - 1]);
      if Scripted(ts[|ts| - 1]) then before + [ts[|ts| - 1]] else before
  }

  lemma {:induction false} ShownConcat(a: seq<Token>, b: seq<Token>)
    ensures Shown(a + b) == Shown(a) + Shown(b)
  {
    if b == [] {
      assert a + b == a;
    } else {
      ShownConcat(a, b[..|b| - 1]);
      assert (a + b)[..|a + b| - 1] == a + b[..|b| - 1];
    }
  }

  lemma {:induction false} ShownAll(b: seq<Token>)
    requires forall i :: 0 <= i < |b| ==> Scripted(b[i])
    ensures Shown(b) == b
  {
    if b != [] {
      ShownAll(b[..|b| - 1]);
      assert b == b[..|b| - 1] + [b[|b| - 1]];
    }
  }

  lemma {:induction false} ShownNone(b: seq<Token>)
    requires forall i :: 0 <= i < |b| ==> !Scripted(b[i])
    ensures Shown(b) == []
  {
    if b != [] { ShownNone(b[..|b| - 1]); }
  }

  /** Only a query prints from the buffer. */
  lemma OtherTokens(o: Options, s: State, ev: Event)
    requires !ev.body.Query?
    ensures forall i :: 0 <= i < |TokensOf(o, s, ev)| ==> !Scripted(TokensOf(o, s, ev)[i])
  {
  }

  ghost predicate Bookkept(o: Options, s: State, h: seq<Event>) {
    && s.buffered == Waiting(h) && s.freed == Ids(Settled(h)) && Shown(s.out) == Script(o, h)
    && forall i :: 0 <= i < |s.buffered| ==> s.buffered[i].body.Var?
  }

  /** One more event in the history. */
  lemma HistorySnoc(o: Options, h: seq<Event>, ev: Event)
    ensures Waiting(h + [ev]) == if ev.body.Query? then [] else if ev.body.Var? then Waiting(h) + [ev] else Waiting(h)
    ensures Settled(h + [ev]) == if ev.body.Query? then Settled(h) + Waiting(h) else Settled(h)
    ensures Script(o, h + [ev]) ==
            if ev.body.Query? && !QuerySkips(o, ev.body) then Script(o, h) + PrintAll(Waiting(h)) + [Printed(ev)] else Script(o, h)
  {
    hide QuerySkips;
    assert (h + [ev])[..|h|] == h;
  }

  lemma HandleBookkeeps(o: Options, s: State, ev: Event, h: seq<Event>)
    requires Bookkept(o, s, h)
    ensures Bookkept(o, Handle(o, s, ev), h + [ev])
  {
    hide Waiting, Settled, Script, Shown, FlagsAfter, FilesAfter, IgnoredAfter, TokensOf, QuerySkips, Ids, Scripted;
    var ts := TokensOf(o, s, ev);
    HistorySnoc(o, h, ev);
    ShownConcat(s.out, ts);
    if ev.body.Query? {
      QueryScript(o, s, ev);
      IdsConcat(Settled(h), Waiting(h));
      QueryShown(Shown(s.out), PrintAll(s.buffered), Printed(ev));
    } else {
      OtherTokens(o, s, ev);
      ShownNone(ts);
      assert Shown(s.out) + [] == Shown(s.out);
    }
  }

  lemma QueryShown(a: seq<Token>, b: seq<Token>, t: Token)
    ensures a + (b + [t]) == a + b + [t] && a + [] == a
  {
  }

  lemma IdsConcat(a: seq<Event>, b: seq<Event>)
    ensures Ids(a + b) == Ids(a) + Ids(b)
  {
  }

  lemma QueryScript(o: Options, s: State, ev: Event)
    requires ev.body.Query? && forall i :: 0 <= i < |s.buffered| ==> s.buffered[i].body.Var?
    ensures Shown(TokensOf(o, s, ev)) ==
            if QuerySkips(o, ev.body) then [] else PrintAll(s.buffered) + [Printed(ev)]
  {
    var ts := TokensOf(o, s, ev);
    if QuerySkips(o, ev.body) { ShownNone(ts); } else { ShownAll(ts); }
  }

  lemma {:induction false} RunBookkeeps(o: Options, s: State, evs: seq<Event>)
    requires Initial(s)
    ensures Bookkept(o, Run(o, s, evs).0, Handled(o, s, evs))
    decreases |evs|
  {
    hide FlagsAfter, FilesAfter, IgnoredAfter, TokensOf, GtidFilter, GateOf, RangeAfter, StatusOf;
    if evs != [] {
      var n := |evs| - 1;
      RunBookkeeps(o, s, evs[..n]);
      var (t, status) := Run(o, s, evs[..n]);
      var h := Handled(o, s, evs[..n]);
      if status.OkContinue? && Accepted(o, t, evs[n]) {
        var t1 := t.(filterOnGtids := GtidFilter(o, t.filterOnGtids, evs[n].body).1, range := RangeAfter(t.range, evs[n]));
        assert Bookkept(o, t1, h);
        HandleBookkeeps(o, t1, evs[n], h);
      }
    }
  }

  /** At any point of any run: the Var events that reached the loop are, in arrival order, those
      already deleted (each once) followed by those still waiting; the output shows each printed
      query right after the events that waited for it. */
  lemma EveryVarIsSettledOnce(o: Options, s: State, evs: seq<Event>)
    requires Initial(s)
    ensures var t, h := Run(o, s, evs).0, Handled(o, s, evs);
            && t.freed + Ids(t.buffered) == Ids(Vars(h))
            && t.buffered == Waiting(h)
            && Shown(t.out) == Script(o, h)
  {
    var t, h := Run(o, s, evs).0, Handled(o, s, evs);
    RunBookkeeps(o, s, evs);
    SettledThenWaiting(h);
    IdsConcat(Settled(h), Waiting(h));
  }

  /** A printed query and the events that waited for it are adjacent in the output. */
  lemma PrintedTogether(o: Options, s: State, evs: seq<Event>, q: Event)
    requires Initial(s) && Run(o, s, evs).1.OkContinue? && q.body.Query?
    requires Accepted(o, Run(o, s, evs).0, q) && !QuerySkips(o, q.body)
    ensures Run(o, s, evs + [q]).0.out ==
            Run(o, s, evs).0.out + PrintAll(Waiting(Handled(o, s, evs))) + [Printed(q)]
  {
    hide FlagsAfter, FilesAfter, IgnoredAfter, GtidFilter, GateOf, RangeAfter, StatusOf;
    RunBookkeeps(o, s, evs);
    assert (evs + [q])[..|evs|] == evs;
  }

  /** The whole program: the logs, then `cleanup`. Every Intvar, Rand and User_var event that was kept is freed exactly
      once, in arrival order, and the warning is given exactly when some of them had to wait in vain. */
  method DumpAndCleanUp(d: BinlogDumper.Dumper, evs: seq<Event>) returns (rc: Status, warnLeftOver: bool)
    requires Initial(d.View())
    modifies d
    ensures var h := Handled(d.o, old(d.View()), evs);
            d.freed == Ids(Vars(h)) && d.buffEv == [] && warnLeftOver == (Waiting(h) != [])
    ensures var t := Run(d.o, old(d.View()), evs).0; d.resultFile == t.out + FinishTokens(t.flags)
  {
    hide Run, Handled, Waiting, Vars, Script, Shown;
    EveryVarIsSettledOnce(d.o, d.View(), evs);
    rc, warnLeftOver := d.DumpLogs(evs);
    d.Cleanup();
  }
}
