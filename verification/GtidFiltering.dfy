/** The streaming GTID filter of client/mysqlbinlog.cc (`shall_skip_gtids`) against groups. */
module GtidFiltering {
  import opened Binlog

  /** The flag after the first n events. */
  ghost function FlagAt(o: Options, bs: seq<Body>, n: nat): bool
    requires n <= |bs|
  {
    n > 0 && GtidFilter(o, FlagAt(o, bs, n - 1), bs[n - 1]).1
  }

  /** The filter drops event i. */
  ghost predicate Drops(o: Options, bs: seq<Body>, i: nat)
    requires i < |bs|
  {
    GtidFilter(o, FlagAt(o, bs, i), bs[i]).0
  }

  ghost predicate EndsGroup(b: Body) { b.Xid? || (b.Query? && b.ends) }

  /** The GTID event k opened the group that is still open just before position i. */
  ghost predicate GroupOpenedAt(bs: seq<Body>, k: nat, i: nat)
    requires k < i <= |bs|
  {
    bs[k].Gtid? && forall j :: k < j < i ==> !bs[j].Gtid? && !EndsGroup(bs[j])
  }

  /** Only control and PREVIOUS_GTIDS events stand outside groups, and every group starts with its GTID. */
  ghost predicate WellGrouped(bs: seq<Body>) {
    forall i :: 0 <= i < |bs| && !IsControl(bs[i]) && !bs[i].PreviousGtids? && !bs[i].Gtid? ==>
      exists k :: 0 <= k < i && GroupOpenedAt(bs, k, i)
  }

  /** One flag is enough: it is set exactly when the group now open has a GTID that fails. */
  lemma {:induction false} FlagMeans(o: Options, bs: seq<Body>, n: nat)
    requires n <= |bs|
    ensures FlagAt(o, bs, n) <==> exists k :: 0 <= k < n && GroupOpenedAt(bs, k, n) && Fails(o, bs[k].gtid)
    decreases n
  {
    hide Fails;
    if n > 0 {
      FlagMeans(o, bs, n - 1);
      var b := bs[n - 1];
      if FlagAt(o, bs, n) {
        if b.Gtid? {
          assert GroupOpenedAt(bs, n - 1, n);
        } else {
          var k :| 0 <= k < n - 1 && GroupOpenedAt(bs, k, n - 1) && Fails(o, bs[k].gtid);
          assert GroupOpenedAt(bs, k, n);
        }
      }
      forall k | 0 <= k < n && GroupOpenedAt(bs, k, n) && Fails(o, bs[k].gtid)
        ensures FlagAt(o, bs, n)
      {
        if k < n - 1 { assert GroupOpenedAt(bs, k, n - 1); }
      }
    }
  }

  lemma OneOpenGroup(bs: seq<Body>, k: nat, l: nat, i: nat)
    requires k < i <= |bs| && l < i && GroupOpenedAt(bs, k, i) && GroupOpenedAt(bs, l, i)
    ensures k == l
  {
  }

  /** An event inside a group is dropped exactly when the group's GTID fails the include or exclude
      set, however many control events fall into the group. */
  lemma DropsWithItsGroup(o: Options, bs: seq<Body>, k: nat, i: nat)
    requires k < i < |bs| && GroupOpenedAt(bs, k, i)
    requires !IsControl(bs[i]) && !bs[i].PreviousGtids? && !bs[i].Gtid?
    ensures Drops(o, bs, i) <==> Fails(o, bs[k].gtid)
  {
    hide Fails;
    FlagMeans(o, bs, i);
    forall l | 0 <= l < i && GroupOpenedAt(bs, l, i) ensures l == k { OneOpenGroup(bs, k, l, i); }
  }

  /** The verdict on every event of a well-grouped log, without the stream. */
  ghost predicate GroupVerdict(o: Options, bs: seq<Body>, i: nat)
    requires i < |bs|
  {
    if IsControl(bs[i]) then false
    else if bs[i].PreviousGtids? then o.skipGtids
    else if bs[i].Gtid? then o.skipGtids || Fails(o, bs[i].gtid)
    else exists k :: 0 <= k < i && GroupOpenedAt(bs, k, i) && Fails(o, bs[k].gtid)
  }

  lemma FilterDecidesByGroup(o: Options, bs: seq<Body>, i: nat)
    requires i < |bs| && WellGrouped(bs)
    ensures Drops(o, bs, i) <==> GroupVerdict(o, bs, i)
  {
    hide Fails;
    if !IsControl(bs[i]) && !bs[i].PreviousGtids? && !bs[i].Gtid? {
      var k :| 0 <= k < i && GroupOpenedAt(bs, k, i);
      DropsWithItsGroup(o, bs, k, i);
      forall l | 0 <= l < i && GroupOpenedAt(bs, l, i) ensures l == k { OneOpenGroup(bs, k, l, i); }
    }
  }

  // ---------- in the event loop ----------

  ghost function Bodies(evs: seq<Event>): (r: seq<Body>)
    ensures |r| == |evs| && forall i :: 0 <= i < |evs| ==> r[i] == evs[i].body
  {
    seq(|evs|, i requires 0 <= i < |evs| => evs[i].body)
  }

  /** The run starts with the first event, and no events of single servers are left out. */
  ghost predicate FromStart(o: Options, s: State, evs: seq<Event>) {
    && o.filterServerId == 0 && s.range.offset == 0 && s.range.startDatetime == 0
    && forall i :: 0 <= i < |evs| ==> evs[i].when >= 0
  }

  /** --stop-datetime or --stop-position ends the run at this event. */
  ghost predicate Stops(o: Options, ev: Event) {
    || (o.stopDatetime.Some? && ev.when >= o.stopDatetime.value)
    || (o.stopPosition.Some? && ev.pos >= o.stopPosition.value)
  }

  lemma {:induction false} FlagAtPrefix(o: Options, bs: seq<Body>, cs: seq<Body>, n: nat)
    requires n <= |bs| && n <= |cs| && bs[..n] == cs[..n]
    ensures FlagAt(o, bs, n) == FlagAt(o, cs, n)
    decreases n
  {
    if n > 0 {
      assert bs[..n][..n - 1] == bs[..n - 1] && cs[..n][..n - 1] == cs[..n - 1];
      assert bs[n - 1] == bs[..n][n - 1] == cs[n - 1];
      FlagAtPrefix(o, bs, cs, n - 1);
    }
  }

  /** Along a run the state's flag is the filter's. */
  lemma {:induction false} RunFlag(o: Options, s: State, evs: seq<Event>)
    requires Initial(s) && FromStart(o, s, evs) && Run(o, s, evs).1.OkContinue?
    ensures var t := Run(o, s, evs).0;
            && t.filterOnGtids == FlagAt(o, Bodies(evs), |evs|)
            && t.range.offset == 0 && t.range.startDatetime == 0
    decreases |evs|
  {
    hide FlagsAfter, FilesAfter, IgnoredAfter, TokensOf, GtidFilter, StatusOf;
    if evs != [] {
      var n := |evs| - 1;
      RunFlag(o, s, evs[..n]);
      assert Bodies(evs)[..n] == Bodies(evs[..n]);
      FlagAtPrefix(o, Bodies(evs), Bodies(evs[..n]), n);
    }
  }

  /** In the loop, an event of a well-grouped log reaches the switch exactly when its group's GTID
      passes and it does not end the run; control events always pass. */
  lemma AcceptedByGroup(o: Options, s: State, evs: seq<Event>, ev: Event)
    requires Initial(s) && FromStart(o, s, evs + [ev]) && Run(o, s, evs).1.OkContinue?
    requires WellGrouped(Bodies(evs + [ev]))
    ensures Accepted(o, Run(o, s, evs).0, ev) <==> !Stops(o, ev) && !GroupVerdict(o, Bodies(evs + [ev]), |evs|)
  {
    hide GtidFilter, GroupVerdict, WellGrouped, Run;
    var all := evs + [ev];
    assert forall i :: 0 <= i < |evs| ==> all[i] == evs[i];
    assert all[|evs|] == ev;
    RunFlag(o, s, evs);
    assert Bodies(all)[..|evs|] == Bodies(evs)[..|evs|];
    FlagAtPrefix(o, Bodies(all), Bodies(evs), |evs|);
    FilterDecidesByGroup(o, Bodies(all), |evs|);
  }
}
