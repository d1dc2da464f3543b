/** Temporary files of LOAD DATA statements (client/mysqlbinlog.cc, Load_log_processor). */
module LoadFiles {
  import opened Text
  import opened Binlog

  /** A statement whose file is being collected: the format of its first event, the bytes so far. */
  datatype Load = Load(event: bool, bytes: Bytes)

  ghost predicate IsFirst(o: Options, ev: Event, f: nat) {
    match ev.body
    case CreateFile(db, _, id, _) => id == f && !SkipDatabase(o, db)
    case BeginLoad(id, _) => id == f
    case _ => false
  }

  ghost function FirstOf(ev: Event): Load {
    match ev.body
    case CreateFile(_, _, _, block) => Load(true, block)
    case BeginLoad(_, block) => Load(false, block)
    case _ => Load(false, [])
  }

  ghost predicate Takes(ev: Event, f: nat, event: bool) {
    if event then ev.body == ExecLoad(f) else ev.body.ExecuteLoad? && ev.body.fileId == f
  }

  /** The blocks appended for f, in order. */
  ghost function Appended(h: seq<Event>, f: nat): Bytes {
    if h == [] then []
    else
      var last := h[|h| - 1].body;
      Appended(h[..|h| - 1], f) + (if last.AppendBlock? && last.fileId == f then last.block else [])
  }

  /** What the history alone says is being collected for f; other ids do not matter. */
  ghost function Collecting(o: Options, h: seq<Event>, f: nat): Option<Load> {
    if h == [] then None
    else
      var last := h[|h| - 1];
      var before := Collecting(o, h[..|h| - 1], f);
      if IsFirst(o, last, f) then Some(FirstOf(last))
      else if before.None? then None
      else if last.body.AppendBlock? && last.body.fileId == f
      then Some(Load(before.value.event, before.value.bytes + last.body.block))
      else if Takes(last, f, before.value.event) then None
      else before
  }

  /** First event i for f, and nothing since that restarts or takes the file. */
  ghost predicate Since(o: Options, h: seq<Event>, f: nat, i: nat)
    requires i < |h|
  {
    && IsFirst(o, h[i], f)
    && forall j :: i < j < |h| ==> !IsFirst(o, h[j], f) && !Takes(h[j], f, FirstOf(h[i]).event)
  }

  lemma AppendedSnoc(h: seq<Event>, ev: Event, f: nat)
    ensures Appended(h + [ev], f) ==
            Appended(h, f) + (if ev.body.AppendBlock? && ev.body.fileId == f then ev.body.block else [])
  {
    assert (h + [ev])[..|h|] == h;
  }

  ghost predicate CollectedFrom(o: Options, h: seq<Event>, f: nat, i: nat, l: Load)
    requires i < |h|
  {
    Since(o, h, f, i) && l == Load(FirstOf(h[i]).event, FirstOf(h[i]).bytes + Appended(h[i + 1..], f))
  }

  lemma StillSince(o: Options, h: seq<Event>, ev: Event, f: nat, i: nat)
    requires i < |h| && Since(o, h, f, i) && !IsFirst(o, ev, f) && !Takes(ev, f, FirstOf(h[i]).event)
    ensures Since(o, h + [ev], f, i)
  {
  }

  lemma StillCollected(o: Options, h: seq<Event>, ev: Event, f: nat, i: nat, l: Load)
    requires i < |h| && CollectedFrom(o, h, f, i, l) && !IsFirst(o, ev, f) && !Takes(ev, f, l.event)
    ensures var more := if ev.body.AppendBlock? && ev.body.fileId == f then ev.body.block else [];
            CollectedFrom(o, h + [ev], f, i, Load(l.event, l.bytes + more))
  {
    hide IsFirst, FirstOf, Takes, Since, Appended;
    StillSince(o, h, ev, f, i);
    SnocBehind(h, ev, i);
    AppendedSnoc(h[i + 1..], ev, f);
    var more := if ev.body.AppendBlock? && ev.body.fileId == f then ev.body.block else [];
    Reassociate(FirstOf(h[i]).bytes, Appended(h[i + 1..], f), more);
  }

  lemma SnocBehind<T>(h: seq<T>, x: T, i: nat)
    requires i < |h|
    ensures (h + [x])[i + 1..] == h[i + 1..] + [x] && (h + [x])[i] == h[i]
  {
  }

  lemma Reassociate<T>(a: seq<T>, b: seq<T>, c: seq<T>)
    ensures a + (b + c) == a + b + c
  {
  }

  /** The collected bytes are the first block and then every block appended since, in order. */
  lemma {:induction false} CollectingMeans(o: Options, h: seq<Event>, f: nat)
    requires Collecting(o, h, f).Some?
    ensures exists i :: 0 <= i < |h| && CollectedFrom(o, h, f, i, Collecting(o, h, f).value)
    decreases |h|
  {
    hide IsFirst, FirstOf, Takes;
    var n := |h| - 1;
    if IsFirst(o, h[n], f) {
      assert Since(o, h, f, n) && h[n + 1..] == [];
      assert FirstOf(h[n]).bytes + [] == FirstOf(h[n]).bytes;
      assert CollectedFrom(o, h, f, n, Collecting(o, h, f).value);
    } else {
      CollectingMeans(o, h[..n], f);
      var l := Collecting(o, h[..n], f).value;
      var i :| 0 <= i < n && CollectedFrom(o, h[..n], f, i, l);
      assert Takes(h[n], f, l.event) ==> !h[n].body.AppendBlock? by { TakesNoAppend(h[n], f, l.event); }
      StillCollected(o, h[..n], h[n], f, i, l);
      assert h == h[..n] + [h[n]];
      assert l.bytes + [] == l.bytes;
    }
  }

  lemma TakesNoAppend(ev: Event, f: nat, event: bool)
    ensures Takes(ev, f, event) ==> !ev.body.AppendBlock?
  {
  }

  /** The table and the disk agree with the history, id by id, and no file serves two ids. */
  ghost predicate Agrees(o: Options, fs: Files, h: seq<Event>) {
    forall f: nat :: AgreesOn(o, fs, h, f)
  }

  ghost predicate AgreesOn(o: Options, fs: Files, h: seq<Event>, f: nat) {
    && (f in fs.table <==> Collecting(o, h, f).Some?)
    && (f in fs.table ==>
          && fs.table[f].fname.fileId == f && fs.table[f].fname in fs.disk
          && Collecting(o, h, f).value == Load(fs.table[f].event, fs.disk[fs.table[f].fname]))
  }

  lemma HandleAgreesOn(o: Options, s: State, ev: Event, h: seq<Event>, f: nat)
    requires Agrees(o, s.files, h) && !StatusOf(o, s, ev.body).ErrorStop?
    ensures AgreesOn(o, FilesAfter(o, s.files, ev.body), h + [ev], f)
  {
    hide SkipDatabase, FreeVersion;
    assert (h + [ev])[..|h|] == h;
    assert AgreesOn(o, s.files, h, f);
    if ev.body.CreateFile? || ev.body.BeginLoad? || ev.body.AppendBlock? || ev.body.ExecLoad? || ev.body.ExecuteLoad? {
      assert AgreesOn(o, s.files, h, ev.body.fileId);
    }
  }

  /** Files that were on the disk before the run are neither written nor entered in the table. */
  ghost predicate LeavesAlone(before: map<FileName, Bytes>, fs: Files) {
    && (forall n :: n in before ==> n in fs.disk && fs.disk[n] == before[n])
    && (forall f :: f in fs.table ==> fs.table[f].fname !in before)
  }

  lemma HandleLeavesAlone(o: Options, s: State, ev: Event, before: map<FileName, Bytes>)
    requires LeavesAlone(before, s.files)
    ensures LeavesAlone(before, FilesAfter(o, s.files, ev.body))
  {
    hide SkipDatabase, FreeVersion;
  }

  lemma {:induction false} RunAgrees(o: Options, s: State, evs: seq<Event>)
    requires Initial(s) && !Run(o, s, evs).1.ErrorStop?
    ensures Agrees(o, Run(o, s, evs).0.files, Handled(o, s, evs))
    ensures LeavesAlone(s.files.disk, Run(o, s, evs).0.files)
    decreases |evs|
  {
    hide FlagsAfter, FilesAfter, IgnoredAfter, TokensOf, GtidFilter, GateOf, RangeAfter, StatusOf, AgreesOn, LeavesAlone;
    if evs == [] {
      Start(o, s);
    } else {
      var n := |evs| - 1;
      RunAgrees(o, s, evs[..n]);
      var (t, status) := Run(o, s, evs[..n]);
      var h := Handled(o, s, evs[..n]);
      if status.OkContinue? && Accepted(o, t, evs[n]) {
        var t1 := t.(filterOnGtids := GtidFilter(o, t.filterOnGtids, evs[n].body).1, range := RangeAfter(t.range, evs[n]));
        forall f: nat ensures AgreesOn(o, FilesAfter(o, t1.files, evs[n].body), h + [evs[n]], f) {
          HandleAgreesOn(o, t1, evs[n], h, f);
        }
        HandleLeavesAlone(o, t1, evs[n], s.files.disk);
      }
    }
  }

  lemma Start(o: Options, s: State)
    requires Initial(s)
    ensures Agrees(o, s.files, []) && LeavesAlone(s.files.disk, s.files)
  {
  }

  /** In every run, an execute event takes a file exactly when a first event of its format is open
      for that id; the file then holds that event's block followed by all blocks appended for the id
      since, in order and nothing else, and it is not a file that was there before the run. */
  lemma TakenFileHoldsItsBlocks(o: Options, s: State, evs: seq<Event>, f: nat, event: bool)
    requires Initial(s) && !Run(o, s, evs).1.ErrorStop?
    ensures var fs, h := Run(o, s, evs).0.files, Handled(o, s, evs);
            var taken := Grabbed(fs, f, event);
            && (taken.Some? <==> Collecting(o, h, f).Some? && Collecting(o, h, f).value.event == event)
            && (taken.Some? ==>
                  && taken.value in fs.disk && taken.value !in s.files.disk
                  && exists i :: 0 <= i < |h| && CollectedFrom(o, h, f, i, Load(event, fs.disk[taken.value])))
  {
    hide Handled, Run, Collecting, CollectedFrom;
    RunAgrees(o, s, evs);
    var fs, h := Run(o, s, evs).0.files, Handled(o, s, evs);
    assert AgreesOn(o, fs, h, f);
    if Grabbed(fs, f, event).Some? { CollectingMeans(o, h, f); }
  }

  /** A file is being collected for f exactly when some first event is open. */
  lemma {:induction false} CollectingIff(o: Options, h: seq<Event>, f: nat, i: nat)
    requires i < |h| && Since(o, h, f, i)
    ensures Collecting(o, h, f).Some? && Collecting(o, h, f).value.event == FirstOf(h[i]).event
    decreases |h|
  {
    hide IsFirst, FirstOf, Takes;
    var n := |h| - 1;
    if i < n {
      assert Since(o, h[..n], f, i);
      CollectingIff(o, h[..n], f, i);
      assert !IsFirst(o, h[n], f) && !Takes(h[n], f, FirstOf(h[i]).event);
    }
  }

  /** A first event of the format is open for f. */
  ghost predicate OpenFor(o: Options, h: seq<Event>, f: nat, event: bool) {
    exists i :: 0 <= i < |h| && Since(o, h, f, i) && FirstOf(h[i]).event == event
  }

  lemma OpenIsCollecting(o: Options, h: seq<Event>, f: nat, event: bool)
    ensures OpenFor(o, h, f, event) <==> Collecting(o, h, f).Some? && Collecting(o, h, f).value.event == event
  {
    hide Since, Collecting, FirstOf;
    if Collecting(o, h, f).Some? { CollectingMeans(o, h, f); }
    forall i | 0 <= i < |h| && Since(o, h, f, i)
      ensures Collecting(o, h, f).Some? && Collecting(o, h, f).value.event == FirstOf(h[i]).event
    {
      CollectingIff(o, h, f, i);
    }
  }

  /** The events between which a name stands: an execute event of the older format is itself shown. */
  ghost function Shown(ev: Event): seq<Token> { if ev.body.ExecLoad? then [Printed(ev)] else [] }

  /** The statement names file n, a file of this run that holds the blocks of the open load, in order. */
  ghost predicate Names(o: Options, s: State, h: seq<Event>, f: nat, event: bool, disk: map<FileName, Bytes>, n: FileName) {
    && n in disk && n !in s.files.disk
    && exists i :: 0 <= i < |h| && CollectedFrom(o, h, f, i, Load(event, disk[n]))
  }

  /** What an execute event adds to the output: one LOAD DATA statement, and it names the file that was collected for it;
      none when nothing of its format is open, or when --database drops it. */
  lemma LoadNamesItsFile(o: Options, s: State, evs: seq<Event>, ev: Event, f: nat, event: bool)
    requires Initial(s) && Run(o, s, evs).1.OkContinue? && Accepted(o, Run(o, s, evs).0, ev) && Takes(ev, f, event)
    ensures var t, u, h := Run(o, s, evs).0, Run(o, s, evs + [ev]).0, Handled(o, s, evs);
            var drops := ev.body.ExecuteLoad? && o.database.Some? && ev.body.ldb.Some? && ev.body.ldb.value != o.database.value;
            && u.files.disk == t.files.disk
            && if drops || !OpenFor(o, h, f, event) then u.out == t.out + Shown(ev)
               else exists n :: u.out == t.out + Shown(ev) + [LoadFile(n)] && Names(o, s, h, f, event, u.files.disk, n)
  {
    hide Handled, Collecting, CollectedFrom, OpenFor, FlagsAfter, GtidFilter, GateOf, RangeAfter, Initial, IgnoredAfter;
    assert (evs + [ev])[..|evs|] == evs;
    var t, u, h := Run(o, s, evs).0, Run(o, s, evs + [ev]).0, Handled(o, s, evs);
    TakenFileHoldsItsBlocks(o, s, evs, f, event);
    OpenIsCollecting(o, h, f, event);
    var taken := Grabbed(t.files, f, event);
    assert u.files.disk == t.files.disk;
    if taken.Some? {
      assert Names(o, s, h, f, event, u.files.disk, taken.value);
      assert t.out + ([Printed(ev)] + [LoadFile(taken.value)]) == t.out + [Printed(ev)] + [LoadFile(taken.value)];
      assert t.out + [] + [LoadFile(taken.value)] == t.out + [LoadFile(taken.value)];
    }
    assert [Printed(ev)] + [] == [Printed(ev)];
  }

  /** An append for an id with nothing open changes neither table nor disk. */
  lemma StrayAppendIgnored(o: Options, s: State, evs: seq<Event>, f: nat, block: Bytes)
    requires Initial(s) && !Run(o, s, evs).1.ErrorStop? && Collecting(o, Handled(o, s, evs), f).None?
    ensures FilesAfter(o, Run(o, s, evs).0.files, AppendBlock(f, block)) == Run(o, s, evs).0.files
  {
    hide Handled, Run, Collecting;
    RunAgrees(o, s, evs);
    assert AgreesOn(o, Run(o, s, evs).0.files, Handled(o, s, evs), f);
  }
}
