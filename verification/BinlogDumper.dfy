/** The event loop of client/mysqlbinlog.cc as it runs: static flags, buffers and tables changed in
    place, event by event.  Every method is proved against the functions of module Binlog. */
module BinlogDumper {
  import opened Text
  import opened Binlog

  class Dumper {
    const o: Options
    var recCount: nat
    var offset: nat
    var startDatetime: int
    var filterBasedOnGtids: bool
    var inTransaction: bool
    var seenGtids: bool
    var isGtidNextSet: bool
    var isGtidNextValid: bool
    var skippedEventInTransaction: bool
    var buffEv: seq<Event>
    var freed: seq<nat>
    var fileNames: map<nat, FileRecord>
    var disk: map<FileName, Bytes>
    var tableMapIgnored: set<nat>
    var serverIdFromFdEvent: int
    var printedFdEvent: bool
    var resultFile: seq<Token>

    ghost function FlagView(): Flags
      reads this
    {
      Flags(inTransaction, seenGtids, isGtidNextSet, isGtidNextValid, skippedEventInTransaction)
    }

    ghost function View(): State
      reads this
    {
      State(Range(recCount, offset, startDatetime), filterBasedOnGtids, FlagView(), buffEv, freed,
            Files(fileNames, disk), tableMapIgnored, serverIdFromFdEvent, printedFdEvent, resultFile)
    }

    constructor (o: Options, offset: nat, startDatetime: int, disk: map<FileName, Bytes>)
      ensures this.o == o && Initial(View()) && View().files.disk == disk
      ensures View().range == Range(0, offset, startDatetime) && View().fdServerId == 0
    {
      this.o, this.offset, this.startDatetime, this.disk := o, offset, startDatetime, disk;
      recCount, filterBasedOnGtids, inTransaction, seenGtids := 0, false, false, false;
      isGtidNextSet, isGtidNextValid, skippedEventInTransaction := false, true, false;
      buffEv, freed, fileNames, tableMapIgnored, resultFile := [], [], map[], {}, [];
      serverIdFromFdEvent, printedFdEvent := 0, false;
    }

    /** `shall_skip_gtids`. */
    method ShallSkipGtids(b: Body) returns (filtered: bool)
      modifies this`filterBasedOnGtids
      ensures (filtered, filterBasedOnGtids) == GtidFilter(o, old(filterBasedOnGtids), b)
    {
      filtered := false;
      match b {
        case Gtid(g) =>
          if o.includeGtids.Some? { filtered := filtered || g !in o.includeGtids.value; }
          if o.excludeGtids.Some? { filtered := filtered || g in o.excludeGtids.value; }
          filterBasedOnGtids := filtered;
          filtered := filtered || o.skipGtids;
        case PreviousGtids =>
          filtered := o.skipGtids;
        case Xid =>
          filtered := filterBasedOnGtids;
          filterBasedOnGtids := false;
        case Query(_, _, ends, _) =>
          filtered := filterBasedOnGtids;
          if ends { filterBasedOnGtids := false; }
        case FormatDescription(_, _, _) =>
        case Rotate =>
        case Control =>
        case _ =>
          filtered := filterBasedOnGtids;
      }
    }

    /** The queue of Intvar, Rand and User_var events is printed (or not) and deleted, front to back. */
    method FlushBuffered(parentQuerySkips: bool)
      modifies this`buffEv, this`freed, this`resultFile
      ensures buffEv == [] && freed == old(freed) + Ids(old(buffEv))
      ensures resultFile == old(resultFile) + (if parentQuerySkips then [] else PrintAll(old(buffEv)))
    {
      var i := 0;
      while i < |buffEv|
        invariant 0 <= i <= |buffEv| && buffEv == old(buffEv)
        invariant freed == old(freed) + Ids(buffEv[..i])
        invariant resultFile == old(resultFile) + (if parentQuerySkips then [] else PrintAll(buffEv[..i]))
      {
        var ev := buffEv[i];
        if !parentQuerySkips { resultFile := resultFile + [Printed(ev)]; }
        freed := freed + [ev.id];
        assert buffEv[..i + 1] == buffEv[..i] + [ev];
        assert Ids(buffEv[..i + 1]) == Ids(buffEv[..i]) + [ev.id];
        assert PrintAll(buffEv[..i + 1]) == PrintAll(buffEv[..i]) + [Printed(ev)];
        i := i + 1;
      }
      assert buffEv[..i] == buffEv;
      buffEv := [];
    }

    method ProcessQuery(ev: Event)
      requires ev.body.Query?
      modifies this`buffEv, this`freed, this`resultFile, this`inTransaction, this`isGtidNextValid, this`skippedEventInTransaction
      ensures FlagView() == QueryFlags(o, old(FlagView()), ev.body)
      ensures buffEv == [] && freed == old(freed) + Ids(old(buffEv))
      ensures resultFile == old(resultFile) + QueryTokens(o, old(View()), ev)
    {
      hide SkipDatabase;
      var b := ev.body;
      var parentQuerySkips := !b.keyword && SkipDatabase(o, b.db);
      FlushBuffered(parentQuerySkips);
      if parentQuerySkips {
        if seenGtids && !inTransaction && !b.starts && !b.ends {
          resultFile := resultFile + [AddedCommit];
          skippedEventInTransaction := false;
          inTransaction := false;
        } else {
          skippedEventInTransaction := true;
        }
        return;
      }
      if b.ends {
        inTransaction := false;
        skippedEventInTransaction := false;
        if isGtidNextSet { isGtidNextValid := false; }
      } else if b.starts {
        inTransaction := true;
      } else if isGtidNextSet && !inTransaction {
        isGtidNextValid := false;
      }
      resultFile := resultFile + [Printed(ev)];
    }

    /** `create_unique_file`. */
    method CreateUniqueFile(base: string, fileId: nat) returns (fname: Option<FileName>)
      ensures fname == NewFile(Files(fileNames, disk), base, fileId)
    {
      var version := 0;
      while version < MAX_VERSIONS
        invariant 0 <= version <= MAX_VERSIONS
        invariant FreeVersion(disk, base, fileId, 0) == FreeVersion(disk, base, fileId, version)
      {
        if FileName(base, fileId, version) !in disk { return Some(FileName(base, fileId, version)); }
        version := version + 1;
      }
      return None;
    }

    /** `process_first_event`. */
    method ProcessFirstEvent(base: string, fileId: nat, block: Bytes, event: bool) returns (retval: Status)
      modifies this`fileNames, this`disk
      ensures Files(fileNames, disk) == FirstBlock(old(Files(fileNames, disk)), base, fileId, block, event)
      ensures retval == if NewFile(old(Files(fileNames, disk)), base, fileId).None? then ErrorStop else OkContinue
    {
      var fname := CreateUniqueFile(base, fileId);
      if fname.None? { return ErrorStop; }
      fileNames := fileNames[fileId := FileRecord(fname.value, event)];
      disk := disk[fname.value := block];
      return OkContinue;
    }

    method ProcessAppend(fileId: nat, block: Bytes)
      modifies this`disk
      ensures Files(fileNames, disk) == Append(old(Files(fileNames, disk)), fileId, block)
    {
      if fileId in fileNames {
        var fname := fileNames[fileId].fname;
        if fname in disk { disk := disk[fname := disk[fname] + block]; }
      }
    }

    /** `grab_event` (event) and `grab_fname` (!event). */
    method GrabFile(fileId: nat, event: bool) returns (fname: Option<FileName>)
      modifies this`fileNames
      ensures fname == Grabbed(old(Files(fileNames, disk)), fileId, event)
      ensures Files(fileNames, disk) == Grab(old(Files(fileNames, disk)), fileId, event)
    {
      fname := None;
      if fileId in fileNames && fileNames[fileId].event == event {
        fname := Some(fileNames[fileId].fname);
        fileNames := fileNames - {fileId};
      }
    }

    method ProcessLoad(ev: Event) returns (retval: Status)
      requires ev.body.CreateFile? || ev.body.BeginLoad? || ev.body.AppendBlock? || ev.body.ExecLoad? || ev.body.ExecuteLoad?
      modifies this`fileNames, this`disk, this`resultFile, this`skippedEventInTransaction
      ensures FlagView() == FlagsAfter(o, old(View()), ev) && resultFile == old(resultFile) + TokensOf(o, old(View()), ev)
      ensures Files(fileNames, disk) == FilesAfter(o, old(Files(fileNames, disk)), ev.body)
      ensures retval == StatusOf(o, old(View()), ev.body)
    {
      hide SkipDatabase, FreeVersion;
      retval := OkContinue;
      match ev.body {
        case CreateFile(db, base, f, block) =>
          if SkipDatabase(o, db) {
            skippedEventInTransaction := true;
          } else {
            resultFile := resultFile + [Printed(ev)];
            retval := ProcessFirstEvent(base, f, block, true);
          }
        case BeginLoad(f, block) =>
          resultFile := resultFile + [Printed(ev)];
          retval := ProcessFirstEvent(LOAD_BASE, f, block, false);
        case AppendBlock(f, block) =>
          resultFile := resultFile + [Printed(ev)];
          ProcessAppend(f, block);
        case ExecLoad(f) =>
          resultFile := resultFile + [Printed(ev)];
          var fname := GrabFile(f, true);
          if fname.Some? { resultFile := resultFile + [LoadFile(fname.value)]; }
        case ExecuteLoad(db, f) =>
          var fname := GrabFile(f, false);
          if SkipDatabase(o, db) {
            skippedEventInTransaction := true;
          } else if fname.Some? {
            resultFile := resultFile + [LoadFile(fname.value)];
          }
      }
    }

    /** Start_log_event_v3::print, as far as it touches the flags. */
    method PrintFormatDescription(ev: Event)
      requires ev.body.FormatDescription?
      modifies this`resultFile, this`isGtidNextSet, this`isGtidNextValid, this`printedFdEvent
      ensures FlagView() == FdFlags(old(FlagView()), ev.body.created)
      ensures printedFdEvent == (old(printedFdEvent) || o.fdInBase64)
      ensures resultFile == old(resultFile) + [Printed(ev)] + (if ev.body.created then [Rollback] else [])
                + (if !(if ev.body.created then Spent(old(FlagView())) else old(FlagView())).nextValid then [SetAutomatic] else [])
    {
      resultFile := resultFile + [Printed(ev)];
      if ev.body.created {
        resultFile := resultFile + [Rollback];
        if isGtidNextSet { isGtidNextValid := false; }
      }
      if !isGtidNextValid {
        resultFile := resultFile + [SetAutomatic];
        isGtidNextSet := false;
        isGtidNextValid := true;
      }
      if o.fdInBase64 { printedFdEvent := true; }
    }

    method ProcessFormatDescription(ev: Event) returns (retval: Status)
      requires ev.body.FormatDescription?
      modifies this`resultFile, this`isGtidNextSet, this`isGtidNextValid, this`printedFdEvent, this`serverIdFromFdEvent
      ensures FlagView() == FdFlags(old(FlagView()), ev.body.created)
      ensures serverIdFromFdEvent == if old(serverIdFromFdEvent) == 0 then ev.serverId else old(serverIdFromFdEvent)
      ensures printedFdEvent == (old(printedFdEvent) || o.fdInBase64)
      ensures resultFile == old(resultFile) + FdTokens(old(View()), ev)
      ensures retval == if !o.forceIfOpen && ev.body.inUse then ErrorStop else OkContinue
    {
      if serverIdFromFdEvent == 0 { serverIdFromFdEvent := ev.serverId; }
      PrintFormatDescription(ev);
      if ev.serverId != 0 && ev.serverId != serverIdFromFdEvent && ev.body.logPos > 0 {
        if inTransaction {
          resultFile := resultFile + [Rollback];
        } else if isGtidNextSet && isGtidNextValid {
          resultFile := resultFile + [BeginRollback];
        }
      }
      retval := if !o.forceIfOpen && ev.body.inUse then ErrorStop else OkContinue;
    }

    method ProcessRows(ev: Event) returns (retval: Status)
      requires ev.body.TableMap? || ev.body.Rows?
      modifies this`resultFile, this`skippedEventInTransaction, this`tableMapIgnored
      ensures FlagView() == FlagsAfter(o, old(View()), ev) && resultFile == old(resultFile) + TokensOf(o, old(View()), ev)
      ensures tableMapIgnored == IgnoredAfter(o, old(tableMapIgnored), ev.body)
      ensures retval == StatusOf(o, old(View()), ev.body)
    {
      hide SkipDatabase;
      retval := OkContinue;
      match ev.body {
        case TableMap(db, t) =>
          if SkipDatabase(o, db) {
            skippedEventInTransaction := true;
            tableMapIgnored := tableMapIgnored + {t};
          } else {
            resultFile := resultFile + [Printed(ev)];
          }
        case Rows(t, stmtEnd) =>
          var skipEvent := t in tableMapIgnored;
          if stmtEnd { tableMapIgnored := {}; }
          if skipEvent {
            skippedEventInTransaction := true;
          } else if !printedFdEvent && o.rowsNeedFd {
            retval := ErrorStop;
          } else {
            resultFile := resultFile + [Printed(ev)];
          }
      }
    }

    method ProcessBoundary(ev: Event)
      requires ev.body.Gtid? || ev.body.Xid? || ev.body.Rotate?
      modifies this`resultFile, this`inTransaction, this`seenGtids
      modifies this`isGtidNextSet, this`isGtidNextValid, this`skippedEventInTransaction
      ensures FlagView() == FlagsAfter(o, old(View()), ev) && resultFile == old(resultFile) + TokensOf(o, old(View()), ev)
    {
      match ev.body {
        case Gtid(g) =>
          seenGtids := true;
          isGtidNextSet := true;
          isGtidNextValid := true;
          if skippedEventInTransaction { resultFile := resultFile + [AddedCommit]; }
          skippedEventInTransaction := false;
          resultFile := resultFile + [SetGtid(g)];
        case Xid =>
          inTransaction := false;
          skippedEventInTransaction := false;
          if isGtidNextSet { isGtidNextValid := false; }
          resultFile := resultFile + [Printed(ev)];
        case Rotate =>
          if seenGtids {
            var isFake := ev.when == 0;
            if !isFake && !inTransaction && isGtidNextSet && !isGtidNextValid {
              seenGtids := false;
              resultFile := resultFile + [SetAutomatic];
              isGtidNextSet := false;
              isGtidNextValid := true;
            }
          }
          resultFile := resultFile + [Printed(ev)];
      }
    }

    /** `process_event`. */
    method ProcessEvent(ev: Event) returns (retval: Status)
      modifies this
      ensures (View(), retval) == Process(o, old(View()), ev)
    {
      hide Handle, GtidFilter, StatusOf;
      retval := OkContinue;
      var inRange := recCount >= offset && ev.when >= startDatetime;
      recCount := recCount + 1;
      if !inRange && !ev.body.FormatDescription? { return; }
      if !ev.body.FormatDescription? {
        startDatetime := 0;
        offset := 0;
        if !ev.body.Rotate? && o.filterServerId != 0 && o.filterServerId != ev.serverId { return; }
      }
      if (o.stopDatetime.Some? && ev.when >= o.stopDatetime.value) || (o.stopPosition.Some? && ev.pos >= o.stopPosition.value) {
        return OkStop;
      }
      var filtered := ShallSkipGtids(ev.body);
      if filtered { return; }
      retval := Switch(ev);
    }

    /** The switch over event types. */
    method Switch(ev: Event) returns (retval: Status)
      modifies this
      ensures View() == Handle(o, old(View()), ev) && retval == StatusOf(o, old(View()), ev.body)
    {
      hide Handle, StatusOf;
      if ev.body.CreateFile? || ev.body.BeginLoad? || ev.body.AppendBlock? || ev.body.ExecLoad? || ev.body.ExecuteLoad? {
        retval := SwitchLoad(ev);
      } else if ev.body.Query? || ev.body.Var? || ev.body.TableMap? || ev.body.Rows? {
        retval := SwitchStatement(ev);
      } else {
        retval := SwitchOther(ev);
      }
    }

    method SwitchLoad(ev: Event) returns (retval: Status)
      requires ev.body.CreateFile? || ev.body.BeginLoad? || ev.body.AppendBlock? || ev.body.ExecLoad? || ev.body.ExecuteLoad?
      modifies this
      ensures View() == Handle(o, old(View()), ev) && retval == StatusOf(o, old(View()), ev.body)
    {
      hide FlagsAfter, TokensOf, FilesAfter, StatusOf;
      retval := ProcessLoad(ev);
    }

    method SwitchStatement(ev: Event) returns (retval: Status)
      requires ev.body.Query? || ev.body.Var? || ev.body.TableMap? || ev.body.Rows?
      modifies this
      ensures View() == Handle(o, old(View()), ev) && retval == StatusOf(o, old(View()), ev.body)
    {
      hide QueryFlags, QueryTokens, SkipDatabase;
      retval := OkContinue;
      if ev.body.Query? {
        ProcessQuery(ev);
      } else if ev.body.Var? {
        buffEv := buffEv + [ev];
      } else {
        retval := ProcessRows(ev);
      }
    }

    method SwitchOther(ev: Event) returns (retval: Status)
      requires !(ev.body.CreateFile? || ev.body.BeginLoad? || ev.body.AppendBlock? || ev.body.ExecLoad? || ev.body.ExecuteLoad?)
      requires !(ev.body.Query? || ev.body.Var? || ev.body.TableMap? || ev.body.Rows?)
      modifies this
      ensures View() == Handle(o, old(View()), ev) && retval == StatusOf(o, old(View()), ev.body)
    {
      hide FdFlags, FdTokens, RotateResets, Spent;
      retval := OkContinue;
      if ev.body.FormatDescription? {
        retval := ProcessFormatDescription(ev);
      } else if ev.body.Gtid? || ev.body.Xid? || ev.body.Rotate? {
        ProcessBoundary(ev);
      } else {
        resultFile := resultFile + [Printed(ev)];
      }
    }

    /** The loop over the events of all logs. */
    method DumpEvents(evs: seq<Event>) returns (rc: Status)
      modifies this
      ensures (View(), rc) == Run(o, old(View()), evs)
    {
      hide Process;
      rc := OkContinue;
      var i := 0;
      while i < |evs| && rc.OkContinue?
        invariant 0 <= i <= |evs| && (View(), rc) == Run(o, old(View()), evs[..i])
        decreases |evs| - i
      {
        assert evs[..i + 1][..i] == evs[..i];
        rc := ProcessEvent(evs[i]);
        i := i + 1;
      }
      StoppedEarly(o, old(View()), evs, i);
    }

    /** The closing statements. */
    method Finish()
      modifies this`resultFile, this`isGtidNextSet, this`isGtidNextValid
      ensures resultFile == old(resultFile) + FinishTokens(old(FlagView()))
      ensures FlagView() == var f := old(FlagView()); if f.nextValid then f else f.(nextSet := false, nextValid := true)
    {
      if skippedEventInTransaction { resultFile := resultFile + [AddedCommit]; }
      if !isGtidNextValid {
        resultFile := resultFile + [SetAutomatic];
        isGtidNextSet := false;
        isGtidNextValid := true;
      }
    }

    /** `dump_multiple_logs` over the events of all logs: the run, then the closing statements. */
    method DumpLogs(evs: seq<Event>) returns (rc: Status, warnLeftOver: bool)
      modifies this
      ensures var (t, status) := Run(o, old(View()), evs);
              var flags := if t.flags.nextValid then t.flags else t.flags.(nextSet := false, nextValid := true);
              && rc == status && warnLeftOver == (t.buffered != [])
              && View() == t.(flags := flags, out := t.out + FinishTokens(t.flags))
    {
      hide Run, FinishTokens;
      rc := DumpEvents(evs);
      warnLeftOver := buffEv != [];
      Finish();
    }

    /** The part of `cleanup` that deletes the events still waiting. */
    method Cleanup()
      modifies this`buffEv, this`freed, this`resultFile
      ensures buffEv == [] && freed == old(freed) + Ids(old(buffEv)) && resultFile == old(resultFile)
    {
      FlushBuffered(true);
    }
  }

  /** Events after the one that stopped the run change nothing. */
  lemma {:induction false} StoppedEarly(o: Options, s: State, evs: seq<Event>, i: nat)
    requires i <= |evs| && (i < |evs| ==> !Run(o, s, evs[..i]).1.OkContinue?)
    ensures Run(o, s, evs) == Run(o, s, evs[..i])
    decreases |evs| - i
  {
    hide Process;
    if i == |evs| {
      assert evs[..i] == evs;
    } else {
      assert evs[..i + 1][..i] == evs[..i];
      StoppedEarly(o, s, evs, i + 1);
    }
  }
}
