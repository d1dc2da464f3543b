/** The event loop of client/mysqlbinlog.cc as a state machine over an event stream: `process_event`,
    `shall_skip_gtids`, `Load_log_processor` and the end of `dump_multiple_logs`. */
module Binlog {
  import opened Text

  type Bytes = seq<int>

  /** An event, with what the loop looks at.  `id` identifies the event object. */
  datatype Event = Event(id: nat, when: int, serverId: int, pos: int, body: Body)

  datatype Body =
    | Query(db: Option<string>, starts: bool, ends: bool, keyword: bool)
    | Var                                            // Intvar, Rand, User_var
    | CreateFile(cdb: Option<string>, base: string, fileId: nat, block: Bytes)
    | BeginLoad(fileId: nat, block: Bytes)
    | AppendBlock(fileId: nat, block: Bytes)
    | ExecLoad(fileId: nat)                          // executes a CreateFile
    | ExecuteLoad(ldb: Option<string>, fileId: nat)  // executes a BeginLoad
    | FormatDescription(created: bool, logPos: nat, inUse: bool)
    | TableMap(tdb: Option<string>, tableId: nat)
    | Rows(tableId: nat, stmtEnd: bool)
    | RowsQuery
    | Gtid(gtid: nat)
    | PreviousGtids
    | Xid
    | Rotate
    | Control                                        // Stop, Start_v3, Slave, Ignorable, Incident
    | Other

  /** Command-line options; None stands for an option that was not given. */
  datatype Options = Options(
    database: Option<string>,
    includeGtids: Option<set<nat>>,
    excludeGtids: Option<set<nat>>,
    skipGtids: bool,
    filterServerId: int,
    stopDatetime: Option<int>,
    stopPosition: Option<int>,
    forceIfOpen: bool,
    fdInBase64: bool,    // base64 output is on and the short form is off
    rowsNeedFd: bool)    // row events are printed in base64

  /** What is written to the result. */
  datatype Token =
    | Printed(ev: Event)
    | LoadFile(fname: FileName)   // the LOAD DATA statement that reads the temporary file
    | SetGtid(gtid: nat)
    | SetAutomatic
    | AddedCommit
    | Rollback
    | BeginRollback

  datatype Status = OkContinue | OkStop | ErrorStop

  /** A temporary file name: base name, file id and the suffix that made it unique. */
  datatype FileName = FileName(base: string, fileId: nat, version: nat)

  /** An entry of the file table; `event` says that a CreateFile event is kept with it. */
  datatype FileRecord = FileRecord(fname: FileName, event: bool)

  /** The flags about transactions and GTID_NEXT. */
  datatype Flags = Flags(
    inTransaction: bool,
    seenGtids: bool,
    nextSet: bool,               // is_gtid_next_set
    nextValid: bool,             // is_gtid_next_valid
    skipped: bool)               // skipped_event_in_transaction

  /** The file table and the temporary files. */
  datatype Files = Files(table: map<nat, FileRecord>, disk: map<FileName, Bytes>)

  /** The options that lose their effect once the first event has been taken. */
  datatype Range = Range(recCount: nat, offset: nat, startDatetime: int)

  datatype State = State(
    range: Range,
    filterOnGtids: bool,
    flags: Flags,
    buffered: seq<Event>,        // buff_ev
    freed: seq<nat>,             // buffered events deleted so far
    files: Files,
    ignoredMaps: set<nat>,       // m_table_map_ignored
    fdServerId: int,             // server_id_from_fd_event
    fdPrinted: bool,             // printed_fd_event
    out: seq<Token>)

  const MAX_VERSIONS := 1000
  const LOAD_BASE := "SQL_LOAD_MB"

  // ---------- filters ----------

  predicate SkipDatabase(o: Options, db: Option<string>) {
    o.database.Some? && db.Some? && db != o.database
  }

  /** The GTID fails --include-gtids or --exclude-gtids. */
  predicate Fails(o: Options, g: nat) {
    || (o.includeGtids.Some? && g !in o.includeGtids.value)
    || (o.excludeGtids.Some? && g in o.excludeGtids.value)
  }

  predicate IsControl(b: Body) { b.FormatDescription? || b.Rotate? || b.Control? }

  /** `shall_skip_gtids`: the verdict and the new value of the flag. */
  function GtidFilter(o: Options, flag: bool, b: Body): (bool, bool) {
    match b
    case Gtid(g) => (Fails(o, g) || o.skipGtids, Fails(o, g))
    case PreviousGtids => (o.skipGtids, flag)
    case Xid => (flag, false)
    case Query(_, _, ends, _) => (flag, if ends then false else flag)
    case FormatDescription(_, _, _) => (false, flag)
    case Rotate => (false, flag)
    case Control => (false, flag)
    case _ => (flag, flag)
  }

  /** What the tests before the GTID filter decide. */
  datatype Gate = Dropped | Stopped | Passed

  function GateOf(o: Options, r: Range, ev: Event): Gate {
    if !(r.recCount >= r.offset && ev.when >= r.startDatetime) && !ev.body.FormatDescription? then Dropped
    else if !ev.body.FormatDescription? && !ev.body.Rotate? && o.filterServerId != 0 && o.filterServerId != ev.serverId
    then Dropped
    else if (o.stopDatetime.Some? && ev.when >= o.stopDatetime.value)
         || (o.stopPosition.Some? && ev.pos >= o.stopPosition.value) then Stopped
    else Passed
  }

  /** The first event in range ends the skipping. */
  function RangeAfter(r: Range, ev: Event): Range {
    if r.recCount >= r.offset && ev.when >= r.startDatetime && !ev.body.FormatDescription?
    then Range(r.recCount + 1, 0, 0) else r.(recCount := r.recCount + 1)
  }

  // ---------- the file table ----------

  /** First version, from v on, for which no file exists; None after MAX_VERSIONS. */
  function FreeVersion(disk: map<FileName, Bytes>, base: string, fileId: nat, v: nat): (r: Option<nat>)
    ensures r.Some? ==> v <= r.value < MAX_VERSIONS && FileName(base, fileId, r.value) !in disk
    ensures forall w :: v <= w < (if r.Some? then r.value else MAX_VERSIONS) ==> FileName(base, fileId, w) in disk
    decreases MAX_VERSIONS - v
  {
    if v >= MAX_VERSIONS then None
    else if FileName(base, fileId, v) !in disk then Some(v)
    else FreeVersion(disk, base, fileId, v + 1)
  }

  /** The name that a first block is written to. */
  function NewFile(fs: Files, base: string, fileId: nat): (r: Option<FileName>)
    ensures r.Some? ==> r.value !in fs.disk && r.value.fileId == fileId
  {
    match FreeVersion(fs.disk, base, fileId, 0)
    case None => None
    case Some(v) => Some(FileName(base, fileId, v))
  }

  function FirstBlock(fs: Files, base: string, fileId: nat, block: Bytes, event: bool): Files {
    match NewFile(fs, base, fileId)
    case None => fs
    case Some(fname) => Files(fs.table[fileId := FileRecord(fname, event)], fs.disk[fname := block])
  }

  function Append(fs: Files, fileId: nat, block: Bytes): Files {
    if fileId in fs.table && fs.table[fileId].fname in fs.disk then
      var fname := fs.table[fileId].fname;
      fs.(disk := fs.disk[fname := fs.disk[fname] + block])
    else fs
  }

  /** The file that an execute event takes: only one registered by an event of its own format. */
  function Grabbed(fs: Files, fileId: nat, event: bool): Option<FileName> {
    if fileId in fs.table && fs.table[fileId].event == event then Some(fs.table[fileId].fname) else None
  }

  function Grab(fs: Files, fileId: nat, event: bool): Files {
    if Grabbed(fs, fileId, event).Some? then fs.(table := fs.table - {fileId}) else fs
  }

  function FilesAfter(o: Options, fs: Files, b: Body): Files {
    match b
    case CreateFile(db, base, f, block) => if SkipDatabase(o, db) then fs else FirstBlock(fs, base, f, block, true)
    case BeginLoad(f, block) => FirstBlock(fs, LOAD_BASE, f, block, false)
    case AppendBlock(f, block) => Append(fs, f, block)
    case ExecLoad(f) => Grab(fs, f, true)
    case ExecuteLoad(_, f) => Grab(fs, f, false)
    case _ => fs
  }

  // ---------- the flags ----------

  predicate QuerySkips(o: Options, b: Body)
    requires b.Query?
  {
    !b.keyword && SkipDatabase(o, b.db)
  }

  /** A skipped query that is a transaction of its own. */
  predicate DropsDdl(o: Options, f: Flags, b: Body)
    requires b.Query?
  {
    QuerySkips(o, b) && f.seenGtids && !f.inTransaction && !b.starts && !b.ends
  }

  function Spent(f: Flags): Flags { if f.nextSet then f.(nextValid := false) else f }

  function QueryFlags(o: Options, f: Flags, b: Body): Flags
    requires b.Query?
  {
    if QuerySkips(o, b) then f.(skipped := !DropsDdl(o, f, b))
    else if b.ends then Spent(f.(inTransaction := false, skipped := false))
    else if b.starts then f.(inTransaction := true)
    else if !f.inTransaction then Spent(f)
    else f
  }

  /** Printing a format description may roll back, and resets a spent GTID_NEXT. */
  function FdFlags(f: Flags, created: bool): Flags {
    var g := if created then Spent(f) else f;
    if !g.nextValid then g.(nextSet := false, nextValid := true) else g
  }

  predicate RotateResets(f: Flags, ev: Event) {
    f.seenGtids && ev.when != 0 && !f.inTransaction && f.nextSet && !f.nextValid
  }

  function FlagsAfter(o: Options, s: State, ev: Event): Flags {
    var f := s.flags;
    match ev.body
    case Query(_, _, _, _) => QueryFlags(o, f, ev.body)
    case CreateFile(db, _, _, _) => if SkipDatabase(o, db) then f.(skipped := true) else f
    case ExecuteLoad(db, _) => if SkipDatabase(o, db) then f.(skipped := true) else f
    case TableMap(db, _) => if SkipDatabase(o, db) then f.(skipped := true) else f
    case Rows(t, _) => if t in s.ignoredMaps then f.(skipped := true) else f
    case FormatDescription(created, _, _) => FdFlags(f, created)
    case Gtid(_) => f.(seenGtids := true, nextSet := true, nextValid := true, skipped := false)
    case Xid => Spent(f.(inTransaction := false, skipped := false))
    case Rotate => if RotateResets(f, ev) then f.(seenGtids := false, nextSet := false, nextValid := true) else f
    case _ => f
  }

  // ---------- the output ----------

  function PrintAll(evs: seq<Event>): (r: seq<Token>)
    ensures |r| == |evs| && forall i :: 0 <= i < |evs| ==> r[i] == Printed(evs[i])
  {
    seq(|evs|, i requires 0 <= i < |evs| => Printed(evs[i]))
  }

  function QueryTokens(o: Options, s: State, ev: Event): seq<Token>
    requires ev.body.Query?
  {
    if !QuerySkips(o, ev.body) then PrintAll(s.buffered) + [Printed(ev)]
    else if DropsDdl(o, s.flags, ev.body) then [AddedCommit]
    else []
  }

  predicate FdRollsBack(fdServerId: int, ev: Event)
    requires ev.body.FormatDescription?
  {
    var known := if fdServerId == 0 then ev.serverId else fdServerId;
    ev.serverId != 0 && ev.serverId != known && ev.body.logPos > 0
  }

  function FdTokens(s: State, ev: Event): seq<Token>
    requires ev.body.FormatDescription?
  {
    var created, f := ev.body.created, FdFlags(s.flags, ev.body.created);
    [Printed(ev)]
      + (if created then [Rollback] else [])
      + (if !(if created then Spent(s.flags) else s.flags).nextValid then [SetAutomatic] else [])
      + (if !FdRollsBack(s.fdServerId, ev) then []
         else if f.inTransaction then [Rollback]
         else if f.nextSet && f.nextValid then [BeginRollback]
         else [])
  }

  function LoadTokens(taken: Option<FileName>): seq<Token> {
    if taken.Some? then [LoadFile(taken.value)] else []
  }

  function TokensOf(o: Options, s: State, ev: Event): seq<Token> {
    match ev.body
    case Query(_, _, _, _) => QueryTokens(o, s, ev)
    case Var => []
    case CreateFile(db, _, _, _) => if SkipDatabase(o, db) then [] else [Printed(ev)]
    case ExecLoad(f) => [Printed(ev)] + LoadTokens(Grabbed(s.files, f, true))
    case ExecuteLoad(db, f) => if SkipDatabase(o, db) then [] else LoadTokens(Grabbed(s.files, f, false))
    case FormatDescription(_, _, _) => FdTokens(s, ev)
    case TableMap(db, _) => if SkipDatabase(o, db) then [] else [Printed(ev)]
    case Rows(t, _) => if t in s.ignoredMaps || (!s.fdPrinted && o.rowsNeedFd) then [] else [Printed(ev)]
    case Gtid(g) => (if s.flags.skipped then [AddedCommit] else []) + [SetGtid(g)]
    case Rotate => (if RotateResets(s.flags, ev) then [SetAutomatic] else []) + [Printed(ev)]
    case _ => [Printed(ev)]
  }

  // ---------- the switch ----------

  function Ids(evs: seq<Event>): (r: seq<nat>)
    ensures |r| == |evs| && forall i :: 0 <= i < |evs| ==> r[i] == evs[i].id
  {
    seq(|evs|, i requires 0 <= i < |evs| => evs[i].id)
  }

  function IgnoredAfter(o: Options, maps: set<nat>, b: Body): set<nat> {
    match b
    case TableMap(db, t) => if SkipDatabase(o, db) then maps + {t} else maps
    case Rows(_, stmtEnd) => if stmtEnd then {} else maps
    case _ => maps
  }

  function StatusOf(o: Options, s: State, b: Body): Status {
    match b
    case CreateFile(db, base, f, _) =>
      if !SkipDatabase(o, db) && NewFile(s.files, base, f).None? then ErrorStop else OkContinue
    case BeginLoad(f, _) => if NewFile(s.files, LOAD_BASE, f).None? then ErrorStop else OkContinue
    case FormatDescription(_, _, inUse) => if !o.forceIfOpen && inUse then ErrorStop else OkContinue
    case Rows(t, _) => if t !in s.ignoredMaps && !s.fdPrinted && o.rowsNeedFd then ErrorStop else OkContinue
    case _ => OkContinue
  }

  /** The state after the switch over event types. */
  function Handle(o: Options, s: State, ev: Event): State {
    s.(flags := FlagsAfter(o, s, ev),
       buffered := if ev.body.Query? then [] else if ev.body.Var? then s.buffered + [ev] else s.buffered,
       freed := if ev.body.Query? then s.freed + Ids(s.buffered) else s.freed,
       files := FilesAfter(o, s.files, ev.body),
       ignoredMaps := IgnoredAfter(o, s.ignoredMaps, ev.body),
       fdServerId := if ev.body.FormatDescription? && s.fdServerId == 0 then ev.serverId else s.fdServerId,
       fdPrinted := s.fdPrinted || (ev.body.FormatDescription? && o.fdInBase64),
       out := s.out + TokensOf(o, s, ev))
  }

  /** The event reaches the switch. */
  predicate Accepted(o: Options, s: State, ev: Event) {
    GateOf(o, s.range, ev).Passed? && !GtidFilter(o, s.filterOnGtids, ev.body).0
  }

  /** `process_event`. */
  function Process(o: Options, s: State, ev: Event): (State, Status) {
    match GateOf(o, s.range, ev)
    case Dropped => (s.(range := RangeAfter(s.range, ev)), OkContinue)
    case Stopped => (s.(range := RangeAfter(s.range, ev)), OkStop)
    case Passed =>
      var (drop, flag) := GtidFilter(o, s.filterOnGtids, ev.body);
      var s1 := s.(filterOnGtids := flag, range := RangeAfter(s.range, ev));
      if drop then (s1, OkContinue) else (Handle(o, s1, ev), StatusOf(o, s1, ev.body))
  }

  // ---------- runs ----------

  /** Before the first event; the disk may hold any files already. */
  predicate Initial(s: State) {
    && s.flags == Flags(false, false, false, true, false) && !s.filterOnGtids
    && s.buffered == [] && s.freed == [] && s.files.table == map[] && s.ignoredMaps == {} && s.out == []
  }

  /** The state after the events; a status other than OkContinue ends the run. */
  function Run(o: Options, s: State, evs: seq<Event>): (State, Status) {
    if evs == [] then (s, OkContinue)
    else
      var n := |evs| - 1;
      var (t, status) := Run(o, s, evs[..n]);
      if status.OkContinue? then Process(o, t, evs[n]) else (t, status)
  }

  /** The events of a run that reached the switch. */
  function Handled(o: Options, s: State, evs: seq<Event>): seq<Event> {
    if evs == [] then []
    else
      var n := |evs| - 1;
      var (t, status) := Run(o, s, evs[..n]);
      var before := Handled(o, s, evs[..n]);
      if status.OkContinue? && Accepted(o, t, evs[n]) then before + [evs[n]] else before
  }

  /** The end of `dump_multiple_logs`. */
  function FinishTokens(f: Flags): seq<Token> {
    (if f.skipped then [AddedCommit] else []) + (if !f.nextValid then [SetAutomatic] else [])
  }
}
