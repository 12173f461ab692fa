/**
 mysqldump --master-data: lock, open a snapshot, flush logs, record the binary
 log position, unlock, dump, purge; interleaved with the commits and log
 rotations of other sessions.

 Server behaviour assumed: FLUSH TABLES WITH READ LOCK stops changes to
 non-transactional tables, and from version 4.1.3 on also commits; a snapshot
 taken from version 4.1.0 on is fixed at its start, before that by its first
 read; only transactional tables are read from the snapshot.
 */
module DumpProtocol {
  import opened Wrappers

  type Table = string
  type Contents = seq<string>
  type Db = map<Table, Contents>

  function Get(db: Db, t: Table): Contents {
    if t in db then db[t] else []
  }

  /** A logged change: the new contents of the tables it writes. */
  type Change = map<Table, Contents>

  function Replay(base: Db, changes: seq<Change>): Db {
    if changes == [] then base
    else Replay(base, changes[..|changes| - 1]) + changes[|changes| - 1]
  }

  // --- options ---

  datatype Options = Options(singleTransaction: bool, lockAllTables: bool, masterData: bool,
                             deleteMasterLogs: bool, flushLogs: bool, force: bool)

  /** get_options: None if the combination is refused. */
  function Normalize(o: Options): Option<Options> {
    var o := if o.deleteMasterLogs && !o.masterData then o.(masterData := true) else o;
    if o.singleTransaction && o.lockAllTables then None
    else if o.masterData then Some(o.(lockAllTables := !o.singleTransaction))
    else Some(o)
  }

  /** What does not change during a run. */
  datatype Setting = Setting(opts: Options, version: nat, transactional: set<Table>, tables: seq<Table>, base: Db)

  // --- state ---

  datatype Position = Position(file: nat, offset: nat)

  datatype Pc = Lock | Begin | RotateFirst | NameLog | Rotate | Status | Unlock | Reading(next: nat) | Purge | Done
              | Refused

  /**
   history is everything ever logged; log file f holds the changes from
   starts[f] up to the next start. Files below `purged` are gone.
   */
  datatype Server = Server(db: Db, history: seq<Change>, starts: seq<nat>, purged: nat,
                           locked: bool, snapshot: Option<Db>)

  datatype Client = Client(pc: Pc, flushLogs: bool, logName: nat, recorded: Option<Position>,
                           dumped: map<Table, Contents>)

  datatype State = State(server: Server, client: Client)

  function MasterStatus(s: Server): Position
    requires s.starts != [] && s.starts[|s.starts| - 1] <= |s.history|
  {
    Position(|s.starts| - 1, |s.history| - s.starts[|s.starts| - 1])
  }

  function RotateLog(s: Server): Server {
    s.(starts := s.starts + [|s.history|])
  }

  /** The number of changes logged before a position. */
  function Index(s: Server, p: Position): nat
    requires p.file < |s.starts|
  {
    s.starts[p.file] + p.offset
  }

  ghost predicate LogsOk(set_: Setting, s: Server) {
    && s.db == Replay(set_.base, s.history)
    && |s.starts| >= 1
    && forall f :: 0 <= f < |s.starts| ==> s.starts[f] <= |s.history|
  }

  function Start(set_: Setting, history: seq<Change>, starts: seq<nat>): State {
    State(Server(Replay(set_.base, history), history, starts, 0, false, None),
          Client(Lock, set_.opts.flushLogs, 0, None, map[]))
  }

  // --- the actions of mysqldump ---

  function TakeLock(set_: Setting, s: Server): Server {
    s.(locked := s.locked || set_.opts.lockAllTables || set_.opts.masterData)
  }

  predicate RefusesSnapshot(set_: Setting) {
    set_.opts.singleTransaction && set_.version < 40100 && set_.opts.masterData && !set_.opts.force
  }

  function OpenSnapshot(set_: Setting, s: Server): Server {
    if set_.opts.singleTransaction && set_.version >= 40100 then s.(snapshot := Some(s.db)) else s
  }

  /** A transactional table is read from the snapshot, which starts now if it did not start before. */
  function SnapshotFor(set_: Setting, s: Server, t: Table): Option<Db> {
    if set_.opts.singleTransaction && t in set_.transactional && s.snapshot.None? then Some(s.db) else s.snapshot
  }

  function Visible(set_: Setting, s: Server, t: Table): Contents {
    if set_.opts.singleTransaction && t in set_.transactional && s.snapshot.Some? then Get(s.snapshot.value, t)
    else Get(s.db, t)
  }

  function Act(set_: Setting, pc: Pc, c: Client, s: Server): Server {
    match pc
    case Lock => TakeLock(set_, s)
    case Begin => if RefusesSnapshot(set_) then s else OpenSnapshot(set_, s)
    case RotateFirst => if set_.opts.deleteMasterLogs then RotateLog(s) else s
    case NameLog => s
    case Rotate => if (set_.opts.lockAllTables || set_.opts.masterData) && c.flushLogs then RotateLog(s) else s
    case Status => s
    case Unlock => if set_.opts.singleTransaction then s.(locked := false) else s
    case Reading(next) =>
      if next < |set_.tables| then s.(snapshot := SnapshotFor(set_, s, set_.tables[next])) else s
    case Purge => if set_.opts.deleteMasterLogs then s.(purged := c.logName) else s
    case Done => s.(locked := false, snapshot := None)
    case Refused => s.(locked := false)
  }

  /** What mysqldump remembers after its action; s is the server before the action. */
  function Note(set_: Setting, s: Server, c: Client): Client
    requires LogsOk(set_, s)
  {
    match c.pc
    case Lock => c.(pc := Begin)
    case Begin => if RefusesSnapshot(set_) then c.(pc := Refused) else c.(pc := RotateFirst)
    case RotateFirst => c.(pc := NameLog)
    case NameLog =>
      if set_.opts.deleteMasterLogs then c.(logName := MasterStatus(s).file, flushLogs := false, pc := Rotate)
      else c.(pc := Rotate)
    case Rotate =>
      c.(flushLogs := c.flushLogs && !(set_.opts.lockAllTables || set_.opts.masterData), pc := Status)
    case Status => c.(recorded := if set_.opts.masterData then Some(MasterStatus(s)) else None, pc := Unlock)
    case Unlock => c.(pc := Reading(0))
    case Reading(next) =>
      if next < |set_.tables| then
        c.(dumped := c.dumped[set_.tables[next] := Visible(set_, s, set_.tables[next])], pc := Reading(next + 1))
      else c.(pc := Purge)
    case Purge => c.(pc := Done)
    case Done => c
    case Refused => c
  }

  /** A turn of mysqldump, a change by another session, or a rotation by another session. */
  datatype Event = Dump | Other(change: Change, transactional: bool) | OtherRotates

  predicate Enabled(set_: Setting, s: Server, e: Event) {
    e.Other? ==>
      && (if e.transactional then e.change.Keys <= set_.transactional else e.change.Keys !! set_.transactional)
      && (s.locked ==> e.transactional && set_.version < 40103)
  }

  function Step(set_: Setting, s: State, e: Event): State
    requires LogsOk(set_, s.server)
  {
    match e
    case Dump => State(Act(set_, s.client.pc, s.client, s.server), Note(set_, s.server, s.client))
    case Other(change, _) => s.(server := s.server.(db := s.server.db + change, history := s.server.history + [change]))
    case OtherRotates => s.(server := RotateLog(s.server))
  }

  lemma StepKeepsLogs(set_: Setting, s: State, e: Event)
    requires LogsOk(set_, s.server)
    ensures LogsOk(set_, Step(set_, s, e).server)
    ensures s.server.history <= Step(set_, s, e).server.history && s.server.starts <= Step(set_, s, e).server.starts
    ensures !e.Other? ==>
              Step(set_, s, e).server.db == s.server.db && Step(set_, s, e).server.history == s.server.history
  {
    if e.Other? {
      var h := s.server.history + [e.change];
      assert h[..|h| - 1] == s.server.history;
    }
  }

  /** Runs: every event has to be enabled where it happens. */
  ghost predicate IsRun(set_: Setting, s: State, events: seq<Event>, t: State)
    requires LogsOk(set_, s.server)
    decreases |events|
  {
    if events == [] then s == t
    else
      StepKeepsLogs(set_, s, events[0]);
      Enabled(set_, s.server, events[0]) && IsRun(set_, Step(set_, s, events[0]), events[1..], t)
  }

  // --- the promise ---

  ghost predicate PositionOk(s: Server, p: Position) {
    p.file < |s.starts| && Index(s, p) <= |s.history|
  }

  /** The database at a log position. */
  ghost function DbAt(set_: Setting, s: Server, p: Position): Db
    requires PositionOk(s, p)
  {
    Replay(set_.base, s.history[..Index(s, p)])
  }

  /** Everything dumped is what the table held at the recorded position. */
  ghost predicate Consistent(set_: Setting, s: State) {
    s.client.recorded.Some? ==>
      && PositionOk(s.server, s.client.recorded.value)
      && forall t :: t in s.client.dumped ==>
           s.client.dumped[t] == Get(DbAt(set_, s.server, s.client.recorded.value), t)
  }

  /** Dumping table t is safe whatever other sessions do. */
  predicate SafeTable(set_: Setting, t: Table) {
    if set_.opts.singleTransaction then set_.version >= 40103 && t in set_.transactional
    else set_.version >= 40103 || t !in set_.transactional
  }

  /** What get_options leaves of an accepted combination with --master-data. */
  predicate WithMasterData(o: Options) {
    o.masterData && o.lockAllTables == !o.singleTransaction
  }

  lemma NormalizeMeaning(raw: Options)
    ensures Normalize(raw).None? <==> raw.singleTransaction && raw.lockAllTables
    ensures Normalize(raw).Some? && (raw.masterData || raw.deleteMasterLogs) ==> WithMasterData(Normalize(raw).value)
    ensures Normalize(raw).Some? && !(raw.masterData || raw.deleteMasterLogs) ==> Normalize(raw).value == raw
  {
  }

  // --- what every step keeps ---

  /** The global read lock is held. */
  predicate HoldsLock(set_: Setting, pc: Pc) {
    match pc
    case Lock => false
    case Reading(_) => !set_.opts.singleTransaction
    case Purge => !set_.opts.singleTransaction
    case Done => false
    case Refused => false
    case _ => true
  }

  predicate Recorded(pc: Pc) {
    pc.Unlock? || pc.Reading? || pc.Purge? || pc.Done?
  }

  /** The snapshot is open and, while the lock is held, is still the current database. */
  ghost predicate SnapshotOk(set_: Setting, s: State) {
    match s.client.pc
    case RotateFirst => s.server.snapshot == Some(s.server.db)
    case NameLog => s.server.snapshot == Some(s.server.db)
    case Rotate => s.server.snapshot == Some(s.server.db)
    case Status => s.server.snapshot == Some(s.server.db)
    case Unlock => s.server.snapshot == Some(DbAtRecorded(set_, s))
    case Reading(_) => s.server.snapshot == Some(DbAtRecorded(set_, s))
    case _ => true
  }

  ghost function DbAtRecorded(set_: Setting, s: State): Db {
    if s.client.recorded.Some? && PositionOk(s.server, s.client.recorded.value)
    then DbAt(set_, s.server, s.client.recorded.value) else map[]
  }

  ghost predicate Inv(set_: Setting, s: State) {
    var c := s.client;
    && LogsOk(set_, s.server)
    && (HoldsLock(set_, c.pc) ==> s.server.locked)
    && (c.recorded.Some? <==> Recorded(c.pc))
    && (c.recorded.Some? ==> PositionOk(s.server, c.recorded.value))
    && (set_.opts.singleTransaction && set_.version >= 40103 ==> SnapshotOk(set_, s))
    && (HoldsLock(set_, c.pc) && Recorded(c.pc) ==>
          forall t :: set_.version >= 40103 || t !in set_.transactional ==>
            Get(s.server.db, t) == Get(DbAtRecorded(set_, s), t))
    && (!Recorded(c.pc) ==> c.dumped == map[])
    && (RefusesSnapshot(set_) ==> c.pc.Lock? || c.pc.Begin? || c.pc.Refused?)
    && (forall t :: t in c.dumped ==> t in set_.tables)
    && (forall t :: t in c.dumped && SafeTable(set_, t) ==> c.dumped[t] == Get(DbAtRecorded(set_, s), t))
  }

  lemma StartInv(set_: Setting, history: seq<Change>, starts: seq<nat>)
    requires |starts| >= 1 && forall f :: 0 <= f < |starts| ==> starts[f] <= |history|
    ensures Inv(set_, Start(set_, history, starts))
  {
  }

  /** A position keeps its meaning while changes and log files are only added. */
  lemma PositionStable(set_: Setting, s: Server, t: Server, p: Position)
    requires s.history <= t.history && s.starts <= t.starts && PositionOk(s, p)
    ensures PositionOk(t, p) && DbAt(set_, t, p) == DbAt(set_, s, p)
  {
    assert t.history[..Index(t, p)] == s.history[..Index(s, p)];
  }

  /** At the moment SHOW MASTER STATUS is answered, its position stands for the current database. */
  lemma StatusIsCurrent(set_: Setting, s: Server)
    requires LogsOk(set_, s)
    ensures PositionOk(s, MasterStatus(s)) && DbAt(set_, s, MasterStatus(s)) == s.db
  {
    assert s.history[..|s.history|] == s.history;
  }

  lemma OtherKeepsInv(set_: Setting, s: State, e: Event)
    requires WithMasterData(set_.opts) && Inv(set_, s) && Enabled(set_, s.server, e) && !e.Dump?
    ensures Inv(set_, Step(set_, s, e))
  {
    StepKeepsLogs(set_, s, e);
    var t := Step(set_, s, e);
    if s.client.recorded.Some? {
      PositionStable(set_, s.server, t.server, s.client.recorded.value);
    }
  }

  /** Up to the log rotations nothing is recorded yet. */
  lemma PreparingKeepsInv(set_: Setting, s: State)
    requires WithMasterData(set_.opts) && Inv(set_, s)
    requires || s.client.pc.Lock? || s.client.pc.Begin? || s.client.pc.RotateFirst?
             || s.client.pc.NameLog? || s.client.pc.Rotate?
    ensures Inv(set_, Step(set_, s, Dump))
  {
    StepKeepsLogs(set_, s, Dump);
  }

  lemma RecordingKeepsInv(set_: Setting, s: State)
    requires WithMasterData(set_.opts) && Inv(set_, s) && s.client.pc.Status?
    ensures Inv(set_, Step(set_, s, Dump))
  {
    StatusIsCurrent(set_, s.server);
  }

  /** Reading a safe table finds what it held at the recorded position. */
  lemma ReadingKeepsInv(set_: Setting, s: State)
    requires WithMasterData(set_.opts) && Inv(set_, s) && s.client.pc.Reading?
    ensures Inv(set_, Step(set_, s, Dump))
  {
    var t := Step(set_, s, Dump);
    PositionStable(set_, s.server, t.server, s.client.recorded.value);
    assert DbAtRecorded(set_, t) == DbAtRecorded(set_, s);
  }

  lemma LeavingKeepsInv(set_: Setting, s: State)
    requires WithMasterData(set_.opts) && Inv(set_, s)
    requires s.client.pc.Unlock? || s.client.pc.Purge? || s.client.pc.Done? || s.client.pc.Refused?
    ensures Inv(set_, Step(set_, s, Dump))
  {
    var t := Step(set_, s, Dump);
    if s.client.recorded.Some? {
      PositionStable(set_, s.server, t.server, s.client.recorded.value);
      assert DbAtRecorded(set_, t) == DbAtRecorded(set_, s);
    }
  }

  lemma StepKeepsInv(set_: Setting, s: State, e: Event)
    requires WithMasterData(set_.opts) && Inv(set_, s) && Enabled(set_, s.server, e)
    ensures Inv(set_, Step(set_, s, e))
  {
    if !e.Dump? {
      OtherKeepsInv(set_, s, e);
    } else {
      match s.client.pc
      case Status => RecordingKeepsInv(set_, s);
      case Reading(_) => ReadingKeepsInv(set_, s);
      case Unlock => LeavingKeepsInv(set_, s);
      case Purge => LeavingKeepsInv(set_, s);
      case Done => LeavingKeepsInv(set_, s);
      case Refused => LeavingKeepsInv(set_, s);
      case _ => PreparingKeepsInv(set_, s);
    }
  }

  // --- the purge ---

  /** The log named for the purge is not later than the log holding the recorded position. */
  ghost predicate PurgeInv(set_: Setting, s: State) {
    var c := s.client;
    && LogsOk(set_, s.server)
    && c.logName < |s.server.starts| && s.server.purged <= c.logName
    && (c.pc.Lock? || c.pc.Begin? || c.pc.RotateFirst? || c.pc.NameLog? ==> c.logName == 0)
    && (c.recorded.Some? ==> c.logName <= c.recorded.value.file < |s.server.starts|)
    && (c.recorded.Some? ==> Recorded(c.pc))
  }

  lemma StepKeepsPurgeInv(set_: Setting, s: State, e: Event)
    requires PurgeInv(set_, s)
    ensures PurgeInv(set_, Step(set_, s, e))
  {
    StepKeepsLogs(set_, s, e);
  }

  // --- runs ---

  lemma {:induction false} RunKeepsInv(set_: Setting, s: State, events: seq<Event>, t: State)
    requires WithMasterData(set_.opts) && Inv(set_, s) && PurgeInv(set_, s) && IsRun(set_, s, events, t)
    ensures Inv(set_, t) && PurgeInv(set_, t)
    decreases |events|
  {
    if events != [] {
      StepKeepsInv(set_, s, events[0]);
      StepKeepsPurgeInv(set_, s, events[0]);
      RunKeepsInv(set_, Step(set_, s, events[0]), events[1..], t);
    }
  }

  predicate LogFiles(history: seq<Change>, starts: seq<nat>) {
    |starts| >= 1 && forall f :: 0 <= f < |starts| ==> starts[f] <= |history|
  }

  /**
   --master-data: in every run, whatever other sessions commit and rotate, each
   safe table was dumped as it was at the recorded position, and the log that
   holds that position is still there.
   */
  lemma DumpIsConsistent(set_: Setting, history: seq<Change>, starts: seq<nat>, events: seq<Event>, t: State)
    requires WithMasterData(set_.opts) && LogFiles(history, starts)
    requires IsRun(set_, Start(set_, history, starts), events, t)
    ensures t.client.recorded.Some? ==>
              && PositionOk(t.server, t.client.recorded.value)
              && (forall x :: x in t.client.dumped && SafeTable(set_, x) ==>
                    t.client.dumped[x] == Get(DbAt(set_, t.server, t.client.recorded.value), x))
              && t.server.purged <= t.client.recorded.value.file
  {
    StartInv(set_, history, starts);
    RunKeepsInv(set_, Start(set_, history, starts), events, t);
  }

  /** Replaying changes touches each table on its own. */
  lemma {:induction false} ReplayPointwise(a: Db, b: Db, changes: seq<Change>, x: Table)
    requires Get(a, x) == Get(b, x)
    ensures Get(Replay(a, changes), x) == Get(Replay(b, changes), x)
    decreases |changes|
  {
    if changes != [] {
      ReplayPointwise(a, b, changes[..|changes| - 1], x);
    }
  }

  lemma {:induction false} ReplayAppend(base: Db, a: seq<Change>, b: seq<Change>)
    ensures Replay(base, a + b) == Replay(Replay(base, a), b)
    decreases |b|
  {
    if b == [] {
      assert a + b == a;
    } else {
      ReplayAppend(base, a, b[..|b| - 1]);
      assert (a + b)[..|a + b| - 1] == a + b[..|b| - 1];
    }
  }

  /**
   Point-in-time recovery: loading the dump and replaying the log from the
   recorded position gives every safe table its current contents.
   */
  lemma DumpAndLogRecover(set_: Setting, history: seq<Change>, starts: seq<nat>, events: seq<Event>, t: State, x: Table)
    requires WithMasterData(set_.opts) && LogFiles(history, starts)
    requires IsRun(set_, Start(set_, history, starts), events, t)
    requires t.client.recorded.Some? && x in t.client.dumped && SafeTable(set_, x)
    ensures PositionOk(t.server, t.client.recorded.value)
    ensures var later := t.server.history[Index(t.server, t.client.recorded.value)..];
            Get(Replay(t.client.dumped, later), x) == Get(t.server.db, x)
  {
    DumpIsConsistent(set_, history, starts, events, t);
    StartInv(set_, history, starts);
    RunKeepsInv(set_, Start(set_, history, starts), events, t);
    var k := Index(t.server, t.client.recorded.value);
    var h := t.server.history;
    ReplayPointwise(t.client.dumped, Replay(set_.base, h[..k]), h[k..], x);
    ReplayAppend(set_.base, h[..k], h[k..]);
    assert h[..k] + h[k..] == h;
  }
}
