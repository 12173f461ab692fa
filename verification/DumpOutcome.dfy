/**
 What a run of mysqldump leaves behind: which tables the dump holds, which logs
 are gone, and where the log that the dump belongs to starts.
 */
module DumpOutcome {
  import opened Wrappers
  import opened DumpProtocol
  import opened DumpLimits

  // --- the tables ---

  /** Exactly the first n tables are in the dump. */
  ghost predicate HasDumped(set_: Setting, c: Client, n: nat) {
    n <= |set_.tables| && forall x :: x in c.dumped <==> x in set_.tables[..n]
  }

  predicate Finished(pc: Pc) {
    pc.Purge? || pc.Done?
  }

  ghost predicate Progress(set_: Setting, c: Client) {
    HasDumped(set_, c, if c.pc.Reading? then c.pc.next else if Finished(c.pc) then |set_.tables| else 0)
  }

  lemma StepKeepsProgress(set_: Setting, s: State, e: Event)
    requires LogsOk(set_, s.server) && Progress(set_, s.client)
    ensures Progress(set_, Step(set_, s, e).client)
  {
    var c := s.client;
    if c.pc.Reading? && c.pc.next < |set_.tables| {
      assert set_.tables[..c.pc.next + 1] == set_.tables[..c.pc.next] + [set_.tables[c.pc.next]];
    }
  }

  lemma {:induction false} RunKeepsProgress(set_: Setting, s: State, events: seq<Event>, t: State)
    requires LogsOk(set_, s.server) && Progress(set_, s.client) && IsRun(set_, s, events, t)
    ensures Progress(set_, t.client)
    decreases |events|
  {
    if events != [] {
      StepKeepsProgress(set_, s, events[0]);
      StepKeepsLogs(set_, s, events[0]);
      RunKeepsProgress(set_, Step(set_, s, events[0]), events[1..], t);
    }
  }

  /** With any options, a finished dump holds exactly the tables that were to be dumped. */
  lemma FinishedHoldsTables(set_: Setting, history: seq<Change>, starts: seq<nat>, events: seq<Event>, t: State)
    requires LogFiles(history, starts) && RunFrom(set_, history, starts, events, t) && Finished(t.client.pc)
    ensures forall x :: x in t.client.dumped <==> x in set_.tables
  {
    RunKeepsProgress(set_, Start(set_, history, starts), events, t);
    assert set_.tables[..|set_.tables|] == set_.tables;
  }

  /**
   Point-in-time recovery from a finished dump: it has every table, and loading
   it and replaying the log from the recorded position gives every safe one its
   current contents.
   */
  lemma FinishedDumpRecovers(set_: Setting, history: seq<Change>, starts: seq<nat>, events: seq<Event>, t: State)
    requires WithMasterData(set_.opts) && LogFiles(history, starts) && RunFrom(set_, history, starts, events, t)
    requires Finished(t.client.pc)
    ensures t.client.recorded.Some? && PositionOk(t.server, t.client.recorded.value)
    ensures forall x :: x in set_.tables ==> x in t.client.dumped
    ensures var later := t.server.history[Index(t.server, t.client.recorded.value)..];
            forall x :: x in set_.tables && SafeTable(set_, x) ==>
              Get(Replay(t.client.dumped, later), x) == Get(t.server.db, x)
  {
    StartInv(set_, history, starts);
    RunKeepsInv(set_, Start(set_, history, starts), events, t);
    FinishedHoldsTables(set_, history, starts, events, t);
    forall x | x in set_.tables && SafeTable(set_, x)
      ensures var later := t.server.history[Index(t.server, t.client.recorded.value)..];
              Get(Replay(t.client.dumped, later), x) == Get(t.server.db, x)
    {
      DumpAndLogRecover(set_, history, starts, events, t, x);
    }
  }

  /** Runs are refused exactly for a snapshot with a position on a server before 4.1.0, unless forced. */
  lemma RefusedIffTooOld(set_: Setting, history: seq<Change>, starts: seq<nat>, events: seq<Event>, t: State)
    requires WithMasterData(set_.opts) && LogFiles(history, starts) && RunFrom(set_, history, starts, events, t)
    requires !t.client.pc.Lock? && !t.client.pc.Begin?
    ensures t.client.pc.Refused? <==> set_.opts.singleTransaction && set_.version < 40100 && !set_.opts.force
  {
    StartInv(set_, history, starts);
    RunKeepsInv(set_, Start(set_, history, starts), events, t);
    RunIsRefused(set_, Start(set_, history, starts), events, t);
  }

  lemma {:induction false} RunIsRefused(set_: Setting, s: State, events: seq<Event>, t: State)
    requires LogsOk(set_, s.server) && IsRun(set_, s, events, t) && (s.client.pc.Refused? ==> RefusesSnapshot(set_))
    ensures t.client.pc.Refused? ==> RefusesSnapshot(set_)
    decreases |events|
  {
    if events != [] {
      StepKeepsLogs(set_, s, events[0]);
      RunIsRefused(set_, Step(set_, s, events[0]), events[1..], t);
    }
  }

  // --- the logs ---

  /** Whether the run is to begin a new log. */
  predicate Flushes(o: Options) {
    o.flushLogs || o.deleteMasterLogs
  }

  /** Behind the turn that names the log. */
  predicate HasNamed(pc: Pc) {
    pc.Rotate? || pc.Status? || pc.Unlock? || pc.Reading? || pc.Purge? || pc.Done?
  }

  /** The log named for the purge is newer than the first n logs; nothing is purged before the end. */
  ghost predicate NamesNewLog(set_: Setting, n: nat, s: State) {
    var c, delete := s.client, set_.opts.deleteMasterLogs;
    && n <= |s.server.starts|
    && (delete && c.pc.NameLog? ==> n < |s.server.starts|)
    && (delete && HasNamed(c.pc) ==> n <= c.logName)
    && s.server.purged == if delete && c.pc.Done? then c.logName else 0
  }

  lemma StepKeepsNames(set_: Setting, n: nat, s: State, e: Event)
    requires LogsOk(set_, s.server) && NamesNewLog(set_, n, s)
    ensures NamesNewLog(set_, n, Step(set_, s, e))
  {
  }

  lemma {:induction false} RunKeepsNames(set_: Setting, n: nat, s: State, events: seq<Event>, t: State)
    requires LogsOk(set_, s.server) && NamesNewLog(set_, n, s) && IsRun(set_, s, events, t)
    ensures NamesNewLog(set_, n, t)
    decreases |events|
  {
    if events != [] {
      StepKeepsNames(set_, n, s, events[0]);
      StepKeepsLogs(set_, s, events[0]);
      RunKeepsNames(set_, n, Step(set_, s, events[0]), events[1..], t);
    }
  }

  /**
   --delete-master-logs: when the run is done, all logs there were at its start
   are gone, and that of the recorded position is not. Without the option, and
   before the dump is finished, no log is gone.
   */
  lemma OldLogsArePurged(set_: Setting, history: seq<Change>, starts: seq<nat>, events: seq<Event>, t: State)
    requires WithMasterData(set_.opts) && LogFiles(history, starts) && RunFrom(set_, history, starts, events, t)
    ensures set_.opts.deleteMasterLogs && t.client.pc.Done? ==>
              |starts| <= t.server.purged && t.client.recorded.Some? && t.server.purged <= t.client.recorded.value.file
    ensures !set_.opts.deleteMasterLogs || !t.client.pc.Done? ==> t.server.purged == 0
  {
    RunKeepsNames(set_, |starts|, Start(set_, history, starts), events, t);
    StartInv(set_, history, starts);
    RunKeepsInv(set_, Start(set_, history, starts), events, t);
  }

  /** A new log was begun and nothing has been logged in it. */
  ghost predicate FreshLog(n: nat, s: Server) {
    |s.starts| > n && s.starts[|s.starts| - 1] == |s.history|
  }

  ghost predicate FlushInv(set_: Setting, n: nat, s: State) {
    var c, delete := s.client, set_.opts.deleteMasterLogs;
    && n <= |s.server.starts|
    && (c.pc.Lock? || c.pc.Begin? || c.pc.RotateFirst? || c.pc.NameLog? ==> c.flushLogs == set_.opts.flushLogs)
    && (c.pc.Rotate? ==> c.flushLogs == (set_.opts.flushLogs && !delete))
    && (delete && (c.pc.NameLog? || c.pc.Rotate?) ==> FreshLog(n, s.server))
    && (c.pc.Status? ==> FreshLog(n, s.server))
    && (c.recorded.Some? ==> c.recorded.value.offset == 0 && c.recorded.value.file >= n)
  }

  lemma StepKeepsFlush(set_: Setting, n: nat, s: State, e: Event)
    requires WithMasterData(set_.opts) && Flushes(set_.opts) && set_.version >= 40103
    requires Inv(set_, s) && FlushInv(set_, n, s) && Enabled(set_, s.server, e)
    ensures FlushInv(set_, n, Step(set_, s, e))
  {
  }

  lemma {:induction false} RunKeepsFlush(set_: Setting, n: nat, s: State, events: seq<Event>, t: State)
    requires WithMasterData(set_.opts) && Flushes(set_.opts) && set_.version >= 40103
    requires Inv(set_, s) && FlushInv(set_, n, s) && IsRun(set_, s, events, t)
    ensures FlushInv(set_, n, t)
    decreases |events|
  {
    if events != [] {
      StepKeepsFlush(set_, n, s, events[0]);
      StepKeepsInv(set_, s, events[0]);
      RunKeepsFlush(set_, n, Step(set_, s, events[0]), events[1..], t);
    }
  }

  /** The recorded position is the very start of a log that was begun in the run. */
  ghost predicate FlushedAt(n: nat, t: State) {
    t.client.recorded.Some? ==> t.client.recorded.value.offset == 0 && t.client.recorded.value.file >= n
  }

  ghost predicate AlwaysFlushed(set_: Setting) {
    forall history: seq<Change>, starts: seq<nat>, events: seq<Event>, t: State ::
      LogFiles(history, starts) && RunFrom(set_, history, starts, events, t) ==> FlushedAt(|starts|, t)
  }

  /** A run up to the question for the position in which nobody else acts. */
  lemma UpToStatus(set_: Setting) returns (events: seq<Event>, b: State)
    requires WithMasterData(set_.opts) && !RefusesSnapshot(set_)
    ensures LogsOk(set_, b.server) && IsRun(set_, Start(set_, [], [0]), events, b)
    ensures b.client.pc == Status && b.server.locked && b.server.history == []
  {
    var s := Start(set_, [], [0]);
    FirstTwo(set_, s);
    var a := Alone(set_, s, 2);
    AloneSteps(set_, a);
    OneTurn(set_, a);
    OneTurn(set_, Alone(set_, a, 1));
    OneTurn(set_, Alone(set_, a, 2));
    b := Alone(set_, a, 3);
    events := ThenAlone(set_, s, [], s, 2);
    events := ThenAlone(set_, s, events, a, 3);
  }

  /** On a server before 4.1.3 a commit comes between the new log and the recorded position. */
  lemma CommitAfterFlush(set_: Setting)
    requires WithMasterData(set_.opts) && !RefusesSnapshot(set_) && set_.version < 40103
    ensures !AlwaysFlushed(set_)
  {
    var s := Start(set_, [], [0]);
    var events, b := UpToStatus(set_);
    var e := Other(map[], true);
    events := ThenEvent(set_, s, events, b, e);
    var c := Step(set_, b, e);
    LateStart(set_, b.server, c.server);
    events := ThenEvent(set_, s, events, c, Dump);
    var t := Step(set_, c, Dump);
    assert RunFrom(set_, [], [0], events, t) && !FlushedAt(|[0]|, t);
  }

  /** A change behind the start of the last log moves the position off that start. */
  lemma LateStart(set_: Setting, s: Server, t: Server)
    requires LogsOk(set_, s) && LogsOk(set_, t) && t.starts == s.starts && |t.history| == |s.history| + 1
    ensures MasterStatus(t).offset > 0
  {
  }

  /**
   --flush-logs and --delete-master-logs with --master-data: the new log begins
   at the recorded position under every interleaving, if and only if mysqldump
   refuses the server version or the server is at least 4.1.3.
   */
  lemma FlushedIffNew(set_: Setting)
    requires WithMasterData(set_.opts) && Flushes(set_.opts)
    ensures AlwaysFlushed(set_) <==> RefusesSnapshot(set_) || set_.version >= 40103
  {
    if RefusesSnapshot(set_) || set_.version >= 40103 {
      forall history: seq<Change>, starts: seq<nat>, events: seq<Event>, t: State
        | LogFiles(history, starts) && RunFrom(set_, history, starts, events, t)
        ensures FlushedAt(|starts|, t)
      {
        var s := Start(set_, history, starts);
        StartInv(set_, history, starts);
        RunKeepsInv(set_, s, events, t);
        if set_.version >= 40103 {
          RunKeepsFlush(set_, |starts|, s, events, t);
        }
      }
    } else {
      CommitAfterFlush(set_);
    }
  }
}
