/**
 The condition under which a dump with --master-data is consistent is exact:
 for every setting outside it there is a run whose dump does not belong to the
 recorded position.
 */
module DumpLimits {
  import opened Wrappers
  import opened DumpProtocol

  /** No run produces a dump that does not belong to its recorded position. */
  ghost predicate AlwaysConsistent(set_: Setting) {
    forall history: seq<Change>, starts: seq<nat>, events: seq<Event>, t: State ::
      LogFiles(history, starts) && RunFrom(set_, history, starts, events, t) ==> Consistent(set_, t)
  }

  ghost predicate RunFrom(set_: Setting, history: seq<Change>, starts: seq<nat>, events: seq<Event>, t: State)
    requires LogFiles(history, starts)
  {
    LogsOk(set_, Start(set_, history, starts).server) && IsRun(set_, Start(set_, history, starts), events, t)
  }

  /** mysqldump refuses to run, or every table it dumps is safe. */
  predicate SafeSetting(set_: Setting) {
    RefusesSnapshot(set_) || forall i :: 0 <= i < |set_.tables| ==> SafeTable(set_, set_.tables[i])
  }

  lemma {:induction false} RunAppend(set_: Setting, s: State, a: seq<Event>, t: State, b: seq<Event>, u: State)
    requires LogsOk(set_, s.server) && IsRun(set_, s, a, t) && LogsOk(set_, t.server) && IsRun(set_, t, b, u)
    ensures IsRun(set_, s, a + b, u)
    decreases |a|
  {
    if a == [] {
      assert a + b == b;
    } else {
      StepKeepsLogs(set_, s, a[0]);
      RunAppend(set_, Step(set_, s, a[0]), a[1..], t, b, u);
      assert (a + b)[0] == a[0] && (a + b)[1..] == a[1..] + b;
    }
  }

  lemma OneEvent(set_: Setting, s: State, e: Event)
    requires LogsOk(set_, s.server) && Enabled(set_, s.server, e)
    ensures IsRun(set_, s, [e], Step(set_, s, e)) && LogsOk(set_, Step(set_, s, e).server)
  {
    StepKeepsLogs(set_, s, e);
    assert [e][1..] == [];
  }

  /** n turns of mysqldump with nobody else acting. */
  ghost function Alone(set_: Setting, s: State, n: nat): (t: State)
    requires LogsOk(set_, s.server)
    ensures LogsOk(set_, t.server) && t.server.db == s.server.db && t.server.history == s.server.history
    ensures s.server.starts <= t.server.starts
  {
    if n == 0 then s
    else
      var t := Alone(set_, s, n - 1);
      StepKeepsLogs(set_, t, Dump);
      Step(set_, t, Dump)
  }

  lemma {:induction false} AloneIsRun(set_: Setting, s: State, n: nat)
    requires LogsOk(set_, s.server)
    ensures IsRun(set_, s, seq(n, _ => Dump), Alone(set_, s, n))
    decreases n
  {
    var events := seq(n, _ => Dump);
    if n > 0 {
      AloneIsRun(set_, s, n - 1);
      OneEvent(set_, Alone(set_, s, n - 1), Dump);
      RunAppend(set_, s, seq(n - 1, _ => Dump), Alone(set_, s, n - 1), [Dump], Alone(set_, s, n));
      assert events == seq(n - 1, _ => Dump) + [Dump];
    }
  }

  /** A run continued by n turns of mysqldump. */
  lemma ThenAlone(set_: Setting, s: State, events: seq<Event>, t: State, n: nat) returns (more: seq<Event>)
    requires LogsOk(set_, s.server) && LogsOk(set_, t.server) && IsRun(set_, s, events, t)
    ensures IsRun(set_, s, more, Alone(set_, t, n))
  {
    AloneIsRun(set_, t, n);
    RunAppend(set_, s, events, t, seq(n, _ => Dump), Alone(set_, t, n));
    more := events + seq(n, _ => Dump);
  }

  /** A run continued by one event. */
  lemma ThenEvent(set_: Setting, s: State, events: seq<Event>, t: State, e: Event) returns (more: seq<Event>)
    requires LogsOk(set_, s.server) && LogsOk(set_, t.server) && IsRun(set_, s, events, t) && Enabled(set_, t.server, e)
    ensures LogsOk(set_, Step(set_, t, e).server) && IsRun(set_, s, more, Step(set_, t, e))
  {
    OneEvent(set_, t, e);
    RunAppend(set_, s, events, t, [e], Step(set_, t, e));
    more := events + [e];
  }

  // --- what the turns of mysqldump amount to ---

  /** The lock and the start of the transaction. */
  lemma FirstTwo(set_: Setting, s: State)
    requires WithMasterData(set_.opts) && !RefusesSnapshot(set_) && LogsOk(set_, s.server)
    requires s.client.pc == Lock && s.server.snapshot.None? && s.client.recorded.None?
    ensures var t := Alone(set_, s, 2);
            && t.client.pc == RotateFirst && t.server.locked && t.client.recorded.None?
            && t.server.snapshot
               == (if set_.opts.singleTransaction && set_.version >= 40100 then Some(s.server.db) else None)
  {
    assert Alone(set_, s, 0) == s;
    assert Alone(set_, s, 1).client.pc == Begin;
  }

  /** What the turns up to the position leave alone. */
  ghost predicate SameSession(s: Server, t: Server) {
    t.locked == s.locked && t.snapshot == s.snapshot && t.db == s.db && t.history == s.history
  }

  lemma OneTurn(set_: Setting, s: State)
    requires LogsOk(set_, s.server)
    ensures var t := Step(set_, s, Dump);
            && LogsOk(set_, t.server)
            && (s.client.pc == RotateFirst ==> t.client.pc == NameLog && SameSession(s.server, t.server))
            && (s.client.pc == NameLog ==> t.client.pc == Rotate && SameSession(s.server, t.server))
            && (s.client.pc == Rotate ==> t.client.pc == Status && SameSession(s.server, t.server))
            && (s.client.pc == Status ==> t.client.pc == Unlock && t.server == s.server)
  {
    StepKeepsLogs(set_, s, Dump);
  }

  /** The position that is recorded is the end of the log. */
  lemma StatusTurn(set_: Setting, s: State)
    requires WithMasterData(set_.opts) && LogsOk(set_, s.server) && s.client.pc == Status
    ensures var t := Step(set_, s, Dump);
            && t.client.recorded.Some? && PositionOk(t.server, t.client.recorded.value)
            && Index(t.server, t.client.recorded.value) == |s.server.history|
  {
    StatusIsCurrent(set_, s.server);
  }

  /** From the first rotation to the recorded position. */
  lemma NextFour(set_: Setting, s: State)
    requires WithMasterData(set_.opts) && LogsOk(set_, s.server) && s.client.pc == RotateFirst
    ensures var t := Alone(set_, s, 4);
            && t.client.pc == Unlock && t.server.locked == s.server.locked && t.server.snapshot == s.server.snapshot
            && t.client.recorded.Some? && PositionOk(t.server, t.client.recorded.value)
            && Index(t.server, t.client.recorded.value) == |s.server.history|
  {
    AloneSteps(set_, s);
    var s1, s2, s3 := Alone(set_, s, 1), Alone(set_, s, 2), Alone(set_, s, 3);
    OneTurn(set_, s);
    OneTurn(set_, s1);
    OneTurn(set_, s2);
    OneTurn(set_, s3);
    StatusTurn(set_, s3);
  }

  lemma AloneSteps(set_: Setting, s: State)
    requires LogsOk(set_, s.server)
    ensures Alone(set_, s, 1) == Step(set_, s, Dump)
    ensures Alone(set_, s, 2) == Step(set_, Alone(set_, s, 1), Dump)
    ensures Alone(set_, s, 3) == Step(set_, Alone(set_, s, 2), Dump)
    ensures Alone(set_, s, 4) == Step(set_, Alone(set_, s, 3), Dump)
  {
    assert Alone(set_, s, 0) == s;
  }

  /** From the first rotation to the first table. */
  lemma NextFive(set_: Setting, s: State)
    requires WithMasterData(set_.opts) && LogsOk(set_, s.server) && s.client.pc == RotateFirst && s.server.locked
    ensures var t := Alone(set_, s, 5);
            && t.client.pc == Reading(0) && t.server.locked == !set_.opts.singleTransaction
            && t.server.snapshot == s.server.snapshot
            && t.client.recorded.Some? && PositionOk(t.server, t.client.recorded.value)
            && Index(t.server, t.client.recorded.value) == |s.server.history|
  {
    NextFour(set_, s);
    assert Alone(set_, s, 5) == Step(set_, Alone(set_, s, 4), Dump);
  }

  /** k tables read: those in the snapshot as there, the others as they are. */
  ghost predicate HasRead(set_: Setting, s: State, t: State, k: nat)
    requires k <= |set_.tables|
  {
    && t.client.pc == Reading(k) && t.client.recorded == s.client.recorded && t.server.starts == s.server.starts
    && (s.server.snapshot.Some? ==> t.server.snapshot == s.server.snapshot)
    && (t.server.snapshot == s.server.snapshot || t.server.snapshot == Some(s.server.db))
    && (k > 0 ==> set_.tables[k - 1] in t.client.dumped
                  && t.client.dumped[set_.tables[k - 1]] == Visible(set_, s.server, set_.tables[k - 1]))
  }

  lemma {:induction false} ReadTables(set_: Setting, s: State, k: nat)
    requires LogsOk(set_, s.server) && s.client.pc == Reading(0) && k <= |set_.tables|
    ensures HasRead(set_, s, Alone(set_, s, k), k)
    decreases k
  {
    if k == 0 {
      assert Alone(set_, s, 0) == s;
    } else {
      ReadTables(set_, s, k - 1);
      OneTable(set_, s, Alone(set_, s, k - 1), k - 1);
    }
  }

  lemma OneTable(set_: Setting, s: State, t: State, j: nat)
    requires LogsOk(set_, t.server) && t.server.db == s.server.db && j < |set_.tables| && HasRead(set_, s, t, j)
    ensures HasRead(set_, s, Step(set_, t, Dump), j + 1)
  {
    assert Visible(set_, t.server, set_.tables[j]) == Visible(set_, s.server, set_.tables[j]);
  }

  // --- the counterexamples ---

  function Changed(base: Db, x: Table): Change {
    map[x := Get(base, x) + ["x"]]
  }

  /** The dump of x is not what the log says about the recorded position. */
  lemma Exposed(set_: Setting, events: seq<Event>, t: State, x: Table)
    requires IsRun(set_, Start(set_, [], [0]), events, t)
    requires t.client.recorded.Some? && PositionOk(t.server, t.client.recorded.value) && x in t.client.dumped
    requires t.client.dumped[x] != Get(DbAt(set_, t.server, t.client.recorded.value), x)
    ensures !AlwaysConsistent(set_)
  {
    assert RunFrom(set_, [], [0], events, t);
    assert !Consistent(set_, t);
  }

  /** A run up to the first table in which nobody else acts. */
  lemma UpToReading(set_: Setting) returns (events: seq<Event>, a: State)
    requires WithMasterData(set_.opts) && !RefusesSnapshot(set_)
    ensures LogsOk(set_, a.server) && IsRun(set_, Start(set_, [], [0]), events, a)
    ensures a.client.pc == Reading(0) && a.server.locked == !set_.opts.singleTransaction
    ensures set_.version < 40100 ==> a.server.snapshot.None?
    ensures a.server.history == [] && a.server.db == set_.base
    ensures a.client.recorded.Some? && PositionOk(a.server, a.client.recorded.value)
    ensures Index(a.server, a.client.recorded.value) == 0
  {
    var s := Start(set_, [], [0]);
    FirstTwo(set_, s);
    var s2 := Alone(set_, s, 2);
    NextFive(set_, s2);
    a := Alone(set_, s2, 5);
    events := ThenAlone(set_, s, [], s, 2);
    events := ThenAlone(set_, s, events, s2, 5);
  }

  /** Another session may change table x while the tables are read, and the change is seen. */
  predicate Unprotected(set_: Setting, x: Table) {
    if set_.opts.singleTransaction then x !in set_.transactional || set_.version < 40100
    else set_.version < 40103 && x in set_.transactional
  }

  lemma ReadAfterChange(set_: Setting, a: State, i: nat)
    requires LogsOk(set_, a.server) && i < |set_.tables| && a.client.pc == Reading(0)
    requires Unprotected(set_, set_.tables[i]) && (set_.version < 40100 ==> a.server.snapshot.None?)
    requires a.server.history == [] && a.server.db == set_.base
    requires a.client.recorded.Some? && PositionOk(a.server, a.client.recorded.value)
    requires Index(a.server, a.client.recorded.value) == 0
    ensures var x := set_.tables[i];
            var b := Step(set_, a, Other(Changed(set_.base, x), x in set_.transactional));
            && LogsOk(set_, b.server)
            && var t := Alone(set_, b, i + 1);
            && t.client.recorded.Some? && PositionOk(t.server, t.client.recorded.value) && x in t.client.dumped
            && t.client.dumped[x] != Get(DbAt(set_, t.server, t.client.recorded.value), x)
  {
    var x := set_.tables[i];
    var e := Other(Changed(set_.base, x), x in set_.transactional);
    StepKeepsLogs(set_, a, e);
    var b := Step(set_, a, e);
    var t := Alone(set_, b, i + 1);
    ReadTables(set_, b, i + 1);
    assert t.client.dumped[x] == Visible(set_, b.server, x) == Get(b.server.db, x);
    ChangedDiffers(set_.base, x);
    PositionIsBase(set_, a.server, t.server, a.client.recorded.value);
  }

  lemma ChangedDiffers(base: Db, x: Table)
    ensures Get(base + Changed(base, x), x) != Get(base, x)
  {
    assert (base + Changed(base, x))[x] == Get(base, x) + ["x"];
    assert |Get(base, x) + ["x"]| == |Get(base, x)| + 1;
  }

  /** A position before the first change stands for the base. */
  lemma PositionIsBase(set_: Setting, s: Server, t: Server, p: Position)
    requires s.history == [] && s.starts <= t.starts && PositionOk(s, p) && Index(s, p) == 0
    ensures PositionOk(t, p) && DbAt(set_, t, p) == set_.base
  {
    PositionStable(set_, s, t, p);
    assert s.history[..0] == [];
  }

  /** Another session changes the table after the position was recorded and before the table is read. */
  lemma ChangeAfterPosition(set_: Setting, i: nat)
    requires WithMasterData(set_.opts) && !RefusesSnapshot(set_)
    requires i < |set_.tables| && Unprotected(set_, set_.tables[i])
    ensures !AlwaysConsistent(set_)
  {
    var x := set_.tables[i];
    var s := Start(set_, [], [0]);
    var events, a := UpToReading(set_);
    var e := Other(Changed(set_.base, x), x in set_.transactional);
    assert Enabled(set_, a.server, e);
    events := ThenEvent(set_, s, events, a, e);
    var b := Step(set_, a, e);
    events := ThenAlone(set_, s, events, b, i + 1);
    ReadAfterChange(set_, a, i);
    Exposed(set_, events, Alone(set_, b, i + 1), x);
  }

  /** A commit slips in between the start of the snapshot and the recorded position. */
  lemma CommitAfterSnapshot(set_: Setting, i: nat)
    requires WithMasterData(set_.opts) && set_.opts.singleTransaction && i < |set_.tables|
    requires 40100 <= set_.version < 40103 && set_.tables[i] in set_.transactional
    ensures !AlwaysConsistent(set_)
  {
    var x := set_.tables[i];
    var s := Start(set_, [], [0]);
    FirstTwo(set_, s);
    var a := Alone(set_, s, 2);
    var change := Changed(set_.base, x);
    var e := Other(change, true);
    var events := ThenAlone(set_, s, [], s, 2);
    events := ThenEvent(set_, s, events, a, e);
    var b := Step(set_, a, e);
    NextFive(set_, b);
    var c := Alone(set_, b, 5);
    events := ThenAlone(set_, s, events, b, 5);
    events := ThenAlone(set_, s, events, c, i + 1);
    var t := Alone(set_, c, i + 1);
    ReadTables(set_, c, i + 1);
    assert t.client.dumped[x] == Visible(set_, c.server, x) == Get(set_.base, x);
    PositionAtEnd(set_, t);
    ChangedDiffers(set_.base, x);
    Exposed(set_, events, t, x);
  }

  lemma PositionAtEnd(set_: Setting, t: State)
    requires LogsOk(set_, t.server) && t.client.recorded.Some? && PositionOk(t.server, t.client.recorded.value)
    requires Index(t.server, t.client.recorded.value) == |t.server.history|
    ensures DbAt(set_, t.server, t.client.recorded.value) == t.server.db
  {
    assert t.server.history[..|t.server.history|] == t.server.history;
  }

  /**
   A dump with --master-data is consistent under every interleaving if and only
   if mysqldump refuses the server version, or the server is at least 4.1.3 and
   with --single-transaction all dumped tables are transactional (without it, an
   older server will do for non-transactional tables).
   */
  lemma ConsistentIffSafe(set_: Setting)
    requires WithMasterData(set_.opts)
    ensures AlwaysConsistent(set_) <==> SafeSetting(set_)
  {
    if SafeSetting(set_) {
      forall history: seq<Change>, starts: seq<nat>, events: seq<Event>, t: State
        | LogFiles(history, starts) && RunFrom(set_, history, starts, events, t)
        ensures Consistent(set_, t)
      {
        DumpIsConsistent(set_, history, starts, events, t);
        StartInv(set_, history, starts);
        RunKeepsInv(set_, Start(set_, history, starts), events, t);
      }
    } else {
      var i :| 0 <= i < |set_.tables| && !SafeTable(set_, set_.tables[i]);
      if set_.opts.singleTransaction && set_.tables[i] in set_.transactional && set_.version >= 40100 {
        CommitAfterSnapshot(set_, i);
      } else {
        ChangeAfterPosition(set_, i);
      }
    }
  }
}
