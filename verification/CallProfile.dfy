/**
 The profile analyser of dbug: a stack of open calls, fed with enter and exit
 records, charges each function its own time.

 Functions are numbered as in the module table. Times are unbounded integers;
 the wrap-around of unsigned long is not modelled.
 */
module CallProfile {
  import opened Wrappers

  const STACKSIZ := 100

  /** stack_t; the bottom frame is the dummy one. */
  datatype Frame = Frame(pos: nat, time: int, children: int)

  datatype Module = Module(time: int, calls: int)

  /** unmatched counts exit records that found no open call; it is not kept by the program. */
  datatype Profile = Profile(stack: seq<Frame>, modules: seq<Module>, totTime: int, totCalls: int, unmatched: nat)

  /** The records of a trace, of functions known by number or by name. */
  datatype Record<+F> = Enter(fn: F, time: int) | Leave(fn: F, time: int)

  ghost predicate Wf(p: Profile) {
    && 1 <= |p.stack| <= STACKSIZ + 1
    && forall i :: 1 <= i < |p.stack| ==> p.stack[i].pos < |p.modules|
  }

  function Charge(modules: seq<Module>, pos: nat, time: int): (m: seq<Module>)
    requires pos < |modules|
  {
    modules[pos := Module(modules[pos].time + time, modules[pos].calls + 1)]
  }

  /** Close the innermost open call at the given time. */
  function CloseTop(p: Profile, time: int): (q: Profile)
    requires Wf(p) && |p.stack| > 1
    ensures Wf(q) && |q.stack| == |p.stack| - 1
  {
    var n := |p.stack| - 1;
    var f := p.stack[n];
    var below := p.stack[n - 1];
    var own := time - f.time - f.children;
    Profile(p.stack[..n][n - 1 := below.(children := below.children + (time - f.time))],
            Charge(p.modules, f.pos, own), p.totTime + own, p.totCalls + 1, p.unmatched)
  }

  /** An exit without an open call: charged from the time the dummy frame holds. */
  function CloseUnmatched(p: Profile, pos: nat, time: int): (q: Profile)
    requires Wf(p) && |p.stack| == 1 && pos < |p.modules|
    ensures Wf(q)
  {
    var b := p.stack[0];
    var own := time - b.time - b.children;
    Profile([b.(time := time, children := 0)], Charge(p.modules, pos, own),
            p.totTime + own, p.totCalls + 1, p.unmatched + 1)
  }

  /** An exit record: close open calls until one of that function has been closed. */
  function Exit(p: Profile, pos: nat, time: int): (q: Profile)
    requires Wf(p) && pos < |p.modules|
    ensures Wf(q) && |q.modules| == |p.modules|
    decreases |p.stack|
  {
    if |p.stack| == 1 then CloseUnmatched(p, pos, time)
    else if p.stack[|p.stack| - 1].pos == pos then CloseTop(p, time)
    else Exit(CloseTop(p, time), pos, time)
  }

  function Push(p: Profile, pos: nat, time: int): (q: Profile)
    requires Wf(p) && pos < |p.modules| && |p.stack| <= STACKSIZ
    ensures Wf(q)
  {
    p.(stack := p.stack + [Frame(pos, time, 0)])
  }

  /** At the end of the trace everything still open is closed. */
  function CloseAll(p: Profile, time: int): (q: Profile)
    requires Wf(p)
    ensures Wf(q) && |q.stack| == 1 && |q.modules| == |p.modules| && q.unmatched == p.unmatched
    decreases |p.stack|
  {
    if |p.stack| == 1 then p else CloseAll(CloseTop(p, time), time)
  }

  // --- what every record keeps ---

  function SumChildren(stack: seq<Frame>): int {
    if stack == [] then 0 else SumChildren(stack[..|stack| - 1]) + stack[|stack| - 1].children
  }

  function SumTime(modules: seq<Module>): int {
    if modules == [] then 0 else SumTime(modules[..|modules| - 1]) + modules[|modules| - 1].time
  }

  function SumCalls(modules: seq<Module>): int {
    if modules == [] then 0 else SumCalls(modules[..|modules| - 1]) + modules[|modules| - 1].calls
  }

  /**
   The total time is the time of the bottom frame plus all children times on
   the stack, and it is what the modules have been charged.
   */
  ghost predicate Balanced(p: Profile)
    requires |p.stack| >= 1
  {
    && p.totTime == p.stack[0].time + SumChildren(p.stack)
    && p.totTime == SumTime(p.modules)
    && p.totCalls == SumCalls(p.modules)
  }

  /** Enters so far are the calls charged or still open, except the unmatched exits. */
  ghost predicate Counted(p: Profile, enters: nat) {
    p.totCalls + (|p.stack| - 1) == enters + p.unmatched
  }

  lemma {:induction false} SumChildrenUpdate(stack: seq<Frame>, i: nat, f: Frame)
    requires i < |stack|
    ensures SumChildren(stack[i := f]) == SumChildren(stack) + f.children - stack[i].children
    decreases |stack|
  {
    var n := |stack| - 1;
    if i < n {
      SumChildrenUpdate(stack[..n], i, f);
      assert stack[i := f][..n] == stack[..n][i := f];
    } else {
      assert stack[i := f][..n] == stack[..n];
    }
  }

  lemma {:induction false} ChargeSums(modules: seq<Module>, pos: nat, time: int)
    requires pos < |modules|
    ensures SumTime(Charge(modules, pos, time)) == SumTime(modules) + time
    ensures SumCalls(Charge(modules, pos, time)) == SumCalls(modules) + 1
    decreases |modules|
  {
    var n := |modules| - 1;
    var m := Charge(modules, pos, time);
    if pos < n {
      ChargeSums(modules[..n], pos, time);
      assert m[..n] == Charge(modules[..n], pos, time);
    } else {
      assert m[..n] == modules[..n];
    }
  }

  lemma CloseTopKeepsBalance(p: Profile, time: int)
    requires Wf(p) && |p.stack| > 1 && Balanced(p)
    ensures Balanced(CloseTop(p, time))
  {
    var n := |p.stack| - 1;
    var f, below := p.stack[n], p.stack[n - 1];
    ChargeSums(p.modules, f.pos, time - f.time - f.children);
    SumChildrenUpdate(p.stack[..n], n - 1, below.(children := below.children + (time - f.time)));
  }

  lemma UnmatchedKeepsBalance(p: Profile, pos: nat, time: int)
    requires Wf(p) && |p.stack| == 1 && pos < |p.modules| && Balanced(p)
    ensures Balanced(CloseUnmatched(p, pos, time))
  {
    ChargeSums(p.modules, pos, time - p.stack[0].time - p.stack[0].children);
    assert p.stack[..0] == [];
  }

  /** Conservation over an exit record, matched or not. */
  lemma {:induction false} ExitKeepsBalance(p: Profile, pos: nat, time: int, enters: nat)
    requires Wf(p) && pos < |p.modules| && Balanced(p) && Counted(p, enters)
    ensures Balanced(Exit(p, pos, time)) && Counted(Exit(p, pos, time), enters)
    decreases |p.stack|
  {
    if |p.stack| == 1 {
      UnmatchedKeepsBalance(p, pos, time);
    } else {
      CloseTopKeepsBalance(p, time);
      if p.stack[|p.stack| - 1].pos != pos {
        ExitKeepsBalance(CloseTop(p, time), pos, time, enters);
      }
    }
  }

  lemma PushKeepsBalance(p: Profile, pos: nat, time: int, enters: nat)
    requires Wf(p) && pos < |p.modules| && |p.stack| <= STACKSIZ && Balanced(p) && Counted(p, enters)
    ensures Balanced(Push(p, pos, time)) && Counted(Push(p, pos, time), enters + 1)
  {
    var q := Push(p, pos, time);
    assert q.stack[..|q.stack| - 1] == p.stack;
  }

  /** After the end of the trace the totals are complete: every enter and every unmatched exit is a call. */
  lemma {:induction false} CloseAllKeepsBalance(p: Profile, time: int, enters: nat)
    requires Wf(p) && Balanced(p) && Counted(p, enters)
    ensures Balanced(CloseAll(p, time)) && CloseAll(p, time).totCalls == enters + p.unmatched
    decreases |p.stack|
  {
    if |p.stack| > 1 {
      CloseTopKeepsBalance(p, time);
      CloseAllKeepsBalance(CloseTop(p, time), time, enters);
    }
  }

  // --- records ---

  /** Feeding records; None when the stack overflows or a function is not in the table. */
  function Feed(p: Profile, records: seq<Record<nat>>): (r: Option<Profile>)
    requires Wf(p)
    ensures r.Some? ==> Wf(r.value) && |r.value.modules| == |p.modules|
    decreases |records|
  {
    if records == [] then Some(p)
    else if records[0].fn >= |p.modules| then None
    else if records[0].Enter? then
      if |p.stack| > STACKSIZ then None else Feed(Push(p, records[0].fn, records[0].time), records[1..])
    else Feed(Exit(p, records[0].fn, records[0].time), records[1..])
  }

  lemma {:induction false} FeedAppend(p: Profile, a: seq<Record<nat>>, b: seq<Record<nat>>)
    requires Wf(p)
    ensures Feed(p, a).Some? ==> Feed(p, a + b) == Feed(Feed(p, a).value, b)
    ensures Feed(p, a).None? ==> Feed(p, a + b).None?
    decreases |a|
  {
    if a == [] {
      assert a + b == b;
    } else {
      assert (a + b)[0] == a[0] && (a + b)[1..] == a[1..] + b;
      if a[0].fn < |p.modules| {
        if a[0].Leave? {
          FeedAppend(Exit(p, a[0].fn, a[0].time), a[1..], b);
        } else if |p.stack| <= STACKSIZ {
          FeedAppend(Push(p, a[0].fn, a[0].time), a[1..], b);
        }
      }
    }
  }
}
