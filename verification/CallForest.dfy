/**
 The calls behind a trace, as a forest, and what the analyser charges for it.
 Exit records may be missing, where a function left by a jump or the program
 ended, and so may the enter records of functions that were running when the
 trace began.
 */
module CallForest {
  import opened Wrappers
  import opened CallProfile

  /** A forest of calls; entered and left tell which records of a call the trace has. */
  datatype Calls<F> =
    | NoCalls
    | Call(fn: F, enter: int, leave: int, entered: bool, left: bool, inner: Calls<F>, next: Calls<F>)

  function Trace<F>(c: Calls<F>): seq<Record<F>> {
    match c
    case NoCalls => []
    case Call(fn, enter, leave, entered, left, inner, next) =>
      (if entered then [Enter(fn, enter)] else []) + Trace(inner) + (if left then [Leave(fn, leave)] else [])
      + Trace(next)
  }

  /** Total duration of the outermost calls. */
  function Duration<F>(c: Calls<F>): int {
    if c.NoCalls? then 0 else (c.leave - c.enter) + Duration(c.next)
  }

  /** Own time of a function: over its calls, the duration less that of the direct children. */
  function OwnTime<F(==)>(c: Calls<F>, fn: F): int {
    if c.NoCalls? then 0
    else
      (if c.fn == fn then (c.leave - c.enter) - Duration(c.inner) else 0)
      + OwnTime(c.inner, fn) + OwnTime(c.next, fn)
  }

  function CallCount<F(==)>(c: Calls<F>, fn: F): nat {
    if c.NoCalls? then 0
    else (if c.fn == fn then 1 else 0) + CallCount(c.inner, fn) + CallCount(c.next, fn)
  }

  /** How many calls that were entered are open at once. */
  function Height<F>(c: Calls<F>): nat {
    if c.NoCalls? then 0
    else
      var inner := Height(c.inner) + if c.entered then 1 else 0;
      if inner > Height(c.next) then inner else Height(c.next)
  }

  predicate Known(c: Calls<nat>, count: nat) {
    c.NoCalls? || (c.fn < count && Known(c.inner, count) && Known(c.next, count))
  }

  /** Some call of the function has no exit record by the end of the trace of c. */
  predicate OpenCall<F(==)>(c: Calls<F>, fn: F) {
    && c.Call?
    && if c.next.Call? then OpenCall(c.next, fn) else !c.left && (c.fn == fn || OpenCall(c.inner, fn))
  }

  /**
   All calls were entered. One without an exit record was left when its caller
   was, or, at the end of the forest, at the given time; an exit record is that
   of the innermost open call of its function.
   */
  predicate Recorded<F(==)>(c: Calls<F>, end: int) {
    c.Call? ==>
      && c.entered && Recorded(c.inner, c.leave)
      && if c.left then !OpenCall(c.inner, c.fn) && Recorded(c.next, end) else c.next.NoCalls? && c.leave == end
  }

  /**
   The same at the top, where calls may not have been entered: such a call went
   on since the start, or since the one before it was left, and all calls since
   then were made from it.
   */
  predicate RecordedFrom<F(==)>(c: Calls<F>, start: int, end: int) {
    if c.NoCalls? || c.entered then Recorded(c, end)
    else
      && c.left && c.enter == start && Recorded(c.inner, c.leave) && !OpenCall(c.inner, c.fn)
      && RecordedFrom(c.next, c.leave, end)
  }

  // --- closing calls ---

  /** Close the calls above a depth. */
  function CloseTo(p: Profile, depth: nat, time: int): (q: Profile)
    requires Wf(p) && 1 <= depth
    ensures Wf(q) && |q.modules| == |p.modules| && |q.stack| == if |p.stack| > depth then depth else |p.stack|
    decreases |p.stack|
  {
    if |p.stack| <= depth then p else CloseTo(CloseTop(p, time), depth, time)
  }

  lemma {:induction false} CloseAllIsCloseTo(p: Profile, time: int)
    requires Wf(p)
    ensures CloseAll(p, time) == CloseTo(p, 1, time)
    decreases |p.stack|
  {
    if |p.stack| > 1 {
      CloseAllIsCloseTo(CloseTop(p, time), time);
    }
  }

  lemma {:induction false} CloseOneMore(p: Profile, depth: nat, time: int)
    requires Wf(p) && 1 <= depth < |p.stack|
    ensures CloseTo(p, depth, time) == CloseTop(CloseTo(p, depth + 1, time), time)
    ensures CloseTo(p, depth + 1, time).stack[depth].pos == p.stack[depth].pos
    decreases |p.stack|
  {
    if |p.stack| > depth + 1 {
      CloseOneMore(CloseTop(p, time), depth, time);
    }
  }

  /** No frame from the depth on is one of the function. */
  ghost predicate NoneFrom(p: Profile, depth: nat, fn: nat) {
    forall i :: depth <= i < |p.stack| ==> p.stack[i].pos != fn
  }

  /** An exit closes what is above the innermost open call of its function, and that call. */
  lemma {:induction false} ExitClosesTo(p: Profile, depth: nat, fn: nat, time: int)
    requires Wf(p) && 1 <= depth < |p.stack| && fn < |p.modules|
    requires p.stack[depth].pos == fn && NoneFrom(p, depth + 1, fn)
    ensures Exit(p, fn, time) == CloseTop(CloseTo(p, depth + 1, time), time)
    decreases |p.stack|
  {
    if |p.stack| > depth + 1 {
      ExitClosesTo(CloseTop(p, time), depth, fn, time);
    }
  }

  /** An exit of a function without an open call closes everything. */
  lemma {:induction false} ExitClosesAll(p: Profile, fn: nat, time: int)
    requires Wf(p) && fn < |p.modules| && NoneFrom(p, 1, fn)
    ensures Exit(p, fn, time) == CloseUnmatched(CloseTo(p, 1, time), fn, time)
    decreases |p.stack|
  {
    if |p.stack| > 1 {
      ExitClosesAll(CloseTop(p, time), fn, time);
    }
  }

  // --- what is charged ---

  function ChargedModule(m: Module, c: Calls<nat>, i: nat): Module {
    Module(m.time + OwnTime(c, i), m.calls + CallCount(c, i))
  }

  ghost predicate ModulesCharged(p: Profile, c: Calls<nat>, q: Profile) {
    && |q.modules| == |p.modules|
    && forall i: nat :: i < |p.modules| ==> q.modules[i] == ChargedModule(p.modules[i], c, i)
  }

  /** q is p with the calls of c charged. */
  ghost predicate Charged(p: Profile, c: Calls<nat>, q: Profile)
    requires |p.stack| >= 1
  {
    var n := |p.stack| - 1;
    && q.stack == p.stack[n := p.stack[n].(children := p.stack[n].children + Duration(c))]
    && ModulesCharged(p, c, q)
  }

  /** Closing a call after its children were charged. */
  lemma CallCharged(p: Profile, c: Calls<nat>, p2: Profile)
    requires Wf(p) && c.Call? && c.fn < |p.modules| && |p.stack| <= STACKSIZ
    requires Wf(p2) && Charged(Push(p, c.fn, c.enter), c.inner, p2)
    ensures Charged(p, c.(next := NoCalls), CloseTop(p2, c.leave))
  {
    var n := |p.stack| - 1;
    assert p2.stack[n + 1] == Frame(c.fn, c.enter, Duration(c.inner));
    assert p2.stack[..n + 1] == p.stack;
    var p3 := CloseTop(p2, c.leave);
    assert Duration(c.(next := NoCalls)) == c.leave - c.enter;
    OneCharged(p, c, p2, p3, (c.leave - c.enter) - Duration(c.inner));
  }

  lemma OneCharged(p: Profile, c: Calls<nat>, p2: Profile, p3: Profile, own: int)
    requires c.Call? && c.fn < |p.modules| && ModulesCharged(p, c.inner, p2)
    requires own == (c.leave - c.enter) - Duration(c.inner) && p3.modules == Charge(p2.modules, c.fn, own)
    ensures ModulesCharged(p, c.(next := NoCalls), p3)
  {
    forall i: nat | i < |p.modules|
      ensures p3.modules[i] == ChargedModule(p.modules[i], c.(next := NoCalls), i)
    {
      OneCall(c, i);
      assert p2.modules[i] == ChargedModule(p.modules[i], c.inner, i);
    }
  }

  lemma OneCall(c: Calls<nat>, i: nat)
    requires c.Call?
    ensures var one, own := c.(next := NoCalls), (c.leave - c.enter) - Duration(c.inner);
            && OwnTime(one, i) == OwnTime(c.inner, i) + (if c.fn == i then own else 0)
            && CallCount(one, i) == CallCount(c.inner, i) + (if c.fn == i then 1 else 0)
  {
  }

  /** First one call, then the calls after it. */
  lemma ModulesThen(p: Profile, c: Calls<nat>, p3: Profile, q: Profile)
    requires c.Call? && ModulesCharged(p, c.(next := NoCalls), p3) && ModulesCharged(p3, c.next, q)
    ensures ModulesCharged(p, c, q)
  {
    forall i: nat | i < |p.modules|
      ensures q.modules[i] == ChargedModule(p.modules[i], c, i)
    {
      assert OwnTime(c, i) == OwnTime(c.(next := NoCalls), i) + OwnTime(c.next, i);
      assert CallCount(c, i) == CallCount(c.(next := NoCalls), i) + CallCount(c.next, i);
    }
  }

  lemma ChargedThen(p: Profile, c: Calls<nat>, p3: Profile, q: Profile)
    requires |p.stack| >= 1 && c.Call? && Charged(p, c.(next := NoCalls), p3) && Charged(p3, c.next, q)
    ensures Charged(p, c, q)
  {
    var n := |p.stack| - 1;
    ModulesThen(p, c, p3, q);
    assert Duration(c) == Duration(c.(next := NoCalls)) + Duration(c.next);
    assert q.stack == p.stack[n := p.stack[n].(children := p.stack[n].children + Duration(c))];
  }

  // --- feeding a trace ---

  /** The frames above those of p are of calls without an exit record. */
  ghost predicate OpenAbove(p: Profile, c: Calls<nat>, q: Profile) {
    |q.stack| >= |p.stack| && forall i :: |p.stack| <= i < |q.stack| ==> OpenCall(c, q.stack[i].pos)
  }

  /** Reading c from p, and closing what is then open, charges c. */
  ghost predicate Fed(p: Profile, c: Calls<nat>, end: int)
    requires Wf(p)
  {
    var r := Feed(p, Trace(c));
    && r.Some? && OpenAbove(p, c, r.value)
    && Charged(p, c, CloseTo(r.value, |p.stack|, end))
  }

  /** The state behind the first call, and behind its inner calls. */
  lemma FeedFirst(p: Profile, c: Calls<nat>)
    requires Wf(p) && c.Call? && c.entered && c.fn < |p.modules|
    ensures |p.stack| > STACKSIZ ==> Feed(p, Trace(c)).None?
    ensures |p.stack| <= STACKSIZ ==>
              var p1 := Push(p, c.fn, c.enter);
              var r := Feed(p1, Trace(c.inner));
              && (r.None? ==> Feed(p, Trace(c)).None?)
              && (r.Some? ==>
                    var p3 := if c.left then Exit(r.value, c.fn, c.leave) else r.value;
                    Feed(p, Trace(c)) == Feed(p3, Trace(c.next)))
  {
    var enter, leave := [Enter(c.fn, c.enter)], if c.left then [Leave(c.fn, c.leave)] else [];
    FeedAppend(p, enter, Trace(c.inner));
    FeedAppend(p, enter + Trace(c.inner), leave);
    FeedAppend(p, enter + Trace(c.inner) + leave, Trace(c.next));
    assert enter[1..] == [] && (c.left ==> leave[1..] == []);
  }

  lemma {:induction false} ForestIsFed(p: Profile, c: Calls<nat>, end: int)
    requires Wf(p) && Known(c, |p.modules|) && Recorded(c, end) && |p.stack| + Height(c) <= STACKSIZ + 1
    ensures Fed(p, c, end)
    decreases c
  {
    if c.Call? {
      FeedFirst(p, c);
      var p1 := Push(p, c.fn, c.enter);
      ForestIsFed(p1, c.inner, c.leave);
      var p2 := Feed(p1, Trace(c.inner)).value;
      if c.left {
        LeftIsFed(p, c, p2);
        var p3 := Exit(p2, c.fn, c.leave);
        ForestIsFed(p3, c.next, end);
        ChargedThen(p, c, p3, CloseTo(Feed(p3, Trace(c.next)).value, |p3.stack|, end));
      } else {
        OpenIsFed(p, c, p2);
      }
    }
  }

  /** What is on the stack in a call that was entered at p. */
  lemma InCall(p: Profile, c: Calls<nat>, p2: Profile)
    requires Wf(p) && c.Call? && c.fn < |p.modules| && |p.stack| <= STACKSIZ && Wf(p2)
    requires OpenAbove(Push(p, c.fn, c.enter), c.inner, p2)
    requires Charged(Push(p, c.fn, c.enter), c.inner, CloseTo(p2, |p.stack| + 1, c.leave))
    ensures p2.stack[|p.stack|].pos == c.fn && |p2.modules| == |p.modules|
    ensures CloseTo(p2, |p.stack|, c.leave) == CloseTop(CloseTo(p2, |p.stack| + 1, c.leave), c.leave)
  {
    CloseOneMore(p2, |p.stack|, c.leave);
  }

  lemma LeftIsFed(p: Profile, c: Calls<nat>, p2: Profile)
    requires Wf(p) && c.Call? && c.left && c.fn < |p.modules| && |p.stack| <= STACKSIZ && Wf(p2)
    requires OpenAbove(Push(p, c.fn, c.enter), c.inner, p2) && !OpenCall(c.inner, c.fn)
    requires Charged(Push(p, c.fn, c.enter), c.inner, CloseTo(p2, |p.stack| + 1, c.leave))
    ensures |p2.modules| == |p.modules| && Charged(p, c.(next := NoCalls), Exit(p2, c.fn, c.leave))
  {
    InCall(p, c, p2);
    ExitClosesTo(p2, |p.stack|, c.fn, c.leave);
    CallCharged(p, c, CloseTo(p2, |p.stack| + 1, c.leave));
  }

  lemma OpenIsFed(p: Profile, c: Calls<nat>, p2: Profile)
    requires Wf(p) && c.Call? && !c.left && c.next.NoCalls? && c.fn < |p.modules| && |p.stack| <= STACKSIZ && Wf(p2)
    requires OpenAbove(Push(p, c.fn, c.enter), c.inner, p2)
    requires Charged(Push(p, c.fn, c.enter), c.inner, CloseTo(p2, |p.stack| + 1, c.leave))
    ensures OpenAbove(p, c, p2) && Charged(p, c, CloseTo(p2, |p.stack|, c.leave))
  {
    InCall(p, c, p2);
    CallCharged(p, c, CloseTo(p2, |p.stack| + 1, c.leave));
    assert c.(next := NoCalls) == c;
  }

  /** A forest that is higher than the stack has room for is not read to its end. */
  lemma {:induction false} TraceOverflows(p: Profile, c: Calls<nat>, end: int)
    requires Wf(p) && Known(c, |p.modules|) && Recorded(c, end) && |p.stack| + Height(c) > STACKSIZ + 1
    ensures Feed(p, Trace(c)).None?
    decreases c
  {
    if c.Call? {
      FeedFirst(p, c);
      if |p.stack| <= STACKSIZ {
        var p1 := Push(p, c.fn, c.enter);
        if |p1.stack| + Height(c.inner) > STACKSIZ + 1 {
          TraceOverflows(p1, c.inner, c.leave);
        } else {
          ForestIsFed(p1, c.inner, c.leave);
          var p2 := Feed(p1, Trace(c.inner)).value;
          if c.left {
            LeftIsFed(p, c, p2);
            TraceOverflows(Exit(p2, c.fn, c.leave), c.next, end);
          }
        }
      }
    }
  }

  // --- a whole trace ---

  /** Nothing is open, and the bottom frame waits since the start. */
  ghost predicate AtRest(p: Profile, start: int) {
    |p.stack| == 1 && p.stack[0].time == start && p.stack[0].children == 0
  }

  /** An exit without an enter record: the function is charged since the start, without the calls since then. */
  lemma UnmatchedCharged(p: Profile, c: Calls<nat>, p2: Profile)
    requires Wf(p) && c.Call? && AtRest(p, c.enter) && c.fn < |p.modules| && Wf(p2)
    requires OpenAbove(p, c.inner, p2) && !OpenCall(c.inner, c.fn) && Charged(p, c.inner, CloseTo(p2, 1, c.leave))
    ensures |p2.modules| == |p.modules| && AtRest(Exit(p2, c.fn, c.leave), c.leave)
    ensures ModulesCharged(p, c.(next := NoCalls), Exit(p2, c.fn, c.leave))
  {
    assert NoneFrom(p2, 1, c.fn);
    ExitClosesAll(p2, c.fn, c.leave);
    UnmatchedIs(p, c, CloseTo(p2, 1, c.leave));
  }

  lemma UnmatchedIs(p: Profile, c: Calls<nat>, p3: Profile)
    requires c.Call? && |p.stack| == 1 && AtRest(p, c.enter) && c.fn < |p.modules| && Wf(p3)
    requires Charged(p, c.inner, p3)
    ensures var q := CloseUnmatched(p3, c.fn, c.leave); AtRest(q, c.leave) && ModulesCharged(p, c.(next := NoCalls), q)
  {
    var q := CloseUnmatched(p3, c.fn, c.leave);
    OneCharged(p, c, p3, q, (c.leave - c.enter) - Duration(c.inner));
  }

  lemma FeedUnentered(p: Profile, c: Calls<nat>)
    requires Wf(p) && c.Call? && !c.entered && c.left && c.fn < |p.modules|
    ensures var r := Feed(p, Trace(c.inner));
            && (r.None? ==> Feed(p, Trace(c)).None?)
            && (r.Some? ==> Feed(p, Trace(c)) == Feed(Exit(r.value, c.fn, c.leave), Trace(c.next)))
  {
    var inner, leave := Trace(c.inner), [Leave(c.fn, c.leave)];
    assert [] + inner == inner;
    FeedAppend(p, inner, leave);
    FeedAppend(p, inner + leave, Trace(c.next));
    assert leave[1..] == [];
  }

  /**
   The trace of any forest is read to its end if and only if the stack has room
   for its height; with what is open then closed at the end, every function has
   been charged its own time and its calls.
   */
  lemma {:induction false} TraceIsCharged(p: Profile, c: Calls<nat>, start: int, end: int)
    requires Wf(p) && AtRest(p, start) && Known(c, |p.modules|) && RecordedFrom(c, start, end)
    ensures Feed(p, Trace(c)).Some? <==> Height(c) <= STACKSIZ
    ensures Feed(p, Trace(c)).Some? ==> ModulesCharged(p, c, CloseAll(Feed(p, Trace(c)).value, end))
    decreases c
  {
    if c.NoCalls? || c.entered {
      if Height(c) <= STACKSIZ {
        ForestIsFed(p, c, end);
        CloseAllIsCloseTo(Feed(p, Trace(c)).value, end);
      } else {
        TraceOverflows(p, c, end);
      }
    } else {
      FeedUnentered(p, c);
      if Height(c.inner) > STACKSIZ {
        TraceOverflows(p, c.inner, c.leave);
      } else {
        ForestIsFed(p, c.inner, c.leave);
        var p2 := Feed(p, Trace(c.inner)).value;
        UnmatchedCharged(p, c, p2);
        var p3 := Exit(p2, c.fn, c.leave);
        TraceIsCharged(p3, c.next, c.leave, end);
        if Height(c.next) <= STACKSIZ {
          ModulesThen(p, c, p3, CloseAll(Feed(p3, Trace(c.next)).value, end));
        }
      }
    }
  }
}
