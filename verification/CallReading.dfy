/** Every trace is that of a forest of calls, whatever records it has. */
module CallReading {
  import opened Wrappers
  import opened CallProfile
  import opened CallForest

  /** The time of the last record. */
  function LastTimeOf<F>(records: seq<Record<F>>, before: int): int {
    if records == [] then before else records[|records| - 1].time
  }

  /** The forest with the calls that are open at its end left at the given time. */
  function Until<F>(c: Calls<F>, end: int): Calls<F> {
    if c.NoCalls? then c
    else if c.next.Call? then c.(next := Until(c.next, end))
    else if c.left then c
    else c.(leave := end, inner := Until(c.inner, end))
  }

  function Entered<F>(fn: F, time: int): Calls<F> {
    Call(fn, time, time, true, false, NoCalls, NoCalls)
  }

  /** One more call, made by the innermost open one. */
  function WithEnter<F>(c: Calls<F>, fn: F, time: int): Calls<F> {
    if c.NoCalls? then Entered(fn, time)
    else if c.next.Call? then c.(next := WithEnter(c.next, fn, time))
    else if c.left then c.(next := Entered(fn, time))
    else c.(leave := time, inner := WithEnter(c.inner, fn, time))
  }

  /** The innermost open call of the function is left. */
  function WithLeave<F(==)>(c: Calls<F>, fn: F, time: int): Calls<F>
    requires OpenCall(c, fn)
  {
    if c.next.Call? then c.(next := WithLeave(c.next, fn, time))
    else if OpenCall(c.inner, fn) then c.(leave := time, inner := WithLeave(c.inner, fn, time))
    else c.(leave := time, left := true, inner := Until(c.inner, time))
  }

  /** An exit at the top: if the function has no open call, it was running since the start. */
  function TopLeave<F(==)>(c: Calls<F>, start: int, fn: F, time: int): Calls<F> {
    if c.Call? && !c.entered then c.(next := TopLeave(c.next, c.leave, fn, time))
    else if OpenCall(c, fn) then WithLeave(c, fn, time)
    else Call(fn, start, time, false, true, Until(c, time), NoCalls)
  }

  lemma Assoc<T>(a: seq<T>, b: seq<T>, c: seq<T>, d: seq<T>, e: seq<T>)
    ensures a + b + c + (d + e) == a + b + c + d + e
    ensures a + (b + e) + [] + [] == a + b + [] + [] + e
    ensures a + b + e + [] == a + b + [] + [] + e
  {
  }

  /** The records of the parts of a call. */
  function EnterRecord<F>(c: Calls<F>): seq<Record<F>>
    requires c.Call?
  {
    if c.entered then [Enter(c.fn, c.enter)] else []
  }

  function LeaveRecord<F>(c: Calls<F>): seq<Record<F>>
    requires c.Call?
  {
    if c.left then [Leave(c.fn, c.leave)] else []
  }

  lemma TraceParts<F>(c: Calls<F>)
    requires c.Call?
    ensures Trace(c) == EnterRecord(c) + Trace(c.inner) + LeaveRecord(c) + Trace(c.next)
  {
  }

  /** One more record behind the calls that follow, behind the inner calls of an open one, or its exit. */
  lemma MoreRecords<F>(c: Calls<F>, d: Calls<F>, r: Record<F>)
    requires c.Call? && d.Call? && EnterRecord(d) == EnterRecord(c)
    requires || (d.inner == c.inner && LeaveRecord(d) == LeaveRecord(c) && Trace(d.next) == Trace(c.next) + [r])
             || (Trace(d.inner) == Trace(c.inner) + [r] && !c.left && !d.left && c.next == d.next == NoCalls)
             || (Trace(d.inner) == Trace(c.inner) && !c.left && LeaveRecord(d) == [r] && c.next == d.next == NoCalls)
    ensures Trace(d) == Trace(c) + [r]
  {
    TraceParts(c);
    TraceParts(d);
    Assoc(EnterRecord(c), Trace(c.inner), LeaveRecord(c), Trace(c.next), [r]);
  }

  lemma {:induction false} UntilIs<F(!new)>(c: Calls<F>, was: int, end: int)
    requires Recorded(c, was)
    ensures Recorded(Until(c, end), end) && Trace(Until(c, end)) == Trace(c)
    ensures forall fn: F :: OpenCall(Until(c, end), fn) == OpenCall(c, fn)
    decreases c
  {
    if c.Call? {
      if c.next.Call? {
        UntilIs(c.next, was, end);
      } else if !c.left {
        UntilIs(c.inner, c.leave, end);
      }
    }
  }

  lemma {:induction false} EnterIsRecorded<F(!new)>(c: Calls<F>, was: int, fn: F, time: int)
    requires Recorded(c, was)
    ensures Recorded(WithEnter(c, fn, time), time) && Trace(WithEnter(c, fn, time)) == Trace(c) + [Enter(fn, time)]
    decreases c
  {
    if c.Call? {
      if c.next.Call? {
        EnterIsRecorded(c.next, was, fn, time);
      } else if !c.left {
        EnterIsRecorded(c.inner, c.leave, fn, time);
      }
      MoreRecords(c, WithEnter(c, fn, time), Enter(fn, time));
    }
  }

  lemma {:induction false} LeaveIsRecorded<F(!new)>(c: Calls<F>, was: int, fn: F, time: int)
    requires Recorded(c, was) && OpenCall(c, fn)
    ensures Recorded(WithLeave(c, fn, time), time) && Trace(WithLeave(c, fn, time)) == Trace(c) + [Leave(fn, time)]
    decreases c
  {
    if c.next.Call? {
      LeaveIsRecorded(c.next, was, fn, time);
    } else if OpenCall(c.inner, fn) {
      LeaveIsRecorded(c.inner, c.leave, fn, time);
    } else {
      UntilIs(c.inner, c.leave, time);
    }
    MoreRecords(c, WithLeave(c, fn, time), Leave(fn, time));
  }

  lemma {:induction false} TopEnterIsRecorded<F(!new)>(c: Calls<F>, start: int, was: int, fn: F, time: int)
    requires RecordedFrom(c, start, was)
    ensures RecordedFrom(WithEnter(c, fn, time), start, time)
    ensures Trace(WithEnter(c, fn, time)) == Trace(c) + [Enter(fn, time)]
    decreases c
  {
    if c.NoCalls? || c.entered {
      EnterIsRecorded(c, was, fn, time);
    } else {
      TopEnterIsRecorded(c.next, c.leave, was, fn, time);
      MoreRecords(c, WithEnter(c, fn, time), Enter(fn, time));
    }
  }

  lemma {:induction false} TopLeaveIsRecorded<F(!new)>(c: Calls<F>, start: int, was: int, fn: F, time: int)
    requires RecordedFrom(c, start, was)
    ensures RecordedFrom(TopLeave(c, start, fn, time), start, time)
    ensures Trace(TopLeave(c, start, fn, time)) == Trace(c) + [Leave(fn, time)]
    decreases c
  {
    var d := TopLeave(c, start, fn, time);
    if c.Call? && !c.entered {
      TopLeaveIsRecorded(c.next, c.leave, was, fn, time);
      MoreRecords(c, d, Leave(fn, time));
    } else if OpenCall(c, fn) {
      LeaveIsRecorded(c, was, fn, time);
    } else {
      UntilIs(c, was, time);
      assert Trace(d) == [] + Trace(c) + [Leave(fn, time)] + [];
    }
  }

  /** Every trace is that of some forest of calls that was recorded from time 0 on. */
  lemma {:induction false} EveryTraceIsOfForest<F(!new)>(records: seq<Record<F>>) returns (c: Calls<F>)
    ensures Trace(c) == records && RecordedFrom(c, 0, LastTimeOf(records, 0))
    decreases |records|
  {
    if records == [] {
      c := NoCalls;
    } else {
      var n := |records| - 1;
      var before, r := records[..n], records[n];
      c := EveryTraceIsOfForest(before);
      assert records == before + [r];
      if r.Enter? {
        TopEnterIsRecorded(c, 0, LastTimeOf(before, 0), r.fn, r.time);
        c := WithEnter(c, r.fn, r.time);
      } else {
        TopLeaveIsRecorded(c, 0, LastTimeOf(before, 0), r.fn, r.time);
        c := TopLeave(c, 0, r.fn, r.time);
      }
    }
  }
}
