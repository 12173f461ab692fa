/**
 What a trace file means to dbug_analyze: names are listed as they turn up, and
 the records are fed to the stack of open calls.
 */
module ProfileTrace {
  import opened Wrappers
  import opened CallProfile
  import opened CallForest
  import opened CallReading
  import opened NameTree

  /** A line of the trace file. */
  datatype TraceRecord = E(time: int, name: string) | X(time: int, name: string) | Unknown

  /** The names listed so far, one for each module, and the profile. */
  datatype Book = Book(names: seq<string>, p: Profile)

  const EMPTY := Book([], Profile([Frame(0, 0, 0)], [], 0, 0, 0))

  ghost predicate Distinct(names: seq<string>) {
    names == [] || (names[|names| - 1] !in names[..|names| - 1] && Distinct(names[..|names| - 1]))
  }

  ghost predicate BookOk(b: Book) {
    Wf(b.p) && |b.names| == |b.p.modules| <= MAXPROCS && Distinct(b.names)
  }

  function With(names: seq<string>, name: string): seq<string> {
    if name in names then names else names + [name]
  }

  /** Where the name is listed; behind the list if it is not. */
  function IndexOf(names: seq<string>, name: string): (i: nat)
    ensures if name in names then i < |names| && names[i] == name else i == |names|
  {
    if names == [] then 0 else if names[0] == name then 0 else 1 + IndexOf(names[1..], name)
  }

  function Zeros(n: nat): seq<Module> {
    seq(n, (_: nat) => Module(0, 0))
  }

  /** The profile with n more modules. */
  function Padded(p: Profile, n: nat): Profile {
    p.(modules := p.modules + Zeros(n))
  }

  /** The name is listed, with a module of its own. */
  function Listed(b: Book, name: string): Book {
    Book(With(b.names, name), Padded(b.p, |With(b.names, name)| - |b.names|))
  }

  lemma ListedOk(b: Book, name: string)
    requires BookOk(b) && (name in b.names || |b.names| < MAXPROCS)
    ensures BookOk(Listed(b, name)) && name in Listed(b, name).names
  {
    if name !in b.names {
      assert (b.names + [name])[..|b.names|] == b.names;
    }
  }

  /** One record; None when a new name finds the table full, or an enter record the stack. */
  ghost function ReadOne(b: Book, r: TraceRecord): (b': Option<Book>)
    requires BookOk(b)
    ensures b'.Some? ==> BookOk(b'.value)
  {
    if r.Unknown? then Some(b)
    else if r.name !in b.names && |b.names| == MAXPROCS then None
    else
      ListedOk(b, r.name);
      var l := Listed(b, r.name);
      var pos := IndexOf(l.names, r.name);
      if r.X? then Some(l.(p := Exit(l.p, pos, r.time)))
      else if |l.p.stack| > STACKSIZ then None
      else Some(l.(p := Push(l.p, pos, r.time)))
  }

  ghost function Read(b: Book, trace: seq<TraceRecord>): (b': Option<Book>)
    requires BookOk(b)
    ensures b'.Some? ==> BookOk(b'.value)
    decreases |trace|
  {
    if trace == [] then Some(b)
    else
      var b1 := ReadOne(b, trace[0]);
      if b1.None? then None else Read(b1.value, trace[1..])
  }

  /** The time of the last record, for calls still open at the end. */
  function LastTime(trace: seq<TraceRecord>, before: int): int {
    if trace == [] then before
    else LastTime(trace[1..], if trace[0].Unknown? then before else trace[0].time)
  }

  // --- conservation ---

  function Enters(trace: seq<TraceRecord>): nat {
    if trace == [] then 0 else (if trace[0].E? then 1 else 0) + Enters(trace[1..])
  }

  lemma {:induction false} PaddedSums(mods: seq<Module>, n: nat)
    ensures SumTime(mods + Zeros(n)) == SumTime(mods) && SumCalls(mods + Zeros(n)) == SumCalls(mods)
  {
    if n == 0 {
      assert mods + Zeros(n) == mods;
    } else {
      PaddedSums(mods, n - 1);
      assert (mods + Zeros(n))[..|mods| + n - 1] == mods + Zeros(n - 1);
    }
  }

  /** After every record of any trace time and calls are balanced. */
  lemma ReadOneKeepsBalance(b: Book, r: TraceRecord, enters: nat)
    requires BookOk(b) && Balanced(b.p) && Counted(b.p, enters) && ReadOne(b, r).Some?
    ensures var b' := ReadOne(b, r).value; Balanced(b'.p) && Counted(b'.p, enters + (if r.E? then 1 else 0))
  {
    if !r.Unknown? {
      ListedOk(b, r.name);
      var l := Listed(b, r.name);
      var pos := IndexOf(l.names, r.name);
      PaddedSums(b.p.modules, |l.names| - |b.names|);
      if r.X? {
        ExitKeepsBalance(l.p, pos, r.time, enters);
      } else {
        PushKeepsBalance(l.p, pos, r.time, enters);
      }
    }
  }

  lemma {:induction false} ReadKeepsBalance(b: Book, trace: seq<TraceRecord>, enters: nat)
    requires BookOk(b) && Balanced(b.p) && Counted(b.p, enters) && Read(b, trace).Some?
    ensures var b' := Read(b, trace).value; Balanced(b'.p) && Counted(b'.p, enters + Enters(trace))
    decreases |trace|
  {
    if trace != [] {
      ReadOneKeepsBalance(b, trace[0], enters);
      ReadKeepsBalance(ReadOne(b, trace[0]).value, trace[1..], enters + (if trace[0].E? then 1 else 0));
    }
  }

  // --- the same with all names listed in advance ---

  function ListNames(names: seq<string>, trace: seq<TraceRecord>): (all: seq<string>)
    ensures names <= all
    decreases |trace|
  {
    if trace == [] then names
    else ListNames(if trace[0].Unknown? then names else With(names, trace[0].name), trace[1..])
  }

  function ResolvedOne(r: TraceRecord, names: seq<string>): seq<Record<nat>> {
    match r
    case Unknown => []
    case E(time, name) => [Enter(IndexOf(names, name), time)]
    case X(time, name) => [Leave(IndexOf(names, name), time)]
  }

  function Resolved(trace: seq<TraceRecord>, names: seq<string>): seq<Record<nat>> {
    if trace == [] then [] else ResolvedOne(trace[0], names) + Resolved(trace[1..], names)
  }

  lemma {:induction false} ExitPadded(p: Profile, n: nat, pos: nat, time: int)
    requires Wf(p) && pos < |p.modules|
    ensures Wf(Padded(p, n)) && Exit(Padded(p, n), pos, time) == Padded(Exit(p, pos, time), n)
    decreases |p.stack|
  {
    ChargePadded(p.modules, n);
    if |p.stack| > 1 {
      assert CloseTop(Padded(p, n), time) == Padded(CloseTop(p, time), n);
      if p.stack[|p.stack| - 1].pos != pos {
        ExitPadded(CloseTop(p, time), n, pos, time);
      }
    }
  }

  lemma ChargePadded(mods: seq<Module>, n: nat)
    ensures forall pos: nat, time: int :: pos < |mods| ==>
              Charge(mods + Zeros(n), pos, time) == Charge(mods, pos, time) + Zeros(n)
  {
  }

  lemma PaddedTwice(p: Profile, m: nat, n: nat)
    ensures Padded(Padded(p, m), n) == Padded(p, m + n)
  {
    assert p.modules + Zeros(m) + Zeros(n) == p.modules + Zeros(m + n);
  }

  /** The index of a name does not change when names are added behind it. */
  lemma {:induction false} IndexStays(names: seq<string>, all: seq<string>, name: string)
    requires names <= all && name in names
    ensures IndexOf(all, name) == IndexOf(names, name)
  {
    if names[0] != name {
      IndexStays(names[1..], all[1..], name);
    }
  }

  /** What reading a trace comes to: all its names must fit, then it is the feed of its records. */
  ghost function AtOnce(b: Book, trace: seq<TraceRecord>): Option<Book>
    requires BookOk(b)
  {
    var all := ListNames(b.names, trace);
    FedBook(all, Padded(b.p, |all| - |b.names|), Resolved(trace, all))
  }

  ghost function FedBook(all: seq<string>, p: Profile, records: seq<Record<nat>>): Option<Book>
    requires Wf(p)
  {
    if |all| > MAXPROCS || Feed(p, records).None? then None else Some(Book(all, Feed(p, records).value))
  }

  lemma {:induction false} ReadIsFeed(b: Book, trace: seq<TraceRecord>)
    requires BookOk(b)
    ensures Read(b, trace) == AtOnce(b, trace)
    decreases |trace|
  {
    if trace == [] {
      assert b.p.modules + Zeros(0) == b.p.modules;
    } else if trace[0].Unknown? {
      ReadIsFeed(b, trace[1..]);
      SkipUnknown(trace, ListNames(b.names, trace));
    } else if trace[0].name in b.names || |b.names| < MAXPROCS {
      ReadFirst(b, trace);
    } else {
      assert With(b.names, trace[0].name) <= ListNames(b.names, trace);
    }
  }

  lemma SkipUnknown(trace: seq<TraceRecord>, names: seq<string>)
    requires trace != [] && trace[0].Unknown?
    ensures Resolved(trace, names) == Resolved(trace[1..], names)
  {
  }

  lemma {:induction false} ReadFirst(b: Book, trace: seq<TraceRecord>)
    requires BookOk(b) && trace != [] && !trace[0].Unknown? && (trace[0].name in b.names || |b.names| < MAXPROCS)
    ensures Read(b, trace) == AtOnce(b, trace)
    decreases |trace|, 0
  {
    var r := trace[0];
    ListedOk(b, r.name);
    var l := Listed(b, r.name);
    var pos := IndexOf(l.names, r.name);
    if r.X? {
      ReadIsFeed(l.(p := Exit(l.p, pos, r.time)), trace[1..]);
      AtOnceLeave(b, l, trace, pos);
    } else if |l.p.stack| <= STACKSIZ {
      ReadIsFeed(l.(p := Push(l.p, pos, r.time)), trace[1..]);
      AtOnceEnter(b, l, trace, pos);
    } else {
      AtOnceEnter(b, l, trace, pos);
    }
  }

  /** The first record and the rest, with the names of the whole trace. */
  lemma SplitTrace(b: Book, l: Book, trace: seq<TraceRecord>, pos: nat) returns (all: seq<string>, p: Profile)
    requires BookOk(b) && BookOk(l) && trace != [] && !trace[0].Unknown? && l == Listed(b, trace[0].name)
    requires pos == IndexOf(l.names, trace[0].name) && trace[0].name in l.names
    ensures all == ListNames(b.names, trace) == ListNames(l.names, trace[1..]) && l.names <= all
    ensures p == Padded(l.p, |all| - |l.names|) == Padded(b.p, |all| - |b.names|) && Wf(p) && pos < |p.modules|
    ensures var first := if trace[0].X? then Leave(pos, trace[0].time) else Enter(pos, trace[0].time);
            Resolved(trace, all) == [first] + Resolved(trace[1..], all)
  {
    all := ListNames(l.names, trace[1..]);
    IndexStays(l.names, all, trace[0].name);
    p := Padded(l.p, |all| - |l.names|);
    PaddedTwice(b.p, |l.names| - |b.names|, |all| - |l.names|);
  }

  lemma AtOnceLeave(b: Book, l: Book, trace: seq<TraceRecord>, pos: nat)
    requires BookOk(b) && BookOk(l) && trace != [] && trace[0].X? && l == Listed(b, trace[0].name)
    requires pos == IndexOf(l.names, trace[0].name) && trace[0].name in l.names
    ensures AtOnce(b, trace) == AtOnce(l.(p := Exit(l.p, pos, trace[0].time)), trace[1..])
  {
    var all, p := SplitTrace(b, l, trace, pos);
    var n, time, tail := |all| - |l.names|, trace[0].time, Resolved(trace[1..], all);
    ExitPadded(l.p, n, pos, time);
    FeedOne(p, Leave(pos, time), tail);
    assert AtOnce(l.(p := Exit(l.p, pos, time)), trace[1..]) == FedBook(all, Padded(Exit(l.p, pos, time), n), tail);
  }

  lemma AtOnceEnter(b: Book, l: Book, trace: seq<TraceRecord>, pos: nat)
    requires BookOk(b) && BookOk(l) && trace != [] && trace[0].E? && l == Listed(b, trace[0].name)
    requires pos == IndexOf(l.names, trace[0].name) && trace[0].name in l.names
    ensures AtOnce(b, trace) ==
            if |l.p.stack| > STACKSIZ then None else AtOnce(l.(p := Push(l.p, pos, trace[0].time)), trace[1..])
  {
    var all, p := SplitTrace(b, l, trace, pos);
    var n, time, tail := |all| - |l.names|, trace[0].time, Resolved(trace[1..], all);
    FeedOne(p, Enter(pos, time), tail);
    assert AtOnce(b, trace) == FedBook(all, p, [Enter(pos, time)] + tail);
    if |l.p.stack| <= STACKSIZ {
      var pushed := l.(p := Push(l.p, pos, time));
      assert Push(p, pos, time) == Padded(pushed.p, n);
      assert AtOnce(pushed, trace[1..]) == FedBook(all, Padded(pushed.p, n), tail);
    }
  }

  lemma FeedOne(p: Profile, r: Record<nat>, records: seq<Record<nat>>)
    requires Wf(p) && r.fn < |p.modules|
    ensures Feed(p, [r] + records) ==
            if r.Leave? then Feed(Exit(p, r.fn, r.time), records)
            else if |p.stack| > STACKSIZ then None else Feed(Push(p, r.fn, r.time), records)
  {
    assert ([r] + records)[1..] == records;
  }

  // --- the records that are understood ---

  function LoggedOne(r: TraceRecord): seq<Record<string>> {
    match r
    case Unknown => []
    case E(time, name) => [Enter(name, time)]
    case X(time, name) => [Leave(name, time)]
  }

  function Logged(trace: seq<TraceRecord>): seq<Record<string>> {
    if trace == [] then [] else LoggedOne(trace[0]) + Logged(trace[1..])
  }

  lemma {:induction false} LastTimeIs(trace: seq<TraceRecord>, before: int)
    ensures LastTime(trace, before) == LastTimeOf(Logged(trace), before)
    decreases |trace|
  {
    if trace != [] {
      LastTimeIs(trace[1..], if trace[0].Unknown? then before else trace[0].time);
    }
  }

  /** Every trace is that of some forest of named calls, recorded from time 0 to the last record. */
  lemma TraceHasForest(trace: seq<TraceRecord>) returns (c: Calls<string>)
    ensures IsTraceOf(trace, c)
  {
    c := EveryTraceIsOfForest(Logged(trace));
    LastTimeIs(trace, 0);
  }

  function NamesIn(records: seq<Record<string>>): set<string> {
    set i | 0 <= i < |records| :: records[i].fn
  }

  lemma NamesInSum(a: seq<Record<string>>, b: seq<Record<string>>)
    ensures NamesIn(a + b) == NamesIn(a) + NamesIn(b)
  {
    assert forall i :: 0 <= i < |a| ==> (a + b)[i] == a[i];
    assert forall i :: 0 <= i < |b| ==> (a + b)[|a| + i] == b[i];
  }

  lemma FirstName(r: TraceRecord, more: seq<Record<string>>)
    ensures NamesIn(LoggedOne(r) + more) == (if r.Unknown? then {} else {r.name}) + NamesIn(more)
  {
    NamesInSum(LoggedOne(r), more);
    if !r.Unknown? {
      assert NamesIn(LoggedOne(r)) == {LoggedOne(r)[0].fn};
    }
  }

  /** Exactly the names of the trace are listed, each once. */
  lemma {:induction false} NamesListed(names: seq<string>, trace: seq<TraceRecord>)
    requires Distinct(names)
    ensures var all := ListNames(names, trace);
            Distinct(all) && forall n :: n in all <==> n in names || n in NamesIn(Logged(trace))
    decreases |trace|
  {
    if trace != [] {
      var r := trace[0];
      FirstName(r, Logged(trace[1..]));
      if !r.Unknown? {
        WithOne(names, r.name);
      }
      NamesListed(if r.Unknown? then names else With(names, r.name), trace[1..]);
    }
  }

  lemma WithOne(names: seq<string>, name: string)
    requires Distinct(names)
    ensures Distinct(With(names, name)) && forall n :: n in With(names, name) <==> n in names || n == name
  {
    assert (names + [name])[..|names|] == names;
  }

  lemma {:induction false} CountNames(names: seq<string>, s: set<string>)
    requires Distinct(names) && forall n :: n in names <==> n in s
    ensures |names| == |s|
  {
    if names == [] {
      assert s == {};
    } else {
      var k := |names| - 1;
      CountNames(names[..k], s - {names[k]});
    }
  }

  // --- call forests ---

  function Functions(c: Calls<string>): set<string> {
    if c.NoCalls? then {} else {c.fn} + Functions(c.inner) + Functions(c.next)
  }

  /** Each call has a record in the trace. */
  predicate Noticed(c: Calls<string>) {
    c.Call? ==> (c.entered || c.left) && Noticed(c.inner) && Noticed(c.next)
  }

  lemma {:induction false} RecordedIsNoticed(c: Calls<string>, end: int)
    requires Recorded(c, end)
    ensures Noticed(c)
    decreases c
  {
    if c.Call? {
      RecordedIsNoticed(c.inner, c.leave);
      if c.left {
        RecordedIsNoticed(c.next, end);
      }
    }
  }

  lemma {:induction false} TopIsNoticed(c: Calls<string>, start: int, end: int)
    requires RecordedFrom(c, start, end)
    ensures Noticed(c)
    decreases c
  {
    if c.NoCalls? || c.entered {
      RecordedIsNoticed(c, end);
    } else {
      RecordedIsNoticed(c.inner, c.leave);
      TopIsNoticed(c.next, c.leave, end);
    }
  }

  lemma {:induction false} NamesOfTrace(c: Calls<string>)
    requires Noticed(c)
    ensures NamesIn(Trace(c)) == Functions(c)
    decreases c
  {
    if c.Call? {
      NamesOfTrace(c.inner);
      NamesOfTrace(c.next);
      TraceParts(c);
      var e, x := EnterRecord(c), LeaveRecord(c);
      NamesInSum(e, Trace(c.inner));
      NamesInSum(e + Trace(c.inner), x);
      NamesInSum(e + Trace(c.inner) + x, Trace(c.next));
      assert c.entered ==> NamesIn(e) == {e[0].fn};
      assert c.left ==> NamesIn(x) == {x[0].fn};
    }
  }

  /** The forest with a number for each name. */
  function Numbered(c: Calls<string>, number: string -> nat): Calls<nat> {
    match c
    case NoCalls => NoCalls
    case Call(fn, enter, leave, entered, left, inner, next) =>
      Call(number(fn), enter, leave, entered, left, Numbered(inner, number), Numbered(next, number))
  }

  function IndexIn(names: seq<string>): string -> nat {
    (name: string) => IndexOf(names, name)
  }

  function Renumbered(records: seq<Record<string>>, number: string -> nat): seq<Record<nat>> {
    seq(|records|, i requires 0 <= i < |records| =>
      var r := records[i]; if r.Enter? then Enter(number(r.fn), r.time) else Leave(number(r.fn), r.time))
  }

  lemma RenumberedSum(a: seq<Record<string>>, b: seq<Record<string>>, number: string -> nat)
    ensures Renumbered(a + b, number) == Renumbered(a, number) + Renumbered(b, number)
  {
  }

  lemma {:induction false} ResolvedIs(trace: seq<TraceRecord>, names: seq<string>)
    ensures Resolved(trace, names) == Renumbered(Logged(trace), IndexIn(names))
  {
    if trace != [] {
      ResolvedIs(trace[1..], names);
      RenumberedSum(LoggedOne(trace[0]), Logged(trace[1..]), IndexIn(names));
      assert ResolvedOne(trace[0], names) == Renumbered(LoggedOne(trace[0]), IndexIn(names));
    }
  }

  lemma {:induction false} TraceNumbered(c: Calls<string>, number: string -> nat)
    ensures Trace(Numbered(c, number)) == Renumbered(Trace(c), number)
    decreases c
  {
    if c.Call? {
      TraceNumbered(c.inner, number);
      TraceNumbered(c.next, number);
      TraceParts(c);
      var e, x := EnterRecord(c), LeaveRecord(c);
      RenumberedSum(e, Trace(c.inner), number);
      RenumberedSum(e + Trace(c.inner), x, number);
      RenumberedSum(e + Trace(c.inner) + x, Trace(c.next), number);
      var d := Numbered(c, number);
      TraceParts(d);
      assert EnterRecord(d) == Renumbered(e, number) && LeaveRecord(d) == Renumbered(x, number);
    }
  }

  /** A distinct name has its own index. */
  lemma {:induction false} OwnIndex(names: seq<string>, i: nat)
    requires Distinct(names) && i < |names|
    ensures IndexOf(names, names[i]) == i
  {
    var k := |names| - 1;
    assert forall a :: 0 <= a < k ==> names[..k][a] == names[a];
    if i < k {
      OwnIndex(names[..k], i);
      IndexStays(names[..k], names, names[i]);
    }
  }

  predicate UsesOnly(c: Calls<string>, names: seq<string>) {
    c.NoCalls? || (c.fn in names && UsesOnly(c.inner, names) && UsesOnly(c.next, names))
  }

  lemma {:induction false} OpenNumbered(c: Calls<string>, names: seq<string>, fn: string)
    requires UsesOnly(c, names) && fn in names
    ensures OpenCall(Numbered(c, IndexIn(names)), IndexOf(names, fn)) == OpenCall(c, fn)
    decreases c
  {
    if c.Call? {
      OpenNumbered(c.inner, names, fn);
      OpenNumbered(c.next, names, fn);
    }
  }

  lemma {:induction false} RecordedNumbered(c: Calls<string>, names: seq<string>, end: int)
    requires UsesOnly(c, names) && Recorded(c, end)
    ensures Recorded(Numbered(c, IndexIn(names)), end)
    decreases c
  {
    if c.Call? {
      RecordedNumbered(c.inner, names, c.leave);
      OpenNumbered(c.inner, names, c.fn);
      if c.left {
        RecordedNumbered(c.next, names, end);
      }
    }
  }

  lemma {:induction false} TopNumbered(c: Calls<string>, names: seq<string>, start: int, end: int)
    requires UsesOnly(c, names) && RecordedFrom(c, start, end)
    ensures RecordedFrom(Numbered(c, IndexIn(names)), start, end)
    decreases c
  {
    if c.NoCalls? || c.entered {
      RecordedNumbered(c, names, end);
    } else {
      RecordedNumbered(c.inner, names, c.leave);
      OpenNumbered(c.inner, names, c.fn);
      TopNumbered(c.next, names, c.leave, end);
    }
  }

  /** Number i is given to the one name only. */
  ghost predicate Separates(c: Calls<string>, number: string -> nat, name: string, i: nat) {
    c.Call? ==>
      && (number(c.fn) == i <==> c.fn == name)
      && Separates(c.inner, number, name, i) && Separates(c.next, number, name, i)
  }

  lemma {:induction false} NumberedShape(c: Calls<string>, number: string -> nat)
    ensures Duration(Numbered(c, number)) == Duration(c) && Height(Numbered(c, number)) == Height(c)
    decreases c
  {
    if c.Call? {
      NumberedShape(c.inner, number);
      NumberedShape(c.next, number);
    }
  }

  lemma {:induction false} NumberedMeasures(c: Calls<string>, number: string -> nat, name: string, i: nat)
    requires Separates(c, number, name, i)
    ensures OwnTime(Numbered(c, number), i) == OwnTime(c, name)
    ensures CallCount(Numbered(c, number), i) == CallCount(c, name)
    decreases c
  {
    if c.Call? {
      NumberedMeasures(c.inner, number, name, i);
      NumberedMeasures(c.next, number, name, i);
      NumberedShape(c.inner, number);
    }
  }

  lemma {:induction false} IndexSeparates(c: Calls<string>, names: seq<string>, i: nat)
    requires Distinct(names) && UsesOnly(c, names) && i < |names|
    ensures Separates(c, IndexIn(names), names[i], i)
    decreases c
  {
    if c.Call? {
      IndexSeparates(c.inner, names, i);
      IndexSeparates(c.next, names, i);
      OwnIndex(names, i);
    }
  }

  lemma {:induction false} IndexKnown(c: Calls<string>, names: seq<string>)
    requires UsesOnly(c, names)
    ensures Known(Numbered(c, IndexIn(names)), |names|)
    decreases c
  {
    if c.Call? {
      IndexKnown(c.inner, names);
      IndexKnown(c.next, names);
    }
  }

  /** Every function has been charged its own time and its calls. */
  ghost predicate ChargedOwn(c: Calls<string>, names: seq<string>, p: Profile) {
    && |p.stack| == 1 && |p.modules| == |names|
    && forall i: nat :: i < |names| ==> p.modules[i] == Module(OwnTime(c, names[i]), CallCount(c, names[i]))
  }

  /** Nothing has been charged yet. */
  ghost predicate Blank(p: Profile, n: nat) {
    AtRest(p, 0) && |p.modules| == n && forall i: nat :: i < n ==> p.modules[i] == Module(0, 0)
  }

  lemma ForestInNumbers(c: Calls<string>, names: seq<string>, p: Profile, records: seq<Record<nat>>, end: int)
    requires Distinct(names) && UsesOnly(c, names) && Blank(p, |names|) && RecordedFrom(c, 0, end)
    requires records == Trace(Numbered(c, IndexIn(names)))
    ensures Wf(p) && (Feed(p, records).Some? <==> Height(c) <= STACKSIZ)
    ensures Feed(p, records).Some? ==> ChargedOwn(c, names, CloseAll(Feed(p, records).value, end))
  {
    var d := Numbered(c, IndexIn(names));
    NumberedShape(c, IndexIn(names));
    IndexKnown(c, names);
    TopNumbered(c, names, 0, end);
    TraceIsCharged(p, d, 0, end);
    if Feed(p, records).Some? {
      OwnOfCharged(c, names, p, CloseAll(Feed(p, records).value, end));
    }
  }

  lemma OwnOfCharged(c: Calls<string>, names: seq<string>, p: Profile, q: Profile)
    requires Distinct(names) && UsesOnly(c, names) && Blank(p, |names|) && |q.stack| == 1
    requires ModulesCharged(p, Numbered(c, IndexIn(names)), q)
    ensures ChargedOwn(c, names, q)
  {
    forall i: nat | i < |names|
      ensures q.modules[i] == Module(OwnTime(c, names[i]), CallCount(c, names[i]))
    {
      OwnOfOne(c, names, p, q, i);
    }
  }

  lemma OwnOfOne(c: Calls<string>, names: seq<string>, p: Profile, q: Profile, i: nat)
    requires Distinct(names) && UsesOnly(c, names) && i < |names| == |p.modules| == |q.modules|
    requires p.modules[i] == Module(0, 0)
    requires q.modules[i] == ChargedModule(p.modules[i], Numbered(c, IndexIn(names)), i)
    ensures q.modules[i] == Module(OwnTime(c, names[i]), CallCount(c, names[i]))
  {
    IndexSeparates(c, names, i);
    NumberedMeasures(c, IndexIn(names), names[i], i);
  }

  lemma {:induction false} ListedAreUsed(c: Calls<string>, names: seq<string>)
    requires forall n :: n in Functions(c) ==> n in names
    ensures UsesOnly(c, names)
    decreases c
  {
    if c.Call? {
      assert c.fn in Functions(c);
      ListedAreUsed(c.inner, names);
      ListedAreUsed(c.next, names);
    }
  }

  /** Exactly the given names, each once. */
  ghost predicate ListsAll(names: seq<string>, all: set<string>) {
    |names| == |all| && forall n :: n in names <==> n in all
  }

  /** The trace is that of the forest, which went on from time 0 to the last record. */
  ghost predicate IsTraceOf(trace: seq<TraceRecord>, c: Calls<string>) {
    Trace(c) == Logged(trace) && RecordedFrom(c, 0, LastTime(trace, 0))
  }

  lemma FunctionsListed(trace: seq<TraceRecord>, c: Calls<string>) returns (all: seq<string>, p: Profile)
    requires IsTraceOf(trace, c)
    ensures all == ListNames(EMPTY.names, trace) && p == Padded(EMPTY.p, |all| - |EMPTY.names|) && Blank(p, |all|)
    ensures Distinct(all) && UsesOnly(c, all) && ListsAll(all, Functions(c))
    ensures Resolved(trace, all) == Trace(Numbered(c, IndexIn(all)))
  {
    all := ListNames([], trace);
    NamesListed([], trace);
    TopIsNoticed(c, 0, LastTime(trace, 0));
    NamesOfTrace(c);
    CountNames(all, Functions(c));
    ListedAreUsed(c, all);
    ResolvedIs(trace, all);
    TraceNumbered(c, IndexIn(all));
    p := Padded(EMPTY.p, |all|);
  }

  /** The functions of the forest are listed and charged. */
  ghost predicate Profiled(c: Calls<string>, b: Book) {
    ListsAll(b.names, Functions(c)) && ChargedOwn(c, b.names, b.p)
  }

  /** The book at the end of the trace, with what is open closed at the last time. */
  ghost function Closed(b: Book, trace: seq<TraceRecord>): Book
    requires BookOk(b)
  {
    Book(b.names, CloseAll(b.p, LastTime(trace, 0)))
  }

  /**
   The trace of any forest of calls is read if and only if its functions fit in
   the table and its height on the stack, and at its end every function has
   been charged its own time and its calls.
   */
  lemma ForestIsCharged(trace: seq<TraceRecord>, c: Calls<string>)
    requires IsTraceOf(trace, c)
    ensures Read(EMPTY, trace).Some? <==> |Functions(c)| <= MAXPROCS && Height(c) <= STACKSIZ
    ensures Read(EMPTY, trace).Some? ==> Profiled(c, Closed(Read(EMPTY, trace).value, trace))
  {
    var all, p := FunctionsListed(trace, c);
    ReadIsFeed(EMPTY, trace);
    ForestBook(c, EMPTY, trace, all, p);
  }

  lemma ForestBook(c: Calls<string>, b: Book, trace: seq<TraceRecord>, all: seq<string>, p: Profile)
    requires BookOk(b) && all == ListNames(b.names, trace) && p == Padded(b.p, |all| - |b.names|) && Blank(p, |all|)
    requires Distinct(all) && UsesOnly(c, all) && Resolved(trace, all) == Trace(Numbered(c, IndexIn(all)))
    requires ListsAll(all, Functions(c)) && RecordedFrom(c, 0, LastTime(trace, 0)) && Read(b, trace) == AtOnce(b, trace)
    ensures Read(b, trace).Some? <==> |Functions(c)| <= MAXPROCS && Height(c) <= STACKSIZ
    ensures Read(b, trace).Some? ==> Profiled(c, Closed(Read(b, trace).value, trace))
  {
    var records := Resolved(trace, all);
    ForestInNumbers(c, all, p, records, LastTime(trace, 0));
    assert AtOnce(b, trace) == FedBook(all, p, records);
  }
}
