/**
 dbug_analyze as a program: the tables it fills in place while reading a trace
 and the report it prints. Stack-use records are not modelled.
 */
module Profiler {
  import opened Wrappers
  import opened CallProfile
  import opened CallForest
  import opened NameTree
  import opened ProfileTrace

  datatype Line = Line(name: string, calls: int, time: int)

  /** All indices below n. */
  ghost function UpTo(n: nat): (s: set<nat>)
    ensures forall i: nat :: i in s <==> i < n
  {
    if n == 0 then {} else UpTo(n - 1) + {n - 1}
  }

  predicate InRange(mods: seq<Module>, order: seq<nat>) {
    forall a :: 0 <= a < |order| ==> order[a] < |mods|
  }

  function SumTimeAt(mods: seq<Module>, order: seq<nat>): int
    requires InRange(mods, order)
  {
    if order == [] then 0 else SumTimeAt(mods, order[..|order| - 1]) + mods[order[|order| - 1]].time
  }

  function SumCallsAt(mods: seq<Module>, order: seq<nat>): int
    requires InRange(mods, order)
  {
    if order == [] then 0 else SumCallsAt(mods, order[..|order| - 1]) + mods[order[|order| - 1]].calls
  }

  class Analyzer {
    var names: seq<string>           // modules[].name
    var table: seq<Bnode>            // s_table
    var mods: seq<Module>            // modules[].m_time, m_calls
    var stack: seq<Frame>            // fn_stack[0..stacktop]
    var totTime: int
    var totCalls: int
    ghost var unmatched: nat
    ghost var tree: Tree

    ghost function State(): Profile
      reads this
    {
      Profile(stack, mods, totTime, totCalls, unmatched)
    }

    ghost function Kept(): Book
      reads this
    {
      Book(names, State())
    }

    function Root(): nat
      reads this
    {
      if |names| == 0 then MAXPROCS else 0
    }

    ghost predicate TreeOk()
      reads this
    {
      && |names| == |table| == |mods| <= MAXPROCS
      && Stored(table, Root(), tree) && Ordered(names, tree) && Elements(tree) == UpTo(|names|)
      && Distinct(names)
    }

    ghost predicate Valid()
      reads this
    {
      TreeOk() && Wf(State())
    }

    constructor ()
      ensures Valid() && Kept() == EMPTY
    {
      names, table, mods, totTime, totCalls := [], [], [], 0, 0;
      stack := [Frame(0, 0, 0)];
      unmatched, tree := 0, Leaf;
    }

    /** addit: the module for a name that was just linked into the tree as t. */
    method AddIt(name: string, newTable: seq<Bnode>, ghost t: Tree) returns (pos: nat)
      requires Valid() && |names| < MAXPROCS && |newTable| == |names| + 1 && name !in names
      requires Stored(newTable, 0, t) && Ordered(names + [name], t) && Elements(t) == UpTo(|names| + 1)
      modifies this`names, this`table, this`mods, this`tree
      ensures Valid() && pos == old(|names|)
      ensures names == old(names) + [name] && mods == old(mods) + [Module(0, 0)]
    {
      pos := |names|;
      WithOne(names, name);
      names, table, mods, tree := names + [name], newTable, mods + [Module(0, 0)], t;
    }

    /** Link a new name below node ind, the last node of its search path. */
    method AddBelow(name: string, ind: nat, left: bool, ghost sub: Tree) returns (pos: nat)
      requires Valid() && 0 < |names| < MAXPROCS && name !in names
      requires OnPath(tree, names, name, sub) && sub.Node? && sub.idx == ind < |names|
      requires left == Less(name, names[ind]) && (if left then sub.left.Leaf? else sub.right.Leaf?)
      modifies this`names, this`table, this`mods, this`tree
      ensures Valid() && pos == old(|names|)
      ensures names == old(names) + [name] && mods == old(mods) + [Module(0, 0)]
    {
      LinkIsInsert(table, 0, tree, names, name, sub);
      InsertOrdered(tree, names, name);
      InsertElements(tree, names, name, |names|);
      pos := AddIt(name, Linked(table, ind, left), Insert(tree, names, name, |names|));
    }

    /** Find the name in the tree, or link it where the search ends; fails when the table is full. */
    method Add(name: string) returns (pos: nat, ok: bool)
      requires Valid()
      modifies this`names, this`table, this`mods, this`tree
      ensures Valid()
      ensures ok <==> name in old(names) || |old(names)| < MAXPROCS
      ensures ok ==> Kept() == Listed(old(Kept()), name) && pos == IndexOf(names, name) < |names|
      ensures !ok ==> unchanged(this)
    {
      pos, ok := Search(name);
      if ok {
        OwnIndex(names, pos);
        ListedAs(old(Kept()), Kept(), name);
      }
    }

    method Search(name: string) returns (pos: nat, ok: bool)
      requires Valid()
      modifies this`names, this`table, this`mods, this`tree
      ensures Valid()
      ensures ok ==> pos < |names| && names[pos] == name
      ensures ok ==> names == (if name in old(names) then old(names) else old(names) + [name])
      ensures ok ==> mods == (if name in old(names) then old(mods) else old(mods) + [Module(0, 0)])
      ensures ok <==> name in old(names) || |old(names)| < MAXPROCS
      ensures !ok ==> unchanged(this)
    {
      if |names| == 0 {
        pos := AddIt(name, [Bnode(MAXPROCS, MAXPROCS)], Node(0, Leaf, Leaf));
        return pos, true;
      }
      var ind := 0;
      ghost var sub := tree;
      while names[ind] != name
        invariant Valid() && unchanged(this) && ind < |names|
        invariant sub.Node? && sub.idx == ind && OnPath(tree, names, name, sub)
        invariant Stored(table, ind, sub) && Ordered(names, sub)
        invariant forall i :: i in Elements(tree) && names[i] == name ==> i in Elements(sub)
        decreases sub
      {
        LessIsTotal(name, names[ind]);
        OneSide(names, name, sub);
        PathGoesOn(tree, names, name, sub);
        var left := Less(name, names[ind]);
        var child := if left then table[ind].lchild else table[ind].rchild;
        if child == MAXPROCS {
          NameIsNew(names, name, tree, sub);
          if |names| >= MAXPROCS {
            return 0, false;
          }
          pos := AddBelow(name, ind, left, sub);
          return pos, true;
        }
        sub, ind := if left then sub.left else sub.right, child;
      }
      return ind, true;
    }

    method PushFrame(pos: nat, time: int)
      requires Wf(State()) && pos < |mods| && |stack| <= STACKSIZ
      modifies this`stack
      ensures State() == Push(old(State()), pos, time)
    {
      stack := stack + [Frame(pos, time, 0)];
    }

    /** An 'E' record. Fails exactly when the name table or the call stack is full. */
    method EnterRecord(time: int, name: string) returns (ok: bool)
      requires Valid()
      modifies this
      ensures Valid()
      ensures var b := ReadOne(old(Kept()), E(time, name)); ok == b.Some? && (ok ==> Kept() == b.value)
    {
      var pos;
      pos, ok := Add(name);
      if ok {
        if |stack| <= STACKSIZ {
          PushFrame(pos, time);
        } else {
          ok := false;
        }
      }
    }

    /** Pop the innermost call and charge it. */
    method PopCharge(time: int) returns (oldpos: nat)
      requires Wf(State()) && |stack| > 1
      modifies this`stack, this`mods, this`totTime, this`totCalls
      ensures oldpos == old(stack)[|old(stack)| - 1].pos && State() == CloseTop(old(State()), time)
    {
      var n := |stack| - 1;
      var f := stack[n];
      oldpos := f.pos;
      stack := stack[..n];
      var local := time - f.time;
      stack := stack[n - 1 := stack[n - 1].(children := stack[n - 1].children + local)];
      local := local - f.children;
      mods := mods[oldpos := Module(mods[oldpos].time + local, mods[oldpos].calls + 1)];
      totTime, totCalls := totTime + local, totCalls + 1;
    }

    /** The exit of a function that is not open. */
    method ChargeUnmatched(pos: nat, time: int)
      requires Wf(State()) && |stack| == 1 && pos < |mods|
      modifies this`stack, this`mods, this`totTime, this`totCalls, this`unmatched
      ensures State() == CloseUnmatched(old(State()), pos, time)
    {
      var t := stack[0];
      var local := time - t.time - t.children;
      stack := stack[0 := t.(time := time, children := 0)];
      mods := mods[pos := Module(mods[pos].time + local, mods[pos].calls + 1)];
      totTime, totCalls := totTime + local, totCalls + 1;
      unmatched := unmatched + 1;
    }

    /** Close open calls until one of function pos was closed. */
    method CloseUntil(pos: nat, time: int)
      requires Wf(State()) && pos < |mods|
      modifies this`stack, this`mods, this`totTime, this`totCalls, this`unmatched
      ensures State() == Exit(old(State()), pos, time)
    {
      ghost var p := State();
      while |stack| > 1
        invariant Wf(State()) && pos < |mods|
        invariant Exit(State(), pos, time) == Exit(p, pos, time)
        decreases |stack|
      {
        var oldpos := PopCharge(time);
        if pos == oldpos {
          return;
        }
      }
      ChargeUnmatched(pos, time);
    }

    /** An 'X' record. Fails exactly when its name is new and the name table is full. */
    method LeaveRecord(time: int, name: string) returns (ok: bool)
      requires Valid()
      modifies this
      ensures Valid()
      ensures var b := ReadOne(old(Kept()), X(time, name)); ok == b.Some? && (ok ==> Kept() == b.value)
    {
      var pos;
      pos, ok := Add(name);
      if ok {
        CloseUntil(pos, time);
      }
    }

    /** The end of the trace, at the time of its last record. */
    method EndOfTrace(time: int)
      requires Valid()
      modifies this`stack, this`mods, this`totTime, this`totCalls
      ensures Valid() && State() == CloseAll(old(State()), time)
    {
      ghost var p := State();
      while |stack| > 1
        invariant TreeOk() && Wf(State())
        invariant CloseAll(State(), time) == CloseAll(p, time)
        decreases |stack|
      {
        var _ := PopCharge(time);
      }
    }

    /** One line of the trace. */
    method OneRecord(r: TraceRecord) returns (ok: bool)
      requires Valid()
      modifies this
      ensures Valid()
      ensures var b := ReadOne(old(Kept()), r); ok == b.Some? && (ok ==> Kept() == b.value)
    {
      match r
      case Unknown => ok := true;
      case E(time, name) => ok := EnterRecord(time, name);
      case X(time, name) => ok := LeaveRecord(time, name);
    }

    /**
     process: read a whole trace. It fails exactly when reading does, on a full
     name table or call stack. Otherwise the state is that of the trace read,
     with all calls still open closed at the time of its last record; time and
     calls are balanced, every enter and every unmatched exit being one call.
     */
    method Process(trace: seq<TraceRecord>) returns (ok: bool)
      requires Valid()
      modifies this
      ensures Valid()
      ensures ok <==> Read(old(Kept()), trace).Some?
      ensures ok ==> var b := Read(old(Kept()), trace).value; Kept() == Book(b.names, CloseAll(b.p, LastTime(trace, 0)))
      ensures ok && old(Balanced(State()) && Counted(State(), 0)) ==>
                Balanced(State()) && |stack| == 1 && totCalls == Enters(trace) + unmatched
    {
      var lastTime := 0;
      ghost var b := Kept();
      for k := 0 to |trace|
        invariant Valid() && Read(Kept(), trace[k..]) == Read(b, trace)
        invariant LastTime(trace[k..], lastTime) == LastTime(trace, 0)
      {
        assert trace[k..][1..] == trace[k + 1..];
        ok := OneRecord(trace[k]);
        if !ok {
          return;
        }
        if !trace[k].Unknown? {
          lastTime := trace[k].time;
        }
      }
      if Balanced(b.p) && Counted(b.p, 0) {
        ReadKeepsBalance(b, trace, 0);
        CloseAllKeepsBalance(State(), lastTime, Enters(trace));
      }
      EndOfTrace(lastTime);
      return true;
    }

    /** The modules of a subtree in the order they are printed, and the sums of their columns. */
    method OutBody(root: nat, ghost t: Tree) returns (order: seq<nat>, calls: int, time: int)
      requires |names| == |table| == |mods| && Stored(table, root, t)
      ensures order == Inorder(t) && calls == TreeCalls(mods, t) && time == TreeTime(mods, t)
      decreases t
    {
      order, calls, time := [], 0, 0;
      var r := root;
      ghost var rest := t;
      while r != MAXPROCS
        invariant Stored(table, r, rest) && (rest == t || rest < t)
        invariant order + Inorder(rest) == Inorder(t)
        invariant calls + TreeCalls(mods, rest) == TreeCalls(mods, t)
        invariant time + TreeTime(mods, rest) == TreeTime(mods, t)
        decreases rest
      {
        var o, c, m := OutBody(table[r].lchild, rest.left);
        Around(order, o, r, Inorder(rest.right));
        order := order + o + [r];
        calls, time := calls + c + mods[r].calls, time + m + mods[r].time;
        r, rest := table[r].rchild, rest.right;
      }
    }

    /**
     The report lists every name once, in strictly increasing order, with the
     sums of its columns.
     */
    method Output() returns (lines: seq<Line>, sumCalls: int, sumTime: int)
      requires Valid()
      ensures |lines| == |names|
      ensures Sorted(lines)
      ensures forall i :: 0 <= i < |names| ==> LineOf(names, mods, i) in lines
      ensures sumCalls == SumCalls(mods) && sumTime == SumTime(mods)
    {
      var order;
      order, sumCalls, sumTime := OutBody(Root(), tree);
      ReportOrder(names, mods, tree);
      lines := [];
      for k := 0 to |order|
        invariant |lines| == k
        invariant forall a :: 0 <= a < k ==> lines[a] == LineOf(names, mods, order[a])
      {
        lines := lines + [LineOf(names, mods, order[k])];
      }
      LinesComplete(names, mods, order, lines);
    }

    /**
     A trace is read and reported. The report of a forest of calls, which there
     is exactly when its functions and its height fit, lists each function with
     its own time and its calls.
     */
    method Analyze(trace: seq<TraceRecord>) returns (out: Outcome)
      requires Valid() && Kept() == EMPTY
      modifies this
      ensures out.TooMany? <==> Read(EMPTY, trace).None?
      ensures !out.TooMany? ==>
                var b := Read(EMPTY, trace).value;
                Kept() == Book(b.names, CloseAll(b.p, LastTime(trace, 0))) && (out.NothingTraced? <==> b.names == [])
      ensures out.Report? ==>
                |out.lines| == |names| && forall i :: 0 <= i < |names| ==> LineOf(names, mods, i) in out.lines
      ensures out.Report? ==> Sorted(out.lines)
      ensures out.Report? ==> out.calls == totCalls == SumCalls(mods) && out.time == totTime == SumTime(mods)
      ensures forall c :: IsTraceOf(trace, c) && c.Call? ==> IsReportOf(c, out)
    {
      var ok := Process(trace);
      if !ok {
        out := TooMany;
      } else if |names| == 0 {
        out := NothingTraced;
      } else {
        var lines, calls, time := Output();
        out := Report(lines, calls, time);
      }
      forall c | IsTraceOf(trace, c) && c.Call?
        ensures IsReportOf(c, out)
      {
        ForestIsCharged(trace, c);
        if ok {
          ReportedForest(c, Kept(), out);
        }
      }
    }
  }

  /** What is printed, or why nothing is: a table overflowed, or there were no names. */
  datatype Outcome = TooMany | NothingTraced | Report(lines: seq<Line>, calls: int, time: int)

  predicate Sorted(lines: seq<Line>) {
    forall a, b :: 0 <= a < b < |lines| ==> Less(lines[a].name, lines[b].name)
  }

  /** A line for each function of the forest, and no other line, if its functions and its height fit. */
  ghost predicate IsReportOf(c: Calls<string>, out: Outcome) {
    && (out.Report? <==> |Functions(c)| <= 10000 && Height(c) <= 100)
    && (out.Report? ==>
          && |out.lines| == |Functions(c)|
          && forall n :: n in Functions(c) ==> Line(n, CallCount(c, n), OwnTime(c, n)) in out.lines)
  }

  /** Listing a name that is there changes nothing, a new one gets an empty module. */
  lemma ListedAs(b: Book, b': Book, name: string)
    requires BookOk(b) && b'.names == With(b.names, name)
    requires b'.p == b.p.(modules := if name in b.names then b.p.modules else b.p.modules + [Module(0, 0)])
    ensures b' == Listed(b, name)
  {
    assert b.p.modules + Zeros(0) == b.p.modules && Zeros(1) == [Module(0, 0)];
  }

  lemma Around(order: seq<nat>, left: seq<nat>, r: nat, right: seq<nat>)
    ensures order + (left + [r] + right) == (order + left + [r]) + right
  {
  }

  function TreeTime(mods: seq<Module>, t: Tree): int {
    if t.Leaf? then 0
    else TreeTime(mods, t.left) + (if t.idx < |mods| then mods[t.idx].time else 0) + TreeTime(mods, t.right)
  }

  function TreeCalls(mods: seq<Module>, t: Tree): int {
    if t.Leaf? then 0
    else TreeCalls(mods, t.left) + (if t.idx < |mods| then mods[t.idx].calls else 0) + TreeCalls(mods, t.right)
  }

  lemma {:induction false} TreeSums(mods: seq<Module>, t: Tree)
    requires InRange(mods, Inorder(t))
    ensures TreeTime(mods, t) == SumTimeAt(mods, Inorder(t)) && TreeCalls(mods, t) == SumCallsAt(mods, Inorder(t))
    decreases t
  {
    if t.Node? {
      var l, r := Inorder(t.left), Inorder(t.right);
      assert forall a :: 0 <= a < |l| ==> Inorder(t)[a] == l[a];
      assert forall a :: 0 <= a < |r| ==> Inorder(t)[|l| + 1 + a] == r[a];
      assert Inorder(t)[|l|] == t.idx;
      TreeSums(mods, t.left);
      TreeSums(mods, t.right);
      SumsAtAppend(mods, l, [t.idx]);
      SumsAtAppend(mods, l + [t.idx], r);
      SumsAtOne(mods, t.idx);
    }
  }

  /** The in-order listing of the name tree as an order of all modules. */
  lemma ReportOrder(names: seq<string>, mods: seq<Module>, t: Tree)
    requires |names| == |mods| && Ordered(names, t) && Elements(t) == UpTo(|names|)
    ensures Permutation(Inorder(t), |names|) && |Inorder(t)| == |names| && InRange(mods, Inorder(t))
    ensures forall a, b :: 0 <= a < b < |Inorder(t)| ==> Less(names[Inorder(t)[a]], names[Inorder(t)[b]])
    ensures TreeTime(mods, t) == SumTime(mods) && TreeCalls(mods, t) == SumCalls(mods)
  {
    InorderSorted(names, t);
    InorderMembers(t);
    OrderIsPermutation(names, Inorder(t));
    SumsOverOrder(mods, Inorder(t));
    TreeSums(mods, t);
  }

  function LineOf(names: seq<string>, mods: seq<Module>, i: nat): Line
    requires i < |names| == |mods|
  {
    Line(names[i], mods[i].calls, mods[i].time)
  }

  lemma LinesComplete(names: seq<string>, mods: seq<Module>, order: seq<nat>, lines: seq<Line>)
    requires |names| == |mods| && Permutation(order, |names|) && InRange(mods, order)
    requires |lines| == |order| && forall a :: 0 <= a < |order| ==> lines[a] == LineOf(names, mods, order[a])
    requires forall a, b :: 0 <= a < b < |order| ==> Less(names[order[a]], names[order[b]])
    ensures forall i :: 0 <= i < |names| ==> LineOf(names, mods, i) in lines
    ensures Sorted(lines)
  {
    forall i | 0 <= i < |names|
      ensures LineOf(names, mods, i) in lines
    {
      assert i in order;
      var a :| 0 <= a < |order| && order[a] == i;
      assert lines[a] == LineOf(names, mods, i);
    }
  }

  ghost predicate Permutation(order: seq<nat>, n: nat) {
    && (forall a :: 0 <= a < |order| ==> order[a] < n)
    && (forall a, b :: 0 <= a < b < |order| ==> order[a] != order[b])
    && (forall i: nat :: i < n ==> i in order)
  }

  lemma OrderIsPermutation(names: seq<string>, order: seq<nat>)
    requires forall a :: 0 <= a < |order| ==> order[a] < |names|
    requires forall a, b :: 0 <= a < b < |order| ==> Less(names[order[a]], names[order[b]])
    requires forall i: nat :: i < |names| ==> i in order
    ensures Permutation(order, |names|)
  {
    forall a, b | 0 <= a < b < |order|
      ensures order[a] != order[b]
    {
      LessIsTotal(names[order[a]], names[order[b]]);
    }
  }

  lemma {:induction false} SumsAtAppend(mods: seq<Module>, a: seq<nat>, b: seq<nat>)
    requires InRange(mods, a) && InRange(mods, b)
    ensures InRange(mods, a + b)
    ensures SumTimeAt(mods, a + b) == SumTimeAt(mods, a) + SumTimeAt(mods, b)
    ensures SumCallsAt(mods, a + b) == SumCallsAt(mods, a) + SumCallsAt(mods, b)
    decreases |b|
  {
    if b == [] {
      assert a + b == a;
    } else {
      SumsAtAppend(mods, a, b[..|b| - 1]);
      assert (a + b)[..|a + b| - 1] == a + b[..|b| - 1];
    }
  }

  lemma SumsAtOne(mods: seq<Module>, i: nat)
    requires i < |mods|
    ensures SumTimeAt(mods, [i]) == mods[i].time && SumCallsAt(mods, [i]) == mods[i].calls
  {
    assert [i][..0] == [];
  }

  lemma {:induction false} SumsAtPrefix(mods: seq<Module>, order: seq<nat>)
    requires mods != [] && InRange(mods[..|mods| - 1], order)
    ensures InRange(mods, order)
    ensures SumTimeAt(mods, order) == SumTimeAt(mods[..|mods| - 1], order)
    ensures SumCallsAt(mods, order) == SumCallsAt(mods[..|mods| - 1], order)
    decreases |order|
  {
    if order != [] {
      SumsAtPrefix(mods, order[..|order| - 1]);
    }
  }

  lemma SomethingToOrder(order: seq<nat>, n: nat)
    requires Permutation(order, n) && order != []
    ensures n > 0
  {
    assert order[0] < n;
  }

  lemma WhereIs(order: seq<nat>, n: nat, i: nat) returns (k: nat)
    requires Permutation(order, n) && i < n
    ensures k < |order| && order[k] == i
  {
    assert i in order;
    k :| 0 <= k < |order| && order[k] == i;
  }

  /** Summing in any order gives the same. */
  lemma {:induction false} SumsOverOrder(mods: seq<Module>, order: seq<nat>)
    requires Permutation(order, |mods|)
    ensures |order| == |mods| && InRange(mods, order)
    ensures SumTimeAt(mods, order) == SumTime(mods) && SumCallsAt(mods, order) == SumCalls(mods)
    decreases |mods|
  {
    if order != [] {
      SomethingToOrder(order, |mods|);
    }
    if mods != [] {
      var last := |mods| - 1;
      var k := WhereIs(order, |mods|, last);
      RemoveFromPermutation(order, last, k);
      SumsOverOrder(mods[..last], order[..k] + order[k + 1..]);
      SumsAtPrefix(mods, order[..k] + order[k + 1..]);
      SumsWithLast(mods, order, k);
    }
  }

  lemma SumsWithLast(mods: seq<Module>, order: seq<nat>, k: nat)
    requires k < |order| && InRange(mods, order)
    ensures InRange(mods, order[..k] + order[k + 1..])
    ensures SumTimeAt(mods, order) == SumTimeAt(mods, order[..k] + order[k + 1..]) + mods[order[k]].time
    ensures SumCallsAt(mods, order) == SumCallsAt(mods, order[..k] + order[k + 1..]) + mods[order[k]].calls
  {
    SumsInsert(mods, order[..k], order[k], order[k + 1..]);
    assert order == order[..k] + [order[k]] + order[k + 1..];
  }

  lemma SumsInsert(mods: seq<Module>, a: seq<nat>, x: nat, b: seq<nat>)
    requires InRange(mods, a) && InRange(mods, b) && x < |mods|
    ensures InRange(mods, a + b) && InRange(mods, a + [x] + b)
    ensures SumTimeAt(mods, a + [x] + b) == SumTimeAt(mods, a + b) + mods[x].time
    ensures SumCallsAt(mods, a + [x] + b) == SumCallsAt(mods, a + b) + mods[x].calls
  {
    SumsAtAppend(mods, a, b);
    SumsAtAppend(mods, a, [x]);
    SumsAtAppend(mods, a + [x], b);
    SumsAtOne(mods, x);
  }

  lemma RemoveFromPermutation(order: seq<nat>, last: nat, k: nat)
    requires Permutation(order, last + 1) && k < |order| && order[k] == last
    ensures Permutation(order[..k] + order[k + 1..], last)
  {
    var rest := order[..k] + order[k + 1..];
    forall i: nat | i < last
      ensures i in rest
    {
      assert i in order;
      var j :| 0 <= j < |order| && order[j] == i;
      assert rest[if j < k then j else j - 1] == i;
    }
    assert forall j :: 0 <= j < |rest| ==> rest[j] == order[if j < k then j else j + 1];
  }

  lemma ReportedForest(c: Calls<string>, b: Book, out: Outcome)
    requires Profiled(c, b) && out.Report? && |out.lines| == |b.names|
    requires |Functions(c)| <= MAXPROCS && Height(c) <= STACKSIZ
    requires forall i :: 0 <= i < |b.names| ==> LineOf(b.names, b.p.modules, i) in out.lines
    ensures IsReportOf(c, out)
  {
    forall n | n in Functions(c)
      ensures Line(n, CallCount(c, n), OwnTime(c, n)) in out.lines
    {
      var i := IndexOf(b.names, n);
      assert LineOf(b.names, b.p.modules, i) == Line(n, CallCount(c, n), OwnTime(c, n));
    }
  }

  /** A name different from the root's can only be on the side strcmp points to. */
  lemma OneSide(names: seq<string>, name: string, sub: Tree)
    requires Ordered(names, sub) && sub.Node? && names[sub.idx] != name
    ensures forall i :: i in Elements(sub) && i < |names| && names[i] == name ==>
                          i in Elements(if Less(name, names[sub.idx]) then sub.left else sub.right)
  {
    LessIsTotal(name, names[sub.idx]);
  }

  lemma NameIsNew(names: seq<string>, name: string, tree: Tree, sub: Tree)
    requires Elements(tree) == UpTo(|names|) && Ordered(names, sub) && sub.Node? && names[sub.idx] != name
    requires forall i :: i in Elements(tree) && names[i] == name ==> i in Elements(sub)
    requires (if Less(name, names[sub.idx]) then sub.left else sub.right).Leaf?
    ensures name !in names
  {
    OneSide(names, name, sub);
    if name in names {
      var i :| 0 <= i < |names| && names[i] == name;
      assert i in Elements(tree);
      assert false;
    }
  }
}
