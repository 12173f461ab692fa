/**
 The set computations of init_replace, read as transitions of the automaton:
 for a set that describes the word w, the set computed for a character c
 describes w + [c].
 */
module ReplaceTransitions {
  import opened Replacement
  import opened ReplaceStates
  import opened ReplaceAutomaton
  import opened ReplaceSets

  /** The set holds the positions after w, with the pending match and how far back it starts. */
  ghost predicate Describes(pats: seq<Text>, f: seq<Follow>, r: RowSet, w: Text)
    requires FollowTable(pats, f)
  {
    && Running(pats, f, w)
    && r.bits == Positions(pats, f, w)
    && (HasMatch(pats, w) ==>
          r.tableOffset == Best(pats, w).which && r.foundOffset == |w| - Best(pats, w).start)
  }

  lemma StartDescribesNothingRead(pats: seq<Text>, f: seq<Follow>)
    requires FollowTable(pats, f)
    ensures !HasMatch(pats, []) && Running(pats, f, []) && Positions(pats, f, []) == Starts(pats, f)
  {
    forall b: nat
      ensures !LiveBit(pats, f, [], b)
    {
    }
    assert LiveSet(pats, f, []) == {};
  }

  /** The set saved for changes: the set itself, plus the starts unless a match is pending. */
  ghost predicate IsWorking(pats: seq<Text>, f: seq<Follow>, w: Text, working: set<nat>)
    requires FollowTable(pats, f)
  {
    working == if HasMatch(pats, w) then Positions(pats, f, w) else Positions(pats, f, w) + Starts(pats, f)
  }

  lemma WorkingMeaning(pats: seq<Text>, f: seq<Follow>, w: Text, working: set<nat>)
    requires FollowTable(pats, f) && IsWorking(pats, f, w, working)
    ensures InRange(f, working)
    ensures forall b: nat :: 0 < b < |f| && f[b].chr != 0 ==> (b in working <==> OpenBit(pats, f, w, b))
    ensures forall b: nat :: 0 < b < |f| && f[b].chr == 0 ==>
                               (b in working <==> HasMatch(pats, w) && b == ClosingRow(pats, Best(pats, w).which))
    ensures forall b :: b in working && f[b].chr != 0 ==> b + 1 < |f|
  {
    PositionsInRange(pats, f, w);
    forall b: nat | 0 < b < |f| && f[b].chr != 0
      ensures b in working <==> OpenBit(pats, f, w, b)
      ensures b + 1 < |f|
    {
      OpenFromPositions(pats, f, w, b);
      RowAfter(pats, f, b);
    }
    forall b: nat | 0 < b < |f| && f[b].chr == 0
      ensures b in working <==> HasMatch(pats, w) && b == ClosingRow(pats, Best(pats, w).which)
    {
      ClosingMeansMatch(pats, f, w, b);
      assert RowOk(pats, f, b);
    }
  }

  lemma MovedMeaning(pats: seq<Text>, f: seq<Follow>, w: Text, working: set<nat>, c: Char, b: nat)
    requires FollowTable(pats, f) && IsWorking(pats, f, w, working)
    ensures MovedTo(f, working, c, b)
       <==> AdvancedBit(pats, f, w, c, b) || (HasMatch(pats, w) && b == ClosingRow(pats, Best(pats, w).which))
    ensures MovedTo(f, working, c, b) ==> 0 < b < |f|
  {
    WorkingMeaning(pats, f, w, working);
    PositionsInRange(pats, f, w);
    if 0 < b && b - 1 in working && f[b - 1].chr == c {
      assert OpenBit(pats, f, w, b - 1);
    }
  }

  lemma CompletedMeaning(pats: seq<Text>, f: seq<Follow>, w: Text, working: set<nat>, c: Char, i: nat)
    requires FollowTable(pats, f) && IsWorking(pats, f, w, working)
    ensures CompletedBy(f, working, c, i) <==> Completes(pats, f, w, c, i + 1)
    ensures CompletedBy(f, working, c, i) ==> f[i].len == Depth(f[i + 1]) && f[i].len >= 1
  {
    WorkingMeaning(pats, f, w, working);
    if 0 < i < |f| && f[i].chr != 0 {
      RowAfter(pats, f, i);
      assert RowOk(pats, f, i);
    }
  }

  /** No row of the working set is labelled c. */
  lemma NextWhenUnused(pats: seq<Text>, f: seq<Follow>, w: Text, working: set<nat>, c: Char)
    requires FollowTable(pats, f) && IsWorking(pats, f, w, working) && InRange(f, working)
    requires forall b :: b in working ==> f[b].chr != c
    ensures NextTarget(pats, f, w, c)
         == if HasMatch(pats, w) then Hit(Best(pats, w).which, |w| + 1 - Best(pats, w).start)
            else Goto(Starts(pats, f))
  {
    forall b: nat
      ensures !AdvancedBit(pats, f, w, c, b)
    {
      MovedMeaning(pats, f, w, working, c, b);
      if AdvancedBit(pats, f, w, c, b) {
        WorkingMeaning(pats, f, w, working);
        assert false;
      }
    }
    StepWithoutCompletion(pats, f, w, c);
    assert LiveSet(pats, f, w + [c]) == {};
  }

  /** Some row is labelled c and none is completed by it: the moved set is the next state. */
  lemma NextWhenMoved(pats: seq<Text>, f: seq<Follow>, r: RowSet, w: Text, working: set<nat>, c: Char, ns: RowSet,
                      b: nat)
    requires FollowTable(pats, f) && Describes(pats, f, r, w) && IsWorking(pats, f, w, working)
    requires b in working && b < |f| && f[b].chr == c
    requires forall i: nat :: !CompletedBy(f, working, c, i)
    requires IsMoved(f, working, c, ns.bits)
    requires ns.tableOffset == r.tableOffset && ns.foundOffset == r.foundOffset + 1
    ensures NextTarget(pats, f, w, c) == Goto(ns.bits)
    ensures Describes(pats, f, ns, w + [c])
  {
    var w' := w + [c];
    forall x: nat | AdvancedBit(pats, f, w, c, x)
      ensures f[x].chr != 0
    {
      CompletedMeaning(pats, f, w, working, c, x - 1);
    }
    StepWithoutCompletion(pats, f, w, c);
    WorkingMeaning(pats, f, w, working);
    RowAfter(pats, f, b);
    assert AdvancedBit(pats, f, w, c, b + 1);
    LiveIsMember(pats, f, w', b + 1);
    forall x: nat
      ensures x in ns.bits <==>
                x in LiveSet(pats, f, w') || (HasMatch(pats, w) && x == ClosingRow(pats, Best(pats, w).which))
    {
      MovedMeaning(pats, f, w, working, c, x);
      LiveIsMember(pats, f, w', x);
    }
    assert ns.bits == Positions(pats, f, w');
  }

  /** The rows of PruneSet's result are the deepest completion and what stays open. */
  lemma PrunedIsDeepest(pats: seq<Text>, f: seq<Follow>, w: Text, working: set<nat>, c: Char,
                        moved: set<nat>, foundEnd: nat, e: nat)
    requires FollowTable(pats, f) && IsWorking(pats, f, w, working) && foundEnd > 0
    requires IsMoved(f, working, c, moved)
    requires LongestCompleted(f, working, c, foundEnd)
    requires InRange(f, moved) && FirstClosing(f, moved, foundEnd, e)
    ensures FirstDeepest(pats, f, w, c, e) && Depth(f[e]) == foundEnd
  {
    var i: nat :| CompletedBy(f, working, c, i) && f[i].len == foundEnd;
    CompletedMeaning(pats, f, w, working, c, i);
    MovedMeaning(pats, f, w, working, c, i + 1);
    assert RowOk(pats, f, i + 1);
    AdvancedMeans(pats, f, w, c, i + 1);
    if HasMatch(pats, w) {
      // the pending match is shorter than anything completed now
      PositionsInRange(pats, f, w);
      var e0 := ClosingRow(pats, Best(pats, w).which);
      RowBefore(pats, f, e0);
      assert f[e0 - 1].len < foundEnd;
    }
    MovedMeaning(pats, f, w, working, c, e);
    CompletedMeaning(pats, f, w, working, c, e - 1);
    assert Completes(pats, f, w, c, e) && Depth(f[e]) == foundEnd;
    forall b: nat | AdvancedBit(pats, f, w, c, b) && f[b].chr == 0
      ensures Depth(f[b]) < Depth(f[e]) || (Depth(f[b]) == Depth(f[e]) && e <= b)
    {
      CompletedMeaning(pats, f, w, working, c, b - 1);
      MovedMeaning(pats, f, w, working, c, b);
    }
  }

  /** c completes rows: the pruned set is the next state, or the match itself if nothing stays open. */
  lemma NextWhenPruned(pats: seq<Text>, f: seq<Follow>, w: Text, working: set<nat>, c: Char,
                       moved: set<nat>, foundEnd: nat, e: nat, ns: RowSet)
    requires FollowTable(pats, f) && IsWorking(pats, f, w, working) && foundEnd > 0
    requires IsMoved(f, working, c, moved)
    requires InRange(f, moved) && FirstDeepest(pats, f, w, c, e) && Depth(f[e]) == foundEnd
    requires IsPruned(f, moved, foundEnd, e, ns.bits)
    requires ns.tableOffset == f[e].table && ns.foundOffset == foundEnd
    ensures NextTarget(pats, f, w, c) == if ns.bits == {e} then Hit(f[e].table, foundEnd) else Goto(ns.bits)
    ensures ns.bits != {e} ==> Describes(pats, f, ns, w + [c])
    ensures e in ns.bits && foundEnd == |pats[f[e].table]|
  {
    var w' := w + [c];
    StepWithCompletion(pats, f, w, c, e);
    assert RowOk(pats, f, e);
    RowBefore(pats, f, e);
    forall x: nat | x in moved
      ensures x in ns.bits <==> x == e || x in LiveSet(pats, f, w')
    {
      MovedMeaning(pats, f, w, working, c, x);
      LiveIsMember(pats, f, w', x);
      assert RowOk(pats, f, x);
      if AdvancedBit(pats, f, w, c, x) {
        AdvancedMeans(pats, f, w, c, x);
        RowBefore(pats, f, x);
      } else {
        PositionsInRange(pats, f, w);
      }
    }
    forall x: nat | x in LiveSet(pats, f, w')
      ensures x in moved
    {
      LiveIsMember(pats, f, w', x);
      MovedMeaning(pats, f, w, working, c, x);
    }
    assert e !in LiveSet(pats, f, w');
    assert ns.bits == {e} + LiveSet(pats, f, w');
    assert e == ClosingRow(pats, f[e].table);
    assert ns.bits == Positions(pats, f, w');
    assert ns.bits == {e} <==> LiveSet(pats, f, w') == {};
  }

  /** How far back a reported match may start: never more than the longest pattern. */
  lemma HitOffsetBounded(pats: seq<Text>, f: seq<Follow>, w: Text, limit: nat)
    requires FollowTable(pats, f) && Running(pats, f, w) && HasMatch(pats, w)
    requires forall i :: 0 <= i < |pats| ==> |pats[i]| <= limit
    ensures |pats[Best(pats, w).which]| <= |w| - Best(pats, w).start < limit
  {
    var b :| b in LiveSet(pats, f, w);
    assert RowOk(pats, f, b);
  }

  /** What PruneSet asks for holds of every set that MoveSet computes with a completion. */
  lemma PruneReady(pats: seq<Text>, f: seq<Follow>, w: Text, working: set<nat>, c: int, moved: set<nat>, foundEnd: nat)
    requires FollowTable(pats, f) && IsWorking(pats, f, w, working) && 0 <= c < 256
    requires IsMoved(f, working, c, moved)
    requires LongestCompleted(f, working, c, foundEnd) && foundEnd > 0
    ensures InRange(f, moved)
    ensures exists e :: e in moved && f[e - 1].len >= foundEnd && f[e].chr == 0
    ensures c == 0 ==> forall b :: b in moved ==> f[b].chr == 0
  {
    WorkingMeaning(pats, f, w, working);
    var i: nat :| CompletedBy(f, working, c, i) && f[i].len == foundEnd;
    if c == 0 {
      assert MovedTo(f, working, c, i);
      assert RowOk(pats, f, i);
      RowBefore(pats, f, i);
    } else {
      forall x: nat | x in moved
        ensures 0 < x < |f|
      {
        MovedMeaning(pats, f, w, working, c, x);
      }
      CompletedMeaning(pats, f, w, working, c, i);
      MovedMeaning(pats, f, w, working, c, i + 1);
      RowBefore(pats, f, i + 1);
    }
  }

  /** The pruned set as an entry: a found entry if one row is left, else the next state. */
  lemma PrunedEntry(pats: seq<Text>, f: seq<Follow>, r: RowSet, w: Text, working: set<nat>, c: int,
                    moved: set<nat>, foundEnd: nat, e: nat, ns: RowSet)
    requires FollowTable(pats, f) && Describes(pats, f, r, w) && IsWorking(pats, f, w, working)
    requires 0 <= c < 256 && foundEnd > 0
    requires IsMoved(f, working, c, moved)
    requires LongestCompleted(f, working, c, foundEnd)
    requires InRange(f, moved) && IsPruned(f, moved, foundEnd, e, ns.bits)
    requires ns.tableOffset == f[e].table && ns.foundOffset == (if c != 0 then foundEnd else r.foundOffset + 1)
    ensures |ns.bits| == 1 ==>
              && NextTarget(pats, f, w, c) == Hit(f[e].table, ns.foundOffset)
              && f[e].table < |pats| && |pats[f[e].table]| <= ns.foundOffset
              && (|| ns.foundOffset == |pats[f[e].table]|
                  || (HasMatch(pats, w) && ns.foundOffset == |w| + 1 - Best(pats, w).start))
    ensures |ns.bits| != 1 ==> c != 0 && NextTarget(pats, f, w, c) == Goto(ns.bits) && Describes(pats, f, ns, w + [c])
  {
    WorkingMeaning(pats, f, w, working);
    assert RowOk(pats, f, e);
    assert e in ns.bits;
    if c == 0 {
      forall b | b in ns.bits
        ensures b == e
      {
        assert KeptRow(f, moved, foundEnd, e, b) && MovedTo(f, working, c, b);
      }
      assert ns.bits == {e};
      assert MovedTo(f, working, c, e);
      PositionsInRange(pats, f, w);
    } else {
      PrunedIsDeepest(pats, f, w, working, c, moved, foundEnd, e);
      NextWhenPruned(pats, f, w, working, c, moved, foundEnd, e, ns);
      if |ns.bits| == 1 {
        SingletonIs(ns.bits, e);
      }
    }
  }

  /** No completion recorded means none happened; the end of the input always completes. */
  lemma NothingCompleted(pats: seq<Text>, f: seq<Follow>, w: Text, working: set<nat>, c: int, b: nat)
    requires FollowTable(pats, f) && IsWorking(pats, f, w, working) && InRange(f, working) && 0 <= c < 256
    requires b in working && f[b].chr == c
    requires forall i: nat :: CompletedBy(f, working, c, i) ==> f[i].len == 0
    ensures c != 0 && forall i: nat :: !CompletedBy(f, working, c, i)
  {
    assert RowOk(pats, f, b);
    assert c == 0 ==> CompletedBy(f, working, c, b);
    forall i: nat
      ensures !CompletedBy(f, working, c, i)
    {
      CompletedMeaning(pats, f, w, working, c, i);
    }
  }

  lemma NoClosingNoMatch(pats: seq<Text>, f: seq<Follow>, w: Text, working: set<nat>)
    requires FollowTable(pats, f) && IsWorking(pats, f, w, working) && InRange(f, working)
    requires forall b :: b in working ==> f[b].chr != 0
    ensures !HasMatch(pats, w)
  {
    WorkingMeaning(pats, f, w, working);
    if HasMatch(pats, w) {
      PositionsInRange(pats, f, w);
      assert false;
    }
  }

  lemma SingletonIs(s: set<nat>, e: nat)
    requires |s| == 1 && e in s
    ensures s == {e}
  {
    assert |s - {e}| == 0;
  }
}
