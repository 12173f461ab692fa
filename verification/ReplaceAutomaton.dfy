/**
 The deterministic automaton that init_replace aims at, one state per set of
 positions, and why the set alone is enough to identify a state.
 */
module ReplaceAutomaton {
  import opened Replacement
  import opened ReplaceStates

  /** The row closing pattern i. */
  function ClosingRow(pats: seq<Text>, i: nat): nat
    requires i < |pats|
  {
    Base(pats, i) + |pats[i]|
  }

  ghost function Starts(pats: seq<Text>, f: seq<Follow>): (s: set<nat>) {
    set b: nat | 0 < b < |f| && Depth(f[b]) == 0
  }

  ghost function LiveSet(pats: seq<Text>, f: seq<Follow>, w: Text): (s: set<nat>)
    requires FollowTable(pats, f)
  {
    set b: nat | 0 < b < |f| && LiveBit(pats, f, w, b)
  }

  lemma LiveIsMember(pats: seq<Text>, f: seq<Follow>, w: Text, b: nat)
    requires FollowTable(pats, f)
    ensures b in LiveSet(pats, f, w) <==> LiveBit(pats, f, w, b)
  {
  }

  /** The positions kept after reading w. */
  ghost function Positions(pats: seq<Text>, f: seq<Follow>, w: Text): (s: set<nat>)
    requires FollowTable(pats, f)
  {
    if HasMatch(pats, w) then {ClosingRow(pats, Best(pats, w).which)} + LiveSet(pats, f, w)
    else if LiveSet(pats, f, w) == {} then Starts(pats, f)
    else LiveSet(pats, f, w)
  }

  /** The scan has to go on after w: either nothing was found or it may still improve. */
  ghost predicate Running(pats: seq<Text>, f: seq<Follow>, w: Text)
    requires FollowTable(pats, f)
  {
    HasMatch(pats, w) ==> LiveSet(pats, f, w) != {}
  }

  /** Where reading c (0 at the end of the input) leads after w. */
  datatype Target = Goto(bits: set<nat>) | Hit(table: nat, offset: nat) | NoMatch

  ghost function NextTarget(pats: seq<Text>, f: seq<Follow>, w: Text, c: int): (t: Target)
    requires FollowTable(pats, f) && 0 <= c < 256
  {
    if c == 0 then
      if HasMatch(pats, w) then Hit(Best(pats, w).which, |w| + 1 - Best(pats, w).start) else NoMatch
    else
      var w' := w + [c];
      if HasMatch(pats, w') && LiveSet(pats, f, w') == {} then
        Hit(Best(pats, w').which, |w'| - Best(pats, w').start)
      else Goto(Positions(pats, f, w'))
  }

  lemma PositionsInRange(pats: seq<Text>, f: seq<Follow>, w: Text)
    requires FollowTable(pats, f)
    ensures forall b :: b in Positions(pats, f, w) ==> 0 < b < |f|
    ensures HasMatch(pats, w) ==>
              var e := ClosingRow(pats, Best(pats, w).which);
              0 < e < |f| && f[e].chr == 0 && f[e].table == Best(pats, w).which
              && Depth(f[e]) == |pats[f[e].table]|
  {
    if HasMatch(pats, w) {
      var i := Best(pats, w).which;
      RowAt(pats, f, i, |pats[i]|);
      assert RowOk(pats, f, ClosingRow(pats, i));
    }
  }

  /** A closing row is present exactly when there is a match, and then it is the best match's. */
  lemma ClosingMeansMatch(pats: seq<Text>, f: seq<Follow>, w: Text, b: nat)
    requires FollowTable(pats, f) && 0 < b < |f| && f[b].chr == 0
    ensures b in Positions(pats, f, w) <==> HasMatch(pats, w) && b == ClosingRow(pats, Best(pats, w).which)
  {
    PositionsInRange(pats, f, w);
    assert RowOk(pats, f, b);
  }

  /** The open positions can be read off the set. */
  lemma OpenFromPositions(pats: seq<Text>, f: seq<Follow>, w: Text, b: nat)
    requires FollowTable(pats, f) && 0 < b < |f| && f[b].chr != 0
    ensures OpenBit(pats, f, w, b)
       <==> b in Positions(pats, f, w) || (!HasMatch(pats, w) && Depth(f[b]) == 0)
  {
    assert RowOk(pats, f, b);
    PositionsInRange(pats, f, w);
    LiveIsMember(pats, f, w, b);
    if Depth(f[b]) == 0 {
      assert w[|w|..] == [];
    }
  }

  /** Where the pattern of a pending match first occurs in a pattern still being read. */
  lemma PendingOffset(pats: seq<Text>, f: seq<Follow>, w: Text, b: nat, o: nat)
    requires FollowTable(pats, f) && HasMatch(pats, w) && LiveBit(pats, f, w, b)
    requires RowOk(pats, f, b)
    requires OccursAt(pats[Best(pats, w).which], pats[f[b].table][..Depth(f[b])], o)
    ensures |w| - Depth(f[b]) + o >= Best(pats, w).start
  {
    var m := Best(pats, w);
    var p, q, d := pats[m.which], pats[f[b].table], Depth(f[b]);
    var s := |w| - d;
    assert w[s..] == q[..d];
    assert w[s + o..s + o + |p|] == w[s..][o..o + |p|] == p;
    assert IsMatch(pats, w, Match(s + o, m.which));
  }

  /**
   find_set may compare bits alone: the positions determine which match is
   pending and how far back it starts.
   */
  lemma PositionsDetermineMatch(pats: seq<Text>, f: seq<Follow>, w1: Text, w2: Text)
    requires FollowTable(pats, f)
    requires Running(pats, f, w1) && Running(pats, f, w2)
    requires Positions(pats, f, w1) == Positions(pats, f, w2)
    ensures HasMatch(pats, w1) <==> HasMatch(pats, w2)
    ensures HasMatch(pats, w1) ==>
              && Best(pats, w1).which == Best(pats, w2).which
              && |w1| - Best(pats, w1).start == |w2| - Best(pats, w2).start
  {
    PositionsInRange(pats, f, w1);
    PositionsInRange(pats, f, w2);
    if HasMatch(pats, w1) {
      ClosingMeansMatch(pats, f, w2, ClosingRow(pats, Best(pats, w1).which));
      var b :| b in LiveSet(pats, f, w1);
      assert RowOk(pats, f, b);
      OpenFromPositions(pats, f, w1, b);
      OpenFromPositions(pats, f, w2, b);
      PendingAtMost(pats, f, w1, w2, b);
      PendingAtMost(pats, f, w2, w1, b);
    } else if HasMatch(pats, w2) {
      ClosingMeansMatch(pats, f, w1, ClosingRow(pats, Best(pats, w2).which));
    }
  }

  lemma PendingAtMost(pats: seq<Text>, f: seq<Follow>, w1: Text, w2: Text, b: nat)
    requires FollowTable(pats, f)
    requires HasMatch(pats, w1) && HasMatch(pats, w2) && Best(pats, w1).which == Best(pats, w2).which
    requires LiveBit(pats, f, w1, b) && LiveBit(pats, f, w2, b)
    ensures |w1| - Best(pats, w1).start >= |w2| - Best(pats, w2).start
  {
    assert RowOk(pats, f, b);
    var m, d := Best(pats, w2), Depth(f[b]);
    var q := pats[f[b].table][..d];
    var s := |w2| - d;
    var o := m.start - s;
    assert w2[s..] == q;
    assert q[o..o + |pats[m.which]|] == w2[m.start..m.start + |pats[m.which]|];
    PendingOffset(pats, f, w1, b, o);
  }

  ghost predicate Completes(pats: seq<Text>, f: seq<Follow>, w: Text, c: Char, b: nat)
    requires FollowTable(pats, f)
  {
    AdvancedBit(pats, f, w, c, b) && f[b].chr == 0
  }

  /** If c completes anything there is a deepest completion listed first. */
  lemma FirstDeepestExists(pats: seq<Text>, f: seq<Follow>, w: Text, c: Char, b: nat)
    requires FollowTable(pats, f) && Completes(pats, f, w, c, b)
    ensures exists e :: FirstDeepest(pats, f, w, c, e)
  {
    var e: nat := b;
    assert RowOk(pats, f, e);
    AdvancedMeans(pats, f, w, c, e);
    while exists o: nat :: Completes(pats, f, w, c, o)
                      && !(Depth(f[o]) < Depth(f[e]) || (Depth(f[o]) == Depth(f[e]) && e <= o))
      invariant Completes(pats, f, w, c, e)
      invariant Depth(f[e]) <= |w| + 1
      decreases |w| + 1 - Depth(f[e]), e
    {
      var o: nat :| Completes(pats, f, w, c, o)
                      && !(Depth(f[o]) < Depth(f[e]) || (Depth(f[o]) == Depth(f[e]) && e <= o));
      assert RowOk(pats, f, o);
      AdvancedMeans(pats, f, w, c, o);
      e := o;
    }
    assert FirstDeepest(pats, f, w, c, e);
  }

  /** States with the same positions have the same successors. */
  lemma PositionsDetermineNext(pats: seq<Text>, f: seq<Follow>, w1: Text, w2: Text, c: int)
    requires FollowTable(pats, f) && 0 <= c < 256
    requires Running(pats, f, w1) && Running(pats, f, w2)
    requires Positions(pats, f, w1) == Positions(pats, f, w2)
    ensures NextTarget(pats, f, w1, c) == NextTarget(pats, f, w2, c)
  {
    PositionsDetermineMatch(pats, f, w1, w2);
    if c != 0 {
      forall b: nat
        ensures AdvancedBit(pats, f, w1, c, b) <==> AdvancedBit(pats, f, w2, c, b)
      {
        if 1 < b < |f| && f[b - 1].chr == c {
          OpenFromPositions(pats, f, w1, b - 1);
          OpenFromPositions(pats, f, w2, b - 1);
        }
      }
      if b: nat :| Completes(pats, f, w1, c, b) {
        FirstDeepestExists(pats, f, w1, c, b);
        var e :| FirstDeepest(pats, f, w1, c, e);
        assert FirstDeepest(pats, f, w2, c, e);
        StepWithCompletion(pats, f, w1, c, e);
        StepWithCompletion(pats, f, w2, c, e);
      } else {
        assert forall b: nat :: AdvancedBit(pats, f, w1, c, b) ==> !Completes(pats, f, w1, c, b);
        StepWithoutCompletion(pats, f, w1, c);
        StepWithoutCompletion(pats, f, w2, c);
      }
      assert LiveSet(pats, f, w1 + [c]) == LiveSet(pats, f, w2 + [c]);
    }
  }

  /** Once nothing is open any more, no continuation of the text changes the best match. */
  lemma MatchIsFinal(pats: seq<Text>, f: seq<Follow>, w: Text, u: Text)
    requires FollowTable(pats, f) && HasMatch(pats, w) && LiveSet(pats, f, w) == {}
    ensures HasMatch(pats, w + u) && Best(pats, w + u) == Best(pats, w)
  {
    var m := Best(pats, w);
    assert (w + u)[m.start..m.start + |pats[m.which]|] == w[m.start..m.start + |pats[m.which]|];
    assert IsMatch(pats, w + u, m);
    forall o | IsMatch(pats, w + u, o)
      ensures Preferred(pats, m, o)
    {
      var p := pats[o.which];
      if o.start + |p| <= |w| {
        assert (w + u)[o.start..o.start + |p|] == w[o.start..o.start + |p|];
        assert IsMatch(pats, w, o);
      } else if o.start <= m.start {
        // the part of p inside w would be an open position
        var k := |w| - o.start;
        var b := Base(pats, o.which) + k;
        RowAt(pats, f, o.which, k);
        assert RowOk(pats, f, b);
        assert p[..k] == (w + u)[o.start..o.start + |p|][..k] == w[o.start..];
        assert LiveBit(pats, f, w, b);
        LiveIsMember(pats, f, w, b);
        assert false;
      }
    }
    BestIsUnique(pats, w + u, m);
  }
}
