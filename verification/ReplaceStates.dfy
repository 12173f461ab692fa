/**
 What a state of the replace automaton means: the positions inside the patterns
 that are still open after reading a word, and the best match seen so far.

 Positions are numbered as in the `follow` table of init_replace: the positions
 of pattern 0 first, one row per character and one closing row (chr == 0).
 */
module ReplaceStates {
  import opened Replacement

  datatype Follow = Follow(chr: int, table: nat, len: nat)

  function Depth(r: Follow): int {
    if r.chr == 0 then r.len else r.len - 1
  }

  /** Row number of the first character of pattern i. */
  function Base(pats: seq<Text>, i: nat): nat
    requires i <= |pats|
  {
    if i == 0 then 1 else Base(pats, i - 1) + |pats[i - 1]| + 1
  }

  predicate RowOk(pats: seq<Text>, f: seq<Follow>, b: nat)
    requires b < |f|
  {
    var r := f[b];
    && r.table < |pats|
    && 0 <= Depth(r) <= |pats[r.table]|
    && r.chr == (if Depth(r) < |pats[r.table]| then pats[r.table][Depth(r)] else 0)
    && b == Base(pats, r.table) + Depth(r)
  }

  ghost predicate FollowTable(pats: seq<Text>, f: seq<Follow>) {
    && NonEmpty(pats)
    && |f| == Base(pats, |pats|)
    && forall b: nat :: 0 < b < |f| ==> RowOk(pats, f, b)
  }

  lemma {:induction false} BaseIncreases(pats: seq<Text>, i: nat, j: nat)
    requires i < j <= |pats|
    ensures 1 <= Base(pats, i) && Base(pats, i) + |pats[i]| < Base(pats, j)
    decreases j
  {
    if i == 0 && j == 1 {
    } else if i < j - 1 {
      BaseIncreases(pats, i, j - 1);
    } else {
      BaseIncreases(pats, i - 1, i);
    }
  }

  /** Row Base(i)+k belongs to pattern i at depth k, and to nothing else. */
  lemma RowAt(pats: seq<Text>, f: seq<Follow>, i: nat, k: nat)
    requires FollowTable(pats, f) && i < |pats| && k <= |pats[i]|
    ensures 0 < Base(pats, i) + k < |f|
    ensures f[Base(pats, i) + k].table == i && Depth(f[Base(pats, i) + k]) == k
  {
    var b := Base(pats, i) + k;
    BaseIncreases(pats, i, |pats|);
    assert RowOk(pats, f, b);
    var j := f[b].table;
    if j < i {
      BaseIncreases(pats, j, i);
    } else if i < j {
      BaseIncreases(pats, i, j);
    }
  }

  /** The rows around a row that is not the first of its pattern. */
  lemma RowBefore(pats: seq<Text>, f: seq<Follow>, b: nat)
    requires FollowTable(pats, f) && 0 < b < |f| && Depth(f[b]) >= 1
    ensures RowOk(pats, f, b)
    ensures 0 < b - 1 && f[b - 1].table == f[b].table && Depth(f[b - 1]) == Depth(f[b]) - 1
    ensures f[b - 1].chr == pats[f[b].table][Depth(f[b]) - 1] && f[b - 1].len == Depth(f[b])
  {
    assert RowOk(pats, f, b);
    RowAt(pats, f, f[b].table, Depth(f[b]) - 1);
    assert RowOk(pats, f, b - 1);
  }

  lemma RowAfter(pats: seq<Text>, f: seq<Follow>, b: nat)
    requires FollowTable(pats, f) && 0 < b < |f| && f[b].chr != 0
    ensures b + 1 < |f| && f[b + 1].table == f[b].table && Depth(f[b + 1]) == Depth(f[b]) + 1
    ensures f[b].len == Depth(f[b + 1])
  {
    assert RowOk(pats, f, b);
    RowAt(pats, f, f[b].table, Depth(f[b]) + 1);
  }

  /** Rows of the same depth are ordered as their patterns are. */
  lemma RowsOrdered(pats: seq<Text>, f: seq<Follow>, a: nat, b: nat)
    requires FollowTable(pats, f) && 0 < a < |f| && 0 < b < |f| && Depth(f[a]) == Depth(f[b])
    ensures a <= b <==> f[a].table <= f[b].table
    ensures a == b <==> f[a].table == f[b].table
  {
    assert RowOk(pats, f, a) && RowOk(pats, f, b);
    if f[a].table < f[b].table {
      BaseIncreases(pats, f[a].table, f[b].table);
    } else if f[b].table < f[a].table {
      BaseIncreases(pats, f[b].table, f[a].table);
    }
  }

  // --- words and positions ---

  /** The last Depth characters of w are the beginning of the row's pattern. */
  predicate Thread(pats: seq<Text>, f: seq<Follow>, w: Text, b: nat)
    requires b < |f| && RowOk(pats, f, b)
  {
    var k := Depth(f[b]);
    k <= |w| && w[|w| - k..] == pats[f[b].table][..k]
  }

  /** An unfinished match that could still be preferred to the best match in w. */
  ghost predicate OpenBit(pats: seq<Text>, f: seq<Follow>, w: Text, b: nat)
    requires FollowTable(pats, f)
  {
    && 0 < b < |f|
    && f[b].chr != 0
    && Thread(pats, f, w, b)
    && (HasMatch(pats, w) ==> |w| - Depth(f[b]) <= Best(pats, w).start)
  }

  ghost predicate LiveBit(pats: seq<Text>, f: seq<Follow>, w: Text, b: nat)
    requires FollowTable(pats, f)
  {
    OpenBit(pats, f, w, b) && Depth(f[b]) >= 1
  }

  /** The open positions of w moved over character c. */
  ghost predicate AdvancedBit(pats: seq<Text>, f: seq<Follow>, w: Text, c: Char, b: nat)
    requires FollowTable(pats, f)
  {
    1 < b < |f| && OpenBit(pats, f, w, b - 1) && f[b - 1].chr == c
  }

  lemma ThreadStep(pats: seq<Text>, f: seq<Follow>, w: Text, c: Char, b: nat)
    requires FollowTable(pats, f) && 0 < b < |f| && Depth(f[b]) >= 1
    requires RowOk(pats, f, b)
    ensures 0 < b - 1 && RowOk(pats, f, b - 1)
    ensures Thread(pats, f, w + [c], b) <==> Thread(pats, f, w, b - 1) && f[b - 1].chr == c
  {
    RowBefore(pats, f, b);
    assert RowOk(pats, f, b - 1);
    var p, k := pats[f[b].table], Depth(f[b]);
    assert p[..k] == p[..k - 1] + [p[k - 1]];
    if k <= |w| + 1 {
      assert (w + [c])[|w| + 1 - k..] == w[|w| - (k - 1)..] + [c];
      if p[..k] == (w + [c])[|w| + 1 - k..] {
        assert p[..k - 1] == p[..k][..k - 1] == w[|w| - (k - 1)..];
        assert p[k - 1] == p[..k][k - 1] == c;
      }
    }
  }

  lemma AdvancedMeans(pats: seq<Text>, f: seq<Follow>, w: Text, c: Char, b: nat)
    requires FollowTable(pats, f) && 0 < b < |f|
    requires RowOk(pats, f, b)
    ensures AdvancedBit(pats, f, w, c, b)
       <==> && Depth(f[b]) >= 1 && Thread(pats, f, w + [c], b)
            && (HasMatch(pats, w) ==> |w| + 1 - Depth(f[b]) <= Best(pats, w).start)
  {
    if Depth(f[b]) >= 1 {
      ThreadStep(pats, f, w, c, b);
      RowBefore(pats, f, b);
    } else if 1 < b && f[b - 1].chr != 0 {
      assert RowOk(pats, f, b - 1);
      RowAfter(pats, f, b - 1);
      assert false;
    }
  }

  /** Reading one character adds only matches that end with it. */
  lemma MatchStep(pats: seq<Text>, w: Text, c: Char, m: Match)
    requires m.which < |pats|
    ensures m.start + |pats[m.which]| <= |w| ==> (IsMatch(pats, w + [c], m) <==> IsMatch(pats, w, m))
    ensures m.start + |pats[m.which]| > |w| ==> !IsMatch(pats, w, m)
    ensures IsMatch(pats, w, m) ==> IsMatch(pats, w + [c], m)
  {
    if m.start + |pats[m.which]| <= |w| {
      assert (w + [c])[m.start..m.start + |pats[m.which]|] == w[m.start..m.start + |pats[m.which]|];
    }
  }

  /** A match ending at the last character is a thread at full depth, and conversely. */
  lemma MatchAtEnd(pats: seq<Text>, f: seq<Follow>, w: Text, m: Match)
    requires FollowTable(pats, f) && m.which < |pats| && m.start + |pats[m.which]| == |w|
    ensures var b := Base(pats, m.which) + |pats[m.which]|;
            && 0 < b < |f| && RowOk(pats, f, b) && f[b].chr == 0 && Depth(f[b]) == |pats[m.which]|
            && f[b].table == m.which
            && (IsMatch(pats, w, m) <==> Thread(pats, f, w, b))
  {
    var p := pats[m.which];
    var b := Base(pats, m.which) + |p|;
    RowAt(pats, f, m.which, |p|);
    assert RowOk(pats, f, b);
    assert w[m.start..] == w[m.start..m.start + |p|];
    assert p[..|p|] == p;
  }

  /** When no open position is completed by c, the best match stays what it was. */
  lemma StepWithoutCompletion(pats: seq<Text>, f: seq<Follow>, w: Text, c: Char)
    requires FollowTable(pats, f)
    requires forall b: nat :: AdvancedBit(pats, f, w, c, b) ==> f[b].chr != 0
    ensures HasMatch(pats, w + [c]) <==> HasMatch(pats, w)
    ensures HasMatch(pats, w) ==> Best(pats, w + [c]) == Best(pats, w)
    ensures forall b: nat :: LiveBit(pats, f, w + [c], b) <==> AdvancedBit(pats, f, w, c, b)
  {
    var w' := w + [c];
    forall m | IsMatch(pats, w', m)
      ensures IsMatch(pats, w, m) || (HasMatch(pats, w) && m.start > Best(pats, w).start)
    {
      MatchStep(pats, w, c, m);
      if !IsMatch(pats, w, m) {
        MatchAtEnd(pats, f, w', m);
        AdvancedMeans(pats, f, w, c, Base(pats, m.which) + |pats[m.which]|);
      }
    }
    if HasMatch(pats, w) {
      var m := Best(pats, w);
      MatchStep(pats, w, c, m);
      assert IsBest(pats, w', m);
      BestIsUnique(pats, w', m);
    }
    forall b: nat
      ensures LiveBit(pats, f, w', b) <==> AdvancedBit(pats, f, w, c, b)
    {
      if 0 < b < |f| {
        assert RowOk(pats, f, b);
        AdvancedMeans(pats, f, w, c, b);
      }
    }
  }

  /** The completed position that init_replace keeps: deepest, then listed first. */
  ghost predicate FirstDeepest(pats: seq<Text>, f: seq<Follow>, w: Text, c: Char, e: nat)
    requires FollowTable(pats, f)
  {
    && AdvancedBit(pats, f, w, c, e) && f[e].chr == 0
    && forall b: nat :: AdvancedBit(pats, f, w, c, b) && f[b].chr == 0 ==>
                     Depth(f[b]) < Depth(f[e]) || (Depth(f[b]) == Depth(f[e]) && e <= b)
  }

  /** When c completes open positions, the deepest one is the new best match. */
  lemma StepWithCompletion(pats: seq<Text>, f: seq<Follow>, w: Text, c: Char, e: nat)
    requires FollowTable(pats, f) && FirstDeepest(pats, f, w, c, e)
    ensures |w| + 1 >= Depth(f[e])
    ensures HasMatch(pats, w + [c])
    ensures Best(pats, w + [c]) == Match(|w| + 1 - Depth(f[e]), f[e].table)
    ensures forall b: nat :: LiveBit(pats, f, w + [c], b)
                   <==> AdvancedBit(pats, f, w, c, b) && f[b].chr != 0 && Depth(f[b]) >= Depth(f[e])
  {
    var w' := w + [c];
    assert RowOk(pats, f, e);
    AdvancedMeans(pats, f, w, c, e);
    var best := Match(|w'| - Depth(f[e]), f[e].table);
    MatchAtEnd(pats, f, w', best);
    assert IsMatch(pats, w', best);
    forall m | IsMatch(pats, w', m)
      ensures Preferred(pats, best, m)
    {
      MatchStep(pats, w, c, m);
      if IsMatch(pats, w, m) {
        assert Preferred(pats, Best(pats, w), m);
      } else {
        MatchAtEnd(pats, f, w', m);
        var b := Base(pats, m.which) + |pats[m.which]|;
        AdvancedMeans(pats, f, w, c, b);
        if AdvancedBit(pats, f, w, c, b) && Depth(f[b]) == Depth(f[e]) {
          RowsOrdered(pats, f, e, b);
        }
      }
    }
    BestIsUnique(pats, w', best);
    forall b: nat
      ensures LiveBit(pats, f, w', b)
         <==> AdvancedBit(pats, f, w, c, b) && f[b].chr != 0 && Depth(f[b]) >= Depth(f[e])
    {
      if 0 < b < |f| {
        assert RowOk(pats, f, b);
        AdvancedMeans(pats, f, w, c, b);
      }
    }
  }
}
