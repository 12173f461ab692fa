/**
 The driving loops of init_replace: number the sets, fill one row of 256
 transitions per set, and lay the rows out as the automaton that is run.
 */
module ReplaceInit {
  import opened BitSets
  import opened Replacement
  import opened ReplaceStates
  import opened ReplacePatterns
  import opened ReplaceAutomaton
  import opened ReplaceSets
  import opened ReplaceTransitions

  /** The number of an entry: a set (>= 0), a found entry (<= -2) or -1 for the end without a match. */
  ghost predicate Encodes(sets: seq<RowSet>, found: seq<FoundSet>, code: int, t: Target) {
    match t
    case Goto(bits) => 0 <= code < |sets| && sets[code].bits == bits
    case Hit(table, offset) => code <= -2 && -code - 2 < |found| && found[-code - 2] == FoundSet(table, offset)
    case NoMatch => code == -1
  }

  /** No set but the second has the bits of an earlier one. */
  ghost predicate DistinctSets(sets: seq<RowSet>) {
    forall m, n :: 0 <= m < n < |sets| && n != 1 ==> sets[m].bits != sets[n].bits
  }

  /** Found entries are distinct and start no further back than the longest pattern. */
  ghost predicate FoundOk(pats: seq<Text>, found: seq<FoundSet>, maxLength: nat) {
    && (forall j :: 0 <= j < |found| ==>
          0 <= found[j].table < |pats| && |pats[found[j].table]| <= found[j].offset <= maxLength)
    && (forall i, j :: 0 <= i < j < |found| ==> found[i] != found[j])
  }

  /** The row sends its characters where the automaton goes after w. */
  ghost predicate RowFor(pats: seq<Text>, f: seq<Follow>, sets: seq<RowSet>, found: seq<FoundSet>, w: Text,
                         row: seq<int>)
    requires FollowTable(pats, f)
  {
    |row| <= 256 && forall c :: 0 <= c < |row| ==> Encodes(sets, found, row[c], NextTarget(pats, f, w, c))
  }

  lemma RowMore(pats: seq<Text>, f: seq<Follow>, sets: seq<RowSet>, found: seq<FoundSet>, w: Text, row: seq<int>,
                code: int)
    requires FollowTable(pats, f) && RowFor(pats, f, sets, found, w, row) && |row| < 256
    requires Encodes(sets, found, code, NextTarget(pats, f, w, |row|))
    ensures RowFor(pats, f, sets, found, w, row + [code])
  {
  }

  /** Entries stay right while sets and found entries are only added. */
  lemma RowKept(pats: seq<Text>, f: seq<Follow>, sets: seq<RowSet>, found: seq<FoundSet>,
                sets': seq<RowSet>, found': seq<FoundSet>, w: Text, row: seq<int>)
    requires FollowTable(pats, f) && RowFor(pats, f, sets, found, w, row)
    requires sets <= sets' && found <= found'
    ensures RowFor(pats, f, sets', found', w, row)
  {
    forall c | 0 <= c < |row|
      ensures Encodes(sets', found', row[c], NextTarget(pats, f, w, c))
    {
      EntryKept(sets, found, sets', found', row[c], NextTarget(pats, f, w, c));
    }
  }

  lemma EntryKept(sets: seq<RowSet>, found: seq<FoundSet>, sets': seq<RowSet>, found': seq<FoundSet>, code: int,
                  t: Target)
    requires Encodes(sets, found, code, t) && sets <= sets' && found <= found'
    ensures Encodes(sets', found', code, t)
  {
  }

  ghost predicate AllHold(f: seq<Follow>, stored: seq<RepSet>, sets: seq<RowSet>) {
    |stored| == |sets| && forall n :: 0 <= n < |sets| ==> Holds(f, stored[n], sets[n])
  }

  /** The first set with the bits searched for, |stored| if there is none. */
  method CompareAll(f: seq<Follow>, stored: seq<RepSet>, find: RepSet, ghost sets: seq<RowSet>, ghost ns: RowSet)
    returns (code: nat)
    requires AllHold(f, stored, sets) && Holds(f, find, ns)
    ensures code <= |sets| && (code < |sets| ==> sets[code].bits == ns.bits)
    ensures forall n :: 0 <= n < code ==> sets[n].bits != ns.bits
  {
    code := 0;
    while code < |stored|
      invariant code <= |stored|
      invariant forall n :: 0 <= n < code ==> sets[n].bits != ns.bits
    {
      SameWordsIffSameSet(stored[code].bits, find.bits, sets[code].bits, ns.bits);
      if stored[code].bits == find.bits {
        return;
      }
      code := code + 1;
    }
  }

  /** REP_SETS together with found_set; rows[n] is the `next` array of set n. */
  class RepSets {
    ghost const pats: seq<Text>
    const follow: seq<Follow>
    ghost const maxLength: nat
    var stored: seq<RepSet>
    ghost var sets: seq<RowSet>                  // what the stored sets stand for
    var found: seq<FoundSet>
    var rows: seq<seq<int>>
    ghost var words: seq<Text>

    ghost predicate Consistent() {
      FollowTable(pats, follow) && forall i :: 0 <= i < |pats| ==> |pats[i]| <= maxLength
    }

    /** Every set describes the word it was first reached by. */
    ghost predicate Valid()
      reads this
    {
      && Consistent()
      && AllHold(follow, stored, sets)
      && |words| == |sets| >= 2
      && (forall n :: 0 <= n < |sets| ==> Describes(pats, follow, sets[n], words[n]))
      && sets[0].bits == sets[1].bits == Starts(pats, follow)
      && DistinctSets(sets)
      && FoundOk(pats, found, maxLength)
    }

    ghost predicate RowsDone()
      requires Consistent()
      reads this
    {
      && |rows| <= |sets| == |words|
      && forall n :: 0 <= n < |rows| ==> |rows[n]| == 256 && RowFor(pats, follow, sets, found, words[n], rows[n])
    }

    constructor (ghost pats: seq<Text>, follow: seq<Follow>, ghost maxLength: nat)
      requires FollowTable(pats, follow) && forall i :: 0 <= i < |pats| ==> |pats[i]| <= maxLength
      ensures this.pats == pats && this.follow == follow && this.maxLength == maxLength
      ensures Valid() && rows == [] && found == []
    {
      this.pats := pats;
      this.follow := follow;
      this.maxLength := maxLength;
      found, rows, words := [], [], [[], []];
      ghost var starts: set<nat> := {};
      var bits := NoneSet(WordsFor(|follow| + 1));
      var i := 1;
      while i < |follow|
        invariant 1 <= i
        invariant Keeps(follow, bits, starts)
        invariant starts == set b: nat | 0 < b < i && b < |follow| && Depth(follow[b]) == 0
      {
        if Depth(follow[i]) == 0 {
          bits := SetBit(bits, i, starts);
          starts := starts + {i};
        }
        i := i + 1;
      }
      var start := RepSet(bits, -1, 0);
      stored := [start, start];
      sets := [RowSet(starts, -1, 0), RowSet(starts, -1, 0)];
      StartDescribesNothingRead(pats, follow);
      assert starts == Starts(pats, follow);
    }

    /** The number of the set with these bits, which is added if there is none. */
    method FindSet(find: RepSet, ghost ns: RowSet, ghost w: Text) returns (code: nat)
      requires Valid() && Holds(follow, find, ns) && Describes(pats, follow, ns, w)
      modifies this`stored, this`sets, this`words
      ensures Valid() && code < |sets| && sets[code].bits == ns.bits
      ensures old(sets) <= sets && old(words) <= words
      ensures if exists n :: 0 <= n < old(|sets|) && old(sets)[n].bits == ns.bits
              then sets == old(sets) && words == old(words)
              else sets == old(sets) + [ns] && words == old(words) + [w]
    {
      code := CompareAll(follow, stored, find, sets, ns);
      if code == |stored| {
        stored, sets, words := stored + [find], sets + [ns], words + [w];
      }
    }

    method FindFound(table: nat, offset: nat) returns (code: int)
      requires Valid() && table < |pats| && |pats[table]| <= offset <= maxLength
      modifies this`found
      ensures Valid() && code <= -2 && -code - 2 < |found| && found[-code - 2] == FoundSet(table, offset)
      ensures old(found) <= found
    {
      var i := 0;
      while i < |found|
        invariant 0 <= i <= |found|
        invariant forall j :: 0 <= j < i ==> found[j] != FoundSet(table, offset)
      {
        if found[i] == FoundSet(table, offset) {
          return -i - 2;
        }
        i := i + 1;
      }
      found := found + [FoundSet(table, offset)];
      return -i - 2;
    }

    /** The entry for a character that completes a row of the working set. */
    method CompletedEntry(n: nat, chr: int, new_: Words, foundEnd: nat, ghost working: set<nat>, ghost moved: set<nat>)
      returns (code: int)
      requires Valid() && n < |sets| && 0 <= chr < 256 && Keeps(follow, new_, moved)
      requires IsWorking(pats, follow, words[n], working)
      requires IsMoved(follow, working, chr, moved) && LongestCompleted(follow, working, chr, foundEnd) && foundEnd > 0
      modifies this`stored, this`sets, this`words, this`found
      ensures Valid() && old(sets) <= sets && old(words) <= words && old(found) <= found
      ensures Encodes(sets, found, code, NextTarget(pats, follow, words[n], chr))
    {
      var find, bitsSet, ns := PrunedSet(stored[n], chr, new_, foundEnd, sets[n], words[n], working, moved);
      if bitsSet == 1 {
        code := FindFound(find.tableOffset, find.foundOffset);
      } else {
        code := FindSet(find, ns, words[n] + [chr]);
      }
    }

    method PrunedSet(set_: RepSet, chr: int, new_: Words, foundEnd: nat,
                     ghost from: RowSet, ghost w: Text, ghost working: set<nat>, ghost moved: set<nat>)
      returns (find: RepSet, bitsSet: nat, ghost ns: RowSet)
      requires Consistent() && Holds(follow, set_, from) && Keeps(follow, new_, moved)
      requires Describes(pats, follow, from, w) && IsWorking(pats, follow, w, working)
      requires 0 <= chr < 256 && foundEnd > 0
      requires IsMoved(follow, working, chr, moved) && LongestCompleted(follow, working, chr, foundEnd)
      ensures Holds(follow, find, ns)
      ensures bitsSet == 1 ==>
                && 0 <= ns.tableOffset < |pats| && 0 <= ns.foundOffset
                && NextTarget(pats, follow, w, chr) == Hit(ns.tableOffset, ns.foundOffset)
                && |pats[ns.tableOffset]| <= ns.foundOffset <= maxLength
      ensures bitsSet != 1 ==>
                chr != 0 && NextTarget(pats, follow, w, chr) == Goto(ns.bits) && Describes(pats, follow, ns, w + [chr])
    {
      PruneReady(pats, follow, w, working, chr, moved, foundEnd);
      var pruned, count, table, offset, kept :=
        PruneSet(follow, new_, foundEnd, chr, set_.tableOffset, set_.foundOffset + 1, moved);
      find, bitsSet, ns := RepSet(pruned, table, offset), count, RowSet(kept, table, offset);
      PrunedFacts(from, w, working, chr, moved, foundEnd, ns);
    }

    /** The entry for a character that labels some row of the working set. */
    method UsedEntry(n: nat, bits: Words, chr: int, ghost working: set<nat>) returns (code: int)
      requires Valid() && n < |sets| && 0 <= chr < 256 && Keeps(follow, bits, working)
      requires IsWorking(pats, follow, words[n], working) && InRange(follow, working)
      requires exists b :: b in working && follow[b].chr == chr
      modifies this`stored, this`sets, this`words, this`found
      ensures Valid() && old(sets) <= sets && old(words) <= words && old(found) <= found
      ensures Encodes(sets, found, code, NextTarget(pats, follow, words[n], chr))
    {
      ghost var w := words[n];
      var set_, from := stored[n], sets[n];
      WorkingMeaning(pats, follow, w, working);
      var new_, foundEnd, moved := MoveSet(follow, bits, chr, working);
      if foundEnd > 0 {
        code := CompletedEntry(n, chr, new_, foundEnd, working, moved);
      } else {
        ghost var ns := RowSet(moved, from.tableOffset, from.foundOffset + 1);
        ghost var b :| b in working && follow[b].chr == chr;
        NothingCompleted(pats, follow, w, working, chr, b);
        NextWhenMoved(pats, follow, from, w, working, chr, ns, b);
        code := FindSet(RepSet(new_, set_.tableOffset, set_.foundOffset + 1), ns, w + [chr]);
      }
    }

    lemma PrunedFacts(from: RowSet, w: Text, working: set<nat>, chr: int, moved: set<nat>, foundEnd: nat, ns: RowSet)
      requires Consistent() && Describes(pats, follow, from, w) && IsWorking(pats, follow, w, working)
      requires 0 <= chr < 256 && foundEnd > 0
      requires IsMoved(follow, working, chr, moved) && LongestCompleted(follow, working, chr, foundEnd)
      requires InRange(follow, moved)
      requires exists e: nat :: IsPruned(follow, moved, foundEnd, e, ns.bits) && ns.tableOffset == follow[e].table
      requires ns.foundOffset == if chr != 0 then foundEnd else from.foundOffset + 1
      ensures |ns.bits| == 1 ==>
                && 0 <= ns.tableOffset < |pats| && 0 <= ns.foundOffset
                && NextTarget(pats, follow, w, chr) == Hit(ns.tableOffset, ns.foundOffset)
                && |pats[ns.tableOffset]| <= ns.foundOffset <= maxLength
      ensures |ns.bits| != 1 ==>
                chr != 0 && NextTarget(pats, follow, w, chr) == Goto(ns.bits) && Describes(pats, follow, ns, w + [chr])
    {
      var e: nat :| IsPruned(follow, moved, foundEnd, e, ns.bits) && ns.tableOffset == follow[e].table;
      PrunedEntry(pats, follow, from, w, working, chr, moved, foundEnd, e, ns);
      if HasMatch(pats, w) {
        HitOffsetBounded(pats, follow, w, maxLength);
      }
    }

    /** The entry for one character of the row of set n. */
    method NextEntry(n: nat, bits: Words, used: set<int>, defaultState: int, chr: int, ghost working: set<nat>)
      returns (code: int)
      requires Valid() && n < |sets| && 0 <= chr < 256 && Keeps(follow, bits, working)
      requires IsWorking(pats, follow, words[n], working) && InRange(follow, working)
      requires forall c :: c in used <==> exists b :: b in working && follow[b].chr == c
      requires Encodes(sets, found, defaultState, DefaultTarget(words[n]))
      modifies this`stored, this`sets, this`words, this`found
      ensures Valid() && old(sets) <= sets && old(words) <= words && old(found) <= found
      ensures Encodes(sets, found, code, NextTarget(pats, follow, words[n], chr))
    {
      if chr in used {
        code := UsedEntry(n, bits, chr, working);
      } else if chr == 0 {
        NoClosingNoMatch(pats, follow, words[n], working);
        code := -1;
      } else {
        NextWhenUnused(pats, follow, words[n], working, chr);
        code := defaultState;
      }
    }

    /** Where an unlabelled character leads: report the pending match, or start again. */
    ghost function DefaultTarget(w: Text): (t: Target)
      requires Consistent()
    {
      if HasMatch(pats, w) then Hit(Best(pats, w).which, |w| + 1 - Best(pats, w).start)
      else Goto(Starts(pats, follow))
    }

    /** The entry for unlabelled characters; 0, the start, unless a match is pending. */
    method DefaultState(n: nat) returns (code: int)
      requires Valid() && n < |sets|
      modifies this`found
      ensures Valid() && old(found) <= found
      ensures Encodes(sets, found, code, DefaultTarget(words[n]))
      ensures code == 0 <==> !HasMatch(pats, words[n])
    {
      ghost var w := words[n];
      var set_ := stored[n];
      ghost var bits := sets[n].bits;
      PositionsInRange(pats, follow, w);
      code := 0;
      var i := GetNextBit(set_.bits, -1, bits);
      while i != 0
        invariant Valid() && old(found) <= found
        invariant i != 0 ==> i in bits
        invariant code == 0 ==> forall b :: b in bits && (i == 0 || b < i) ==> follow[b].chr != 0
        invariant code != 0 ==> HasMatch(pats, w) && Encodes(sets, found, code, DefaultTarget(w))
        decreases if i == 0 then 0 else |follow| - i
      {
        if follow[i].chr == 0 {
          ClosingMeansMatch(pats, follow, w, i);
          HitOffsetBounded(pats, follow, w, maxLength);
          if code == 0 {
            code := FindFound(set_.tableOffset, set_.foundOffset + 1);
          }
        }
        i := GetNextBit(set_.bits, i, bits);
      }
    }

    /** All 256 entries of set n. */
    method FillRow(n: nat) returns (row: seq<int>)
      requires Valid() && n < |sets|
      modifies this`stored, this`sets, this`words, this`found
      ensures Valid() && old(sets) <= sets && old(words) <= words && old(found) <= found
      ensures |row| == 256 && RowFor(pats, follow, sets, found, words[n], row)
    {
      ghost var w := words[n];
      var defaultState := DefaultState(n);
      ghost var working := sets[n].bits;
      var bits := stored[n].bits;
      if defaultState == 0 {
        bits := OrBits(bits, stored[0].bits, working, sets[0].bits);
        working := working + sets[0].bits;
      }
      WorkingMeaning(pats, follow, w, working);
      var used := UsedChars(follow, bits, working);
      row := [];
      for chr := 0 to 256
        invariant Valid() && old(sets) <= sets && old(words) <= words && old(found) <= found
        invariant Encodes(sets, found, defaultState, DefaultTarget(w))
        invariant |row| == chr && RowFor(pats, follow, sets, found, w, row)
      {
        ghost var sets0, found0 := sets, found;
        var code := NextEntry(n, bits, used, defaultState, chr, working);
        RowKept(pats, follow, sets0, found0, sets, found, w, row);
        EntryKept(sets0, found0, sets, found, defaultState, DefaultTarget(w));
        RowMore(pats, follow, sets, found, w, row, code);
        row := row + [code];
      }
    }

    /** Sets of rows that no set built so far has. */
    ghost function Unseen(): (u: set<set<nat>>)
      reads this
    {
      (set s: set<nat> | s <= Below(|follow|)) - (set n | 0 <= n < |sets| :: sets[n].bits)
    }

    /** Adding sets uses up sets of rows not seen before. */
    twostate lemma GrowthUsesUnseen()
      requires old(Valid()) && Valid() && old(sets) <= sets
      ensures Unseen() <= old(Unseen())
      ensures |sets| > old(|sets|) ==> Unseen() < old(Unseen())
    {
      assert forall n :: 0 <= n < old(|sets|) ==> old(sets)[n] == sets[n];
      if |sets| > old(|sets|) {
        var added := sets[old(|sets|)].bits;
        PositionsInRange(pats, follow, words[old(|sets|)]);
        assert added <= Below(|follow|);
        assert added in old(Unseen()) && added !in Unseen();
      }
    }

    /**
     The main loop. It ends because a set is only kept if no earlier one has
     its bits, and there are finitely many sets of rows.
     */
    method FillTable()
      requires Valid() && rows == []
      modifies this
      ensures Valid() && RowsDone() && |rows| == |sets|
      ensures |found| <= maxLength * |pats|
    {
      while |rows| < |stored|
        invariant Valid() && RowsDone()
        decreases Unseen(), |sets| - |rows|
      {
        ghost var sets0, found0 := sets, found;
        label before:
        var row := FillRow(|rows|);
        GrowthUsesUnseen@before();
        forall n | 0 <= n < |rows|
          ensures RowFor(pats, follow, sets, found, words[n], rows[n])
        {
          RowKept(pats, follow, sets0, found0, sets, found, words[n], rows[n]);
        }
        rows := rows + [row];
      }
      FoundEntriesFit(pats, found, maxLength);
    }
  }

  /** The buffer of max_length * count found entries is never overrun. */
  lemma FoundEntriesFit(pats: seq<Text>, found: seq<FoundSet>, maxLength: nat)
    requires NonEmpty(pats) && FoundOk(pats, found, maxLength)
    ensures |found| <= maxLength * |pats|
  {
    var entries := set j | 0 <= j < |found| :: found[j];
    CountDistinct(found);
    assert entries <= Grid(|pats|, maxLength);
    SubsetSize(entries, Grid(|pats|, maxLength));
  }

  lemma {:induction false} CountDistinct(found: seq<FoundSet>)
    requires forall i, j :: 0 <= i < j < |found| ==> found[i] != found[j]
    ensures |set j | 0 <= j < |found| :: found[j]| == |found|
    decreases |found|
  {
    if found != [] {
      var n := |found| - 1;
      var front := found[..n];
      CountDistinct(front);
      assert (set j | 0 <= j < |found| :: found[j]) == (set j | 0 <= j < n :: front[j]) + {found[n]};
    }
  }

  lemma {:induction false} SubsetSize(a: set<FoundSet>, b: set<FoundSet>)
    requires a <= b
    ensures |a| <= |b|
    decreases |a|
  {
    if a != {} {
      var x :| x in a;
      SubsetSize(a - {x}, b - {x});
    }
  }

  ghost function Below(n: nat): (r: set<nat>)
    ensures forall b: nat :: b in r <==> 0 < b < n
  {
    if n <= 1 then {} else Below(n - 1) + {n - 1}
  }

  ghost function Column(t: nat, offsets: nat): (c: set<FoundSet>)
    ensures |c| == offsets && forall e :: e in c <==> e.table == t && 1 <= e.offset <= offsets
  {
    if offsets == 0 then {} else Column(t, offsets - 1) + {FoundSet(t, offsets)}
  }

  /** All pairs of a table below `tables` and an offset from 1 to `offsets`. */
  ghost function Grid(tables: nat, offsets: nat): (g: set<FoundSet>)
    ensures |g| == offsets * tables
    ensures forall e :: e in g <==> 0 <= e.table < tables && 1 <= e.offset <= offsets
  {
    if tables == 0 then {}
    else
      assert offsets * tables == offsets * (tables - 1) + offsets;
      Grid(tables - 1, offsets) + Column(tables - 1, offsets)
  }
}
