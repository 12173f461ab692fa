/**
 init_replace: the subset construction over position sets.

 A set under construction is a local value here until find_set keeps it; the
 pools behind make_new_set and free_last_set are not modelled.
 */
module ReplaceSets {
  import opened Replacement
  import opened ReplaceStates
  import opened ReplacePatterns
  import opened ReplaceAutomaton
  import opened BitSets

  /** REP_SET; tableOffset -1 is the source's ~0. */
  datatype RepSet = RepSet(bits: Words, tableOffset: int, foundOffset: int)

  /** What a REP_SET stands for: a set of rows. */
  datatype RowSet = RowSet(bits: set<nat>, tableOffset: int, foundOffset: int)

  ghost predicate Holds(f: seq<Follow>, r: RepSet, s: RowSet) {
    Keeps(f, r.bits, s.bits) && r.tableOffset == s.tableOffset && r.foundOffset == s.foundOffset
  }

  /** Words as init_sets allocates them, for one state more than there are rows. */
  ghost predicate Keeps(f: seq<Follow>, words: Words, bits: set<nat>) {
    |words| == WordsFor(|f| + 1) && Represents(words, bits)
  }

  datatype FoundSet = FoundSet(table: int, offset: int)

  method BuildFollow(froms: seq<Text>) returns (follow: seq<Follow>)
    requires AllLiteral(froms) && NonEmpty(AllDenoted(froms))
    ensures FollowTable(AllDenoted(froms), follow)
  {
    ghost var pats := AllDenoted(froms);
    follow := [Follow(0, 0, 0)];                 // row 0 is never used
    for i := 0 to |froms|
      invariant |follow| == Base(pats, i) && RowsOk(pats, follow)
    {
      follow := AppendPattern(froms[i], i, follow, pats);
    }
  }

  ghost predicate RowsOk(pats: seq<Text>, f: seq<Follow>) {
    forall b :: 0 < b < |f| ==> RowOk(pats, f, b)
  }

  /** The rows of one from-string: one for each character, and a closing one. */
  method AppendPattern(from: Text, i: nat, before: seq<Follow>, ghost pats: seq<Text>) returns (follow: seq<Follow>)
    requires i < |pats| && Codes(from) == pats[i] && |before| == Base(pats, i) > 0 && RowsOk(pats, before)
    ensures |follow| == Base(pats, i + 1) && RowsOk(pats, follow)
  {
    follow := before;
    var pos, len := 0, 0;
    assert from[0..] == from && pats[i][0..] == pats[i];
    while pos < |from|
      invariant pos <= |from| && len <= |pats[i]| && Codes(from[pos..]) == pats[i][len..]
      invariant |follow| == Base(pats, i) + len && RowsOk(pats, follow)
    {
      CodesAt(from, pos);
      var chr: int := from[pos];
      if from[pos] == BACKSLASH && pos + 1 < |from| {
        pos := pos + 1;
        chr := EscapeCode(from[pos]);
      }
      FirstOf(pats[i], len, chr, Codes(from[pos + 1..]));
      pos := pos + 1;
      len := len + 1;
      follow := AppendRow(pats, follow, Follow(chr, i, len));
    }
    assert from[pos..] == [] && len == |pats[i]|;
    follow := AppendRow(pats, follow, Follow(0, i, len));
  }

  /** The next code of a from-string. */
  lemma CodesAt(from: Text, pos: nat)
    requires pos < |from|
    ensures var escaped := from[pos] == BACKSLASH && pos + 1 < |from|;
            Codes(from[pos..]) == if escaped then [EscapeCode(from[pos + 1])] + Codes(from[pos + 2..])
                                  else [from[pos]] + Codes(from[pos + 1..])
  {
    assert from[pos..][1..] == from[pos + 1..];
    if pos + 1 < |from| {
      assert from[pos..][2..] == from[pos + 2..];
    }
  }

  lemma FirstOf(p: Text, len: nat, chr: int, rest: seq<int>)
    requires len <= |p| && p[len..] == [chr] + rest
    ensures len < |p| && p[len] == chr && p[len + 1..] == rest
  {
    assert p[len..][0] == chr && p[len..][1..] == rest;
    assert p[len..][1..] == p[len + 1..];
  }

  function AppendRow(ghost pats: seq<Text>, f: seq<Follow>, r: Follow): (g: seq<Follow>)
    requires RowsOk(pats, f) && RowOk(pats, f + [r], |f|)
    ensures g == f + [r] && RowsOk(pats, g)
  {
    assert forall b :: 0 < b < |f| ==> RowOk(pats, f, b) ==> RowOk(pats, f + [r], b);
    f + [r]
  }

  // --- one row of the transition table ---

  ghost predicate InRange(f: seq<Follow>, bits: set<nat>) {
    forall b :: b in bits ==> 0 < b < |f|
  }

  /** The characters that label a row of the set. */
  method UsedChars(f: seq<Follow>, words: Words, ghost bits: set<nat>) returns (used: set<int>)
    requires InRange(f, bits) && Keeps(f, words, bits)
    ensures forall c :: c in used <==> exists b :: b in bits && f[b].chr == c
  {
    used := {};
    var i := GetNextBit(words, -1, bits);
    while i != 0
      invariant i != 0 ==> i in bits
      invariant forall c :: c in used <==> exists b :: b in bits && f[b].chr == c && (i == 0 || b < i)
      decreases if i == 0 then 0 else |f| - i
    {
      used := used + {f[i].chr};
      i := GetNextBit(words, i, bits);
    }
  }

  /** Row i of the set is completed by chr (for chr 0: was completed before). */
  predicate CompletedBy(f: seq<Follow>, bits: set<nat>, chr: int, i: nat) {
    && i in bits && i < |f|
    && if chr == 0 then f[i].chr == 0 else f[i].chr == chr && i + 1 < |f| && f[i + 1].chr == 0
  }

  /** Member of the set reached over chr: moved rows and the closing rows, which stay. */
  predicate MovedTo(f: seq<Follow>, bits: set<nat>, chr: int, b: nat) {
    || (b in bits && b < |f| && f[b].chr == 0)
    || (chr != 0 && b > 0 && b - 1 in bits && b - 1 < |f| && f[b - 1].chr == chr)
  }

  ghost predicate IsMoved(f: seq<Follow>, bits: set<nat>, chr: int, moved: set<nat>) {
    forall b: nat :: b in moved <==> MovedTo(f, bits, chr, b)
  }

  /** foundEnd is the length of the longest completed row, 0 if there is none. */
  ghost predicate LongestCompleted(f: seq<Follow>, bits: set<nat>, chr: int, foundEnd: nat) {
    && (forall i: nat :: CompletedBy(f, bits, chr, i) ==> f[i].len <= foundEnd)
    && (foundEnd > 0 ==> exists i: nat :: CompletedBy(f, bits, chr, i) && f[i].len == foundEnd)
  }

  /** The same, from the members before i only (all of them for i == 0). */
  predicate MovedFrom(f: seq<Follow>, bits: set<nat>, chr: int, b: nat, i: nat) {
    || (b in bits && b < |f| && f[b].chr == 0 && (i == 0 || b < i))
    || (chr != 0 && b > 0 && b - 1 in bits && b - 1 < |f| && f[b - 1].chr == chr && (i == 0 || b - 1 < i))
  }

  ghost predicate IsMovedFrom(f: seq<Follow>, bits: set<nat>, chr: int, moved: set<nat>, i: nat) {
    forall b: nat :: b in moved <==> MovedFrom(f, bits, chr, b, i)
  }

  ghost predicate LongestBefore(f: seq<Follow>, bits: set<nat>, chr: int, foundEnd: nat, i: nat) {
    && (forall k: nat :: CompletedBy(f, bits, chr, k) && (i == 0 || k < i) ==> f[k].len <= foundEnd)
    && (foundEnd > 0 ==> exists k: nat :: CompletedBy(f, bits, chr, k) && f[k].len == foundEnd)
  }

  lemma MoveTurn(f: seq<Follow>, bits: set<nat>, chr: int, moved: set<nat>, i: nat, next: nat)
    requires InRange(f, bits) && i in bits && IsMovedFrom(f, bits, chr, moved, i) && NextMember(bits, i, next)
    ensures var row := if f[i].chr != 0 && f[i].chr != chr then {}
                       else if chr != 0 && f[i].chr != 0 then {i + 1} else {i};
            IsMovedFrom(f, bits, chr, moved + row, next)
  {
    assert forall b :: b in bits ==> ((next == 0 || b < next) <==> b < i || b == i);
  }

  lemma LongestTurn(f: seq<Follow>, bits: set<nat>, chr: int, foundEnd: nat, i: nat, next: nat)
    requires InRange(f, bits) && i in bits && LongestBefore(f, bits, chr, foundEnd, i) && NextMember(bits, i, next)
    ensures var longer := CompletedBy(f, bits, chr, i) && f[i].len > foundEnd;
            LongestBefore(f, bits, chr, if longer then f[i].len else foundEnd, next)
  {
    assert forall b :: b in bits ==> ((next == 0 || b < next) <==> b < i || b == i);
  }

  method MoveSet(f: seq<Follow>, words: Words, chr: int, ghost bits: set<nat>)
    returns (new_: Words, foundEnd: nat, ghost moved: set<nat>)
    requires InRange(f, bits) && Keeps(f, words, bits)
    requires forall b :: b in bits && f[b].chr != 0 ==> b + 1 < |f|
    ensures Keeps(f, new_, moved) && IsMoved(f, bits, chr, moved) && LongestCompleted(f, bits, chr, foundEnd)
  {
    new_ := NoneSet(WordsFor(|f| + 1));
    moved, foundEnd := {}, 0;
    var i := GetNextBit(words, -1, bits);
    while i != 0
      invariant i != 0 ==> i in bits
      invariant Keeps(f, new_, moved)
      invariant IsMovedFrom(f, bits, chr, moved, i) && LongestBefore(f, bits, chr, foundEnd, i)
      decreases if i == 0 then 0 else |f| - i
    {
      ghost var row, moved0, foundEnd0 := i, moved, foundEnd;
      if f[i].chr == 0 || f[i].chr == chr {
        if (chr == 0 || (f[i].chr != 0 && f[i + 1].chr == 0)) && f[i].len > foundEnd {
          foundEnd := f[i].len;
        }
        if chr != 0 && f[i].chr != 0 {
          new_ := SetBit(new_, i + 1, moved);
          moved := moved + {i + 1};
        } else {
          new_ := SetBit(new_, i, moved);
          moved := moved + {i};
        }
      }
      i := GetNextBit(words, i, bits);
      MoveTurn(f, bits, chr, moved0, row, i);
      LongestTurn(f, bits, chr, foundEnd0, row, i);
    }
    assert forall b: nat :: MovedFrom(f, bits, chr, b, 0) <==> MovedTo(f, bits, chr, b);
  }

  /**
   Keep the rows at least foundEnd deep, of the closing ones only the first;
   that one names the match.
   */
  method PruneSet(f: seq<Follow>, words: Words, foundEnd: nat, chr: int, table: int, offset: int, ghost moved: set<nat>)
    returns (new_: Words, bitsSet: nat, tableOffset: int, foundOffset: int, ghost kept: set<nat>)
    requires InRange(f, moved) && Keeps(f, words, moved) && foundEnd > 0
    requires exists e :: e in moved && f[e - 1].len >= foundEnd && f[e].chr == 0
    requires chr == 0 ==> forall b :: b in moved ==> f[b].chr == 0
    ensures Keeps(f, new_, kept) && bitsSet == |kept| && kept <= moved
    ensures exists e: nat :: IsPruned(f, moved, foundEnd, e, kept) && tableOffset == f[e].table
    ensures foundOffset == (if chr != 0 then foundEnd else offset)
  {
    new_, kept, bitsSet, tableOffset, foundOffset := words, moved, 0, table, offset;
    var foundLen := 0;
    ghost var done: set<nat> := {};
    ghost var e := 0;
    var i := GetNextBit(new_, -1, kept);
    while i != 0
      invariant i != 0 ==> i in moved
      invariant Keeps(f, new_, kept)
      invariant foundLen == 0 || foundLen == foundEnd
      invariant PrunedSoFar(f, moved, foundEnd, foundLen != 0, e, kept, done, i) && |done| == bitsSet
      invariant foundLen == 0 ==> foundOffset == offset
      invariant foundLen != 0 ==> tableOffset == f[e].table && foundOffset == (if chr != 0 then foundEnd else offset)
      decreases if i == 0 then 0 else |f| - i
    {
      ghost var row, found, kept0, done0, e0 := i, foundLen != 0, kept, done, e;
      if f[i - 1].len < foundEnd || (foundLen != 0 && (chr == 0 || f[i].chr == 0)) {
        new_ := ClearBit(new_, i, kept);
        kept := kept - {i};
      } else {
        if chr == 0 || f[i].chr == 0 {
          tableOffset := f[i].table;
          if chr != 0 {
            foundOffset := foundEnd;
          }
          foundLen := foundEnd;
          e := i;
        }
        assert i !in done;
        done := done + {i};
        bitsSet := bitsSet + 1;
      }
      i := GetNextBit(new_, i, kept);
      PruneTurn(f, moved, foundEnd, found, e0, kept0, done0, row, i);
    }
    assert done == kept;
    assert IsPruned(f, moved, foundEnd, e, kept);
  }

  /** The loop is still to come to row b. */
  ghost predicate Ahead(i: nat, b: nat) {
    i != 0 && b >= i
  }

  /** Row b is deep enough, and not a closing one unless it is the one found. */
  ghost predicate Stays(f: seq<Follow>, foundEnd: nat, found: bool, e: nat, b: nat) {
    0 < b < |f| && f[b - 1].len >= foundEnd && (f[b].chr != 0 || (found && b == e))
  }

  /** All rows before i are decided; done are those of them that stay. */
  ghost predicate PrunedSoFar(f: seq<Follow>, moved: set<nat>, foundEnd: nat, found: bool, e: nat,
                              kept: set<nat>, done: set<nat>, i: nat)
    requires InRange(f, moved)
  {
    && (forall b :: b in kept <==> b in moved && (Ahead(i, b) || Stays(f, foundEnd, found, e, b)))
    && (forall b :: b in done <==> b in kept && !Ahead(i, b))
    && (found ==> FirstClosing(f, moved, foundEnd, e) && !Ahead(i, e))
    && (!found ==> forall b :: b in moved && !Ahead(i, b) ==> f[b - 1].len < foundEnd || f[b].chr != 0)
  }

  lemma PruneTurn(f: seq<Follow>, moved: set<nat>, foundEnd: nat, found: bool, e: nat, kept: set<nat>, done: set<nat>,
                  i: nat, next: nat)
    requires InRange(f, moved) && i in moved && PrunedSoFar(f, moved, foundEnd, found, e, kept, done, i)
    requires NextMember(kept, i, next) || NextMember(kept - {i}, i, next)
    ensures next != 0 ==> next in moved
    ensures var deep, closes := f[i - 1].len >= foundEnd, f[i].chr == 0;
            if !deep || (found && closes) then PrunedSoFar(f, moved, foundEnd, found, e, kept - {i}, done, next)
            else if closes then PrunedSoFar(f, moved, foundEnd, true, i, kept, done + {i}, next)
            else PrunedSoFar(f, moved, foundEnd, found, e, kept, done + {i}, next)
  {
    assert forall b :: b in moved && i < b ==> Ahead(i, b) && b in kept && b in kept - {i};
    assert forall b :: b in moved ==> (Ahead(next, b) <==> Ahead(i, b) && b != i);
  }

  ghost predicate FirstClosing(f: seq<Follow>, moved: set<nat>, foundEnd: nat, e: nat)
    requires InRange(f, moved)
  {
    && e in moved && f[e - 1].len >= foundEnd && f[e].chr == 0
    && forall b :: b in moved && f[b - 1].len >= foundEnd && f[b].chr == 0 ==> e <= b
  }

  predicate KeptRow(f: seq<Follow>, moved: set<nat>, foundEnd: nat, e: nat, b: nat) {
    b in moved && 0 < b < |f| && f[b - 1].len >= foundEnd && (f[b].chr != 0 || b == e)
  }

  ghost predicate IsPruned(f: seq<Follow>, moved: set<nat>, foundEnd: nat, e: nat, kept: set<nat>)
    requires InRange(f, moved)
  {
    FirstClosing(f, moved, foundEnd, e) && forall b: nat :: b in kept <==> KeptRow(f, moved, foundEnd, e, b)
  }
}
