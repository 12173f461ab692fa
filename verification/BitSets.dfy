/** The bit sets behind the automaton of replace_result: words of 32 bits that stand for sets of row numbers. */
module BitSets {

  const WORD_BIT := 32

  function Pow2(n: nat): (p: nat)
    ensures p > 0
  {
    if n == 0 then 1 else 2 * Pow2(n - 1)
  }

  /** Bit k of a word. */
  function Bit(w: nat, k: nat): bool {
    if k == 0 then w % 2 == 1 else Bit(w / 2, k - 1)
  }

  /** The word with bit k set, or cleared. */
  function WithBit(w: nat, k: nat, on: bool): nat {
    if k == 0 then w - w % 2 + (if on then 1 else 0) else 2 * WithBit(w / 2, k - 1, on) + w % 2
  }

  function Or(w: nat, v: nat): nat {
    if w == 0 then v else if v == 0 then w
    else 2 * Or(w / 2, v / 2) + (if w % 2 == 1 || v % 2 == 1 then 1 else 0)
  }

  /** The word without its n lowest bits. */
  function ClearLow(w: nat, n: nat): nat {
    if n == 0 then w else 2 * ClearLow(w / 2, n - 1)
  }

  lemma {:induction false} WithBitIs(w: nat, k: nat, on: bool, j: nat)
    ensures Bit(WithBit(w, k, on), j) == if j == k then on else Bit(w, j)
    decreases k
  {
    if k > 0 && j > 0 {
      WithBitIs(w / 2, k - 1, on, j - 1);
    }
  }

  lemma {:induction false} NoBits(j: nat)
    ensures !Bit(0, j)
  {
    if j > 0 {
      NoBits(j - 1);
    }
  }

  lemma {:induction false} OrIs(w: nat, v: nat, j: nat)
    ensures Bit(Or(w, v), j) <==> Bit(w, j) || Bit(v, j)
  {
    NoBits(j);
    if w != 0 && v != 0 && j > 0 {
      OrIs(w / 2, v / 2, j - 1);
      assert Or(w, v) / 2 == Or(w / 2, v / 2);
    }
  }

  lemma {:induction false} ClearLowIs(w: nat, n: nat, j: nat)
    ensures Bit(ClearLow(w, n), j) <==> j >= n && Bit(w, j)
  {
    if n > 0 && j > 0 {
      ClearLowIs(w / 2, n - 1, j - 1);
    }
  }

  /** Clearing the low bits removes the remainder, as the mask does. */
  lemma {:induction false} ClearLowRemoves(w: nat, n: nat) returns (rest: nat)
    ensures ClearLow(w, n) + rest == w && rest < Pow2(n)
  {
    rest := 0;
    if n > 0 {
      var r := ClearLowRemoves(w / 2, n - 1);
      rest := 2 * r + w % 2;
    }
  }

  /** A word of n bits is determined by them. */
  lemma {:induction false} SameBits(w: nat, v: nat, n: nat)
    requires w < Pow2(n) && v < Pow2(n) && forall k :: 0 <= k < n ==> Bit(w, k) == Bit(v, k)
    ensures w == v
  {
    if n > 0 {
      assert Bit(w, 0) == Bit(v, 0);
      forall k | 0 <= k < n - 1
        ensures Bit(w / 2, k) == Bit(v / 2, k)
      {
        assert Bit(w, k + 1) == Bit(v, k + 1);
      }
      SameBits(w / 2, v / 2, n - 1);
    }
  }

  lemma {:induction false} StaysBelow(w: nat, v: nat, k: nat, on: bool, n: nat)
    requires w < Pow2(n) && v < Pow2(n)
    ensures k < n ==> WithBit(w, k, on) < Pow2(n)
    ensures Or(w, v) < Pow2(n)
    decreases n
  {
    if n > 0 {
      StaysBelow(w / 2, v / 2, if k > 0 then k - 1 else 0, on, n - 1);
    }
  }

  /** A word other than 0 has a bit. */
  lemma {:induction false} HasBit(w: nat, n: nat) returns (k: nat)
    requires 0 < w < Pow2(n)
    ensures k < n && Bit(w, k)
  {
    if w % 2 == 1 {
      k := 0;
    } else {
      k := HasBit(w / 2, n - 1);
      k := k + 1;
    }
  }

  type Words = seq<nat>

  predicate InWords(words: Words, b: nat) {
    b < WORD_BIT * |words| && Bit(words[b / WORD_BIT], b % WORD_BIT)
  }

  ghost predicate WordsOk(words: Words) {
    words == [] || (words[|words| - 1] < Pow2(WORD_BIT) && WordsOk(words[..|words| - 1]))
  }

  lemma {:induction false} WordOk(words: Words, i: nat)
    requires WordsOk(words) && i < |words|
    ensures words[i] < Pow2(WORD_BIT)
  {
    if i < |words| - 1 {
      WordOk(words[..|words| - 1], i);
    }
  }

  lemma {:induction false} OkIfEach(words: Words)
    requires forall i :: 0 <= i < |words| ==> words[i] < Pow2(WORD_BIT)
    ensures WordsOk(words)
  {
    if words != [] {
      OkIfEach(words[..|words| - 1]);
    }
  }

  /** Below n the set has the numbers whose bits are set. */
  ghost predicate AgreeBelow(words: Words, bits: set<nat>, n: nat) {
    n == 0 || ((n - 1 in bits <==> InWords(words, n - 1)) && AgreeBelow(words, bits, n - 1))
  }

  /** The words stand for the set. */
  ghost predicate Represents(words: Words, bits: set<nat>) {
    WordsOk(words) && AgreeBelow(words, bits, WORD_BIT * |words|) && Bounded(bits, WORD_BIT * |words|)
  }

  ghost predicate Bounded(bits: set<nat>, n: nat) {
    forall b :: b in bits ==> b < n
  }

  lemma {:induction false} AgreesAt(words: Words, bits: set<nat>, n: nat, b: nat)
    requires AgreeBelow(words, bits, n) && b < n
    ensures b in bits <==> InWords(words, b)
  {
    if b < n - 1 {
      AgreesAt(words, bits, n - 1, b);
    }
  }

  lemma RepresentsAll(words: Words, bits: set<nat>)
    requires Represents(words, bits)
    ensures forall b: nat :: b in bits <==> InWords(words, b)
    ensures forall i :: 0 <= i < |words| ==> words[i] < Pow2(WORD_BIT)
  {
    forall b: nat
      ensures b in bits <==> InWords(words, b)
    {
      if b < WORD_BIT * |words| {
        AgreesAt(words, bits, WORD_BIT * |words|, b);
      }
    }
    forall i | 0 <= i < |words|
      ensures words[i] < Pow2(WORD_BIT)
    {
      WordOk(words, i);
    }
  }

  lemma {:induction false} AgreeIfEach(words: Words, bits: set<nat>, n: nat)
    requires forall b: nat :: b in bits <==> InWords(words, b)
    ensures AgreeBelow(words, bits, n)
  {
    if n > 0 {
      AgreeIfEach(words, bits, n - 1);
    }
  }

  lemma RepresentsIfEach(words: Words, bits: set<nat>)
    requires forall b: nat :: b in bits <==> InWords(words, b)
    requires forall i :: 0 <= i < |words| ==> words[i] < Pow2(WORD_BIT)
    ensures Represents(words, bits)
  {
    OkIfEach(words);
    AgreeIfEach(words, bits, WORD_BIT * |words|);
  }

  /** Words of the same length are equal if and only if the sets are. */
  lemma SameWordsIffSameSet(a: Words, b: Words, s: set<nat>, t: set<nat>)
    requires Represents(a, s) && Represents(b, t) && |a| == |b|
    ensures a == b <==> s == t
  {
    RepresentsAll(a, s);
    RepresentsAll(b, t);
    if a == b {
      assert forall x: nat :: x in s <==> x in t;
    }
    if s == t {
      forall i | 0 <= i < |a|
        ensures a[i] == b[i]
      {
        forall k | 0 <= k < WORD_BIT
          ensures Bit(a[i], k) == Bit(b[i], k)
        {
          var x := WORD_BIT * i + k;
          assert x / WORD_BIT == i && x % WORD_BIT == k;
          assert InWords(a, x) <==> InWords(b, x);
        }
        SameBits(a[i], b[i], WORD_BIT);
      }
    }
  }

  /** make_new_set: no bit is set. */
  method NoneSet(size: nat) returns (words: Words)
    ensures |words| == size && Represents(words, {})
  {
    words := seq(size, _ => 0);
    forall b: nat
      ensures !InWords(words, b)
    {
      NoBits(b % WORD_BIT);
    }
    RepresentsIfEach(words, {});
  }

  method SetBit(words: Words, bit: nat, ghost bits: set<nat>) returns (more: Words)
    requires Represents(words, bits) && bit < WORD_BIT * |words|
    ensures |more| == |words| && Represents(more, bits + {bit})
  {
    var i := bit / WORD_BIT;
    more := words[i := WithBit(words[i], bit % WORD_BIT, true)];
    OneBit(words, more, bit, true, bits);
    RepresentsIfEach(more, bits + {bit});
  }

  method ClearBit(words: Words, bit: nat, ghost bits: set<nat>) returns (fewer: Words)
    requires Represents(words, bits) && bit < WORD_BIT * |words|
    ensures |fewer| == |words| && Represents(fewer, bits - {bit})
  {
    var i := bit / WORD_BIT;
    fewer := words[i := WithBit(words[i], bit % WORD_BIT, false)];
    OneBit(words, fewer, bit, false, bits);
    RepresentsIfEach(fewer, bits - {bit});
  }

  lemma OneBit(was: Words, now: Words, bit: nat, on: bool, bits: set<nat>)
    requires bit < WORD_BIT * |was| && Represents(was, bits)
    requires now == was[bit / WORD_BIT := WithBit(was[bit / WORD_BIT], bit % WORD_BIT, on)]
    ensures forall b: nat :: InWords(now, b) <==> if b == bit then on else b in bits
    ensures forall i :: 0 <= i < |now| ==> now[i] < Pow2(WORD_BIT)
  {
    RepresentsAll(was, bits);
    var i := bit / WORD_BIT;
    StaysBelow(was[i], was[i], bit % WORD_BIT, on, WORD_BIT);
    forall b: nat
      ensures InWords(now, b) <==> if b == bit then on else b in bits
    {
      if b < WORD_BIT * |was| {
        WithBitIs(was[i], bit % WORD_BIT, on, b % WORD_BIT);
      }
    }
  }

  method OrBits(to: Words, from: Words, ghost s: set<nat>, ghost t: set<nat>) returns (both: Words)
    requires Represents(to, s) && Represents(from, t) && |to| == |from|
    ensures |both| == |to| && Represents(both, s + t)
  {
    both := to;
    for i := 0 to |to|
      invariant |both| == |to|
      invariant forall j :: 0 <= j < |to| ==> both[j] == if j < i then Or(to[j], from[j]) else to[j]
    {
      both := both[i := Or(both[i], from[i])];
    }
    OrOfWords(to, from, both, s, t);
  }

  lemma OrOfWords(a: Words, b: Words, c: Words, s: set<nat>, t: set<nat>)
    requires Represents(a, s) && Represents(b, t)
    requires |a| == |b| == |c| && forall i :: 0 <= i < |a| ==> c[i] == Or(a[i], b[i])
    ensures Represents(c, s + t)
  {
    RepresentsAll(a, s);
    RepresentsAll(b, t);
    forall i | 0 <= i < |c|
      ensures c[i] < Pow2(WORD_BIT)
    {
      StaysBelow(a[i], b[i], 0, true, WORD_BIT);
    }
    forall x: nat
      ensures x in s + t <==> InWords(c, x)
    {
      if x < WORD_BIT * |a| {
        OrIs(a[x / WORD_BIT], b[x / WORD_BIT], x % WORD_BIT);
      }
    }
    RepresentsIfEach(c, s + t);
  }

  /** pos is the smallest member after last, 0 if there is none. */
  ghost predicate NextMember(bits: set<nat>, last: int, pos: nat) {
    && (pos == 0 ==> forall b :: b in bits ==> b <= last)
    && (pos != 0 ==> pos in bits && last < pos && forall b :: b in bits && last < b ==> pos <= b)
  }

  /** The next member after last, 0 if there is none; 0 is never a member. */
  method GetNextBit(words: Words, last: int, ghost bits: set<nat>) returns (pos: nat)
    requires Represents(words, bits) && -1 <= last < WORD_BIT * |words| - 1 && 0 !in bits
    ensures NextMember(bits, last, pos)
  {
    RepresentsAll(words, bits);
    var start, word := FindWord(words, last, bits);
    if word == 0 {
      return 0;
    }
    var k := LowestBit(word);
    pos := WORD_BIT * start + k;
    assert pos / WORD_BIT == start && pos % WORD_BIT == k;
    forall b | b in bits && last < b
      ensures pos <= b
    {
      assert b / WORD_BIT == start ==> Bit(word, b % WORD_BIT);
    }
  }

  /** The first word with members after last, and those members of it; the word is 0 if there are none. */
  method FindWord(words: Words, last: int, ghost bits: set<nat>) returns (start: nat, word: nat)
    requires Represents(words, bits) && -1 <= last < WORD_BIT * |words| - 1
    ensures start < |words| && word < Pow2(WORD_BIT) && HoldsAfter(words, last, start, word)
    ensures word != 0 ==> forall b :: b in bits && last < b ==> b / WORD_BIT >= start
    ensures word == 0 ==> forall b :: b in bits ==> b <= last
  {
    RepresentsAll(words, bits);
    start := (last + 1) / WORD_BIT;
    word := ClearLow(words[start], (last + 1) % WORD_BIT);
    FirstWord(words, last);
    while word == 0 && start + 1 < |words|
      invariant start < |words| && word < Pow2(WORD_BIT) && (last + 1) / WORD_BIT <= start
      invariant HoldsAfter(words, last, start, word)
      invariant forall b :: b in bits && last < b ==> b / WORD_BIT >= start
      decreases |words| - start
    {
      NoneInWord(words, last, start);
      start := start + 1;
      word := words[start];
    }
    if word == 0 {
      NoneInWord(words, last, start);
    }
  }

  /** The word has the members after last that are in word number start. */
  ghost predicate HoldsAfter(words: Words, last: int, start: nat, word: nat)
    requires start < |words|
  {
    forall k: nat :: k < WORD_BIT ==> (Bit(word, k) <==> Bit(words[start], k) && last < WORD_BIT * start + k)
  }

  lemma FirstWord(words: Words, last: int)
    requires -1 <= last < WORD_BIT * |words| - 1 && forall i :: 0 <= i < |words| ==> words[i] < Pow2(WORD_BIT)
    ensures var start, n := (last + 1) / WORD_BIT, (last + 1) % WORD_BIT;
            ClearLow(words[start], n) < Pow2(WORD_BIT) && HoldsAfter(words, last, start, ClearLow(words[start], n))
  {
    var start, n := (last + 1) / WORD_BIT, (last + 1) % WORD_BIT;
    var _ := ClearLowRemoves(words[start], n);
    forall k: nat | k < WORD_BIT
      ensures Bit(ClearLow(words[start], n), k) <==> Bit(words[start], k) && last < WORD_BIT * start + k
    {
      ClearLowIs(words[start], n, k);
    }
  }

  /** If the word is 0, the members after last are in other words. */
  lemma NoneInWord(words: Words, last: int, start: nat)
    requires start < |words| && HoldsAfter(words, last, start, 0)
    ensures forall b: nat :: InWords(words, b) && last < b ==> b / WORD_BIT != start
  {
    forall b: nat | InWords(words, b) && b / WORD_BIT == start
      ensures b <= last
    {
      NoBits(b % WORD_BIT);
      assert Bit(0, b % WORD_BIT) <==> Bit(words[start], b % WORD_BIT) && last < WORD_BIT * start + b % WORD_BIT;
    }
  }

  function Shifted(w: nat, k: nat): nat {
    if k == 0 then w else Shifted(w, k - 1) / 2
  }

  lemma {:induction false} ShiftedBit(w: nat, k: nat)
    ensures Bit(w, k) <==> Shifted(w, k) % 2 == 1
  {
    if k > 0 {
      ShiftedBit(w / 2, k - 1);
      ShiftedTail(w, k - 1);
    }
  }

  lemma {:induction false} ShiftedTail(w: nat, k: nat)
    ensures Shifted(w / 2, k) == Shifted(w, k + 1)
  {
    if k > 0 {
      ShiftedTail(w, k - 1);
    }
  }

  /** The lowest bit of a word, by shifting it down. */
  method LowestBit(word: nat) returns (k: nat)
    requires 0 < word < Pow2(WORD_BIT)
    ensures k < WORD_BIT && Bit(word, k) && forall j: nat :: j < k ==> !Bit(word, j)
  {
    ghost var set_ := HasBit(word, WORD_BIT);
    k := 0;
    var w := word;
    ShiftedBit(word, 0);
    while w % 2 == 0
      invariant k <= set_ && w == Shifted(word, k) && (Bit(word, k) <==> w % 2 == 1)
      invariant forall j: nat :: j < k ==> !Bit(word, j)
      decreases set_ - k
    {
      w := w / 2;
      k := k + 1;
      ShiftedBit(word, k);
    }
  }

  /** The number of words that init_sets allocates for a number of states. */
  function WordsFor(states: nat): nat {
    (states + 7) / 8
  }
}
