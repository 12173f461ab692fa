/** The chained hash table behind word completion: buckets linked from an array of chain heads. */
module CompletionTable {
  import opened PrefixIndex

  function SignExtend(b: Byte): bv32 {
    if b < 0x80 then b as bv32 else 0xFFFF_FF00 | (b as bv32)
  }

  function PjwStep(h: bv32, b: Byte): bv32 {
    var shifted := (h << 4) + SignExtend(b);
    var g := shifted & 0xF000_0000;
    if g != 0 then (shifted ^ (g >> 24)) ^ g else shifted
  }

  ghost function Pjw(key: seq<Byte>): bv32 {
    if key == [] then 0 else PjwStep(Pjw(key[..|key| - 1]), key[|key| - 1])
  }

  /** The hash is below 2^28, so that no shift loses a bit. */
  method HashPjw(key: seq<Byte>) returns (h: bv32)
    ensures h == Pjw(key) && h < 0x1000_0000
  {
    h := 0;
    for i := 0 to |key|
      invariant h == Pjw(key[..i]) && h < 0x1000_0000
    {
      h := PjwStep(h, key[i]);
      assert key[..i + 1][..i] == key[..i];
    }
    assert key[..|key|] == key;
  }

  class Bucket {
    const h: bv32
    const key: seq<Byte>
    const next: Bucket?
    var count: nat
    var data: seq<Word>

    constructor (h: bv32, key: seq<Byte>, w: Word, next: Bucket?)
      ensures this.h == h && this.key == key && this.next == next && count == 1 && data == [w]
    {
      this.h, this.key, this.next, count, data := h, key, next, 1, [w];
    }
  }

  type Index = map<seq<Byte>, Bucket>

  ghost function Slot(key: seq<Byte>, size: nat): (i: nat)
    requires size > 0
    ensures i < size
  {
    Pjw(key) as nat % size
  }

  /** The links from the head on go through the chain and end. */
  ghost predicate Linked(head: Bucket?, chain: seq<Bucket>) {
    if chain == [] then head == null else head == chain[0] && Linked(chain[0].next, chain[1..])
  }

  /** Every bucket of chain i is the only one of its key, which belongs to that chain. */
  ghost predicate Holds(i: nat, size: nat, chain: seq<Bucket>, index: Index)
    requires size > 0
  {
    chain == [] || (Indexed(i, size, chain[0], index) && chain[0] !in chain[1..] && Holds(i, size, chain[1..], index))
  }

  ghost predicate Indexed(i: nat, size: nat, b: Bucket, index: Index)
    requires size > 0
  {
    b.key in index && index[b.key] == b && b.h == Pjw(b.key) && Slot(b.key, size) == i
  }

  lemma {:induction false} HeldIsIndexed(i: nat, size: nat, chain: seq<Bucket>, index: Index)
    requires size > 0 && Holds(i, size, chain, index)
    ensures forall b :: b in chain ==> Indexed(i, size, b, index)
    ensures Unrepeated(chain)
  {
    if chain != [] {
      HeldIsIndexed(i, size, chain[1..], index);
    }
  }

  ghost predicate Unrepeated(chain: seq<Bucket>) {
    chain == [] || (chain[0] !in chain[1..] && Unrepeated(chain[1..]))
  }

  /** The chains of the first n slots are as they should be. */
  ghost predicate SlotsBelow(heads: seq<Bucket?>, chains: seq<seq<Bucket>>, index: Index, n: nat)
    requires n <= |heads| == |chains| && chains != []
  {
    n == 0 || (Linked(heads[n - 1], chains[n - 1]) && Holds(n - 1, |chains|, chains[n - 1], index)
               && SlotsBelow(heads, chains, index, n - 1))
  }

  /** The bucket of the key is in the chain of the key. */
  ghost predicate Reached(key: seq<Byte>, chains: seq<seq<Bucket>>, index: Index)
    requires chains != [] && key in index
  {
    index[key].key == key && index[key] in chains[Slot(key, |chains|)]
  }

  ghost predicate Structure(heads: seq<Bucket?>, chains: seq<seq<Bucket>>, index: Index) {
    && |heads| == |chains| > 0
    && SlotsBelow(heads, chains, index, |chains|)
    && (forall key :: key in index ==> Reached(key, chains, index))
  }

  lemma {:induction false} SlotAt(heads: seq<Bucket?>, chains: seq<seq<Bucket>>, index: Index, n: nat, i: nat)
    requires i < n <= |heads| == |chains| && SlotsBelow(heads, chains, index, n)
    ensures Linked(heads[i], chains[i]) && Holds(i, |chains|, chains[i], index)
  {
    if i < n - 1 {
      SlotAt(heads, chains, index, n - 1, i);
    }
  }

  /** A new bucket in front of its chain. */
  lemma Prepend(heads: seq<Bucket?>, chains: seq<seq<Bucket>>, index: Index, b: Bucket)
    requires Structure(heads, chains, index) && b.key !in index && b.h == Pjw(b.key)
    requires b.next == heads[Slot(b.key, |chains|)]
    ensures var i := Slot(b.key, |chains|);
            Structure(heads[i := b], chains[i := [b] + chains[i]], index[b.key := b])
  {
    var i := Slot(b.key, |chains|);
    var chains', index' := chains[i := [b] + chains[i]], index[b.key := b];
    PrependSlots(heads, chains, index, b, |chains|);
    forall key | key in index'
      ensures Reached(key, chains', index')
    {
      if key != b.key {
        assert Reached(key, chains, index);
      } else {
        assert chains'[i][0] == b;
      }
    }
  }

  lemma {:induction false} PrependSlots(heads: seq<Bucket?>, chains: seq<seq<Bucket>>, index: Index, b: Bucket, n: nat)
    requires n <= |heads| == |chains| && chains != [] && SlotsBelow(heads, chains, index, n)
    requires b.key !in index && b.h == Pjw(b.key) && b.next == heads[Slot(b.key, |chains|)]
    ensures var i := Slot(b.key, |chains|);
            SlotsBelow(heads[i := b], chains[i := [b] + chains[i]], index[b.key := b], n)
  {
    if n > 0 {
      PrependSlots(heads, chains, index, b, n - 1);
      StillHolds(n - 1, |chains|, chains[n - 1], index, b);
      assert ([b] + chains[n - 1])[1..] == chains[n - 1];
    }
  }

  lemma {:induction false} StillHolds(j: nat, size: nat, chain: seq<Bucket>, index: Index, b: Bucket)
    requires size > 0 && Holds(j, size, chain, index) && b.key !in index
    ensures Holds(j, size, chain, index[b.key := b]) && b !in chain
  {
    if chain != [] {
      StillHolds(j, size, chain[1..], index, b);
    }
  }

  lemma {:induction false} AllEmpty(heads: seq<Bucket?>, chains: seq<seq<Bucket>>, n: nat)
    requires n <= |heads| == |chains| && chains != []
    requires forall i :: 0 <= i < |chains| ==> heads[i] == null && chains[i] == []
    ensures SlotsBelow(heads, chains, map[], n)
  {
    if n > 0 {
      AllEmpty(heads, chains, n - 1);
    }
  }

  lemma KeysAgree(heads: seq<Bucket?>, chains: seq<seq<Bucket>>, index: Index)
    requires Structure(heads, chains, index)
    ensures forall key :: key in index ==> index[key].key == key
  {
    forall key | key in index
      ensures index[key].key == key
    {
      assert Reached(key, chains, index);
    }
  }

  class Table {
    const buckets: array<Bucket?>
    ghost var heads: seq<Bucket?>
    ghost var chains: seq<seq<Bucket>>
    ghost var index: Index
    ghost var repr: set<Bucket>
    // what is stored under each key
    ghost var contents: map<seq<Byte>, seq<Word>>
    // all words added, newest first
    ghost var words: seq<Word>

    ghost predicate Valid()
      reads this, buckets, repr
    {
      && heads == buckets[..]
      && Structure(heads, chains, index)
      && StoresAll(index, contents, repr)
    }

    /** The buckets hold the contents. */
    static ghost predicate StoresAll(index: Index, contents: map<seq<Byte>, seq<Word>>, repr: set<Bucket>)
      reads repr
    {
      && (forall key :: key in contents <==> key in index)
      && (forall key :: key in index ==> index[key] in repr && Stores(index[key], contents[key]))
    }

    static ghost predicate Stores(b: Bucket, ws: seq<Word>)
      reads b
    {
      b.data == ws != [] && b.count == |ws|
    }

    /** The table holds the added words under all their prefixes and nothing else. */
    ghost predicate Complete()
      reads this, buckets, repr
    {
      Valid() && Indexes(contents, words)
    }

    constructor (size: nat)
      requires size > 0
      ensures Complete() && words == [] && repr == {} && fresh(buckets)
    {
      buckets := new Bucket?[size](_ => null);
      heads, chains := seq(size, _ => null), seq(size, _ => []);
      index, repr, contents, words := map[], {}, map[], [];
      new;
      AllEmpty(heads, chains, |chains|);
    }

    method Find(key: seq<Byte>) returns (b: Bucket?)
      requires Valid()
      ensures b == if key in index then index[key] else null
    {
      var h := HashPjw(key);
      var i := h as nat % buckets.Length;
      b := buckets[i];
      ghost var rest := chains[i];
      assert key in index ==> Reached(key, chains, index);
      SlotAt(heads, chains, index, |chains|, i);
      while b != null && !(b.h == h && b.key == key)
        invariant Linked(b, rest) && Holds(i, |chains|, rest, index)
        invariant key in index ==> index[key] in rest
        decreases |rest|
      {
        b, rest := b.next, rest[1..];
      }
    }

    /** Store the word under the key; an empty key is refused. */
    method Update(key: seq<Byte>, w: Word) returns (ok: bool)
      requires Valid()
      modifies this`heads, this`chains, this`index, this`repr, this`contents, buckets, repr
      ensures ok == (key != []) && Valid() && fresh(repr - old(repr))
      ensures contents == if ok then File(old(contents), key, w) else old(contents)
    {
      if key == [] {
        return false;
      }
      var b := Find(key);
      if b != null {
        AlsoStore(b, w);
      } else {
        Insert(key, w);
      }
      return true;
    }

    method AlsoStore(b: Bucket, w: Word)
      requires Valid() && b.key in index && index[b.key] == b
      modifies this`contents, b
      ensures Valid() && contents == File(old(contents), b.key, w)
    {
      KeysAgree(heads, chains, index);
      PushEntry(index, contents, repr, b, w);
      contents := File(contents, b.key, w);
    }

    /** A new entry in front of those of the bucket. */
    static method PushEntry(ghost index: Index, ghost contents: map<seq<Byte>, seq<Word>>, ghost repr: set<Bucket>,
                            b: Bucket, w: Word)
      requires StoresAll(index, contents, repr) && b.key in index && index[b.key] == b
      requires forall key :: key in index ==> index[key].key == key
      modifies b
      ensures StoresAll(index, File(contents, b.key, w), repr)
    {
      b.data, b.count := [w] + b.data, b.count + 1;
    }

    method Insert(key: seq<Byte>, w: Word)
      requires Valid() && key !in index
      modifies this`heads, this`chains, this`index, this`repr, this`contents, buckets
      ensures Valid() && fresh(repr - old(repr)) && contents == File(old(contents), key, w)
    {
      ghost var was := index;
      var b := Link(key, w);
      assert StoresAll(was, contents, old(repr));
      contents := File(contents, key, w);
    }

    /** A new bucket at the head of its chain. */
    method Link(key: seq<Byte>, w: Word) returns (b: Bucket)
      requires heads == buckets[..] && Structure(heads, chains, index) && key !in index
      requires forall k :: k in index ==> index[k] in repr
      modifies this`heads, this`chains, this`index, this`repr, buckets
      ensures heads == buckets[..] && Structure(heads, chains, index) && index == old(index)[key := b]
      ensures repr == old(repr) + {b}
      ensures fresh(b) && b.count == 1 && b.data == [w]
    {
      var h := HashPjw(key);
      var i := h as nat % buckets.Length;
      b := new Bucket(h, key, w, buckets[i]);
      Prepend(heads, chains, index, b);
      buckets[i] := b;
      heads, chains, index := heads[i := b], chains[i := [b] + chains[i]], index[key := b];
      repr := repr + {b};
    }

    /** Store the word under every non-empty prefix. */
    method AddWord(w: Word)
      requires Complete()
      modifies this`heads, this`chains, this`index, this`repr, this`contents, this`words, buckets, repr
      ensures Complete() && words == [w] + old(words) && fresh(repr - old(repr))
    {
      for i := 0 to |w|
        invariant Valid() && words == old(words) && fresh(repr - old(repr))
        invariant contents == FileAll(old(contents), w, i)
      {
        var _ := Update(w[..i + 1], w);
      }
      words := [w] + words;
      FiledIsIndexed(old(contents), old(words), w);
    }

    /** All added words with the given prefix, newest first; none is found for the empty prefix. */
    method FindAllMatches(p: seq<Byte>) returns (b: Bucket?, length: nat)
      requires Complete()
      ensures b == null <==> p == [] || Matches(words, p) == []
      ensures b != null ==> b.key == p && b.data == Matches(words, p) && b.count == |b.data| && length == |p|
      ensures b == null ==> length == 0
    {
      b := Find(p);
      BucketHolds(p);
      length := if b == null then 0 else |p|;
    }

    lemma BucketHolds(key: seq<Byte>)
      requires Complete()
      ensures key in index <==> key != [] && Matches(words, key) != []
      ensures key in index ==>
                index[key].key == key && index[key].data == Matches(words, key) && index[key].count == |index[key].data|
    {
      if key in index {
        assert Reached(key, chains, index);
      } else if key != [] {
        assert Lookup(contents, key) == [];
      }
    }

    /** How far all words with the given prefix agree. */
    method FindLongestMatch(p: seq<Byte>) returns (b: Bucket?, length: nat)
      requires Complete()
      ensures b == null <==> p == [] || Matches(words, p) == []
      ensures b == null ==> length == 0
      ensures b != null ==> length == |b.key| && b.data == Matches(words, p) && LongestCommon(Matches(words, p), b.key)
    {
      b := Find(p);
      BucketHolds(p);
      if b == null {
        return null, 0;
      }
      b, length := Extend(p, b);
    }

    /** Go on along the newest match as long as no match is lost. */
    method Extend(p: seq<Byte>, b: Bucket) returns (best: Bucket, length: nat)
      requires Complete() && b.key == p && b.data == Matches(words, p) != [] && b.count == |b.data|
      ensures length == |best.key| && best.data == Matches(words, p) && LongestCommon(Matches(words, p), best.key)
    {
      var s := b.data[0];
      best, length := b, |p|;
      while length < |s|
        invariant |p| <= length <= |s| && best.key == s[..length]
        invariant best.data == b.data && Matches(words, best.key) == Matches(words, p)
        decreases |s| - length
      {
        Longer(p, s, length + 1);
        var longer := Find(s[..length + 1]);
        if longer.count < b.count {
          break;
        }
        best, length := longer, length + 1;
      }
      LongestWhenFewer(words, p, s, length);
    }

    /** The bucket of a longer prefix of a match. */
    lemma Longer(p: seq<Byte>, s: Word, n: nat)
      requires Complete() && s in Matches(words, p) && |p| <= n && 0 < n <= |s|
      ensures var q, ms := s[..n], Matches(words, p);
              && q in index && index[q].key == q && index[q].data == Matches(words, q)
              && index[q].count == |Matches(words, q)| <= |ms|
              && (|Matches(words, q)| == |ms| ==> Matches(words, q) == ms)
    {
      MatchesCount(words, p, s);
      MatchesCount(words, s[..n], s);
      assert multiset(Matches(words, p))[s] > 0;
      BucketHolds(s[..n]);
      FewerMatches(words, p, s[..n]);
    }
  }
}
