/** The completion generator of the mysql client, which keeps its place in the table between calls. */
module CompletionGenerator {
  import opened Wrappers
  import opened PrefixIndex
  import opened CompletionTable

  type Store = map<seq<Byte>, seq<Word>>

  /** All buckets from slot i on. */
  ghost function Flat(chains: seq<seq<Bucket>>, i: nat): seq<Bucket>
    requires i <= |chains|
    decreases |chains| - i
  {
    if i == |chains| then [] else chains[i] + Flat(chains, i + 1)
  }

  lemma {:induction false} FlatIndexed(heads: seq<Bucket?>, chains: seq<seq<Bucket>>, index: Index, i: nat)
    requires Structure(heads, chains, index) && i <= |chains|
    ensures forall b :: b in Flat(chains, i) ==> b.key in index && index[b.key] == b && Slot(b.key, |chains|) >= i
    decreases |chains| - i
  {
    if i < |chains| {
      FlatIndexed(heads, chains, index, i + 1);
      SlotAt(heads, chains, index, |chains|, i);
      HeldIsIndexed(i, |chains|, chains[i], index);
    }
  }

  lemma {:induction false} FlatUnrepeated(heads: seq<Bucket?>, chains: seq<seq<Bucket>>, index: Index, i: nat)
    requires Structure(heads, chains, index) && i <= |chains|
    ensures Unrepeated(Flat(chains, i))
    decreases |chains| - i
  {
    if i < |chains| {
      FlatUnrepeated(heads, chains, index, i + 1);
      FlatIndexed(heads, chains, index, i + 1);
      SlotAt(heads, chains, index, |chains|, i);
      HeldIsIndexed(i, |chains|, chains[i], index);
      Appended(chains[i], Flat(chains, i + 1));
    }
  }

  lemma {:induction false} Appended(a: seq<Bucket>, b: seq<Bucket>)
    requires Unrepeated(a) && Unrepeated(b) && forall x :: x in a ==> x !in b
    ensures Unrepeated(a + b)
  {
    if a == [] {
      assert a + b == b;
    } else {
      Appended(a[1..], b);
      assert (a + b)[1..] == a[1..] + b;
    }
  }

  lemma FlatHas(heads: seq<Bucket?>, chains: seq<seq<Bucket>>, index: Index, key: seq<Byte>)
    requires Structure(heads, chains, index) && key in index
    ensures index[key].key == key && index[key] in Flat(chains, 0)
  {
    assert Reached(key, chains, index);
    InFlat(chains, 0, Slot(key, |chains|), index[key]);
  }

  lemma {:induction false} InFlat(chains: seq<seq<Bucket>>, i: nat, j: nat, b: Bucket)
    requires i <= j < |chains| && b in chains[j]
    ensures b in Flat(chains, i)
    decreases j - i
  {
    if i < j {
      InFlat(chains, i + 1, j, b);
    }
  }

  lemma TailOfSum(a: seq<Bucket>, b: seq<Bucket>)
    requires a != []
    ensures (a + b)[0] == a[0] && (a + b)[1..] == a[1..] + b
  {
  }

  // --- the words a walk over buckets returns ---

  /** The words of length n. */
  ghost function Pick(ws: seq<Word>, n: nat): seq<Word> {
    if ws == [] then [] else if |ws[0]| == n then [ws[0]] + Pick(ws[1..], n) else Pick(ws[1..], n)
  }

  ghost function Emit(bs: seq<Bucket>, store: Store): seq<Word> {
    if bs == [] then [] else Pick(Lookup(store, bs[0].key), |bs[0].key|) + Emit(bs[1..], store)
  }

  /** How many entries the buckets have. */
  ghost function Total(bs: seq<Bucket>, store: Store): nat {
    if bs == [] then 0 else |Lookup(store, bs[0].key)| + Total(bs[1..], store)
  }

  lemma PickFirst(ws: seq<Word>, n: nat, tail: seq<Word>)
    requires ws != []
    ensures Pick(ws, n) + tail == (if |ws[0]| == n then [ws[0]] else []) + (Pick(ws[1..], n) + tail)
    ensures Pick([], n) + tail == tail
  {
    Regroup(if |ws[0]| == n then [ws[0]] else [], Pick(ws[1..], n), tail);
  }

  lemma Regroup(a: seq<Word>, b: seq<Word>, c: seq<Word>)
    ensures (a + b) + c == a + (b + c) && [] + b == b && [] + c == c
  {
  }

  lemma {:induction false} PickCount(ws: seq<Word>, n: nat, w: Word)
    ensures multiset(Pick(ws, n))[w] == if |w| == n then multiset(ws)[w] else 0
  {
    if ws != [] {
      PickCount(ws[1..], n, w);
      assert ws == [ws[0]] + ws[1..];
    }
  }

  lemma {:induction false} EmitCount(bs: seq<Bucket>, index: Index, store: Store, words: seq<Word>, w: Word)
    requires Indexes(store, words) && Unrepeated(bs)
    requires forall b :: b in bs ==> b.key in index && index[b.key] == b && b.key in store
    ensures var kept := w in index && index[w] in bs && index[w].key == w;
            multiset(Emit(bs, store))[w] == if kept then multiset(words)[w] else 0
  {
    if bs != [] {
      var key := bs[0].key;
      EmitCount(bs[1..], index, store, words, w);
      PickCount(Lookup(store, key), |key|, w);
      assert Lookup(store, key) == Matches(words, key);
      MatchesCount(words, key, w);
      assert key <= w && |w| == |key| ==> w == key;
      assert bs == [bs[0]] + bs[1..];
    }
  }

  /** A walk over the whole table returns every non-empty word as often as it was added. */
  lemma EmitsEachWord(t: Table, w: Word)
    requires t.Complete()
    ensures multiset(Emit(Flat(t.chains, 0), t.contents))[w] == if w != [] then multiset(t.words)[w] else 0
  {
    FlatUnrepeated(t.heads, t.chains, t.index, 0);
    FlatIndexed(t.heads, t.chains, t.index, 0);
    EmitCount(Flat(t.chains, 0), t.index, t.contents, t.words, w);
    if w in t.index {
      FlatHas(t.heads, t.chains, t.index, w);
    } else if w in t.words {
      InMatches(t.words, w, w);
    }
    t.BucketHolds(w);
  }

  lemma MoveFirst(list: seq<Word>, todo: seq<Word>)
    requires todo != []
    ensures list + todo == list + [todo[0]] + todo[1..]
  {
  }

  class Generator {
    const table: Table
    var textlen: nat
    var b: Bucket?
    var e: seq<Word>
    var i: nat
    // the buckets of the chain behind b, and all buckets behind b
    ghost var rest: seq<Bucket>
    ghost var ahead: seq<Bucket>

    constructor (table: Table)
      ensures this.table == table && e == [] && Placed()
    {
      this.table, textlen, b, e, i, rest, ahead := table, 0, null, [], 0, [], [];
    }

    /** The place in the table, while there are entries left. */
    ghost predicate Placed()
      reads this, table
    {
      e != [] && textlen == 0 ==> b != null && Here()
    }

    ghost predicate Here()
      reads this, table
      requires b != null
    {
      && i < |table.chains| && Linked(b.next, rest) && Holds(i, |table.chains|, rest, table.index)
      && ahead == rest + Flat(table.chains, i + 1)
    }

    /** At the first entry of the first of the buckets, with the others ahead. */
    ghost predicate AtFirst(bs: seq<Bucket>)
      reads this, table
    {
      if bs == [] then e == []
      else b == bs[0] && Here() && ahead == bs[1..] && e == Lookup(table.contents, b.key) != []
    }

    /** What calls without a restart will return. */
    ghost function Remaining(): seq<Word>
      reads this, table
      requires Placed()
    {
      if textlen > 0 || e == [] then e else Pick(e, |b.key|) + Emit(ahead, table.contents)
    }

    ghost function Left(): nat
      reads this, table
    {
      |e| + if e == [] then 0 else Total(ahead, table.contents)
    }

    /** The first used slot from j on. */
    method NextSlot(j: nat) returns (k: nat)
      requires table.Valid() && j <= |table.chains|
      ensures j <= k <= |table.chains| && Flat(table.chains, j) == Flat(table.chains, k)
      ensures k < |table.chains| ==> table.chains[k] != []
    {
      k := j;
      while k < table.buckets.Length && table.buckets[k] == null
        invariant j <= k <= |table.chains| && Flat(table.chains, j) == Flat(table.chains, k)
      {
        SlotAt(table.heads, table.chains, table.index, |table.chains|, k);
        k := k + 1;
      }
      if k < |table.chains| {
        SlotAt(table.heads, table.chains, table.index, |table.chains|, k);
      }
    }

    /** Go to the first entry of a bucket in the current chain. */
    method Enter(head: Bucket, ghost chain: seq<Bucket>)
      requires i < |table.chains| && chain != [] && Linked(head, chain) && Holds(i, |table.chains|, chain, table.index)
      requires head.data == Lookup(table.contents, head.key) != []
      modifies this`b, this`e, this`rest, this`ahead
      ensures AtFirst(chain + Flat(table.chains, i + 1))
    {
      ghost var more := Flat(table.chains, i + 1);
      TailOfSum(chain, more);
      b, e, rest, ahead := head, head.data, chain[1..], chain[1..] + more;
    }

    /** Go to the first entry of the first used slot from j on. */
    method ToSlot(j: nat)
      requires table.Valid() && j <= |table.chains| && (e != [] ==> Flat(table.chains, j) != [])
      modifies this`b, this`e, this`i, this`rest, this`ahead
      ensures AtFirst(Flat(table.chains, j))
    {
      i := NextSlot(j);
      if i < table.buckets.Length {
        EnterSlot();
      }
    }

    method EnterSlot()
      requires table.Valid() && i < |table.chains| && table.chains[i] != []
      modifies this`b, this`e, this`rest, this`ahead
      ensures AtFirst(Flat(table.chains, i))
    {
      ChainAt(i);
      Enter(table.buckets[i], table.chains[i]);
    }

    lemma ChainAt(j: nat)
      requires table.Valid() && j < |table.chains| && table.chains[j] != []
      ensures var chain, h := table.chains[j], table.buckets[j];
              && Linked(h, chain) && Holds(j, |table.chains|, chain, table.index)
              && h.data == Lookup(table.contents, h.key) != []
    {
      var chain := table.chains[j];
      SlotAt(table.heads, table.chains, table.index, |table.chains|, j);
      DataAt(chain[0]);
    }

    lemma DataAt(c: Bucket)
      requires table.Valid() && c.key in table.index && table.index[c.key] == c
      ensures c.data == Lookup(table.contents, c.key) != []
    {
      assert Table.Stores(table.index[c.key], table.contents[c.key]);
    }

    /** Go to the next bucket. */
    method Advance()
      requires table.Valid() && e == [] && b != null && Here()
      modifies this`b, this`e, this`i, this`rest, this`ahead
      ensures AtFirst(old(ahead))
    {
      b := b.next;
      if b == null {
        assert ahead == Flat(table.chains, i + 1);
        ToSlot(i + 1);
      } else {
        DataAt(rest[0]);
        Enter(b, rest);
      }
    }

    /** At the first of some buckets, all their whole words remain. */
    lemma AllRemain(bs: seq<Bucket>)
      requires AtFirst(bs) && textlen == 0
      ensures Placed() && Remaining() == Emit(bs, table.contents) && Left() == Total(bs, table.contents)
    {
    }

    method GoOn()
      requires table.Valid() && textlen == 0 && e == [] && b != null && Here()
      modifies this`b, this`e, this`i, this`rest, this`ahead
      ensures Placed() && Remaining() == Emit(old(ahead), table.contents)
      ensures Left() == Total(old(ahead), table.contents)
    {
      ghost var bs := ahead;
      Advance();
      AllRemain(bs);
    }

    /** One entry of the walk over the table; it is returned if its bucket is that of the whole word. */
    method OneEntry() returns (word: Option<Word>)
      requires table.Valid() && textlen == 0 && e != [] && Placed()
      modifies this`b, this`e, this`i, this`rest, this`ahead
      ensures Placed() && Left() < old(Left())
      ensures old(Remaining()) == (if word.Some? then [word.value] else []) + Remaining()
    {
      word := if |e[0]| == |b.key| then Some(e[0]) else None;
      PickFirst(e, |b.key|, Emit(ahead, table.contents));
      e := e[1..];
      if e == [] {
        GoOn();
      }
    }

    /** The words a completion of the text returns. */
    ghost function Answers(text: seq<Byte>): seq<Word>
      reads table
    {
      if text == [] then Emit(Flat(table.chains, 0), table.contents) else Matches(table.words, text)
    }

    /** Before the first call there are no entries left over unless the table has buckets. */
    ghost predicate Idle()
      reads this, table
    {
      e != [] ==> Flat(table.chains, 0) != []
    }

    /** The call returned the first of the words to be returned, or there were none. */
    ghost predicate Returned(word: Option<Word>, todo: seq<Word>)
      reads this, table
    {
      if todo == [] then word.None? else word == Some(todo[0]) && Placed() && Remaining() == todo[1..]
    }

    /** The walk goes on to the next entry that is in the bucket of the whole word. */
    method Walk() returns (word: Option<Word>)
      requires table.Valid() && textlen == 0 && Placed()
      modifies this`b, this`e, this`i, this`rest, this`ahead
      ensures Returned(word, old(Remaining()))
    {
      word := None;
      ghost var todo := Remaining();
      while e != [] && word.None?
        invariant Placed() && todo == (if word.Some? then [word.value] else []) + Remaining()
        decreases Left()
      {
        word := OneEntry();
      }
    }

    method NextOfAll(first: bool) returns (word: Option<Word>)
      requires table.Valid() && textlen == 0 && if first then Idle() else Placed()
      modifies this`b, this`e, this`i, this`rest, this`ahead
      ensures Returned(word, if first then Answers([]) else old(Remaining()))
    {
      if first {
        ToSlot(0);
        AllRemain(Flat(table.chains, 0));
      }
      word := Walk();
    }

    /** The entries of the bucket of the text, one by one. */
    method NextMatch(text: seq<Byte>, first: bool) returns (word: Option<Word>)
      requires table.Complete() && textlen > 0 && (first ==> text != [])
      modifies this`b, this`e
      ensures var todo := if first then Answers(text) else old(e);
              if todo == [] then word.None? else word == Some(todo[0]) && e == todo[1..]
    {
      if first {
        var found, _ := table.FindAllMatches(text);
        b := found;
        if b == null {
          return None;
        }
        e := b.data;
      }
      if e == [] {
        return None;
      }
      word, e := Some(e[0]), e[1..];
    }

    /** One call of the generator; first is set on the first call of a completion. */
    method Next(text: seq<Byte>, first: bool) returns (word: Option<Word>)
      requires table.Complete() && if first then Idle() else Placed()
      modifies this
      ensures Returned(word, if first then Answers(text) else old(Remaining()))
    {
      if first {
        textlen := |text|;
      }
      if textlen > 0 {
        word := NextMatch(text, first);
      } else {
        word := NextOfAll(first);
      }
    }

    /** All calls of one completion, until the generator returns nothing. */
    method Completions(text: seq<Byte>) returns (list: seq<Word>)
      requires table.Complete() && Idle()
      modifies this
      ensures list == Answers(text)
    {
      list := [];
      var word := Next(text, true);
      ghost var todo := Answers(text);
      while word.Some?
        invariant Returned(word, todo) && list + todo == Answers(text)
        decreases |todo|
      {
        MoveFirst(list, todo);
        list := list + [word.value];
        todo := todo[1..];
        word := Next(text, false);
      }
    }
  }
}
