/** What the completion index of the mysql client holds: every word under each of its prefixes. */
module PrefixIndex {

  type Byte = bv8

  /** The bytes of a C string before its zero byte. */
  type Word = seq<Byte>

  /** The words that start with p, in order. */
  ghost function Matches(words: seq<Word>, p: seq<Byte>): (r: seq<Word>)
    ensures forall i :: 0 <= i < |r| ==> p <= r[i]
  {
    if words == [] then []
    else if p <= words[0] then [words[0]] + Matches(words[1..], p)
    else Matches(words[1..], p)
  }

  lemma {:induction false} MatchesCount(words: seq<Word>, p: seq<Byte>, w: Word)
    ensures multiset(Matches(words, p))[w] == if p <= w then multiset(words)[w] else 0
  {
    if words != [] {
      MatchesCount(words[1..], p, w);
      assert words == [words[0]] + words[1..];
    }
  }

  lemma {:induction false} InMatches(words: seq<Word>, p: seq<Byte>, w: Word)
    requires w in words && p <= w
    ensures w in Matches(words, p)
  {
    if w != words[0] {
      InMatches(words[1..], p, w);
    }
  }

  /** A longer prefix has no more matches, and as many only if it has the same. */
  lemma {:induction false} FewerMatches(words: seq<Word>, p: seq<Byte>, q: seq<Byte>)
    requires p <= q
    ensures |Matches(words, q)| <= |Matches(words, p)|
    ensures |Matches(words, q)| == |Matches(words, p)| ==> Matches(words, q) == Matches(words, p)
  {
    if words != [] {
      FewerMatches(words[1..], p, q);
      assert q <= words[0] ==> p <= words[0];
    }
  }

  /** If all matches go on as q does, they are the matches of q. */
  lemma {:induction false} SameMatches(words: seq<Word>, p: seq<Byte>, q: seq<Byte>)
    requires p <= q && Common(Matches(words, p), q)
    ensures Matches(words, q) == Matches(words, p)
  {
    if words != [] {
      var rest := Matches(words[1..], p);
      if p <= words[0] {
        assert Matches(words, p)[0] == words[0] && Matches(words, p)[1..] == rest;
        assert forall i :: 0 <= i < |rest| ==> rest[i] == Matches(words, p)[i + 1];
      } else {
        assert !(q <= words[0]);
      }
      SameMatches(words[1..], p, q);
    }
  }

  /** q is a prefix of all words. */
  ghost predicate Common(words: seq<Word>, q: seq<Byte>) {
    forall i :: 0 <= i < |words| ==> q <= words[i]
  }

  ghost predicate LongestCommon(words: seq<Word>, q: seq<Byte>) {
    Common(words, q) && forall r: seq<Byte> :: Common(words, r) ==> |r| <= |q|
  }

  /** The matches of p cannot all go on as one of them does after n bytes. */
  lemma LongestWhenFewer(words: seq<Word>, p: seq<Byte>, s: Word, n: nat)
    requires |p| <= n <= |s| && s in Matches(words, p) && Matches(words, s[..n]) == Matches(words, p)
    requires n < |s| ==> |Matches(words, s[..n + 1])| < |Matches(words, p)|
    ensures LongestCommon(Matches(words, p), s[..n])
  {
    var ms := Matches(words, p);
    assert p <= s[..n];
    forall r: seq<Byte> | Common(ms, r)
      ensures |r| <= n
    {
      var i :| 0 <= i < |ms| && ms[i] == s;
      assert r <= s;
      if |r| > n {
        var q := s[..n + 1];
        assert q <= r;
        forall j | 0 <= j < |ms|
          ensures q <= ms[j]
        {
          assert r <= ms[j];
        }
        SameMatches(words, p, q);
        assert false;
      }
    }
  }

  // --- the index as a map from prefixes ---

  ghost function Lookup(m: map<seq<Byte>, seq<Word>>, key: seq<Byte>): seq<Word> {
    if key in m then m[key] else []
  }

  ghost function File(m: map<seq<Byte>, seq<Word>>, key: seq<Byte>, w: Word): map<seq<Byte>, seq<Word>> {
    m[key := [w] + Lookup(m, key)]
  }

  /** The word filed under its prefixes of lengths 1 to n. */
  ghost function FileAll(m: map<seq<Byte>, seq<Word>>, w: Word, n: nat): map<seq<Byte>, seq<Word>>
    requires n <= |w|
  {
    if n == 0 then m else File(FileAll(m, w, n - 1), w[..n], w)
  }

  /** m holds exactly the words, newest first, under each of their non-empty prefixes. */
  ghost predicate Indexes(m: map<seq<Byte>, seq<Word>>, words: seq<Word>) {
    && (forall key :: key in m ==> key != [] && m[key] != [])
    && (forall key: seq<Byte> :: key != [] ==> Lookup(m, key) == Matches(words, key))
  }

  lemma {:induction false} FileAllLookup(m: map<seq<Byte>, seq<Word>>, w: Word, n: nat, key: seq<Byte>)
    requires n <= |w|
    ensures Lookup(FileAll(m, w, n), key) ==
            if key != [] && key <= w && |key| <= n then [w] + Lookup(m, key) else Lookup(m, key)
    ensures key in FileAll(m, w, n) <==> key in m || (key != [] && key <= w && |key| <= n)
  {
    if n > 0 {
      FileAllLookup(m, w, n - 1, key);
      FileAllLookup(m, w, n - 1, w[..n]);
      assert key <= w && |key| == n ==> key == w[..n];
    }
  }

  lemma FiledIsIndexed(m: map<seq<Byte>, seq<Word>>, words: seq<Word>, w: Word)
    requires Indexes(m, words)
    ensures Indexes(FileAll(m, w, |w|), [w] + words)
  {
    var m' := FileAll(m, w, |w|);
    assert ([w] + words)[1..] == words;
    forall key: seq<Byte> | key != []
      ensures Lookup(m', key) == Matches([w] + words, key)
    {
      FileAllLookup(m, w, |w|, key);
    }
    forall key | key in m'
      ensures key != [] && m'[key] != []
    {
      FileAllLookup(m, w, |w|, key);
      assert Lookup(m', key) == m'[key];
    }
  }
}
