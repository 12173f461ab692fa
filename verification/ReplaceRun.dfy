/**
 The automaton as laid out by init_replace, and replace_strings_append, which
 runs it over a NUL-terminated string.
 */
module ReplaceRun {
  import opened Wrappers
  import opened Replacement
  import opened ReplaceStates
  import opened ReplacePatterns
  import opened ReplaceAutomaton
  import opened ReplaceSets
  import opened ReplaceTransitions
  import opened ReplaceInit

  /** REPLACE_STRING; found is 1, or 2 for the from-string \^ alone. */
  datatype ReplaceString = ReplaceString(found: int, replaceString: Option<Text>, toOffset: int, fromOffset: int)

  /** rows[n][c] >= 0 is the next row, otherwise hits[-rows[n][c] - 1]. */
  datatype Automaton = Automaton(rows: seq<seq<int>>, hits: seq<ReplaceString>)

  /** How many characters before the end of a match the scan resumes. */
  function Back(p: Text): (n: nat) {
    if EndsInBackslashPair(p) then 1 else 0
  }

  ghost function Backs(pats: seq<Text>): (b: seq<nat>) {
    seq(|pats|, i requires 0 <= i < |pats| => Back(pats[i]))
  }

  ghost predicate HitFor(pats: seq<Text>, tos: seq<Text>, e: FoundSet, h: ReplaceString)
    requires |tos| == |pats|
  {
    && 0 <= e.table < |pats|
    && h == ReplaceString(1, Some(tos[e.table]), e.offset, e.offset - |pats[e.table]| + Back(pats[e.table]))
  }

  ghost predicate Implements(a: Automaton, pats: seq<Text>, tos: seq<Text>, f: seq<Follow>,
                             sets: seq<RowSet>, found: seq<FoundSet>, words: seq<Text>)
  {
    && FollowTable(pats, f) && |tos| == |pats|
    && |a.rows| == |sets| == |words| >= 2
    && sets[0].bits == sets[1].bits == Starts(pats, f)
    && (forall n :: 0 <= n < |sets| ==> Describes(pats, f, sets[n], words[n]))
    && (forall n :: 0 <= n < |sets| ==> |a.rows[n]| == 256 && RowFor(pats, f, sets, found, words[n], a.rows[n]))
    && |a.hits| == |found| + 1 && a.hits[0] == ReplaceString(1, None, 0, 0)
    && (forall j :: 0 <= j < |found| ==> HitFor(pats, tos, found[j], a.hits[j + 1]))
  }

  ghost predicate IsReplaceAutomaton(a: Automaton, pats: seq<Text>, tos: seq<Text>) {
    exists f, sets, found, words :: Implements(a, pats, tos, f, sets, found, words)
  }

  /**
   Compile the from-strings. Fails only on an empty from-string.
   */
  method InitReplace(froms: seq<Text>, tos: seq<Text>) returns (rep: Option<Automaton>)
    requires |tos| == |froms| && AllLiteral(froms)
    ensures rep.None? <==> [] in froms
    ensures rep.Some? ==> NonEmpty(AllDenoted(froms)) && IsReplaceAutomaton(rep.value, AllDenoted(froms), tos)
  {
    ghost var pats := AllDenoted(froms);
    var maxLength := 0;
    for i := 0 to |froms|
      invariant forall j :: 0 <= j < i ==> froms[j] != [] && 0 < |pats[j]| <= maxLength
    {
      var len := ReplaceLen(froms[i]);
      if len == 0 {
        return None;
      }
      if len > maxLength {
        maxLength := len;
      }
    }
    var follow := BuildFollow(froms);
    var sets := new RepSets(pats, follow, maxLength);
    sets.FillTable();
    var hits := LayOutHits(froms, tos, sets.found, maxLength);
    var a := Automaton(sets.rows, hits);
    assert Implements(a, pats, tos, follow, sets.sets, sets.found, sets.words);
    rep := Some(a);
  }

  method LayOutHits(froms: seq<Text>, tos: seq<Text>, found: seq<FoundSet>, ghost maxLength: nat)
    returns (hits: seq<ReplaceString>)
    requires |tos| == |froms| && AllLiteral(froms) && FoundOk(AllDenoted(froms), found, maxLength)
    ensures |hits| == |found| + 1 && hits[0] == ReplaceString(1, None, 0, 0)
    ensures forall j :: 0 <= j < |found| ==> HitFor(AllDenoted(froms), tos, found[j], hits[j + 1])
  {
    ghost var pats := AllDenoted(froms);
    hits := [ReplaceString(1, None, 0, 0)];
    for i := 0 to |found|
      invariant |hits| == i + 1 && hits[0] == ReplaceString(1, None, 0, 0)
      invariant forall j :: 0 <= j < i ==> HitFor(pats, tos, found[j], hits[j + 1])
    {
      var pos := froms[found[i].table];
      var len := ReplaceLen(pos);
      LiteralStart(pos);
      LiteralEnd(pos);
      var h := ReplaceString(if pos == [BACKSLASH, 94] then 2 else 1,
                             Some(tos[found[i].table]),
                             found[i].offset - (if StartAtWord(pos) then 1 else 0),
                             found[i].offset - len + (if EndOfWord(pos) then 1 else 0));
      assert pos != [BACKSLASH, 94];
      hits := hits + [h];
    }
  }

  /**
   One transition of the run, k characters after the last restart: it goes on
   in the state of the longer word, or it knows the outcome for the whole rest.
   */
  lemma RunStep(a: Automaton, pats: seq<Text>, tos: seq<Text>, f: seq<Follow>, sets: seq<RowSet>, found: seq<FoundSet>,
                words: seq<Text>, rest: Text, k: nat, n: nat, code: int)
    requires Implements(a, pats, tos, f, sets, found, words)
    requires k <= |rest| && n < |sets|
    requires Running(pats, f, rest[..k]) && sets[n].bits == Positions(pats, f, rest[..k])
    requires code == a.rows[n][if k < |rest| then rest[k] else 0]
    ensures code >= 0 ==> k < |rest| && code < |sets|
                          && Running(pats, f, rest[..k + 1]) && sets[code].bits == Positions(pats, f, rest[..k + 1])
    ensures code == -1 ==> k == |rest| && !HasMatch(pats, rest)
    ensures code <= -2 ==> HasMatch(pats, rest) && -code - 2 < |found|
                           && found[-code - 2] == FoundSet(Best(pats, rest).which, k + 1 - Best(pats, rest).start)
  {
    var w := rest[..k];
    var c := if k < |rest| then rest[k] else 0;
    PositionsDetermineNext(pats, f, words[n], w, c);
    assert Encodes(sets, found, code, NextTarget(pats, f, w, c));
    if k == |rest| {
      assert w == rest;
    } else {
      var w' := w + [c];
      assert rest[..k + 1] == w';
      if HasMatch(pats, w') && LiveSet(pats, f, w') == {} {
        assert w' + rest[k + 1..] == rest;
        MatchIsFinal(pats, f, w', rest[k + 1..]);
      }
    }
  }

  /** The inner loop: follow the rows until a found entry. */
  method Scan(rep: Automaton, str: Text, start: nat, state: nat, ghost pats: seq<Text>, ghost tos: seq<Text>,
              ghost f: seq<Follow>, ghost sets: seq<RowSet>, ghost found: seq<FoundSet>, ghost words: seq<Text>)
    returns (from: nat, pos: int)
    requires Implements(rep, pats, tos, f, sets, found, words)
    requires start <= |str| && state <= 1
    ensures pos < 0 && start < from <= |str| + 1
    ensures pos == -1 ==> from == |str| + 1 && !HasMatch(pats, str[start..])
    ensures pos <= -2 ==> HasMatch(pats, str[start..]) && -pos - 2 < |found|
    ensures pos <= -2 ==>
              var m := Best(pats, str[start..]);
              found[-pos - 2] == FoundSet(m.which, from - start - m.start)
  {
    ghost var rest := str[start..];
    StartDescribesNothingRead(pats, f);
    assert rest[..0] == [];
    from, pos := start, state;
    while pos >= 0
      invariant start <= from <= |str| + 1 && (from == start ==> pos >= 0)
      invariant pos >= 0 ==> from <= |str| && pos < |sets|
      invariant pos >= 0 ==> Running(pats, f, rest[..from - start])
      invariant pos >= 0 ==> sets[pos].bits == Positions(pats, f, rest[..from - start])
      invariant pos == -1 ==> from == |str| + 1 && !HasMatch(pats, rest)
      invariant pos <= -2 ==> HasMatch(pats, rest) && -pos - 2 < |found|
      invariant pos <= -2 ==> found[-pos - 2] == FoundSet(Best(pats, rest).which, from - start - Best(pats, rest).start)
      decreases |str| + 1 - from
    {
      ghost var n := pos;
      pos := rep.rows[pos][if from < |str| then str[from] else 0];
      RunStep(rep, pats, tos, f, sets, found, words, rest, from - start, n, pos);
      from := from + 1;
    }
  }

  /** Appends the replaced text to ds, as the source does to its dynamic string. */
  method ReplaceStringsAppend(rep: Automaton, ds: Text, str: Text, ghost pats: seq<Text>, ghost tos: seq<Text>)
    returns (out: Text)
    requires NonEmpty(pats) && |tos| == |pats| && IsReplaceAutomaton(rep, pats, tos)
    ensures out == ds + ReplaceResuming(pats, tos, Backs(pats), str)
  {
    ghost var f: seq<Follow>, sets: seq<RowSet>, found: seq<FoundSet>, words: seq<Text> :|
      Implements(rep, pats, tos, f, sets, found, words);
    ghost var back := Backs(pats);
    out := ds;
    var start, state := 0, 1;
    assert str[0..] == str;
    while true
      invariant start <= |str| && state <= 1
      invariant out + ReplaceResuming(pats, tos, back, str[start..]) == ds + ReplaceResuming(pats, tos, back, str)
      decreases |str| - start
    {
      ghost var rest := str[start..];
      var from, pos := Scan(rep, str, start, state, pats, tos, f, sets, found, words);
      var repStr := rep.hits[-pos - 1];
      if repStr.replaceString.None? {
        assert str[start..from - 1] == rest;
        out := out + str[start..from - 1];
        return;
      }
      ghost var m := Best(pats, rest);
      assert HitFor(pats, tos, found[-pos - 2], repStr);
      var before, to := str[start..from - repStr.toOffset], repStr.replaceString.value;
      from := from - repStr.fromOffset;
      Resume(pats, tos, back, str, start, from, before);
      JoinParts(out, before, to, ReplaceResuming(pats, tos, back, str[from..]));
      out := out + before + to;
      if from == |str| && repStr.found != 2 {
        assert str[from..] == [];
        assert !HasMatch(pats, []);
        return;
      }
      start, state := from, 0;
    }
  }

  lemma JoinParts(a: Text, b: Text, c: Text, d: Text)
    ensures a + (b + c + d) == a + b + c + d
  {
  }

  lemma Resume(pats: seq<Text>, tos: seq<Text>, back: seq<nat>, str: Text, start: nat, from: nat, before: Text)
    requires NonEmpty(pats) && |tos| == |pats| && back == Backs(pats)
    requires start <= |str| && HasMatch(pats, str[start..])
    requires var m := Best(pats, str[start..]);
             && from == start + m.start + |pats[m.which]| - Back(pats[m.which]) && from <= |str|
             && before == str[start..start + m.start]
    ensures start < from
    ensures ReplaceResuming(pats, tos, back, str[start..])
         == before + tos[Best(pats, str[start..]).which] + ReplaceResuming(pats, tos, back, str[from..])
  {
    var rest := str[start..];
    var m := Best(pats, rest);
    assert rest[..m.start] == before;
    assert rest[m.start + |pats[m.which]| - back[m.which]..] == str[from..];
  }

  // --- the whole command ---

  ghost predicate NoBackslashPair(pats: seq<Text>) {
    forall i :: 0 <= i < |pats| ==> !EndsInBackslashPair(pats[i])
  }

  /**
   replace_result: compile the from-strings and run them over a result. The
   result is the leftmost-longest replacement unless a from-string denotes a
   text ending in a backslash followed by b or $.
   */
  method ReplaceResult(froms: seq<Text>, tos: seq<Text>, ds: Text, str: Text) returns (out: Option<Text>)
    requires |tos| == |froms| && AllLiteral(froms)
    ensures out.None? <==> [] in froms
    ensures out.Some? ==> NonEmpty(AllDenoted(froms))
    ensures out.Some? ==> out.value == ds + ReplaceResuming(AllDenoted(froms), tos, Backs(AllDenoted(froms)), str)
    ensures out.Some? && NoBackslashPair(AllDenoted(froms)) ==>
              out.value == ds + ReplaceAll(AllDenoted(froms), tos, str)
  {
    var rep := InitReplace(froms, tos);
    if rep.None? {
      return None;
    }
    ghost var pats := AllDenoted(froms);
    var text := ReplaceStringsAppend(rep.value, ds, str, pats, tos);
    if NoBackslashPair(pats) {
      ResumingAtEnd(pats, tos, Backs(pats), str);
    }
    return Some(text);
  }

  ghost predicate AlwaysReplaces(pats: seq<Text>)
    requires NonEmpty(pats)
  {
    forall tos: seq<Text>, w: Text | |tos| == |pats| ::
      ReplaceResuming(pats, tos, Backs(pats), w) == ReplaceAll(pats, tos, w)
  }

  /**
   The condition of ReplaceResult is exact: the automaton replaces as promised
   for all to-strings and all inputs if and only if no from-string denotes a
   text ending in a backslash followed by b or $.
   */
  lemma ReplacesIffNoBackslashPair(pats: seq<Text>)
    requires NonEmpty(pats)
    ensures AlwaysReplaces(pats) <==> NoBackslashPair(pats)
  {
    if NoBackslashPair(pats) {
      forall tos: seq<Text>, w: Text | |tos| == |pats|
        ensures ReplaceResuming(pats, tos, Backs(pats), w) == ReplaceAll(pats, tos, w)
      {
        ResumingAtEnd(pats, tos, Backs(pats), w);
      }
    } else {
      var i :| 0 <= i < |pats| && EndsInBackslashPair(pats[i]);
      PairIsRescanned(pats, i);
    }
  }

  /** Replacing the from-string itself leaves its last character to be scanned again. */
  lemma PairIsRescanned(pats: seq<Text>, i: nat)
    requires NonEmpty(pats) && i < |pats| && EndsInBackslashPair(pats[i])
    ensures var tos := seq(|pats|, (_: nat) => [120]);
            |ReplaceAll(pats, tos, pats[i])| == 1 < |ReplaceResuming(pats, tos, Backs(pats), pats[i])|
  {
    var tos: seq<Text> := seq(|pats|, (_: nat) => [120]);
    var w := pats[i];
    assert w[0..|w|] == w;
    assert IsMatch(pats, w, Match(0, i));
    var m := Best(pats, w);
    assert Preferred(pats, m, Match(0, i));
    assert pats[m.which] == w;
    assert !HasMatch(pats, []);
    assert w[|w|..] == [];
    var last := w[|w| - 1..];
    assert |ReplaceResuming(pats, tos, Backs(pats), last)| >= 1;
  }

  /** The from-string \\b (an escaped backslash, then b) with to-string x, on the input \b. */
  lemma EscapedBackslashExample()
    ensures Literal([92, 92, 98]) && Denoted([92, 92, 98]) == [92, 98]
    ensures ReplaceAll([[92, 98]], [[120]], [92, 98]) == [120]
    ensures ReplaceResuming([[92, 98]], [[120]], Backs([[92, 98]]), [92, 98]) == [120, 98]
  {
    EscapedBackslash();
    MatchOfAll([92, 98]);
    OneLetter(98);
    var w: Text := [92, 98];
    assert w[2..] == [] && w[1..] == [98] && w[..0] == [];
  }

  lemma EscapedBackslash()
    ensures Literal([92, 92, 98]) && Denoted([92, 92, 98]) == [92, 98]
  {
    var t: Text := [92, 92, 98];
    assert t[2..] == [98];
    assert Codes(t[2..]) == [98];
  }

  /** A from-string on the input it denotes. */
  lemma MatchOfAll(w: Text)
    requires w != []
    ensures HasMatch([w], w) && Best([w], w) == Match(0, 0) && !HasMatch([w], [])
  {
    assert w[0..|w|] == w;
    assert IsMatch([w], w, Match(0, 0));
  }

  lemma OneLetter(c: Char)
    ensures !HasMatch([[92, 98]], [c])
  {
  }
}
