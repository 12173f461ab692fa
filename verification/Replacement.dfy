/**
 Leftmost-longest string replacement, stated without any automaton: what the
 `replace_result` command of mysqltest promises for literal from-strings.

 A text is a sequence of non-zero byte values (C strings carry no NUL inside).
 */
module Replacement {

  type Char = c: int | 0 < c < 256 witness 1
  type Text = seq<Char>

  predicate OccursAt(p: Text, w: Text, s: nat) {
    s + |p| <= |w| && w[s..s + |p|] == p
  }

  /** Pattern number `which` occurring at offset `start`. */
  datatype Match = Match(start: nat, which: nat)

  predicate IsMatch(pats: seq<Text>, w: Text, m: Match) {
    m.which < |pats| && OccursAt(pats[m.which], w, m.start)
  }

  ghost predicate HasMatch(pats: seq<Text>, w: Text) {
    exists m :: IsMatch(pats, w, m)
  }

  /** Earlier start first, then the longer pattern, then the pattern listed first. */
  predicate Preferred(pats: seq<Text>, a: Match, b: Match)
    requires a.which < |pats| && b.which < |pats|
  {
    || a.start < b.start
    || (a.start == b.start && |pats[a.which]| > |pats[b.which]|)
    || (a.start == b.start && |pats[a.which]| == |pats[b.which]| && a.which <= b.which)
  }

  ghost predicate IsBest(pats: seq<Text>, w: Text, m: Match) {
    IsMatch(pats, w, m) && forall o :: IsMatch(pats, w, o) ==> Preferred(pats, m, o)
  }

  lemma BestExists(pats: seq<Text>, w: Text)
    requires HasMatch(pats, w)
    ensures exists m :: IsBest(pats, w, m)
  {
    var m :| IsMatch(pats, w, m);
    while exists o :: IsMatch(pats, w, o) && !Preferred(pats, m, o)
      invariant IsMatch(pats, w, m)
      decreases m.start, |w| - |pats[m.which]|, m.which
    {
      var o :| IsMatch(pats, w, o) && !Preferred(pats, m, o);
      m := o;
    }
    assert IsBest(pats, w, m);
  }

  ghost function Best(pats: seq<Text>, w: Text): (m: Match)
    requires HasMatch(pats, w)
    ensures IsBest(pats, w, m)
  {
    BestExists(pats, w);
    var m :| IsBest(pats, w, m);
    m
  }

  lemma BestIsUnique(pats: seq<Text>, w: Text, m: Match)
    requires IsBest(pats, w, m)
    ensures HasMatch(pats, w) && Best(pats, w) == m
  {
    var b := Best(pats, w);
    assert Preferred(pats, m, b) && Preferred(pats, b, m);
  }

  ghost predicate NonEmpty(pats: seq<Text>) {
    forall i :: 0 <= i < |pats| ==> |pats[i]| > 0
  }

  /**
   The promised result: cut at the preferred match, substitute, go on with the
   text after it.
   */
  ghost function ReplaceAll(pats: seq<Text>, tos: seq<Text>, w: Text): (r: Text)
    requires NonEmpty(pats) && |tos| == |pats|
    decreases |w|
  {
    if !HasMatch(pats, w) then w
    else
      var m := Best(pats, w);
      w[..m.start] + tos[m.which] + ReplaceAll(pats, tos, w[m.start + |pats[m.which]|..])
  }

  /**
   The same, except that after a match of pattern i the scan resumes back[i]
   characters before the end of the match.
   */
  ghost function ReplaceResuming(pats: seq<Text>, tos: seq<Text>, back: seq<nat>, w: Text): (r: Text)
    requires |tos| == |back| == |pats|
    requires forall i :: 0 <= i < |pats| ==> back[i] < |pats[i]|
    decreases |w|
  {
    if !HasMatch(pats, w) then w
    else
      var m := Best(pats, w);
      w[..m.start] + tos[m.which]
      + ReplaceResuming(pats, tos, back, w[m.start + |pats[m.which]| - back[m.which]..])
  }

  /** Resuming exactly at the end of each match is plain replacement. */
  lemma {:induction false} ResumingAtEnd(pats: seq<Text>, tos: seq<Text>, back: seq<nat>, w: Text)
    requires NonEmpty(pats) && |tos| == |back| == |pats|
    requires forall i :: 0 <= i < |pats| ==> back[i] == 0
    ensures ReplaceResuming(pats, tos, back, w) == ReplaceAll(pats, tos, w)
    decreases |w|
  {
    if HasMatch(pats, w) {
      var m := Best(pats, w);
      ResumingAtEnd(pats, tos, back, w[m.start + |pats[m.which]|..]);
      ResumeOnce(pats, tos, back, w, m);
    }
  }

  lemma ResumeOnce(pats: seq<Text>, tos: seq<Text>, back: seq<nat>, w: Text, m: Match)
    requires |tos| == |back| == |pats| && (forall i :: 0 <= i < |pats| ==> back[i] < |pats[i]|)
    requires HasMatch(pats, w) && m == Best(pats, w) && back[m.which] == 0
    ensures ReplaceResuming(pats, tos, back, w) ==
            w[..m.start] + tos[m.which] + ReplaceResuming(pats, tos, back, w[m.start + |pats[m.which]|..])
  {
  }
}
