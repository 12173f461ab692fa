/**
 The from-strings of `replace_result` as they are written, with backslash
 escapes, and the position table that init_replace derives from them.
 */
module ReplacePatterns {
  import opened Replacement
  import opened ReplaceStates

  const BACKSLASH: Char := 92
  const SPACE_CHAR := 256
  const START_OF_LINE := 257
  const END_OF_LINE := 258

  function EscapeCode(c: Char): (r: int)
    ensures 0 < r <= END_OF_LINE && r != 98 && r != 36
  {
    match c
    case 98 => SPACE_CHAR        // \b
    case 94 => START_OF_LINE     // \^
    case 36 => END_OF_LINE       // \$
    case 114 => 13               // \r
    case 116 => 9                // \t
    case 118 => 11               // \v
    case _ => c
  }

  /** The character codes a from-string denotes. */
  function Codes(t: Text): (r: seq<int>)
    ensures forall k :: 0 <= k < |r| ==> 0 < r[k] <= END_OF_LINE
  {
    if t == [] then []
    else if t[0] == BACKSLASH && |t| > 1 then [EscapeCode(t[1])] + Codes(t[2..])
    else [t[0]] + Codes(t[1..])
  }

  /** No \b, \^ or \$ in the from-string. */
  predicate Literal(t: Text) {
    forall k :: 0 <= k < |Codes(t)| ==> Codes(t)[k] < 256
  }

  function Denoted(t: Text): (p: Text)
    requires Literal(t)
    ensures p == Codes(t)
  {
    Codes(t)
  }

  ghost predicate AllLiteral(froms: seq<Text>) {
    forall i :: 0 <= i < |froms| ==> Literal(froms[i])
  }

  ghost function AllDenoted(froms: seq<Text>): (pats: seq<Text>)
    requires AllLiteral(froms)
    ensures |pats| == |froms| && forall i :: 0 <= i < |froms| ==> pats[i] == Denoted(froms[i])
  {
    seq(|froms|, i requires 0 <= i < |froms| => Denoted(froms[i]))
  }

  // --- writing a text as a from-string ---

  /** The character written behind a backslash for c. */
  function Letter(c: Char): Char {
    if c == '\r' as int then 'r' as int
    else if c == '\t' as int then 't' as int
    else if c == 0x0B then 'v' as int
    else c
  }

  /** Behind a backslash these mean something else. */
  predicate HasOtherMeaning(c: Char) {
    c as char in "b^$rtv"
  }

  /** The character as it is, or behind a backslash. */
  function Spell(c: Char, escape: bool): Text {
    if c == BACKSLASH || (escape && !HasOtherMeaning(c)) then [BACKSLASH, Letter(c)] else [c]
  }

  /** The text written out, with a backslash where wanted or needed. */
  function Spelt(p: Text, escapes: seq<bool>): Text
    requires |p| == |escapes|
  {
    if p == [] then [] else Spell(p[0], escapes[0]) + Spelt(p[1..], escapes[1..])
  }

  /** However a text is written out, what is written denotes it. */
  lemma {:induction false} SpeltIsDenoted(p: Text, escapes: seq<bool>)
    requires |p| == |escapes|
    ensures Codes(Spelt(p, escapes)) == p && Literal(Spelt(p, escapes))
    decreases |p|
  {
    if p != [] {
      var c, more := p[0], Spelt(p[1..], escapes[1..]);
      SpeltIsDenoted(p[1..], escapes[1..]);
      SpellIsRead(c, escapes[0], more);
      assert p == [c] + p[1..];
    }
  }

  lemma SpellIsRead(c: Char, escape: bool, more: Text)
    ensures Codes(Spell(c, escape) + more) == [c] + Codes(more)
  {
    var t := Spell(c, escape) + more;
    assert t[|Spell(c, escape)|..] == more;
  }

  // --- the functions of the source ---

  method ReplaceLen(str: Text) returns (len: nat)
    ensures len == |Codes(str)|
  {
    var pos := 0;
    len := 0;
    while pos < |str|
      invariant pos <= |str|
      invariant len + |Codes(str[pos..])| == |Codes(str)|
    {
      assert str[pos..][1..] == str[pos + 1..];
      if str[pos] == BACKSLASH && pos + 1 < |str| {
        assert str[pos..][2..] == str[pos + 2..];
        pos := pos + 1;
      }
      pos := pos + 1;
      len := len + 1;
    }
  }

  predicate StartAtWord(t: Text) {
    (|t| > 2 && t[0] == BACKSLASH && t[1] == 98) || (|t| >= 2 && t[0] == BACKSLASH && t[1] == 94)
  }

  /** The textual test of end_of_word: the last two characters are \b or \$. */
  predicate EndOfWord(t: Text) {
    || (|t| > 2 && t[|t| - 2] == BACKSLASH && t[|t| - 1] == 98)
    || (|t| >= 2 && t[|t| - 2] == BACKSLASH && t[|t| - 1] == 36)
  }

  lemma LiteralStart(t: Text)
    requires Literal(t)
    ensures !StartAtWord(t)
  {
    var codes := Codes(t);
    if codes != [] {
      assert codes[0] < 256;
    }
  }

  /** The denoted text ends in a backslash followed by b or $. */
  predicate EndsInBackslashPair(p: Text) {
    |p| >= 2 && p[|p| - 2] == BACKSLASH && (p[|p| - 1] == 98 || p[|p| - 1] == 36)
  }

  /** A literal from-string is one code followed by a shorter literal from-string. */
  lemma LiteralTail(t: Text) returns (n: nat, x: int)
    requires Literal(t) && t != []
    ensures n == (if t[0] == BACKSLASH && |t| > 1 then 2 else 1) && n <= |t|
    ensures x == (if n == 2 then EscapeCode(t[1]) else t[0]) && x < 256
    ensures Literal(t[n..]) && Codes(t) == [x] + Codes(t[n..])
  {
    n := if t[0] == BACKSLASH && |t| > 1 then 2 else 1;
    x := Codes(t)[0];
    assert forall k :: 0 <= k < |Codes(t[n..])| ==> Codes(t[n..])[k] == Codes(t)[k + 1];
  }

  /** A literal of two characters or more never denotes b or $ alone. */
  lemma LiteralOfTwo(u: Text)
    requires Literal(u) && |u| >= 2
    ensures |u| == 2 ==> !EndOfWord(u) && !(u[0] == BACKSLASH && u[1] == 98)
    ensures |Codes(u)| == 1 ==> |u| == 2 && Codes(u)[0] != 98 && Codes(u)[0] != 36
  {
    var n, x := LiteralTail(u);
    if |u| > n {
      var _, _ := LiteralTail(u[n..]);
    }
  }

  /**
   For a literal from-string end_of_word answers yes exactly when the denoted
   text ends in a backslash followed by b or $: the backslash it sees is an
   escaped one.
   */
  lemma {:induction false} LiteralEnd(t: Text)
    requires Literal(t)
    ensures EndOfWord(t) <==> EndsInBackslashPair(Denoted(t))
    decreases |t|
  {
    if t != [] {
      var n, x := LiteralTail(t);
      LiteralEnd(t[n..]);
      if |t| - n >= 2 {
        LongTail(t, n, x);
      } else {
        ShortTail(t, n, x);
      }
    }
  }

  lemma LongTail(t: Text, n: nat, x: Char)
    requires Literal(t) && 1 <= n <= 2 && |t| - n >= 2 && Literal(t[n..]) && Denoted(t) == [x] + Denoted(t[n..])
    requires EndOfWord(t[n..]) <==> EndsInBackslashPair(Denoted(t[n..]))
    requires n == (if t[0] == BACKSLASH then 2 else 1)
    ensures EndOfWord(t) <==> EndsInBackslashPair(Denoted(t))
  {
    LiteralOfTwo(t[n..]);
  }

  lemma ShortTail(t: Text, n: nat, x: Char)
    requires Literal(t) && 1 <= n <= |t| <= n + 1 && Literal(t[n..]) && Denoted(t) == [x] + Denoted(t[n..])
    requires n == (if t[0] == BACKSLASH && |t| > 1 then 2 else 1) && x == (if n == 2 then EscapeCode(t[1]) else t[0])
    ensures EndOfWord(t) <==> EndsInBackslashPair(Denoted(t))
  {
    if |t| > n {
      var u := t[n..];
      assert u[1..] == [] && Codes(u) == [u[0]];
    }
  }
}
