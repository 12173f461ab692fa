/**
 The string literals that mysqldump and mysqlimport write, and how a server
 reads them: a quote ends a literal unless it is doubled, and a backslash
 takes the next character with it.
 */
module Quoting {
  import opened Wrappers

  // --- reading a literal ---

  /** What a backslash and c stand for inside a literal; before _ and % the backslash stays, for patterns. */
  function Unescape(c: char): string {
    match c
    case 'n' => "\n"
    case 't' => "\t"
    case 'r' => "\r"
    case 'b' => "\U{08}"
    case '0' => "\0"
    case 'Z' => "\U{1A}"
    case '_' => "\\_"
    case '%' => "\\%"
    case _ => [c]
  }

  datatype Literal = Unclosed | Closed(value: string, rest: string)

  function Grow(front: string, l: Literal): Literal {
    if l.Closed? then Closed(front + l.value, l.rest) else Unclosed
  }

  /** The text behind the opening quote. */
  function Lex(s: string): Literal {
    if s == "" then Unclosed
    else if s[0] == '\\' then
      if |s| == 1 then Unclosed else Grow(Unescape(s[1]), Lex(s[2..]))
    else if s[0] == '\'' then
      if |s| > 1 && s[1] == '\'' then Grow("'", Lex(s[2..])) else Closed("", s[1..])
    else Grow([s[0]], Lex(s[1..]))
  }

  /** A backslash and the character it takes along. */
  lemma LexPair(c: char, next: string)
    ensures Lex(['\\', c] + next) == Grow(Unescape(c), Lex(next))
  {
    assert (['\\', c] + next)[2..] == next;
  }

  lemma LexPlain(c: char, next: string)
    requires c != '\\' && c != '\''
    ensures Lex([c] + next) == Grow([c], Lex(next))
  {
    assert ([c] + next)[1..] == next;
  }

  lemma LexQuotes(next: string)
    ensures Lex(['\'', '\''] + next) == Grow(['\''], Lex(next))
    ensures (next == "" || next[0] != '\'') ==> Lex(['\''] + next) == Closed("", next)
  {
    assert (['\'', '\''] + next)[2..] == next && (['\''] + next)[1..] == next;
  }

  // --- field_escape ---

  /** What is written for the rest of the text; odd tells whether an odd number of backslashes stands before it. */
  function Escaped(s: string, odd: bool): string {
    if s == "" then if odd then ['\\'] else ""
    else if s[0] == '\\' then ['\\'] + Escaped(s[1..], !odd)
    else if s[0] == '\'' && !odd then ['\'', '\''] + Escaped(s[1..], false)
    else [s[0]] + Escaped(s[1..], false)
  }

  /** The text as a server takes it: the escapes in it count, a quote stands for itself. */
  function Meaning(s: string): string {
    if s == "" then ""
    else if s[0] == '\\' then
      if |s| == 1 then ['\\'] else Unescape(s[1]) + Meaning(s[2..])
    else [s[0]] + Meaning(s[1..])
  }

  /** The mysqldump version, which writes the quotes too. */
  method DumpFieldEscape(from: string) returns (out: string)
    ensures out == ['\''] + Escaped(from, false) + ['\'']
  {
    var endBackslashes := false;
    out := "'";
    for i := 0 to |from|
      invariant out + Escaped(from[i..], endBackslashes) == "'" + Escaped(from, false)
    {
      assert from[i..][1..] == from[i + 1..];
      ghost var before, rest := out, Escaped(from[i + 1..], from[i] == '\\' && !endBackslashes);
      out := out + [from[i]];
      if from[i] == '\\' {
        endBackslashes := !endBackslashes;
      } else {
        if from[i] == '\'' && !endBackslashes {
          out := out + "'";
        }
        endBackslashes := false;
      }
      assert out + rest == before + (out[|before|..] + rest);
    }
    if endBackslashes {
      out := out + "\\";
    }
    out := out + "'";
  }

  /** The mysqlimport version, which appends to what was written. */
  method ImportFieldEscape(to: string, from: string) returns (out: string)
    ensures out == to + Escaped(from, false)
  {
    var endBackslashes := false;
    out := to;
    for i := 0 to |from|
      invariant out + Escaped(from[i..], endBackslashes) == to + Escaped(from, false)
    {
      assert from[i..][1..] == from[i + 1..];
      ghost var before, rest := out, Escaped(from[i + 1..], from[i] == '\\' && !endBackslashes);
      out := out + [from[i]];
      if from[i] == '\\' {
        endBackslashes := !endBackslashes;
      } else {
        if from[i] == '\'' && !endBackslashes {
          out := out + [from[i]];
        }
        endBackslashes := false;
      }
      assert out + rest == before + (out[|before|..] + rest);
    }
    if endBackslashes {
      out := out + "\\";
    }
  }

  predicate IsHex(value: string) {
    |value| >= 2 && value[0] == '0' && (value[1] == 'x' || value[1] == 'X')
  }

  /** One option of a LOAD DATA statement; hexadecimal constants are written as they are. */
  method AddLoadOption(to: string, given: Option<string>, statement: string) returns (out: string)
    ensures given.None? ==> out == to
    ensures given.Some? ==>
              out == to + " " + statement + " " +
                     if IsHex(given.value) then given.value else "'" + Escaped(given.value, false) + "'"
  {
    if given.None? {
      return to;
    }
    if IsHex(given.value) {
      out := to + " " + statement + " " + given.value;
    } else {
      out := ImportFieldEscape(to + " " + statement + " '", given.value);
      out := out + "'";
      assert out == to + " " + statement + " " + ("'" + Escaped(given.value, false) + "'");
    }
  }

  /** Whatever the text, its literal closes at the last quote, and means the text. */
  lemma {:induction false} EscapedCloses(s: string, rest: string)
    requires rest == "" || rest[0] != '\''
    ensures Lex(Escaped(s, false) + (['\''] + rest)) == Closed(Meaning(s), rest)
    decreases |s|
  {
    var tail := ['\''] + rest;
    if s == "" {
      assert Escaped(s, false) + tail == tail;
      LexQuotes(rest);
    } else if |s| == 1 && s[0] == '\\' {
      LastBackslash(s);
      LexQuotes(rest);
      LexPair('\\', tail);
    } else if s[0] == '\\' {
      EscapedCloses(s[2..], rest);
      BackslashPair(s, tail);
    } else {
      EscapedCloses(s[1..], rest);
      PlainChar(s, tail);
    }
  }

  // --- what is written, for the eye ---

  predicate NoQuote(s: string) {
    forall i :: 0 <= i < |s| ==> s[i] != '\''
  }

  /** The number of backslashes at the end. */
  function Backslashes(s: string): nat {
    if s == "" || s[|s| - 1] != '\\' then 0 else 1 + Backslashes(s[..|s| - 1])
  }

  predicate OddEnd(s: string) {
    Backslashes(s) % 2 == 1
  }

  /** Where a text without quotes ends the scan in. */
  function OddAfter(s: string, odd: bool): bool {
    if s == "" then odd else OddAfter(s[1..], s[0] == '\\' && !odd)
  }

  lemma {:induction false} OddAfterIs(s: string)
    ensures OddAfter(s, false) == OddEnd(s)
    decreases |s|
  {
    if s != "" {
      var n := |s| - 1;
      OddAfterIs(s[..n]);
      OddAfterMore(s[..n], s[n], false);
      assert s == s[..n] + [s[n]];
    }
  }

  lemma {:induction false} OddAfterMore(s: string, c: char, odd: bool)
    ensures OddAfter(s + [c], odd) == (c == '\\' && !OddAfter(s, odd))
    decreases |s|
  {
    if s == "" {
      assert s + [c] == [c] && [c][1..] == "";
    } else {
      OddAfterMore(s[1..], c, s[0] == '\\' && !odd);
      assert (s + [c])[1..] == s[1..] + [c];
    }
  }

  lemma {:induction false} EscapedFrom(a: string, more: string, odd: bool)
    requires NoQuote(a)
    ensures Escaped(a + more, odd) == a + Escaped(more, OddAfter(a, odd))
    decreases |a|
  {
    if a == "" {
      assert a + more == more;
    } else {
      EscapedFrom(a[1..], more, a[0] == '\\' && !odd);
      assert (a + more)[1..] == a[1..] + more && a == [a[0]] + a[1..];
      Assoc([a[0]], a[1..], Escaped(more, OddAfter(a, odd)));
    }
  }

  /**
   The text is written as it is, up to its end or its first quote: there an odd
   number of backslashes gets one more, and a quote without one is doubled.
   */
  lemma WrittenAsIs(a: string, b: string)
    requires NoQuote(a)
    ensures Escaped(a, false) == if OddEnd(a) then a + "\\" else a
    ensures Escaped(a + "'" + b, false) == a + (if OddEnd(a) then "'" else "''") + Escaped(b, false)
  {
    OddAfterIs(a);
    EscapedFrom(a, "", false);
    assert a + "" == a;
    var rest := "'" + b;
    EscapedFrom(a, rest, false);
    assert a + "'" + b == a + rest && rest[1..] == b && rest[0] == '\'';
    Assoc(a, if OddEnd(a) then "'" else "''", Escaped(b, false));
  }

  lemma Assoc(a: string, b: string, c: string)
    ensures a + b + c == a + (b + c)
  {
  }

  /** A backslash at the end is doubled. */
  lemma LastBackslash(s: string)
    requires s == ['\\']
    ensures Escaped(s, false) == ['\\', '\\'] && Meaning(s) == ['\\']
  {
    var t := s[1..];
    assert Escaped(t, true) == ['\\'];
  }

  /** A backslash is written with the character it takes along. */
  lemma BackslashPair(s: string, tail: string)
    requires |s| > 1 && s[0] == '\\'
    ensures Lex(Escaped(s, false) + tail) == Grow(Unescape(s[1]), Lex(Escaped(s[2..], false) + tail))
  {
    var more := Escaped(s[2..], false);
    AfterBackslash(s[1..]);
    assert s[1..][1..] == s[2..];
    assert Escaped(s, false) == ['\\'] + ([s[1]] + more);
    assert Escaped(s, false) + tail == ['\\', s[1]] + (more + tail);
    LexPair(s[1], more + tail);
  }

  lemma AfterBackslash(t: string)
    requires t != ""
    ensures Escaped(t, true) == [t[0]] + Escaped(t[1..], false)
  {
  }

  lemma PlainChar(s: string, tail: string)
    requires s != "" && s[0] != '\\'
    ensures Lex(Escaped(s, false) + tail) == Grow([s[0]], Lex(Escaped(s[1..], false) + tail))
  {
    var more := Escaped(s[1..], false);
    if s[0] == '\'' {
      LexQuotes(more + tail);
      Assoc(['\'', '\''], more, tail);
    } else {
      LexPlain(s[0], more + tail);
      Assoc([s[0]], more, tail);
    }
  }

  // --- quote_for_like ---

  function QuotedChar(c: char): string {
    if c == '\\' then ['\\', '\\', '\\', '\\'] else if c == '\'' || c == '_' || c == '%' then ['\\', c] else [c]
  }

  function LikeQuoted(name: string): string {
    if name == "" then "" else QuotedChar(name[0]) + LikeQuoted(name[1..])
  }

  method QuoteForLike(name: string) returns (out: string)
    ensures out == ['\''] + LikeQuoted(name) + ['\'']
  {
    out := ['\''];
    for i := 0 to |name|
      invariant out + LikeQuoted(name[i..]) == ['\''] + LikeQuoted(name)
    {
      ghost var before := out;
      if name[i] == '\\' {
        out := out + ['\\', '\\', '\\'];
      } else if name[i] == '\'' || name[i] == '_' || name[i] == '%' {
        out := out + ['\\'];
      }
      out := out + [name[i]];
      assert out == before + QuotedChar(name[i]);
      assert name[i..][1..] == name[i + 1..];
      Assoc(before, QuotedChar(name[i]), LikeQuoted(name[i + 1..]));
    }
    out := out + ['\''];
  }

  /** A name without the characters that are quoted is written as it is. */
  lemma {:induction false} LikeQuotedAsIs(name: string)
    requires forall i :: 0 <= i < |name| ==> name[i] !in "\\'_%"
    ensures LikeQuoted(name) == name
  {
    if name != "" {
      LikeQuotedAsIs(name[1..]);
      assert name[0] !in "\\'_%";
      assert "\\'_%"[0] == '\\' && "\\'_%"[1] == '\'' && "\\'_%"[2] == '_' && "\\'_%"[3] == '%';
    }
  }

  /** LIKE with the backslash as escape character. */
  predicate Like(p: string, t: string)
    decreases |p| + |t|
  {
    if p == "" then t == ""
    else if p[0] == '%' then Like(p[1..], t) || (t != "" && Like(p, t[1..]))
    else if p[0] == '_' then t != "" && Like(p[1..], t[1..])
    else if p[0] == '\\' && |p| > 1 then t != "" && t[0] == p[1] && Like(p[2..], t[1..])
    else t != "" && t[0] == p[0] && Like(p[1..], t[1..])
  }

  function PatternChar(c: char): string {
    if c == '\\' || c == '_' || c == '%' then ['\\', c] else [c]
  }

  /** The pattern that the server sees. */
  function Pattern(name: string): string {
    if name == "" then "" else PatternChar(name[0]) + Pattern(name[1..])
  }

  lemma LexQuotedChar(c: char, next: string)
    ensures Lex(QuotedChar(c) + next) == Grow(PatternChar(c), Lex(next))
  {
    if c == '\\' {
      LexPair(c, next);
      LexPair(c, [c, c] + next);
      assert QuotedChar(c) + next == [c, c] + ([c, c] + next);
      GrowTwice([c], [c], Lex(next));
    } else if c == '\'' || c == '_' || c == '%' {
      LexPair(c, next);
    } else {
      LexPlain(c, next);
    }
  }

  lemma GrowTwice(a: string, b: string, l: Literal)
    ensures Grow(a, Grow(b, l)) == Grow(a + b, l)
  {
    if l.Closed? {
      Assoc(a, b, l.value);
    }
  }

  lemma {:induction false} QuotedIsPattern(name: string, rest: string)
    requires rest == "" || rest[0] != '\''
    ensures Lex(LikeQuoted(name) + (['\''] + rest)) == Closed(Pattern(name), rest)
    decreases |name|
  {
    var tail := ['\''] + rest;
    if name == "" {
      assert LikeQuoted(name) + tail == tail;
      LexQuotes(rest);
    } else {
      QuotedIsPattern(name[1..], rest);
      LexQuotedChar(name[0], LikeQuoted(name[1..]) + tail);
      Assoc(QuotedChar(name[0]), LikeQuoted(name[1..]), tail);
    }
  }

  lemma {:induction false} PatternMatchesOnly(name: string, t: string)
    ensures Like(Pattern(name), t) <==> t == name
    decreases |name|
  {
    if name != "" {
      var p := Pattern(name);
      var k := |PatternChar(name[0])|;
      assert p[k..] == Pattern(name[1..]);
      if t != "" {
        PatternMatchesOnly(name[1..], t[1..]);
        assert t == name <==> t[0] == name[0] && t[1..] == name[1..] by {
          assert t == [t[0]] + t[1..] && name == [name[0]] + name[1..];
        }
      }
    }
  }

  /** The quoted name, read as a literal and then used as a pattern, matches the name and nothing else. */
  lemma QuotedMatchesOnly(name: string, rest: string, t: string)
    requires rest == "" || rest[0] != '\''
    ensures var l := Lex(LikeQuoted(name) + (['\''] + rest));
            l.Closed? && l.rest == rest && (Like(l.value, t) <==> t == name)
  {
    QuotedIsPattern(name, rest);
    PatternMatchesOnly(name, t);
  }
}
