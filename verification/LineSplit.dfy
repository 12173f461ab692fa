/** Splitting a text into lines, as a batch reader of the mysql client is meant to. */
module LineSplit {

  /** The index of the first newline, or the length if there is none. */
  function FirstNewline(s: string): (n: nat)
    ensures n <= |s| && (n < |s| ==> s[n] == '\n') && forall i :: 0 <= i < n ==> s[i] != '\n'
  {
    if s == "" || s[0] == '\n' then 0 else 1 + FirstNewline(s[1..])
  }

  lemma {:induction false} FirstNewlineIs(s: string, n: nat)
    requires n <= |s| && (n < |s| ==> s[n] == '\n') && forall i :: 0 <= i < n ==> s[i] != '\n'
    ensures FirstNewline(s) == n
    decreases s
  {
    if n > 0 {
      FirstNewlineIs(s[1..], n - 1);
    }
  }

  /** A line without its newline loses one carriage return at its end. */
  function DropReturn(line: string): string {
    if line != "" && line[|line| - 1] == '\r' then line[..|line| - 1] else line
  }

  /** The lines of a file: LF and CRLF are dropped, an unterminated last line is kept as it is. */
  function FileLines(s: string): seq<string> {
    if s == "" then []
    else
      var n := FirstNewline(s);
      if n == |s| then [s] else [DropReturn(s[..n])] + FileLines(s[n + 1..])
  }

  /** The lines of a text in which every line is terminated. */
  function TerminatedLines(s: string): seq<string> {
    if s == "" then []
    else
      var n := FirstNewline(s);
      if n == |s| then [s] else [s[..n]] + TerminatedLines(s[n + 1..])
  }

  /** Every line is shorter than the limit. */
  predicate ShortLines(s: string, limit: nat) {
    var n := FirstNewline(s);
    n < limit && (n < |s| ==> ShortLines(s[n + 1..], limit))
  }

  predicate NulFree(s: string) {
    forall i :: 0 <= i < |s| ==> s[i] != '\0'
  }

  predicate NoNewline(s: string) {
    forall i :: 0 <= i < |s| ==> s[i] != '\n'
  }

  /** No stretch without a newline is as long as the limit. */
  ghost predicate ShortStretches(s: string, limit: nat) {
    forall i, j :: 0 <= i <= j <= |s| && NoNewline(s[i..j]) ==> j - i < limit
  }

  lemma NewlineWithin(s: string, i: nat, j: nat, n: nat)
    requires i <= n < j <= |s| && s[n] == '\n'
    ensures !NoNewline(s[i..j])
  {
    assert s[i..j][n - i] == '\n';
  }

  lemma {:induction false} ShortLinesIff(s: string, limit: nat)
    ensures ShortLines(s, limit) <==> ShortStretches(s, limit)
    decreases |s|
  {
    var n := FirstNewline(s);
    assert NoNewline(s[0..n]);
    if n < |s| {
      var more := s[n + 1..];
      ShortLinesIff(more, limit);
      forall i, j | 0 <= i <= j <= |more|
        ensures more[i..j] == s[n + 1 + i..n + 1 + j]
      {
      }
      if n < limit && ShortStretches(more, limit) {
        forall i, j | 0 <= i <= j <= |s|
          ensures NoNewline(s[i..j]) ==> j - i < limit
        {
          if i <= n < j {
            NewlineWithin(s, i, j, n);
          } else if i > n {
            assert s[i..j] == more[i - n - 1..j - n - 1];
          }
        }
      }
    }
  }

  /** A text that starts with a complete line. */
  lemma LineThenRest(line: string, more: string)
    requires NoNewline(line)
    ensures FirstNewline(line + "\n" + more) == |line|
    ensures FileLines(line + "\n" + more) == [DropReturn(line)] + FileLines(more)
    ensures TerminatedLines(line + "\n" + more) == [line] + TerminatedLines(more)
    ensures forall limit :: ShortLines(line + "\n" + more, limit) ==> ShortLines(more, limit)
  {
    var s := line + "\n" + more;
    FirstNewlineIs(s, |line|);
    assert s[..|line|] == line && s[|line| + 1..] == more;
  }

  predicate EndsInReturn(line: string) {
    line != "" && line[|line| - 1] == '\r'
  }

  /** A first line that ends in CRLF, or in LF alone. */
  lemma EitherEnd(line: string, more: string)
    requires NoNewline(line)
    ensures FileLines(line + "\r\n" + more) == [line] + FileLines(more)
    ensures !EndsInReturn(line) ==> FileLines(line + "\n" + more) == [line] + FileLines(more)
  {
    assert line + "\r\n" + more == (line + "\r") + "\n" + more;
    LineThenRest(line + "\r", more);
    LineThenRest(line, more);
    assert (line + "\r")[..|line|] == line;
  }

  /** Lines as they are written to a file, each ending in CRLF or in LF alone. */
  function Written(lines: seq<string>, crlf: seq<bool>): string
    requires |lines| == |crlf|
  {
    if lines == [] then "" else lines[0] + (if crlf[0] then "\r\n" else "\n") + Written(lines[1..], crlf[1..])
  }

  /**
   Lines that were written are read back, whatever their ends, and with a last
   line without an end. Only a return before a newline alone cannot be kept.
   */
  lemma {:induction false} WrittenAreRead(lines: seq<string>, crlf: seq<bool>, last: string)
    requires |lines| == |crlf| && NoNewline(last)
    requires forall i :: 0 <= i < |lines| ==> NoNewline(lines[i]) && (EndsInReturn(lines[i]) ==> crlf[i])
    ensures FileLines(Written(lines, crlf) + last) == lines + if last == "" then [] else [last]
    decreases |lines|
  {
    if lines == [] {
      FirstNewlineIs(last, |last|);
      assert Written(lines, crlf) + last == last;
    } else {
      var more := Written(lines[1..], crlf[1..]);
      WrittenAreRead(lines[1..], crlf[1..], last);
      EitherEnd(lines[0], more + last);
      Regroup(lines[0], if crlf[0] then "\r\n" else "\n", more, last);
      FirstLine(lines, if last == "" then [] else [last]);
    }
  }

  lemma Regroup(a: string, b: string, c: string, d: string)
    ensures a + b + c + d == a + b + (c + d)
  {
  }

  lemma FirstLine(lines: seq<string>, more: seq<string>)
    requires lines != []
    ensures [lines[0]] + (lines[1..] + more) == lines + more
  {
  }

  lemma LastLine(line: string)
    requires NoNewline(line) && line != ""
    ensures FileLines(line) == [line]
  {
    FirstNewlineIs(line, |line|);
  }

  lemma {:induction false} NewlineBehind(part: string, more: string)
    requires NoNewline(part)
    ensures FirstNewline(part + more) >= |part|
    decreases part
  {
    if part != "" {
      NewlineBehind(part[1..], more);
      assert (part + more)[1..] == part[1..] + more;
    }
  }

  /** What has been read of a line is shorter than the limit. */
  lemma PartIsShort(part: string, more: string, limit: nat)
    requires NoNewline(part) && ShortLines(part + more, limit)
    ensures |part| < limit
  {
    NewlineBehind(part, more);
  }
}
