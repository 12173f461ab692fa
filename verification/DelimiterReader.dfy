/**
 How mysqltest reads text up to a delimiter, pushing characters back into a
 small buffer when a delimiter turns out not to be there.

 Characters are bytes. A byte that comes from the file is compared as a number
 from 0 to 255, one that was pushed back and those of the delimiter as signed
 characters, as on every platform where char is signed.
 */
module DelimiterReader {

  type Byte = b: int | 0 <= b < 256

  const MAX_DELIMITER_LENGTH := 16
  const EOF := -1
  const NEWLINE: Byte := 10

  function Signed(b: Byte): int {
    if b < 128 then b else b - 256
  }

  /** The byte that storing c in a char leaves. */
  function AsChar(c: int): Byte
    requires -128 <= c < 256
  {
    if c < 0 then c + 256 else c
  }

  predicate PrefixAt(s: seq<Byte>, i: nat, d: seq<Byte>) {
    i + |d| <= |s| && s[i..i + |d|] == d
  }

  /** What reading at index k of the stream gives, when its first p bytes are pushed back ones. */
  function CharAt(s: seq<Byte>, p: nat, k: nat): int {
    if k >= |s| then EOF else if k < p then Signed(s[k]) else s[k]
  }

  /** The first index from i on where the stream behind the first byte disagrees with the delimiter. */
  function Stop(d: seq<Byte>, s: seq<Byte>, p: nat, i: nat): (m: nat)
    requires 0 < i <= |d|
    ensures i <= m <= |d|
    decreases |d| - i
  {
    if i < |d| && CharAt(s, p, i - 1) == Signed(d[i]) then Stop(d, s, p, i + 1) else i
  }

  function Max(a: nat, b: nat): nat {
    if a < b then b else a
  }

  function Newlines(text: seq<Byte>): nat {
    if text == [] then 0 else Newlines(text[..|text| - 1]) + if text[|text| - 1] == NEWLINE then 1 else 0
  }

  lemma NewlinesMore(text: seq<Byte>, c: Byte)
    ensures Newlines(text + [c]) == Newlines(text) + Newlines([c])
  {
    assert (text + [c])[..|text|] == text && [c][..0] == [];
  }

  datatype Died = TooLong | Trailing | EndOfFile

  datatype Outcome = Dies(why: Died) | Reads(text: seq<Byte>)

  ghost function Prefixed(text: seq<Byte>, o: Outcome): Outcome {
    if o.Dies? then o else Reads(text + o.text)
  }

  function Less(p: nat): nat {
    if p > 0 then p - 1 else 0
  }

  /** Reading bytes from the stream until the delimiter matches. */
  ghost function Scan(d: seq<Byte>, s: seq<Byte>, p: nat): Outcome
    requires d != []
    decreases |s|, 0
  {
    if s == [] then Dies(EndOfFile) else ScanByte(d, s[0], s[1..], Less(p))
  }

  ghost function ScanByte(d: seq<Byte>, c: Byte, rest: seq<Byte>, p: nat): Outcome
    requires d != []
    decreases |rest|, 1
  {
    var m := Stop(d, rest, p, 1);
    if c != d[0] then Prefixed([c], Scan(d, rest, p))
    else if m == |d| then Reads([])
    else if m > |rest| then Dies(EndOfFile)
    else Prefixed([c], Scan(d, rest, Max(p, m)))
  }

  class Source {
    var file: seq<Byte>
    var eof: bool
    const lineBuffer: array<Byte>
    var pos: nat
    var lineno: nat
    // the bytes pushed back, next one first
    ghost var pushed: seq<Byte>

    ghost predicate Valid()
      reads this, lineBuffer
    {
      && lineBuffer.Length == MAX_DELIMITER_LENGTH
      && |pushed| == pos <= MAX_DELIMITER_LENGTH
      && (forall k :: 0 <= k < pos ==> lineBuffer[k] == pushed[pos - 1 - k])
    }

    /** All bytes still to be read. */
    ghost function Stream(): seq<Byte>
      reads this
    {
      pushed + file
    }

    method Getc() returns (c: int)
      requires Valid()
      modifies this`file, this`eof, this`pos, this`pushed
      ensures Valid() && -128 <= c < 256
      ensures old(Stream()) == [] ==> c == EOF && eof && Stream() == []
      ensures old(Stream()) != [] ==> eof == old(eof) && Stream() == old(Stream())[1..]
      ensures old(Stream()) != [] ==> c == if old(pos) > 0 then Signed(old(Stream())[0]) else old(Stream())[0]
      ensures pos == Less(old(pos))
    {
      if pos == 0 {
        if file == [] {
          eof := true;
          return EOF;
        }
        c, file := file[0], file[1..];
      } else {
        pos := pos - 1;
        c := Signed(lineBuffer[pos]);
        pushed := pushed[1..];
      }
    }

    method Ungetc(c: int)
      requires Valid() && pos < MAX_DELIMITER_LENGTH && -128 <= c < 256
      modifies this`pos, this`pushed, lineBuffer
      ensures Valid() && pos == old(pos) + 1 && Stream() == [AsChar(c)] + old(Stream())
    {
      lineBuffer[pos] := AsChar(c);
      pos := pos + 1;
      pushed := [AsChar(c)] + pushed;
    }

    /** n bytes were read from a stream that had p pushed back bytes in front. */
    ghost predicate HasRead(n: nat, s: seq<Byte>, p: nat)
      reads this
    {
      eof == (n > |s|) && Stream() == s[if n > |s| then |s| else n..] && pos == if p > n then p - n else 0
    }

    /** Read one more byte. */
    method GetNext(ghost n: nat, ghost s: seq<Byte>, ghost p: nat) returns (c: int)
      requires Valid() && HasRead(n, s, p) && p <= |s|
      modifies this`file, this`eof, this`pos, this`pushed
      ensures Valid() && HasRead(n + 1, s, p) && c == CharAt(s, p, n) && -128 <= c < 256
    {
      c := Getc();
    }

    /** Read on while the bytes agree with the delimiter; m is where they stop doing so, tmp what agreed. */
    method ReadWhileEqual(d: seq<Byte>) returns (m: nat, c: int, tmp: seq<Byte>)
      requires Valid() && d != [] && !eof
      modifies this`file, this`eof, this`pos, this`pushed
      ensures Valid() && m == Stop(d, old(Stream()), old(pos), 1) && -128 <= c < 256
      ensures tmp == d[1..m] && (m < |d| ==> c == CharAt(old(Stream()), old(pos), m - 1))
      ensures HasRead(if m < |d| then m else |d| - 1, old(Stream()), old(pos))
    {
      ghost var before, p := Stream(), pos;
      m, c, tmp := 1, 0, [];
      while m < |d|
        invariant Valid() && 1 <= m <= |d| && -128 <= c < 256 && HasRead(m - 1, before, p)
        invariant tmp == d[1..m]
        invariant Stop(d, before, p, m) == Stop(d, before, p, 1)
      {
        c := GetNext(m - 1, before, p);
        if c != Signed(d[m]) {
          return;
        }
        tmp := Agreeing(d, m, c, tmp);
        m := m + 1;
      }
    }

    /** Push back what was read, the last byte first. */
    method PushBack(c: int, tmp: seq<Byte>)
      requires Valid() && pos + |tmp| < MAX_DELIMITER_LENGTH && -128 <= c < 256
      modifies this`pos, this`pushed, lineBuffer
      ensures Valid() && pos == old(pos) + |tmp| + 1 && Stream() == tmp + [AsChar(c)] + old(Stream())
    {
      ghost var s := Stream();
      Ungetc(c);
      var i := |tmp|;
      while i > 0
        invariant Valid() && 0 <= i <= |tmp| && pos == old(pos) + |tmp| + 1 - i
        invariant Stream() == tmp[i..] + [AsChar(c)] + s
      {
        i := i - 1;
        Ungetc(Signed(tmp[i]));
      }
    }

    /**
     Whether the delimiter starts with c. If it does not and the end of the
     file was not met, the stream is as it was.
     */
    method MatchDelimiter(c: int, d: seq<Byte>) returns (found: bool)
      requires Valid() && 0 < |d| <= MAX_DELIMITER_LENGTH && pos < MAX_DELIMITER_LENGTH && !eof
      modifies this`file, this`eof, this`pos, this`pushed, lineBuffer
      ensures Valid() && pos < MAX_DELIMITER_LENGTH
      ensures var s, m := old(Stream()), Stop(d, old(Stream()), old(pos), 1);
              && found == (c == Signed(d[0]) && m == |d|)
              && eof == (c == Signed(d[0]) && (if found then m - 1 else m) > |s|)
              && (!eof ==> Stream() == if found then s[m - 1..] else s)
              && (!eof && !found ==> pos == if c == Signed(d[0]) then Max(old(pos), m) else old(pos))
    {
      if c != Signed(d[0]) {
        return false;
      }
      ghost var s, p := Stream(), pos;
      var m, last, tmp := ReadWhileEqual(d);
      if m == |d| {
        return true;
      }
      PushBack(last, tmp);
      if !eof {
        Restored(d, s, p, m);
      }
      return false;
    }

    /** The delimiter, or one more byte of text. */
    method OneByte(c: Byte, d: seq<Byte>) returns (found: bool)
      requires Valid() && 0 < |d| <= MAX_DELIMITER_LENGTH && pos < MAX_DELIMITER_LENGTH && !eof
      modifies this`file, this`eof, this`pos, this`pushed, lineBuffer
      ensures Valid() && pos < MAX_DELIMITER_LENGTH
      ensures var o := ScanByte(d, c, old(Stream()), old(pos));
              if found then o == Reads([]) && (!eof ==> [c] + old(Stream()) == d + Stream())
              else if eof then o == Dies(EndOfFile)
              else o == Prefixed([c], Scan(d, Stream(), pos)) && Stream() == old(Stream())
      ensures found ==> c == d[0]
      ensures found && eof ==> Stop(d, old(Stream()), old(pos), 1) > |old(Stream())| + 1
    {
      ghost var s, p := Stream(), pos;
      found := MatchDelimiter(Signed(c), d);
      if found && !eof {
        Agreed(d, s, p);
      }
    }

    /** One turn: the end of the file, the delimiter, or one more byte of text. */
    method OneTurn(d: seq<Byte>) returns (c: Byte, found: bool, ended: bool)
      requires Valid() && 0 < |d| <= MAX_DELIMITER_LENGTH && pos < MAX_DELIMITER_LENGTH
      modifies this, lineBuffer
      ensures Valid() && pos < MAX_DELIMITER_LENGTH && (old(eof) ==> ended)
      ensures !ended ==> lineno == old(lineno) + Newlines([c]) && (found ==> c == d[0])
      ensures !old(eof) ==>
                var s, o := old(Stream()), Scan(d, old(Stream()), old(pos));
                if ended then o == Dies(EndOfFile)
                else if found then o == Reads([]) && (!eof ==> s == d + Stream()) && (Plain(d) ==> !eof)
                else if eof then o == Dies(EndOfFile)
                else o == Prefixed([c], Scan(d, Stream(), pos)) && s == [c] + Stream()
    {
      var ch := Getc();
      c := AsChar(ch);
      if c == NEWLINE {
        lineno := lineno + 1;
      }
      if eof {
        return c, false, true;
      }
      PlainWithin(d, Stream(), pos);
      found := OneByte(c, d);
      ended := false;
    }

    /** The lines behind the one of the command. */
    method ReadText(d: seq<Byte>) returns (r: Outcome)
      requires Valid() && 0 < |d| <= MAX_DELIMITER_LENGTH && pos < MAX_DELIMITER_LENGTH && !eof
      modifies this, lineBuffer
      ensures Valid() && pos < MAX_DELIMITER_LENGTH && r == Scan(d, old(Stream()), old(pos))
      ensures r.Reads? && !eof ==> old(Stream()) == r.text + (d + Stream())
      ensures r.Reads? && Plain(d) ==> !eof
      ensures r.Reads? ==> lineno == old(lineno) + Newlines(r.text + [d[0]])
    {
      var text := [];
      ghost var goal, all := Scan(d, Stream(), pos), Stream();
      while true
        invariant Valid() && pos < MAX_DELIMITER_LENGTH
        invariant eof ==> goal == Dies(EndOfFile)
        invariant lineno == old(lineno) + Newlines(text)
        invariant !eof ==> goal == Prefixed(text, Scan(d, Stream(), pos)) && text + Stream() == all
        decreases !eof, |Stream()|
      {
        ghost var s := Stream();
        var c, found, ended := OneTurn(d);
        NewlinesMore(text, c);
        if ended {
          return Dies(EndOfFile);
        }
        if found {
          return Reads(text);
        }
        if !eof {
          OneMore(text, c, Stream(), s, Scan(d, Stream(), pos));
        }
        text := text + [c];
      }
    }

    /**
     The text up to the delimiter, which is read too. On the line of the command
     only its newline may follow. For a plain delimiter the text is what stands
     before its first occurrence, and the stream goes on behind that.
     */
    method ReadUntilDelimiter(d: seq<Byte>, startLineno: nat) returns (r: Outcome)
      requires Valid() && d != [] && pos < MAX_DELIMITER_LENGTH && !eof && startLineno <= lineno
      modifies this, lineBuffer
      ensures Valid() && pos < MAX_DELIMITER_LENGTH
      ensures r == Dies(TooLong) <==> |d| > 16
      ensures r == Dies(Trailing) <==> |d| <= 16 && startLineno == old(lineno) && !StartsLine(old(Stream()))
      ensures r != Dies(TooLong) && r != Dies(Trailing) ==>
                var skip := if startLineno == old(lineno) then 1 else 0;
                && |old(Stream())| >= skip
                && var s := old(Stream())[skip..];
                && r == Scan(d, s, if old(pos) > skip then old(pos) - skip else 0)
                && (Plain(d) ==> Correct(d, s, r))
                && (r.Reads? && Plain(d) ==> !eof)
                && (r.Reads? ==> lineno == old(lineno) + skip + Newlines(r.text + [d[0]]))
                && (r.Reads? && !eof ==> s == r.text + (d + Stream()))
    {
      if |d| > MAX_DELIMITER_LENGTH {
        return Dies(TooLong);
      }
      if startLineno == lineno {
        var ch := Getc();
        if ch != NEWLINE {
          return Dies(Trailing);
        }
        lineno := lineno + 1;
      }
      ghost var s, p := Stream(), pos;
      r := ReadText(d);
      ScanDies(d, s, p);
      if Plain(d) {
        PlainIsFound(d, s, p);
      }
    }
  }

  /** The next byte ends the line. */
  predicate StartsLine(s: seq<Byte>) {
    s != [] && s[0] == 10
  }

  /** What agreed, with one more byte. */
  function Agreeing(ghost d: seq<Byte>, ghost m: nat, c: int, tmp: seq<Byte>): (more: seq<Byte>)
    requires 1 <= m < |d| && c == Signed(d[m]) && tmp == d[1..m]
    ensures more == d[1..m + 1]
  {
    tmp + [AsChar(c)]
  }

  lemma OneMore(text: seq<Byte>, c: Byte, rest: seq<Byte>, s: seq<Byte>, o: Outcome)
    requires s == [c] + rest
    ensures text + s == text + [c] + rest && Prefixed(text, Prefixed([c], o)) == Prefixed(text + [c], o)
  {
    assert o.Reads? ==> text + ([c] + o.text) == text + [c] + o.text;
  }

  /** A delimiter that was found behind its first byte is in the stream. */
  lemma Agreed(d: seq<Byte>, s: seq<Byte>, p: nat)
    requires d != [] && Stop(d, s, p, 1) == |d| && |d| - 1 <= |s|
    ensures [d[0]] + s == d + s[|d| - 1..]
  {
    StopAgrees(d, s, p, 1);
    assert s[..|d| - 1] == d[1..];
    Behind(d, s);
  }

  lemma Behind(d: seq<Byte>, s: seq<Byte>)
    requires d != [] && |d| - 1 <= |s| && s[..|d| - 1] == d[1..]
    ensures [d[0]] + s == d + s[|d| - 1..]
  {
    assert s == s[..|d| - 1] + s[|d| - 1..];
  }

  /** What agreed, the byte that did not, and what is left are the whole stream. */
  lemma Restored(d: seq<Byte>, s: seq<Byte>, p: nat, m: nat)
    requires d != [] && m == Stop(d, s, p, 1) < |d| && m <= |s|
    ensures d[1..m] + [AsChar(CharAt(s, p, m - 1))] + s[m..] == s
  {
    StopAgrees(d, s, p, 1);
    assert s[..m - 1] == d[1..m];
    assert s == s[..m - 1] + [s[m - 1]] + s[m..];
  }

  lemma {:induction false} StopAgrees(d: seq<Byte>, s: seq<Byte>, p: nat, i: nat)
    requires 0 < i <= |d|
    ensures forall j :: i <= j < Stop(d, s, p, i) ==> CharAt(s, p, j - 1) == Signed(d[j])
    decreases |d| - i
  {
    if i < Stop(d, s, p, i) {
      StopAgrees(d, s, p, i + 1);
    }
  }

  // --- what is read ---

  lemma {:induction false} ScanDies(d: seq<Byte>, s: seq<Byte>, p: nat)
    requires d != []
    ensures Scan(d, s, p).Dies? ==> Scan(d, s, p).why == EndOfFile
    decreases |s|
  {
    if s != [] {
      var rest, q := s[1..], Less(p);
      ScanDies(d, rest, q);
      ScanDies(d, rest, Max(q, Stop(d, rest, q, 1)));
    }
  }

  ghost predicate NoneBefore(s: seq<Byte>, d: seq<Byte>, n: nat) {
    forall i :: 0 <= i < n ==> !PrefixAt(s, i, d)
  }

  /** The text before the first occurrence of the delimiter, or the end of the file if there is none. */
  ghost predicate Correct(d: seq<Byte>, s: seq<Byte>, o: Outcome) {
    match o
    case Reads(text) => PrefixAt(s, |text|, d) && s[..|text|] == text && NoneBefore(s, d, |text|)
    case Dies(why) => why == EndOfFile && NoneBefore(s, d, |s|)
  }

  /** Behind its first byte the delimiter has no byte from 128 on. */
  ghost predicate Plain(d: seq<Byte>) {
    forall j :: 1 <= j < |d| ==> d[j] < 128
  }

  /** A plain delimiter does not agree with the end of the file. */
  lemma PlainWithin(d: seq<Byte>, s: seq<Byte>, p: nat)
    requires d != []
    ensures Plain(d) ==> Stop(d, s, p, 1) <= |s| + 1
  {
    var m := Stop(d, s, p, 1);
    StopAgrees(d, s, p, 1);
    assert m >= 2 ==> CharAt(s, p, m - 2) == Signed(d[m - 1]);
  }

  lemma PlainStop(d: seq<Byte>, s: seq<Byte>, p: nat, c: Byte)
    requires d != [] && Plain(d)
    ensures c == d[0] && Stop(d, s, p, 1) == |d| <==> PrefixAt([c] + s, 0, d)
    ensures Stop(d, s, p, 1) <= |s| + 1
  {
    var m := Stop(d, s, p, 1);
    StopAgrees(d, s, p, 1);
    StopDiffers(d, s, p, 1);
    PlainWithin(d, s, p);
    if c == d[0] && m == |d| {
      forall j | 0 <= j < |d|
        ensures ([c] + s)[j] == d[j]
      {
        assert j > 0 ==> CharAt(s, p, j - 1) == Signed(d[j]);
      }
      assert ([c] + s)[0..|d|] == d;
    }
    if PrefixAt([c] + s, 0, d) {
      forall j | 0 <= j < |d|
        ensures ([c] + s)[j] == d[j]
      {
        assert ([c] + s)[0..|d|][j] == d[j];
      }
    }
  }

  lemma {:induction false} StopDiffers(d: seq<Byte>, s: seq<Byte>, p: nat, i: nat)
    requires 0 < i <= |d|
    ensures var m := Stop(d, s, p, i); m < |d| ==> CharAt(s, p, m - 1) != Signed(d[m])
    decreases |d| - i
  {
    if i < Stop(d, s, p, i) {
      StopDiffers(d, s, p, i + 1);
    }
  }

  lemma {:induction false} PlainIsFound(d: seq<Byte>, s: seq<Byte>, p: nat)
    requires d != [] && Plain(d)
    ensures Correct(d, s, Scan(d, s, p))
    decreases |s|
  {
    if s != [] {
      var c, rest, q := s[0], s[1..], Less(p);
      var m := Stop(d, rest, q, 1);
      assert s == [c] + rest;
      PlainStop(d, rest, q, c);
      if c == d[0] && m == |d| {
      } else if c == d[0] && m > |rest| {
        assert NoneBefore(s, d, |s|);
      } else {
        var p' := if c == d[0] then Max(q, m) else q;
        PlainIsFound(d, rest, p');
        CorrectBehind(d, c, rest, Scan(d, rest, p'));
      }
    }
  }

  lemma CorrectBehind(d: seq<Byte>, c: Byte, rest: seq<Byte>, o: Outcome)
    requires d != [] && Correct(d, rest, o) && !PrefixAt([c] + rest, 0, d)
    ensures Correct(d, [c] + rest, Prefixed([c], o))
  {
    var s := [c] + rest;
    forall i | 0 < i
      ensures PrefixAt(s, i, d) == PrefixAt(rest, i - 1, d)
    {
      assert i + |d| <= |s| ==> s[i..i + |d|] == rest[i - 1..i - 1 + |d|];
    }
    if o.Reads? {
      assert s[..1 + |o.text|] == [c] + rest[..|o.text|];
    }
  }

  /** Exactly for plain delimiters the text is read up to the first occurrence, whatever the file holds. */
  lemma FindsFirstIffPlain(d: seq<Byte>)
    requires d != []
    ensures Plain(d) <==> forall s: seq<Byte>, p: nat :: Correct(d, s, Scan(d, s, p))
  {
    if Plain(d) {
      forall s: seq<Byte>, p: nat
        ensures Correct(d, s, Scan(d, s, p))
      {
        PlainIsFound(d, s, p);
      }
    } else {
      MissesItself(d);
    }
  }

  /** A delimiter with a byte from 128 on behind its first one is not found at the start of a file. */
  lemma MissesItself(d: seq<Byte>)
    requires d != [] && !Plain(d)
    ensures !Correct(d, d, Scan(d, d, 0))
  {
    var rest := d[1..];
    StopAgrees(d, rest, 0, 1);
    var j :| 1 <= j < |d| && d[j] >= 128;
    assert CharAt(rest, 0, j - 1) == d[j];
    assert PrefixAt(d, 0, d);
    assert Stop(d, rest, 0, 1) < |d|;
  }
}
