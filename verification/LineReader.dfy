/**
 The batch line reader of the mysql client: a buffer that grows, slides and is
 refilled by short reads. Characters are single bytes.
 */
module LineReader {
  import opened Wrappers
  import opened LineSplit

  const IO_SIZE := 4096

  class LineBuffer {
    var buffer: array<char>
    var startOfLine: nat
    var endOfLine: nat
    var end: nat
    var bufread: nat
    const maxSize: nat
    var eof: bool
    // the file: what is still to be read, and how much each read may deliver
    var rest: string
    var chunks: seq<nat>

    /** buffer <= start_of_line <= end_of_line <= end <= buffer + bufread, with a zero at end. */
    ghost predicate Valid()
      reads this, buffer
    {
      && startOfLine <= endOfLine <= end < buffer.Length
      && buffer[end] == '\0'
      && (if eof then rest == "" && (endOfLine < end ==> buffer[end - 1] == '\n')
          else bufread >= IO_SIZE && buffer.Length == bufread + 1)
    }

    /** The text that has been read into the buffer and not been returned. */
    ghost function Pending(): string
      reads this, buffer
      requires Valid()
    {
      buffer[endOfLine..end]
    }

    ghost function Unread(): string
      reads this, buffer
      requires Valid()
    {
      Pending() + rest
    }

    /** The lines still to be returned. */
    ghost function Todo(): seq<string>
      reads this, buffer
      requires Valid()
    {
      if eof then TerminatedLines(Unread()) else FileLines(Unread())
    }

    /** What the reader is promised for. */
    ghost predicate Fits()
      reads this, buffer
      requires Valid()
    {
      NulFree(Unread()) && (if eof then maxSize > 0 else ShortLines(Unread(), maxSize))
    }

    constructor FromFile(file: string, chunks: seq<nat>, maxSize: nat)
      ensures Valid() && fresh(buffer) && !eof && Unread() == file && this.maxSize == maxSize
    {
      this.maxSize, this.rest, this.chunks := maxSize, file, chunks;
      bufread, eof, startOfLine, endOfLine, end := IO_SIZE, false, 0, 0, 0;
      buffer := new char[IO_SIZE + 1](_ => '\0');
    }

    /** batch_readline_command on a new buffer: the lines of a string. */
    constructor FromString(str: string)
      ensures Valid() && fresh(buffer) && eof && endOfLine == 0 && Unread() == str + "\n" && maxSize == 1
    {
      var b := new char[|str| + 2];
      for i := 0 to |str|
        invariant forall k :: 0 <= k < i ==> b[k] == str[k]
      {
        b[i] := str[i];
      }
      b[|str|], b[|str| + 1] := '\n', '\0';
      buffer, startOfLine, endOfLine, end := b, 0, 0, |str| + 1;
      bufread, maxSize, eof, rest, chunks := 0, 1, true, "", [];
    }

    /** batch_readline_command on a buffer made from strings: the strings are joined by spaces. */
    method AddString(str: string)
      requires Valid() && eof && endOfLine == 0 && end > 0
      modifies this
      ensures Valid() && fresh(buffer) && eof && endOfLine == 0
      ensures Unread() == old(Unread())[..|old(Unread())| - 1] + " " + str + "\n"
    {
      var oldLength := end;
      ghost var front := buffer[..end - 1];
      assert Unread()[..|Unread()| - 1] == front;
      var b := new char[oldLength + |str| + 2];
      forall i | 0 <= i < oldLength {
        b[i] := buffer[i];
      }
      b[oldLength - 1] := ' ';
      for i := 0 to |str|
        invariant unchanged(this) && unchanged(buffer)
        invariant forall k :: 0 <= k < oldLength - 1 ==> b[k] == buffer[k]
        invariant b[oldLength - 1] == ' '
        invariant forall k :: 0 <= k < i ==> b[oldLength + k] == str[k]
      {
        b[oldLength + i] := str[i];
      }
      b[oldLength + |str|], b[oldLength + |str| + 1] := '\n', '\0';
      FourParts(b[..oldLength + |str| + 1], front, str);
      buffer, startOfLine, endOfLine, end := b, 0, 0, oldLength + |str| + 1;
      assert Unread() == b[..oldLength + |str| + 1];
    }

    /** read(): between one byte and `count` bytes, none only at the end of the file. */
    method Read(at: nat, count: nat) returns (got: nat)
      requires 0 < count && at + count <= buffer.Length
      modifies this`rest, this`chunks, buffer
      ensures got <= count && got <= |old(rest)| && (got == 0 <==> old(rest) == "")
      ensures rest == old(rest)[got..] && buffer[at..at + got] == old(rest)[..got]
      ensures forall i :: 0 <= i < buffer.Length && !(at <= i < at + got) ==> buffer[i] == old(buffer[i])
    {
      got := if count < |rest| then count else |rest|;
      if chunks != [] {
        if chunks[0] < got {
          got := if chunks[0] == 0 then 1 else chunks[0];
        }
        chunks := chunks[1..];
      }
      for i := 0 to got
        invariant rest == old(rest) && got <= |rest|
        invariant buffer[at..at + i] == rest[..i]
        invariant forall k :: 0 <= k < buffer.Length && !(at <= k < at + i) ==> buffer[k] == old(buffer[k])
      {
        buffer[at + i] := rest[i];
      }
      rest := rest[got..];
    }

    /** Double the buffer until at least IO_SIZE bytes fit behind the unfinished line. */
    method Grow(bufbytes: nat) returns (readCount: nat)
      requires Valid() && !eof && bufbytes == end - startOfLine
      modifies this`buffer, this`bufread, this`end
      ensures bufread >= IO_SIZE && buffer.Length == bufread + 1 && (buffer == old(buffer) || fresh(buffer))
      ensures startOfLine + bufbytes < buffer.Length
      ensures buffer[startOfLine..startOfLine + bufbytes] == old(buffer[startOfLine..end])
      ensures IO_SIZE <= readCount && bufbytes + readCount <= bufread
    {
      ghost var part := buffer[startOfLine..end];
      while (bufread - bufbytes) / IO_SIZE * IO_SIZE == 0
        invariant bufread >= IO_SIZE && bufbytes <= bufread && buffer.Length == bufread + 1
        invariant buffer == old(buffer) || fresh(buffer)
        invariant startOfLine + bufbytes < buffer.Length && buffer[startOfLine..startOfLine + bufbytes] == part
        decreases bufbytes + IO_SIZE - bufread
      {
        var bigger := new char[2 * bufread + 1];
        forall i | 0 <= i < buffer.Length {
          bigger[i] := buffer[i];
        }
        bufread := 2 * bufread;
        buffer := bigger;
        end := bufbytes;            // as in the source; put right when the line is moved
      }
      readCount := (bufread - bufbytes) / IO_SIZE * IO_SIZE;
    }

    /** Move the unfinished line to the start of the buffer. */
    method ShiftDown(bufbytes: nat)
      requires startOfLine + bufbytes < buffer.Length
      modifies buffer
      ensures buffer[..bufbytes] == old(buffer[startOfLine..startOfLine + bufbytes])
    {
      for i := 0 to bufbytes
        invariant forall k :: 0 <= k < i ==> buffer[k] == old(buffer[startOfLine + k])
        invariant forall k :: i <= k < buffer.Length ==> buffer[k] == old(buffer[k])
      {
        buffer[i] := buffer[startOfLine + i];
      }
    }

    /** Grow and move, so that the unfinished line is followed by room for readCount bytes. */
    method MakeRoom(bufbytes: nat) returns (readCount: nat)
      requires Valid() && !eof && bufbytes == end - startOfLine
      modifies this`buffer, this`bufread, this`end, buffer
      ensures bufread >= IO_SIZE && buffer.Length == bufread + 1 && (buffer == old(buffer) || fresh(buffer))
      ensures IO_SIZE <= readCount && bufbytes + readCount <= bufread
      ensures end == bufbytes && buffer[..end] == old(buffer[startOfLine..end])
    {
      readCount := Grow(bufbytes);
      if startOfLine != 0 {
        ShiftDown(bufbytes);
      }
      end := bufbytes;
    }

    /**
     fill_buffer: keep the unfinished line, read more behind it; at the end of the
     file pretend that it ends with a newline. Returns the number of new bytes.
     */
    method FillBuffer() returns (count: nat)
      requires Valid()
      modifies this, buffer
      ensures Valid() && (buffer == old(buffer) || fresh(buffer))
      ensures old(eof) ==> count == 0 && unchanged(this) && unchanged(buffer)
      ensures !old(eof) ==>
                && startOfLine == 0 && endOfLine == old(end - startOfLine)
                && buffer[..endOfLine] == old(buffer[startOfLine..end])
      ensures !old(eof) && old(rest) != "" ==>
                !eof && 0 < count <= |old(rest)| && rest == old(rest)[count..] && Pending() == old(rest)[..count]
      ensures !old(eof) && old(rest) == "" ==>
                && rest == "" && (eof <==> old(startOfLine < end && buffer[end - 1] != '\n'))
                && (if eof then count == 1 && Pending() == "\n" else count == 0 && Pending() == "")
    {
      var bufbytes := end - startOfLine;
      if eof {
        return 0;
      }
      ghost var part := buffer[startOfLine..end];
      var readCount := MakeRoom(bufbytes);
      ghost var file := rest;
      var got := Read(bufbytes, readCount);
      assert buffer[..bufbytes] == part;
      assert bufbytes > 0 ==> buffer[bufbytes - 1] == part[bufbytes - 1];
      count := EndOfRead(got, file);
    }

    /** After a read of `count` bytes: the pretended newline, the new bounds and the zero at the end. */
    method EndOfRead(got: nat, ghost file: string) returns (count: nat)
      requires !eof && bufread >= IO_SIZE && buffer.Length == bufread + 1 && end + got <= bufread && end < bufread
      requires got <= |file| && rest == file[got..] && buffer[end..end + got] == file[..got]
      requires got == 0 <==> file == ""
      modifies this`eof, this`startOfLine, this`endOfLine, this`end, buffer
      ensures Valid() && startOfLine == 0 && endOfLine == old(end) && buffer[..endOfLine] == old(buffer[..end])
      ensures got > 0 ==> !eof && count == got && Pending() == file[..got]
      ensures got == 0 ==> (eof <==> old(0 < end && buffer[end - 1] != '\n'))
      ensures got == 0 ==> if eof then count == 1 && Pending() == "\n" else count == 0 && Pending() == ""
    {
      count := got;
      var bufbytes := end;
      if count == 0 && bufbytes != 0 && buffer[end - 1] != '\n' {
        eof, count := true, 1;
        buffer[end] := '\n';
      }
      startOfLine, endOfLine := 0, bufbytes;
      end := end + count;
      buffer[end] := '\0';
    }

    /** The end of the line being read: the first newline or zero byte. */
    method ScanLine() returns (pos: nat)
      requires Valid()
      ensures endOfLine <= pos <= end && NoNewline(buffer[endOfLine..pos])
      ensures buffer[pos] == '\n' || buffer[pos] == '\0'
      ensures NulFree(buffer[endOfLine..end]) && buffer[pos] == '\0' ==> pos == end
    {
      pos := endOfLine;
      while buffer[pos] != '\n' && buffer[pos] != '\0'
        invariant endOfLine <= pos <= end && NoNewline(buffer[endOfLine..pos])
        decreases end - pos
      {
        pos := pos + 1;
      }
      assert pos < end ==> buffer[pos] == buffer[endOfLine..end][pos - endOfLine];
    }

    /** What has been scanned of the line being read. */
    ghost function Scanned(): string
      reads this, buffer
      requires Valid()
    {
      buffer[startOfLine..endOfLine]
    }

    /** Having scanned to the end of the buffer, fill it. */
    method ScanFill(ghost fits: bool, ghost all: string, ghost wasEof: bool) returns (count: nat)
      requires Valid()
      requires fits ==> Scanning(Scanned(), Pending(), rest, eof, all, wasEof) && NoNewline(Pending())
      modifies this, buffer
      ensures Valid() && (buffer == old(buffer) || fresh(buffer))
      ensures fits && count > 0 ==> Scanning(Scanned(), Pending(), rest, eof, all, wasEof)
      ensures count > 0 ==> |rest| < |old(rest)| || (rest == old(rest) && eof && !old(eof))
      ensures fits && count == 0 ==> all == "" && Unread() == "" && eof == wasEof
    {
      ghost var part, pending, file := Scanned(), Pending(), rest;
      assert buffer[startOfLine..end] == part + pending;
      if fits && eof {
        NothingScanned(part, pending, file, all, wasEof);
      } else if fits {
        FillKeepsScanning(part, pending, file, all, wasEof);
        assert startOfLine < end ==> buffer[end - 1] == (part + pending)[end - startOfLine - 1];
      }
      count := FillBuffer();
      assert !old(eof) ==> Scanned() == part + pending;
    }

    /** The line that ends at pos. */
    method TakeLine(pos: nat, ghost fits: bool, ghost all: string, ghost wasEof: bool) returns (outLength: nat)
      requires Valid() && startOfLine <= pos < end && endOfLine <= pos + 1
      requires fits ==> Scanning(Scanned(), Pending(), rest, eof, all, wasEof)
      requires fits ==> endOfLine <= pos && buffer[pos] == '\n' && NoNewline(buffer[endOfLine..pos])
      modifies this`endOfLine
      ensures Valid() && endOfLine == pos + 1
      ensures outLength == pos + 1 - (if eof then 1 else 0) - startOfLine
      ensures fits ==> NextLine(all, wasEof, Scanned(), outLength, Unread(), eof)
    {
      if fits {
        SplitAtNewline(buffer[..], startOfLine, endOfLine, pos, end);
        FoundLine(Scanned(), buffer[endOfLine..pos], buffer[pos + 1..end], rest, eof, all, wasEof);
      }
      endOfLine := pos + 1;
      outLength := pos + 1 - (if eof then 1 else 0) - startOfLine;
    }

    /** One turn: find the end of the line in the buffer, or fill the buffer, or see that there is no line. */
    method ScanTurn(ghost fits: bool, ghost all: string, ghost wasEof: bool)
      returns (again: bool, found: bool, outLength: nat)
      requires Valid() && maxSize > 0 && (fits ==> Scanning(Scanned(), Pending(), rest, eof, all, wasEof))
      requires fits ==> NulFree(all) && (if wasEof then true else ShortLines(all, maxSize))
      modifies this, buffer
      ensures Valid() && (buffer == old(buffer) || fresh(buffer))
      ensures again ==> fits ==> Scanning(Scanned(), Pending(), rest, eof, all, wasEof)
      ensures again ==> |rest| < |old(rest)| || (rest == old(rest) && eof && !old(eof))
      ensures !again && found ==>
                startOfLine < endOfLine && outLength == endOfLine - startOfLine - (if eof then 1 else 0)
      ensures !again && found && fits ==> NextLine(all, wasEof, Scanned(), outLength, Unread(), eof)
      ensures !again && !found && fits ==> all == "" && Unread() == "" && eof == wasEof
    {
      if fits {
        ScanIsShort(Scanned(), Pending(), rest, eof, all, wasEof, maxSize);
      }
      var pos := ScanLine();
      if pos == end {
        if pos - startOfLine < maxSize {
          var length := ScanFill(fits, all, wasEof);
          return length > 0, false, 0;
        }
        pos := pos - 1;                         // break line here
      }
      outLength := TakeLine(pos, fits, all, wasEof);
      return false, true, outLength;
    }

    /**
     intern_read_line: the next line, from startOfLine on, with its newline unless
     that is the pretended one. Whatever is in the file the bounds stay in order;
     for the texts the reader is promised for, the line is the next line.
     */
    method InternReadLine() returns (found: bool, outLength: nat)
      requires Valid() && maxSize > 0
      modifies this, buffer
      ensures Valid() && (buffer == old(buffer) || fresh(buffer))
      ensures found ==> startOfLine < endOfLine && outLength == endOfLine - startOfLine - (if eof then 1 else 0)
      ensures old(Fits()) ==> if found then NextLine(old(Unread()), old(eof), Scanned(), outLength, Unread(), eof)
                                else old(Unread()) == "" && Unread() == "" && eof == old(eof)
    {
      ghost var fits, all, wasEof := Fits(), Unread(), eof;
      startOfLine := endOfLine;
      var again := true;
      found, outLength := false, 0;
      while again
        invariant Valid() && (buffer == old(buffer) || fresh(buffer))
        invariant fits ==> NulFree(all) && (if wasEof then true else ShortLines(all, maxSize))
        invariant again && fits ==> Scanning(Scanned(), Pending(), rest, eof, all, wasEof)
        invariant !again && found ==>
                    startOfLine < endOfLine && outLength == endOfLine - startOfLine - (if eof then 1 else 0)
        invariant !again && found && fits ==> NextLine(all, wasEof, Scanned(), outLength, Unread(), eof)
        invariant !again && !found && fits ==> all == "" && Unread() == "" && eof == wasEof
        decreases again, |rest|, if eof then 0 else 1
      {
        again, found, outLength := ScanTurn(fits, all, wasEof);
      }
    }

    /** Successive calls return the lines of the text, then nothing. */
    method BatchReadline() returns (line: Option<string>)
      requires Valid() && maxSize > 0
      modifies this, buffer
      ensures Valid() && (buffer == old(buffer) || fresh(buffer))
      ensures old(Fits()) ==> Fits()
      ensures old(Fits()) && old(Todo()) == [] ==> line == None && Todo() == []
      ensures old(Fits()) && old(Todo()) != [] ==> line == Some(old(Todo())[0]) && Todo() == old(Todo())[1..]
    {
      ghost var fits, all, wasEof := Fits(), Unread(), eof;
      var found, outLength := InternReadLine();
      if !found {
        return None;
      }
      ghost var scanned, unread := Scanned(), Unread();
      if fits {
        NextLineIsTodo(all, wasEof, scanned, outLength, unread, eof, maxSize);
      }
      line := CutLine(outLength);
      assert fits ==> Unread() == unread;
    }

    /** Drop the newline and a carriage return before it, and end the line with a zero. */
    method CutLine(outLength: nat) returns (line: Option<string>)
      requires Valid() && outLength <= |Scanned()| && (eof ==> outLength < |Scanned()|)
      modifies buffer
      ensures Valid() && line == Some(Cut(old(Scanned()), outLength))
      ensures |Cut(old(Scanned()), outLength)| < |old(Scanned())| ==> Pending() == old(Pending())
    {
      ghost var scanned := Scanned();
      var n := LengthToKeep(outLength);
      CutIsPrefix(scanned, outLength);
      FirstScanned(n);
      line := Some(buffer[startOfLine..startOfLine + n]);
      buffer[startOfLine + n] := '\0';
    }

    method LengthToKeep(outLength: nat) returns (n: nat)
      requires Valid() && outLength <= |Scanned()|
      ensures n == CutLength(Scanned(), outLength)
    {
      assert forall k :: 0 <= k < |Scanned()| ==> Scanned()[k] == buffer[startOfLine + k];
      n := outLength;
      if n > 0 && buffer[startOfLine + n - 1] == '\n' {
        n := n - 1;
        if n > 0 && buffer[startOfLine + n - 1] == '\r' {
          n := n - 1;
        }
      }
    }

    lemma FirstScanned(n: nat)
      requires Valid() && n <= |Scanned()|
      ensures buffer[startOfLine..startOfLine + n] == Scanned()[..n]
    {
    }

    /** All lines of the file, however it was chunked. */
    method ReadAll() returns (lines: seq<string>)
      requires Valid() && maxSize > 0 && Fits()
      modifies this, buffer
      ensures lines == old(Todo())
    {
      lines := [];
      ghost var todo := Todo();
      while true
        invariant Valid() && maxSize > 0 && Fits() && (buffer == old(buffer) || fresh(buffer))
        invariant lines + Todo() == todo
        decreases |Todo()|
      {
        ghost var before := Todo();
        var line := BatchReadline();
        if line.None? {
          return;
        }
        MoveFirst(lines, before);
        lines := lines + [line.value];
      }
    }
  }

  lemma SplitAtNewline(b: string, start: nat, from: nat, pos: nat, end: nat)
    requires start <= from <= pos < end <= |b| && b[pos] == '\n'
    ensures b[from..end] == b[from..pos] + "\n" + b[pos + 1..end]
    ensures b[start..pos + 1] == b[start..from] + b[from..pos] + "\n"
  {
  }

  lemma FourParts(s: string, front: string, str: string)
    requires |s| == |front| + |str| + 2 && s[|front|] == ' ' && s[|s| - 1] == '\n'
    requires forall k :: 0 <= k < |front| ==> s[k] == front[k]
    requires forall k :: 0 <= k < |str| ==> s[|front| + 1 + k] == str[k]
    ensures s == front + " " + str + "\n"
  {
  }

  /** What batch_readline cuts off a line. */
  function Cut(scanned: string, outLength: nat): string
    requires outLength <= |scanned|
  {
    if outLength > 0 && scanned[outLength - 1] == '\n' then DropReturn(scanned[..outLength - 1])
    else scanned[..outLength]
  }

  function CutLength(scanned: string, outLength: nat): nat
    requires outLength <= |scanned|
  {
    if outLength > 0 && scanned[outLength - 1] == '\n'
    then if outLength > 1 && scanned[outLength - 2] == '\r' then outLength - 2 else outLength - 1
    else outLength
  }

  /** CRLF and LF are cut off, and nothing else. */
  lemma CutDropsEnd(text: string)
    ensures Cut(text + "\r\n", |text| + 2) == text
    ensures !EndsInReturn(text) ==> Cut(text + "\n", |text| + 1) == text
    ensures text == "" || text[|text| - 1] != '\n' ==> Cut(text, |text|) == text
  {
    var crlf, lf := text + "\r\n", text + "\n";
    assert crlf[..|text| + 1] == text + "\r" && (text + "\r")[..|text|] == text;
    assert lf[..|text|] == text;
  }

  lemma CutIsPrefix(scanned: string, outLength: nat)
    requires outLength <= |scanned|
    ensures scanned[..CutLength(scanned, outLength)] == Cut(scanned, outLength)
  {
  }

  lemma MoveFirst(done: seq<string>, todo: seq<string>)
    requires todo != []
    ensures done + todo == done + [todo[0]] + todo[1..]
  {
  }

  lemma NextLineIsTodo(all: string, wasEof: bool, scanned: string, outLength: nat, unread: string, eof: bool,
                       limit: nat)
    requires NextLine(all, wasEof, scanned, outLength, unread, eof)
    requires NulFree(all) && (if wasEof then limit > 0 else ShortLines(all, limit))
    ensures NulFree(unread) && (if eof then limit > 0 else ShortLines(unread, limit))
    ensures (if wasEof then TerminatedLines(all) else FileLines(all))
         == [Cut(scanned, outLength)] + if eof then TerminatedLines(unread) else FileLines(unread)
    ensures scanned[|scanned| - 1] == '\n' && |Cut(scanned, outLength)| < |scanned|
  {
    var line := scanned[..|scanned| - 1];
    assert scanned == line + "\n";
    if eof == wasEof {
      InnerLine(all, line, unread);
      if line != "" {
        LastIsNotNewline(line);
      }
    } else {
      LastLine(line);
      LastIsNotNewline(line);
    }
  }

  lemma InnerLine(all: string, line: string, unread: string)
    requires all == (line + "\n") + unread && NoNewline(line)
    ensures FileLines(all) == [DropReturn(line)] + FileLines(unread)
    ensures TerminatedLines(all) == [line] + TerminatedLines(unread)
    ensures NulFree(all) ==> NulFree(unread)
    ensures forall limit :: ShortLines(all, limit) ==> ShortLines(unread, limit)
  {
    LineThenRest(line, unread);
    assert forall i :: 0 <= i < |unread| ==> unread[i] == all[|line| + 1 + i];
  }

  lemma LastIsNotNewline(s: string)
    requires NoNewline(s) && s != ""
    ensures s[|s| - 1] != '\n'
  {
  }

  /** When everything was read, a line without a pending newline is no line at all. */
  lemma NothingScanned(part: string, pending: string, rest: string, all: string, wasEof: bool)
    requires Scanning(part, pending, rest, true, all, wasEof) && NoNewline(pending) && rest == ""
    requires pending != "" ==> pending[|pending| - 1] == '\n'
    ensures wasEof && all == "" && pending == ""
  {
    if pending != "" {
      LastIsNotNewline(pending);
      assert false;
    }
  }

  /** While a line is scanned there is no zero in it, and it does not reach the limit. */
  lemma ScanIsShort(part: string, pending: string, rest: string, eof: bool, all: string, wasEof: bool, limit: nat)
    requires Scanning(part, pending, rest, eof, all, wasEof)
    requires NulFree(all) && (if wasEof then limit > 0 else ShortLines(all, limit))
    requires eof && pending != "" ==> pending[|pending| - 1] == '\n'
    ensures NulFree(pending)
    ensures NoNewline(pending) ==> |part + pending| < limit
  {
    if eof == wasEof {
      assert forall i :: 0 <= i < |pending| ==> pending[i] == all[|part| + i];
      if NoNewline(pending) {
        if eof {
          if pending != "" {
            LastIsNotNewline(pending);
            assert false;
          }
        } else {
          assert all == (part + pending) + rest;
          PartIsShort(part + pending, rest, limit);
        }
      }
    } else {
      if NoNewline(pending) {
        LastIsNotNewline(pending);
        assert false;
      }
    }
  }

  lemma FoundLine(part: string, pre: string, post: string, rest: string, eof: bool, all: string, wasEof: bool)
    requires Scanning(part, pre + "\n" + post, rest, eof, all, wasEof) && NoNewline(pre)
    ensures var scanned := part + pre + "\n";
            NextLine(all, wasEof, scanned, if eof then |scanned| - 1 else |scanned|, post + rest, eof)
  {
    var scanned := part + pre + "\n";
    assert scanned[..|scanned| - 1] == part + pre;
    if eof == wasEof {
      assert part + ((pre + "\n" + post) + rest) == scanned + (post + rest);
    } else {
      assert |pre + "\n" + post| == 1;
      assert pre == "" && post == "";
    }
  }

  /** The line found on the text `all`, and what is left unread. */
  ghost predicate NextLine(all: string, wasEof: bool, scanned: string, outLength: nat, unread: string, eof: bool) {
    && scanned != "" && scanned[|scanned| - 1] == '\n' && NoNewline(scanned[..|scanned| - 1])
    && outLength == (if eof then |scanned| - 1 else |scanned|)
    && (wasEof ==> eof)
    && if eof == wasEof then all == scanned + unread
       else all == scanned[..|scanned| - 1] && all != "" && unread == ""
  }

  /**
   Between the start of the line and the place where the scan goes on there is
   no newline, and together with what is unread it is the text `all` the line
   was started on; or that text was unterminated and only the pretended newline
   is pending.
   */
  ghost predicate Scanning(part: string, pending: string, rest: string, eof: bool, all: string, wasEof: bool) {
    && NoNewline(part) && (wasEof ==> eof && part == "")
    && if eof == wasEof then part + (pending + rest) == all
       else eof && part == all && all != "" && pending == "\n" && rest == ""
  }

  lemma FillKeepsScanning(part: string, pending: string, file: string, all: string, wasEof: bool)
    requires Scanning(part, pending, file, false, all, wasEof) && NoNewline(pending)
    ensures NoNewline(part + pending)
    ensures forall n :: 0 <= n <= |file| ==> Scanning(part + pending, file[..n], file[n..], false, all, wasEof)
    ensures file == "" && part + pending != "" ==> Scanning(part + pending, "\n", "", true, all, wasEof)
    ensures file == "" && part + pending == "" ==> all == ""
  {
    assert part + (pending + file) == (part + pending) + file;
    forall n | 0 <= n <= |file|
      ensures Scanning(part + pending, file[..n], file[n..], false, all, wasEof)
    {
      assert file[..n] + file[n..] == file;
    }
  }
}
