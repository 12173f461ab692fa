/**
 add_line as it works: the line is edited in place, the accepted text moving to
 its front, while the read cursor runs ahead.
 */
module StatementSplitter {
  import opened Wrappers
  import opened ScanLoop
  import opened StatementScan

  /** A line of n characters and a zero byte, with its read cursor and its write cursor. */
  class LineEdit {
    const line: array<char>
    const n: nat
    ghost const text: string
    var pos: nat
    var out: nat
    ghost var accepted: string

    /** The write cursor is not past the read cursor, and what is unread is as it came. */
    ghost predicate Valid()
      reads this, line
    {
      && line.Length == n + 1 == |text| + 1
      && out <= pos <= n
      && line[n] == '\0'
      && accepted == line[..out]
      && (forall i :: pos <= i < n ==> line[i] == text[i])
      && (forall i :: 0 <= i < n ==> text[i] != '\0')
    }

    constructor (line: array<char>)
      requires line.Length > 0 && line[line.Length - 1] == '\0'
      requires forall i :: 0 <= i < line.Length - 1 ==> line[i] != '\0'
      ensures Valid() && this.line == line && text == line[..line.Length - 1] && n == line.Length - 1
      ensures pos == 0 && out == 0 && accepted == ""
    {
      this.line, n, text := line, line.Length - 1, line[..line.Length - 1];
      pos, out, accepted := 0, 0, "";
    }

    /** Accept a character behind the text accepted so far; there is room before the read cursor. */
    method Put(c: char)
      requires Valid() && out < pos
      modifies this`out, this`accepted, line
      ensures Valid() && out == old(out) + 1 && accepted == old(accepted) + [c]
    {
      line[out] := c;
      out, accepted := out + 1, accepted + [c];
    }

    method PutTwo(a: char, b: char)
      requires Valid() && out + 1 < pos
      modifies this`out, this`accepted, line
      ensures Valid() && out == old(out) + 2 && accepted == old(accepted) + [a, b]
    {
      Put(a);
      Put(b);
    }

    method Move(k: nat)
      requires Valid() && pos + k <= n
      modifies this`pos
      ensures Valid() && pos == old(pos) + k
    {
      pos := pos + k;
    }

    /** Give the accepted text away. */
    method Take() returns (s: string)
      requires Valid()
      modifies this`out, this`accepted
      ensures Valid() && s == old(accepted) && out == 0 && accepted == ""
    {
      s := line[..out];
      out, accepted := 0, "";
    }

    /** The accepted text with a newline, which may overwrite the zero byte. */
    method TakeWithNewline() returns (s: string)
      requires Valid()
      modifies line
      ensures s == accepted + "\n"
    {
      line[out] := '\n';
      s := line[..out + 1];
    }

    /** The unread part of the line. */
    method Rest() returns (s: string)
      requires Valid()
      ensures s == text[pos..]
    {
      s := line[pos..n];
    }

    /** The character `ahead` places after the read cursor. */
    method Peek(ahead: nat) returns (c: char)
      requires Valid() && pos + ahead <= n
      ensures c == At(text, pos + ahead)
    {
      c := line[pos + ahead];
    }

    method IsPrefix(p: string) returns (yes: bool)
      requires Valid()
      ensures yes == PrefixAt(text, pos, p)
    {
      yes := pos + |p| <= n && line[pos..pos + |p|] == p;
      assert pos + |p| <= n ==> line[pos..pos + |p|] == text[pos..pos + |p|];
    }

    method AtLineComment() returns (yes: bool)
      requires Valid()
      ensures yes == LineCommentAt(text, pos)
    {
      if line[pos] == '#' {
        return true;
      }
      if line[pos] == '-' {
        if line[pos + 1] == '-' {
          return IsSpace(line[pos + 2]);
        }
      }
      return false;
    }

    method AtDelimiterCommand() returns (yes: bool)
      requires Valid()
      ensures yes == DelimiterCommandAt(text, pos)
    {
      yes := n - pos >= 10 && forall k :: 0 <= k < 10 ==> Lower(line[pos + k]) == "delimiter "[k];
    }

    /** Move the read cursor to the next occurrence of p, or to the end of the line. */
    method SkipTo(p: string)
      requires Valid()
      modifies this`pos
      ensures Valid() && pos == FindFrom(text, old(pos), p)
    {
      ghost var start := pos;
      while pos < n
        invariant Valid() && start <= pos && FindFrom(text, start, p) == FindFrom(text, pos, p)
        decreases n - pos
      {
        var found := IsPrefix(p);
        if found {
          return;
        }
        pos := pos + 1;
      }
    }

    /** Accept the spaces at the read cursor. */
    method CopySpaces()
      requires Valid() && out < pos
      modifies this, line
      ensures Valid() && pos == SkipSpaces(text, old(pos)) && accepted == old(accepted) + text[old(pos)..pos]
    {
      ghost var start, was := pos, accepted;
      while IsSpace(line[pos])
        invariant Valid() && out < pos && start <= pos
        invariant SkipSpaces(text, start) == SkipSpaces(text, pos)
        invariant accepted == was + text[start..pos]
        decreases n - pos
      {
        var c := line[pos];
        pos := pos + 1;
        Put(c);
        assert text[start..pos] == text[start..pos - 1] + [c];
      }
    }
  }

  lemma Rejoin(s: string, text: string, p: nat, q: nat, r: nat)
    requires p <= q <= r <= |text|
    ensures (s + text[p..q]) + text[q..r] == s + text[p..r]
  {
  }

  datatype Go = Goes | Breaks(dropped: bool) | Quits

  class Splitter {
    const cfg: Config
    // kept between lines
    var buffer: string
    var inString: Option<char>
    var ml: bool
    var ran: seq<string>
    var delimiter: Delimiter
    // the line being scanned
    var edit: LineEdit
    var ss: bool
    var needSpace: bool

    constructor (cfg: Config)
      ensures this.cfg == cfg && Between() == Client("", None, false, [], ";")
    {
      this.cfg := cfg;
      buffer, inString, ml, ran, delimiter := "", None, false, [], ";";
      ss, needSpace := false, false;
      var empty := new char[1](_ => '\0');
      edit := new LineEdit(empty);
    }

    /** While a space may have to be inserted, the write cursor is behind the read cursor. */
    ghost predicate Scanning()
      reads this, edit, edit.line
    {
      edit.Valid() && (needSpace ==> edit.out < edit.pos)
    }

    ghost function State(): Scan
      reads this, edit
    {
      Scan(edit.accepted, buffer, inString, ml, ss, needSpace, ran, delimiter)
    }

    ghost function Between(): Client
      reads this
    {
      Client(buffer, inString, ml, ran, delimiter)
    }

    /** The turn went as the function says. */
    ghost predicate Agrees(go: Go, t: Turn<Scan>)
      reads this, edit, edit.line
    {
      match go
      case Goes => Scanning() && t == Next(edit.pos, State())
      case Breaks(dropped) => Scanning() && t == Break(State(), dropped)
      case Quits => t.Quit?
    }

    method Flush()
      requires Scanning()
      modifies this`buffer, edit`out, edit`accepted
      ensures Scanning() && edit.out == 0 && State() == StatementScan.Flush(old(State()))
    {
      var s := edit.Take();
      buffer := buffer + s;
    }

    method EscapeTurn() returns (go: Go)
      requires Scanning() && edit.pos < edit.n
      modifies this, edit, edit.line
      ensures edit == old(edit) && Agrees(go, Escape(cfg, edit.text, old(edit.pos), old(State())))
    {
      var c := edit.Peek(1);
      if c == '\0' {
        return Breaks(true);
      }
      var takes := cfg.command(c);
      if inString.Some? || c == 'N' || takes.None? {
        if inString.None? && c != 'N' && cfg.unknownFatal {
          return Quits;
        }
        edit.Move(2);
        edit.PutTwo('\\', c);
        return Goes;
      }
      go := CommandTurn(takes.value);
    }

    /** A client command: hand the buffer over, then skip the parameters. */
    method CommandTurn(takesParams: bool) returns (go: Go)
      requires Scanning() && edit.pos + 1 < edit.n
      modifies this, edit, edit.line
      ensures edit == old(edit) && Agrees(go, Command(cfg, edit.text, old(edit.pos), old(State()), takesParams))
    {
      var quit := HandOver();
      if quit {
        return Quits;
      }
      PastCommand(takesParams);
      return Goes;
    }

    /** The command sees the whole buffer, and may rewrite it. */
    method HandOver() returns (quit: bool)
      requires Scanning()
      modifies this`buffer, this`ran, this`delimiter, edit`out, edit`accepted
      ensures Scanning() && edit.out == 0
      ensures var f := StatementScan.Flush(old(State()));
              var e := cfg.effect(f.buffer, edit.text[edit.pos..], f.delimiter);
              quit == e.quit && State() == f.(buffer := e.buffer, ran := f.ran + e.ran, delimiter := e.delimiter)
    {
      Flush();
      var rest := edit.Rest();
      var e := cfg.effect(buffer, rest, delimiter);
      buffer, ran, delimiter, quit := e.buffer, ran + e.ran, e.delimiter, e.quit;
    }

    method PastCommand(takesParams: bool)
      requires Scanning() && edit.pos + 1 < edit.n
      modifies edit`pos
      ensures Scanning()
      ensures var p := old(edit.pos) + 2;
              edit.pos == if takesParams then AfterParams(edit.text, p, State()) else p
    {
      edit.Move(2);
      if takesParams {
        SkipParams();
      }
    }

    method SkipParams()
      requires Scanning()
      modifies edit`pos
      ensures Scanning() && edit.pos == AfterParams(edit.text, old(edit.pos), State())
    {
      edit.SkipTo(if ss then "*/" else delimiter);
      if !ss && edit.pos < edit.n {
        edit.Move(|delimiter|);
      }
    }

    method DelimiterTurn() returns (go: Go)
      requires Scanning() && edit.pos < edit.n
      modifies this, edit
      ensures edit == old(edit) && Agrees(go, DelimiterCommand(cfg, edit.text, old(edit.pos), old(State())))
    {
      Flush();
      if buffer != "" {
        ran := ran + [buffer];
        if cfg.statement(buffer) {
          return Quits;
        }
      }
      buffer := "";
      var rest := edit.Rest();
      var d := cfg.newDelimiter(delimiter, rest);
      if d.None? {
        return Quits;
      }
      delimiter := d.value;
      return Breaks(false);
    }

    method EndTurn() returns (go: Go)
      requires Scanning() && edit.pos < edit.n && PrefixAt(edit.text, edit.pos, delimiter)
      modifies this, edit, edit.line
      ensures edit == old(edit) && Agrees(go, EndStatement(cfg, edit.text, old(edit.pos), old(State())))
    {
      edit.Move(|delimiter|);
      TakeTail();
      ran := ran + [buffer];
      if cfg.statement(buffer) {
        return Quits;
      }
      buffer := "";
      return Goes;
    }

    /** Complete a statement with what stands behind its delimiter, if that is preserved. */
    method TakeTail()
      requires Scanning() && edit.out < edit.pos
      modifies this`buffer, edit, edit.line
      ensures Scanning() && edit.accepted == "" && edit.pos == AfterStatement(cfg, edit.text, old(edit.pos))
      ensures buffer == old(buffer) + old(edit.accepted) + edit.text[old(edit.pos)..edit.pos]
    {
      ghost var was, p := buffer + edit.accepted, edit.pos;
      if !cfg.preserve {
        Flush();
        return;
      }
      edit.CopySpaces();
      Flush();
      ghost var q := edit.pos;
      assert buffer == was + edit.text[p..q];
      TakeComment();
      Rejoin(was, edit.text, p, q, edit.pos);
    }

    /** Move a comment at the read cursor that goes to the end of the line to the buffer. */
    method TakeComment()
      requires Scanning()
      modifies this`buffer, edit`pos
      ensures Scanning() && edit.pos == if LineCommentAt(edit.text, old(edit.pos)) then edit.n else old(edit.pos)
      ensures buffer == old(buffer) + edit.text[old(edit.pos)..edit.pos]
    {
      var comment := edit.AtLineComment();
      if comment {
        var rest := edit.Rest();
        buffer := buffer + rest;
        edit.Move(edit.n - edit.pos);
      }
    }

    method CommentTurn() returns (go: Go)
      requires Scanning() && edit.pos < edit.n
      modifies this, edit
      ensures edit == old(edit) && Agrees(go, ToEndOfLine(cfg, edit.text, old(edit.pos), old(State())))
    {
      Flush();
      if cfg.preserve {
        var rest := edit.Rest();
        buffer := buffer + rest;
      }
      return Breaks(false);
    }

    /** The two characters that open or close a comment. */
    method MarkTurn(opens: bool)
      requires Scanning() && edit.pos + 1 < edit.n
      modifies this, edit, edit.line
      ensures edit == old(edit) && Scanning() && edit.pos == old(edit.pos) + 2
      ensures State() == if opens then OpensComment(cfg, old(State())) else ClosesComment(cfg, old(State()))
    {
      edit.Move(2);
      if cfg.preserve {
        if opens {
          edit.PutTwo('/', '*');
        } else {
          edit.PutTwo('*', '/');
        }
      }
      ml := opens;
      Flush();
      if !opens {
        needSpace := true;
      }
    }

    /** Enter or leave a quoted string or a server-side comment. */
    method TrackQuotes(c: char)
      requires Scanning() && edit.pos < edit.n && c == edit.text[edit.pos]
      modifies this`ss, this`inString
      ensures var t := Accept(cfg, edit.text, old(edit.pos), old(State())).s; ss == t.ss && inString == t.inString
    {
      var next := edit.Peek(1);
      if inString.None? {
        if c == '/' && next == '*' {
          var third := edit.Peek(2);
          ss := ss || third == '!';
        } else if c == '*' && next == '/' {
          ss := false;
        }
      }
      if inString == Some(c) {
        inString := None;
      } else if !ml && inString.None? && (c == '\'' || c == '"' || c == '`') {
        inString := Some(c);
      }
    }

    method AcceptTurn()
      requires Scanning() && edit.pos < edit.n
      modifies this, edit, edit.line
      ensures edit == old(edit) && Scanning()
      ensures Accept(cfg, edit.text, old(edit.pos), old(State())) == Next(edit.pos, State())
    {
      var c := edit.Peek(0);
      TrackQuotes(c);
      edit.Move(1);
      if !ml || cfg.preserve {
        if needSpace && !IsSpace(c) {
          edit.PutTwo(' ', c);
        } else {
          edit.Put(c);
        }
        needSpace := false;
      }
    }

    /** One turn of the loop. */
    method OneTurn() returns (go: Go)
      requires Scanning() && edit.pos < edit.n
      modifies this, edit, edit.line
      ensures edit == old(edit) && Agrees(go, Step(cfg, edit.text, old(edit.pos), old(State())))
    {
      var kind := Classify();
      match kind {
        case LeadingSpace =>
          edit.Move(1);
          go := Goes;
        case Backslash => go := EscapeTurn();
        case ChangeDelimiter => go := DelimiterTurn();
        case Delimits => go := EndTurn();
        case LineComment => go := CommentTurn();
        case OpenComment =>
          MarkTurn(true);
          go := Goes;
        case CloseComment =>
          MarkTurn(false);
          go := Goes;
        case Plain =>
          AcceptTurn();
          go := Goes;
      }
    }

    /** Which branch the loop takes. */
    method Classify() returns (kind: Kind)
      requires Scanning() && edit.pos < edit.n
      ensures kind == KindOf(cfg, edit.text, edit.pos, State())
    {
      var c := edit.Peek(0);
      if !cfg.preserve && IsSpace(c) && edit.out == 0 && buffer == "" {
        return LeadingSpace;
      }
      if !ml && c == '\\' && cfg.escapes {
        return Backslash;
      }
      if !ml && inString.None? {
        var outside := ClassifyOutside();
        if outside.Some? {
          return outside.value;
        }
      }
      var opens, closes := AtMarks(c);
      return if opens then OpenComment else if closes then CloseComment else Plain;
    }

    /** The branches that are only open outside strings and comments. */
    method ClassifyOutside() returns (kind: Option<Kind>)
      requires Scanning() && edit.pos < edit.n
      ensures kind == if DelimiterCommandAt(edit.text, edit.pos) then Some(ChangeDelimiter)
                      else if PrefixAt(edit.text, edit.pos, delimiter) then Some(Delimits)
                      else if LineCommentAt(edit.text, edit.pos) then Some(LineComment)
                      else None
    {
      var change := edit.AtDelimiterCommand();
      if change {
        return Some(ChangeDelimiter);
      }
      var ends := edit.IsPrefix(delimiter);
      if ends {
        return Some(Delimits);
      }
      var comment := edit.AtLineComment();
      return if comment then Some(LineComment) else None;
    }

    /** Whether a comment that the client strips opens or closes here. */
    method AtMarks(c: char) returns (opens: bool, closes: bool)
      requires Scanning() && edit.pos < edit.n && c == edit.text[edit.pos]
      ensures opens == (&& inString.None? && c == '/'
                        && At(edit.text, edit.pos + 1) == '*' && At(edit.text, edit.pos + 2) != '!')
      ensures closes == (ml && !ss && c == '*' && At(edit.text, edit.pos + 1) == '/')
    {
      var next := edit.Peek(1);
      opens, closes := false, ml && !ss && c == '*' && next == '/';
      if inString.None? && c == '/' && next == '*' {
        var third := edit.Peek(2);
        opens := third != '!';
      }
    }

    /** add_line: false when the client is to end. */
    method Add(line: array<char>) returns (goesOn: bool)
      requires line.Length > 0 && line[line.Length - 1] == '\0'
      requires forall i :: 0 <= i < line.Length - 1 ==> line[i] != '\0'
      modifies this, line
      ensures goesOn == AddLine(cfg, old(line[..line.Length - 1]), old(Between())).Some?
      ensures goesOn ==> AddLine(cfg, old(line[..line.Length - 1]), old(Between())) == Some(Between())
    {
      edit := new LineEdit(line);
      ss, needSpace := false, false;
      goesOn := RunLoop();
      if goesOn {
        Close();
      }
    }

    /** The turns over the line, until it ends or a turn leaves the loop. */
    method RunLoop() returns (goesOn: bool)
      requires Scanning() && edit.pos == 0
      modifies this, edit, edit.line
      ensures edit == old(edit)
      ensures var t := Loop(cfg, edit.text, old(State()));
              if goesOn then Scanning() && t.Break? && State() == t.s else t.Quit?
    {
      ghost var step, end := Turns(cfg, edit.text), edit.n;
      TurnsMoveForward(cfg, edit.text);
      while edit.pos < edit.n
        invariant edit == old(edit) && Scanning()
        invariant Iterate(step, end, edit.pos, State()) == Iterate(step, end, 0, old(State()))
        decreases edit.n - edit.pos
      {
        ghost var pos, s := edit.pos, State();
        var go := OneTurn();
        assert step(pos, s) == Step(cfg, edit.text, pos, s);
        if !go.Goes? {
          return go.Breaks?;
        }
      }
      return true;
    }

    /** The rest of the line is moved to the buffer with a newline. */
    method Close()
      requires Scanning()
      modifies this, edit.line
      ensures Between() == Finish(cfg, old(State()))
    {
      if edit.out != 0 || buffer != "" {
        var rest := edit.TakeWithNewline();
        if !ml || cfg.preserve {
          buffer := buffer + rest;
        }
      }
    }
  }
}
