/**
 A line cut into statements, read off its text token by token: what is run, what
 is left pending, and when the client ends. The scan does exactly this.
 */
module StatementPieces {
  import opened Wrappers
  import opened ScanLoop
  import opened StatementScan
  import opened StatementText
  import opened StatementOutside
  import opened StatementTail

  /**
   How far a line has been cut: the statements run, the text pending, whether a
   space is owed to it, the delimiter, and whether the client is to end.
   */
  datatype Cutting = Cutting(ran: seq<string>, piece: string, owed: bool, delimiter: Delimiter, over: bool)

  /** A comment is no part of the text, but stands for a space. */
  function Spaced(owed: bool, c: char): string {
    if owed && !IsSpace(c) then [' ', c] else [c]
  }

  function WithChar(k: Cutting, c: char): Cutting {
    k.(piece := k.piece + Spaced(k.owed, c), owed := false)
  }

  /** Comments are part of the text if they are preserved. */
  function WithComment(cfg: Config, k: Cutting, text: string): Cutting {
    if cfg.preserve then k.(piece := k.piece + text) else k
  }

  /** The rest of a string from i on, as it is; only a backslash at the end of the line is lost. */
  function StringText(escapes: bool, text: string, i: nat, q: char): string
    requires i <= |text|
    decreases |text| - i
  {
    if i == |text| then ""
    else if escapes && text[i] == '\\' then
      if i + 1 == |text| then "" else text[i..i + 2] + StringText(escapes, text, i + 2, q)
    else if text[i] == q then [q]
    else [text[i]] + StringText(escapes, text, i + 1, q)
  }

  /** The rest of a comment from i on; when it is closed a space is owed. */
  function CommentText(cfg: Config, text: string, i: nat, ss: bool, k: Cutting): Cutting
    requires i <= |text|
    decreases |text| - i
  {
    if i == |text| then k
    else if At2(text, i, '/', '*') && At(text, i + 2) != '!' then
      CommentText(cfg, text, i + 2, ss, WithComment(cfg, k, "/*"))
    else if At2(text, i, '*', '/') && !ss then WithComment(cfg, k, "*/").(owed := true)
    else
      var inside := if At2(text, i, '/', '*') then true else if At2(text, i, '*', '/') then false else ss;
      CommentText(cfg, text, i + 1, inside, if cfg.preserve then WithChar(k, text[i]) else k)
  }

  /** The delimiter ends the statement, which is run; what is behind it up to `end` still belongs to it. */
  function EndPiece(cfg: Config, text: string, behind: nat, end: nat, k: Cutting): Cutting
    requires behind <= end <= |text|
  {
    var statement := k.piece + text[behind..end];
    k.(ran := k.ran + [statement], piece := "", over := cfg.statement(statement))
  }

  /** The token at a, which is neither a client command nor a change of the delimiter. */
  function TakeToken(cfg: Config, text: string, a: nat, ss: bool, k: Cutting): Cutting
    requires a < |text|
  {
    if cfg.escapes && text[a] == '\\' then
      if a + 1 == |text| then k
      else if text[a + 1] != 'N' && cfg.unknownFatal then k.(over := true)
      else k.(piece := k.piece + text[a..a + 2])
    else if PrefixAt(text, a, k.delimiter) then
      EndPiece(cfg, text, a + |k.delimiter|, TokenAt(Delimited(cfg, k.delimiter), text, a, ss).end, k)
    else if LineCommentAt(text, a) then WithComment(cfg, k, text[a..])
    else if At2(text, a, '/', '*') && At(text, a + 2) != '!' then
      CommentText(cfg, text, a + 2, ss, WithComment(cfg, k, "/*"))
    else if IsQuote(text[a]) then
      var open := WithChar(k, text[a]);
      open.(piece := open.piece + StringText(cfg.escapes, text, a + 1, text[a]))
    else WithChar(k, text[a])
  }

  /** A client command gets the text pending and the rest of the line. */
  function TakeCommand(cfg: Config, text: string, a: nat, k: Cutting): Cutting
    requires a < |text|
  {
    var e := cfg.effect(k.piece, text[a..], k.delimiter);
    Cutting(k.ran + e.ran, e.buffer, k.owed, e.delimiter, e.quit)
  }

  /** Its parameters go up to the end of a server-side comment, or behind a delimiter. */
  function Params(text: string, p: nat, ss: bool, d: Delimiter): (q: nat)
    requires p <= |text|
    ensures p <= q <= |text|
  {
    var q := FindFrom(text, p, if ss then "*/" else d);
    if ss || q == |text| then q else q + |d|
  }

  /** The delimiter changes, after what is pending has been run. */
  function TakeDelimiter(cfg: Config, text: string, a: nat, k: Cutting): Cutting
    requires a < |text|
  {
    var pending := if k.piece == "" then [] else [k.piece];
    match cfg.newDelimiter(k.delimiter, text[a..])
    case None => k.(over := true)
    case Some(d) =>
      Cutting(k.ran + pending, "", k.owed, d, k.piece != "" && cfg.statement(k.piece))
  }

  /** \c for a command letter c. */
  predicate CommandAt(cfg: Config, text: string, a: nat)
    requires a < |text|
  {
    cfg.escapes && text[a] == '\\' && a + 1 < |text| && text[a + 1] != 'N' && cfg.command(text[a + 1]).Some?
  }

  /** The text from a on, outside strings and comments, token by token; and what is open at its end. */
  function CutFrom(cfg: Config, text: string, a: nat, ss: bool, k: Cutting): (Cutting, Region)
    requires a <= |text|
    decreases |text| - a
  {
    if a == |text| || k.over then (k, Outside)
    else if !cfg.preserve && IsSpace(text[a]) && k.piece == "" then CutFrom(cfg, text, a + 1, ss, k)
    else if CommandAt(cfg, text, a) then
      var k' := TakeCommand(cfg, text, a, k);
      var p := if cfg.command(text[a + 1]).value then Params(text, a + 2, ss, k'.delimiter) else a + 2;
      CutFrom(cfg, text, p, ss, k')
    else if !(cfg.escapes && text[a] == '\\') && DelimiterCommandAt(text, a) then
      (TakeDelimiter(cfg, text, a, k), Outside)
    else
      var t, k' := TokenAt(Delimited(cfg, k.delimiter), text, a, ss), TakeToken(cfg, text, a, ss, k);
      if t.open != Outside then (k', t.open) else CutFrom(cfg, text, t.end, t.ss, k')
  }

  /** The same from p on, in the middle of a region. */
  function CutRest(cfg: Config, text: string, p: nat, g: Region, ss: bool, k: Cutting): (Cutting, Region)
    requires p <= |text|
  {
    var r := Rest(Delimited(cfg, k.delimiter), text, p, g, ss);
    var k' := match g
              case Outside => k
              case Quoted(q) => k.(piece := k.piece + StringText(cfg.escapes, text, p, q))
              case Comment => CommentText(cfg, text, p, ss, k);
    if r.open != Outside then (k', r.open) else CutFrom(cfg, text, r.end, r.ss, k')
  }

  function RegionIn(c: Client): Region {
    RegionOf(Begin(c))
  }

  /** A line, after what is pending from the lines before it. */
  function CutLine(cfg: Config, line: string, c: Client): (Cutting, Region) {
    CutRest(cfg, line, 0, RegionIn(c), false, Cutting(c.ran, c.buffer, false, c.delimiter, false))
  }

  /** At the end of a line a newline is pending, except in a comment that is not preserved. */
  function AfterLine(cfg: Config, k: Cutting, g: Region): Client {
    Client(if k.piece != "" && (g != Comment || cfg.preserve) then k.piece + "\n" else k.piece,
           if g.Quoted? then Some(g.quote) else None, g == Comment, k.ran, k.delimiter)
  }

  // --- the scan cuts the line so ---

  function CutSoFar(s: Scan): Cutting {
    Cutting(s.ran, s.buffer + s.out, s.needSpace, s.delimiter, false)
  }

  function RestCut(cfg: Config, line: string, pos: nat, s: Scan): (Cutting, Region)
    requires pos <= |line|
  {
    CutRest(cfg, line, pos, RegionOf(s), s.ss, CutSoFar(s))
  }

  /** Strings are quoted and not in comments, and their quote is pending. */
  predicate Sound(cfg: Config, s: Scan) {
    && Proper(s)
    && (s.inString.Some? ==> !s.needSpace && (s.buffer != "" || s.out != ""))
    && (s.ml && !cfg.preserve ==> s.out == "")
  }

  lemma StepKeepsSound(cfg: Config, line: string, pos: nat, s: Scan)
    requires pos < |line| && Sound(cfg, s)
    ensures Sound(cfg, Step(cfg, line, pos, s).s)
  {
  }

  /** A turn does not change how the line is cut. */
  ghost predicate TurnAgrees(cfg: Config, line: string, pos: nat, s: Scan)
    requires pos < |line|
  {
    match Step(cfg, line, pos, s)
    case Next(p, s') => RestCut(cfg, line, pos, s) == RestCut(cfg, line, p, s')
    case Break(s', _) => RestCut(cfg, line, pos, s) == (CutSoFar(s'), RegionOf(s'))
    case Quit(_) => RestCut(cfg, line, pos, s).0.over
  }

  lemma OutsideIs(cfg: Config, line: string, pos: nat, s: Scan)
    requires pos <= |line| && RegionOf(s) == Outside
    ensures RestCut(cfg, line, pos, s) == CutFrom(cfg, line, pos, s.ss, CutSoFar(s))
  {
  }

  lemma Pending(s: Scan)
    ensures CutSoFar(s).piece == "" <==> s.buffer == "" && s.out == ""
    ensures s.out == "" ==> CutSoFar(s).piece == s.buffer
  {
  }

  /** What a turn adds to the accepted text is added to the pending text. */
  lemma Grown(s: Scan, s': Scan, text: string)
    requires (s'.buffer == s.buffer && s'.out == s.out + text) || (s'.buffer == s.buffer + s.out + text && s'.out == "")
    ensures CutSoFar(s').piece == CutSoFar(s).piece + text
  {
    assert s.buffer + (s.out + text) == s.buffer + s.out + text;
  }

  /** The token at an outside place that is not skipped and begins no client command. */
  lemma TokenCut(cfg: Config, line: string, pos: nat, s: Scan)
    requires pos < |line| && RegionOf(s) == Outside && !KindOf(cfg, line, pos, s).LeadingSpace?
    requires !IsClientTurn(cfg, line, pos, s)
    ensures var k := CutSoFar(s);
            var t, k' := TokenAt(Delimited(cfg, s.delimiter), line, pos, s.ss), TakeToken(cfg, line, pos, s.ss, k);
            RestCut(cfg, line, pos, s) ==
            if t.open != Outside then (k', t.open) else CutFrom(cfg, line, t.end, t.ss, k')
  {
    OutsideIs(cfg, line, pos, s);
    Pending(s);
  }

  lemma EscapeAgrees(cfg: Config, line: string, pos: nat, s: Scan)
    requires pos < |line| && Sound(cfg, s) && RegionOf(s) == Outside && KindOf(cfg, line, pos, s).Backslash?
    requires !IsClientTurn(cfg, line, pos, s)
    ensures TurnAgrees(cfg, line, pos, s)
  {
    var t := Step(cfg, line, pos, s);
    TokenCut(cfg, line, pos, s);
    if t.Next? {
      assert line[pos..pos + 2] == ['\\', line[pos + 1]];
      Grown(s, t.s, line[pos..pos + 2]);
      OutsideIs(cfg, line, t.pos, t.s);
    }
  }

  lemma CommandAgrees(cfg: Config, line: string, pos: nat, s: Scan)
    requires pos < |line| && Sound(cfg, s) && RegionOf(s) == Outside && IsCommand(cfg, line, pos, s)
    ensures TurnAgrees(cfg, line, pos, s)
  {
    var t := Step(cfg, line, pos, s);
    OutsideIs(cfg, line, pos, s);
    Pending(s);
    Pending(t.s);
    assert CutSoFar(t.s) == TakeCommand(cfg, line, pos, CutSoFar(s)).(over := false);
    if t.Next? {
      OutsideIs(cfg, line, t.pos, t.s);
    }
  }

  lemma DelimiterLineAgrees(cfg: Config, line: string, pos: nat, s: Scan)
    requires pos < |line| && Sound(cfg, s) && KindOf(cfg, line, pos, s).ChangeDelimiter?
    ensures TurnAgrees(cfg, line, pos, s)
  {
    var t := Step(cfg, line, pos, s);
    OutsideIs(cfg, line, pos, s);
    Pending(s);
    Pending(t.s);
    assert s.ran + [] == s.ran;
    assert t.Break? ==> CutSoFar(t.s) == TakeDelimiter(cfg, line, pos, CutSoFar(s));
  }

  lemma DelimiterAgrees(cfg: Config, line: string, pos: nat, s: Scan)
    requires pos < |line| && Sound(cfg, s) && KindOf(cfg, line, pos, s).Delimits?
    ensures TurnAgrees(cfg, line, pos, s)
  {
    var t := Step(cfg, line, pos, s);
    TokenCut(cfg, line, pos, s);
    DelimiterToken(cfg, line, pos, s);
    var k := TakeToken(cfg, line, pos, s.ss, CutSoFar(s));
    assert CutSoFar(t.s) == k.(over := false);
    if t.Next? {
      OutsideIs(cfg, line, t.pos, t.s);
    }
  }

  lemma DelimiterToken(cfg: Config, line: string, pos: nat, s: Scan)
    requires pos < |line| && KindOf(cfg, line, pos, s).Delimits?
    ensures var e := pos + |s.delimiter|;
            var q := AfterStatement(cfg, line, e);
            var t := TokenAt(Delimited(cfg, s.delimiter), line, pos, s.ss);
            && t.end == q && t.open == Outside && t.ss == s.ss
            && TakeToken(cfg, line, pos, s.ss, CutSoFar(s)) == EndPiece(cfg, line, e, q, CutSoFar(s))
  {
  }

  lemma LineCommentAgrees(cfg: Config, line: string, pos: nat, s: Scan)
    requires pos < |line| && Sound(cfg, s) && KindOf(cfg, line, pos, s).LineComment?
    ensures TurnAgrees(cfg, line, pos, s)
  {
    var t := Step(cfg, line, pos, s);
    TokenCut(cfg, line, pos, s);
    if cfg.preserve {
      Grown(s, t.s, line[pos..]);
    } else {
      Pending(t.s);
    }
  }

  lemma OpenCommentAgrees(cfg: Config, line: string, pos: nat, s: Scan)
    requires pos < |line| && Sound(cfg, s) && RegionOf(s) == Outside && KindOf(cfg, line, pos, s).OpenComment?
    ensures TurnAgrees(cfg, line, pos, s)
  {
    TokenCut(cfg, line, pos, s);
    MarkGrows(cfg, s);
  }

  /** The marks of a comment are added if comments are preserved. */
  lemma MarkGrows(cfg: Config, s: Scan)
    ensures CutSoFar(OpensComment(cfg, s)) == WithComment(cfg, CutSoFar(s), "/*")
    ensures CutSoFar(ClosesComment(cfg, s)) == WithComment(cfg, CutSoFar(s), "*/").(owed := true)
  {
    assert s.buffer + (s.out + "/*") + "" == s.buffer + s.out + "/*";
    assert s.buffer + (s.out + "*/") + "" == s.buffer + s.out + "*/";
    assert s.buffer + s.out + "" == s.buffer + s.out;
  }

  lemma SkipAgrees(cfg: Config, line: string, pos: nat, s: Scan)
    requires pos < |line| && RegionOf(s) == Outside && KindOf(cfg, line, pos, s).LeadingSpace?
    ensures TurnAgrees(cfg, line, pos, s)
  {
    OutsideIs(cfg, line, pos, s);
    OutsideIs(cfg, line, pos + 1, s);
    Pending(s);
  }

  /** A character that is accepted. */
  lemma AcceptGrows(cfg: Config, line: string, pos: nat, s: Scan)
    requires pos < |line| && (!s.ml || cfg.preserve)
    ensures CutSoFar(Accept(cfg, line, pos, s).s) == WithChar(CutSoFar(s), line[pos])
  {
    Grown(s, Accept(cfg, line, pos, s).s, Spaced(s.needSpace, line[pos]));
  }

  lemma PlainAgrees(cfg: Config, line: string, pos: nat, s: Scan)
    requires pos < |line| && Sound(cfg, s) && RegionOf(s) == Outside && KindOf(cfg, line, pos, s).Plain?
    ensures TurnAgrees(cfg, line, pos, s)
  {
    var t := Step(cfg, line, pos, s);
    TokenCut(cfg, line, pos, s);
    AcceptGrows(cfg, line, pos, s);
    if t.s.inString.None? {
      OutsideIs(cfg, line, t.pos, t.s);
    }
  }

  lemma StringAgrees(cfg: Config, line: string, pos: nat, s: Scan)
    requires pos < |line| && Sound(cfg, s) && s.inString.Some?
    ensures TurnAgrees(cfg, line, pos, s)
  {
    var t, q := Step(cfg, line, pos, s), s.inString.value;
    if KindOf(cfg, line, pos, s).Backslash? {
      if t.Next? {
        assert line[pos..pos + 2] == ['\\', line[pos + 1]];
        Grown(s, t.s, line[pos..pos + 2]);
        StringGrows(s, line[pos..pos + 2], StringText(cfg.escapes, line, pos + 2, q));
      } else {
        assert StringRest(cfg.escapes, line, pos, q, s.ss) == StringRest(cfg.escapes, line, |line|, q, s.ss);
        StringGrows(s, "", "");
      }
    } else {
      AcceptGrows(cfg, line, pos, s);
      StringGrows(s, [line[pos]], StringText(cfg.escapes, line, pos + 1, q));
    }
  }

  lemma StringGrows(s: Scan, a: string, b: string)
    ensures CutSoFar(s).piece + (a + b) == CutSoFar(s).piece + a + b
    ensures CutSoFar(s).piece + "" == CutSoFar(s).piece
  {
  }

  /** One more place of a comment. */
  lemma CommentGoesOn(cfg: Config, text: string, i: nat, ss: bool, k: Cutting)
    requires i < |text|
    ensures var opens, closes := At2(text, i, '/', '*'), At2(text, i, '*', '/');
            CutRest(cfg, text, i, Comment, ss, k) ==
            if opens && At(text, i + 2) != '!' then
              CutRest(cfg, text, i + 2, Comment, ss, WithComment(cfg, k, "/*"))
            else if closes && !ss then
              CutFrom(cfg, text, i + 2, false, WithComment(cfg, k, "*/").(owed := true))
            else
              CutRest(cfg, text, i + 1, Comment, if opens then true else if closes then false else ss,
                      if cfg.preserve then WithChar(k, text[i]) else k)
  {
  }

  lemma CommentMarkAgrees(cfg: Config, line: string, pos: nat, s: Scan)
    requires pos < |line| && Sound(cfg, s) && s.ml
    requires KindOf(cfg, line, pos, s).OpenComment? || KindOf(cfg, line, pos, s).CloseComment?
    ensures TurnAgrees(cfg, line, pos, s)
  {
    CommentGoesOn(cfg, line, pos, s.ss, CutSoFar(s));
    MarkGrows(cfg, s);
    if KindOf(cfg, line, pos, s).CloseComment? {
      OutsideIs(cfg, line, pos + 2, ClosesComment(cfg, s));
    }
  }

  lemma CommentAgrees(cfg: Config, line: string, pos: nat, s: Scan)
    requires pos < |line| && Sound(cfg, s) && s.ml
    ensures TurnAgrees(cfg, line, pos, s)
  {
    if KindOf(cfg, line, pos, s).OpenComment? || KindOf(cfg, line, pos, s).CloseComment? {
      CommentMarkAgrees(cfg, line, pos, s);
    } else {
      CommentGoesOn(cfg, line, pos, s.ss, CutSoFar(s));
      if cfg.preserve {
        AcceptGrows(cfg, line, pos, s);
      }
    }
  }

  lemma TurnCuts(cfg: Config, line: string, pos: nat, s: Scan)
    requires pos < |line| && Sound(cfg, s)
    ensures TurnAgrees(cfg, line, pos, s)
  {
    if s.ml {
      CommentAgrees(cfg, line, pos, s);
    } else if s.inString.Some? {
      StringAgrees(cfg, line, pos, s);
    } else {
      match KindOf(cfg, line, pos, s)
      case Backslash =>
        if IsCommand(cfg, line, pos, s) {
          CommandAgrees(cfg, line, pos, s);
        } else {
          EscapeAgrees(cfg, line, pos, s);
        }
      case ChangeDelimiter => DelimiterLineAgrees(cfg, line, pos, s);
      case Delimits => DelimiterAgrees(cfg, line, pos, s);
      case LineComment => LineCommentAgrees(cfg, line, pos, s);
      case OpenComment => OpenCommentAgrees(cfg, line, pos, s);
      case LeadingSpace => SkipAgrees(cfg, line, pos, s);
      case _ => PlainAgrees(cfg, line, pos, s);
    }
  }

  lemma {:induction false} LoopCuts(cfg: Config, line: string, pos: nat, s: Scan)
    requires pos <= |line| && Sound(cfg, s) && Forward(Turns(cfg, line), |line|)
    ensures var t := Iterate(Turns(cfg, line), |line|, pos, s);
            if t.Quit? then RestCut(cfg, line, pos, s).0.over
            else RestCut(cfg, line, pos, s) == (CutSoFar(t.s), RegionOf(t.s)) && Sound(cfg, t.s)
    decreases |line| - pos
  {
    if pos == |line| {
      StringGrows(s, "", "");
    } else {
      TurnCuts(cfg, line, pos, s);
      StepKeepsSound(cfg, line, pos, s);
      var t := Step(cfg, line, pos, s);
      assert Turns(cfg, line)(pos, s) == t;
      if t.Next? {
        LoopCuts(cfg, line, t.pos, t.s);
      }
    }
  }

  /**
   On every line, the statements that are run, the text that is left pending and
   whether the client ends are those of the text.
   */
  lemma LineIsCut(cfg: Config, line: string, c: Client)
    requires Sound(cfg, Begin(c))
    ensures var (k, g) := CutLine(cfg, line, c);
            AddLine(cfg, line, c) == if k.over then None else Some(AfterLine(cfg, k, g))
    ensures AddLine(cfg, line, c).Some? ==> Sound(cfg, Begin(AddLine(cfg, line, c).value))
  {
    TurnsMoveForward(cfg, line);
    LoopCuts(cfg, line, 0, Begin(c));
    Pending(Begin(c));
    Pending(Loop(cfg, line, Begin(c)).s);
  }

  /** Any number of lines, one after the other; None when the client is to end. */
  ghost function CutLines(cfg: Config, lines: seq<string>, c: Client): Option<Client> {
    if lines == [] then Some(c)
    else
      var (k, g) := CutLine(cfg, lines[0], c);
      if k.over then None else CutLines(cfg, lines[1..], AfterLine(cfg, k, g))
  }

  lemma {:induction false} LinesAreCut(cfg: Config, lines: seq<string>, c: Client)
    requires Sound(cfg, Begin(c))
    ensures Feed((line: string, c: Client) => AddLine(cfg, line, c), lines, c) == CutLines(cfg, lines, c)
    decreases |lines|
  {
    if lines != [] {
      LineIsCut(cfg, lines[0], c);
      if AddLine(cfg, lines[0], c).Some? {
        LinesAreCut(cfg, lines[1..], AddLine(cfg, lines[0], c).value);
      }
    }
  }

  // --- what a statement is ---

  /**
   A stretch of ordinary tokens from a to b: no delimiter, no comment, no client
   command; strings are closed.
   */
  ghost predicate Stretch(cfg: Config, d: Delimiter, text: string, a: nat, ss: bool, b: nat, ssb: bool)
    decreases |text| - a
  {
    if a == b then ss == ssb
    else
      && a < b <= |text| && !CommandAt(cfg, text, a) && !PrefixAt(text, a, d) && !IsComment(Delimited(cfg, d), text, a)
      && (if cfg.escapes && text[a] == '\\' then a + 1 < |text| && (text[a + 1] == 'N' || !cfg.unknownFatal)
          else !DelimiterCommandAt(text, a))
      && var t := TokenAt(Delimited(cfg, d), text, a, ss);
      t.open == Outside && Stretch(cfg, d, text, t.end, t.ss, b, ssb)
  }

  lemma {:induction false} StringIsVerbatim(escapes: bool, text: string, i: nat, q: char, ss: bool)
    requires i <= |text| && StringRest(escapes, text, i, q, ss).open == Outside
    ensures StringText(escapes, text, i, q) == text[i..StringRest(escapes, text, i, q, ss).end]
    decreases |text| - i
  {
    var end := StringRest(escapes, text, i, q, ss).end;
    if i < |text| {
      if escapes && text[i] == '\\' {
        if i + 1 < |text| {
          StringIsVerbatim(escapes, text, i + 2, q, ss);
          assert text[i..end] == text[i..i + 2] + text[i + 2..end];
        }
      } else if text[i] != q {
        StringIsVerbatim(escapes, text, i + 1, q, ss);
        assert text[i..end] == [text[i]] + text[i + 1..end];
      }
    }
  }

  lemma TokenIsVerbatim(cfg: Config, text: string, a: nat, ss: bool, k: Cutting, b: nat, ssb: bool)
    requires a < b && Stretch(cfg, k.delimiter, text, a, ss, b, ssb) && !k.owed
    ensures var t := TokenAt(Delimited(cfg, k.delimiter), text, a, ss);
            TakeToken(cfg, text, a, ss, k) == k.(piece := k.piece + text[a..t.end])
  {
    var t := TokenAt(Delimited(cfg, k.delimiter), text, a, ss);
    assert text[a..a + 1] == [text[a]];
    if !(cfg.escapes && text[a] == '\\') && IsQuote(text[a]) {
      StringIsVerbatim(cfg.escapes, text, a + 1, text[a], ss);
      assert text[a..t.end] == [text[a]] + text[a + 1..t.end];
      assert k.piece + ([text[a]] + text[a + 1..t.end]) == k.piece + [text[a]] + text[a + 1..t.end];
    }
  }

  /** A stretch becomes part of the statement exactly as it is. */
  lemma {:induction false} StretchIsVerbatim(cfg: Config, text: string, a: nat, ss: bool, b: nat, ssb: bool, k: Cutting)
    requires a <= b <= |text| && Stretch(cfg, k.delimiter, text, a, ss, b, ssb) && !k.owed && !k.over
    requires a < b ==> cfg.preserve || k.piece != "" || !IsSpace(text[a])
    ensures CutFrom(cfg, text, a, ss, k) == CutFrom(cfg, text, b, ssb, k.(piece := k.piece + text[a..b]))
    decreases |text| - a
  {
    if a == b {
      assert k.piece + text[a..b] == k.piece;
    } else {
      var t := TokenAt(Delimited(cfg, k.delimiter), text, a, ss);
      TokenIsVerbatim(cfg, text, a, ss, k, b, ssb);
      StretchGoesOn(cfg, k.delimiter, text, t.end, t.ss, b, ssb);
      var k' := k.(piece := k.piece + text[a..t.end]);
      StretchIsVerbatim(cfg, text, t.end, t.ss, b, ssb, k');
      assert text[a..b] == text[a..t.end] + text[t.end..b];
      assert k'.piece + text[t.end..b] == k.piece + text[a..b];
    }
  }

  lemma StretchGoesOn(cfg: Config, d: Delimiter, text: string, a: nat, ss: bool, b: nat, ssb: bool)
    requires Stretch(cfg, d, text, a, ss, b, ssb)
    ensures a <= b
  {
  }

  /** What is behind a delimiter and belongs to the statement: spaces and a comment, if those are preserved. */
  function Behind(cfg: Config, text: string, e: nat): (q: nat)
    requires e <= |text|
    ensures e <= q <= |text|
  {
    var spaces := if cfg.preserve then SkipSpaces(text, e) else e;
    if cfg.preserve && LineCommentAt(text, spaces) then |text| else spaces
  }

  /** A delimiter outside ends the statement: all that is pending is run. */
  lemma DelimiterEnds(cfg: Config, text: string, b: nat, ss: bool, k: Cutting)
    requires b < |text| && !k.over && (cfg.preserve || k.piece != "" || !IsSpace(text[b]))
    requires PrefixAt(text, b, k.delimiter) && !DelimiterCommandAt(text, b) && !(cfg.escapes && text[b] == '\\')
    ensures var e := b + |k.delimiter|;
            var q := Behind(cfg, text, e);
            CutFrom(cfg, text, b, ss, k) == CutFrom(cfg, text, q, ss, EndPiece(cfg, text, e, q, k))
  {
  }
}
