/** What becomes of a backslash at the end of a line, exactly. */
module StatementTail {
  import opened Wrappers
  import opened ScanLoop
  import opened StatementScan
  import opened StatementText
  import opened StatementOutside

  /** Tokens with the delimiter in force. */
  function Delimited(cfg: Config, d: Delimiter): Lexis {
    Lexis(cfg.escapes, cfg.preserve, Some(d))
  }

  /** A delimiter the client accepts has no backslash; without preservation, let it not start with a space. */
  predicate Legal(cfg: Config, d: Delimiter) {
    (forall i :: 0 <= i < |d| ==> d[i] != '\\') && (cfg.preserve || !IsSpace(d[0]))
  }

  /** Whether the text that goes on with r ends as a comment. */
  function CommentFrom(lx: Lexis, text: string, r: Token): bool
    requires r.end <= |text|
  {
    if r.open != Outside then r.comment else EndsInComment(lx, text, r.end, r.ss)
  }

  /** Where the backslashes at the end of the line start. */
  function Tail(line: string): nat {
    |line| - TrailingBackslashes(line)
  }

  /** pos is not the second of a pair of those backslashes. */
  predicate Aligned(line: string, pos: nat) {
    pos <= Tail(line) || (pos - Tail(line)) % 2 == 0
  }

  lemma BeforeTail(line: string, i: nat)
    requires i < |line| && line[i] != '\\'
    ensures i < Tail(line)
  {
  }

  /** A turn over a delimiter goes to the end of its token, which has no backslash unless it ends in a comment. */
  lemma DelimiterTurn(cfg: Config, line: string, pos: nat, s: Scan)
    requires pos < |line| && Legal(cfg, s.delimiter)
    requires KindOf(cfg, line, pos, s).Delimits? && Step(cfg, line, pos, s).Next?
    ensures var t, tk := Step(cfg, line, pos, s), TokenAt(Delimited(cfg, s.delimiter), line, pos, s.ss);
            && tk.end == t.pos && tk.open == Outside && tk.ss == t.s.ss && RegionOf(s) == RegionOf(t.s) == Outside
            && (if tk.comment then t.pos == |line| else t.pos <= Tail(line))
  {
    var d := s.delimiter;
    var e := pos + |d|;
    assert forall i :: 0 <= i < |d| ==> line[pos..e][i] == line[pos + i];
    assert line[pos] == d[0];
    BeforeTail(line, e - 1);
    var q := SkipSpaces(line, e);
    if q > e {
      assert IsSpace(line[q - 1]);
      BeforeTail(line, q - 1);
    }
  }

  /** Pairs start in step with the backslashes at the end of the line. */
  lemma TurnAligned(cfg: Config, line: string, pos: nat, s: Scan)
    requires pos < |line| && Proper(s) && cfg.escapes && (!s.ml ==> Aligned(line, pos))
    requires !IsRunTurn(cfg, line, pos, s) && Step(cfg, line, pos, s).Next?
    ensures var t := Step(cfg, line, pos, s); !t.s.ml ==> Aligned(line, t.pos)
  {
    match KindOf(cfg, line, pos, s)
    case Backslash =>
      if pos < Tail(line) {
        assert line[Tail(line) - 1] != '\\';
      }
    case CloseComment => BeforeTail(line, pos + 1);
    case OpenComment =>
    case LeadingSpace => BeforeTail(line, pos);
    case Plain =>
      if !s.ml {
        BeforeTail(line, pos);
      }
  }

  /** Whether the last backslash of the rest of the line is lost. */
  predicate Loses(cfg: Config, line: string, pos: nat, s: Scan)
    requires pos <= |line|
  {
    && cfg.escapes && TrailingBackslashes(line) % 2 == 1
    && !CommentFrom(Delimited(cfg, s.delimiter), line, RestOf(Delimited(cfg, s.delimiter), line, pos, s))
  }

  /** Turns do not change that. */
  lemma TurnLoses(cfg: Config, line: string, pos: nat, s: Scan)
    requires pos < |line| && Proper(s) && Legal(cfg, s.delimiter) && !IsRunTurn(cfg, line, pos, s)
    requires Step(cfg, line, pos, s).Next?
    ensures var t := Step(cfg, line, pos, s); Loses(cfg, line, t.pos, t.s) == Loses(cfg, line, pos, s)
  {
    var lx := Delimited(cfg, s.delimiter);
    OtherTurn(cfg, line, pos, s);
    if RegionOf(s) == Outside {
      TurnOutside(cfg, line, pos, s, lx);
      TokenComment(lx, line, pos, s.ss);
    } else {
      TurnInside(cfg, line, pos, s, lx);
    }
  }

  lemma TokenComment(lx: Lexis, text: string, p: nat, ss: bool)
    requires p < |text|
    ensures var t := TokenAt(lx, text, p, ss);
            EndsInComment(lx, text, p, ss) == if t.end == |text| then t.comment else CommentFrom(lx, text, t)
  {
  }

  /** The loop gives a backslash up if and only if the text says so. */
  lemma {:induction false} LoopLosesIff(cfg: Config, line: string, pos: nat, s: Scan)
    requires pos <= |line| && Proper(s) && Legal(cfg, s.delimiter) && Quiet(cfg, line, pos, s)
    requires !s.ml && cfg.escapes ==> Aligned(line, pos)
    requires Forward(Turns(cfg, line), |line|) && Iterate(Turns(cfg, line), |line|, pos, s).Break?
    ensures Iterate(Turns(cfg, line), |line|, pos, s).dropped <==> Loses(cfg, line, pos, s)
    decreases |line| - pos
  {
    if pos == |line| {
      NothingToLose(cfg, line, s);
    } else {
      var t := Step(cfg, line, pos, s);
      assert Turns(cfg, line)(pos, s) == t;
      StepKeepsProper(cfg, line, pos, s);
      if t.Break? {
        BreakLoses(cfg, line, pos, s);
      } else if KindOf(cfg, line, pos, s).Delimits? {
        DelimiterLoses(cfg, line, pos, s);
        if t.pos < |line| || !TokenAt(Delimited(cfg, s.delimiter), line, pos, s.ss).comment {
          LoopLosesIff(cfg, line, t.pos, t.s);
        }
      } else {
        OtherTurn(cfg, line, pos, s);
        TurnLoses(cfg, line, pos, s);
        if cfg.escapes {
          TurnAligned(cfg, line, pos, s);
        }
        LoopLosesIff(cfg, line, t.pos, t.s);
      }
    }
  }

  lemma NothingToLose(cfg: Config, line: string, s: Scan)
    requires !s.ml && cfg.escapes ==> Aligned(line, |line|)
    ensures !Loses(cfg, line, |line|, s)
  {
  }

  lemma DelimiterLoses(cfg: Config, line: string, pos: nat, s: Scan)
    requires pos < |line| && Legal(cfg, s.delimiter)
    requires KindOf(cfg, line, pos, s).Delimits? && Step(cfg, line, pos, s).Next?
    ensures var t := Step(cfg, line, pos, s);
            && t.s.delimiter == s.delimiter
            && if TokenAt(Delimited(cfg, s.delimiter), line, pos, s.ss).comment
               then t.pos == |line| && !Loses(cfg, line, pos, s)
               else Aligned(line, t.pos) && Loses(cfg, line, t.pos, t.s) == Loses(cfg, line, pos, s)
  {
    DelimiterTurn(cfg, line, pos, s);
    TokenComment(Delimited(cfg, s.delimiter), line, pos, s.ss);
  }

  /** The scan ends at a lone backslash, which is lost, or at a comment, in which none is. */
  lemma BreakLoses(cfg: Config, line: string, pos: nat, s: Scan)
    requires pos < |line| && Proper(s) && Legal(cfg, s.delimiter) && !IsClientTurn(cfg, line, pos, s)
    requires Step(cfg, line, pos, s).Break? && (!s.ml && cfg.escapes ==> Aligned(line, pos))
    ensures Step(cfg, line, pos, s).dropped <==> Loses(cfg, line, pos, s)
  {
  }

  /**
   A line loses its last backslash if and only if backslashes are escapes, an
   odd number of them ends the line, and the line does not end in a comment.
   */
  lemma LineLosesIff(cfg: Config, line: string, c: Client)
    requires Proper(Begin(c)) && Legal(cfg, c.delimiter) && Quiet(cfg, line, 0, Begin(c)) && AddLine(cfg, line, c).Some?
    ensures Loop(cfg, line, Begin(c)).Break?
    ensures Loop(cfg, line, Begin(c)).dropped <==> Loses(cfg, line, 0, Begin(c))
  {
    TurnsMoveForward(cfg, line);
    LoopLosesIff(cfg, line, 0, Begin(c));
  }
}
