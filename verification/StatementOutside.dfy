/**
 The scan of a line agrees with the text about strings and comments: statements
 and client commands are only run where, by the text, there is neither.
 */
module StatementOutside {
  import opened Wrappers
  import opened ScanLoop
  import opened StatementScan
  import opened StatementText

  function RegionOf(s: Scan): Region {
    if s.ml then Comment else if s.inString.Some? then Quoted(s.inString.value) else Outside
  }

  /** Strings are quoted, and not in comments; true of every client that starts outside. */
  predicate Proper(s: Scan) {
    s.inString.Some? ==> !s.ml && IsQuote(s.inString.value)
  }

  /** A backslash turn that is a client command. */
  predicate IsCommand(cfg: Config, line: string, pos: nat, s: Scan)
    requires pos < |line|
  {
    && KindOf(cfg, line, pos, s).Backslash? && pos + 1 < |line|
    && s.inString.None? && line[pos + 1] != 'N' && cfg.command(line[pos + 1]).Some?
  }

  /** The turn changes the delimiter or is a client command. */
  predicate IsClientTurn(cfg: Config, line: string, pos: nat, s: Scan)
    requires pos < |line|
  {
    KindOf(cfg, line, pos, s).ChangeDelimiter? || IsCommand(cfg, line, pos, s)
  }

  /** The turn may run a statement or a command. */
  predicate IsRunTurn(cfg: Config, line: string, pos: nat, s: Scan)
    requires pos < |line|
  {
    KindOf(cfg, line, pos, s).Delimits? || IsClientTurn(cfg, line, pos, s)
  }

  /** The tokens are those of the client; with a delimiter, it is the one in force and seen as such. */
  predicate Fits(lx: Lexis, cfg: Config, s: Scan) {
    && lx.escapes == cfg.escapes && lx.preserve == cfg.preserve
    && (lx.delimiter.Some? ==> lx.delimiter.value == s.delimiter && (cfg.preserve || !IsSpace(s.delimiter[0])))
  }

  lemma StepKeepsProper(cfg: Config, line: string, pos: nat, s: Scan)
    requires pos < |line| && Proper(s)
    ensures Proper(Step(cfg, line, pos, s).s)
  {
  }

  /** Where the text says that what is open ends. */
  function RestOf(lx: Lexis, line: string, pos: nat, s: Scan): Token
    requires pos <= |line|
  {
    Rest(lx, line, pos, RegionOf(s), s.ss)
  }

  /** Outside, a turn goes into or over the token at its place. */
  lemma TurnOutside(cfg: Config, line: string, pos: nat, s: Scan, lx: Lexis)
    requires pos < |line| && Fits(lx, cfg, s) && RegionOf(s) == Outside && !IsRunTurn(cfg, line, pos, s)
    requires Step(cfg, line, pos, s).Next?
    ensures var t := Step(cfg, line, pos, s);
            RestOf(lx, line, t.pos, t.s) == TokenAt(lx, line, pos, s.ss)
  {
    if KindOf(cfg, line, pos, s).Plain? {
      AcceptOutside(cfg, line, pos, s, lx);
    } else {
      SpecialOutside(cfg, line, pos, s, lx);
    }
  }

  lemma SpecialOutside(cfg: Config, line: string, pos: nat, s: Scan, lx: Lexis)
    requires pos < |line| && Fits(lx, cfg, s) && RegionOf(s) == Outside && !IsRunTurn(cfg, line, pos, s)
    requires Step(cfg, line, pos, s).Next? && !KindOf(cfg, line, pos, s).Plain?
    ensures var t := Step(cfg, line, pos, s);
            RestOf(lx, line, t.pos, t.s) == TokenAt(lx, line, pos, s.ss)
  {
  }

  lemma AcceptOutside(cfg: Config, line: string, pos: nat, s: Scan, lx: Lexis)
    requires pos < |line| && Fits(lx, cfg, s) && RegionOf(s) == Outside && KindOf(cfg, line, pos, s).Plain?
    ensures var t := Accept(cfg, line, pos, s);
            RestOf(lx, line, t.pos, t.s) == TokenAt(lx, line, pos, s.ss)
  {
  }

  /** Inside, a turn leaves the end of the string or comment where it is. */
  lemma TurnInside(cfg: Config, line: string, pos: nat, s: Scan, lx: Lexis)
    requires pos < |line| && Fits(lx, cfg, s) && Proper(s) && RegionOf(s) != Outside && Step(cfg, line, pos, s).Next?
    ensures var t := Step(cfg, line, pos, s); RestOf(lx, line, t.pos, t.s) == RestOf(lx, line, pos, s)
    ensures !IsRunTurn(cfg, line, pos, s)
  {
    if s.ml {
      TurnInComment(cfg, line, pos, s, lx);
    } else {
      TurnInString(cfg, line, pos, s, lx);
    }
  }

  lemma TurnInComment(cfg: Config, line: string, pos: nat, s: Scan, lx: Lexis)
    requires pos < |line| && Fits(lx, cfg, s) && Proper(s) && s.ml && Step(cfg, line, pos, s).Next?
    ensures var t := Step(cfg, line, pos, s); RestOf(lx, line, t.pos, t.s) == RestOf(lx, line, pos, s)
  {
  }

  lemma TurnInString(cfg: Config, line: string, pos: nat, s: Scan, lx: Lexis)
    requires pos < |line| && Fits(lx, cfg, s) && Proper(s) && s.inString.Some? && Step(cfg, line, pos, s).Next?
    ensures var t := Step(cfg, line, pos, s); RestOf(lx, line, t.pos, t.s) == RestOf(lx, line, pos, s)
  {
  }

  // --- whole runs ---

  /** Token by token from a to p, without anything left open. */
  ghost predicate Leads(lx: Lexis, text: string, a: nat, ss: bool, p: nat, ssp: bool)
    requires a <= |text|
    decreases |text| - a
  {
    if a == p then ss == ssp
    else
      && a < p && a < |text|
      && var t := TokenAt(lx, text, a, ss);
      t.open == Outside && Leads(lx, text, t.end, t.ss, p, ssp)
  }

  lemma {:induction false} LeadsToToken(lx: Lexis, text: string, a: nat, ss: bool, p: nat, ssp: bool)
    requires a <= |text| && p <= |text| && Leads(lx, text, a, ss, p, ssp)
    ensures StartsToken(lx, text, a, ss, p) && OpenAtEnd(lx, text, a, ss) == OpenAtEnd(lx, text, p, ssp)
    decreases |text| - a
  {
    if a < p {
      var t := TokenAt(lx, text, a, ss);
      LeadsToToken(lx, text, t.end, t.ss, p, ssp);
    }
  }

  lemma {:induction false} LeadsOn(lx: Lexis, text: string, a: nat, ss: bool, p: nat, ssp: bool)
    requires a <= |text| && p < |text| && Leads(lx, text, a, ss, p, ssp) && TokenAt(lx, text, p, ssp).open == Outside
    ensures var t := TokenAt(lx, text, p, ssp); Leads(lx, text, a, ss, t.end, t.ss)
    decreases |text| - a
  {
    if a < p {
      var t := TokenAt(lx, text, a, ss);
      LeadsOn(lx, text, t.end, t.ss, p, ssp);
    }
  }

  /** p is the start of a token of the text behind `from`. */
  ghost predicate StartsFrom(lx: Lexis, text: string, from: Token, p: nat)
    requires from.end <= |text|
  {
    from.open == Outside && StartsToken(lx, text, from.end, from.ss, p)
  }

  function OpenFrom(lx: Lexis, text: string, from: Token): Region
    requires from.end <= |text|
  {
    if from.open != Outside then from.open else OpenAtEnd(lx, text, from.end, from.ss)
  }

  /** What ends at r is what the tokens behind `from` lead to. */
  ghost predicate Tracks(lx: Lexis, text: string, from: Token, r: Token)
    requires from.end <= |text|
  {
    if r.open == Outside then from.open == Outside && Leads(lx, text, from.end, from.ss, r.end, r.ss)
    else OpenFrom(lx, text, from) == r.open
  }

  /** Tokens without regard to delimiters. */
  function Plainly(cfg: Config): Lexis {
    Lexis(cfg.escapes, cfg.preserve, None)
  }

  /**
   From pos on, every turn that runs something or changes the delimiter is, by
   the text, outside strings and comments. Tokens are counted from the place
   behind the last such turn before it, or from where the line first gets
   outside. What the run leaves open at the end of the line is what the text does.
   */
  ghost predicate RunsOutside(cfg: Config, line: string, pos: nat, s: Scan, from: Token)
    requires pos <= |line| && from.end <= |line|
    decreases |line| - pos
  {
    if pos == |line| then RegionOf(s) == OpenFrom(Plainly(cfg), line, from)
    else
      var runs, t := IsRunTurn(cfg, line, pos, s), Step(cfg, line, pos, s);
      && (t.s.ran != s.ran || t.s.delimiter != s.delimiter ==> runs)
      && (runs ==> StartsFrom(Plainly(cfg), line, from, pos))
      && match t
         case Next(p, s') => RunsOutside(cfg, line, p, s', if runs then Token(p, Outside, s'.ss, false) else from)
         case Break(s', _) => RegionOf(s') == if runs then Outside else OpenFrom(Plainly(cfg), line, from)
         case Quit(_) => true
  }

  lemma {:induction false} RunStaysOutside(cfg: Config, line: string, pos: nat, s: Scan, from: Token)
    requires pos <= |line| && from.end <= |line| && Proper(s)
    requires Tracks(Plainly(cfg), line, from, RestOf(Plainly(cfg), line, pos, s))
    ensures RunsOutside(cfg, line, pos, s, from)
    decreases |line| - pos
  {
    var lx, r := Plainly(cfg), RestOf(Plainly(cfg), line, pos, s);
    if r.open == Outside {
      LeadsToToken(lx, line, from.end, from.ss, r.end, r.ss);
    }
    if pos < |line| {
      var t := Step(cfg, line, pos, s);
      StepKeepsProper(cfg, line, pos, s);
      if IsRunTurn(cfg, line, pos, s) {
        RunTurn(cfg, line, pos, s);
        if t.Next? {
          RunStaysOutside(cfg, line, t.pos, t.s, Token(t.pos, Outside, t.s.ss, false));
        }
      } else {
        OtherTurn(cfg, line, pos, s);
        if t.Next? {
          TurnTracks(cfg, line, pos, s, from);
          RunStaysOutside(cfg, line, t.pos, t.s, from);
        } else if t.Break? {
          BreakTracks(cfg, line, pos, s);
        }
      }
    }
  }

  /** Other turns run nothing. */
  lemma OtherTurn(cfg: Config, line: string, pos: nat, s: Scan)
    requires pos < |line| && !IsRunTurn(cfg, line, pos, s)
    ensures Step(cfg, line, pos, s).s.ran == s.ran && Step(cfg, line, pos, s).s.delimiter == s.delimiter
  {
  }

  /** A turn that runs something starts and ends outside. */
  lemma RunTurn(cfg: Config, line: string, pos: nat, s: Scan)
    requires pos < |line| && IsRunTurn(cfg, line, pos, s)
    ensures RegionOf(s) == Outside && RegionOf(Step(cfg, line, pos, s).s) == Outside
  {
  }

  lemma TurnTracks(cfg: Config, line: string, pos: nat, s: Scan, from: Token)
    requires pos < |line| && from.end <= |line| && Proper(s)
    requires Tracks(Plainly(cfg), line, from, RestOf(Plainly(cfg), line, pos, s))
    requires !IsRunTurn(cfg, line, pos, s) && Step(cfg, line, pos, s).Next?
    ensures var t := Step(cfg, line, pos, s); Tracks(Plainly(cfg), line, from, RestOf(Plainly(cfg), line, t.pos, t.s))
  {
    var lx := Plainly(cfg);
    if RegionOf(s) == Outside {
      TurnOutside(cfg, line, pos, s, lx);
      if TokenAt(lx, line, pos, s.ss).open == Outside {
        LeadsOn(lx, line, from.end, from.ss, pos, s.ss);
      } else {
        LeadsToToken(lx, line, from.end, from.ss, pos, s.ss);
      }
    } else {
      TurnInside(cfg, line, pos, s, lx);
    }
  }

  /** A backslash or a comment that ends the scan leaves open what the text does. */
  lemma BreakTracks(cfg: Config, line: string, pos: nat, s: Scan)
    requires pos < |line| && Proper(s) && !IsRunTurn(cfg, line, pos, s) && Step(cfg, line, pos, s).Break?
    ensures RegionOf(Step(cfg, line, pos, s).s) == RegionOf(s)
    ensures RegionOf(s) == Outside ==> OpenAtEnd(Plainly(cfg), line, pos, s.ss) == Outside
    ensures RegionOf(s) != Outside ==> RestOf(Plainly(cfg), line, pos, s).open == RegionOf(s)
  {
    if s.inString.Some? {
      assert StringRest(cfg.escapes, line, |line|, s.inString.value, s.ss).open == RegionOf(s);
    }
  }

  /**
   On every line, each turn that runs a statement or a client command or changes
   the delimiter is at a place that is, by the text, in no string and no comment.
   */
  lemma LineRunsOutside(cfg: Config, line: string, c: Client)
    requires Proper(Begin(c))
    ensures RunsOutside(cfg, line, 0, Begin(c), RestOf(Plainly(cfg), line, 0, Begin(c)))
  {
    RunStaysOutside(cfg, line, 0, Begin(c), RestOf(Plainly(cfg), line, 0, Begin(c)));
  }

  /** So every line keeps the client proper. */
  lemma AddLineKeepsProper(cfg: Config, line: string, c: Client)
    requires Proper(Begin(c)) && AddLine(cfg, line, c).Some?
    ensures Proper(Begin(AddLine(cfg, line, c).value))
  {
    TurnsMoveForward(cfg, line);
    forall p: nat, s: Scan | p < |line| && Proper(s)
      ensures Proper(Turns(cfg, line)(p, s).s)
    {
      StepKeepsProper(cfg, line, p, s);
    }
    IterateKeeps(Turns(cfg, line), |line|, 0, Begin(c), Proper);
  }

  /** All lines, one after the other. */
  ghost predicate AllRunOutside(cfg: Config, lines: seq<string>, c: Client) {
    if lines == [] then true
    else
      && RunsOutside(cfg, lines[0], 0, Begin(c), RestOf(Plainly(cfg), lines[0], 0, Begin(c)))
      && (AddLine(cfg, lines[0], c).Some? ==> AllRunOutside(cfg, lines[1..], AddLine(cfg, lines[0], c).value))
  }

  lemma {:induction false} LinesRunOutside(cfg: Config, lines: seq<string>, c: Client)
    requires Proper(Begin(c))
    ensures AllRunOutside(cfg, lines, c)
  {
    if lines != [] {
      LineRunsOutside(cfg, lines[0], c);
      if AddLine(cfg, lines[0], c).Some? {
        AddLineKeepsProper(cfg, lines[0], c);
        LinesRunOutside(cfg, lines[1..], AddLine(cfg, lines[0], c).value);
      }
    }
  }

  // --- runs without client commands ---

  /** No turn from pos on is a client command or changes the delimiter. */
  ghost predicate Quiet(cfg: Config, line: string, pos: nat, s: Scan)
    requires pos <= |line|
    decreases |line| - pos
  {
    pos == |line|
    || (!IsClientTurn(cfg, line, pos, s)
        && (Step(cfg, line, pos, s).Next? ==> Quiet(cfg, line, Step(cfg, line, pos, s).pos, Step(cfg, line, pos, s).s)))
  }
}
