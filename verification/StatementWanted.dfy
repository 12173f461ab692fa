/**
 What the turns of the scan see of a line is the line as the text has it,
 without its comments unless those are preserved.
 */
module StatementWanted {
  import opened Wrappers
  import opened ScanLoop
  import opened StatementScan
  import opened StatementText
  import opened StatementOutside
  import opened StatementTail

  /** A turn in or at a comment. */
  predicate IsCommentTurn(cfg: Config, line: string, pos: nat, s: Scan)
    requires pos < |line|
  {
    var k := KindOf(cfg, line, pos, s);
    s.ml || k.LineComment? || k.OpenComment? || k.CloseComment?
  }

  /** What of the line a turn is about: its stretch, unless that is a comment and those are not preserved. */
  function Seen(cfg: Config, line: string, pos: nat, s: Scan): string
    requires pos < |line|
  {
    if !cfg.preserve && IsCommentTurn(cfg, line, pos, s) then ""
    else
      match Step(cfg, line, pos, s)
      case Next(p, _) => line[pos..p]
      case Break(_, dropped) => if dropped then "" else line[pos..]
      case Quit(_) => ""
  }

  function Sees(cfg: Config, line: string): (nat, Scan) -> string {
    (pos: nat, s: Scan) => if pos < |line| then Seen(cfg, line, pos, s) else ""
  }

  /** The line from pos on as it is wanted: without its comments, unless those are preserved. */
  function Wanted(cfg: Config, line: string, pos: nat, s: Scan): string
    requires pos <= |line|
  {
    if cfg.preserve then line[pos..]
    else UncommentedFrom(Delimited(cfg, s.delimiter), line, pos, RegionOf(s), s.ss)
  }

  /** Without its last character, a backslash, if that was given up. */
  function Less(text: string, dropped: bool): string {
    if dropped && text != "" then text[..|text| - 1] else text
  }

  /** The text tells what is a comment; without preservation, let no delimiter start with a space. */
  predicate Readable(cfg: Config, s: Scan) {
    cfg.preserve || (Proper(s) && !IsSpace(s.delimiter[0]))
  }

  lemma TurnSees(cfg: Config, line: string, pos: nat, s: Scan)
    requires pos < |line| && Readable(cfg, s) && !IsClientTurn(cfg, line, pos, s) && Step(cfg, line, pos, s).Next?
    ensures var t := Step(cfg, line, pos, s);
            && Readable(cfg, t.s)
            && Wanted(cfg, line, pos, s) == Seen(cfg, line, pos, s) + Wanted(cfg, line, t.pos, t.s)
  {
    var t := Step(cfg, line, pos, s);
    if cfg.preserve {
      assert line[pos..] == line[pos..t.pos] + line[t.pos..];
    } else {
      StepKeepsProper(cfg, line, pos, s);
      if KindOf(cfg, line, pos, s).Delimits? {
        DelimiterSeen(cfg, line, pos, s);
      } else if RegionOf(s) == Outside {
        OutsideSeen(cfg, line, pos, s);
      } else {
        InsideSeen(cfg, line, pos, s);
      }
    }
  }

  lemma DelimiterSeen(cfg: Config, line: string, pos: nat, s: Scan)
    requires pos < |line| && !cfg.preserve && KindOf(cfg, line, pos, s).Delimits? && Step(cfg, line, pos, s).Next?
    requires !IsSpace(s.delimiter[0])
    ensures var t := Step(cfg, line, pos, s);
            && t.s.delimiter == s.delimiter
            && Wanted(cfg, line, pos, s) == Seen(cfg, line, pos, s) + Wanted(cfg, line, t.pos, t.s)
  {
    var t, lx := Step(cfg, line, pos, s), Delimited(cfg, s.delimiter);
    var tk := TokenAt(lx, line, pos, s.ss);
    assert tk == Token(t.pos, Outside, s.ss, false) && !IsComment(lx, line, pos);
    FromToken(lx, line, pos, s.ss, t.pos, Outside, s.ss, Seen(cfg, line, pos, s));
  }

  lemma OutsideSeen(cfg: Config, line: string, pos: nat, s: Scan)
    requires pos < |line| && !cfg.preserve && Readable(cfg, s) && RegionOf(s) == Outside
    requires !IsRunTurn(cfg, line, pos, s) && Step(cfg, line, pos, s).Next?
    ensures var t := Step(cfg, line, pos, s);
            && t.s.delimiter == s.delimiter
            && Wanted(cfg, line, pos, s) == Seen(cfg, line, pos, s) + Wanted(cfg, line, t.pos, t.s)
  {
    var t, lx := Step(cfg, line, pos, s), Delimited(cfg, s.delimiter);
    OtherTurn(cfg, line, pos, s);
    TurnOutside(cfg, line, pos, s, lx);
    TokenSeen(cfg, line, pos, s);
    FromToken(lx, line, pos, s.ss, t.pos, RegionOf(t.s), t.s.ss, Seen(cfg, line, pos, s));
  }

  /** A token that is entered up to p, where its region goes on. */
  lemma FromToken(lx: Lexis, text: string, a: nat, ss: bool, p: nat, g: Region, ssp: bool, seen: string)
    requires a < p <= |text| && Rest(lx, text, p, g, ssp) == TokenAt(lx, text, a, ss)
    requires (if IsComment(lx, text, a) then "" else text[a..TokenAt(lx, text, a, ss).end])
             == seen + if g.Quoted? then text[p..TokenAt(lx, text, a, ss).end] else ""
    ensures UncommentedFrom(lx, text, a, Outside, ss) == seen + UncommentedFrom(lx, text, p, g, ssp)
  {
    var tk := TokenAt(lx, text, a, ss);
    Regroup(seen, if g.Quoted? then text[p..tk.end] else "",
            if tk.open == Outside then Uncommented(lx, text, tk.end, tk.ss) else "");
  }

  /** A turn at a token sees all of it, or the quote of a string, or nothing of a comment. */
  lemma TokenSeen(cfg: Config, line: string, pos: nat, s: Scan)
    requires pos < |line| && !cfg.preserve && Readable(cfg, s) && RegionOf(s) == Outside
    requires !IsRunTurn(cfg, line, pos, s) && Step(cfg, line, pos, s).Next?
    requires var t, lx := Step(cfg, line, pos, s), Delimited(cfg, s.delimiter);
             RestOf(lx, line, t.pos, t.s) == TokenAt(lx, line, pos, s.ss)
    ensures var t, lx := Step(cfg, line, pos, s), Delimited(cfg, s.delimiter);
            var tk := TokenAt(lx, line, pos, s.ss);
            (if IsComment(lx, line, pos) then "" else line[pos..tk.end])
            == Seen(cfg, line, pos, s) + if RegionOf(t.s).Quoted? then line[t.pos..tk.end] else ""
  {
    var t, lx := Step(cfg, line, pos, s), Delimited(cfg, s.delimiter);
    var tk := TokenAt(lx, line, pos, s.ss);
    if !IsComment(lx, line, pos) {
      assert line[pos..tk.end] == line[pos..t.pos] + line[t.pos..tk.end];
    }
  }

  lemma InsideSeen(cfg: Config, line: string, pos: nat, s: Scan)
    requires pos < |line| && !cfg.preserve && Readable(cfg, s) && RegionOf(s) != Outside
    requires Step(cfg, line, pos, s).Next?
    ensures var t := Step(cfg, line, pos, s);
            && t.s.delimiter == s.delimiter
            && Wanted(cfg, line, pos, s) == Seen(cfg, line, pos, s) + Wanted(cfg, line, t.pos, t.s)
  {
    var t, lx := Step(cfg, line, pos, s), Delimited(cfg, s.delimiter);
    TurnInside(cfg, line, pos, s, lx);
    OtherTurn(cfg, line, pos, s);
    FromRegion(lx, line, pos, RegionOf(s), s.ss, t.pos, RegionOf(t.s), t.s.ss, Seen(cfg, line, pos, s));
  }

  /** A region from a on that at p goes on or has just ended. */
  lemma FromRegion(lx: Lexis, text: string, a: nat, g: Region, ss: bool, p: nat, g': Region, ssp: bool, seen: string)
    requires a <= p <= |text| && g != Outside && Rest(lx, text, a, g, ss) == Rest(lx, text, p, g', ssp)
    requires (g' == g || g' == Outside) && seen == if g.Quoted? then text[a..p] else ""
    ensures UncommentedFrom(lx, text, a, g, ss) == seen + UncommentedFrom(lx, text, p, g', ssp)
  {
    var r := Rest(lx, text, a, g, ss);
    assert text[a..r.end] == text[a..p] + text[p..r.end];
    Regroup(seen, if g'.Quoted? then text[p..r.end] else "",
            if r.open == Outside then Uncommented(lx, text, r.end, r.ss) else "");
  }

  lemma BreakSees(cfg: Config, line: string, pos: nat, s: Scan)
    requires pos < |line| && Readable(cfg, s) && !IsClientTurn(cfg, line, pos, s) && Step(cfg, line, pos, s).Break?
    ensures Step(cfg, line, pos, s).dropped ==> Wanted(cfg, line, pos, s) == "\\" && Seen(cfg, line, pos, s) == ""
    ensures !Step(cfg, line, pos, s).dropped ==> Wanted(cfg, line, pos, s) == Seen(cfg, line, pos, s)
  {
    if !cfg.preserve && KindOf(cfg, line, pos, s).LineComment? {
      LastToken(Delimited(cfg, s.delimiter), line, pos, s.ss);
    } else if Step(cfg, line, pos, s).dropped {
      assert line[pos..] == line[pos..|line|] == "\\";
      if !cfg.preserve {
        LastBackslash(cfg, line, pos, s);
      }
    }
  }

  lemma LastToken(lx: Lexis, text: string, p: nat, ss: bool)
    requires p < |text| && TokenAt(lx, text, p, ss).end == |text| && TokenAt(lx, text, p, ss).open == Outside
    ensures Uncommented(lx, text, p, ss) == if IsComment(lx, text, p) then "" else text[p..|text|]
    ensures UncommentedFrom(lx, text, p, Outside, ss) == Uncommented(lx, text, p, ss)
  {
    assert Uncommented(lx, text, |text|, TokenAt(lx, text, p, ss).ss) == "";
  }

  lemma LastBackslash(cfg: Config, line: string, pos: nat, s: Scan)
    requires pos + 1 == |line| && line[pos] == '\\' && cfg.escapes && !cfg.preserve && !s.ml
    ensures Wanted(cfg, line, pos, s) == line[pos..|line|]
  {
    var lx := Delimited(cfg, s.delimiter);
    if RegionOf(s) == Outside {
      LastToken(lx, line, pos, s.ss);
    } else {
      var q := s.inString.value;
      assert StringRest(lx.escapes, line, pos, q, s.ss) == StringRest(lx.escapes, line, |line|, q, s.ss);
    }
  }

  /** All turns together see the line as it is wanted. */
  lemma {:induction false} TurnsSeeAll(cfg: Config, line: string, pos: nat, s: Scan)
    requires pos <= |line| && Readable(cfg, s) && Quiet(cfg, line, pos, s)
    requires Forward(Turns(cfg, line), |line|) && Iterate(Turns(cfg, line), |line|, pos, s).Break?
    ensures var t, w := Iterate(Turns(cfg, line), |line|, pos, s), Wanted(cfg, line, pos, s);
            && Kept(Turns(cfg, line), Sees(cfg, line), |line|, pos, s) == Less(w, t.dropped)
            && (t.dropped ==> w != "" && w[|w| - 1] == '\\')
    decreases |line| - pos
  {
    if pos < |line| {
      var t := Step(cfg, line, pos, s);
      assert Turns(cfg, line)(pos, s) == t && Sees(cfg, line)(pos, s) == Seen(cfg, line, pos, s);
      if t.Next? {
        TurnSees(cfg, line, pos, s);
        TurnsSeeAll(cfg, line, t.pos, t.s);
        LessOfSum(Seen(cfg, line, pos, s), Wanted(cfg, line, t.pos, t.s),
                  Iterate(Turns(cfg, line), |line|, pos, s).dropped);
      } else {
        BreakSees(cfg, line, pos, s);
      }
    }
  }

  lemma LessOfSum(a: string, b: string, dropped: bool)
    requires dropped ==> b != ""
    ensures Less(a + b, dropped) == a + Less(b, dropped) && (b != "" ==> (a + b)[|a + b| - 1] == b[|b| - 1])
  {
  }
}
