/**
 Splitting lines into statements loses nothing but delimiters and, unless they
 are preserved, comments: apart from spaces, the statements run and the text
 still pending are the input with one delimiter per statement cut out.
 */
module StatementContent {
  import opened Wrappers
  import opened ScanLoop
  import opened StatementScan
  import opened StatementText
  import opened StatementOutside
  import opened StatementTail
  import opened StatementWanted

  /** The characters that are not spaces. */
  function Content(s: string): string {
    if s == "" then "" else Content(s[..|s| - 1]) + (if IsSpace(s[|s| - 1]) then "" else [s[|s| - 1]])
  }

  lemma {:induction false} ContentConcat(a: string, b: string)
    ensures Content(a + b) == Content(a) + Content(b)
    decreases |b|
  {
    if b == "" {
      assert a + b == a;
    } else {
      ContentConcat(a, b[..|b| - 1]);
      assert (a + b)[..|a + b| - 1] == a + b[..|b| - 1];
    }
  }

  lemma {:induction false} SpacesHaveNoContent(s: string)
    requires AllSpaces(s)
    ensures Content(s) == ""
    decreases |s|
  {
    if s != "" {
      SpacesHaveNoContent(s[..|s| - 1]);
    }
  }

  /** A measure of texts that adds up over concatenation and ignores spaces, such as Content. */
  ghost predicate Ignores(h: string -> string) {
    Additive(h) && forall s: string :: AllSpaces(s) ==> h(s) == ""
  }

  predicate AllSpaces(s: string) {
    forall i :: 0 <= i < |s| ==> IsSpace(s[i])
  }

  lemma ContentIgnores()
    ensures Ignores(Content)
  {
    forall a: string, b: string
      ensures Content(Cat(a, b)) == Content(a) + Content(b)
    {
      ContentConcat(a, b);
    }
    forall s: string | AllSpaces(s)
      ensures Content(s) == ""
    {
      SpacesHaveNoContent(s);
    }
  }

  lemma {:induction false} JoinAppend(parts: seq<string>, p: string)
    ensures Join(parts + [p]) == Join(parts) + p
    decreases |parts|
  {
    if parts == [] {
      assert (parts + [p])[1..] == [];
    } else {
      JoinAppend(parts[1..], p);
      assert (parts + [p])[1..] == parts[1..] + [p];
    }
  }

  /** Everything accepted so far: statements run, statement buffer, line so far. */
  function All(s: Scan): string {
    Join(s.ran) + s.buffer + s.out
  }

  /** What a turn takes from the line: what it sees, without a delimiter. */
  function Taken(cfg: Config, line: string, pos: nat, s: Scan): string
    requires pos < |line|
  {
    var seen := Seen(cfg, line, pos, s);
    if KindOf(cfg, line, pos, s).Delimits? && |s.delimiter| <= |seen| then seen[|s.delimiter|..] else seen
  }

  /** In a comment that is not preserved nothing is accepted. */
  predicate Dry(cfg: Config, s: Scan) {
    s.ml && !cfg.preserve ==> s.out == ""
  }

  lemma AcceptKeepsContent(cfg: Config, line: string, pos: nat, s: Scan, h: string -> string)
    requires pos < |line| && Ignores(h)
    ensures h(All(Accept(cfg, line, pos, s).s)) == h(All(s)) + h(if s.ml && !cfg.preserve then "" else [line[pos]])
  {
    var t := Accept(cfg, line, pos, s).s;
    if !s.ml || cfg.preserve {
      var added := if s.needSpace && !IsSpace(line[pos]) then " " else "";
      assert All(t) == Cat(All(s), Cat(added, [line[pos]]));
      assert AllSpaces(added);
    }
  }

  lemma FlushKeepsAll(s: Scan)
    ensures All(Flush(s)) == All(s)
  {
  }

  lemma EndKeepsContent(cfg: Config, line: string, pos: nat, s: Scan)
    requires pos < |line| && PrefixAt(line, pos, s.delimiter) && EndStatement(cfg, line, pos, s).Next?
    ensures var t, e := EndStatement(cfg, line, pos, s), pos + |s.delimiter|;
            && e <= t.pos <= |line| && All(t.s) == All(s) + line[e..t.pos]
            && line[pos..t.pos] == s.delimiter + line[e..t.pos]
  {
    var p := pos + |s.delimiter|;
    var q := AfterStatement(cfg, line, p);
    JoinAppend(s.ran, s.buffer + s.out + line[p..q]);
    assert All(s) + line[p..q] == Join(s.ran) + (s.buffer + s.out + line[p..q]);
    assert line[pos..q] == line[pos..p] + line[p..q];
  }

  lemma EscapeKeepsContent(cfg: Config, line: string, pos: nat, s: Scan)
    requires pos < |line| && line[pos] == '\\' && !Escape(cfg, line, pos, s).Quit?
    requires KindOf(cfg, line, pos, s).Backslash? && !IsCommand(cfg, line, pos, s)
    ensures pos + 1 == |line| ==> Escape(cfg, line, pos, s) == Break(s, true)
    ensures pos + 1 < |line| ==>
              && Escape(cfg, line, pos, s).Next? && Escape(cfg, line, pos, s).pos == pos + 2
              && All(Escape(cfg, line, pos, s).s) == All(s) + line[pos..pos + 2]
  {
    if pos + 1 < |line| {
      assert line[pos..pos + 2] == ['\\', line[pos + 1]];
    }
  }

  lemma CommentMarksKeepAll(cfg: Config, s: Scan)
    ensures All(OpensComment(cfg, s)) == All(s) + if cfg.preserve then "/*" else ""
    ensures All(ClosesComment(cfg, s)) == All(s) + if cfg.preserve then "*/" else ""
  {
    FlushKeepsAll(s.(ml := true, out := if cfg.preserve then s.out + "/*" else s.out));
    FlushKeepsAll(s.(ml := false, needSpace := true, out := if cfg.preserve then s.out + "*/" else s.out));
  }

  lemma ToEndKeepsAll(cfg: Config, line: string, pos: nat, s: Scan)
    requires pos < |line|
    ensures All(ToEndOfLine(cfg, line, pos, s).s) == All(s) + if cfg.preserve then line[pos..] else ""
  {
    FlushKeepsAll(s);
  }

  /** Every turn but that of a plain character or a leading space adds exactly what it takes from the line. */
  lemma StepAddsTaken(cfg: Config, line: string, pos: nat, s: Scan)
    requires pos < |line| && !IsClientTurn(cfg, line, pos, s) && !Step(cfg, line, pos, s).Quit?
    requires !KindOf(cfg, line, pos, s).Plain? && !KindOf(cfg, line, pos, s).LeadingSpace?
    ensures All(Step(cfg, line, pos, s).s) == All(s) + Taken(cfg, line, pos, s)
  {
    match KindOf(cfg, line, pos, s)
    case Backslash => EscapeKeepsContent(cfg, line, pos, s);
    case Delimits =>
      EndKeepsContent(cfg, line, pos, s);
      DelimiterTaken(cfg, line, pos, s);
    case LineComment => ToEndKeepsAll(cfg, line, pos, s);
    case OpenComment =>
      CommentMarksKeepAll(cfg, s);
      assert line[pos..pos + 2] == "/*";
    case CloseComment =>
      CommentMarksKeepAll(cfg, s);
      assert line[pos..pos + 2] == "*/";
  }

  lemma DelimiterTaken(cfg: Config, line: string, pos: nat, s: Scan)
    requires pos < |line| && KindOf(cfg, line, pos, s).Delimits? && Step(cfg, line, pos, s).Next?
    ensures var p := Step(cfg, line, pos, s).pos;
            && pos + |s.delimiter| <= p <= |line| && Taken(cfg, line, pos, s) == line[pos + |s.delimiter|..p]
            && Seen(cfg, line, pos, s) == s.delimiter + Taken(cfg, line, pos, s)
  {
    EndKeepsContent(cfg, line, pos, s);
  }

  /** A turn adds to the accepted text what it takes from the line, up to spaces. */
  lemma StepKeepsContent(cfg: Config, line: string, pos: nat, s: Scan, h: string -> string)
    requires pos < |line| && !IsClientTurn(cfg, line, pos, s) && !Step(cfg, line, pos, s).Quit? && Ignores(h)
    ensures h(All(Step(cfg, line, pos, s).s)) == h(All(s)) + h(Taken(cfg, line, pos, s))
  {
    if KindOf(cfg, line, pos, s).Plain? {
      AcceptKeepsContent(cfg, line, pos, s, h);
      assert line[pos..pos + 1] == [line[pos]];
    } else if KindOf(cfg, line, pos, s).LeadingSpace? {
      assert AllSpaces(Taken(cfg, line, pos, s));
    } else {
      StepAddsTaken(cfg, line, pos, s);
      AddsUp(h, All(s), Taken(cfg, line, pos, s), All(Step(cfg, line, pos, s).s));
    }
  }

  lemma AddsUp(h: string -> string, a: string, b: string, c: string)
    requires Ignores(h) && c == a + b
    ensures h(c) == h(a) + h(b)
  {
    assert c == Cat(a, b);
  }

  // --- whole lines ---

  lemma OrdinaryStep(cfg: Config, line: string, pos: nat, s: Scan)
    requires pos < |line| && !IsClientTurn(cfg, line, pos, s) && !Step(cfg, line, pos, s).Quit? && Dry(cfg, s)
    ensures var t, cuts := Step(cfg, line, pos, s), KindOf(cfg, line, pos, s).Delimits?;
            && t.s.delimiter == s.delimiter && Dry(cfg, t.s) && |t.s.ran| == |s.ran| + (if cuts then 1 else 0)
            && Parts(Seen(cfg, line, pos, s), Taken(cfg, line, pos, s), cuts, s.delimiter)
  {
    if KindOf(cfg, line, pos, s).Delimits? {
      DelimiterTaken(cfg, line, pos, s);
    } else if KindOf(cfg, line, pos, s).Backslash? {
      EscapeKeepsContent(cfg, line, pos, s);
    }
  }

  function Takes(cfg: Config, line: string): (nat, Scan) -> string {
    (pos: nat, s: Scan) => if pos < |line| then Taken(cfg, line, pos, s) else ""
  }

  function Cuts(cfg: Config, line: string): (nat, Scan) -> bool {
    (pos: nat, s: Scan) => pos < |line| && KindOf(cfg, line, pos, s).Delimits?
  }

  function Going(cfg: Config, d: Delimiter): Scan -> bool {
    (s: Scan) => s.delimiter == d && Dry(cfg, s)
  }

  function Measured(h: string -> string): Scan -> string {
    (s: Scan) => h(All(s))
  }

  function RanCount(): Scan -> nat {
    (s: Scan) => |s.ran|
  }

  /** The client, except that any client command ends it. */
  function Stopping(cfg: Config): Config {
    cfg.(effect := (b: string, l: string, d: Delimiter) => Effect(true, b, [], d),
         newDelimiter := (d: Delimiter, l: string) => None)
  }

  /** Both take the same turns until there is a client command. */
  lemma StoppingStep(cfg: Config, line: string, pos: nat, s: Scan)
    requires pos < |line|
    ensures IsClientTurn(Stopping(cfg), line, pos, s) == IsClientTurn(cfg, line, pos, s)
    ensures IsClientTurn(cfg, line, pos, s) ==> Step(Stopping(cfg), line, pos, s).Quit?
    ensures !IsClientTurn(cfg, line, pos, s) ==> Step(Stopping(cfg), line, pos, s) == Step(cfg, line, pos, s)
  {
    assert KindOf(Stopping(cfg), line, pos, s) == KindOf(cfg, line, pos, s);
  }

  /** A run without client commands is the same for both. */
  lemma {:induction false} QuietIterates(cfg: Config, line: string, pos: nat, s: Scan)
    requires pos <= |line| && Quiet(cfg, line, pos, s)
    requires Forward(Turns(cfg, line), |line|) && Forward(Turns(Stopping(cfg), line), |line|)
    ensures Iterate(Turns(cfg, line), |line|, pos, s) == Iterate(Turns(Stopping(cfg), line), |line|, pos, s)
    ensures Quiet(Stopping(cfg), line, pos, s)
    decreases |line| - pos
  {
    if pos < |line| {
      StoppingStep(cfg, line, pos, s);
      var t := Step(cfg, line, pos, s);
      assert Turns(cfg, line)(pos, s) == t == Turns(Stopping(cfg), line)(pos, s);
      if t.Next? {
        QuietIterates(cfg, line, t.pos, t.s);
      }
    }
  }

  lemma QuietLoop(cfg: Config, line: string, s: Scan)
    requires Quiet(cfg, line, 0, s)
    ensures Loop(cfg, line, s) == Loop(Stopping(cfg), line, s) && Quiet(Stopping(cfg), line, 0, s)
  {
    TurnsMoveForward(cfg, line);
    TurnsMoveForward(Stopping(cfg), line);
    QuietIterates(cfg, line, 0, s);
  }

  lemma TurnsAccount(cfg: Config, line: string, d: Delimiter, h: string -> string)
    requires Ignores(h)
    ensures var stop := Stopping(cfg);
            Accounts(Turns(stop, line), Takes(stop, line), |line|, Going(stop, d), Measured(h), h)
  {
    var stop := Stopping(cfg);
    forall p: nat, s: Scan | p < |line| && Going(stop, d)(s) && !Turns(stop, line)(p, s).Quit?
      ensures Going(stop, d)(Turns(stop, line)(p, s).s)
      ensures h(All(Turns(stop, line)(p, s).s)) == h(All(s)) + h(Takes(stop, line)(p, s))
    {
      StoppingStep(cfg, line, p, s);
      StepKeepsContent(stop, line, p, s, h);
      OrdinaryStep(stop, line, p, s);
    }
  }

  lemma TurnsSlice(cfg: Config, line: string, d: Delimiter)
    ensures var stop := Stopping(cfg);
            Slices(Turns(stop, line), Sees(stop, line), Takes(stop, line), Cuts(stop, line), |line|, d,
                   Going(stop, d), RanCount())
  {
    var stop := Stopping(cfg);
    forall p: nat, s: Scan | p < |line| && Going(stop, d)(s) && !Turns(stop, line)(p, s).Quit?
      ensures Going(stop, d)(Turns(stop, line)(p, s).s)
      ensures Parts(Sees(stop, line)(p, s), Takes(stop, line)(p, s), Cuts(stop, line)(p, s), d)
      ensures |Turns(stop, line)(p, s).s.ran| == |s.ran| + if Cuts(stop, line)(p, s) then 1 else 0
    {
      StoppingStep(cfg, line, p, s);
      OrdinaryStep(stop, line, p, s);
    }
  }

  function AllOf(c: Client): string {
    Join(c.ran) + c.buffer
  }

  lemma FinishKeepsContent(cfg: Config, s: Scan, h: string -> string)
    requires Dry(cfg, s) && Ignores(h)
    ensures h(AllOf(Finish(cfg, s))) == h(All(s))
  {
    if (s.out != "" || s.buffer != "") && (!s.ml || cfg.preserve) {
      assert AllOf(Finish(cfg, s)) == Cat(All(s), "\n");
      assert AllSpaces("\n");
    } else {
      assert All(s) == AllOf(Finish(cfg, s));
    }
  }

  lemma BeginHasAll(c: Client)
    ensures All(Begin(c)) == AllOf(c)
  {
  }

  /** The loop over a line, measured and cut. */
  lemma LoopKeepsContent(cfg: Config, line: string, s: Scan, h: string -> string) returns (kept: string, n: nat)
    requires Readable(cfg, s) && Dry(cfg, s) && Quiet(cfg, line, 0, s) && Loop(cfg, line, s).Break? && Ignores(h)
    ensures var t, w := Loop(cfg, line, s), Wanted(cfg, line, 0, s);
            && h(All(t.s)) == h(All(s)) + h(kept)
            && |t.s.ran| == |s.ran| + n && t.s.delimiter == s.delimiter && Dry(cfg, t.s)
            && (t.dropped ==> w != "" && w[|w| - 1] == '\\')
            && Cut(Less(w, t.dropped), s.delimiter, n, kept)
  {
    QuietLoop(cfg, line, s);
    var stop, d := Stopping(cfg), s.delimiter;
    var turns, takes := Turns(stop, line), Takes(stop, line);
    TurnsMoveForward(stop, line);
    TurnsAccount(cfg, line, d, h);
    IterateAccounts(turns, takes, |line|, 0, s, Going(stop, d), Measured(h), h);
    TurnsSlice(cfg, line, d);
    n := IterateCuts(turns, Sees(stop, line), takes, Cuts(stop, line), |line|, d, Going(stop, d), RanCount(), 0, s);
    kept := Kept(turns, takes, |line|, 0, s);
    TurnsSeeAll(stop, line, 0, s);
    assert Wanted(stop, line, 0, s) == Wanted(cfg, line, 0, s);
  }

  /**
   One line without client commands: apart from spaces, the statements run plus
   the pending buffer grow by the line, without its comments unless those are
   preserved, with one delimiter cut out per statement run. Only a backslash
   that ends the line may be lost, and is exactly when backslashes are escapes,
   their number is odd and they are not in a comment.
   */
  lemma LineKeepsContent(cfg: Config, line: string, c: Client, h: string -> string)
    returns (kept: string, n: nat, dropped: bool)
    requires Readable(cfg, Begin(c)) && Quiet(cfg, line, 0, Begin(c)) && AddLine(cfg, line, c).Some? && Ignores(h)
    ensures var c' := AddLine(cfg, line, c).value;
            && h(AllOf(c')) == h(AllOf(c)) + h(kept)
            && |c'.ran| == |c.ran| + n && c'.delimiter == c.delimiter
    ensures OneCut(Wanted(cfg, line, 0, Begin(c)), c.delimiter, kept, n, dropped)
    ensures Proper(Begin(c)) && Legal(cfg, c.delimiter) ==> dropped == Loses(cfg, line, 0, Begin(c))
  {
    var s := Begin(c);
    kept, n := LoopKeepsContent(cfg, line, s, h);
    var t := Loop(cfg, line, s);
    dropped := t.dropped;
    FinishKeepsContent(cfg, t.s, h);
    BeginHasAll(c);
    if Proper(s) && Legal(cfg, c.delimiter) {
      LineLosesIff(cfg, line, c);
    }
  }

  /** The text with n delimiters taken out, and its last character too, a backslash, if it is lost. */
  ghost predicate OneCut(text: string, d: Delimiter, kept: string, n: nat, lost: bool) {
    Cut(Less(text, lost), d, n, kept) && (lost ==> text != "" && text[|text| - 1] == '\\')
  }

  /** The loss at an input: of the line of an a and a backslash only the a is kept. */
  lemma BackslashLost(cfg: Config)
    requires cfg.escapes
    ensures AddLine(cfg, "a\\", Client("", None, false, [], ";")) == Some(Client("a\n", None, false, [], ";"))
  {
    var line, s := "a\\", Begin(Client("", None, false, [], ";"));
    TurnsMoveForward(cfg, line);
    var turns, s1 := Turns(cfg, line), s.(out := "a");
    assert |line| == 2 && line[0] == 'a' && line[1] == '\\';
    assert !PrefixAt(line, 0, ";") by {
      assert line[0..1][0] != ";"[0];
    }
    assert !DelimiterCommandAt(line, 0) && !LineCommentAt(line, 0) && !IsSpace('a');
    assert s.out + ['a'] == "a";
    assert KindOf(cfg, line, 0, s).Plain?;
    assert turns(0, s) == Next(1, s1);
    assert turns(1, s1) == Break(s1, true);
    assert Iterate(turns, 2, 1, s1) == Break(s1, true);
    assert Loop(cfg, line, s) == Break(s1, true);
    assert "" + "a" + "\n" == "a\n";
  }

  // --- any number of lines ---

  ghost function Adder(cfg: Config): (string, Client) -> Option<Client> {
    (line: string, c: Client) => AddLine(cfg, line, c)
  }

  /** The lines meet no client command and no change of the delimiter. */
  ghost predicate QuietLines(cfg: Config, lines: seq<string>, c: Client) {
    lines == []
    || (Quiet(cfg, lines[0], 0, Begin(c))
        && (AddLine(cfg, lines[0], c).Some? ==> QuietLines(cfg, lines[1..], AddLine(cfg, lines[0], c).value)))
  }

  /** The lines as they are wanted. */
  ghost function AllWanted(cfg: Config, lines: seq<string>, c: Client): (texts: seq<string>)
    ensures Feed(Adder(cfg), lines, c).Some? ==> |texts| == |lines|
  {
    if lines == [] then []
    else
      [Wanted(cfg, lines[0], 0, Begin(c))]
      + match AddLine(cfg, lines[0], c)
        case None => []
        case Some(c') => AllWanted(cfg, lines[1..], c')
  }

  /** Which lines lose their last backslash. */
  ghost function Losses(cfg: Config, lines: seq<string>, c: Client): seq<bool> {
    if lines == [] then []
    else
      [Loses(cfg, lines[0], 0, Begin(c))]
      + match AddLine(cfg, lines[0], c)
        case None => []
        case Some(c') => Losses(cfg, lines[1..], c')
  }

  ghost predicate AllCut(texts: seq<string>, d: Delimiter, kept: seq<string>, cuts: seq<nat>, lost: seq<bool>) {
    && |kept| == |cuts| == |lost| == |texts|
    && forall i :: 0 <= i < |texts| ==> OneCut(texts[i], d, kept[i], cuts[i], lost[i])
  }

  /**
   Any number of lines without client commands: apart from spaces, the
   statements run and the pending buffer hold the input as it is wanted, in
   order, without one delimiter per statement run and without the backslashes
   that are lost.
   */
  lemma {:induction false} LinesKeepContent(cfg: Config, lines: seq<string>, c: Client)
    returns (kept: seq<string>, cuts: seq<nat>, lost: seq<bool>)
    requires Readable(cfg, Begin(c)) && Feed(Adder(cfg), lines, c).Some? && QuietLines(cfg, lines, c)
    ensures AllCut(AllWanted(cfg, lines, c), c.delimiter, kept, cuts, lost)
    ensures Proper(Begin(c)) && Legal(cfg, c.delimiter) ==> lost == Losses(cfg, lines, c)
    ensures var c' := Feed(Adder(cfg), lines, c).value;
            && Content(AllOf(c')) == Content(AllOf(c)) + Content(Join(kept))
            && |c'.ran| == |c.ran| + Sum(cuts)
  {
    kept, cuts, lost := [], [], [];
    ContentIgnores();
    if lines != [] {
      var c1 := AddLine(cfg, lines[0], c).value;
      var k, n, l := LineKeepsContent(cfg, lines[0], c, Content);
      if Proper(Begin(c)) {
        AddLineKeepsProper(cfg, lines[0], c);
      }
      kept, cuts, lost := LinesKeepContent(cfg, lines[1..], c1);
      JoinMore(k, kept);
      AddMore(Content(AllOf(c)), Content, k, Join(kept));
      SumMore(n, cuts);
      AllCutMore(AllWanted(cfg, lines, c), c.delimiter, kept, cuts, lost, k, n, l);
      kept, cuts, lost := [k] + kept, [n] + cuts, [l] + lost;
    }
  }

  lemma AllCutMore(texts: seq<string>, d: Delimiter, kept: seq<string>, cuts: seq<nat>, lost: seq<bool>,
                   k: string, n: nat, l: bool)
    requires texts != [] && AllCut(texts[1..], d, kept, cuts, lost) && OneCut(texts[0], d, k, n, l)
    ensures AllCut(texts, d, [k] + kept, [n] + cuts, [l] + lost)
  {
    forall i | 0 < i < |texts|
      ensures OneCut(texts[i], d, ([k] + kept)[i], ([n] + cuts)[i], ([l] + lost)[i])
    {
      assert OneCut(texts[1..][i - 1], d, kept[i - 1], cuts[i - 1], lost[i - 1]);
    }
  }
}
