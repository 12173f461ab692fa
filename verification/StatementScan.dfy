/**
 How the mysql client splits input lines into statements: one turn of the loop
 of add_line as a function, for a single-byte character set.

 What client commands do is a parameter. `out` is the text accepted from the
 line so far and not yet moved to the statement buffer.
 */
module StatementScan {
  import opened Wrappers
  import opened ScanLoop

  /**
   The effect of a client command: it may end the client, rewrite the buffer,
   run statements, change the delimiter.
   */
  datatype Effect = Effect(quit: bool, buffer: string, ran: seq<string>, delimiter: Delimiter)

  /**
   command(c) is Some if \c is a client command, with whether it takes
   parameters; effect gets the buffer, the line from the backslash on and the
   delimiter; statement(s) tells whether running s ends the client;
   newDelimiter is None if a delimiter line ends it.
   */
  datatype Config = Config(preserve: bool, escapes: bool,
                           command: char -> Option<bool>, effect: (string, string, Delimiter) -> Effect,
                           unknownFatal: bool,
                           statement: string -> bool, newDelimiter: (Delimiter, string) -> Option<Delimiter>)

  datatype Scan = Scan(out: string, buffer: string, inString: Option<char>, ml: bool, ss: bool, needSpace: bool,
                       ran: seq<string>, delimiter: Delimiter)

  predicate IsSpace(c: char) {
    c == ' ' || c == '\t' || c == '\n' || c == '\r' || c == '\U{0B}' || c == '\U{0C}'
  }

  function At(line: string, i: nat): char {
    if i < |line| then line[i] else '\0'
  }

  predicate LineCommentAt(line: string, i: nat) {
    At(line, i) == '#' || (At(line, i) == '-' && At(line, i + 1) == '-' && IsSpace(At(line, i + 2)))
  }

  function Lower(c: char): char {
    if 'A' <= c <= 'Z' then c - 'A' + 'a' else c
  }

  predicate DelimiterCommandAt(line: string, i: nat) {
    i + 10 <= |line| && forall k :: 0 <= k < 10 ==> Lower(line[i + k]) == "delimiter "[k]
  }

  /** The first position from i on that is not a space. */
  function SkipSpaces(line: string, i: nat): (j: nat)
    requires i <= |line|
    ensures i <= j <= |line| && forall k :: i <= k < j ==> IsSpace(line[k])
    ensures j < |line| ==> !IsSpace(line[j])
    decreases |line| - i
  {
    if i < |line| && IsSpace(line[i]) then SkipSpaces(line, i + 1) else i
  }

  /** The first position from i on where p starts, or the end of the line. */
  function FindFrom(line: string, i: nat, p: string): (j: nat)
    requires i <= |line|
    ensures i <= j <= |line| && (j < |line| ==> PrefixAt(line, j, p))
    ensures forall k :: i <= k < j ==> !PrefixAt(line, k, p)
    decreases |line| - i
  {
    if i == |line| || PrefixAt(line, i, p) then i else FindFrom(line, i + 1, p)
  }

  function Flush(s: Scan): Scan {
    s.(buffer := s.buffer + s.out, out := "")
  }

  /** A client command: it gets the whole buffer; its parameters are skipped. */
  function Command(cfg: Config, line: string, pos: nat, s: Scan, takesParams: bool): Turn<Scan>
    requires pos + 1 < |line|
  {
    var f := Flush(s);
    var e := cfg.effect(f.buffer, line[pos..], s.delimiter);
    var t := f.(buffer := e.buffer, ran := f.ran + e.ran, delimiter := e.delimiter);
    if e.quit then Quit(t) else Next(if takesParams then AfterParams(line, pos + 2, t) else pos + 2, t)
  }

  /** Parameters go up to the end of a server-side comment or behind a delimiter. */
  function AfterParams(line: string, pos: nat, s: Scan): (p: nat)
    requires pos <= |line|
    ensures pos <= p <= |line|
  {
    if s.ss then FindFrom(line, pos, "*/")
    else
      var p := FindFrom(line, pos, s.delimiter);
      if p == |line| then p else p + |s.delimiter|
  }

  /** A backslash outside a comment. */
  function Escape(cfg: Config, line: string, pos: nat, s: Scan): Turn<Scan>
    requires pos < |line|
  {
    if pos + 1 == |line| then Break(s, true)
    else
      var c := line[pos + 1];
      if s.inString.Some? || c == 'N' then Next(pos + 2, s.(out := s.out + ['\\', c]))
      else if cfg.command(c).None? then
        if cfg.unknownFatal then Quit(s) else Next(pos + 2, s.(out := s.out + ['\\', c]))
      else Command(cfg, line, pos, s, cfg.command(c).value)
  }

  /** A line that changes the delimiter; a pending statement is run first. */
  function DelimiterCommand(cfg: Config, line: string, pos: nat, s: Scan): Turn<Scan>
    requires pos < |line|
  {
    var f := Flush(s);
    var t := f.(ran := if f.buffer != "" then f.ran + [f.buffer] else f.ran);
    if f.buffer != "" && cfg.statement(f.buffer) then Quit(t)
    else
      match cfg.newDelimiter(s.delimiter, line[pos..])
      case None => Quit(t)
      case Some(d) => Break(t.(buffer := "", delimiter := d), false)
  }

  /** Where scanning goes on after a delimiter that ends at p: behind spaces and a comment, if those are preserved. */
  function AfterStatement(cfg: Config, line: string, p: nat): (q: nat)
    requires p <= |line|
    ensures p <= q <= |line|
  {
    if !cfg.preserve then p
    else
      var q := SkipSpaces(line, p);
      if LineCommentAt(line, q) then |line| else q
  }

  /** The end of a statement; what stands behind the delimiter up to the new position belongs to it. */
  function EndStatement(cfg: Config, line: string, pos: nat, s: Scan): Turn<Scan>
    requires PrefixAt(line, pos, s.delimiter)
  {
    var p := pos + |s.delimiter|;
    var q := AfterStatement(cfg, line, p);
    var statement := s.buffer + s.out + line[p..q];
    var t := s.(out := "", buffer := "", ran := s.ran + [statement]);
    if cfg.statement(statement) then Quit(t) else Next(q, t)
  }

  /** A character that is accepted as it is. */
  function Accept(cfg: Config, line: string, pos: nat, s: Scan): Turn<Scan>
    requires pos < |line|
  {
    var c := line[pos];
    var ss := if s.inString.Some? then s.ss
              else if c == '/' && At(line, pos + 1) == '*' && At(line, pos + 2) == '!' then true
              else if s.ss && c == '*' && At(line, pos + 1) == '/' then false
              else s.ss;
    var inString := if s.inString == Some(c) then None
                    else if !s.ml && s.inString.None? && (c == '\'' || c == '"' || c == '`') then Some(c)
                    else s.inString;
    var t := s.(ss := ss, inString := inString);
    if s.ml && !cfg.preserve then Next(pos + 1, t)
    else Next(pos + 1, t.(needSpace := false, out := s.out + (if s.needSpace && !IsSpace(c) then [' ', c] else [c])))
  }

  /** The branches of the loop, in the order they are tried. */
  datatype Kind = LeadingSpace | Backslash | ChangeDelimiter | Delimits | LineComment | OpenComment | CloseComment
                | Plain

  function KindOf(cfg: Config, line: string, pos: nat, s: Scan): Kind
    requires pos < |line|
  {
    var c := line[pos];
    var outside := !s.ml && s.inString.None?;
    if !cfg.preserve && IsSpace(c) && s.out == "" && s.buffer == "" then LeadingSpace
    else if !s.ml && c == '\\' && cfg.escapes then Backslash
    else if outside && DelimiterCommandAt(line, pos) then ChangeDelimiter
    else if outside && PrefixAt(line, pos, s.delimiter) then Delimits
    else if outside && LineCommentAt(line, pos) then LineComment
    else if s.inString.None? && c == '/' && At(line, pos + 1) == '*' && At(line, pos + 2) != '!' then OpenComment
    else if s.ml && !s.ss && c == '*' && At(line, pos + 1) == '/' then CloseComment
    else Plain
  }

  /** A comment up to the end of the line. */
  function ToEndOfLine(cfg: Config, line: string, pos: nat, s: Scan): Turn<Scan>
    requires pos < |line|
  {
    var f := Flush(s);
    Break(if cfg.preserve then f.(buffer := f.buffer + line[pos..]) else f, false)
  }

  function OpensComment(cfg: Config, s: Scan): Scan {
    Flush(s.(ml := true, out := if cfg.preserve then s.out + "/*" else s.out))
  }

  function ClosesComment(cfg: Config, s: Scan): Scan {
    Flush(s.(ml := false, needSpace := true, out := if cfg.preserve then s.out + "*/" else s.out))
  }

  /** One turn of the loop of add_line. */
  function Step(cfg: Config, line: string, pos: nat, s: Scan): (t: Turn<Scan>)
    requires pos < |line|
    ensures t.Next? ==> pos < t.pos <= |line|
  {
    match KindOf(cfg, line, pos, s)
    case LeadingSpace => Next(pos + 1, s)
    case Backslash => Escape(cfg, line, pos, s)
    case ChangeDelimiter => DelimiterCommand(cfg, line, pos, s)
    case Delimits => EndStatement(cfg, line, pos, s)
    case LineComment => ToEndOfLine(cfg, line, pos, s)
    case OpenComment => Next(pos + 2, OpensComment(cfg, s))
    case CloseComment => Next(pos + 2, ClosesComment(cfg, s))
    case Plain => Accept(cfg, line, pos, s)
  }

  /** The turns of the loop over a line. */
  function Turns(cfg: Config, line: string): (nat, Scan) -> Turn<Scan> {
    (pos: nat, s: Scan) => if pos < |line| then Step(cfg, line, pos, s) else Break(s, false)
  }

  lemma TurnsMoveForward(cfg: Config, line: string)
    ensures Forward(Turns(cfg, line), |line|)
  {
  }

  /** The loop over a line. */
  ghost function Loop(cfg: Config, line: string, s: Scan): (t: Turn<Scan>)
    ensures !t.Next?
  {
    TurnsMoveForward(cfg, line);
    Iterate(Turns(cfg, line), |line|, 0, s)
  }

  /** What is kept between lines. */
  datatype Client = Client(buffer: string, inString: Option<char>, ml: bool, ran: seq<string>, delimiter: Delimiter)

  function Begin(c: Client): Scan {
    Scan("", c.buffer, c.inString, c.ml, false, false, c.ran, c.delimiter)
  }

  /** The rest of the line is accepted with a newline. */
  function Finish(cfg: Config, s: Scan): Client {
    Client(if (s.out != "" || s.buffer != "") && (!s.ml || cfg.preserve) then s.buffer + s.out + "\n" else s.buffer,
           s.inString, s.ml, s.ran, s.delimiter)
  }

  /** add_line; None when the client is to end. */
  ghost function AddLine(cfg: Config, line: string, c: Client): Option<Client> {
    var t := Loop(cfg, line, Begin(c));
    if t.Quit? then None else Some(Finish(cfg, t.s))
  }

  // --- what every turn keeps ---

  /** Never inside a quoted string and a comment at once. */
  predicate Exclusive(s: Scan) {
    !(s.ml && s.inString.Some?)
  }

  lemma StepKeepsExclusive(cfg: Config, line: string, pos: nat, s: Scan)
    requires pos < |line| && Exclusive(s)
    ensures Exclusive(Step(cfg, line, pos, s).s)
  {
  }

  /** In every run over any line the client is never in a string and a comment at once. */
  lemma AddLineKeepsExclusive(cfg: Config, line: string, c: Client)
    requires !(c.ml && c.inString.Some?) && AddLine(cfg, line, c).Some?
    ensures var c' := AddLine(cfg, line, c).value; !(c'.ml && c'.inString.Some?)
  {
    TurnsMoveForward(cfg, line);
    forall p: nat, s: Scan | p < |line| && Exclusive(s)
      ensures Exclusive(Turns(cfg, line)(p, s).s)
    {
      StepKeepsExclusive(cfg, line, p, s);
    }
    IterateKeeps(Turns(cfg, line), |line|, 0, Begin(c), Exclusive);
  }
}
