/**
 Lines read as text: which parts of a line are quoted strings and comments. A
 line is a sequence of tokens, and a string or a comment is one token as a whole.
 Nothing here knows how the client scans a line.
 */
module StatementText {
  import opened Wrappers
  import opened ScanLoop
  import opened StatementScan

  /** What the line is in the middle of. */
  datatype Region = Outside | Quoted(quote: char) | Comment

  /**
   Whether a backslash takes a character along, and the delimiter, if it is a
   token; preserve: with what follows it.
   */
  datatype Lexis = Lexis(escapes: bool, preserve: bool, delimiter: Option<Delimiter>)

  /** The end of a token, what is still open if that is the end of the line, and whether it is a comment up to there. */
  datatype Token = Token(end: nat, open: Region, ss: bool, comment: bool)

  predicate IsQuote(c: char) {
    c == '\'' || c == '"' || c == '`'
  }

  predicate At2(text: string, i: nat, a: char, b: char) {
    At(text, i) == a && At(text, i + 1) == b
  }

  /** The rest of a string from i on: to its first quote that no backslash takes along. */
  function StringRest(escapes: bool, text: string, i: nat, q: char, ss: bool): (t: Token)
    requires i <= |text|
    ensures i <= t.end <= |text| && (t.open != Outside ==> t.end == |text|) && !t.comment
    decreases |text| - i
  {
    if i == |text| then Token(i, Quoted(q), ss, false)
    else if escapes && text[i] == '\\' then StringRest(escapes, text, if i + 2 <= |text| then i + 2 else |text|, q, ss)
    else if text[i] == q then Token(i + 1, Outside, ss, false)
    else StringRest(escapes, text, i + 1, q, ss)
  }

  /** The rest of a comment from i on: to its end mark; inside a server-side comment the first mark closes that. */
  function CommentRest(text: string, i: nat, ss: bool): (t: Token)
    requires i <= |text|
    ensures i <= t.end <= |text| && (t.open != Outside ==> t.end == |text|) && t.comment == (t.open != Outside)
    decreases |text| - i
  {
    if i == |text| then Token(i, Comment, ss, true)
    else if At2(text, i, '/', '*') then
      if At(text, i + 2) == '!' then CommentRest(text, i + 1, true) else CommentRest(text, i + 2, ss)
    else if At2(text, i, '*', '/') then
      if ss then CommentRest(text, i + 1, false) else Token(i + 2, Outside, false, false)
    else CommentRest(text, i + 1, ss)
  }

  /** The token that starts at p. */
  function TokenAt(lx: Lexis, text: string, p: nat, ss: bool): (t: Token)
    requires p < |text|
    ensures p < t.end <= |text| && (t.open != Outside ==> t.end == |text|)
  {
    if lx.escapes && text[p] == '\\' then Token(if p + 2 <= |text| then p + 2 else |text|, Outside, ss, false)
    else if lx.delimiter.Some? && PrefixAt(text, p, lx.delimiter.value) then
      var e := p + |lx.delimiter.value|;
      var q := if lx.preserve then SkipSpaces(text, e) else e;
      if lx.preserve && LineCommentAt(text, q) then Token(|text|, Outside, ss, true) else Token(q, Outside, ss, false)
    else if LineCommentAt(text, p) then Token(|text|, Outside, ss, true)
    else if At2(text, p, '/', '*') then
      if At(text, p + 2) == '!' then Token(p + 1, Outside, true, false) else CommentRest(text, p + 2, ss)
    else if At2(text, p, '*', '/') && ss then Token(p + 1, Outside, false, false)
    else if IsQuote(text[p]) then StringRest(lx.escapes, text, p + 1, text[p], ss)
    else Token(p + 1, Outside, ss, false)
  }

  /** Where the region that is open at p ends. */
  function Rest(lx: Lexis, text: string, p: nat, g: Region, ss: bool): (t: Token)
    requires p <= |text|
    ensures p <= t.end <= |text| && (t.open != Outside ==> t.end == |text|) && (t.comment ==> t.open != Outside)
  {
    match g
    case Outside => Token(p, Outside, ss, false)
    case Quoted(q) => StringRest(lx.escapes, text, p, q, ss)
    case Comment => CommentRest(text, p, ss)
  }

  /** Token by token from a: p is the start of a token, so it is in no string and no comment. */
  ghost predicate StartsToken(lx: Lexis, text: string, a: nat, ss: bool, p: nat)
    requires a <= |text|
    decreases |text| - a
  {
    || a == p
    || (&& a < p && a < |text|
        && StartsToken(lx, text, TokenAt(lx, text, a, ss).end, TokenAt(lx, text, a, ss).ss, p))
  }

  /** What is open at the end of the text. */
  function OpenAtEnd(lx: Lexis, text: string, a: nat, ss: bool): Region
    requires a <= |text|
    decreases |text| - a
  {
    if a == |text| then Outside
    else
      var t := TokenAt(lx, text, a, ss);
      if t.open != Outside then t.open else OpenAtEnd(lx, text, t.end, t.ss)
  }

  /** Whether the text ends in a comment. */
  function EndsInComment(lx: Lexis, text: string, a: nat, ss: bool): bool
    requires a <= |text|
    decreases |text| - a
  {
    if a == |text| then false
    else
      var t := TokenAt(lx, text, a, ss);
      if t.end == |text| then t.comment else EndsInComment(lx, text, t.end, t.ss)
  }

  /** The token at p is a comment. */
  predicate IsComment(lx: Lexis, text: string, p: nat)
    requires p < |text|
  {
    && !(lx.escapes && text[p] == '\\')
    && !(lx.delimiter.Some? && PrefixAt(text, p, lx.delimiter.value))
    && (LineCommentAt(text, p) || (At2(text, p, '/', '*') && At(text, p + 2) != '!'))
  }

  /** The text from a on, token by token, without its comments. */
  function Uncommented(lx: Lexis, text: string, a: nat, ss: bool): string
    requires a <= |text|
    decreases |text| - a
  {
    if a == |text| then ""
    else
      var t := TokenAt(lx, text, a, ss);
      (if IsComment(lx, text, a) then "" else text[a..t.end])
      + if t.open == Outside then Uncommented(lx, text, t.end, t.ss) else ""
  }

  /** The same in the middle of a region. */
  function UncommentedFrom(lx: Lexis, text: string, p: nat, g: Region, ss: bool): string
    requires p <= |text|
  {
    var r := Rest(lx, text, p, g, ss);
    (if g.Quoted? then text[p..r.end] else "") + if r.open == Outside then Uncommented(lx, text, r.end, r.ss) else ""
  }

  /** The number of backslashes at the end. */
  function TrailingBackslashes(text: string): (n: nat)
    ensures n <= |text| && forall i :: |text| - n <= i < |text| ==> text[i] == '\\'
    ensures n < |text| ==> text[|text| - n - 1] != '\\'
  {
    if text == "" || text[|text| - 1] != '\\' then 0 else 1 + TrailingBackslashes(text[..|text| - 1])
  }
}
