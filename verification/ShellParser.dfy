/** The parser of Shell_Interpreter/parser.c: it splits ranges of the token array
    at the rightmost separator outside any nesting, and scans compound commands
    for their words with a counter that does not tell the kinds of nesting apart.
    `error(1, ...)` ends the run and is a failure here. */
module ShellParser {
  import opened Common
  import opened ShellTree

  datatype Fault = UnexpectedToken | InvalidToken | Expected(token: Token) | InvalidRedirection

  datatype Result<T> = Ok(value: T) | Error(fault: Fault) {
    predicate IsFailure() { Error? }
    function PropagateFailure<U>(): Result<U>
      requires Error?
    {
      Error(fault)
    }
    function Extract(): T
      requires Ok?
    {
      value
    }
  }

  function At(toks: seq<Token>, i: int): Token { if 0 <= i < |toks| then toks[i] else Absent }

  /** What a token adds to the nesting on its left. */
  function Delta(t: Token): int {
    match t
    case If | LParen | While | Until => 1
    case Fi | RParen | Done => -1
    case _ => 0
  }

  function Spelling(t: Token): string {
    match t
    case If => "if" case Then => "then" case Fi => "fi" case Else => "else" case While => "while"
    case Until => "until" case Do => "do" case Done => "done" case Word(w) => w case Semi => ";"
    case Pipe => "|" case LParen => "(" case RParen => ")" case Less => "<" case Greater => ">"
    case Newline => "\n" case Colon => ":" case Absent => ""
  }

  // ------------------------------------------------------------ scans

  /** The scan to the left for a separator outside every nesting, or -1. */
  function SplitAt(toks: seq<Token>, start: int, i: int, depth: int, sep: Token): (r: int)
    ensures r == -1 || (r <= i && (start <= r || r == i) && At(toks, r) == sep)
    decreases i - start
  {
    if depth == 0 && At(toks, i) == sep then i
    else if i > start then SplitAt(toks, start, i - 1, depth - Delta(At(toks, i)), sep)
    else -1
  }

  datatype Frame = IfFrame | LoopFrame | ParenFrame

  predicate IsMid(f: Frame, t: Token) { (f == IfFrame && t == Then) || (f == LoopFrame && t == Do) }

  predicate IsAlt(f: Frame, t: Token) { f == IfFrame && t == Else }

  predicate IsClose(f: Frame, t: Token) {
    match f
    case IfFrame => t == Fi
    case LoopFrame => t == Done
    case ParenFrame => t == RParen
  }

  /** Where a scan saw `then` or `do`, `else`, and the word that ends the command. */
  datatype Marks = Marks(mid: int, alt: int, close: int)

  /** The scan to the right; it also looks at the token at `end`, and the last
      `then`, `do` and `else` win. */
  function Scan(
      f: Frame, toks: seq<Token>, first: int, index: int, end: int, depth: int, mid: int, alt: int): (m: Marks)
    requires first <= index
    ensures m.mid == mid || (index <= m.mid && first < m.mid && IsMid(f, At(toks, m.mid)))
    ensures m.alt == alt || (index <= m.alt && first < m.alt && IsAlt(f, At(toks, m.alt)))
    ensures m.close == -1 || (index <= m.close && IsClose(f, At(toks, m.close)))
    decreases end - index
  {
    var t := At(toks, index);
    var looks := depth == 0 && (index != first || f == ParenFrame);
    if looks && IsClose(f, t) then Marks(mid, alt, index) else
    var mid' := if looks && IsMid(f, t) then index else mid;
    var alt' := if looks && IsAlt(f, t) then index else alt;
    if index < end then Scan(f, toks, first, index + 1, end, depth + Delta(t), mid', alt') else Marks(mid', alt', -1)
  }

  /** Where the words of a simple command end; past `end` if a word lies there. */
  function WordsEnd(toks: seq<Token>, index: int, end: int): (r: int)
    ensures index <= r
    ensures forall k :: index <= k < r ==> At(toks, k).Word?
    decreases end - index
  {
    if !At(toks, index).Word? then index
    else if index < end then WordsEnd(toks, index + 1, end)
    else index + 1
  }

  function Texts(toks: seq<Token>, start: int, end: int): (r: seq<string>)
    decreases end - start
  {
    if start >= end then [] else [Spelling(At(toks, start))] + Texts(toks, start + 1, end)
  }

  // ------------------------------------------------------------ parsing

  /** `add_redirects`: at most one of each kind, and nothing else, up to `end`. */
  function AddRedirects(toks: seq<Token>, start: int, end: int, io: Redirects): Result<Redirects>
    decreases end - start
  {
    if start >= end then Ok(io)
    else if At(toks, start) == Less && end > start + 1 then
      if io.input == None then AddRedirects(toks, start + 2, end, io.(input := Some(Spelling(At(toks, start + 1)))))
      else Error(InvalidRedirection)
    else if At(toks, start) == Greater && end > start + 1 then
      if io.output == None then AddRedirects(toks, start + 2, end, io.(output := Some(Spelling(At(toks, start + 1)))))
      else Error(InvalidRedirection)
    else Error(UnexpectedToken)
  }

  const NO_REDIRECTS := Redirects(None, None)

  predicate EndsBadly(t: Token) { t == Semi || t == Pipe || t == Less || t == Greater }

  /** `check_fail_parse` drops one semicolon in front of the word that ends a body. */
  function Trimmed(toks: seq<Token>, end: nat): (r: nat)
    ensures r <= end
  {
    if At(toks, end - 1) == Semi then end - 1 else end
  }

  function Parse(toks: seq<Token>, start: nat, end: nat): Result<Command>
    requires start <= |toks| && end <= |toks|
    decreases |toks| - start, end, 2
  {
    if EndsBadly(At(toks, end - 1)) then Error(UnexpectedToken) else
    var semi := SplitAt(toks, start, end - 1, 0, Semi);
    if semi >= 0 then ParseChain(toks, start, semi, end, Sequence) else
    var pipe := SplitAt(toks, start, end - 1, 0, Pipe);
    if pipe >= 0 then ParseChain(toks, start, pipe, end, Pipeline) else
    ParseOne(toks, start, end)
  }

  /** Without a separator outside, the first token decides. */
  function ParseOne(toks: seq<Token>, start: nat, end: nat): Result<Command>
    requires start <= |toks| && end <= |toks|
    decreases |toks| - start, end, 1
  {
    match At(toks, start)
    case If => ParseIf(toks, start, end)
    case While | Until => ParseLoop(toks, start, end)
    case LParen => ParseSubshell(toks, start, end)
    case Word(_) => ParseSimple(toks, start, end)
    case _ => Error(InvalidToken)
  }

  function ParseChain(toks: seq<Token>, start: nat, i: nat, end: nat, sep: Separator): Result<Command>
    requires start <= i < end <= |toks|
    decreases |toks| - start, end, 1
  {
    var l :- Parse(toks, start, i);
    var r :- Parse(toks, i + 1, end);
    Ok(Chain(sep, l, r))
  }

  function ParseIf(toks: seq<Token>, start: nat, end: nat): Result<Command>
    requires start < |toks| && end <= |toks|
    decreases |toks| - start, end, 0
  {
    var m := Scan(IfFrame, toks, start + 1, start + 1, end, 0, -1, -1);
    if m.close == -1 then Error(Expected(Fi))
    else if m.mid == -1 then Error(Expected(Then))
    else
      var c :- Parse(toks, start + 1, Trimmed(toks, m.mid));
      if m.alt != -1 then
        var y :- Parse(toks, m.mid + 1, Trimmed(toks, m.alt));
        var n :- Parse(toks, m.alt + 1, Trimmed(toks, m.close));
        var io :- AddRedirects(toks, m.close + 1, end, NO_REDIRECTS);
        Ok(Conditional(c, y, Some(n), io))
      else
        var y :- Parse(toks, m.mid + 1, Trimmed(toks, m.close));
        var io :- AddRedirects(toks, m.close + 1, end, NO_REDIRECTS);
        Ok(Conditional(c, y, None, io))
  }

  function ParseLoop(toks: seq<Token>, start: nat, end: nat): Result<Command>
    requires start < |toks| && end <= |toks|
    decreases |toks| - start, end, 0
  {
    var m := Scan(LoopFrame, toks, start + 1, start + 1, end, 0, -1, -1);
    if m.close == -1 then Error(Expected(Done))
    else if m.mid == -1 then Error(Expected(Do))
    else
      var c :- Parse(toks, start + 1, Trimmed(toks, m.mid));
      var b :- Parse(toks, m.mid + 1, Trimmed(toks, m.close));
      var io :- AddRedirects(toks, m.close + 1, end, NO_REDIRECTS);
      Ok(Loop(toks[start] == Until, c, b, io))
  }

  function ParseSubshell(toks: seq<Token>, start: nat, end: nat): Result<Command>
    requires start < |toks| && end <= |toks|
    decreases |toks| - start, end, 0
  {
    var m := Scan(ParenFrame, toks, start + 1, start + 1, end, 0, -1, -1);
    if m.close == -1 then Error(Expected(RParen))
    else
      var b :- Parse(toks, start + 1, Trimmed(toks, m.close));
      var io :- AddRedirects(toks, m.close + 1, end, NO_REDIRECTS);
      Ok(Subshell(b, io))
  }

  function ParseSimple(toks: seq<Token>, start: nat, end: nat): Result<Command>
    requires start < |toks| && end <= |toks|
  {
    var e := WordsEnd(toks, start, end);
    var io :- AddRedirects(toks, e, end, NO_REDIRECTS);
    Ok(Simple(Texts(toks, start, e), io))
  }
}
