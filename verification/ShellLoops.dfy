/** The same parser as the source runs it: do-while scans that move an index and
    a counter, and calls of one another over narrower ranges. */
module ShellLoops {
  import opened Common
  import opened ShellTree
  import opened ShellParser

  /** The scan of `parse` for a sequence, and the same scan again for a pipe. */
  method ScanLeft(toks: seq<Token>, start: nat, end: nat, sep: Token) returns (i: int)
    ensures i == SplitAt(toks, start, end - 1, 0, sep)
  {
    i := end - 1;
    var inCommand := 0;
    while true
      invariant SplitAt(toks, start, end - 1, 0, sep) == SplitAt(toks, start, i, inCommand, sep)
      decreases i - start
    {
      if inCommand == 0 && At(toks, i) == sep { return i; }
      match At(toks, i) {
        case Fi | RParen | Done => inCommand := inCommand + 1;
        case If | LParen | While | Until => inCommand := inCommand - 1;
        case _ =>
      }
      if !(i > start) { return -1; }
      i := i - 1;
    }
  }

  /** The scan of an `if` for its last `then` and `else` and its `fi`. */
  method ScanIf(toks: seq<Token>, start: nat, end: nat) returns (m: Marks)
    ensures m == Scan(IfFrame, toks, start + 1, start + 1, end, 0, -1, -1)
  {
    var index, inCommand := start + 1, 0;
    var thenIndex, elseIndex, fiIndex := -1, -1, -1;
    while true
      invariant start + 1 <= index && fiIndex == -1
      invariant Scan(IfFrame, toks, start + 1, start + 1, end, 0, -1, -1)
             == Scan(IfFrame, toks, start + 1, index, end, inCommand, thenIndex, elseIndex)
      decreases end - index
    {
      if inCommand == 0 && index != start + 1 {
        match At(toks, index) {
          case Then => thenIndex := index;
          case Else => elseIndex := index;
          case Fi =>
            fiIndex := index;
            break;
          case _ =>
        }
      }
      match At(toks, index) {
        case Fi | RParen | Done => inCommand := inCommand - 1;
        case If | LParen | While | Until => inCommand := inCommand + 1;
        case _ =>
      }
      if !(index < end) { break; }
      index := index + 1;
    }
    m := Marks(thenIndex, elseIndex, fiIndex);
  }

  /** The scan of a `while` or `until` for its last `do` and its `done`. */
  method ScanLoop(toks: seq<Token>, start: nat, end: nat) returns (m: Marks)
    ensures m == Scan(LoopFrame, toks, start + 1, start + 1, end, 0, -1, -1)
  {
    var index, inCommand := start + 1, 0;
    var doIndex, doneIndex := -1, -1;
    while true
      invariant start + 1 <= index && doneIndex == -1
      invariant Scan(LoopFrame, toks, start + 1, start + 1, end, 0, -1, -1)
             == Scan(LoopFrame, toks, start + 1, index, end, inCommand, doIndex, -1)
      decreases end - index
    {
      if inCommand == 0 && index != start + 1 {
        if At(toks, index) == Done {
          doneIndex := index;
          break;
        } else if At(toks, index) == Do {
          doIndex := index;
        }
      }
      match At(toks, index) {
        case Fi | RParen | Done => inCommand := inCommand - 1;
        case If | LParen | While | Until => inCommand := inCommand + 1;
        case _ =>
      }
      if !(index < end) { break; }
      index := index + 1;
    }
    m := Marks(doIndex, -1, doneIndex);
  }

  /** The scan of a subshell for its right parenthesis. */
  method ScanParen(toks: seq<Token>, start: nat, end: nat) returns (close: int)
    ensures Marks(-1, -1, close) == Scan(ParenFrame, toks, start + 1, start + 1, end, 0, -1, -1)
  {
    var index, inCommand := start + 1, 0;
    close := -1;
    while true
      invariant start + 1 <= index && close == -1
      invariant Scan(ParenFrame, toks, start + 1, start + 1, end, 0, -1, -1)
             == Scan(ParenFrame, toks, start + 1, index, end, inCommand, -1, -1)
      decreases end - index
    {
      if inCommand == 0 && At(toks, index) == RParen {
        close := index;
        break;
      }
      match At(toks, index) {
        case Fi | RParen | Done => inCommand := inCommand - 1;
        case If | LParen | While | Until => inCommand := inCommand + 1;
        case _ =>
      }
      if !(index < end) { break; }
      index := index + 1;
    }
  }

  method ScanWords(toks: seq<Token>, start: nat, end: nat) returns (index: nat)
    ensures index == WordsEnd(toks, start, end)
  {
    index := start;
    while true
      invariant WordsEnd(toks, start, end) == WordsEnd(toks, index, end)
      decreases end - index
    {
      if !At(toks, index).Word? { break; }
      if !(index < end) {
        index := index + 1;
        break;
      }
      index := index + 1;
    }
  }

  // ------------------------------------------------------------ the parser

  method ParseRange(toks: seq<Token>, start: nat, end: nat) returns (r: Result<Command>)
    requires start <= |toks| && end <= |toks|
    ensures r == Parse(toks, start, end)
    decreases |toks| - start, end, 2
  {
    if EndsBadly(At(toks, end - 1)) { return Error(UnexpectedToken); }
    var i := ScanLeft(toks, start, end, Semi);
    if i >= 0 {
      r := ParseTwo(toks, start, i, end, Sequence);
      return;
    }
    i := ScanLeft(toks, start, end, Pipe);
    if i >= 0 {
      r := ParseTwo(toks, start, i, end, Pipeline);
      return;
    }
    match At(toks, start) {
      case If => r := ParseIfRange(toks, start, end);
      case While | Until => r := ParseLoopRange(toks, start, end);
      case LParen => r := ParseParenRange(toks, start, end);
      case Word(_) => r := ParseWordRange(toks, start, end);
      case _ => r := Error(InvalidToken);
    }
  }

  method ParseTwo(toks: seq<Token>, start: nat, i: nat, end: nat, sep: Separator) returns (r: Result<Command>)
    requires start <= i < end <= |toks|
    ensures r == ParseChain(toks, start, i, end, sep)
    decreases |toks| - start, end, 1
  {
    var left :- ParseRange(toks, start, i);
    var right :- ParseRange(toks, i + 1, end);
    return Ok(Chain(sep, left, right));
  }

  method CheckFailParse(toks: seq<Token>, start: nat, end: nat) returns (r: Result<Command>)
    requires start <= |toks| && end <= |toks|
    ensures r == Parse(toks, start, Trimmed(toks, end))
    decreases |toks| - start, end, 3
  {
    if At(toks, end - 1) == Semi {
      r := ParseRange(toks, start, end - 1);
    } else {
      r := ParseRange(toks, start, end);
    }
  }

  method ParseIfRange(toks: seq<Token>, start: nat, end: nat) returns (r: Result<Command>)
    requires start < |toks| && end <= |toks|
    ensures r == ParseIf(toks, start, end)
    decreases |toks| - start, end, 1
  {
    hide Parse, Scan, AddRedirects, Trimmed;
    var m := ScanIf(toks, start, end);
    if m.close == -1 { return Error(Expected(Fi)); }
    if m.mid == -1 { return Error(Expected(Then)); }
    var cond :- CheckFailParse(toks, start + 1, m.mid);
    var yes: Command, no: Option<Command>;
    if m.alt != -1 {
      yes :- CheckFailParse(toks, m.mid + 1, m.alt);
      var other :- CheckFailParse(toks, m.alt + 1, m.close);
      no := Some(other);
    } else {
      yes :- CheckFailParse(toks, m.mid + 1, m.close);
      no := None;
    }
    var io :- ReadRedirects(toks, m.close + 1, end, NO_REDIRECTS);
    return Ok(Conditional(cond, yes, no, io));
  }

  method ParseLoopRange(toks: seq<Token>, start: nat, end: nat) returns (r: Result<Command>)
    requires start < |toks| && end <= |toks|
    ensures r == ParseLoop(toks, start, end)
    decreases |toks| - start, end, 1
  {
    hide Parse, Scan, AddRedirects, Trimmed;
    var m := ScanLoop(toks, start, end);
    if m.close == -1 { return Error(Expected(Done)); }
    if m.mid == -1 { return Error(Expected(Do)); }
    var cond :- CheckFailParse(toks, start + 1, m.mid);
    var body :- CheckFailParse(toks, m.mid + 1, m.close);
    var io :- ReadRedirects(toks, m.close + 1, end, NO_REDIRECTS);
    return Ok(Loop(toks[start] == Until, cond, body, io));
  }

  method ParseParenRange(toks: seq<Token>, start: nat, end: nat) returns (r: Result<Command>)
    requires start < |toks| && end <= |toks|
    ensures r == ParseSubshell(toks, start, end)
    decreases |toks| - start, end, 1
  {
    hide Parse, Scan, AddRedirects, Trimmed;
    var close := ScanParen(toks, start, end);
    if close == -1 { return Error(Expected(RParen)); }
    var body :- CheckFailParse(toks, start + 1, close);
    var io :- ReadRedirects(toks, close + 1, end, NO_REDIRECTS);
    return Ok(Subshell(body, io));
  }

  method ParseWordRange(toks: seq<Token>, start: nat, end: nat) returns (r: Result<Command>)
    requires start < |toks| && end <= |toks|
    ensures r == ParseSimple(toks, start, end)
  {
    var index := ScanWords(toks, start, end);
    var words: seq<string> := [];
    var i := start;
    while i < index
      invariant start <= i <= index
      invariant words + Texts(toks, i, index) == Texts(toks, start, index)
    {
      words := words + [Spelling(At(toks, i))];
      i := i + 1;
    }
    assert words + [] == words;
    var io :- ReadRedirects(toks, index, end, NO_REDIRECTS);
    return Ok(Simple(words, io));
  }

  method ReadRedirects(toks: seq<Token>, start: nat, end: nat, io: Redirects) returns (r: Result<Redirects>)
    ensures r == AddRedirects(toks, start, end, io)
    decreases end - start
  {
    if start >= end { return Ok(io); }
    var io' := io;
    if At(toks, start) == Less && end > start + 1 {
      if io.input != None { return Error(InvalidRedirection); }
      io' := io.(input := Some(Spelling(At(toks, start + 1))));
    } else if At(toks, start) == Greater && end > start + 1 {
      if io.output != None { return Error(InvalidRedirection); }
      io' := io.(output := Some(Spelling(At(toks, start + 1))));
    } else {
      return Error(UnexpectedToken);
    }
    r := ReadRedirects(toks, start + 2, end, io');
  }
}
