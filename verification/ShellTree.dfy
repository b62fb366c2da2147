/** Tokens and command trees of Shell_Interpreter, the texts that spell a tree,
    and the one text that print-command.c prints. */
module ShellTree {
  import opened Common

  /** `Absent` stands for whatever lies outside the token array. */
  datatype Token =
    | If | Then | Fi | Else | While | Until | Do | Done | Word(text: string)
    | Semi | Pipe | LParen | RParen | Less | Greater | Newline | Colon | Absent

  datatype Redirects = Redirects(input: Option<string>, output: Option<string>)

  datatype Separator = Sequence | Pipeline

  /** SEQUENCE and PIPE commands never carry redirects. */
  datatype Command =
    | Simple(words: seq<string>, io: Redirects)
    | Chain(sep: Separator, left: Command, right: Command)
    | Conditional(cond: Command, yes: Command, no: Option<Command>, io: Redirects)
    | Loop(until: bool, cond: Command, body: Command, io: Redirects)
    | Subshell(body: Command, io: Redirects)

  // ------------------------------------------------------------ spelled-out trees

  /** A tree together with what a text may choose: the order of the redirects
      and a semicolon before the word that ends a body. */
  datatype Io =
    | NoIo | In(file: string) | Out(file: string)
    | InOut(file: string, out: string) | OutIn(file: string, inp: string)

  datatype Body = Body(text: Source, semi: bool)

  datatype Source =
    | SimpleText(words: seq<string>, io: Io)
    | ChainText(sep: Separator, left: Source, right: Source)
    | IfText(cond: Body, yes: Body, no: Option<Body>, io: Io)
    | LoopText(until: bool, cond: Body, body: Body, io: Io)
    | ParenText(body: Body, io: Io)

  function IoOf(io: Io): Redirects {
    match io
    case NoIo => Redirects(None, None)
    case In(f) => Redirects(Some(f), None)
    case Out(f) => Redirects(None, Some(f))
    case InOut(f, g) => Redirects(Some(f), Some(g))
    case OutIn(g, f) => Redirects(Some(f), Some(g))
  }

  function TreeOf(s: Source): Command {
    match s
    case SimpleText(ws, io) => Simple(ws, IoOf(io))
    case ChainText(sep, l, r) => Chain(sep, TreeOf(l), TreeOf(r))
    case IfText(c, y, n, io) =>
      Conditional(TreeOf(c.text), TreeOf(y.text), if n.None? then None else Some(TreeOf(n.value.text)), IoOf(io))
    case LoopText(u, c, b, io) => Loop(u, TreeOf(c.text), TreeOf(b.text), IoOf(io))
    case ParenText(b, io) => Subshell(TreeOf(b.text), IoOf(io))
  }

  function WordTokens(ws: seq<string>): seq<Token> {
    seq(|ws|, i requires 0 <= i < |ws| => Word(ws[i]))
  }

  function IoTokens(io: Io): seq<Token> {
    match io
    case NoIo => []
    case In(f) => [Less, Word(f)]
    case Out(f) => [Greater, Word(f)]
    case InOut(f, g) => [Less, Word(f), Greater, Word(g)]
    case OutIn(g, f) => [Greater, Word(g), Less, Word(f)]
  }

  function SepToken(sep: Separator): Token { if sep == Sequence then Semi else Pipe }

  function Tokens(s: Source): seq<Token> {
    match s
    case SimpleText(ws, io) => WordTokens(ws) + IoTokens(io)
    case ChainText(sep, l, r) => Tokens(l) + [SepToken(sep)] + Tokens(r)
    case IfText(c, y, n, io) =>
      [If] + (Tokens(c.text) + Stop(c) + [Then] + (Tokens(y.text) + Stop(y))
              + (if n.None? then [] else [Else] + (Tokens(n.value.text) + Stop(n.value)))) + [Fi] + IoTokens(io)
    case LoopText(u, c, b, io) =>
      [if u then Until else While]
      + (Tokens(c.text) + Stop(c) + [Do] + (Tokens(b.text) + Stop(b))) + [Done] + IoTokens(io)
    case ParenText(b, io) =>
      [LParen] + (Tokens(b.text) + Stop(b)) + [RParen] + IoTokens(io)
  }

  function Stop(b: Body): seq<Token> { if b.semi then [Semi] else [] }

  function BodyTokens(b: Body): seq<Token> { Tokens(b.text) + Stop(b) }

  predicate IsSequence(s: Source) { s.ChainText? && s.sep == Sequence }

  /** Sequences nest to the left, of pipelines that nest to the left, of commands
      that are neither; a simple command has a word. */
  predicate Normal(s: Source) {
    match s
    case SimpleText(ws, _) => ws != []
    case ChainText(Sequence, l, r) => Normal(l) && Normal(r) && !IsSequence(r)
    case ChainText(Pipeline, l, r) => Normal(l) && Normal(r) && !IsSequence(l) && !r.ChainText?
    case IfText(c, y, n, _) => Normal(c.text) && Normal(y.text) && (n.Some? ==> Normal(n.value.text))
    case LoopText(_, c, b, _) => Normal(c.text) && Normal(b.text)
    case ParenText(b, _) => Normal(b.text)
  }

  // ------------------------------------------------------------ printing

  function PrintedIo(io: Redirects): seq<Token> {
    (if io.input.Some? then [Less, Word(io.input.value)] else [])
    + (if io.output.Some? then [Greater, Word(io.output.value)] else [])
  }

  /** The tokens of `command_indented_print`, in its order. */
  function Printed(c: Command): seq<Token> {
    match c
    case Conditional(cond, yes, no, io) =>
      [If] + (Printed(cond) + [Then] + Printed(yes)
              + (if no.None? then [] else [Else] + Printed(no.value))) + [Fi] + PrintedIo(io)
    case Loop(until, cond, body, io) =>
      [if until then Until else While] + (Printed(cond) + [Do] + Printed(body)) + [Done] + PrintedIo(io)
    case Chain(sep, l, r) => Printed(l) + [SepToken(sep)] + Printed(r)
    case Simple(ws, io) => WordTokens(ws) + PrintedIo(io)
    case Subshell(b, io) => [LParen] + Printed(b) + [RParen] + PrintedIo(io)
  }

  function IoText(io: Redirects): (r: Io)
    ensures IoOf(r) == io && IoTokens(r) == PrintedIo(io)
  {
    if io.input.Some? then if io.output.Some? then InOut(io.input.value, io.output.value) else In(io.input.value)
    else if io.output.Some? then Out(io.output.value) else NoIo
  }

  function TextOf(c: Command): Source {
    match c
    case Simple(ws, io) => SimpleText(ws, IoText(io))
    case Chain(sep, l, r) => ChainText(sep, TextOf(l), TextOf(r))
    case Conditional(c, y, n, io) =>
      IfText(Body(TextOf(c), false), Body(TextOf(y), false),
        if n.None? then None else Some(Body(TextOf(n.value), false)), IoText(io))
    case Loop(u, c, b, io) => LoopText(u, Body(TextOf(c), false), Body(TextOf(b), false), IoText(io))
    case Subshell(b, io) => ParenText(Body(TextOf(b), false), IoText(io))
  }

  lemma NothingAdded(b: Body)
    requires !b.semi
    ensures Tokens(b.text) + Stop(b) == Tokens(b.text)
  {
  }

  /** What is printed spells the tree that is printed. */
  lemma {:induction false} PrintedSpells(c: Command)
    ensures TreeOf(TextOf(c)) == c
    ensures Tokens(TextOf(c)) == Printed(c)
  {
    match c
    case Simple(_, _) =>
    case Chain(_, l, r) =>
      PrintedSpells(l);
      PrintedSpells(r);
    case Conditional(cond, yes, no, _) =>
      PrintedSpells(cond);
      PrintedSpells(yes);
      var t := TextOf(c);
      NothingAdded(t.cond);
      NothingAdded(t.yes);
      if no.Some? {
        PrintedSpells(no.value);
        NothingAdded(t.no.value);
      }
      hide Stop;
    case Loop(_, cond, body, _) =>
      PrintedSpells(cond);
      PrintedSpells(body);
      NothingAdded(TextOf(c).cond);
      NothingAdded(TextOf(c).body);
    case Subshell(b, _) =>
      PrintedSpells(b);
      NothingAdded(TextOf(c).body);
  }
}
