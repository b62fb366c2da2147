/** What the nesting counter sees in the text of a well-formed tree, and why the
    scans of the parser stop where the tree says. */
module ShellNesting {
  import opened Common
  import opened ShellTree
  import opened ShellParser

  function Bal(x: seq<Token>): int {
    if x == [] then 0 else Delta(x[0]) + Bal(x[1..])
  }

  predicate IsMark(t: Token) { t == Then || t == Else || t == Fi || t == Do || t == Done || t == RParen }

  predicate Barred(t: Token, semi: bool, pipe: bool) { IsMark(t) || (semi && t == Semi) || (pipe && t == Pipe) }

  /** Read from nesting `d` on, `x` never goes below the outside, and outside every
      nesting it has none of the words that end bodies, nor the separators named. */
  predicate Calm(x: seq<Token>, d: int, semi: bool, pipe: bool) {
    x == [] || (d >= 0 && (d == 0 ==> !Barred(x[0], semi, pipe)) && Calm(x[1..], d + Delta(x[0]), semi, pipe))
  }

  lemma {:induction false} BalAppend(x: seq<Token>, y: seq<Token>)
    ensures Bal(x + y) == Bal(x) + Bal(y)
  {
    if x == [] {
      assert x + y == y;
    } else {
      assert (x + y)[1..] == x[1..] + y;
      BalAppend(x[1..], y);
    }
  }

  lemma {:induction false} CalmAppend(x: seq<Token>, y: seq<Token>, d: int, semi: bool, pipe: bool)
    ensures Calm(x + y, d, semi, pipe) <==> Calm(x, d, semi, pipe) && Calm(y, d + Bal(x), semi, pipe)
  {
    if x == [] {
      assert x + y == y;
    } else {
      assert (x + y)[1..] == x[1..] + y;
      CalmAppend(x[1..], y, d + Delta(x[0]), semi, pipe);
    }
  }

  /** One level deeper nothing is outside any more. */
  lemma {:induction false} CalmDeeper(x: seq<Token>, d: int, semi: bool, pipe: bool)
    requires d >= 0 && Calm(x, d, false, false)
    ensures Calm(x, d + 1, semi, pipe)
  {
    if x != [] { CalmDeeper'(x, d, semi, pipe); }
  }

  lemma {:induction false} CalmDeeper'(x: seq<Token>, d: int, semi: bool, pipe: bool)
    requires Calm(x, d, false, false)
    ensures Calm(x, d + 1, semi, pipe)
  {
    if x != [] { CalmDeeper'(x[1..], d + Delta(x[0]), semi, pipe); }
  }

  lemma {:induction false} CalmWeaker(x: seq<Token>, d: int, semi: bool, pipe: bool)
    requires Calm(x, d, semi, pipe)
    ensures Calm(x, d, false, false) && Calm(x, d, semi, false)
  {
    if x != [] { CalmWeaker(x[1..], d + Delta(x[0]), semi, pipe); }
  }

  lemma {:induction false} CalmAt(x: seq<Token>, d: int, semi: bool, pipe: bool, k: nat)
    requires Calm(x, d, semi, pipe) && k < |x| && d + Bal(x[..k]) == 0
    ensures !Barred(x[k], semi, pipe)
  {
    if k > 0 {
      assert x[..k][1..] == x[1..][..k - 1];
      CalmAt(x[1..], d + Delta(x[0]), semi, pipe, k - 1);
    }
  }

  // ------------------------------------------------------------ texts of trees

  lemma {:induction false} PlainWords(x: seq<Token>, semi: bool, pipe: bool)
    requires forall i :: 0 <= i < |x| ==> x[i].Word? || x[i] == Less || x[i] == Greater
    ensures Bal(x) == 0 && Calm(x, 0, semi, pipe)
  {
    if x != [] { PlainWords(x[1..], semi, pipe); }
  }

  /** A compound command: everything between its first and last word is nested. */
  lemma CompoundCalm(open: Token, inner: seq<Token>, close: Token, tail: seq<Token>)
    requires Delta(open) == 1 && Delta(close) == -1
    requires Bal(inner) == 0 && Calm(inner, 1, true, true)
    requires Bal(tail) == 0 && Calm(tail, 0, true, true)
    ensures Bal([open] + inner + [close] + tail) == 0 && Calm([open] + inner + [close] + tail, 0, true, true)
  {
    BalAppend([open] + inner + [close], tail);
    BalAppend([open] + inner, [close]);
    BalAppend([open], inner);
    CalmAppend([open] + inner + [close], tail, 0, true, true);
    CalmAppend([open] + inner, [close], 0, true, true);
    CalmAppend([open], inner, 0, true, true);
    assert Bal([open]) == 1 && Bal([close]) == -1;
  }

  lemma JoinedCalm(x: seq<Token>, t: Token, y: seq<Token>, d: int, semi: bool, pipe: bool)
    requires Bal(x) == 0 && Calm(x, d, semi, pipe) && Bal(y) == 0 && Calm(y, d, semi, pipe)
    requires Delta(t) == 0 && d >= 0 && (d > 0 || !Barred(t, semi, pipe))
    ensures Bal(x + [t] + y) == 0 && Calm(x + [t] + y, d, semi, pipe)
  {
    assert Bal([t]) == 0 && Calm([t], d, semi, pipe);
    BalAppend(x, [t]);
    CalmAppend(x, [t], d, semi, pipe);
    BalAppend(x + [t], y);
    CalmAppend(x + [t], y, d, semi, pipe);
  }

  lemma IoCalm(io: Io)
    ensures Bal(IoTokens(io)) == 0 && Calm(IoTokens(io), 0, true, true)
  {
    PlainWords(IoTokens(io), true, true);
  }

  lemma SimpleCalm(ws: seq<string>, io: Io)
    ensures Bal(WordTokens(ws) + IoTokens(io)) == 0 && Calm(WordTokens(ws) + IoTokens(io), 0, true, true)
  {
    PlainWords(WordTokens(ws) + IoTokens(io), true, true);
  }

  lemma IfShape(c: Body, y: Body, n: Option<Body>, io: Io)
    ensures Tokens(IfText(c, y, n, io)) ==
      if n.None? then [If] + (BodyTokens(c) + [Then] + BodyTokens(y)) + [Fi] + IoTokens(io)
      else [If] + (BodyTokens(c) + [Then] + BodyTokens(y) + [Else] + BodyTokens(n.value)) + [Fi] + IoTokens(io)
  {
    hide Stop, IoTokens;
    var front := BodyTokens(c) + [Then] + BodyTokens(y);
    if n.None? {
      assert front + [] == front;
    } else {
      assert front + ([Else] + BodyTokens(n.value)) == front + [Else] + BodyTokens(n.value);
    }
  }

  /** The counter comes back to zero over a whole tree; outside any nesting there
      are separators only where the tree itself is a chain. */
  lemma {:induction false} TokensCalm(s: Source)
    requires Normal(s)
    ensures Bal(Tokens(s)) == 0
    ensures Calm(Tokens(s), 0, !IsSequence(s), !s.ChainText?)
    ensures Calm(Tokens(s), 0, false, false)
    decreases s, 1
  {
    hide Calm, Bal, WordTokens, IoTokens, Stop;
    match s {
      case SimpleText(ws, io) => SimpleCalm(ws, io);
      case ChainText(_, _, _) => ChainCalm(s);
      case IfText(_, _, _, _) => IfCalm(s);
      case LoopText(_, _, _, _) => LoopCalm(s);
      case ParenText(b, io) =>
        BodyCalm(b);
        IoCalm(io);
        CompoundCalm(LParen, BodyTokens(b), RParen, IoTokens(io));
    }
    hide Tokens;
    CalmWeaker(Tokens(s), 0, !IsSequence(s), !s.ChainText?);
  }

  lemma {:induction false} ChainCalm(s: Source)
    requires Normal(s) && s.ChainText?
    ensures Bal(Tokens(s)) == 0 && Calm(Tokens(s), 0, !IsSequence(s), false)
    decreases s, 0
  {
    hide Calm, Bal;
    TokensCalm(s.left);
    TokensCalm(s.right);
    var (x, y) := (Tokens(s.left), Tokens(s.right));
    assert Tokens(s) == x + [SepToken(s.sep)] + y;
    hide Tokens;
    CalmWeaker(x, 0, !IsSequence(s.left), !s.left.ChainText?);
    CalmWeaker(y, 0, !IsSequence(s.right), !s.right.ChainText?);
    JoinedCalm(x, SepToken(s.sep), y, 0, !IsSequence(s), false);
  }

  lemma {:induction false} IfCalm(s: Source)
    requires Normal(s) && s.IfText?
    ensures Bal(Tokens(s)) == 0 && Calm(Tokens(s), 0, true, true)
    decreases s, 0
  {
    hide Calm, Bal, WordTokens, IoTokens, Stop;
    var (c, y, n, io) := (s.cond, s.yes, s.no, s.io);
    IfShape(c, y, n, io);
    BodyCalm(c);
    BodyCalm(y);
    if n.Some? { BodyCalm(n.value); }
    hide Tokens;
    var front := BodyTokens(c) + [Then] + BodyTokens(y);
    JoinedCalm(BodyTokens(c), Then, BodyTokens(y), 1, true, true);
    IoCalm(io);
    if n.Some? {
      JoinedCalm(front, Else, BodyTokens(n.value), 1, true, true);
      CompoundCalm(If, front + [Else] + BodyTokens(n.value), Fi, IoTokens(io));
    } else {
      CompoundCalm(If, front, Fi, IoTokens(io));
    }
  }

  lemma {:induction false} LoopCalm(s: Source)
    requires Normal(s) && s.LoopText?
    ensures Bal(Tokens(s)) == 0 && Calm(Tokens(s), 0, true, true)
    decreases s, 0
  {
    hide Calm, Bal, WordTokens, IoTokens, Stop;
    BodyCalm(s.cond);
    BodyCalm(s.body);
    JoinedCalm(BodyTokens(s.cond), Do, BodyTokens(s.body), 1, true, true);
    IoCalm(s.io);
    var first := if s.until then Until else While;
    CompoundCalm(first, BodyTokens(s.cond) + [Do] + BodyTokens(s.body), Done, IoTokens(s.io));
  }

  lemma {:induction false} BodyCalm(b: Body)
    requires Normal(b.text)
    ensures Bal(BodyTokens(b)) == 0
    ensures Calm(BodyTokens(b), 1, true, true) && Calm(BodyTokens(b), 0, false, false)
    decreases b, 0
  {
    TokensCalm(b.text);
    hide Tokens;
    if b.semi { assert Stop(b) == [Semi] && [Semi][1..] == []; }
    assert Bal(Stop(b)) == 0 && Calm(Stop(b), 0, false, false);
    hide Bal, Calm, Stop;
    BalAppend(Tokens(b.text), Stop(b));
    CalmAppend(Tokens(b.text), Stop(b), 0, false, false);
    CalmDeeper(BodyTokens(b), 0, true, true);
  }

  predicate Starts(t: Token) { t.Word? || t == If || t == While || t == Until || t == LParen }

  predicate EndsWell(x: seq<Token>) { x != [] && Starts(x[0]) && !EndsBadly(x[|x| - 1]) }

  lemma CompoundEnds(open: Token, inner: seq<Token>, close: Token, io: Io)
    requires Starts(open) && !EndsBadly(close)
    ensures EndsWell([open] + inner + [close] + IoTokens(io))
  {
    var x := [open] + inner + [close];
    assert (x + IoTokens(io))[0] == open;
    if io == NoIo { assert x + IoTokens(io) == x; }
  }

  /** A tree begins with a word or an opening and ends with neither a separator
      nor a redirection sign. */
  lemma {:induction false} TokensEnds(s: Source)
    requires Normal(s)
    ensures EndsWell(Tokens(s))
  {
    hide IoTokens, Stop;
    match s
    case ChainText(sep, l, r) =>
      TokensEnds(l);
      TokensEnds(r);
    case SimpleText(ws, io) =>
      assert Tokens(s)[0] == WordTokens(ws)[0];
      SimpleEnds(ws, io);
    case IfText(c, y, n, io) =>
      IfShape(c, y, n, io);
      var front := BodyTokens(c) + [Then] + BodyTokens(y);
      CompoundEnds(If, if n.None? then front else front + [Else] + BodyTokens(n.value), Fi, io);
    case LoopText(u, c, b, io) =>
      CompoundEnds(if u then Until else While, BodyTokens(c) + [Do] + BodyTokens(b), Done, io);
    case ParenText(b, io) =>
      CompoundEnds(LParen, BodyTokens(b), RParen, io);
  }

  lemma SimpleEnds(ws: seq<string>, io: Io)
    requires ws != []
    ensures EndsWell(WordTokens(ws) + IoTokens(io))
  {
    if io == NoIo { assert WordTokens(ws) + IoTokens(io) == WordTokens(ws); }
  }

  // ------------------------------------------------------------ scans over calm text

  /** `x` lies in the array at `i`. */
  predicate Lies(toks: seq<Token>, i: int, x: seq<Token>) {
    0 <= i && i + |x| <= |toks| && forall k :: 0 <= k < |x| ==> toks[i + k] == x[k]
  }

  lemma LiesSlice(toks: seq<Token>, i: int, x: seq<Token>)
    ensures Lies(toks, i, x) <==> 0 <= i && i + |x| <= |toks| && toks[i..i + |x|] == x
  {
    if 0 <= i && i + |x| <= |toks| && toks[i..i + |x|] == x {
      forall k | 0 <= k < |x| ensures toks[i + k] == x[k] {
        assert toks[i..i + |x|][k] == x[k];
      }
    }
  }

  lemma LiesParts(toks: seq<Token>, i: int, x: seq<Token>, y: seq<Token>)
    requires Lies(toks, i, x + y)
    ensures Lies(toks, i, x) && Lies(toks, i + |x|, y)
  {
    forall k | 0 <= k < |x| ensures toks[i + k] == x[k] {
      assert (x + y)[k] == x[k];
    }
    forall k | 0 <= k < |y| ensures toks[i + |x| + k] == y[k] {
      assert (x + y)[|x| + k] == y[k];
    }
  }

  lemma LiesAt(toks: seq<Token>, i: int, x: seq<Token>, k: nat)
    requires Lies(toks, i, x) && k < |x|
    ensures At(toks, i + k) == x[k]
  {
  }

  /** One token that is not seen outside every nesting. */
  lemma ScanStep(f: Frame, toks: seq<Token>, first: int, index: int, end: int, d: int, mid: int, alt: int)
    requires first <= index < end && (d == 0 ==> !IsMark(At(toks, index)))
    ensures Scan(f, toks, first, index, end, d, mid, alt)
        == Scan(f, toks, first, index + 1, end, d + Delta(At(toks, index)), mid, alt)
  {
  }

  lemma CalmStep(x: seq<Token>, d: int)
    requires x != [] && Calm(x, d, false, false)
    ensures d == 0 ==> !IsMark(x[0])
    ensures Bal(x) == Delta(x[0]) + Bal(x[1..]) && Calm(x[1..], d + Delta(x[0]), false, false)
  {
  }

  lemma FirstLies(toks: seq<Token>, i: int, x: seq<Token>)
    requires Lies(toks, i, x) && x != []
    ensures At(toks, i) == x[0] && Lies(toks, i + 1, x[1..])
  {
    assert x == [x[0]] + x[1..];
    LiesParts(toks, i, [x[0]], x[1..]);
  }

  /** The scan to the right passes over calm text without seeing anything. */
  lemma {:induction false} ScanPasses(
      f: Frame, toks: seq<Token>, first: int, index: int, end: int, d: int, mid: int, alt: int, x: seq<Token>)
    requires first <= index && index + |x| <= end && Lies(toks, index, x)
    requires Calm(x, d, false, false)
    ensures Scan(f, toks, first, index, end, d, mid, alt)
        == Scan(f, toks, first, index + |x|, end, d + Bal(x), mid, alt)
    decreases |x|
  {
    hide Scan, Calm, Lies, Delta, At, IsMark;
    if x == [] {
      assert Bal(x) == 0;
    } else {
      CalmStep(x, d);
      FirstLies(toks, index, x);
      ScanStep(f, toks, first, index, end, d, mid, alt);
      hide Bal;
      ScanPasses(f, toks, first, index + 1, end, d + Delta(x[0]), mid, alt, x[1..]);
    }
  }

  /** The scan to the left passes over text without its separator outside. */
  lemma {:induction false} SplitPasses(
      toks: seq<Token>, start: int, i: int, x: seq<Token>, sep: Token, d: int, semi: bool, pipe: bool)
    requires start <= i && Lies(toks, i, x) && Calm(x, d, semi, pipe)
    requires (sep == Semi && semi) || (sep == Pipe && pipe)
    requires x != []
    ensures SplitAt(toks, start, i + |x| - 1, d + Bal(x), sep)
        == if i > start then SplitAt(toks, start, i - 1, d, sep) else -1
    decreases |x|
  {
    var n := |x| - 1;
    var t := x[n];
    assert x == x[..n] + [t];
    BalAppend(x[..n], [t]);
    assert Bal([t]) == Delta(t);
    CalmAppend(x[..n], [t], d, semi, pipe);
    LiesAt(toks, i, x, n);
    LiesParts(toks, i, x[..n], [t]);
    hide Lies;
    assert !(d + Bal(x) == 0 && t == sep);
    hide Calm, Bal;
    if n > 0 {
      SplitPasses(toks, start, i, x[..n], sep, d, semi, pipe);
    }
  }
}
