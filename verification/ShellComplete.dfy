/** Every text of a well-formed tree parses to that tree. */
module ShellComplete {
  import opened Common
  import opened ShellTree
  import opened ShellParser
  import opened ShellNesting

  lemma NoSplit(toks: seq<Token>, start: int, x: seq<Token>)
    requires Lies(toks, start, x) && x != [] && Bal(x) == 0 && Calm(x, 0, true, true)
    ensures SplitAt(toks, start, start + |x| - 1, 0, Semi) == -1
    ensures SplitAt(toks, start, start + |x| - 1, 0, Pipe) == -1
  {
    hide SplitAt;
    SplitPasses(toks, start, start, x, Semi, 0, true, true);
    SplitPasses(toks, start, start, x, Pipe, 0, true, true);
  }

  // ------------------------------------------------------------ words and redirects

  lemma {:induction false} WordsEndAt(toks: seq<Token>, i: int, end: int, n: nat)
    requires 0 <= i && i + n <= end && end <= |toks|
    requires forall k :: i <= k < i + n ==> toks[k].Word?
    requires !At(toks, i + n).Word?
    ensures WordsEnd(toks, i, end) == i + n
    decreases n
  {
    if n > 0 { WordsEndAt(toks, i + 1, end, n - 1); }
  }

  lemma {:induction false} TextsOf(toks: seq<Token>, i: int, ws: seq<string>)
    requires Lies(toks, i, WordTokens(ws))
    ensures Texts(toks, i, i + |ws|) == ws
    decreases |ws|
  {
    if ws != [] {
      assert WordTokens(ws) == [Word(ws[0])] + WordTokens(ws[1..]);
      LiesParts(toks, i, [Word(ws[0])], WordTokens(ws[1..]));
      LiesAt(toks, i, [Word(ws[0])], 0);
      TextsOf(toks, i + 1, ws[1..]);
    }
  }

  lemma OneRedirect(toks: seq<Token>, i: nat, end: nat, io: Redirects)
    requires i + 2 <= end && At(toks, i + 1).Word?
    requires (At(toks, i) == Less && io.input == None) || (At(toks, i) == Greater && io.output == None)
    ensures AddRedirects(toks, i, end, io) == AddRedirects(toks, i + 2, end,
      if At(toks, i) == Less then io.(input := Some(At(toks, i + 1).text))
        else io.(output := Some(At(toks, i + 1).text)))
  {
  }

  lemma RedirectsParse(toks: seq<Token>, i: nat, io: Io)
    requires Lies(toks, i, IoTokens(io))
    ensures AddRedirects(toks, i, i + |IoTokens(io)|, NO_REDIRECTS) == Ok(IoOf(io))
  {
    var x := IoTokens(io);
    if io != NoIo {
      LiesAt(toks, i, x, 0);
      LiesAt(toks, i, x, 1);
      OneRedirect(toks, i, i + |x|, NO_REDIRECTS);
      if |x| == 4 {
        LiesAt(toks, i, x, 2);
        LiesAt(toks, i, x, 3);
        OneRedirect(toks, i + 2, i + |x|, if io.InOut? then IoOf(In(io.file)) else IoOf(Out(io.file)));
      }
    }
  }

  // ------------------------------------------------------------ marks

  lemma FirstOf(toks: seq<Token>, i: int, t: Token, y: seq<Token>)
    requires Lies(toks, i, [t] + y)
    ensures At(toks, i) == t && Lies(toks, i + 1, y)
  {
    LiesParts(toks, i, [t], y);
    LiesAt(toks, i, [t], 0);
  }

  lemma AfterPart(toks: seq<Token>, i: int, x: seq<Token>, t: Token, y: seq<Token>)
    requires Lies(toks, i, x + [t] + y)
    ensures Lies(toks, i, x) && At(toks, i + |x|) == t && Lies(toks, i + |x| + 1, y)
  {
    assert x + [t] + y == x + ([t] + y);
    LiesParts(toks, i, x, [t] + y);
    FirstOf(toks, i + |x|, t, y);
  }

  /** The scan finds the closing word behind calm text. */
  lemma ScanCloses(f: Frame, toks: seq<Token>, first: int, i: int, end: int, mid: int, alt: int, x: seq<Token>)
    requires first <= i && (first < i || x != [] || f == ParenFrame)
    requires Lies(toks, i, x) && Bal(x) == 0 && Calm(x, 0, false, false) && i + |x| <= end
    requires IsClose(f, At(toks, i + |x|))
    ensures Scan(f, toks, first, i, end, 0, mid, alt) == Marks(mid, alt, i + |x|)
  {
    ScanPasses(f, toks, first, i, end, 0, mid, alt, x);
  }

  lemma ScanMarks(f: Frame, toks: seq<Token>, first: int, i: int, end: int, mid: int, alt: int, x: seq<Token>)
    requires first <= i && (first < i || x != [])
    requires Lies(toks, i, x) && Bal(x) == 0 && Calm(x, 0, false, false) && i + |x| < end
    requires IsMid(f, At(toks, i + |x|)) || IsAlt(f, At(toks, i + |x|))
    ensures Scan(f, toks, first, i, end, 0, mid, alt) ==
      if IsMid(f, At(toks, i + |x|)) then Scan(f, toks, first, i + |x| + 1, end, 0, i + |x|, alt)
      else Scan(f, toks, first, i + |x| + 1, end, 0, mid, i + |x|)
  {
    ScanPasses(f, toks, first, i, end, 0, mid, alt, x);
  }

  // ------------------------------------------------------------ the theorem

  /** The tokens of `s` from `start` on, with no further word behind them. */
  predicate Written(toks: seq<Token>, start: nat, s: Source) {
    Lies(toks, start, Tokens(s)) && !At(toks, start + |Tokens(s)|).Word?
  }

  /** Whatever stands before and behind it in the array, a text of a well-formed
      tree parses, and to that tree: with or without the semicolons that may be
      left out, and with the redirects in either order. */
  lemma {:induction false} ParseComplete(toks: seq<Token>, start: nat, s: Source)
    requires Normal(s) && Written(toks, start, s)
    ensures Parse(toks, start, start + |Tokens(s)|) == Ok(TreeOf(s))
    decreases s, 2
  {
    match s {
      case SimpleText(_, _) => SimpleCompletes(toks, start, s);
      case ChainText(_, _, _) => ChainCompletes(toks, start, s);
      case IfText(_, _, _, _) => IfCompletes(toks, start, s);
      case LoopText(_, _, _, _) => LoopCompletes(toks, start, s);
      case ParenText(_, _) => ParenCompletes(toks, start, s);
    }
  }

  lemma Undivided(toks: seq<Token>, start: nat, s: Source)
    requires Normal(s) && Written(toks, start, s) && !s.ChainText?
    ensures start + |Tokens(s)| <= |toks| && |Tokens(s)| > 0 && At(toks, start) == Tokens(s)[0]
    ensures Parse(toks, start, start + |Tokens(s)|) == ParseOne(toks, start, start + |Tokens(s)|)
  {
    hide Tokens, TreeOf, Calm, Bal, Normal, ParseOne, Starts, Parse;
    TokensEnds(s);
    TokensCalm(s);
    UndividedTokens(toks, start, Tokens(s));
  }

  lemma UndividedTokens(toks: seq<Token>, start: nat, x: seq<Token>)
    requires Lies(toks, start, x) && x != [] && !EndsBadly(x[|x| - 1]) && Bal(x) == 0 && Calm(x, 0, true, true)
    ensures At(toks, start) == x[0]
    ensures Parse(toks, start, start + |x|) == ParseOne(toks, start, start + |x|)
  {
    LiesAt(toks, start, x, 0);
    LiesAt(toks, start, x, |x| - 1);
    NoSplit(toks, start, x);
    hide SplitAt, ParseOne, Lies, Calm, Bal, ParseChain;
  }

  lemma AfterWords(toks: seq<Token>, i: nat, io: Io)
    requires Lies(toks, i, IoTokens(io)) && !At(toks, i + |IoTokens(io)|).Word?
    ensures !At(toks, i).Word?
  {
    if io != NoIo { LiesAt(toks, i, IoTokens(io), 0); }
  }

  lemma AllWords(toks: seq<Token>, i: nat, ws: seq<string>)
    requires Lies(toks, i, WordTokens(ws))
    ensures i + |ws| <= |toks| && forall k :: i <= k < i + |ws| ==> toks[k].Word?
  {
    forall k | i <= k < i + |ws| ensures toks[k].Word? {
      assert WordTokens(ws)[k - i].Word?;
    }
  }

  lemma SimpleAssembles(toks: seq<Token>, start: nat, ws: seq<string>, io: Io, rest: nat, end: nat)
    requires ws != [] && rest == start + |ws| && end == rest + |IoTokens(io)|
    requires Lies(toks, start, WordTokens(ws)) && Lies(toks, rest, IoTokens(io)) && !At(toks, end).Word?
    ensures ParseSimple(toks, start, end) == Ok(Simple(ws, IoOf(io)))
  {
    assert end <= |toks|;
    AfterWords(toks, rest, io);
    AllWords(toks, start, ws);
    TextsOf(toks, start, ws);
    RedirectsParse(toks, rest, io);
    hide AddRedirects, Texts, WordsEnd, Lies, IoTokens, IoOf, WordTokens, At;
    WordsEndAt(toks, start, end, |ws|);
  }

  lemma SimpleCompletes(toks: seq<Token>, start: nat, s: Source)
    requires Normal(s) && Written(toks, start, s) && s.SimpleText?
    ensures Parse(toks, start, start + |Tokens(s)|) == Ok(TreeOf(s))
  {
    Undivided(toks, start, s);
    assert Tokens(s)[0] == WordTokens(s.words)[0];
    hide Parse, ParseSimple;
    LiesParts(toks, start, WordTokens(s.words), IoTokens(s.io));
    SimpleAssembles(toks, start, s.words, s.io, start + |s.words|, start + |Tokens(s)|);
  }

  lemma ChainShape(s: Source)
    requires Normal(s) && s.ChainText?
    ensures Tokens(s) == Tokens(s.left) + [SepToken(s.sep)] + Tokens(s.right)
    ensures TreeOf(s) == Chain(s.sep, TreeOf(s.left), TreeOf(s.right))
    ensures Normal(s.left) && Normal(s.right) && if s.sep == Sequence then !IsSequence(s.right) else !s.right.ChainText?
  {
  }

  lemma {:induction false} ChainCompletes(toks: seq<Token>, start: nat, s: Source)
    requires Normal(s) && Written(toks, start, s) && s.ChainText?
    ensures Parse(toks, start, start + |Tokens(s)|) == Ok(TreeOf(s))
    decreases s, 1
  {
    hide Tokens, TreeOf, Calm, Bal, Parse, Normal, Lies;
    ChainShape(s);
    var (l, r, t) := (Tokens(s.left), Tokens(s.right), SepToken(s.sep));
    AfterPart(toks, start, l, t, r);
    ParseComplete(toks, start, s.left);
    ParseComplete(toks, start + |l| + 1, s.right);
    TokensEnds(s);
    TokensEnds(s.right);
    TokensCalm(s.right);
    TokensCalm(s);
    ChainSplits(toks, start, l, s.sep, r, !IsSequence(s.right), !s.right.ChainText?);
    ChainTaken(toks, start, start + |l|, start + |Tokens(s)|, s.sep);
  }

  /** The rightmost separator outside is the one between the two parts. */
  lemma ChainSplits(toks: seq<Token>, start: nat, l: seq<Token>, sep: Separator, r: seq<Token>, semi: bool, pipe: bool)
    requires Lies(toks, start, l + [SepToken(sep)] + r) && EndsWell(l + [SepToken(sep)] + r) && r != []
    requires Bal(r) == 0 && Calm(r, 0, semi, pipe) && if sep == Sequence then semi else pipe
    requires Bal(l + [SepToken(sep)] + r) == 0 && Calm(l + [SepToken(sep)] + r, 0, sep != Sequence, false)
    ensures var end := start + |l| + 1 + |r|;
      && !EndsBadly(At(toks, end - 1))
      && SplitAt(toks, start, end - 1, 0, SepToken(sep)) == start + |l|
      && (sep == Pipeline ==> SplitAt(toks, start, end - 1, 0, Semi) == -1)
  {
    hide Calm, Bal, Lies;
    var x := l + [SepToken(sep)] + r;
    var i := start + |l|;
    LiesAt(toks, start, x, |x| - 1);
    AfterPart(toks, start, l, SepToken(sep), r);
    SplitPasses(toks, start, i + 1, r, SepToken(sep), 0, semi, pipe);
    if sep == Pipeline {
      SplitPasses(toks, start, start, x, Semi, 0, true, false);
    }
  }

  lemma ChainTaken(toks: seq<Token>, start: nat, i: nat, end: nat, sep: Separator)
    requires start <= i < end <= |toks| && !EndsBadly(At(toks, end - 1))
    requires SplitAt(toks, start, end - 1, 0, SepToken(sep)) == i
    requires sep == Pipeline ==> SplitAt(toks, start, end - 1, 0, Semi) == -1
    ensures Parse(toks, start, end) == ParseChain(toks, start, i, end, sep)
  {
  }

  /** A body ends with at most one semicolon of its own, and that one is dropped. */
  lemma {:induction false} BodyCompletes(toks: seq<Token>, i: nat, b: Body)
    requires Normal(b.text) && Lies(toks, i, BodyTokens(b)) && !At(toks, i + |BodyTokens(b)|).Word?
    ensures BodyTokens(b) != []
    ensures Parse(toks, i, Trimmed(toks, i + |BodyTokens(b)|)) == Ok(TreeOf(b.text))
    decreases b, 3
  {
    hide Parse, Lies, Tokens, Normal, TreeOf, Starts;
    var x := Tokens(b.text);
    TokensEnds(b.text);
    LiesParts(toks, i, x, Stop(b));
    LiesAt(toks, i, x, |x| - 1);
    if b.semi { LiesAt(toks, i + |x|, Stop(b), 0); }
    ParseComplete(toks, i, b.text);
  }

  /** The scan for `then`, `else` and `fi` over bodies that are calm. */
  lemma IfScans(toks: seq<Token>, first: nat, c: seq<Token>, y: seq<Token>, no: Option<seq<Token>>, end: int)
    requires c != [] && Bal(c) == 0 && Calm(c, 0, false, false) && Bal(y) == 0 && Calm(y, 0, false, false)
    requires no.Some? ==> Bal(no.value) == 0 && Calm(no.value, 0, false, false)
    requires Lies(toks, first, c) && At(toks, first + |c|) == Then && Lies(toks, first + |c| + 1, y)
    requires var i := first + |c| + 1 + |y|;
      if no.None? then At(toks, i) == Fi && i < end
      else (&& At(toks, i) == Else && Lies(toks, i + 1, no.value)
            && At(toks, i + 1 + |no.value|) == Fi && i + 1 + |no.value| < end)
    ensures var i := first + |c| + 1 + |y|;
      Scan(IfFrame, toks, first, first, end, 0, -1, -1)
      == if no.None? then Marks(first + |c|, -1, i) else Marks(first + |c|, i, i + 1 + |no.value|)
  {
    hide Calm, Bal, Scan, Lies;
    var mid := first + |c|;
    var i := mid + 1 + |y|;
    ScanMarks(IfFrame, toks, first, first, end, -1, -1, c);
    if no.None? {
      ScanCloses(IfFrame, toks, first, mid + 1, end, mid, -1, y);
    } else {
      ScanMarks(IfFrame, toks, first, mid + 1, end, mid, -1, y);
      ScanCloses(IfFrame, toks, first, i + 1, end, mid, i, no.value);
    }
  }

  lemma {:induction false} IfCompletes(toks: seq<Token>, start: nat, s: Source)
    requires Normal(s) && Written(toks, start, s) && s.IfText?
    ensures Parse(toks, start, start + |Tokens(s)|) == Ok(TreeOf(s))
    decreases s, 1
  {
    hide Tokens, TreeOf, Calm, Bal, Parse, Normal, Lies, Scan, AddRedirects, IoTokens, IoOf, BodyTokens;
    Undivided(toks, start, s);
    IfParts(s);
    var (c, y) := (BodyTokens(s.cond), BodyTokens(s.yes));
    var end := start + |Tokens(s)|;
    var mid := start + 1 + |c|;
    var next := mid + 1 + |y|;
    BodyCalm(s.cond);
    BodyCalm(s.yes);
    if s.no.None? {
      AfterPart(toks, start, [If] + (c + [Then] + y), Fi, IoTokens(s.io));
      FirstOf(toks, start, If, c + [Then] + y);
      AfterPart(toks, start + 1, c, Then, y);
      BodyCompletes(toks, start + 1, s.cond);
      BodyCompletes(toks, mid + 1, s.yes);
      IfScans(toks, start + 1, c, y, None, end);
      RedirectsParse(toks, next + 1, s.io);
    } else {
      var n := BodyTokens(s.no.value);
      BodyCalm(s.no.value);
      AfterPart(toks, start, [If] + (c + [Then] + y + [Else] + n), Fi, IoTokens(s.io));
      FirstOf(toks, start, If, c + [Then] + y + [Else] + n);
      AfterPart(toks, start + 1, c + [Then] + y, Else, n);
      AfterPart(toks, start + 1, c, Then, y);
      BodyCompletes(toks, start + 1, s.cond);
      BodyCompletes(toks, mid + 1, s.yes);
      BodyCompletes(toks, next + 1, s.no.value);
      IfScans(toks, start + 1, c, y, Some(n), end);
      RedirectsParse(toks, next + |n| + 2, s.io);
    }
  }

  lemma IfParts(s: Source)
    requires Normal(s) && s.IfText?
    ensures Tokens(s) ==
      if s.no.None? then [If] + (BodyTokens(s.cond) + [Then] + BodyTokens(s.yes)) + [Fi] + IoTokens(s.io)
      else ([If] + (BodyTokens(s.cond) + [Then] + BodyTokens(s.yes) + [Else] + BodyTokens(s.no.value))
            + [Fi] + IoTokens(s.io))
    ensures TreeOf(s) == Conditional(TreeOf(s.cond.text), TreeOf(s.yes.text),
      if s.no.None? then None else Some(TreeOf(s.no.value.text)), IoOf(s.io))
    ensures Normal(s.cond.text) && Normal(s.yes.text) && (s.no.Some? ==> Normal(s.no.value.text))
  {
    IfShape(s.cond, s.yes, s.no, s.io);
    hide Tokens;
  }

  lemma LoopShape(s: Source)
    requires Normal(s) && s.LoopText?
    ensures Tokens(s) == [if s.until then Until else While]
                         + (BodyTokens(s.cond) + [Do] + BodyTokens(s.body)) + [Done] + IoTokens(s.io)
    ensures TreeOf(s) == Loop(s.until, TreeOf(s.cond.text), TreeOf(s.body.text), IoOf(s.io))
    ensures Normal(s.cond.text) && Normal(s.body.text)
  {
  }

  lemma {:induction false} LoopCompletes(toks: seq<Token>, start: nat, s: Source)
    requires Normal(s) && Written(toks, start, s) && s.LoopText?
    ensures Parse(toks, start, start + |Tokens(s)|) == Ok(TreeOf(s))
    decreases s, 1
  {
    hide Tokens, TreeOf, Calm, Bal, Parse, Normal, Lies, Scan, AddRedirects, IoTokens, IoOf, BodyTokens;
    Undivided(toks, start, s);
    LoopShape(s);
    var (c, b) := (BodyTokens(s.cond), BodyTokens(s.body));
    var open := if s.until then Until else While;
    var end := start + |Tokens(s)|;
    var mid := start + 1 + |c|;
    var close := mid + 1 + |b|;
    BodyCalm(s.cond);
    BodyCalm(s.body);
    AfterPart(toks, start, [open] + (c + [Do] + b), Done, IoTokens(s.io));
    FirstOf(toks, start, open, c + [Do] + b);
    AfterPart(toks, start + 1, c, Do, b);
    BodyCompletes(toks, start + 1, s.cond);
    BodyCompletes(toks, mid + 1, s.body);
    ScanMarks(LoopFrame, toks, start + 1, start + 1, end, -1, -1, c);
    ScanCloses(LoopFrame, toks, start + 1, mid + 1, end, mid, -1, b);
    RedirectsParse(toks, close + 1, s.io);
  }

  lemma ParenShape(s: Source)
    requires Normal(s) && s.ParenText?
    ensures Tokens(s) == [LParen] + BodyTokens(s.body) + [RParen] + IoTokens(s.io)
    ensures TreeOf(s) == Subshell(TreeOf(s.body.text), IoOf(s.io)) && Normal(s.body.text)
  {
  }

  lemma {:induction false} ParenCompletes(toks: seq<Token>, start: nat, s: Source)
    requires Normal(s) && Written(toks, start, s) && s.ParenText?
    ensures Parse(toks, start, start + |Tokens(s)|) == Ok(TreeOf(s))
    decreases s, 1
  {
    hide Tokens, TreeOf, Calm, Bal, Parse, Normal, Lies, Scan, AddRedirects, IoTokens, IoOf, BodyTokens;
    Undivided(toks, start, s);
    ParenShape(s);
    var b := BodyTokens(s.body);
    var end := start + |Tokens(s)|;
    var close := start + 1 + |b|;
    BodyCalm(s.body);
    AfterPart(toks, start, [LParen] + b, RParen, IoTokens(s.io));
    FirstOf(toks, start, LParen, b);
    BodyCompletes(toks, start + 1, s.body);
    ScanCloses(ParenFrame, toks, start + 1, start + 1, end, -1, -1, b);
    RedirectsParse(toks, close + 1, s.io);
  }

  /** Printing a tree and parsing what was printed gives the tree back. */
  lemma PrintThenParse(c: Command)
    requires Normal(TextOf(c))
    ensures Parse(Printed(c), 0, |Printed(c)|) == Ok(c)
  {
    PrintedSpells(c);
    hide Parse;
    ParseComplete(Printed(c), 0, TextOf(c));
  }
}
