/** What parses is the text of a well-formed tree: no token of the range is
    dropped, invented or moved, although one counter serves all kinds of nesting
    and the scans look one token past their range. */
module ShellSound {
  import opened Common
  import opened ShellTree
  import opened ShellParser
  import opened ShellNesting
  import opened ShellComplete

  // ------------------------------------------------------------ what the scans found

  lemma {:induction false} SplitFound(toks: seq<Token>, start: nat, i: int, depth: int, sep: Token)
    requires start <= i < |toks| && sep != Absent
    ensures var r := SplitAt(toks, start, i, depth, sep);
      r == -1 || (start <= r <= i && toks[r] == sep && Bal(toks[r + 1..i + 1]) == depth)
    decreases i - start
  {
    var r := SplitAt(toks, start, i, depth, sep);
    if r != -1 && r != i {
      SplitFound(toks, start, i - 1, depth - Delta(toks[i]), sep);
      assert toks[r + 1..i + 1] == toks[r + 1..i] + [toks[i]];
      BalAppend(toks[r + 1..i], [toks[i]]);
      assert Bal([toks[i]]) == Delta(toks[i]);
    }
  }

  lemma BalStep(toks: seq<Token>, first: nat, index: nat)
    requires first <= index < |toks|
    ensures Bal(toks[first..index + 1]) == Bal(toks[first..index]) + Delta(toks[index])
  {
    assert toks[first..index + 1] == toks[first..index] + [toks[index]];
    BalAppend(toks[first..index], [toks[index]]);
    assert Bal([toks[index]]) == Delta(toks[index]);
  }

  lemma BalSplit(toks: seq<Token>, i: nat, j: nat, k: nat)
    requires i <= j < k <= |toks|
    ensures Bal(toks[i..k]) == Bal(toks[i..j]) + Delta(toks[j]) + Bal(toks[j + 1..k])
  {
    assert toks[i..k] == toks[i..j] + ([toks[j]] + toks[j + 1..k]);
    BalAppend(toks[i..j], [toks[j]] + toks[j + 1..k]);
    BalAppend([toks[j]], toks[j + 1..k]);
    assert Bal([toks[j]]) == Delta(toks[j]);
  }

  /** `k` is a place where the counter that started at `first` stands at zero. */
  predicate Level(toks: seq<Token>, first: nat, k: int) { first <= k <= |toks| && Bal(toks[first..k]) == 0 }

  lemma {:induction false} ScanFound(
      f: Frame, toks: seq<Token>, first: nat, index: nat, end: nat, depth: int, mid: int, alt: int)
    requires first <= index <= end <= |toks| && depth == Bal(toks[first..index]) && mid < index && alt < index
    ensures var m := Scan(f, toks, first, index, end, depth, mid, alt);
      m.close != -1 ==>
        && index <= m.close <= end && Level(toks, first, m.close) && m.close < |toks|
        && (m.mid == mid || (index <= m.mid && Level(toks, first, m.mid))) && m.mid < m.close
        && (m.alt == alt || (index <= m.alt && Level(toks, first, m.alt))) && m.alt < m.close
    decreases end - index
  {
    var t := At(toks, index);
    var looks := depth == 0 && (index != first || f == ParenFrame);
    if !(looks && IsClose(f, t)) && index < end {
      var mid' := if looks && IsMid(f, t) then index else mid;
      var alt' := if looks && IsAlt(f, t) then index else alt;
      BalStep(toks, first, index);
      ScanFound(f, toks, first, index + 1, end, depth + Delta(t), mid', alt');
    }
  }

  // ------------------------------------------------------------ ranges

  /** A word follows each redirection sign, as the tokenizer sees to. */
  predicate Targeted(toks: seq<Token>, i: nat, j: nat) {
    forall k :: i <= k < j && (At(toks, k) == Less || At(toks, k) == Greater) ==> At(toks, k + 1).Word?
  }

  /** What stands at `end` begins no command, and ends a body only if the range
      is balanced, so that no scan can take it for its own. */
  predicate Ends(toks: seq<Token>, start: nat, end: nat) {
    && start <= end <= |toks| && !Starts(At(toks, end))
    && (IsMark(At(toks, end)) ==> Bal(toks[start..end]) == 0)
  }

  lemma EmptyFails(toks: seq<Token>, start: nat, end: nat)
    requires Ends(toks, start, end) && Parse(toks, start, end).Ok?
    ensures start < end && !EndsBadly(toks[end - 1])
  {
    assert start == end && !EndsBadly(At(toks, end - 1)) ==>
      SplitAt(toks, start, end - 1, 0, Semi) == -1 && SplitAt(toks, start, end - 1, 0, Pipe) == -1;
  }

  predicate Spells(toks: seq<Token>, start: nat, end: nat, s: Source) {
    Normal(s) && Lies(toks, start, Tokens(s)) && start + |Tokens(s)| == end
  }

  lemma LiesJoin(toks: seq<Token>, i: nat, x: seq<Token>, y: seq<Token>)
    requires Lies(toks, i, x) && Lies(toks, i + |x|, y)
    ensures Lies(toks, i, x + y)
  {
    forall k | 0 <= k < |x + y| ensures toks[i + k] == (x + y)[k] {
      if k >= |x| { assert toks[i + |x| + (k - |x|)] == y[k - |x|]; }
    }
  }

  lemma LiesAround(toks: seq<Token>, i: nat, x: seq<Token>, t: Token, y: seq<Token>)
    requires Lies(toks, i, x) && At(toks, i + |x|) == t && t != Absent && Lies(toks, i + |x| + 1, y)
    ensures Lies(toks, i, x + [t] + y)
  {
    assert Lies(toks, i + |x|, [t]);
    LiesJoin(toks, i, x, [t]);
    LiesJoin(toks, i, x + [t], y);
  }

  // ------------------------------------------------------------ words and redirects

  lemma RedirectsSound(toks: seq<Token>, i: nat, end: nat) returns (io: Io)
    requires i <= end <= |toks| && Targeted(toks, i, end) && AddRedirects(toks, i, end, NO_REDIRECTS).Ok?
    ensures Lies(toks, i, IoTokens(io)) && i + |IoTokens(io)| == end
    ensures AddRedirects(toks, i, end, NO_REDIRECTS) == Ok(IoOf(io))
  {
    if i == end { return NoIo; }
    FirstRedirect(toks, i, end);
    hide AddRedirects, IoTokens, IoOf, Lies, At;
    io := if toks[i] == Less then In(toks[i + 1].text) else Out(toks[i + 1].text);
    if i + 2 == end {
      OneRead(toks, i, io);
    } else {
      io := SecondRedirect(toks, i, end, io);
    }
  }

  /** The first pair is read as it stands. */
  lemma FirstRedirect(toks: seq<Token>, i: nat, end: nat)
    requires i < end <= |toks| && Targeted(toks, i, end) && AddRedirects(toks, i, end, NO_REDIRECTS).Ok?
    ensures i + 2 <= end && (toks[i] == Less || toks[i] == Greater) && toks[i + 1].Word?
    ensures AddRedirects(toks, i, end, NO_REDIRECTS)
         == AddRedirects(toks, i + 2, end,
           IoOf(if toks[i] == Less then In(toks[i + 1].text) else Out(toks[i + 1].text)))
  {
    assert At(toks, i) == toks[i] && At(toks, i + 1).Word?;
    OneRedirect(toks, i, end, NO_REDIRECTS);
  }

  lemma OneRead(toks: seq<Token>, i: nat, io: Io)
    requires i + 2 <= |toks| && toks[i + 1].Word?
    requires (toks[i] == Less && io == In(toks[i + 1].text)) || (toks[i] == Greater && io == Out(toks[i + 1].text))
    ensures Lies(toks, i, IoTokens(io)) && |IoTokens(io)| == 2
    ensures AddRedirects(toks, i + 2, i + 2, IoOf(io)) == Ok(IoOf(io))
  {
  }

  /** A second pair must be of the other kind, and be the last. */
  lemma SecondRedirect(toks: seq<Token>, i: nat, end: nat, first: Io) returns (io: Io)
    requires i + 2 < end <= |toks| && toks[i + 1].Word? && Targeted(toks, i, end)
    requires (toks[i] == Less && first == In(toks[i + 1].text))
        || (toks[i] == Greater && first == Out(toks[i + 1].text))
    requires AddRedirects(toks, i + 2, end, IoOf(first)).Ok?
    ensures Lies(toks, i, IoTokens(io)) && i + |IoTokens(io)| == end
    ensures AddRedirects(toks, i + 2, end, IoOf(first)) == Ok(IoOf(io))
  {
    var v := At(toks, i + 3);
    assert At(toks, i + 2) == toks[i + 2] && v.Word?;
    OneRedirect(toks, i + 2, end, IoOf(first));
    io := if toks[i] == Less then InOut(first.file, v.text) else OutIn(first.file, v.text);
    hide AddRedirects;
    RedirectsStop(toks, i + 4, end, io);
    TwoRedirects(toks, i, io);
  }

  /** With both files given nothing more is taken. */
  lemma RedirectsStop(toks: seq<Token>, i: nat, end: nat, io: Io)
    requires i <= end && (io.InOut? || io.OutIn?) && AddRedirects(toks, i, end, IoOf(io)).Ok?
    ensures i == end && AddRedirects(toks, i, end, IoOf(io)) == Ok(IoOf(io))
  {
  }

  lemma TwoRedirects(toks: seq<Token>, i: nat, io: Io)
    requires i + 4 <= |toks| && (io.InOut? || io.OutIn?)
    requires toks[i] == IoTokens(io)[0] && toks[i + 1] == IoTokens(io)[1]
    requires toks[i + 2] == IoTokens(io)[2] && toks[i + 3] == IoTokens(io)[3]
    ensures Lies(toks, i, IoTokens(io)) && |IoTokens(io)| == 4
  {
  }

  lemma {:induction false} WordsSound(toks: seq<Token>, i: nat, end: nat)
    requires i <= end <= |toks| && !At(toks, end).Word?
    ensures var e := WordsEnd(toks, i, end);
      i <= e <= end && |Texts(toks, i, e)| == e - i && Lies(toks, i, WordTokens(Texts(toks, i, e)))
    decreases end - i
  {
    if At(toks, i).Word? {
      WordsSound(toks, i + 1, end);
      var e := WordsEnd(toks, i, end);
      var ws := Texts(toks, i + 1, e);
      assert Texts(toks, i, e) == [toks[i].text] + ws;
      assert WordTokens([toks[i].text] + ws) == [toks[i]] + WordTokens(ws);
      assert Lies(toks, i, [toks[i]]);
      LiesJoin(toks, i, [toks[i]], WordTokens(ws));
    }
  }

  // ------------------------------------------------------------ chains

  /** A chain in the array is split at its own separator. */
  lemma ChainIsSplit(toks: seq<Token>, start: nat, p: nat, c: Source)
    requires Normal(c) && c.ChainText? && start <= p && Lies(toks, p, Tokens(c))
    ensures SplitAt(toks, start, p + |Tokens(c)| - 1, 0, SepToken(c.sep)) == p + |Tokens(c.left)|
  {
    hide Tokens, Normal, Calm, Bal, Lies;
    ChainShape(c);
    var (l, r, t) := (Tokens(c.left), Tokens(c.right), SepToken(c.sep));
    AfterPart(toks, p, l, t, r);
    TokensEnds(c.right);
    TokensCalm(c.right);
    SplitPasses(toks, start, p + |l| + 1, r, t, 0, !IsSequence(c.right), !c.right.ChainText?);
  }

  /** The rightmost separator was taken, so the parts nest to the left. */
  lemma ChainSound(toks: seq<Token>, start: nat, i: nat, end: nat, sep: Separator, l: Source, r: Source)
    requires start <= i < end <= |toks| && toks[i] == SepToken(sep)
    requires Spells(toks, start, i, l) && Spells(toks, i + 1, end, r)
    requires SplitAt(toks, start, end - 1, 0, SepToken(sep)) == i
    requires sep == Pipeline ==> SplitAt(toks, start, end - 1, 0, Semi) == -1
    ensures Spells(toks, start, end, ChainText(sep, l, r))
  {
    hide Tokens, Calm, Bal, Lies, SplitAt;
    TokensEnds(r);
    if r.ChainText? { ChainIsSplit(toks, start, i + 1, r); }
    if sep == Pipeline && IsSequence(l) {
      ChainIsSplit(toks, start, start, l);
      TokensCalm(r);
      SplitPasses(toks, start, i + 1, Tokens(r), Semi, 0, true, !r.ChainText?);
      OverPipe(toks, start, i);
      TokensEnds(l);
    }
    LiesAround(toks, start, Tokens(l), SepToken(sep), Tokens(r));
    assert Tokens(ChainText(sep, l, r)) == Tokens(l) + [SepToken(sep)] + Tokens(r) by { ChainTokens(sep, l, r); }
  }

  lemma ChainTokens(sep: Separator, l: Source, r: Source)
    ensures Tokens(ChainText(sep, l, r)) == Tokens(l) + [SepToken(sep)] + Tokens(r)
  {
  }

  lemma OverPipe(toks: seq<Token>, start: nat, i: nat)
    requires start < i < |toks| && toks[i] == Pipe
    ensures SplitAt(toks, start, i, 0, Semi) == SplitAt(toks, start, i - 1, 0, Semi)
  {
  }

  // ------------------------------------------------------------ the theorem

  lemma {:induction false} BodySound(toks: seq<Token>, i: nat, j: nat) returns (b: Body)
    requires i <= j < |toks| && !Starts(toks[j]) && Bal(toks[i..j]) == 0 && At(toks, i - 1) != Semi
    requires Targeted(toks, i, j) && Parse(toks, i, Trimmed(toks, j)).Ok?
    ensures Normal(b.text) && Lies(toks, i, BodyTokens(b)) && i + |BodyTokens(b)| == j
    ensures Parse(toks, i, Trimmed(toks, j)) == Ok(TreeOf(b.text))
    decreases |toks| - i, j, 3
  {
    hide Parse, Tokens, Normal, TreeOf, Bal, Lies;
    var e := Trimmed(toks, j);
    var s := ParseSound(toks, i, e);
    b := Body(s, e < j);
    if e < j {
      assert Lies(toks, e, [Semi]) by { OneLies(toks, e); }
      LiesJoin(toks, i, Tokens(s), [Semi]);
    } else {
      assert Tokens(s) + [] == Tokens(s);
    }
  }

  lemma OneLies(toks: seq<Token>, i: nat)
    requires i < |toks|
    ensures Lies(toks, i, [toks[i]])
  {
  }

  /** If a range parses, it is the text of a well-formed tree, and of the tree
      that parsing gives. */
  lemma {:induction false} ParseSound(toks: seq<Token>, start: nat, end: nat) returns (s: Source)
    requires Ends(toks, start, end) && Targeted(toks, start, end) && Parse(toks, start, end).Ok?
    ensures Spells(toks, start, end, s)
    ensures Parse(toks, start, end) == Ok(TreeOf(s))
    decreases |toks| - start, end, 2
  {
    hide Tokens, Normal, TreeOf, Bal, Lies, SplitAt, ParseOne;
    EmptyFails(toks, start, end);
    var semi := SplitAt(toks, start, end - 1, 0, Semi);
    var pipe := SplitAt(toks, start, end - 1, 0, Pipe);
    SplitFound(toks, start, end - 1, 0, Semi);
    SplitFound(toks, start, end - 1, 0, Pipe);
    if semi >= 0 {
      s := SplitSound(toks, start, semi, end, Sequence);
    } else if pipe >= 0 {
      s := SplitSound(toks, start, pipe, end, Pipeline);
    } else {
      s := OneSound(toks, start, end);
    }
  }

  lemma {:induction false} SplitSound(
      toks: seq<Token>, start: nat, i: nat, end: nat, sep: Separator) returns (s: Source)
    requires Ends(toks, start, end) && Targeted(toks, start, end) && start <= i < end
    requires SplitAt(toks, start, end - 1, 0, SepToken(sep)) == i
    requires toks[i] == SepToken(sep) && Bal(toks[i + 1..end]) == 0
    requires sep == Pipeline ==> SplitAt(toks, start, end - 1, 0, Semi) == -1
    requires ParseChain(toks, start, i, end, sep).Ok?
    ensures Spells(toks, start, end, s)
    ensures ParseChain(toks, start, i, end, sep) == Ok(TreeOf(s))
    decreases |toks| - start, end, 1
  {
    hide Tokens, Bal, Lies, SplitAt, Parse, Normal;
    assert Ends(toks, start, i) && Ends(toks, i + 1, end);
    var l := ParseSound(toks, start, i);
    var r := ParseSound(toks, i + 1, end);
    s := ChainText(sep, l, r);
    ChainSound(toks, start, i, end, sep, l, r);
  }

  lemma {:induction false} OneSound(toks: seq<Token>, start: nat, end: nat) returns (s: Source)
    requires Ends(toks, start, end) && Targeted(toks, start, end) && start < end && ParseOne(toks, start, end).Ok?
    ensures Spells(toks, start, end, s)
    ensures ParseOne(toks, start, end) == Ok(TreeOf(s))
    decreases |toks| - start, end, 1
  {
    hide ParseIf, ParseLoop, ParseSubshell, ParseSimple, TreeOf, Spells, Ends, Targeted;
    match toks[start]
    case If => s := IfSound(toks, start, end);
    case While => s := LoopSound(toks, start, end);
    case Until => s := LoopSound(toks, start, end);
    case LParen => s := ParenSound(toks, start, end);
    case Word(_) => s := SimpleSound(toks, start, end);
  }

  lemma SimpleSound(toks: seq<Token>, start: nat, end: nat) returns (s: Source)
    requires Ends(toks, start, end) && Targeted(toks, start, end) && start < end && toks[start].Word?
    requires ParseSimple(toks, start, end).Ok?
    ensures Spells(toks, start, end, s)
    ensures ParseSimple(toks, start, end) == Ok(TreeOf(s))
  {
    hide Bal, Lies, AddRedirects, Texts, IoTokens, IoOf, WordTokens;
    var e := WordsEnd(toks, start, end);
    WordsSound(toks, start, end);
    assert e > start;
    hide WordsEnd;
    var io := RedirectsSound(toks, e, end);
    s := SimpleText(Texts(toks, start, e), io);
    assert |WordTokens(s.words)| == e - start by { WordCount(s.words); }
    LiesJoin(toks, start, WordTokens(s.words), IoTokens(io));
  }

  lemma WordCount(ws: seq<string>)
    ensures |WordTokens(ws)| == |ws|
  {
  }

  /** The closing word lies inside the range: at its end the counter is not zero,
      or no closing word stands there. */
  lemma ClosesInside(f: Frame, toks: seq<Token>, start: nat, end: nat, close: int)
    requires Ends(toks, start, end) && start < end && Delta(toks[start]) == 1
    requires start + 1 <= close <= end && Level(toks, start + 1, close) && IsClose(f, At(toks, close))
    ensures close < end
  {
    BalSplit(toks, start, start, end);
    assert toks[start..start] == [];
  }

  lemma LevelBetween(toks: seq<Token>, first: nat, i: nat, j: nat)
    requires Level(toks, first, i) && Level(toks, first, j) && i < j && Delta(toks[i]) == 0
    ensures Bal(toks[i + 1..j]) == 0
  {
    BalSplit(toks, first, i, j);
  }

  /** What the scan of a compound command that parses has found. */
  lemma MarksFound(f: Frame, toks: seq<Token>, start: nat, end: nat)
    requires Ends(toks, start, end) && start < end && Delta(toks[start]) == 1
    ensures end <= |toks|
    ensures var m := Scan(f, toks, start + 1, start + 1, end, 0, -1, -1);
      m.close != -1 ==>
        && start < m.close < end && Bal(toks[start + 1..m.close]) == 0 && IsClose(f, toks[m.close])
        && (m.mid != -1 ==>
              start + 1 < m.mid < m.close && IsMid(f, toks[m.mid]) && Level(toks, start + 1, m.mid)
              && Bal(toks[start + 1..m.mid]) == 0 && Bal(toks[m.mid + 1..m.close]) == 0)
        && (m.alt != -1 ==> start + 1 < m.alt < m.close && IsAlt(f, toks[m.alt]) && Level(toks, start + 1, m.alt))
        && Level(toks, start + 1, m.close)
  {
    hide Scan, Bal;
    assert Bal(toks[start + 1..start + 1]) == 0 by { EmptyBal(); assert toks[start + 1..start + 1] == []; }
    var m := Scan(f, toks, start + 1, start + 1, end, 0, -1, -1);
    ScanFound(f, toks, start + 1, start + 1, end, 0, -1, -1);
    if m.close != -1 {
      ClosesInside(f, toks, start, end, m.close);
      if m.mid != -1 { LevelBetween(toks, start + 1, m.mid, m.close); }
    }
  }

  lemma EmptyBal()
    ensures Bal([]) == 0
  {
  }

  lemma Narrower(toks: seq<Token>, i: nat, j: nat, k: nat, l: nat)
    requires Targeted(toks, i, j) && i <= k && l <= j
    ensures Targeted(toks, k, l)
  {
  }

  /** `else` inside the condition would have kept it from parsing. */
  lemma NoMarkInside(toks: seq<Token>, first: nat, b: Body, k: nat)
    requires Normal(b.text) && Lies(toks, first, BodyTokens(b)) && Level(toks, first, k) && k < first + |BodyTokens(b)|
    ensures !IsMark(toks[k])
  {
    BodyCalm(b);
    LiesAt(toks, first, BodyTokens(b), k - first);
    assert BodyTokens(b)[..k - first] == toks[first..k];
    hide Calm, Bal;
    CalmAt(BodyTokens(b), 0, false, false, k - first);
  }

  lemma {:induction false} ParenSound(toks: seq<Token>, start: nat, end: nat) returns (s: Source)
    requires Ends(toks, start, end) && Targeted(toks, start, end) && start < end && toks[start] == LParen
    requires ParseSubshell(toks, start, end).Ok?
    ensures Spells(toks, start, end, s)
    ensures ParseSubshell(toks, start, end) == Ok(TreeOf(s))
    decreases |toks| - start, end, 0
  {
    hide Scan, AddRedirects, Parse, Tokens, Lies, IoTokens, IoOf, TreeOf,
        Normal, BodyTokens, Bal, Level, Targeted, Trimmed, Ends, Spells;
    var m := Scan(ParenFrame, toks, start + 1, start + 1, end, 0, -1, -1);
    MarksFound(ParenFrame, toks, start, end);
    Narrower(toks, start, end, start + 1, m.close);
    Narrower(toks, start, end, m.close + 1, end);
    var b := BodySound(toks, start + 1, m.close);
    var io := RedirectsSound(toks, m.close + 1, end);
    s := ParenText(b, io);
    ParenAssembled(b, io);
    ParenSpells(toks, start, end, b, io);
  }

  lemma ParenSpells(toks: seq<Token>, start: nat, end: nat, b: Body, io: Io)
    requires Normal(b.text) && At(toks, start) == LParen && Lies(toks, start + 1, BodyTokens(b))
    requires var close := start + 1 + |BodyTokens(b)|;
      At(toks, close) == RParen && Lies(toks, close + 1, IoTokens(io)) && end == close + 1 + |IoTokens(io)|
    ensures Spells(toks, start, end, ParenText(b, io))
  {
    hide Tokens, Lies, IoTokens, Normal, BodyTokens, TreeOf, IoOf;
    ParenAssembled(b, io);
    Enclose(toks, start, LParen, BodyTokens(b), RParen, IoTokens(io));
  }

  lemma ParenAssembled(b: Body, io: Io)
    requires Normal(b.text)
    ensures Normal(ParenText(b, io)) && TreeOf(ParenText(b, io)) == Subshell(TreeOf(b.text), IoOf(io))
    ensures Tokens(ParenText(b, io)) == [LParen] + BodyTokens(b) + [RParen] + IoTokens(io)
  {
  }

  lemma Enclose(toks: seq<Token>, start: nat, open: Token, inner: seq<Token>, close: Token, tail: seq<Token>)
    requires At(toks, start) == open && open != Absent && Lies(toks, start + 1, inner)
    requires At(toks, start + 1 + |inner|) == close && close != Absent && Lies(toks, start + 2 + |inner|, tail)
    ensures Lies(toks, start, [open] + inner + [close] + tail)
  {
    assert Lies(toks, start, [open]);
    LiesJoin(toks, start, [open], inner);
    hide Lies;
    LiesAround(toks, start, [open] + inner, close, tail);
  }

  lemma {:induction false} LoopSound(toks: seq<Token>, start: nat, end: nat) returns (s: Source)
    requires Ends(toks, start, end) && Targeted(toks, start, end)
    requires start < end && (toks[start] == While || toks[start] == Until)
    requires ParseLoop(toks, start, end).Ok?
    ensures Spells(toks, start, end, s)
    ensures ParseLoop(toks, start, end) == Ok(TreeOf(s))
    decreases |toks| - start, end, 0
  {
    hide Scan, AddRedirects, Parse, Tokens, Lies, IoTokens, IoOf, TreeOf,
        Normal, BodyTokens, Bal, Level, Targeted, Trimmed, Ends, Spells;
    var m := Scan(LoopFrame, toks, start + 1, start + 1, end, 0, -1, -1);
    MarksFound(LoopFrame, toks, start, end);
    Narrower(toks, start, end, start + 1, m.mid);
    Narrower(toks, start, end, m.mid + 1, m.close);
    Narrower(toks, start, end, m.close + 1, end);
    var c := BodySound(toks, start + 1, m.mid);
    var b := BodySound(toks, m.mid + 1, m.close);
    var io := RedirectsSound(toks, m.close + 1, end);
    var until := toks[start] == Until;
    s := LoopText(until, c, b, io);
    LoopAssembled(until, c, b, io);
    LoopSpells(toks, start, end, until, c, b, io);
  }

  lemma LoopSpells(toks: seq<Token>, start: nat, end: nat, until: bool, c: Body, b: Body, io: Io)
    requires Normal(c.text) && Normal(b.text)
    requires At(toks, start) == (if until then Until else While) && Lies(toks, start + 1, BodyTokens(c))
    requires var mid := start + 1 + |BodyTokens(c)|;
      var close := mid + 1 + |BodyTokens(b)|;
      && At(toks, mid) == Do && Lies(toks, mid + 1, BodyTokens(b)) && At(toks, close) == Done
      && Lies(toks, close + 1, IoTokens(io)) && end == close + 1 + |IoTokens(io)|
    ensures Spells(toks, start, end, LoopText(until, c, b, io))
  {
    hide Tokens, Lies, IoTokens, Normal, BodyTokens, TreeOf, IoOf;
    LoopAssembled(until, c, b, io);
    LiesAround(toks, start + 1, BodyTokens(c), Do, BodyTokens(b));
    Enclose(toks, start, if until then Until else While, BodyTokens(c) + [Do] + BodyTokens(b), Done, IoTokens(io));
  }

  lemma LoopAssembled(until: bool, c: Body, b: Body, io: Io)
    requires Normal(c.text) && Normal(b.text)
    ensures var s := LoopText(until, c, b, io);
      && Normal(s) && TreeOf(s) == Loop(until, TreeOf(c.text), TreeOf(b.text), IoOf(io))
      && Tokens(s) == [if until then Until else While] + (BodyTokens(c) + [Do] + BodyTokens(b)) + [Done] + IoTokens(io)
  {
  }

  lemma {:induction false} IfSound(toks: seq<Token>, start: nat, end: nat) returns (s: Source)
    requires Ends(toks, start, end) && Targeted(toks, start, end) && start < end && toks[start] == If
    requires ParseIf(toks, start, end).Ok?
    ensures Spells(toks, start, end, s)
    ensures ParseIf(toks, start, end) == Ok(TreeOf(s))
    decreases |toks| - start, end, 0
  {
    hide Scan, AddRedirects, Parse, Tokens, Lies, IoTokens, IoOf, TreeOf,
        Normal, BodyTokens, Bal, Level, Targeted, Trimmed, Ends, Spells;
    var m := Scan(IfFrame, toks, start + 1, start + 1, end, 0, -1, -1);
    MarksFound(IfFrame, toks, start, end);
    Narrower(toks, start, end, start + 1, m.mid);
    Narrower(toks, start, end, m.mid + 1, m.close);
    Narrower(toks, start, end, m.close + 1, end);
    var c := BodySound(toks, start + 1, m.mid);
    var io := RedirectsSound(toks, m.close + 1, end);
    if m.alt == -1 {
      var y := BodySound(toks, m.mid + 1, m.close);
      IfTree(c, y, None, io);
      IfSpells(toks, start, end, c, y, None, io);
      s := IfText(c, y, None, io);
    } else {
      assert m.alt > m.mid by { if m.alt < m.mid { NoMarkInside(toks, start + 1, c, m.alt); } }
      var y, n := BranchesSound(toks, start, end, m);
      IfTree(c, y, Some(n), io);
      IfSpells(toks, start, end, c, y, Some(n), io);
      s := IfText(c, y, Some(n), io);
    }
  }

  lemma IfTree(c: Body, y: Body, n: Option<Body>, io: Io)
    ensures TreeOf(IfText(c, y, n, io)) ==
      Conditional(TreeOf(c.text), TreeOf(y.text), if n.None? then None else Some(TreeOf(n.value.text)), IoOf(io))
  {
  }

  lemma {:induction false} BranchesSound(toks: seq<Token>, start: nat, end: nat, m: Marks) returns (y: Body, n: Body)
    requires 0 <= start < m.mid < m.alt < m.close < end <= |toks| && Targeted(toks, start, end)
    requires toks[m.mid] == Then && toks[m.alt] == Else && toks[m.close] == Fi
    requires Level(toks, start + 1, m.mid) && Level(toks, start + 1, m.alt) && Level(toks, start + 1, m.close)
    requires Parse(toks, m.mid + 1, Trimmed(toks, m.alt)).Ok? && Parse(toks, m.alt + 1, Trimmed(toks, m.close)).Ok?
    ensures Normal(y.text) && Lies(toks, m.mid + 1, BodyTokens(y)) && m.mid + 1 + |BodyTokens(y)| == m.alt
    ensures Normal(n.text) && Lies(toks, m.alt + 1, BodyTokens(n)) && m.alt + 1 + |BodyTokens(n)| == m.close
    ensures Parse(toks, m.mid + 1, Trimmed(toks, m.alt)) == Ok(TreeOf(y.text))
    ensures Parse(toks, m.alt + 1, Trimmed(toks, m.close)) == Ok(TreeOf(n.text))
    decreases |toks| - start - 1, end, 0
  {
    hide Parse, Tokens, Lies, TreeOf, Normal, BodyTokens, Bal, Level, Targeted, Trimmed;
    LevelBetween(toks, start + 1, m.mid, m.alt);
    LevelBetween(toks, start + 1, m.alt, m.close);
    Narrower(toks, start, end, m.mid + 1, m.alt);
    Narrower(toks, start, end, m.alt + 1, m.close);
    y := BodySound(toks, m.mid + 1, m.alt);
    n := BodySound(toks, m.alt + 1, m.close);
  }

  lemma IfSpells(toks: seq<Token>, start: nat, end: nat, c: Body, y: Body, n: Option<Body>, io: Io)
    requires Normal(c.text) && Normal(y.text) && (n.Some? ==> Normal(n.value.text))
    requires At(toks, start) == If && Lies(toks, start + 1, BodyTokens(c))
    requires var mid := start + 1 + |BodyTokens(c)|;
      At(toks, mid) == Then && Lies(toks, mid + 1, BodyTokens(y))
    requires var next := start + 2 + |BodyTokens(c)| + |BodyTokens(y)|;
      var close := if n.None? then next else next + 1 + |BodyTokens(n.value)|;
      && (n.Some? ==> At(toks, next) == Else && Lies(toks, next + 1, BodyTokens(n.value)))
      && At(toks, close) == Fi && Lies(toks, close + 1, IoTokens(io)) && end == close + 1 + |IoTokens(io)|
    ensures Spells(toks, start, end, IfText(c, y, n, io))
  {
    hide Tokens, Lies, IoTokens, Normal, BodyTokens, TreeOf, IoOf, At;
    IfAssembled(c, y, n, io);
    if n.None? {
      IfLies(toks, start, BodyTokens(c), BodyTokens(y), IoTokens(io));
    } else {
      ElseLies(toks, start, BodyTokens(c), BodyTokens(y), BodyTokens(n.value), IoTokens(io));
    }
  }

  lemma IfLies(toks: seq<Token>, start: nat, c: seq<Token>, y: seq<Token>, io: seq<Token>)
    requires At(toks, start) == If && Lies(toks, start + 1, c) && At(toks, start + 1 + |c|) == Then
    requires Lies(toks, start + 2 + |c|, y) && At(toks, start + 2 + |c| + |y|) == Fi
    requires Lies(toks, start + 3 + |c| + |y|, io)
    ensures Lies(toks, start, [If] + (c + [Then] + y) + [Fi] + io)
  {
    hide Lies, At;
    LiesAround(toks, start + 1, c, Then, y);
    Enclose(toks, start, If, c + [Then] + y, Fi, io);
  }

  lemma ElseLies(toks: seq<Token>, start: nat, c: seq<Token>, y: seq<Token>, n: seq<Token>, io: seq<Token>)
    requires At(toks, start) == If && Lies(toks, start + 1, c) && At(toks, start + 1 + |c|) == Then
    requires Lies(toks, start + 2 + |c|, y) && At(toks, start + 2 + |c| + |y|) == Else
    requires Lies(toks, start + 3 + |c| + |y|, n) && At(toks, start + 3 + |c| + |y| + |n|) == Fi
    requires Lies(toks, start + 4 + |c| + |y| + |n|, io)
    ensures Lies(toks, start, [If] + (c + [Then] + y + [Else] + n) + [Fi] + io)
  {
    hide Lies, At;
    LiesAround(toks, start + 1, c, Then, y);
    LiesAround(toks, start + 1, c + [Then] + y, Else, n);
    Enclose(toks, start, If, c + [Then] + y + [Else] + n, Fi, io);
  }

  lemma IfAssembled(c: Body, y: Body, n: Option<Body>, io: Io)
    requires Normal(c.text) && Normal(y.text) && (n.Some? ==> Normal(n.value.text))
    ensures var s := IfText(c, y, n, io);
      && Normal(s)
      && TreeOf(s)
         == Conditional(TreeOf(c.text), TreeOf(y.text), if n.None? then None else Some(TreeOf(n.value.text)), IoOf(io))
      && Tokens(s) == if n.None? then [If] + (BodyTokens(c) + [Then] + BodyTokens(y)) + [Fi] + IoTokens(io)
           else [If] + (BodyTokens(c) + [Then] + BodyTokens(y) + [Else] + BodyTokens(n.value)) + [Fi] + IoTokens(io)
  {
    IfShape(c, y, n, io);
    hide Tokens;
  }

  // ------------------------------------------------------------ both directions

  /** A range parses to a tree exactly when it is a text of that tree. */
  lemma ParseExact(toks: seq<Token>, start: nat, end: nat, c: Command)
    requires Ends(toks, start, end) && Targeted(toks, start, end)
    ensures Parse(toks, start, end) == Ok(c) <==> exists s :: Spells(toks, start, end, s) && TreeOf(s) == c
  {
    hide Parse, Tokens, Normal, TreeOf, Bal, Lies;
    if Parse(toks, start, end) == Ok(c) {
      var s := ParseSound(toks, start, end);
      assert Spells(toks, start, end, s) && TreeOf(s) == c;
    }
    if exists s :: Spells(toks, start, end, s) && TreeOf(s) == c {
      var s :| Spells(toks, start, end, s) && TreeOf(s) == c;
      ParseComplete(toks, start, s);
    }
  }

  lemma OneWordParses(toks: seq<Token>, i: nat, w: string)
    requires i < |toks| && toks[i] == Word(w) && !At(toks, i + 1).Word?
    ensures Parse(toks, i, i + 1).Ok?
  {
    hide Parse;
    var s := SimpleText([w], NoIo);
    assert Tokens(s) == [Word(w)];
    ParseComplete(toks, i, s);
  }

  function Unfinished(): seq<Token> { [If, Word("a"), Then, Word("b"), Fi] }

  lemma UnfinishedScans()
    ensures SplitAt(Unfinished(), 0, 3, 0, Semi) == -1 && SplitAt(Unfinished(), 0, 3, 0, Pipe) == -1
    ensures Scan(IfFrame, Unfinished(), 1, 1, 4, 0, -1, -1) == Marks(2, -1, 4)
  {
    var toks := Unfinished();
    assert SplitAt(toks, 0, 1, 0, Semi) == -1 && SplitAt(toks, 0, 1, 0, Pipe) == -1;
    assert Scan(IfFrame, toks, 1, 3, 4, 0, 2, -1) == Marks(2, -1, 4);
    assert Scan(IfFrame, toks, 1, 2, 4, 0, -1, -1) == Marks(2, -1, 4);
  }

  lemma UnfinishedSpellsNothing(s: Source)
    ensures !Spells(Unfinished(), 0, 4, s)
  {
    hide Tokens, Normal;
    var toks := Unfinished();
    if Normal(s) && Lies(toks, 0, Tokens(s)) && |Tokens(s)| == 4 {
      TokensCalm(s);
      LiesSlice(toks, 0, Tokens(s));
      assert Tokens(s) == [If] + [Word("a"), Then, Word("b")];
      BalAppend([If], [Word("a"), Then, Word("b")]);
      BalAppend([Word("a")], [Then, Word("b")]);
      assert false;
    }
  }

  lemma PlainIfParses(toks: seq<Token>, start: nat, end: nat, m: Marks)
    requires start < end <= |toks| && toks[start] == If && !EndsBadly(toks[end - 1])
    requires SplitAt(toks, start, end - 1, 0, Semi) == -1 && SplitAt(toks, start, end - 1, 0, Pipe) == -1
    requires Scan(IfFrame, toks, start + 1, start + 1, end, 0, -1, -1) == m
    requires start < m.mid && m.alt == -1 && m.close >= end - 1
    requires m.mid < |toks| && m.close < |toks|
    requires Parse(toks, start + 1, Trimmed(toks, m.mid)).Ok? && Parse(toks, m.mid + 1, Trimmed(toks, m.close)).Ok?
    ensures Parse(toks, start, end).Ok?
  {
    assert ParseIf(toks, start, end).Ok? by { hide Parse, Scan, Trimmed; }
    hide SplitAt, ParseIf, Scan, Trimmed;
    assert Parse(toks, start, end) == ParseOne(toks, start, end);
  }

  /** The scans look at the token behind their range: an `if` without its `fi`
      parses when `fi` stands there, so `Ends` cannot be left out above. */
  lemma LooksPastTheEnd(toks: seq<Token>, end: nat)
    requires toks == Unfinished() && end == 4
    ensures Parse(toks, 0, end).Ok? && forall s :: !Spells(toks, 0, end, s)
    ensures !Ends(toks, 0, end)
  {
    UnfinishedBalance();
    UnfinishedScans();
    hide Parse, Spells, Scan, SplitAt, Bal;
    OneWordParses(toks, 1, "a");
    OneWordParses(toks, 3, "b");
    assert Trimmed(toks, 2) == 2 && Trimmed(toks, 4) == 4;
    PlainIfParses(toks, 0, end, Marks(2, -1, 4));
    forall s ensures !Spells(toks, 0, end, s) { UnfinishedSpellsNothing(s); }
  }

  lemma UnfinishedBalance()
    ensures Bal(Unfinished()[0..4]) == 1
  {
    assert Unfinished()[0..4] == [If] + [Word("a"), Then, Word("b")];
    BalAppend([If], [Word("a"), Then, Word("b")]);
    BalAppend([Word("a")], [Then, Word("b")]);
  }
}
