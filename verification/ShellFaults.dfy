/** Which error a text that does not parse is reported for. */
module ShellFaults {
  import opened Common
  import opened ShellTree
  import opened ShellParser
  import opened ShellNesting
  import opened ShellSound

  // ------------------------------------------------------------ what a scan misses

  predicate Looked(f: Frame, first: int, k: int) { k != first || f == ParenFrame }

  /** A word that closes `f`, or one between its parts, stands at `k` outside every
      nesting that began behind `first`. */
  predicate ClosesAt(f: Frame, toks: seq<Token>, first: nat, k: nat) {
    first <= k < |toks| && Looked(f, first, k) && IsClose(f, toks[k]) && Bal(toks[first..k]) == 0
  }

  predicate PartsAt(f: Frame, toks: seq<Token>, first: nat, k: nat) {
    first <= k < |toks| && Looked(f, first, k) && IsMid(f, toks[k]) && Bal(toks[first..k]) == 0
  }

  lemma LookedAt(f: Frame, toks: seq<Token>, first: nat, k: nat, depth: int)
    requires first <= k <= |toks| && depth == Bal(toks[first..k])
    ensures depth == 0 && Looked(f, first, k) && IsClose(f, At(toks, k)) <==> ClosesAt(f, toks, first, k)
    ensures depth == 0 && Looked(f, first, k) && IsMid(f, At(toks, k)) <==> PartsAt(f, toks, first, k)
  {
  }

  ghost predicate NeverCloses(f: Frame, toks: seq<Token>, first: nat, index: nat, end: nat) {
    forall k: nat :: index <= k <= end ==> !ClosesAt(f, toks, first, k)
  }

  ghost predicate NoParts(f: Frame, toks: seq<Token>, first: nat, index: nat, end: int) {
    forall k: nat :: index <= k <= end ==> !PartsAt(f, toks, first, k)
  }

  lemma OneAhead(f: Frame, toks: seq<Token>, first: nat, index: nat, end: nat, close: int)
    requires index <= end
    ensures NeverCloses(f, toks, first, index, end)
       <==> !ClosesAt(f, toks, first, index) && NeverCloses(f, toks, first, index + 1, end)
    ensures NoParts(f, toks, first, index, close) && index <= close
        ==> !PartsAt(f, toks, first, index) && NoParts(f, toks, first, index + 1, close)
    ensures NeverCloses(f, toks, first, end + 1, end)
  {
    hide ClosesAt, PartsAt;
  }

  /** The scan finds the end of a command if and only if it is there, up to the token
      behind the range; and a part of it only where it is. */
  lemma {:induction false} ScanExact(
      f: Frame, toks: seq<Token>, first: nat, index: nat, end: nat, depth: int, mid: int, alt: int)
    requires first <= index <= end <= |toks| && depth == Bal(toks[first..index])
    ensures var m := Scan(f, toks, first, index, end, depth, mid, alt);
      && (m.close == -1 <==> NeverCloses(f, toks, first, index, end))
      && (m.close != -1 && NoParts(f, toks, first, index, m.close) ==> m.mid == mid)
    decreases end - index
  {
    hide ClosesAt, PartsAt, NeverCloses, NoParts, Bal, IsClose, IsMid, IsAlt, Delta;
    var t, m := At(toks, index), Scan(f, toks, first, index, end, depth, mid, alt);
    var looks := depth == 0 && Looked(f, first, index);
    LookedAt(f, toks, first, index, depth);
    OneAhead(f, toks, first, index, end, m.close);
    if looks && IsClose(f, t) {
      assert m.close == index;
    } else if index < end {
      BalStep(toks, first, index);
      var mid' := if looks && IsMid(f, t) then index else mid;
      var alt' := if looks && IsAlt(f, t) then index else alt;
      ScanExact(f, toks, first, index + 1, end, depth + Delta(t), mid', alt');
      assert m == Scan(f, toks, first, index + 1, end, depth + Delta(t), mid', alt');
    }
  }

  // ------------------------------------------------------------ commands left open

  predicate Opens(f: Frame, t: Token) {
    match f
    case IfFrame => t == If
    case LoopFrame => t == While || t == Until
    case ParenFrame => t == LParen
  }

  function CloseOf(f: Frame): Token {
    match f
    case IfFrame => Fi
    case LoopFrame => Done
    case ParenFrame => RParen
  }

  predicate Separates(t: Token) { t == Semi || t == Pipe }

  /** Every separator and every redirection sign has something behind it that is not
      a separator. */
  predicate NothingDangles(toks: seq<Token>, start: nat, end: nat)
    requires end <= |toks|
  {
    forall k :: start <= k < end && EndsBadly(toks[k]) ==> k + 1 < end && !Separates(toks[k + 1])
  }

  lemma NothingDanglesLeft(toks: seq<Token>, start: nat, i: nat, end: nat)
    requires start <= i < end <= |toks| && Separates(toks[i]) && NothingDangles(toks, start, end)
    ensures NothingDangles(toks, start, i)
  {
  }

  lemma ChainFailsLeft(toks: seq<Token>, start: nat, end: nat, fault: Fault)
    requires start < end <= |toks| && NothingDangles(toks, start, end) && !Separates(toks[start])
    requires forall i: nat :: start < i < end && Separates(toks[i]) ==> Parse(toks, start, i) == Error(fault)
    requires ParseOne(toks, start, end) == Error(fault)
    ensures Parse(toks, start, end) == Error(fault)
  {
    hide ParseOne;
    var semi := SplitAt(toks, start, end - 1, 0, Semi);
    var pipe := SplitAt(toks, start, end - 1, 0, Pipe);
    assert !EndsBadly(toks[end - 1]);
  }

  /** A command that is opened and never closed is reported for the word that would
      have closed it, whatever separators stand in it and whatever follows. */
  lemma {:induction false} Unclosed(f: Frame, toks: seq<Token>, start: nat, end: nat)
    requires start < end <= |toks| && Opens(f, toks[start]) && NothingDangles(toks, start, end)
    requires NeverCloses(f, toks, start + 1, start + 1, end)
    ensures Parse(toks, start, end) == Error(Expected(CloseOf(f)))
    decreases end
  {
    assert toks[start + 1..start + 1] == [];
    ScanExact(f, toks, start + 1, start + 1, end, 0, -1, -1);
    assert ParseOne(toks, start, end) == Error(Expected(CloseOf(f)));
    hide ParseOne, Parse;
    forall i: nat | start < i < end && Separates(toks[i])
      ensures Parse(toks, start, i) == Error(Expected(CloseOf(f)))
    {
      NothingDanglesLeft(toks, start, i, end);
      Unclosed(f, toks, start, i);
    }
    ChainFailsLeft(toks, start, end, Expected(CloseOf(f)));
  }

  /** A text that begins with a word that begins no command is reported for that. */
  lemma {:induction false} NoCommand(toks: seq<Token>, start: nat, end: nat)
    requires start < end <= |toks| && !Starts(toks[start]) && !Separates(toks[start])
    requires NothingDangles(toks, start, end)
    ensures Parse(toks, start, end) == Error(InvalidToken)
    decreases end
  {
    assert ParseOne(toks, start, end) == Error(InvalidToken);
    hide ParseOne, Parse;
    forall i: nat | start < i < end && Separates(toks[i])
      ensures Parse(toks, start, i) == Error(InvalidToken)
    {
      NothingDanglesLeft(toks, start, i, end);
      NoCommand(toks, start, i);
    }
    ChainFailsLeft(toks, start, end, InvalidToken);
  }

  function MidOf(f: Frame): Token
    requires f != ParenFrame
  {
    if f == IfFrame then Then else Do
  }

  /** A compound command that is closed and has no `then` or no `do` is reported for
      that, before anything inside it is looked at. */
  lemma Partless(f: Frame, toks: seq<Token>, start: nat, end: nat, close: nat)
    requires start < end <= |toks| && Opens(f, toks[start]) && f != ParenFrame && !EndsBadly(toks[end - 1])
    requires SplitAt(toks, start, end - 1, 0, Semi) == -1 && SplitAt(toks, start, end - 1, 0, Pipe) == -1
    requires start < close <= end && ClosesAt(f, toks, start + 1, close)
    requires NoParts(f, toks, start + 1, start + 1, end)
    ensures Parse(toks, start, end) == Error(Expected(MidOf(f)))
  {
    hide Scan, SplitAt;
    assert toks[start + 1..start + 1] == [];
    ScanExact(f, toks, start + 1, start + 1, end, 0, -1, -1);
    ScanFound(f, toks, start + 1, start + 1, end, 0, -1, -1);
    var m := Scan(f, toks, start + 1, start + 1, end, 0, -1, -1);
    assert m.close != -1;
    assert NoParts(f, toks, start + 1, start + 1, m.close);
    assert m.mid == -1;
    hide ClosesAt, PartsAt;
    assert f == IfFrame ==> ParseIf(toks, start, end) == Error(Expected(Then));
    assert f == LoopFrame ==> ParseLoop(toks, start, end) == Error(Expected(Do));
    assert Parse(toks, start, end) == ParseOne(toks, start, end);
  }
}
