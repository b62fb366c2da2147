/** The message formatter and scanner of P2P/writescan.c, and when the second
    undoes the first. */
module PeerText {
  import opened Common

  /** One byte of a message, seen as a character. */
  type octet = c: char | c as int < 256 witness '\0'
  type text = seq<octet>

  /** What a conversion writes: a string, an `int`, or an IPv4 address. */
  datatype Arg = Str(s: text) | Num(n: int) | Addr(a: nat)

  const INT_MAX: int := 0x7fff_ffff

  // ------------------------------------------------------------ characters

  predicate IsDigit(c: octet) { '0' <= c <= '9' }

  predicate IsSpace(c: octet) { c == ' ' || 9 as char <= c <= 13 as char }

  predicate IsAlnum(c: octet) { IsDigit(c) || 'a' <= c <= 'z' || 'A' <= c <= 'Z' }

  predicate IsHex(c: octet) { IsDigit(c) || 'a' <= c <= 'f' || 'A' <= c <= 'F' }

  /** Left as it is by the escaping of section 2.2 of RFC 1738. */
  predicate IsPlain(c: octet) {
    IsAlnum(c) || c == '$' || c == '-' || c == '_' || c == '.' || c == '+' || c == '!' || c == '*' || c == '\''
    || c == '(' || c == ')' || c == ','
  }

  function HexDigit(n: nat): octet
    requires n < 16
  {
    if n < 10 then ('0' as int + n) as char else ('A' as int + n - 10) as char
  }

  /** `xvalue`, with `tolower` for the letters. */
  function XValue(c: octet): int
    requires IsHex(c)
  {
    if IsDigit(c) then c as int - '0' as int
    else (if 'A' <= c <= 'Z' then c as int + 32 else c as int) - 'a' as int + 10
  }

  lemma XValueOfHex(n: nat)
    requires n < 16
    ensures IsHex(HexDigit(n)) && XValue(HexDigit(n)) == n && !IsSpace(HexDigit(n)) && HexDigit(n) < 'a'
  {
  }

  function DigitChar(n: nat): octet
    requires n < 10
  {
    ('0' as int + n) as char
  }

  // ------------------------------------------------------------ writing

  function QuoteChar(c: octet): (r: text)
    ensures r != []
  {
    if IsPlain(c) then [c] else ['%', HexDigit(c as int / 16), HexDigit(c as int % 16)]
  }

  /** `http_quote`. */
  function Quote(s: text): text {
    if s == [] then [] else QuoteChar(s[0]) + Quote(s[1..])
  }

  /** What `sprintf` makes of a natural number. */
  function Decimal(n: nat): (r: text)
    ensures r != [] && forall i :: 0 <= i < |r| ==> IsDigit(r[i])
  {
    (if n < 10 then [] else Decimal(n / 10)) + [DigitChar(n % 10)]
  }

  function Signed(n: int): text { if n < 0 then ['-'] + Decimal(-n) else Decimal(n) }

  /** What `inet_ntoa` makes of an address. */
  function Dotted(a: nat): text {
    Decimal(a / 0x100_0000 % 256) + ['.'] + Decimal(a / 0x1_0000 % 256)
      + ['.'] + Decimal(a / 0x100 % 256) + ['.'] + Decimal(a % 256)
  }

  predicate Conv(f: text, c: octet) { |f| >= 2 && f[0] == '%' && f[1] == c }

  /** The arguments a format takes, in the writer's reading of it. */
  predicate Fits(f: text, args: seq<Arg>)
    decreases |f|
  {
    if f == [] then args == []
    else if Conv(f, 's') then args != [] && args[0].Str? && Fits(f[2..], args[1..])
    else if Conv(f, 'd') then args != [] && args[0].Num? && Fits(f[2..], args[1..])
    else if Conv(f, 'I') then args != [] && args[0].Addr? && Fits(f[2..], args[1..])
    else if Conv(f, '%') then Fits(f[2..], args)
    else Fits(f[1..], args)
  }

  /** The message that `osp2p_writef` sends. */
  function WriteF(f: text, args: seq<Arg>): text
    requires Fits(f, args)
    decreases |f|
  {
    if f == [] then []
    else if Conv(f, 's') then Quote(args[0].s) + WriteF(f[2..], args[1..])
    else if Conv(f, 'd') then Signed(args[0].n) + WriteF(f[2..], args[1..])
    else if Conv(f, 'I') then Dotted(args[0].a) + WriteF(f[2..], args[1..])
    else if Conv(f, '%') then ['%'] + WriteF(f[2..], args)
    else [f[0]] + WriteF(f[1..], args)
  }

  // ------------------------------------------------------------ scanning

  /** The byte at `i`, and a terminator behind the end. */
  function At(s: text, i: nat): octet { if i < |s| then s[i] else '\0' }

  /** `%s`: up to the next white space, with the escapes undone. */
  function TakeString(s: text): (r: (text, text))
    ensures |r.1| <= |s|
    decreases |s|
  {
    if s == [] || IsSpace(s[0]) then ([], s)
    else if s[0] == '%' && IsHex(At(s, 1)) && IsHex(At(s, 2)) then
      var r := TakeString(s[3..]);
      ([(XValue(s[1]) * 16 + XValue(s[2])) as char] + r.0, r.1)
    else
      var r := TakeString(s[1..]);
      ([s[0]] + r.0, r.1)
  }

  /** The digits of one part of an address: -1 when there is none. */
  function TakeOctet(s: text, x: int): (r: (int, text))
    requires -1 <= x
    ensures -1 <= r.0 && |r.1| <= |s|
    decreases |s|
  {
    if s != [] && IsDigit(s[0]) && x <= 255
    then TakeOctet(s[1..], (if x < 0 then 0 else 10 * x) + (s[0] as int - '0' as int))
    else (x, s)
  }

  function TakeParts(s: text, i: nat, value: nat): (r: Option<(nat, text)>)
    requires i < 4
    ensures r.Some? ==> |r.value.1| <= |s|
    decreases 4 - i
  {
    var (x, rest) := TakeOctet(s, -1);
    if x < 0 || x > 255 || (i < 3 && (rest == [] || rest[0] != '.')) then None
    else
      var value' := (value * 256 + x) % 0x1_0000_0000;
      if i == 3 then Some((value', rest)) else TakeParts(rest[1..], i + 1, value')
  }

  /** The loop of `%d`, with its guard against overflow. */
  function TakeInt(s: text, value: int): (r: (int, text))
    requires 0 <= value
    ensures 0 <= r.0 && |r.1| <= |s|
    decreases |s|
  {
    if s != [] && IsDigit(s[0]) && value < (INT_MAX - (s[0] as int - '0' as int)) / 10
    then TakeInt(s[1..], 10 * value + (s[0] as int - '0' as int))
    else (value, s)
  }

  function SkipSpace(s: text): (r: text)
    ensures |r| <= |s|
  {
    if s != [] && IsSpace(s[0]) then SkipSpace(s[1..]) else s
  }

  /** A `%n` position is an `int` argument like the others. */
  function Prepend(a: Arg, r: Option<(seq<Arg>, text)>): Option<(seq<Arg>, text)> {
    if r.None? then None else Some(([a] + r.value.0, r.value.1))
  }

  /** `osp2p_vsnscanf` on what is left of the format and of the message, which had
      `len` bytes: the arguments it fills in, and the part of the message behind. */
  function ScanF(f: text, s: text, len: nat): Option<(seq<Arg>, text)>
    requires |s| <= len
    decreases |f|
  {
    if f == [] then Some(([], s))
    else if Conv(f, 's') then
      var r := TakeString(s);
      Prepend(Str(r.0), ScanF(f[2..], r.1, len))
    else if Conv(f, 'I') then
      var r := TakeParts(s, 0, 0);
      if r.None? then None else Prepend(Addr(r.value.0), ScanF(f[2..], r.value.1, len))
    else if Conv(f, 'd') then
      if s == [] || !IsDigit(s[0]) then None
      else
        var r := TakeInt(s, 0);
        if r.1 != [] && IsDigit(r.1[0]) then None else Prepend(Num(r.0), ScanF(f[2..], r.1, len))
    else if Conv(f, 'n') then Prepend(Num(len - |s|), ScanF(f[2..], s, len))
    else if Conv(f, '%') then
      if s == [] || s[0] != '%' then None else ScanF(f[2..], s[1..], len)
    else if IsSpace(f[0]) then
      if s == [] || !IsSpace(s[0]) then None else ScanF(SkipSpace(f), SkipSpace(s), len)
    else if s == [] || s[0] != f[0] then None
    else ScanF(f[1..], s[1..], len)
  }

  // ------------------------------------------------------------ when scanning undoes writing

  /** The next character that the writer makes from `f` cannot be a digit. */
  predicate NoDigitNext(f: text) {
    f == [] || (!IsDigit(f[0]) && !Conv(f, 's') && !Conv(f, 'd') && !Conv(f, 'I'))
  }

  /** Formats that the scanner reads as the writer writes them: a string ends at
      white space or at the end, a number is not followed by a digit, and there
      is no `%n`, which the writer would copy. */
  predicate Readable(f: text)
    decreases |f|
  {
    if f == [] then true
    else if Conv(f, 's') then (|f| == 2 || IsSpace(f[2])) && Readable(f[2..])
    else if Conv(f, 'd') || Conv(f, 'I') then NoDigitNext(f[2..]) && Readable(f[2..])
    else if Conv(f, 'n') then false
    else if Conv(f, '%') then Readable(f[2..])
    else Readable(f[1..])
  }

  predicate Sendable(a: Arg) {
    match a
    case Str(s) => s != [] && forall i :: 0 <= i < |s| ==> s[i] != '\0'
    case Num(n) => 0 <= n <= INT_MAX - 10
    case Addr(a) => a < 0x1_0000_0000
  }

  /** Escaped text has no white space, and unescaping gives it back. */
  lemma {:induction false} StringBack(s: text, rest: text)
    requires rest == [] || IsSpace(rest[0])
    ensures TakeString(Quote(s) + rest) == (s, rest)
  {
    hide QuoteChar;
    if s == [] {
      assert Quote(s) + rest == rest;
    } else {
      var more := Quote(s[1..]) + rest;
      assert Quote(s) + rest == QuoteChar(s[0]) + more;
      StringBack(s[1..], rest);
      CharBack(s[0], more);
      hide TakeString;
      assert s == [s[0]] + s[1..];
    }
  }

  lemma CharBack(c: octet, more: text)
    ensures TakeString(QuoteChar(c) + more) == ([c] + TakeString(more).0, TakeString(more).1)
  {
    if IsPlain(c) {
      PlainBack(c, more);
    } else {
      EscapeBack(c as int, more);
    }
  }

  lemma PlainBack(c: octet, more: text)
    requires IsPlain(c)
    ensures TakeString([c] + more) == ([c] + TakeString(more).0, TakeString(more).1)
  {
    assert ([c] + more)[1..] == more;
  }

  lemma EscapeBack(c: nat, more: text)
    requires c < 256
    ensures TakeString(['%', HexDigit(c / 16), HexDigit(c % 16)] + more)
         == ([c as char] + TakeString(more).0, TakeString(more).1)
  {
    hide HexDigit, XValue, IsHex;
    var t := ['%', HexDigit(c / 16), HexDigit(c % 16)] + more;
    XValueOfHex(c / 16);
    XValueOfHex(c % 16);
    assert t[3..] == more && At(t, 1) == HexDigit(c / 16) && At(t, 2) == HexDigit(c % 16);
    assert c / 16 * 16 + c % 16 == c;
  }

  // ------------------------------------------------------------ numbers

  lemma DecimalSplit(n: nat, rest: text)
    requires n >= 10
    ensures Decimal(n) + rest == Decimal(n / 10) + ([DigitChar(n % 10)] + rest)
  {
  }

  lemma DigitBack(d: nat)
    requires d < 10
    ensures IsDigit(DigitChar(d)) && DigitChar(d) as int - '0' as int == d
  {
  }

  /** The guard of the `%d` loop lets a number through up to `INT_MAX - 10`. */
  lemma {:induction false} IntTakes(n: nat, rest: text)
    requires n <= INT_MAX - 10
    ensures TakeInt(Decimal(n) + rest, 0) == TakeInt(rest, n)
  {
    DigitBack(n % 10);
    var t := [DigitChar(n % 10)] + rest;
    assert t[1..] == rest;
    if n < 10 {
      assert Decimal(n) + rest == t;
    } else {
      DecimalSplit(n, rest);
      IntTakes(n / 10, t);
    }
  }

  /** ... and stops at a digit of any larger one. */
  lemma {:induction false} IntStops(n: nat, rest: text)
    requires n > INT_MAX - 10
    ensures var r := TakeInt(Decimal(n) + rest, 0).1; r != [] && IsDigit(r[0])
  {
    DigitBack(n % 10);
    var t := [DigitChar(n % 10)] + rest;
    DecimalSplit(n, rest);
    if n / 10 <= INT_MAX - 10 {
      IntTakes(n / 10, t);
    } else {
      IntStops(n / 10, t);
    }
  }

  lemma {:induction false} OctetTakes(n: nat, rest: text)
    requires n <= 255
    ensures TakeOctet(Decimal(n) + rest, -1) == TakeOctet(rest, n)
  {
    DigitBack(n % 10);
    var t := [DigitChar(n % 10)] + rest;
    assert t[1..] == rest;
    if n < 10 {
      assert Decimal(n) + rest == t;
    } else {
      DecimalSplit(n, rest);
      OctetTakes(n / 10, t);
    }
  }

  lemma OctetBack(n: nat, rest: text)
    requires n <= 255 && (rest == [] || !IsDigit(rest[0]))
    ensures TakeOctet(Decimal(n) + rest, -1) == (n, rest)
  {
    OctetTakes(n, rest);
  }

  lemma PartBack(n: nat, more: text, i: nat, value: nat)
    requires n <= 255 && i < 3
    ensures TakeParts(Decimal(n) + (['.'] + more), i, value)
        == TakeParts(more, i + 1, (value * 256 + n) % 0x1_0000_0000)
  {
    OctetBack(n, ['.'] + more);
    assert (['.'] + more)[1..] == more;
  }

  lemma AddressSum(a: nat)
    requires a < 0x1_0000_0000
    ensures var (p, q, r, s) := (a / 0x100_0000 % 256, a / 0x1_0000 % 256, a / 0x100 % 256, a % 256);
      ((p * 256 + q) * 256 + r) * 256 + s == a && (p * 256 + q) * 256 + r < 0x100_0000
  {
    var (x, y, z) := (a / 0x100, a / 0x100 / 0x100, a / 0x100 / 0x100 / 0x100);
    assert a == x * 256 + a % 256 && x == y * 256 + x % 256 && y == z * 256 + y % 256;
    assert a / 0x1_0000 == y && a / 0x100_0000 == z;
  }

  lemma Reassociate(p: text, q: text, r: text, s: text, rest: text)
    ensures p + ['.'] + q + ['.'] + r + ['.'] + s + rest == p + (['.'] + (q + (['.'] + (r + (['.'] + (s + rest))))))
  {
  }

  lemma AddressBack(a: nat, rest: text)
    requires a < 0x1_0000_0000 && (rest == [] || !IsDigit(rest[0]))
    ensures TakeParts(Dotted(a) + rest, 0, 0) == Some((a, rest))
  {
    hide TakeParts, Decimal, TakeOctet;
    var (p, q, r, s) := (a / 0x100_0000 % 256, a / 0x1_0000 % 256, a / 0x100 % 256, a % 256);
    var t3 := Decimal(s) + rest;
    var t2 := Decimal(r) + (['.'] + t3);
    var t1 := Decimal(q) + (['.'] + t2);
    Reassociate(Decimal(p), Decimal(q), Decimal(r), Decimal(s), rest);
    assert Dotted(a) + rest == Decimal(p) + (['.'] + t1);
    PartBack(p, t1, 0, 0);
    PartBack(q, t2, 1, p);
    PartBack(r, t3, 2, p * 256 + q);
    OctetBack(s, rest);
    AddressSum(a);
    hide Dotted;
    LastPart(t3, s, rest, (p * 256 + q) * 256 + r);
  }

  lemma LastPart(t: text, x: nat, rest: text, value: nat)
    requires TakeOctet(t, -1) == (x, rest) && x <= 255 && value * 256 + x < 0x1_0000_0000
    ensures TakeParts(t, 3, value) == Some((value * 256 + x, rest))
  {
  }

  // ------------------------------------------------------------ white space

  ghost predicate AllSendable(args: seq<Arg>) { forall i :: 0 <= i < |args| ==> Sendable(args[i]) }

  /** The octets that section 2.2 of RFC 1738 lets stand, by their codes. */
  predicate Unreserved(code: int) {
    || 0x30 <= code <= 0x39 || 0x41 <= code <= 0x5a || 0x61 <= code <= 0x7a
    || code in {0x21, 0x24, 0x27, 0x28, 0x29, 0x2a, 0x2b, 0x2c, 0x2d, 0x2e, 0x5f}
  }

  /** `t` encodes `s` octet by octet: what may stand does, and anything else is a
      percent sign and its code in two digits, none of them in lower case. */
  predicate Encodes(s: text, t: text) {
    if s == [] then t == []
    else if Unreserved(s[0] as int) then t != [] && t[0] == s[0] && Encodes(s[1..], t[1..])
    else
      && |t| >= 3 && t[0] == '%' && IsHex(t[1]) && IsHex(t[2]) && t[1] < 'a' && t[2] < 'a'
      && XValue(t[1]) * 16 + XValue(t[2]) == s[0] as int && Encodes(s[1..], t[3..])
  }

  /** The escaping is that of RFC 1738, for every string of octets, and takes no
      more room than `http_quote` allocates. */
  lemma {:induction false} QuoteEncodes(s: text)
    ensures Encodes(s, Quote(s)) && |s| <= |Quote(s)| <= 3 * |s|
    ensures |Quote(s)| == |s| ==> Quote(s) == s
    ensures |Quote(s)| == |s| <==> forall i :: 0 <= i < |s| ==> Unreserved(s[i] as int)
  {
    hide XValue, HexDigit;
    if s != [] {
      QuoteEncodes(s[1..]);
      var c, rest := s[0] as int, Quote(s[1..]);
      if Unreserved(c) {
        assert Quote(s) == [s[0]] + rest;
        assert s == [s[0]] + s[1..];
      } else {
        XValueOfHex(c / 16);
        XValueOfHex(c % 16);
        assert Quote(s) == ['%', HexDigit(c / 16), HexDigit(c % 16)] + rest;
        assert Quote(s)[3..] == rest;
        assert !forall i :: 0 <= i < |s| ==> Unreserved(s[i] as int);
      }
    }
  }

  lemma QuoteFirst(s: text)
    requires s != []
    ensures Quote(s) != [] && !IsSpace(Quote(s)[0])
  {
  }

  lemma DottedFirst(a: nat)
    ensures Dotted(a) != [] && IsDigit(Dotted(a)[0])
  {
    var d := Decimal(a / 0x100_0000 % 256);
    assert Dotted(a)[0] == d[0];
  }

  /** What the writer makes of a format that does not begin with white space does
      not either, and it begins with a digit only where the format may. */
  lemma WriteFirst(f: text, args: seq<Arg>)
    requires Readable(f) && Fits(f, args) && AllSendable(args) && (f == [] || !IsSpace(f[0]))
    ensures var w := WriteF(f, args); w == [] || !IsSpace(w[0])
    ensures var w := WriteF(f, args); NoDigitNext(f) ==> w == [] || !IsDigit(w[0])
  {
    if Conv(f, 's') {
      QuoteFirst(args[0].s);
    } else if Conv(f, 'I') {
      DottedFirst(args[0].a);
    } else if Conv(f, 'd') {
      assert Sendable(args[0]);
    }
  }

  lemma {:induction false} SpaceBack(f: text, args: seq<Arg>)
    requires Readable(f) && Fits(f, args) && AllSendable(args)
    ensures Readable(SkipSpace(f)) && Fits(SkipSpace(f), args)
    ensures SkipSpace(WriteF(f, args)) == WriteF(SkipSpace(f), args)
    decreases |f|
  {
    if f != [] && IsSpace(f[0]) {
      SpaceBack(f[1..], args);
      assert WriteF(f, args)[1..] == WriteF(f[1..], args);
    } else {
      WriteFirst(f, args);
    }
  }

  // ------------------------------------------------------------ the round trip

  /** Scanning what was written with the same format gives the arguments back and
      leaves nothing of the message. */
  lemma {:induction false} RoundTrip(f: text, args: seq<Arg>, len: nat)
    requires Readable(f) && Fits(f, args) && AllSendable(args) && |WriteF(f, args)| <= len
    ensures ScanF(f, WriteF(f, args), len) == Some((args, []))
    decreases |f|
  {
    hide TakeString, TakeParts, TakeInt, Quote, Dotted, Decimal;
    var w := WriteF(f, args);
    if f == [] {
    } else if Conv(f, 's') {
      StringTrip(f, args, len);
    } else if Conv(f, 'I') || Conv(f, 'd') {
      NumberTrip(f, args, len);
    } else if Conv(f, '%') {
      RoundTrip(f[2..], args, len);
      assert w[1..] == WriteF(f[2..], args);
    } else if IsSpace(f[0]) {
      SpaceBack(f, args);
      RoundTrip(SkipSpace(f), args, len);
    } else {
      RoundTrip(f[1..], args, len);
      assert w[1..] == WriteF(f[1..], args);
    }
  }

  lemma {:induction false} StringTrip(f: text, args: seq<Arg>, len: nat)
    requires Readable(f) && Fits(f, args) && AllSendable(args) && |WriteF(f, args)| <= len && Conv(f, 's')
    ensures ScanF(f, WriteF(f, args), len) == Some((args, []))
    decreases |f|, 0
  {
    hide TakeString, Quote;
    var rest := WriteF(f[2..], args[1..]);
    assert Sendable(args[0]);
    StringBack(args[0].s, rest);
    RoundTrip(f[2..], args[1..], len);
    assert args == [args[0]] + args[1..];
  }

  lemma {:induction false} NumberTrip(f: text, args: seq<Arg>, len: nat)
    requires Readable(f) && Fits(f, args) && AllSendable(args)
    requires |WriteF(f, args)| <= len && (Conv(f, 'I') || Conv(f, 'd'))
    ensures ScanF(f, WriteF(f, args), len) == Some((args, []))
    decreases |f|, 0
  {
    hide TakeParts, Dotted, Decimal;
    var rest := WriteF(f[2..], args[1..]);
    assert Sendable(args[0]);
    AfterNumber(f[2..], args[1..]);
    RoundTrip(f[2..], args[1..], len);
    assert args == [args[0]] + args[1..];
    if Conv(f, 'I') {
      AddressBack(args[0].a, rest);
    } else {
      IntTakes(args[0].n, rest);
      assert (Decimal(args[0].n) + rest)[0] == Decimal(args[0].n)[0];
    }
  }

  lemma AfterNumber(f: text, args: seq<Arg>)
    requires NoDigitNext(f) && Readable(f) && Fits(f, args) && AllSendable(args)
    ensures var w := WriteF(f, args); w == [] || !IsDigit(w[0])
  {
    if f == [] || !IsSpace(f[0]) { WriteFirst(f, args); }
  }

  /** The bound on integers is exact: a larger one is written but not read back. */
  lemma NumberExact(n: nat, len: nat)
    requires |Decimal(n)| <= len
    ensures ScanF("%d", WriteF("%d", [Num(n)]), len) == Some(([Num(n)], [])) <==> n <= INT_MAX - 10
  {
    var f: text := "%d";
    assert f[2..] == [] && [Num(n)][1..] == [];
    assert Fits(f[2..], [Num(n)][1..]) && WriteF(f[2..], [Num(n)][1..]) == [];
    assert WriteF(f, [Num(n)]) == Decimal(n) == Decimal(n) + [];
    if n <= INT_MAX - 10 {
      assert Readable(f[2..]);
      RoundTrip(f, [Num(n)], len);
    } else {
      IntStops(n, []);
    }
  }

  // ------------------------------------------------------------ the loops

  lemma {:induction false} QuoteAppend(s: text, c: octet)
    ensures Quote(s + [c]) == Quote(s) + QuoteChar(c)
  {
    if s == [] {
      assert [c][1..] == [];
    } else {
      assert (s + [c])[1..] == s[1..] + [c];
      QuoteAppend(s[1..], c);
    }
  }

  method HttpQuote(s: text) returns (os: text)
    ensures os == Quote(s)
  {
    os := [];
    var i := 0;
    while i < |s|
      invariant i <= |s| && os == Quote(s[..i])
    {
      var c := s[i];
      QuoteAppend(s[..i], c);
      assert s[..i + 1] == s[..i] + [c];
      if IsPlain(c) {
        os := os + [c];
      } else {
        os := os + ['%'];
        os := os + [HexDigit(c as int / 16)];
        os := os + [HexDigit(c as int % 16)];
      }
      i := i + 1;
    }
    assert s[..i] == s;
  }

  lemma Assoc(x: text, y: text, z: text)
    ensures x + (y + z) == (x + y) + z
  {
  }

  /** What one item of a format adds to the message. */
  ghost function ItemText(f: text, args: seq<Arg>): text
    requires f != [] && Fits(f, args)
  {
    if Conv(f, 's') then Quote(args[0].s)
    else if Conv(f, 'd') then Signed(args[0].n)
    else if Conv(f, 'I') then Dotted(args[0].a)
    else if Conv(f, '%') then ['%']
    else [f[0]]
  }

  /** The loop of `osp2p_writef` that builds the message. */
  method Format(format: text, vals: seq<Arg>) returns (buf: text)
    requires Fits(format, vals)
    ensures buf == WriteF(format, vals)
  {
    buf := [];
    var p, v := 0, 0;
    while p < |format|
      invariant p <= |format| && v <= |vals| && Fits(format[p..], vals[v..])
      invariant WriteF(format, vals) == buf + WriteF(format[p..], vals[v..])
    {
      hide Quote, Dotted, Decimal, Signed;
      var f := format[p..];
      assert f[1..] == format[p + 1..];
      ghost var was, item, old_p, old_v := buf, ItemText(f, vals[v..]), p, v;
      if Conv(f, 's') {
        var quoted := HttpQuote(vals[v].s);
        buf := buf + quoted;
        p, v := p + 2, v + 1;
      } else if Conv(f, 'd') {
        buf := buf + Signed(vals[v].n);
        p, v := p + 2, v + 1;
      } else if Conv(f, 'I') {
        buf := buf + Dotted(vals[v].a);
        p, v := p + 2, v + 1;
      } else if Conv(f, '%') {
        buf := buf + ['%'];
        p := p + 2;
      } else {
        buf := buf + [format[p]];
        p := p + 1;
      }
      assert buf == was + item;
      assert WriteF(f, vals[old_v..]) == item + WriteF(format[p..], vals[v..]);
      Assoc(was, item, WriteF(format[p..], vals[v..]));
    }
  }

  /** The characters read so far, joined with what the rest gives. */
  ghost function WithText(str: text, r: (text, text)): (text, text) { (str + r.0, r.1) }

  lemma TextJoins(str: text, c: octet, r: (text, text))
    ensures WithText([], r) == r && WithText(str, ([], r.1)) == (str, r.1)
    ensures WithText(str + [c], r) == WithText(str, ([c] + r.0, r.1))
  {
    assert [] + r.0 == r.0 && str + [] == str;
    assert str + [c] + r.0 == str + ([c] + r.0);
  }

  method ScanString(s: text, from: nat) returns (str: text, q: nat)
    requires from <= |s|
    ensures q <= |s| && TakeString(s[from..]) == (str, s[q..])
  {
    hide XValue, IsHex, IsSpace;
    str, q := [], from;
    TextJoins([], ' ', TakeString(s[from..]));
    while q < |s| && !IsSpace(s[q])
      invariant q <= |s|
      invariant TakeString(s[from..]) == WithText(str, TakeString(s[q..]))
    {
      hide WithText;
      var t := s[q..];
      assert t[1..] == s[q + 1..] && At(t, 1) == At(s, q + 1) && At(t, 2) == At(s, q + 2);
      HexInside(s, q);
      if s[q] == '%' && IsHex(At(s, q + 1)) && IsHex(At(s, q + 2)) {
        assert t[3..] == s[q + 3..];
        var c: octet := (XValue(s[q + 1]) * 16 + XValue(s[q + 2])) as char;
        TextJoins(str, c, TakeString(s[q + 3..]));
        str := str + [c];
        q := q + 3;
      } else {
        TextJoins(str, s[q], TakeString(s[q + 1..]));
        str := str + [s[q]];
        q := q + 1;
      }
    }
    TextJoins(str, ' ', ([], s[q..]));
  }

  lemma HexInside(s: text, q: nat)
    requires q < |s|
    ensures IsHex(At(s, q + 1)) ==> q + 1 < |s|
    ensures IsHex(At(s, q + 2)) ==> q + 2 < |s| && 0 <= XValue(s[q + 2]) < 16
    ensures IsHex(At(s, q + 1)) ==> 0 <= XValue(s[q + 1]) < 16
  {
  }

  method ScanOctet(s: text, from: nat) returns (x: int, q: nat)
    requires from <= |s|
    ensures q <= |s| && -1 <= x && TakeOctet(s[from..], -1) == (x, s[q..])
  {
    hide IsDigit;
    x, q := -1, from;
    while q < |s| && IsDigit(s[q]) && x <= 255
      invariant q <= |s| && -1 <= x && TakeOctet(s[from..], -1) == TakeOctet(s[q..], x)
    {
      assert s[q..][1..] == s[q + 1..];
      x := (if x < 0 then 0 else 10 * x) + DigitValue(s[q]);
      q := q + 1;
    }
  }

  method ScanAddress(s: text, from: nat) returns (ok: bool, value: nat, q: nat)
    requires from <= |s|
    ensures q <= |s| && TakeParts(s[from..], 0, 0) == if ok then Some((value, s[q..])) else None
  {
    hide IsDigit, TakeOctet;
    value, q := 0, from;
    var i := 0;
    while i < 4
      invariant 0 <= i <= 4 && q <= |s|
      invariant TakeParts(s[from..], 0, 0) == if i < 4 then TakeParts(s[q..], i, value) else Some((value, s[q..]))
    {
      var x: int;
      x, q := ScanOctet(s, q);
      if x < 0 || x > 255 || (i < 3 && (q == |s| || s[q] != '.')) {
        return false, 0, q;
      }
      assert q < |s| ==> s[q..][1..] == s[q + 1..];
      value := (value * 256 + x) % 0x1_0000_0000;
      q := if i < 3 then q + 1 else q;
      i := i + 1;
    }
    return true, value, q;
  }

  function DigitValue(c: octet): (d: nat)
    requires IsDigit(c)
    ensures d == c as int - '0' as int && d < 10
  {
    c as int - '0' as int
  }

  method ScanInt(s: text, from: nat) returns (value: nat, q: nat)
    requires from <= |s|
    ensures q <= |s| && TakeInt(s[from..], 0) == (value, s[q..])
  {
    hide IsDigit;
    value, q := 0, from;
    while q < |s| && IsDigit(s[q]) && value < (INT_MAX - DigitValue(s[q])) / 10
      invariant q <= |s| && TakeInt(s[from..], 0) == TakeInt(s[q..], value)
    {
      assert s[q..][1..] == s[q + 1..];
      value := 10 * value + DigitValue(s[q]);
      q := q + 1;
    }
  }

  method ScanSpace(s: text, from: nat) returns (q: nat)
    requires from <= |s|
    ensures q <= |s| && SkipSpace(s[from..]) == s[q..]
  {
    q := from;
    while q < |s| && IsSpace(s[q])
      invariant q <= |s| && SkipSpace(s[from..]) == SkipSpace(s[q..])
    {
      assert s[q..][1..] == s[q + 1..];
      q := q + 1;
    }
  }

  /** What the scan has so far, joined with what the rest gives. */
  ghost function Joined(got: seq<Arg>, r: Option<(seq<Arg>, text)>): Option<(seq<Arg>, text)> {
    if r.None? then None else Some((got + r.value.0, r.value.1))
  }

  lemma Joins(got: seq<Arg>, a: Arg, r: Option<(seq<Arg>, text)>)
    ensures Joined([], r) == r
    ensures Joined(got + [a], r) == Joined(got, Prepend(a, r))
    ensures r.Some? && r.value.0 == [] ==> Joined(got, r) == Some((got, r.value.1))
    ensures r.None? ==> Joined(got, r) == None
  {
    assert got + [] == got;
    if r.Some? {
      assert [] + r.value.0 == r.value.0;
      assert got + [a] + r.value.0 == got + ([a] + r.value.0);
    }
  }

  /** The loop of `osp2p_vsnscanf`. */
  method Scan(s: text, format: text) returns (ok: bool, vals: seq<Arg>, q: nat)
    ensures q <= |s| && ScanF(format, s, |s|) == if ok then Some((vals, s[q..])) else None
  {
    hide TakeString, TakeInt, TakeParts, SkipSpace, IsSpace, IsDigit, Joined, Prepend;
    vals, q := [], 0;
    var p := 0;
    assert format[0..] == format && s[0..] == s;
    Joins([], Num(0), ScanF(format, s, |s|));
    while p < |format|
      invariant p <= |format| && q <= |s|
      invariant ScanF(format, s, |s|) == Joined(vals, ScanF(format[p..], s[q..], |s|))
      decreases |format| - p
    {
      var f := format[p..];
      assert f[1..] == format[p + 1..];
      assert q < |s| ==> s[q..][0] == s[q] && s[q..][1..] == s[q + 1..];
      Joins(vals, Num(0), None);
      if Conv(f, 's') {
        var str, q' := ScanString(s, q);
        Joins(vals, Str(str), ScanF(format[p + 2..], s[q'..], |s|));
        vals, q, p := vals + [Str(str)], q', p + 2;
      } else if Conv(f, 'I') {
        var got, value, q' := ScanAddress(s, q);
        if !got { return false, vals, q; }
        Joins(vals, Addr(value), ScanF(format[p + 2..], s[q'..], |s|));
        vals, q, p := vals + [Addr(value)], q', p + 2;
      } else if Conv(f, 'd') {
        if q == |s| || !IsDigit(s[q]) { return false, vals, q; }
        var value, q' := ScanInt(s, q);
        if q' < |s| && IsDigit(s[q']) { return false, vals, q; }
        Joins(vals, Num(value), ScanF(format[p + 2..], s[q'..], |s|));
        vals, q, p := vals + [Num(value)], q', p + 2;
      } else if Conv(f, 'n') {
        Joins(vals, Num(q), ScanF(format[p + 2..], s[q..], |s|));
        vals, p := vals + [Num(q)], p + 2;
      } else if Conv(f, '%') {
        if q == |s| || s[q] != '%' { return false, vals, q; }
        q, p := q + 1, p + 2;
      } else if IsSpace(format[p]) {
        if q == |s| || !IsSpace(s[q]) { return false, vals, q; }
        q := ScanSpace(s, q);
        var p' := ScanSpace(format, p);
        SpaceMoves(f);
        p := p';
      } else {
        if q == |s| || s[q] != format[p] { return false, vals, q; }
        q, p := q + 1, p + 1;
      }
    }
    assert format[p..] == [];
    Joins(vals, Num(0), Some(([], s[q..])));
    return true, vals, q;
  }

  lemma SpaceMoves(f: text)
    requires f != [] && IsSpace(f[0])
    ensures |SkipSpace(f)| < |f|
  {
  }
}
