// What is written is read back: loading a dumped text gives the value dumped.

module JsonRoundTrip {
  import opened Closed
  import opened Octets
  import opened Wrappers
  import opened Utf8
  import opened JsonValue
  import opened JsonDump
  import opened JsonLex
  import opened JsonReal
  import opened JsonParse

  // The text `d` stands in `t` at `p`.
  predicate At(t: Bytes, p: nat, d: Bytes) {
    p + |d| <= |t| && t[p..p + |d|] == d
  }

  lemma AtConcat(t: Bytes, p: nat, a: Bytes, b: Bytes)
    ensures At(t, p, a + b) <==> At(t, p, a) && At(t, p + |a|, b)
  {
    if At(t, p, a + b) {
      assert a == (a + b)[..|a|] && b == (a + b)[|a|..];
      assert t[p..p + |a|] == t[p..p + |a + b|][..|a|];
      assert t[p + |a|..p + |a| + |b|] == t[p..p + |a + b|][|a|..];
    }
    if At(t, p, a) && At(t, p + |a|, b) {
      assert t[p..p + |a + b|] == t[p..p + |a|] + t[p + |a|..p + |a| + |b|];
    }
  }

  lemma AtIndex(t: Bytes, p: nat, d: Bytes, i: nat)
    requires At(t, p, d) && i < |d|
    ensures t[p + i] == d[i]
  {
    assert t[p + i] == t[p..p + |d|][i];
  }

  // -------------------------------------------------------------- strings

  // What one character of a string is written as.
  function Out(s: Bytes, flags: Flags): Bytes
    requires CharLen(s) > 0
  {
    AcceptedIsEncoded(s);
    if MustEscape(CharValue(s), flags) then Escape(CharValue(s)) else s[..CharLen(s)]
  }

  function Body(s: Bytes, flags: Flags): Bytes
    requires Valid(s)
    decreases |s|
  {
    if s == [] then [] else Out(s, flags) + Body(s[CharLen(s)..], flags)
  }

  lemma Regroup(held: Bytes, out: Bytes, body: Bytes)
    ensures held + out + (body + [QUOTE]) == held + (out + body) + [QUOTE]
    ensures held + out + body + [QUOTE] == held + (out + body) + [QUOTE]
  {
  }

  lemma {:induction false} EmittedIsBody(s: Bytes, held: Bytes, flags: Flags)
    requires Valid(s)
    ensures Emitted(s, held, flags) == held + Body(s, flags) + [QUOTE]
    decreases |s|
  {
    if s == [] {
      assert held + [] == held;
    } else {
      var n := CharLen(s);
      var rest := Body(s[n..], flags);
      AcceptedIsEncoded(s);
      Regroup(held, Out(s, flags), rest);
      if MustEscape(CharValue(s), flags) {
        EmittedIsBody(s[n..], [], flags);
        assert [] + rest == rest;
      } else {
        EmittedIsBody(s[n..], held + s[..n], flags);
      }
    }
  }

  lemma HexRoundTrip(v: int)
    requires 0 <= v < 16
    ensures HexChar(HexDigit(v)) && HexValue(HexDigit(v)) == v
  {
  }

  lemma NibblesOf(v: int)
    requires 0 <= v < 0x10000
    ensures v == v / 0x1000 * 0x1000 + v / 0x100 % 0x10 * 0x100 + v / 0x10 % 0x10 * 0x10 + v % 0x10
    ensures 0 <= v / 0x1000 < 16
  {
    assert v / 0x100 == v / 0x10 / 0x10;
    assert v / 0x1000 == v / 0x100 / 0x10;
  }

  lemma UnitOfEscape(t: Bytes, p: nat, v: int)
    requires 0 <= v < 0x10000 && At(t, p, UnicodeEscape(v))
    ensures t[p] == BACKSLASH && t[p + 1] == 0x75 && FourHex(t, p + 2) && Unit(t, p + 2) == v
  {
    var e := UnicodeEscape(v);
    NibblesOf(v);
    AtIndex(t, p, e, 0);
    AtIndex(t, p, e, 1);
    AtIndex(t, p, e, 2);
    AtIndex(t, p, e, 3);
    AtIndex(t, p, e, 4);
    AtIndex(t, p, e, 5);
    HexRoundTrip(v / 0x1000);
    HexRoundTrip(v / 0x100 % 0x10);
    HexRoundTrip(v / 0x10 % 0x10);
    HexRoundTrip(v % 0x10);
  }

  // An escape read back: its shape, and the character it names.
  ghost predicate Reads(t: Bytes, p: nat, q: nat, out: Bytes) {
    forall k: nat {:trigger Opened(0, k)} :: Opened(0, k) ==> ReadsAt(t, p, q, out, k)
  }

  predicate ReadsAt(t: Bytes, p: nat, q: nat, out: Bytes, k: nat) {
    && CloseFrom(t, p) == CloseFrom(t, q)
    && (CloseFrom(t, p) == Some(k) ==> Unescape(t, p, k) == Then(out, Unescape(t, q, k)))
  }

  lemma ShortReads(t: Bytes, p: nat, c: byte)
    requires ShortEscape(c) && At(t, p, [BACKSLASH, c])
    ensures Reads(t, p, p + 2, [ShortValue(c)])
  {
    AtIndex(t, p, [BACKSLASH, c], 0);
    AtIndex(t, p, [BACKSLASH, c], 1);
  }

  lemma BmpReads(t: Bytes, p: nat, cp: int)
    requires IsScalar(cp) && 0 < cp < 0x10000 && At(t, p, UnicodeEscape(cp))
    ensures Reads(t, p, p + 6, Enc(cp))
  {
    UnitOfEscape(t, p, cp);
  }

  lemma PairReads(t: Bytes, p: nat, cp: int)
    requires 0x10000 <= cp <= 0x10FFFF && At(t, p, Escape(cp))
    ensures Reads(t, p, p + 12, Enc(cp))
  {
    var offset := cp - 0x10000;
    Halves(offset);
    var high := 0xD800 + offset / 0x400;
    var low := 0xDC00 + offset % 0x400;
    AtConcat(t, p, UnicodeEscape(high), UnicodeEscape(low));
    UnitOfEscape(t, p, high);
    UnitOfEscape(t, p + 6, low);
    SurrogatesRead(t, p, cp, high, low);
  }

  lemma SurrogatesRead(t: Bytes, p: nat, cp: int, high: int, low: int)
    requires 0x10000 <= cp <= 0x10FFFF && p + 12 <= |t|
    requires 0xD800 <= high < 0xDC00 <= low < 0xE000 && cp == (high - 0xD800) * 0x400 + (low - 0xDC00) + 0x10000
    requires t[p] == BACKSLASH && t[p + 1] == 0x75 && FourHex(t, p + 2) && Unit(t, p + 2) == high
    requires t[p + 6] == BACKSLASH && t[p + 7] == 0x75 && FourHex(t, p + 8) && Unit(t, p + 8) == low
    ensures Reads(t, p, p + 12, Enc(cp))
  {
    assert CloseFrom(t, p) == CloseFrom(t, p + 6) == CloseFrom(t, p + 12);
  }

  lemma EscapeReads(t: Bytes, p: nat, cp: int)
    requires IsScalar(cp) && cp != 0 && MustEscape(cp, Flags(0, true, true, false, false, false, true))
    requires At(t, p, Escape(cp))
    ensures Reads(t, p, p + |Escape(cp)|, Enc(cp))
  {
    if cp == 0x5C { ShortReads(t, p, 0x5C); }
    else if cp == 0x22 { ShortReads(t, p, 0x22); }
    else if cp == 0x08 { ShortReads(t, p, 0x62); }
    else if cp == 0x0C { ShortReads(t, p, 0x66); }
    else if cp == 0x0A { ShortReads(t, p, 0x6E); }
    else if cp == 0x0D { ShortReads(t, p, 0x72); }
    else if cp == 0x09 { ShortReads(t, p, 0x74); }
    else if cp == 0x2F { ShortReads(t, p, 0x2F); }
    else if cp < 0x10000 { BmpReads(t, p, cp); }
    else { PairReads(t, p, cp); }
  }

  // Bytes that go out as they are come back as they are.
  predicate PlainBytes(d: Bytes) {
    forall i :: 0 <= i < |d| ==> d[i] >= 0x20 && d[i] != QUOTE && d[i] != BACKSLASH
  }

  lemma ByteReads(t: Bytes, p: nat)
    requires p < |t| && t[p] >= 0x20 && t[p] != QUOTE && t[p] != BACKSLASH
    ensures Reads(t, p, p + 1, [t[p]])
  {
  }

  lemma ReadsJoin(t: Bytes, p: nat, q: nat, s: nat, a: Bytes, b: Bytes, out: Bytes)
    requires Reads(t, p, q, a) && Reads(t, q, s, b) && out == a + b
    ensures Reads(t, p, s, out)
  {
    forall k: nat {:trigger Opened(0, k)} | Opened(0, k)
      ensures ReadsAt(t, p, s, out, k)
    {
      assert ReadsAt(t, p, q, a, k) && ReadsAt(t, q, s, b, k);
      if CloseFrom(t, p) == Some(k) {
        ThenThen(a, b, Unescape(t, s, k));
      }
    }
  }

  lemma {:induction false} PlainReads(t: Bytes, p: nat, d: Bytes)
    requires At(t, p, d) && d != [] && PlainBytes(d)
    ensures Reads(t, p, p + |d|, d)
    decreases |d|
  {
    AtIndex(t, p, d, 0);
    ByteReads(t, p);
    assert d == [d[0]] + d[1..];
    if |d| == 1 {
      assert d == [t[p]];
    } else {
      AtConcat(t, p, [d[0]], d[1..]);
      PlainReads(t, p + 1, d[1..]);
      ReadsJoin(t, p, p + 1, p + |d|, [d[0]], d[1..], d);
    }
  }

  lemma EncodedIsPlain(cp: int)
    requires IsScalar(cp) && cp >= 0x20 && cp != 0x22 && cp != 0x5C
    ensures PlainBytes(Enc(cp))
  {
  }

  lemma OutReads(t: Bytes, p: nat, s: Bytes, flags: Flags)
    requires CharLen(s) > 0 && CharValue(s) != 0 && At(t, p, Out(s, flags))
    ensures Reads(t, p, p + |Out(s, flags)|, s[..CharLen(s)])
  {
    AcceptedIsEncoded(s);
    var cp := CharValue(s);
    if MustEscape(cp, flags) {
      EscapeReads(t, p, cp);
    } else {
      EncodedIsPlain(cp);
      PlainReads(t, p, Enc(cp));
    }
  }

  lemma NonzeroValue(s: Bytes)
    requires NulFree(s) && CharLen(s) > 0
    ensures CharValue(s) != 0
  {
  }

  // The body of a string in front of its closing quote.
  lemma {:induction false} BodyReads(t: Bytes, p: nat, s: Bytes, flags: Flags, end: nat)
    requires Valid(s) && NulFree(s) && At(t, p, Body(s, flags)) && s != [] && end == p + |Body(s, flags)|
    ensures Reads(t, p, end, s)
    decreases |s|
  {
    var n := CharLen(s);
    var q := BodySplits(t, p, s, flags);
    if s[n..] == [] {
      assert s[..n] == s && q == end;
    } else {
      BodyReads(t, q, s[n..], flags, end);
      ReadsJoin(t, p, q, end, s[..n], s[n..], s);
    }
  }

  lemma BodySplits(t: Bytes, p: nat, s: Bytes, flags: Flags) returns (q: nat)
    requires Valid(s) && NulFree(s) && At(t, p, Body(s, flags)) && s != []
    ensures var n := CharLen(s);
            && 0 < n <= |s| && s == s[..n] + s[n..]
            && Reads(t, p, q, s[..n]) && At(t, q, Body(s[n..], flags)) && q + |Body(s[n..], flags)| == p + |Body(s, flags)|
  {
    AtConcat(t, p, Out(s, flags), Body(s[CharLen(s)..], flags));
    NonzeroValue(s);
    OutReads(t, p, s, flags);
    q := p + |Out(s, flags)|;
  }

  lemma StringAtIs(t: Bytes, p: nat, k: nat, s: Bytes, text: Bytes)
    requires p < k < |t| && CloseFrom(t, p + 1) == Some(k) && text == t[p..k + 1]
    requires CloseFrom(text, 1) == Some(k - p) && Unescape(text, 1, k - p) == Some(s)
    ensures StringAt(t, p) == (TString(s), k + 1)
  {
  }

  lemma ScanAtQuote(t: Bytes, p: nat, k: nat, s: Bytes, text: Bytes, env: Env)
    requires p < k < |t| && t[p] == QUOTE && CloseFrom(t, p + 1) == Some(k) && text == t[p..k + 1]
    requires CloseFrom(text, 1) == Some(k - p) && Unescape(text, 1, k - p) == Some(s)
    ensures Scan(t, p, env) == (TString(s), k + 1)
  {
    StringAtIs(t, p, k, s, text);
  }

  lemma StringTextShape(s: Bytes, flags: Flags)
    requires Valid(s)
    ensures StringText(s, flags) == [QUOTE] + Body(s, flags) + [QUOTE]
  {
    EmittedIsBody(s, [], flags);
    assert [QUOTE] + ([] + Body(s, flags) + [QUOTE]) == [QUOTE] + Body(s, flags) + [QUOTE];
  }

  lemma QuotedAt(t: Bytes, p: nat, body: Bytes, k: nat)
    requires At(t, p, [QUOTE] + body + [QUOTE]) && k == p + 1 + |body|
    ensures k < |t| && t[p] == QUOTE && At(t, p + 1, body) && t[k] == QUOTE
  {
    AtConcat(t, p, [QUOTE] + body, [QUOTE]);
    AtConcat(t, p, [QUOTE], body);
    AtIndex(t, p, [QUOTE], 0);
    AtIndex(t, k, [QUOTE], 0);
  }

  lemma AtClosingQuote(t: Bytes, k: nat)
    requires k < |t| && t[k] == QUOTE
    ensures CloseFrom(t, k) == Some(k) && Unescape(t, k, k) == Some([])
  {
  }

  lemma QuotedReads(t: Bytes, p: nat, s: Bytes, text: Bytes, flags: Flags, k: nat)
    requires Valid(s) && NulFree(s) && text == [QUOTE] + Body(s, flags) + [QUOTE] && At(t, p, text) && k + 1 == p + |text|
    ensures k < |t| && t[p] == QUOTE && CloseFrom(t, p + 1) == Some(k) && Unescape(t, p + 1, k) == Some(s)
  {
    QuotedAt(t, p, Body(s, flags), k);
    AtClosingQuote(t, k);
    if s != [] {
      BodyReads(t, p + 1, s, flags, k);
      BodyThenQuote(t, p + 1, s, k);
    }
  }

  lemma BodyThenQuote(t: Bytes, p: nat, s: Bytes, k: nat)
    requires Reads(t, p, k, s) && k <= |t| && CloseFrom(t, k) == Some(k) && Unescape(t, k, k) == Some([])
    ensures p <= k ==> CloseFrom(t, p) == Some(k) && Unescape(t, p, k) == Some(s)
  {
    assert Opened(0, k);
    assert ReadsAt(t, p, k, s, k);
    assert s + [] == s;
  }

  lemma AtItself(text: Bytes)
    ensures At(text, 0, text)
  {
    assert text[0..|text|] == text;
  }

  lemma QuotedAlone(s: Bytes, text: Bytes, flags: Flags)
    requires Valid(s) && NulFree(s) && text == [QUOTE] + Body(s, flags) + [QUOTE]
    ensures CloseFrom(text, 1) == Some(|text| - 1) && Unescape(text, 1, |text| - 1) == Some(s)
  {
    AtItself(text);
    QuotedReads(text, 0, s, text, flags, |text| - 1);
  }

  lemma QuotedScans(t: Bytes, p: nat, s: Bytes, text: Bytes, flags: Flags, env: Env)
    requires Valid(s) && NulFree(s) && text == [QUOTE] + Body(s, flags) + [QUOTE] && At(t, p, text)
    ensures ScansTo(t, p, TString(s), p + |text|, env)
  {
    var k := p + |text| - 1;
    QuotedReads(t, p, s, text, flags, k);
    QuotedAlone(s, text, flags);
    ScanAtQuote(t, p, k, s, text, env);
  }

  // A dumped string in a text is the token it was.
  lemma StringScans(t: Bytes, p: nat, s: Bytes, flags: Flags, env: Env)
    requires Valid(s) && NulFree(s) && At(t, p, StringText(s, flags))
    ensures ScansTo(t, p, TString(s), p + |StringText(s, flags)|, env)
  {
    var text := ShapedText(s, flags);
    QuotedScans(t, p, s, text, flags, env);
  }

  lemma ShapedText(s: Bytes, flags: Flags) returns (text: Bytes)
    requires Valid(s)
    ensures text == StringText(s, flags) && text == [QUOTE] + Body(s, flags) + [QUOTE]
  {
    StringTextShape(s, flags);
    text := StringText(s, flags);
  }

  // ------------------------------------------------------------- integers

  lemma {:induction false} DigitsRoundTrip(n: nat)
    ensures AllDigits(Digits(n)) && Decimal(Digits(n)) == n
    ensures Digits(n)[0] == 0x30 ==> n == 0
  {
    if n < 10 {
      assert Digits(n)[..0] == [];
    } else {
      DigitsRoundTrip(n / 10);
      var d := Digits(n);
      assert d[..|d| - 1] == Digits(n / 10);
      assert d[0] == Digits(n / 10)[0];
    }
  }

  // What follows a number or a word so that neither goes on.
  predicate EndsAt(t: Bytes, p: nat) {
    p == |t| || (p < |t| && !Digit(t[p]) && !Alpha(t[p]) && t[p] != 0x2E)
  }

  lemma {:induction false} DigitsEndAt(t: Bytes, p: nat, q: nat)
    requires p <= q <= |t| && (forall i :: p <= i < q ==> Digit(t[i])) && EndsAt(t, q)
    ensures DigitsEnd(t, p) == q
    decreases q - p
  {
    if p < q { DigitsEndAt(t, p + 1, q); }
  }

  lemma WholeOfDigits(t: Bytes, p: nat, n: nat)
    requires At(t, p, Digits(n)) && EndsAt(t, p + |Digits(n)|)
    ensures DigitAt(t, p)
    ensures (if t[p] == 0x30 then p + 1 else DigitsEnd(t, p + 1)) == p + |Digits(n)|
    ensures t[p] == 0x30 ==> !DigitAt(t, p + 1)
  {
    var d := Digits(n);
    DigitsRoundTrip(n);
    forall i | p <= i < p + |d| ensures Digit(t[i]) {
      AtIndex(t, p, d, i - p);
    }
    AtIndex(t, p, d, 0);
    DigitsEndAt(t, p + 1, p + |d|);
  }

  lemma IntegerWhole(t: Bytes, p: nat, i: int, text: Bytes, q: nat)
    requires text == IntegerText(i) && At(t, p, text) && q == p + |text| && EndsAt(t, q)
    ensures p < |t| && WholeEnd(t, p) == q && text != [] && text[0] == t[p]
  {
    var n := if i < 0 then -i else i;
    DigitsRoundTrip(n);
    AtIndex(t, p, text, 0);
    if i < 0 {
      AtConcat(t, p, [0x2D], Digits(n));
      WholeOfDigits(t, p + 1, n);
    } else {
      WholeOfDigits(t, p, n);
    }
  }

  lemma IntegerTextReads(i: int)
    ensures IntegerOf(IntegerText(i)) == i
  {
    var text, n := IntegerText(i), if i < 0 then -i else i;
    DigitsRoundTrip(n);
    if i < 0 { assert text[1..] == Digits(n); }
  }

  lemma IntegerScans(t: Bytes, p: nat, i: int, env: Env)
    requires INT64_MIN <= i <= INT64_MAX && At(t, p, IntegerText(i)) && EndsAt(t, p + |IntegerText(i)|)
    ensures Scan(t, p, env) == (TInteger(IntegerText(i)), p + |IntegerText(i)|)
  {
    var text := IntegerText(i);
    var q := p + |text|;
    IntegerWhole(t, p, i, text, q);
    IntegerTextReads(i);
    IntegerStarts(i);
    NumberIs(t, p, q, text, i, env);
  }

  lemma IntegerStarts(i: int)
    ensures IntegerText(i) != [] && (IntegerText(i)[0] == 0x2D || Digit(IntegerText(i)[0]))
  {
    DigitsRoundTrip(if i < 0 then -i else i);
  }

  lemma NumberIs(t: Bytes, p: nat, q: nat, text: Bytes, i: int, env: Env)
    requires p < q <= |t| && t[p..q] == text && WholeEnd(t, p) == q && EndsAt(t, q)
    requires t[p] == 0x2D || Digit(t[p])
    requires IntegerOf(text) == i && INT64_MIN <= i <= INT64_MAX
    ensures Scan(t, p, env) == (TInteger(text), q)
  {
    assert AfterWhole(t, p, q, env) == (TInteger(text), q);
    assert Number(t, p, env) == (TInteger(text), q);
  }

  // ---------------------------------------------------------------- reals

  // The digits of a whole part: no zero in front.
  predicate WholeDigits(d: Bytes) {
    d != [] && AllDigits(d) && (d[0] == 0x30 ==> |d| == 1)
  }

  // What a whole part goes on with, if with no digit.
  lemma WholeAt(t: Bytes, p: nat, negative: bool, d: Bytes, q: nat)
    requires WholeDigits(d) && At(t, p, (if negative then [MINUS] else []) + d) && q == p + (if negative then 1 else 0) + |d|
    requires q < |t| ==> !Digit(t[q])
    ensures p < q <= |t| && WholeEnd(t, p) == q && (t[p] == MINUS || Digit(t[p]))
  {
    var s := if negative then p + 1 else p;
    AtConcat(t, p, if negative then [MINUS] else [], d);
    if negative { AtIndex(t, p, [MINUS], 0); }
    DigitsAt(t, s, d, q);
    AtIndex(t, s, d, 0);
  }

  lemma DigitsAt(t: Bytes, p: nat, d: Bytes, q: nat)
    requires AllDigits(d) && d != [] && At(t, p, d) && q == p + |d| && (q < |t| ==> !Digit(t[q]))
    ensures p < q <= |t| && DigitAt(t, p) && DigitsEnd(t, p + 1) == q
  {
    forall i | p <= i < q ensures Digit(t[i]) {
      AtIndex(t, p, d, i - p);
    }
    DigitsEndBefore(t, p + 1, q);
  }

  lemma {:induction false} DigitsEndBefore(t: Bytes, p: nat, q: nat)
    requires p <= q <= |t| && (forall i :: p <= i < q ==> Digit(t[i])) && (q < |t| ==> !Digit(t[q]))
    ensures DigitsEnd(t, p) == q
    decreases q - p
  {
    if p < q { DigitsEndBefore(t, p + 1, q); }
  }

  // An exponent as jansson writes it.
  function ExponentText(small: bool, d: Bytes): Bytes {
    [SMALL_E] + (if small then [MINUS] else []) + d
  }

  lemma ExponentEnds(t: Bytes, p: nat, q: nat, small: bool, d: Bytes, end: nat, env: Env)
    requires p < q <= |t| && AllDigits(d) && d != [] && At(t, q, ExponentText(small, d)) && EndsAt(t, end)
    requires end == q + |ExponentText(small, d)|
    ensures end <= |t| && Exponent(t, p, q, env) == RealAt(t, p, end, env) && t[q] == SMALL_E
  {
    var sign := if small then [MINUS] else [];
    AtConcat(t, q, [SMALL_E] + sign, d);
    AtConcat(t, q, [SMALL_E], sign);
    AtIndex(t, q, [SMALL_E], 0);
    if small { AtIndex(t, q + 1, sign, 0); }
    DigitsAt(t, q + 1 + |sign|, d, end);
    AtIndex(t, q + 1 + |sign|, d, 0);
  }

  // Behind the whole part: a fraction, an exponent, or both.
  lemma FractionEnds(t: Bytes, p: nat, q: nat, d: Bytes, r: nat, env: Env)
    requires p < q && AllDigits(d) && d != [] && At(t, q, [POINT] + d) && r == q + 1 + |d| && (r < |t| ==> !Digit(t[r]))
    ensures q < r <= |t| && AfterWhole(t, p, q, env) == Exponent(t, p, r, env) && t[q] == POINT
  {
    AtConcat(t, q, [POINT], d);
    AtIndex(t, q, [POINT], 0);
    DigitsAt(t, q + 1, d, r);
  }

  lemma {:induction false} StrippedDigits(d: Bytes)
    requires AllDigits(d) && exists i :: 0 <= i < |d| && d[i] != ZERO
    ensures Stripped(d) != [] && AllDigits(Stripped(d))
  {
    if d[0] == ZERO {
      assert exists i :: 0 <= i < |d[1..]| && d[1..][i] != ZERO by {
        var i :| 0 <= i < |d| && d[i] != ZERO;
        assert d[1..][i - 1] == d[i];
      }
      StrippedDigits(d[1..]);
    }
  }

  // The parts of a real's text behind its sign.
  function PointPart(x: Double): Bytes {
    if x.fraction != [] then x.fraction else if x.exponent == [] then [ZERO] else []
  }

  function PointText(x: Double): Bytes {
    if PointPart(x) != [] then [POINT] + PointPart(x) else []
  }

  function TailText(x: Double): Bytes {
    if x.exponent != [] then ExponentText(x.small, Stripped(x.exponent)) else []
  }

  // The text of a real in three parts: sign and whole part, fraction, exponent.
  predicate Parts(x: Double, text: Bytes, whole: Bytes, point: Bytes, tail: Bytes) {
    && text == whole + (point + tail) && whole == (if x.negative then [MINUS] else []) + x.whole
    && point == PointText(x) && tail == TailText(x)
  }

  lemma RealParts(x: Double) returns (text: Bytes, whole: Bytes, point: Bytes, tail: Bytes)
    ensures text == RealText(x) && Parts(x, text, whole, point, tail) && AllDigits(PointPart(x)) && point + tail != []
  {
    text, point, tail := RealText(x), PointText(x), TailText(x);
    whole := (if x.negative then [MINUS] else []) + x.whole;
    assert whole + (point + tail) == whole + point + tail;
  }

  // What the number ends with, from the whole part at `q` on.
  lemma TailEnds(t: Bytes, p: nat, q: nat, x: Double, point: Bytes, tail: Bytes, end: nat, env: Env)
    requires p < q && point == PointText(x) && tail == TailText(x) && AllDigits(PointPart(x)) && point + tail != []
    requires At(t, q, point + tail) && end == q + |point| + |tail| && EndsAt(t, end)
    ensures q < end <= |t| && !Digit(t[q]) && AfterWhole(t, p, q, env) == RealAt(t, p, end, env)
  {
    AtConcat(t, q, point, tail);
    var r := q + |point|;
    if x.exponent != [] { ExponentTail(t, p, r, x, end, env); }
    if PointPart(x) != [] {
      FractionEnds(t, p, q, PointPart(x), r, env);
    }
  }

  lemma ExponentTail(t: Bytes, p: nat, r: nat, x: Double, end: nat, env: Env)
    requires p < r <= |t| && x.exponent != [] && At(t, r, TailText(x)) && end == r + |TailText(x)| && EndsAt(t, end)
    ensures r < end <= |t| && Exponent(t, p, r, env) == RealAt(t, p, end, env) && t[r] == SMALL_E
  {
    StrippedDigits(x.exponent);
    ExponentEnds(t, p, r, x.small, Stripped(x.exponent), end, env);
  }

  lemma RealEnds(t: Bytes, p: nat, x: Double, text: Bytes, whole: Bytes, point: Bytes, tail: Bytes, env: Env)
    requires Parts(x, text, whole, point, tail) && AllDigits(PointPart(x)) && point + tail != []
    requires At(t, p, text) && EndsAt(t, p + |text|)
    ensures p < p + |text| <= |t| && (t[p] == MINUS || Digit(t[p])) && Number(t, p, env) == RealAt(t, p, p + |text|, env)
  {
    var q, end := p + |whole|, p + |text|;
    AtConcat(t, p, whole, point + tail);
    TailEnds(t, p, q, x, point, tail, end, env);
    WholeAt(t, p, x.negative, x.whole, q);
  }

  // A dumped real in a text is what strtod takes it for, if it takes it.
  lemma RealScans(t: Bytes, p: nat, x: Double, env: Env)
    requires At(t, p, RealText(x)) && EndsAt(t, p + |RealText(x)|)
    ensures var y := env.strtod(RealText(x));
            Scan(t, p, env) == if y.Some? then (TReal(y.value), p + |RealText(x)|) else (Invalid, p)
  {
    var text, whole, point, tail := RealParts(x);
    RealEnds(t, p, x, text, whole, point, tail, env);
  }

  // ---------------------------------------------------------------- words

  lemma {:induction false} AlphaEndAt(t: Bytes, p: nat, q: nat)
    requires p <= q <= |t| && (forall i :: p <= i < q ==> Alpha(t[i])) && EndsAt(t, q)
    ensures AlphaEnd(t, p) == q
    decreases q - p
  {
    if p < q { AlphaEndAt(t, p + 1, q); }
  }

  lemma WordScans(t: Bytes, p: nat, w: Bytes, env: Env)
    requires At(t, p, w) && w != [] && (forall i :: 0 <= i < |w| ==> Alpha(w[i])) && EndsAt(t, p + |w|)
    ensures Scan(t, p, env) == (Word(w), p + |w|)
  {
    forall i | p <= i < p + |w| ensures Alpha(t[i]) {
      AtIndex(t, p, w, i - p);
    }
    AlphaEndAt(t, p + 1, p + |w|);
  }

  // --------------------------------------------------------------- blanks

  lemma {:induction false} BlanksSkipped(t: Bytes, p: nat, b: Bytes, env: Env)
    requires At(t, p, b) && forall i :: 0 <= i < |b| ==> Blank(b[i])
    ensures Scan(t, p, env) == Scan(t, p + |b|, env)
    ensures BlankEnd(t, p) == BlankEnd(t, p + |b|)
    decreases |b|
  {
    if b != [] {
      AtIndex(t, p, b, 0);
      assert b == [b[0]] + b[1..];
      AtConcat(t, p, [b[0]], b[1..]);
      BlanksSkipped(t, p + 1, b[1..], env);
    }
  }

  lemma {:induction false} BlanksAreBlank(depth: nat, width: nat)
    ensures forall i :: 0 <= i < |Blanks(depth, width)| ==> Blank(Blanks(depth, width)[i])
  {
    if depth > 0 { BlanksAreBlank(depth - 1, width); }
  }

  lemma IndentIsBlank(flags: Flags, depth: nat, space: bool)
    ensures var b := Indent(flags, depth, space); forall i :: 0 <= i < |b| ==> Blank(b[i])
  {
    BlanksAreBlank(depth, flags.indent);
  }

  // The facts about a text that a reading is put together from, each closed for itself:
  // the lemmas below open what they need, the induction over values does not.
  const SCAN: nat := 1
  const SKIP: nat := 2
  const READ: nat := 3
  const ITEMS: nat := 4
  const MEMBERS: nat := 5
  const TEXT: nat := 6
  const ITEM_TEXTS: nat := 7
  const MEMBER_TEXTS: nat := 8
  const KEY_TEXT: nat := 9
  const MEANT: nat := 10

  ghost predicate ScansTo(t: Bytes, p: nat, tok: Token, q: nat, env: Env) {
    forall u: int {:trigger Opened(SCAN, u)} :: Opened(SCAN, u) ==> p <= |t| && Scan(t, p, env) == (tok, q)
  }

  ghost predicate SameScan(t: Bytes, p: nat, q: nat, env: Env) {
    forall u: int {:trigger Opened(SKIP, u)} :: Opened(SKIP, u) ==> p <= |t| && q <= |t| && Scan(t, p, env) == Scan(t, q, env)
  }

  // The value read at `p` is `v`, and the text behind it starts at `at`.
  ghost predicate ReadsAs(t: Bytes, p: nat, v: Json, at: nat, env: Env, lf: LoadFlags) {
    forall u: int {:trigger Opened(READ, u)} :: Opened(READ, u) ==> ReadsAsNow(t, p, v, at, env, lf)
  }

  ghost predicate ReadsAsNow(t: Bytes, p: nat, v: Json, at: nat, env: Env, lf: LoadFlags) {
    && p <= |t|
    && var (tok, q) := Scan(t, p, env);
       Value(t, tok, q, env, lf) == Parsed(v, at)
  }

  // The items read from `p` on, behind those of `acc`, make the array `items`.
  ghost predicate ItemsAs(t: Bytes, p: nat, acc: seq<Json>, items: seq<Json>, at: nat, env: Env, lf: LoadFlags) {
    forall u: int {:trigger Opened(ITEMS, u)} :: Opened(ITEMS, u) ==>
      && p <= |t|
      && var (tok, q) := Scan(t, p, env);
         && !tok.Eof? && !tok.Invalid? && tok != RBRACKET
         && Items(t, tok, q, acc, env, lf) == Parsed(Array(items), at)
  }

  ghost predicate MembersAs(t: Bytes, p: nat, acc: map<Bytes, Json>, members: map<Bytes, Json>, at: nat, env: Env, lf: LoadFlags) {
    forall u: int {:trigger Opened(MEMBERS, u)} :: Opened(MEMBERS, u) ==>
      && p <= |t|
      && var (tok, q) := Scan(t, p, env);
         tok.TString? && Members(t, tok.s, q, acc, env, lf) == Parsed(Object(members), at)
  }

  lemma IndentSkipped(t: Bytes, p: nat, flags: Flags, depth: nat, space: bool, q: nat, env: Env)
    requires At(t, p, Indent(flags, depth, space)) && q == p + |Indent(flags, depth, space)|
    ensures SameScan(t, p, q, env)
  {
    IndentIsBlank(flags, depth, space);
    BlanksSkipped(t, p, Indent(flags, depth, space), env);
  }

  lemma PunctScans(t: Bytes, p: nat, c: byte, q: nat, env: Env)
    requires Punctuation(c) && At(t, p, [c]) && q == p + 1
    ensures ScansTo(t, p, Punct(c), q, env)
  {
    AtIndex(t, p, [c], 0);
  }

  // --------------------------------------------------------------- values

  // A blank or a bracket ends what stands in front of it.
  lemma IndentEnds(t: Bytes, p: nat, flags: Flags, depth: nat, space: bool, c: byte)
    requires Punctuation(c) && At(t, p, Indent(flags, depth, space) + [c])
    ensures EndsAt(t, p)
    ensures At(t, p, Indent(flags, depth, space)) && At(t, p + |Indent(flags, depth, space)|, [c])
  {
    AtConcat(t, p, Indent(flags, depth, space), [c]);
    AtIndex(t, p, Indent(flags, depth, space) + [c], 0);
    IndentIsBlank(flags, depth, space);
  }

  lemma ScanMoved(t: Bytes, p: nat, q: nat, tok: Token, at: nat, env: Env)
    requires SameScan(t, p, q, env) && ScansTo(t, q, tok, at, env)
    ensures ScansTo(t, p, tok, at, env)
  {
    assert Opened(SCAN, 0) && Opened(SKIP, 0);
  }

  lemma ReadMoved(t: Bytes, p: nat, q: nat, v: Json, at: nat, env: Env, lf: LoadFlags)
    requires SameScan(t, p, q, env) && ReadsAs(t, q, v, at, env, lf)
    ensures ReadsAs(t, p, v, at, env, lf)
  {
    assert Opened(SKIP, 0) && Opened(READ, 0);
  }

  lemma ItemsMoved(t: Bytes, p: nat, q: nat, acc: seq<Json>, items: seq<Json>, at: nat, env: Env, lf: LoadFlags)
    requires SameScan(t, p, q, env) && ItemsAs(t, q, acc, items, at, env, lf)
    ensures ItemsAs(t, p, acc, items, at, env, lf)
  {
    assert Opened(SKIP, 0) && Opened(ITEMS, 0);
  }

  lemma MembersMoved(t: Bytes, p: nat, q: nat, acc: map<Bytes, Json>, members: map<Bytes, Json>, at: nat, env: Env, lf: LoadFlags)
    requires SameScan(t, p, q, env) && MembersAs(t, q, acc, members, at, env, lf)
    ensures MembersAs(t, p, acc, members, at, env, lf)
  {
    assert Opened(SKIP, 0) && Opened(MEMBERS, 0);
  }

  lemma IndentThenPunct(t: Bytes, p: nat, flags: Flags, depth: nat, space: bool, c: byte, at: nat, env: Env)
    requires Punctuation(c) && At(t, p, Indent(flags, depth, space) + [c])
    requires at == p + |Indent(flags, depth, space)| + 1
    ensures EndsAt(t, p)
    ensures ScansTo(t, p, Punct(c), at, env)
  {
    IndentEnds(t, p, flags, depth, space, c);
    var q := p + |Indent(flags, depth, space)|;
    IndentSkipped(t, p, flags, depth, space, q, env);
    PunctScans(t, q, c, at, env);
    ScanMoved(t, p, q, Punct(c), at, env);
  }

  lemma ArrayReads(t: Bytes, p: nat, q: nat, items: seq<Json>, v: Json, at: nat, env: Env, lf: LoadFlags)
    requires ScansTo(t, p, Punct(0x5B), q, env) && ItemsAs(t, q, [], items, at, env, lf) && v == Array(items)
    ensures ReadsAs(t, p, v, at, env, lf)
  {
    assert Opened(SCAN, 0) && Opened(READ, 0) && Opened(ITEMS, 0);
    assert Value(t, LBRACKET, q, env, lf) == ArrayAt(t, q, env, lf);
  }

  lemma EmptyArrayReads(t: Bytes, p: nat, q: nat, v: Json, at: nat, env: Env, lf: LoadFlags)
    requires ScansTo(t, p, Punct(0x5B), q, env) && ScansTo(t, q, Punct(0x5D), at, env) && v == Array([])
    ensures ReadsAs(t, p, v, at, env, lf)
  {
    assert Opened(SCAN, 0) && Opened(READ, 0);
    assert Value(t, LBRACKET, q, env, lf) == ArrayAt(t, q, env, lf);
  }

  lemma LastItem(t: Bytes, p: nat, acc: seq<Json>, v: Json, q: nat, items: seq<Json>, at: nat, env: Env, lf: LoadFlags)
    requires ReadsAs(t, p, v, q, env, lf) && ScansTo(t, q, Punct(0x5D), at, env)
    requires items == acc + [v]
    ensures ItemsAs(t, p, acc, items, at, env, lf)
  {
    assert Opened(SCAN, 0) && Opened(READ, 0) && Opened(ITEMS, 0);
  }

  lemma OneMoreItem(t: Bytes, p: nat, acc: seq<Json>, v: Json, acc': seq<Json>, q: nat, next: nat, items: seq<Json>, at: nat, env: Env, lf: LoadFlags)
    requires ReadsAs(t, p, v, q, env, lf) && ScansTo(t, q, Punct(0x2C), next, env)
    requires acc' == acc + [v] && ItemsAs(t, next, acc', items, at, env, lf)
    ensures ItemsAs(t, p, acc, items, at, env, lf)
  {
    assert Opened(SCAN, 0) && Opened(READ, 0) && Opened(ITEMS, 0);
  }

  lemma ObjectReads(t: Bytes, p: nat, q: nat, members: map<Bytes, Json>, v: Json, at: nat, env: Env, lf: LoadFlags)
    requires ScansTo(t, p, Punct(0x7B), q, env) && MembersAs(t, q, map[], members, at, env, lf) && v == Object(members)
    ensures ReadsAs(t, p, v, at, env, lf)
  {
    assert Opened(SCAN, 0) && Opened(READ, 0) && Opened(MEMBERS, 0);
    assert Value(t, LBRACE, q, env, lf) == ObjectAt(t, q, env, lf);
  }

  lemma EmptyObjectReads(t: Bytes, p: nat, q: nat, v: Json, at: nat, env: Env, lf: LoadFlags)
    requires ScansTo(t, p, Punct(0x7B), q, env) && ScansTo(t, q, Punct(0x7D), at, env) && v == Object(map[])
    ensures ReadsAs(t, p, v, at, env, lf)
  {
    assert Opened(SCAN, 0) && Opened(READ, 0);
    assert Value(t, LBRACE, q, env, lf) == ObjectAt(t, q, env, lf);
  }

  lemma LastMember(t: Bytes, p: nat, acc: map<Bytes, Json>, key: Bytes, c: nat, c1: nat, v: Json, q: nat, members: map<Bytes, Json>, at: nat, env: Env, lf: LoadFlags)
    requires ScansTo(t, p, TString(key), c, env) && ScansTo(t, c, Punct(0x3A), c1, env) && !(lf.rejectDuplicates && key in acc)
    requires ReadsAs(t, c1, v, q, env, lf) && ScansTo(t, q, Punct(0x7D), at, env) && members == acc[key := v]
    ensures MembersAs(t, p, acc, members, at, env, lf)
  {
    assert Opened(SCAN, 0) && Opened(READ, 0) && Opened(MEMBERS, 0);
  }

  lemma OneMoreMember(t: Bytes, p: nat, acc: map<Bytes, Json>, key: Bytes, c: nat, c1: nat, v: Json, acc': map<Bytes, Json>, q: nat, next: nat, members: map<Bytes, Json>, at: nat, env: Env, lf: LoadFlags)
    requires ScansTo(t, p, TString(key), c, env) && ScansTo(t, c, Punct(0x3A), c1, env) && !(lf.rejectDuplicates && key in acc)
    requires ReadsAs(t, c1, v, q, env, lf) && ScansTo(t, q, Punct(0x2C), next, env)
    requires acc' == acc[key := v] && MembersAs(t, next, acc', members, at, env, lf)
    ensures MembersAs(t, p, acc, members, at, env, lf)
  {
    assert Opened(SCAN, 0) && Opened(READ, 0) && Opened(MEMBERS, 0);
  }

  // `d` is the text of `n`.
  ghost predicate NodeText(n: Node, flags: Flags, depth: nat, d: Bytes) {
    forall u: int {:trigger Opened(TEXT, u)} :: Opened(TEXT, u) ==> Dump(n, flags, depth) == Some(d)
  }

  // `d` is the text of the items of `n` from `i` on.
  ghost predicate ItemsText(n: Node, i: nat, flags: Flags, depth: nat, d: Bytes) {
    forall u: int {:trigger Opened(ITEM_TEXTS, u)} :: Opened(ITEM_TEXTS, u) ==> n.NArray? && i < |n.items| && DumpItems(n, i, flags, depth) == Some(d)
  }

  ghost predicate MembersText(n: Node, order: seq<ObjectKey>, flags: Flags, depth: nat, d: Bytes) {
    forall u: int {:trigger Opened(MEMBER_TEXTS, u)} :: Opened(MEMBER_TEXTS, u) ==>
      && n.NObject? && order != [] && (forall i :: 0 <= i < |order| ==> HasKey(n.pairs, order[i].key))
      && DumpMembers(n, order, flags, depth) == Some(d)
  }

  predicate Sound(n: Node) {
    Stored(n) && AllUtf8(n)
  }

  // What strtod is asked about reading the text of a number.
  predicate Readable(n: Node, env: Env, lf: LoadFlags) {
    match n
    case NInteger(i) => lf.intAsReal ==> env.strtod(IntegerText(i)).Some?
    case NReal(x) => env.strtod(RealText(x)).Some?
    case NArray(items) => forall i :: 0 <= i < |items| ==> Readable(items[i], env, lf)
    case NObject(pairs) => forall i :: 0 <= i < |pairs| ==> Readable(pairs[i].value, env, lf)
    case _ => true
  }

  // The value with every number as it is read.
  function Reread(n: Node, env: Env, lf: LoadFlags): Node {
    match n
    case NInteger(i) =>
      var y := env.strtod(IntegerText(i));
      if lf.intAsReal && y.Some? then NReal(y.value) else n
    case NReal(x) =>
      var y := env.strtod(RealText(x));
      if y.Some? then NReal(y.value) else n
    case NArray(items) => NArray(seq(|items|, i requires 0 <= i < |items| => Reread(items[i], env, lf)))
    case NObject(pairs) =>
      NObject(seq(|pairs|, i requires 0 <= i < |pairs| => pairs[i].(value := Reread(pairs[i].value, env, lf))))
    case _ => n
  }

  lemma RereadKeys(n: Node, env: Env, lf: LoadFlags, flags: Flags)
    requires n.NObject?
    ensures var m := Reread(n, env, lf);
            && (Distinct(n.pairs) ==> Distinct(m.pairs)) && KeyOrder(m.pairs, flags) == KeyOrder(n.pairs, flags)
            && forall k :: HasKey(m.pairs, k) <==> HasKey(n.pairs, k)
  {
    var m := Reread(n, env, lf);
    assert KeysOf(m.pairs) == KeysOf(n.pairs);
    forall k ensures HasKey(m.pairs, k) <==> HasKey(n.pairs, k) {
      if i :| 0 <= i < |n.pairs| && n.pairs[i].key == k { assert m.pairs[i].key == k; }
      if i :| 0 <= i < |m.pairs| && m.pairs[i].key == k { assert n.pairs[i].key == k; }
    }
  }

  lemma RereadLookup(n: Node, env: Env, lf: LoadFlags, key: Bytes)
    requires n.NObject? && Distinct(n.pairs) && HasKey(n.pairs, key)
    ensures HasKey(Reread(n, env, lf).pairs, key)
    ensures Lookup(Reread(n, env, lf).pairs, key) == Reread(Lookup(n.pairs, key), env, lf)
    ensures Readable(n, env, lf) ==> Readable(Lookup(n.pairs, key), env, lf)
  {
    var m := Reread(n, env, lf);
    var i :| 0 <= i < |n.pairs| && n.pairs[i].key == key;
    assert m.pairs[i].key == key;
    LookupAt(n.pairs, i);
    LookupAt(m.pairs, i);
  }

  // What is to come out of the text of a value, of items and of members.
  ghost predicate Meant(n: Node, v: Json, env: Env, lf: LoadFlags) {
    forall u: int {:trigger Opened(MEANT, u)} :: Opened(MEANT, u) ==>
      Readable(n, env, lf) && v == ValueOf(Reread(n, env, lf))
  }

  ghost predicate ItemsMeant(n: Node, i: nat, acc: seq<Json>, items: seq<Json>, env: Env, lf: LoadFlags) {
    forall u: int {:trigger Opened(MEANT, u)} :: Opened(MEANT, u) ==>
      n.NArray? && i <= |n.items| && Readable(n, env, lf) && items == acc + ItemsOf(Reread(n, env, lf).items[i..])
  }

  ghost predicate MembersMeant(n: Node, order: seq<ObjectKey>, acc: map<Bytes, Json>, members: map<Bytes, Json>, env: Env, lf: LoadFlags) {
    forall u: int {:trigger Opened(MEANT, u)} :: Opened(MEANT, u) ==>
      && Sound(n) && n.NObject? && Readable(n, env, lf)
      && DistinctKeys(order) && (forall i :: 0 <= i < |order| ==> order[i].key !in acc)
      && (forall i :: 0 <= i < |order| ==> HasKey(Reread(n, env, lf).pairs, order[i].key))
      && members == Gathered(acc, Reread(n, env, lf).pairs, order)
  }

  lemma ArrayMeant(n: Node, v: Json, env: Env, lf: LoadFlags) returns (items: seq<Json>)
    requires n.NArray? && Meant(n, v, env, lf)
    ensures v == Array(items) && ItemsMeant(n, 0, [], items, env, lf) && (n.items == [] ==> items == [])
  {
    assert Opened(MEANT, 0);
    var m := Reread(n, env, lf);
    items := ItemsOf(m.items);
    assert m.items[0..] == m.items && [] + items == items;
  }

  lemma ItemMeant(n: Node, i: nat, acc: seq<Json>, items: seq<Json>, env: Env, lf: LoadFlags) returns (v: Json)
    requires n.NArray? && i < |n.items| && ItemsMeant(n, i, acc, items, env, lf)
    ensures Meant(n.items[i], v, env, lf) && ItemsMeant(n, i + 1, acc + [v], items, env, lf)
    ensures i + 1 == |n.items| ==> items == acc + [v]
  {
    assert Opened(MEANT, 0);
    var m := Reread(n, env, lf);
    v := ValueOf(m.items[i]);
    ItemsSplit(acc, m.items, i);
  }

  lemma ObjectMeant(n: Node, v: Json, flags: Flags, env: Env, lf: LoadFlags) returns (members: map<Bytes, Json>)
    requires Sound(n) && n.NObject? && Meant(n, v, env, lf)
    ensures v == Object(members) && MembersMeant(n, KeyOrder(n.pairs, flags), map[], members, env, lf)
    ensures n.pairs == [] ==> members == map[]
  {
    assert Opened(MEANT, 0);
    var m := Reread(n, env, lf);
    members := MembersOf(m.pairs);
    OrderIsDistinct(n.pairs, flags);
    RereadKeys(n, env, lf, flags);
    GatheredAll(m.pairs, flags);
  }

  lemma MemberMeant(n: Node, order: seq<ObjectKey>, acc: map<Bytes, Json>, members: map<Bytes, Json>, env: Env, lf: LoadFlags)
    returns (value: Node, v: Json)
    requires order != [] && n.NObject? && MembersMeant(n, order, acc, members, env, lf)
    ensures HasKey(n.pairs, order[0].key) && value == Lookup(n.pairs, order[0].key) && value < n && Sound(value)
    ensures Valid(order[0].key) && NulFree(order[0].key) && order[0].key !in acc
    ensures Meant(value, v, env, lf) && MembersMeant(n, order[1..], acc[order[0].key := v], members, env, lf)
    ensures |order| == 1 ==> members == acc[order[0].key := v]
  {
    assert Opened(MEANT, 0);
    var key := order[0].key;
    assert HasKey(Reread(n, env, lf).pairs, key);
    RereadKeys(n, env, lf, Flags(0, false, false, false, false, false, false));
    TailGathers(acc, Reread(n, env, lf).pairs, order, members);
    RereadLookup(n, env, lf, key);
    KeyIsSound(n, key);
    value := Lookup(n.pairs, key);
    v := ValueOf(Reread(value, env, lf));
  }

  lemma ScalarReadBack(t: Bytes, p: nat, n: Node, d: Bytes, v: Json, at: nat, flags: Flags, depth: nat, env: Env, lf: LoadFlags)
    requires Sound(n) && !n.NArray? && !n.NObject? && NodeText(n, flags, depth, d)
    requires At(t, p, d) && EndsAt(t, at) && at == p + |d|
    requires Meant(n, v, env, lf)
    ensures ReadsAs(t, p, v, at, env, lf)
  {
    assert Opened(TEXT, 0) && Opened(MEANT, 0);
    match n
    case NNull => WordReads(t, p, NULL_TEXT, v, at, env, lf);
    case NTrue => WordReads(t, p, TRUE_TEXT, v, at, env, lf);
    case NFalse => WordReads(t, p, FALSE_TEXT, v, at, env, lf);
    case NInteger(i) => IntegerReads(t, p, i, v, at, env, lf);
    case NReal(x) => RealReads(t, p, x, v, at, env, lf);
    case NString(s) => StringReads(t, p, s, d, v, at, flags, env, lf);
  }

  lemma WordReads(t: Bytes, p: nat, w: Bytes, v: Json, at: nat, env: Env, lf: LoadFlags)
    requires At(t, p, w) && EndsAt(t, at) && at == p + |w|
    requires (w == NULL_TEXT && v == Null) || (w == TRUE_TEXT && v == True) || (w == FALSE_TEXT && v == False)
    ensures ReadsAs(t, p, v, at, env, lf)
  {
    assert Opened(READ, 0);
    WordScans(t, p, w, env);
  }

  lemma IntegerReads(t: Bytes, p: nat, i: int, v: Json, at: nat, env: Env, lf: LoadFlags)
    requires INT64_MIN <= i <= INT64_MAX && At(t, p, IntegerText(i)) && EndsAt(t, at) && at == p + |IntegerText(i)|
    requires Readable(NInteger(i), env, lf) && v == ValueOf(Reread(NInteger(i), env, lf))
    ensures ReadsAs(t, p, v, at, env, lf)
  {
    assert Opened(READ, 0);
    IntegerScans(t, p, i, env);
    IntegerTextReads(i);
  }

  lemma RealReads(t: Bytes, p: nat, x: Double, v: Json, at: nat, env: Env, lf: LoadFlags)
    requires At(t, p, RealText(x)) && EndsAt(t, at) && at == p + |RealText(x)|
    requires Readable(NReal(x), env, lf) && v == ValueOf(Reread(NReal(x), env, lf))
    ensures ReadsAs(t, p, v, at, env, lf)
  {
    assert Opened(READ, 0);
    RealScans(t, p, x, env);
  }

  lemma StringReads(t: Bytes, p: nat, s: Bytes, d: Bytes, v: Json, at: nat, flags: Flags, env: Env, lf: LoadFlags)
    requires Valid(s) && NulFree(s) && d == StringText(s, flags) && At(t, p, d) && v == String(s) && at == p + |d|
    ensures ReadsAs(t, p, v, at, env, lf)
  {
    StringScans(t, p, s, flags, env);
    assert Opened(READ, 0) && Opened(SCAN, 0);
  }

  lemma {:induction false} ValueReadBack(t: Bytes, p: nat, n: Node, d: Bytes, v: Json, at: nat, flags: Flags, depth: nat, env: Env, lf: LoadFlags)
    requires Sound(n) && NodeText(n, flags, depth, d) && At(t, p, d) && EndsAt(t, at)
    requires Meant(n, v, env, lf) && at == p + |d|
    ensures ReadsAs(t, p, v, at, env, lf)
    decreases n, 2, 0
  {
    if n.NArray? {
      ArrayReadBack(t, p, n, d, v, at, flags, depth, env, lf);
    } else if n.NObject? {
      ObjectReadBack(t, p, n, d, v, at, flags, depth, env, lf);
    } else {
      ScalarReadBack(t, p, n, d, v, at, flags, depth, env, lf);
    }
  }

  lemma BracketedAt(t: Bytes, p: nat, open: byte, indent: Bytes, body: Bytes, close: byte)
    requires At(t, p, Bracketed(open, indent + body, close))
    ensures At(t, p, [open]) && At(t, p + 1, indent) && At(t, p + 1 + |indent|, body + [close])
  {
    assert [open] + (indent + body) + [close] == [open] + (indent + (body + [close]));
    AtConcat(t, p, [open], indent + (body + [close]));
    AtConcat(t, p + 1, indent, body + [close]);
  }

  lemma EmptyAt(t: Bytes, p: nat, open: byte, close: byte)
    requires At(t, p, Bracketed(open, [], close))
    ensures At(t, p, [open]) && At(t, p + 1, [close])
  {
    assert [open] + [] + [close] == [open] + [close];
    AtConcat(t, p, [open], [close]);
  }

  lemma ArrayLayout(t: Bytes, p: nat, n: Node, d: Bytes, flags: Flags, depth: nat) returns (body: Bytes)
    requires n.NArray? && n.items != [] && NodeText(n, flags, depth, d) && At(t, p, d)
    ensures ItemsText(n, 0, flags, depth, body) && |d| == 2 + |Indent(flags, depth + 1, false)| + |body|
    ensures At(t, p, [0x5B]) && At(t, p + 1, Indent(flags, depth + 1, false))
    ensures At(t, p + 1 + |Indent(flags, depth + 1, false)|, body + [0x5D])
  {
    assert Opened(TEXT, 0) && Opened(ITEM_TEXTS, 0);
    body := DumpItems(n, 0, flags, depth).value;
    BracketedAt(t, p, 0x5B, Indent(flags, depth + 1, false), body, 0x5D);
  }

  lemma EmptyArrayLayout(t: Bytes, p: nat, n: Node, d: Bytes, flags: Flags, depth: nat)
    requires n == NArray([]) && NodeText(n, flags, depth, d) && At(t, p, d)
    ensures At(t, p, [0x5B]) && At(t, p + 1, [0x5D]) && |d| == 2
  {
    assert Opened(TEXT, 0);
    EmptyAt(t, p, 0x5B, 0x5D);
  }

  lemma {:induction false} ArrayReadBack(t: Bytes, p: nat, n: Node, d: Bytes, v: Json, at: nat, flags: Flags, depth: nat, env: Env, lf: LoadFlags)
    requires Sound(n) && n.NArray? && NodeText(n, flags, depth, d) && At(t, p, d)
    requires Meant(n, v, env, lf) && at == p + |d|
    ensures ReadsAs(t, p, v, at, env, lf)
    decreases n, 1, 0
  {
    var items := ArrayMeant(n, v, env, lf);
    if n.items == [] {
      var open := p + 1;
      EmptyArrayLayout(t, p, n, d, flags, depth);
      PunctScans(t, p, 0x5B, open, env);
      PunctScans(t, open, 0x5D, at, env);
      EmptyArrayReads(t, p, open, v, at, env, lf);
    } else {
      var body := ArrayLayout(t, p, n, d, flags, depth);
      var open := p + 1;
      var q := open + |Indent(flags, depth + 1, false)|;
      PunctScans(t, p, 0x5B, open, env);
      IndentSkipped(t, open, flags, depth + 1, false, q, env);
      ItemsReadBack(t, q, n, 0, body, [], items, at, flags, depth, env, lf);
      ItemsMoved(t, open, q, [], items, at, env, lf);
      ArrayReads(t, p, open, items, v, at, env, lf);
    }
  }

  lemma TailAt(t: Bytes, p: nat, item: Bytes, indent: Bytes, close: byte)
    requires At(t, p, item + indent + [close])
    ensures At(t, p, item) && At(t, p + |item|, indent + [close])
  {
    assert item + indent + [close] == item + (indent + [close]);
    AtConcat(t, p, item, indent + [close]);
  }

  lemma MiddleAt(t: Bytes, p: nat, item: Bytes, indent: Bytes, rest: Bytes, close: byte)
    requires At(t, p, item + [COMMA] + indent + rest + [close])
    ensures At(t, p, item) && At(t, p + |item|, [COMMA]) && At(t, p + |item| + 1, indent)
    ensures At(t, p + |item| + 1 + |indent|, rest + [close])
  {
    assert item + [COMMA] + indent + rest + [close] == item + ([COMMA] + (indent + (rest + [close])));
    AtConcat(t, p, item, [COMMA] + (indent + (rest + [close])));
    AtConcat(t, p + |item|, [COMMA], indent + (rest + [close]));
    AtConcat(t, p + |item| + 1, indent, rest + [close]);
  }

  // How a text goes on behind a member or an item: a comma, an indent and the
  // `rest`, or the last indent and the closing bracket.
  predicate Continues(t: Bytes, q: nat, last: bool, rest: Bytes, close: byte, flags: Flags, depth: nat) {
    if last then At(t, q, Indent(flags, depth, false) + [close])
    else
      && At(t, q, [COMMA]) && At(t, q + 1, Indent(flags, depth + 1, true))
      && At(t, q + 1 + |Indent(flags, depth + 1, true)|, rest + [close])
  }

  function ContinuedBy(last: bool, rest: Bytes, flags: Flags, depth: nat): nat {
    if last then |Indent(flags, depth, false)| else 1 + |Indent(flags, depth + 1, true)| + |rest|
  }

  lemma ItemsLayout(t: Bytes, p: nat, n: Node, i: nat, d: Bytes, flags: Flags, depth: nat) returns (item: Bytes, rest: Bytes)
    requires n.NArray? && i < |n.items| && ItemsText(n, i, flags, depth, d) && At(t, p, d + [0x5D])
    ensures NodeText(n.items[i], flags, depth + 1, item) && At(t, p, item)
    ensures i + 1 < |n.items| ==> ItemsText(n, i + 1, flags, depth, rest)
    ensures Continues(t, p + |item|, i + 1 == |n.items|, rest, 0x5D, flags, depth)
    ensures |d| == |item| + ContinuedBy(i + 1 == |n.items|, rest, flags, depth)
  {
    assert Opened(TEXT, 0) && Opened(ITEM_TEXTS, 0);
    item, rest := Dump(n.items[i], flags, depth + 1).value, [];
    if i + 1 == |n.items| {
      TailAt(t, p, item, Indent(flags, depth, false), 0x5D);
    } else {
      rest := DumpItems(n, i + 1, flags, depth).value;
      MiddleAt(t, p, item, Indent(flags, depth + 1, true), rest, 0x5D);
    }
  }

  lemma CommaContinues(t: Bytes, q: nat, rest: Bytes, close: byte, comma: nat, next: nat, flags: Flags, depth: nat, env: Env)
    requires Continues(t, q, false, rest, close, flags, depth)
    requires comma == q + 1 && next == comma + |Indent(flags, depth + 1, true)|
    ensures EndsAt(t, q) && ScansTo(t, q, Punct(0x2C), comma, env) && SameScan(t, comma, next, env)
  {
    PunctScans(t, q, 0x2C, comma, env);
    AtIndex(t, q, [COMMA], 0);
    IndentSkipped(t, comma, flags, depth + 1, true, next, env);
  }

  // `items` and `at` are what is to come out, named so that it is the same
  // fact that is handed on.
  lemma {:induction false} ItemsReadBack(t: Bytes, p: nat, n: Node, i: nat, d: Bytes, acc: seq<Json>, items: seq<Json>, at: nat,
                                         flags: Flags, depth: nat, env: Env, lf: LoadFlags)
    requires Sound(n) && n.NArray? && i < |n.items|
    requires ItemsText(n, i, flags, depth, d) && At(t, p, d + [0x5D])
    requires ItemsMeant(n, i, acc, items, env, lf) && at == p + |d| + 1
    ensures ItemsAs(t, p, acc, items, at, env, lf)
    decreases n, 0, |n.items| - i
  {
    var v := ItemMeant(n, i, acc, items, env, lf);
    var item, rest := ItemsLayout(t, p, n, i, d, flags, depth);
    var q := p + |item|;
    var acc' := acc + [v];
    if i + 1 == |n.items| {
      IndentThenPunct(t, q, flags, depth, false, 0x5D, at, env);
      ValueReadBack(t, p, n.items[i], item, v, q, flags, depth + 1, env, lf);
      LastItem(t, p, acc, v, q, items, at, env, lf);
    } else {
      var comma := q + 1;
      var next := comma + |Indent(flags, depth + 1, true)|;
      CommaContinues(t, q, rest, 0x5D, comma, next, flags, depth, env);
      ValueReadBack(t, p, n.items[i], item, v, q, flags, depth + 1, env, lf);
      ItemsReadBack(t, next, n, i + 1, rest, acc', items, at, flags, depth, env, lf);
      ItemsMoved(t, comma, next, acc', items, at, env, lf);
      OneMoreItem(t, p, acc, v, acc', q, comma, items, at, env, lf);
    }
  }

  lemma ItemsSplit(acc: seq<Json>, items: seq<Node>, i: nat)
    requires i < |items|
    ensures acc + ItemsOf(items[i..]) == acc + [ValueOf(items[i])] + ItemsOf(items[i + 1..])
    ensures i + 1 == |items| ==> acc + ItemsOf(items[i..]) == acc + [ValueOf(items[i])]
  {
    assert items[i..][1..] == items[i + 1..];
  }

  // The members read in `order`, on top of those there already.
  function Gathered(acc: map<Bytes, Json>, pairs: seq<Pair>, order: seq<ObjectKey>): map<Bytes, Json>
    requires forall i :: 0 <= i < |order| ==> HasKey(pairs, order[i].key)
    decreases |order|
  {
    if order == [] then acc
    else
      assert HasKey(pairs, order[0].key);
      Gathered(acc[order[0].key := ValueOf(Lookup(pairs, order[0].key))], pairs, order[1..])
  }

  predicate DistinctKeys(order: seq<ObjectKey>) {
    forall i, j :: 0 <= i < j < |order| ==> order[i].key != order[j].key
  }

  lemma ObjectLayout(t: Bytes, p: nat, n: Node, d: Bytes, flags: Flags, depth: nat) returns (order: seq<ObjectKey>, body: Bytes)
    requires n.NObject? && n.pairs != [] && NodeText(n, flags, depth, d) && At(t, p, d)
    ensures order == KeyOrder(n.pairs, flags) && order != []
    ensures forall i :: 0 <= i < |order| ==> HasKey(n.pairs, order[i].key)
    ensures MembersText(n, order, flags, depth, body) && |d| == 2 + |Indent(flags, depth + 1, false)| + |body|
    ensures At(t, p, [0x7B]) && At(t, p + 1, Indent(flags, depth + 1, false))
    ensures At(t, p + 1 + |Indent(flags, depth + 1, false)|, body + [0x7D])
  {
    assert Opened(TEXT, 0) && Opened(MEMBER_TEXTS, 0);
    order := KeyOrder(n.pairs, flags);
    body := DumpMembers(n, order, flags, depth).value;
    BracketedAt(t, p, 0x7B, Indent(flags, depth + 1, false), body, 0x7D);
  }

  lemma EmptyObjectLayout(t: Bytes, p: nat, n: Node, d: Bytes, flags: Flags, depth: nat)
    requires n == NObject([]) && NodeText(n, flags, depth, d) && At(t, p, d)
    ensures At(t, p, [0x7B]) && At(t, p + 1, [0x7D]) && |d| == 2
  {
    assert Opened(TEXT, 0);
    EmptyAt(t, p, 0x7B, 0x7D);
  }

  lemma {:induction false} ObjectReadBack(t: Bytes, p: nat, n: Node, d: Bytes, v: Json, at: nat, flags: Flags, depth: nat, env: Env, lf: LoadFlags)
    requires Sound(n) && n.NObject? && NodeText(n, flags, depth, d) && At(t, p, d)
    requires Meant(n, v, env, lf) && at == p + |d|
    ensures ReadsAs(t, p, v, at, env, lf)
    decreases n, 1, 0
  {
    var members := ObjectMeant(n, v, flags, env, lf);
    if n.pairs == [] {
      var open := p + 1;
      EmptyObjectLayout(t, p, n, d, flags, depth);
      PunctScans(t, p, 0x7B, open, env);
      PunctScans(t, open, 0x7D, at, env);
      EmptyObjectReads(t, p, open, v, at, env, lf);
    } else {
      var order, body := ObjectLayout(t, p, n, d, flags, depth);
      var open := p + 1;
      var q := open + |Indent(flags, depth + 1, false)|;
      PunctScans(t, p, 0x7B, open, env);
      IndentSkipped(t, open, flags, depth + 1, false, q, env);
      MembersReadBack(t, q, n, order, body, map[], members, at, flags, depth, env, lf);
      MembersMoved(t, open, q, map[], members, at, env, lf);
      ObjectReads(t, p, open, members, v, at, env, lf);
    }
  }

  // Where the pieces of an object's text stand.
  lemma MembersLayout(t: Bytes, p: nat, n: Node, order: seq<ObjectKey>, d: Bytes, flags: Flags, depth: nat)
    returns (item: Bytes, rest: Bytes, k: nat)
    requires n.NObject? && order != [] && HasKey(n.pairs, order[0].key)
    requires MembersText(n, order, flags, depth, d) && At(t, p, d + [0x7D])
    ensures NodeText(Lookup(n.pairs, order[0].key), flags, depth + 1, item)
    ensures |order| > 1 ==> MembersText(n, order[1..], flags, depth, rest)
    ensures var v := k + |Separator(flags)|;
      && KeyAt(t, p, order[0].key, flags, k) && At(t, k, Separator(flags)) && At(t, v, item)
      && Continues(t, v + |item|, |order| == 1, rest, 0x7D, flags, depth) && EndsAt(t, v + |item|)
      && p + |d| == v + |item| + ContinuedBy(|order| == 1, rest, flags, depth)
  {
    var key;
    key, item, rest := MemberPieces(n, order, d, flags, depth);
    k := p + |key|;
    MemberPlaces(t, p, key, order[0].key, item, |order| == 1, rest, d, flags, depth, k);
  }

  lemma MemberPlaces(t: Bytes, p: nat, text: Bytes, key: Bytes, item: Bytes, last: bool, rest: Bytes, d: Bytes, flags: Flags, depth: nat, k: nat)
    requires KeyText(text, key, flags) && k == p + |text| && At(t, p, d + [0x7D])
    requires d == if last then text + Separator(flags) + item + Indent(flags, depth, false)
                  else text + Separator(flags) + item + [COMMA] + Indent(flags, depth + 1, true) + rest
    ensures var v := k + |Separator(flags)|;
      && KeyAt(t, p, key, flags, k) && At(t, k, Separator(flags)) && At(t, v, item)
      && Continues(t, v + |item|, last, rest, 0x7D, flags, depth) && EndsAt(t, v + |item|)
      && p + |d| == v + |item| + ContinuedBy(last, rest, flags, depth)
  {
    var separator := Separator(flags);
    var v := k + |separator|;
    MemberAt(t, p, text, separator, item, last, rest, d, flags, depth);
    KeyIsAt(t, p, text, key, flags, k);
    ContinuesEnds(t, v + |item|, last, rest, 0x7D, flags, depth);
  }

  lemma KeyIsAt(t: Bytes, p: nat, text: Bytes, key: Bytes, flags: Flags, k: nat)
    requires KeyText(text, key, flags) && At(t, p, text) && k == p + |text|
    ensures KeyAt(t, p, key, flags, k)
  {
    assert Opened(KEY_TEXT, 0);
  }

  ghost predicate KeyText(text: Bytes, key: Bytes, flags: Flags) {
    forall u: int {:trigger Opened(KEY_TEXT, u)} :: Opened(KEY_TEXT, u) ==> text == StringText(key, flags)
  }

  lemma MemberAt(t: Bytes, p: nat, key: Bytes, separator: Bytes, item: Bytes, last: bool, rest: Bytes, d: Bytes, flags: Flags, depth: nat)
    requires At(t, p, d + [0x7D])
    requires d == if last then key + separator + item + Indent(flags, depth, false)
                  else key + separator + item + [COMMA] + Indent(flags, depth + 1, true) + rest
    ensures var v := p + |key| + |separator|;
      && At(t, p, key) && At(t, p + |key|, separator) && At(t, v, item)
      && Continues(t, v + |item|, last, rest, 0x7D, flags, depth)
      && p + |d| == v + |item| + ContinuedBy(last, rest, flags, depth)
  {
    AfterMember(t, p, key + separator + item, last, rest, d, flags, depth);
    AtConcat(t, p, key + separator, item);
    AtConcat(t, p, key, separator);
  }

  lemma AfterMember(t: Bytes, p: nat, member: Bytes, last: bool, rest: Bytes, d: Bytes, flags: Flags, depth: nat)
    requires At(t, p, d + [0x7D])
    requires d == if last then member + Indent(flags, depth, false) else member + [COMMA] + Indent(flags, depth + 1, true) + rest
    ensures At(t, p, member) && Continues(t, p + |member|, last, rest, 0x7D, flags, depth)
    ensures |d| == |member| + ContinuedBy(last, rest, flags, depth)
  {
    if last {
      TailAt(t, p, member, Indent(flags, depth, false), 0x7D);
    } else {
      MiddleAt(t, p, member, Indent(flags, depth + 1, true), rest, 0x7D);
    }
  }

  lemma MemberPieces(n: Node, order: seq<ObjectKey>, d: Bytes, flags: Flags, depth: nat) returns (key: Bytes, item: Bytes, rest: Bytes)
    requires n.NObject? && order != [] && HasKey(n.pairs, order[0].key)
    requires MembersText(n, order, flags, depth, d)
    ensures NodeText(Lookup(n.pairs, order[0].key), flags, depth + 1, item)
    ensures |order| > 1 ==> MembersText(n, order[1..], flags, depth, rest)
    ensures KeyText(key, order[0].key, flags)
    ensures var member := key + Separator(flags) + item;
      d == if |order| == 1 then member + Indent(flags, depth, false)
           else member + [COMMA] + Indent(flags, depth + 1, true) + rest
  {
    assert Opened(TEXT, 0) && Opened(MEMBER_TEXTS, 0);
    key, item, rest := StringText(order[0].key, flags), Dump(Lookup(n.pairs, order[0].key), flags, depth + 1).value, [];
    if |order| > 1 {
      rest := DumpMembers(n, order[1..], flags, depth).value;
    }
  }

  lemma SeparatorScans(t: Bytes, p: nat, flags: Flags, colon: nat, next: nat, env: Env)
    requires At(t, p, Separator(flags)) && colon == p + 1 && next == p + |Separator(flags)|
    ensures ScansTo(t, p, Punct(0x3A), colon, env) && SameScan(t, colon, next, env)
  {
    AtIndex(t, p, Separator(flags), 0);
    if !flags.compact {
      AtIndex(t, p, Separator(flags), 1);
    }
  }

  // The text of a key, from `p` up to `k`.
  ghost predicate KeyAt(t: Bytes, p: nat, key: Bytes, flags: Flags, k: nat) {
    forall u: int {:trigger Opened(KEY_TEXT, u)} :: Opened(KEY_TEXT, u) ==>
      At(t, p, StringText(key, flags)) && k == p + |StringText(key, flags)|
  }

  lemma KeyScans(t: Bytes, p: nat, key: Bytes, flags: Flags, k: nat, env: Env)
    requires Valid(key) && NulFree(key) && KeyAt(t, p, key, flags, k)
    ensures ScansTo(t, p, TString(key), k, env)
  {
    assert Opened(KEY_TEXT, 0);
    StringScans(t, p, key, flags, env);
  }

  lemma KeyIsSound(n: Node, key: Bytes)
    requires Sound(n) && n.NObject? && HasKey(n.pairs, key)
    ensures Valid(key) && NulFree(key)
    ensures Sound(Lookup(n.pairs, key)) && Lookup(n.pairs, key) < n
  {
  }

  lemma ContinuesEnds(t: Bytes, q: nat, last: bool, rest: Bytes, close: byte, flags: Flags, depth: nat)
    requires Continues(t, q, last, rest, close, flags, depth) && Punctuation(close)
    ensures EndsAt(t, q)
  {
    if last { IndentEnds(t, q, flags, depth, false, close); } else { AtIndex(t, q, [COMMA], 0); }
  }

  // A key, the separator and a value that has been read.
  lemma MemberReads(t: Bytes, p: nat, key: Bytes, k: nat, start: nat, v: Json, q: nat, flags: Flags, env: Env, lf: LoadFlags)
    requires Valid(key) && NulFree(key) && KeyAt(t, p, key, flags, k)
    requires At(t, k, Separator(flags)) && start == k + |Separator(flags)| && ReadsAs(t, start, v, q, env, lf)
    ensures ScansTo(t, p, TString(key), k, env) && ScansTo(t, k, Punct(0x3A), k + 1, env) && ReadsAs(t, k + 1, v, q, env, lf)
  {
    KeyScans(t, p, key, flags, k, env);
    SeparatorScans(t, k, flags, k + 1, start, env);
    ReadMoved(t, k + 1, start, v, q, env, lf);
  }

  lemma LastMemberReads(t: Bytes, p: nat, acc: map<Bytes, Json>, key: Bytes, k: nat, v: Json, q: nat, members: map<Bytes, Json>, at: nat,
                        rest: Bytes, flags: Flags, depth: nat, env: Env, lf: LoadFlags)
    requires ScansTo(t, p, TString(key), k, env) && ScansTo(t, k, Punct(0x3A), k + 1, env) && key !in acc
    requires ReadsAs(t, k + 1, v, q, env, lf) && members == acc[key := v]
    requires Continues(t, q, true, rest, 0x7D, flags, depth) && at == q + ContinuedBy(true, rest, flags, depth) + 1
    ensures MembersAs(t, p, acc, members, at, env, lf)
  {
    IndentThenPunct(t, q, flags, depth, false, 0x7D, at, env);
    LastMember(t, p, acc, key, k, k + 1, v, q, members, at, env, lf);
  }

  lemma MoreMembersRead(t: Bytes, p: nat, acc: map<Bytes, Json>, key: Bytes, k: nat, v: Json, q: nat, next: nat,
                        members: map<Bytes, Json>, at: nat, rest: Bytes, flags: Flags, depth: nat, env: Env, lf: LoadFlags)
    requires ScansTo(t, p, TString(key), k, env) && ScansTo(t, k, Punct(0x3A), k + 1, env) && key !in acc
    requires ReadsAs(t, k + 1, v, q, env, lf) && Continues(t, q, false, rest, 0x7D, flags, depth)
    requires next == q + 1 + |Indent(flags, depth + 1, true)| && MembersAs(t, next, acc[key := v], members, at, env, lf)
    ensures MembersAs(t, p, acc, members, at, env, lf)
  {
    CommaContinues(t, q, rest, 0x7D, q + 1, next, flags, depth, env);
    MembersMoved(t, q + 1, next, acc[key := v], members, at, env, lf);
    OneMoreMember(t, p, acc, key, k, k + 1, v, acc[key := v], q, q + 1, members, at, env, lf);
  }

  // The members behind the first, once that is gathered.
  lemma TailGathers(acc: map<Bytes, Json>, pairs: seq<Pair>, order: seq<ObjectKey>, members: map<Bytes, Json>)
    requires order != [] && DistinctKeys(order) && forall i :: 0 <= i < |order| ==> order[i].key !in acc
    requires forall i :: 0 <= i < |order| ==> HasKey(pairs, order[i].key)
    requires members == Gathered(acc, pairs, order)
    ensures HasKey(pairs, order[0].key)
    ensures DistinctKeys(order[1..]) && forall i :: 0 <= i < |order| - 1 ==> HasKey(pairs, order[1..][i].key)
    ensures var acc' := acc[order[0].key := ValueOf(Lookup(pairs, order[0].key))];
      && (forall i :: 0 <= i < |order| - 1 ==> order[1..][i].key !in acc')
      && members == Gathered(acc', pairs, order[1..]) && (|order| == 1 ==> members == acc')
  {
    assert HasKey(pairs, order[0].key);
    if |order| == 1 { assert order[1..] == []; }
  }

  lemma {:induction false} MembersReadBack(t: Bytes, p: nat, n: Node, order: seq<ObjectKey>, d: Bytes, acc: map<Bytes, Json>, members: map<Bytes, Json>, at: nat,
                                           flags: Flags, depth: nat, env: Env, lf: LoadFlags)
    requires n.NObject? && order != []
    requires MembersMeant(n, order, acc, members, env, lf) && at == p + |d| + 1
    requires MembersText(n, order, flags, depth, d) && At(t, p, d + [0x7D])
    ensures MembersAs(t, p, acc, members, at, env, lf)
    decreases n, 0, |order|
  {
    var key := order[0].key;
    var value, v := MemberMeant(n, order, acc, members, env, lf);
    var item, rest, k := MembersLayout(t, p, n, order, d, flags, depth);
    var start := k + |Separator(flags)|;
    var q := start + |item|;
    ValueReadBack(t, start, value, item, v, q, flags, depth + 1, env, lf);
    MemberReads(t, p, key, k, start, v, q, flags, env, lf);
    if |order| == 1 {
      LastMemberReads(t, p, acc, key, k, v, q, members, at, rest, flags, depth, env, lf);
    } else {
      var next := q + 1 + |Indent(flags, depth + 1, true)|;
      MembersReadBack(t, next, n, order[1..], rest, acc[key := v], members, at, flags, depth, env, lf);
      MoreMembersRead(t, p, acc, key, k, v, q, next, members, at, rest, flags, depth, env, lf);
    }
  }

  // ------------------------------------------------------- what is not read

  // A number strtod does not take is no token, and then nothing around it is a value.
  ghost predicate Fails(t: Bytes, p: nat, env: Env, lf: LoadFlags) {
    forall u: int {:trigger Opened(READ, u)} :: Opened(READ, u) ==>
      && p <= |t|
      && var (tok, q) := Scan(t, p, env);
         tok != RBRACKET && Value(t, tok, q, env, lf).Failed?
  }

  ghost predicate ItemsFail(t: Bytes, p: nat, acc: seq<Json>, env: Env, lf: LoadFlags) {
    forall u: int {:trigger Opened(ITEMS, u)} :: Opened(ITEMS, u) ==>
      && p <= |t|
      && var (tok, q) := Scan(t, p, env);
         tok != RBRACKET && (tok.Eof? || tok.Invalid? || Items(t, tok, q, acc, env, lf).Failed?)
  }

  ghost predicate MembersFail(t: Bytes, p: nat, acc: map<Bytes, Json>, env: Env, lf: LoadFlags) {
    forall u: int {:trigger Opened(MEMBERS, u)} :: Opened(MEMBERS, u) ==>
      && p <= |t|
      && var (tok, q) := Scan(t, p, env);
         tok.TString? && Members(t, tok.s, q, acc, env, lf).Failed?
  }

  lemma FailMoved(t: Bytes, p: nat, q: nat, env: Env, lf: LoadFlags)
    requires SameScan(t, p, q, env) && Fails(t, q, env, lf)
    ensures Fails(t, p, env, lf)
  {
    assert Opened(SKIP, 0) && Opened(READ, 0);
  }

  lemma ItemsFailMoved(t: Bytes, p: nat, q: nat, acc: seq<Json>, env: Env, lf: LoadFlags)
    requires SameScan(t, p, q, env) && ItemsFail(t, q, acc, env, lf)
    ensures ItemsFail(t, p, acc, env, lf)
  {
    assert Opened(SKIP, 0) && Opened(ITEMS, 0);
  }

  lemma MembersFailMoved(t: Bytes, p: nat, q: nat, acc: map<Bytes, Json>, env: Env, lf: LoadFlags)
    requires SameScan(t, p, q, env) && MembersFail(t, q, acc, env, lf)
    ensures MembersFail(t, p, acc, env, lf)
  {
    assert Opened(SKIP, 0) && Opened(MEMBERS, 0);
  }

  lemma ArrayFails(t: Bytes, p: nat, q: nat, env: Env, lf: LoadFlags)
    requires ScansTo(t, p, Punct(0x5B), q, env) && ItemsFail(t, q, [], env, lf)
    ensures Fails(t, p, env, lf)
  {
    assert Opened(SCAN, 0) && Opened(READ, 0) && Opened(ITEMS, 0);
    assert Value(t, LBRACKET, q, env, lf) == ArrayAt(t, q, env, lf);
  }

  lemma ItemFails(t: Bytes, p: nat, acc: seq<Json>, env: Env, lf: LoadFlags)
    requires Fails(t, p, env, lf)
    ensures ItemsFail(t, p, acc, env, lf)
  {
    assert Opened(READ, 0) && Opened(ITEMS, 0);
  }

  lemma LaterItemFails(t: Bytes, p: nat, acc: seq<Json>, v: Json, q: nat, next: nat, env: Env, lf: LoadFlags)
    requires ReadsAs(t, p, v, q, env, lf) && ScansTo(t, q, Punct(0x2C), next, env) && ItemsFail(t, next, acc + [v], env, lf)
    ensures ItemsFail(t, p, acc, env, lf)
  {
    assert Opened(SCAN, 0) && Opened(READ, 0) && Opened(ITEMS, 0);
  }

  lemma ObjectFails(t: Bytes, p: nat, q: nat, env: Env, lf: LoadFlags)
    requires ScansTo(t, p, Punct(0x7B), q, env) && MembersFail(t, q, map[], env, lf)
    ensures Fails(t, p, env, lf)
  {
    assert Opened(SCAN, 0) && Opened(READ, 0) && Opened(MEMBERS, 0);
    assert Value(t, LBRACE, q, env, lf) == ObjectAt(t, q, env, lf);
  }

  lemma MemberFails(t: Bytes, p: nat, acc: map<Bytes, Json>, key: Bytes, c: nat, c1: nat, env: Env, lf: LoadFlags)
    requires ScansTo(t, p, TString(key), c, env) && ScansTo(t, c, Punct(0x3A), c1, env) && Fails(t, c1, env, lf)
    ensures MembersFail(t, p, acc, env, lf)
  {
    assert Opened(SCAN, 0) && Opened(READ, 0) && Opened(MEMBERS, 0);
  }

  lemma LaterMemberFails(t: Bytes, p: nat, acc: map<Bytes, Json>, key: Bytes, c: nat, c1: nat, v: Json, q: nat, next: nat, env: Env, lf: LoadFlags)
    requires ScansTo(t, p, TString(key), c, env) && ScansTo(t, c, Punct(0x3A), c1, env)
    requires ReadsAs(t, c1, v, q, env, lf) && ScansTo(t, q, Punct(0x2C), next, env)
    requires MembersFail(t, next, acc[key := v], env, lf)
    ensures MembersFail(t, p, acc, env, lf)
  {
    assert Opened(SCAN, 0) && Opened(READ, 0) && Opened(MEMBERS, 0);
  }

  // Somewhere in the value is a number that is not taken.
  ghost predicate Unread(n: Node, env: Env, lf: LoadFlags) {
    forall u: int {:trigger Opened(MEANT, u)} :: Opened(MEANT, u) ==> !Readable(n, env, lf)
  }

  lemma ReadOrNot(n: Node, env: Env, lf: LoadFlags) returns (read: bool, v: Json)
    ensures if read then Meant(n, v, env, lf) else Unread(n, env, lf)
  {
    read, v := Readable(n, env, lf), ValueOf(Reread(n, env, lf));
  }

  lemma UnreadItem(n: Node, env: Env, lf: LoadFlags) returns (j: nat)
    requires n.NArray? && Unread(n, env, lf)
    ensures j < |n.items| && Unread(n.items[j], env, lf)
  {
    assert Opened(MEANT, 0);
    j :| 0 <= j < |n.items| && !Readable(n.items[j], env, lf);
  }

  ghost predicate MemberUnread(n: Node, order: seq<ObjectKey>, j: nat, env: Env, lf: LoadFlags) {
    forall u: int {:trigger Opened(MEANT, u)} :: Opened(MEANT, u) ==>
      && Sound(n) && n.NObject? && (forall i :: 0 <= i < |order| ==> HasKey(n.pairs, order[i].key))
      && j < |order| && Unread(Lookup(n.pairs, order[j].key), env, lf)
  }

  lemma MemberRead(n: Node, order: seq<ObjectKey>, j: nat, env: Env, lf: LoadFlags) returns (value: Node, read: bool, v: Json)
    requires n.NObject? && MemberUnread(n, order, j, env, lf)
    ensures order != [] && HasKey(n.pairs, order[0].key) && value == Lookup(n.pairs, order[0].key) && value < n && Sound(value)
    ensures Valid(order[0].key) && NulFree(order[0].key)
    ensures if read then Meant(value, v, env, lf) && 0 < j < |order| && MemberUnread(n, order[1..], j - 1, env, lf) else Unread(value, env, lf)
  {
    assert Opened(MEANT, 0);
    var key := order[0].key;
    assert HasKey(n.pairs, key) && HasKey(n.pairs, order[j].key);
    KeyIsSound(n, key);
    value := Lookup(n.pairs, key);
    read, v := ReadOrNot(value, env, lf);
    if j > 0 { assert order[1..][j - 1] == order[j]; }
  }

  // Where the keys are written, the one whose value is not read.
  lemma UnreadKey(n: Node, flags: Flags, env: Env, lf: LoadFlags) returns (j: nat)
    requires Sound(n) && n.NObject? && Unread(n, env, lf)
    ensures n.pairs != [] && MemberUnread(n, KeyOrder(n.pairs, flags), j, env, lf)
  {
    assert Opened(MEANT, 0);
    var i :| 0 <= i < |n.pairs| && !Readable(n.pairs[i].value, env, lf);
    assert HasKey(n.pairs, n.pairs[i].key);
    OrderCovers(n.pairs, flags, n.pairs[i].key);
    LookupAt(n.pairs, i);
    j :| 0 <= j < |KeyOrder(n.pairs, flags)| && KeyOrder(n.pairs, flags)[j].key == n.pairs[i].key;
  }

  lemma NumberFails(t: Bytes, p: nat, n: Node, d: Bytes, flags: Flags, depth: nat, env: Env, lf: LoadFlags)
    requires Sound(n) && !n.NArray? && !n.NObject? && NodeText(n, flags, depth, d) && At(t, p, d) && EndsAt(t, p + |d|)
    requires Unread(n, env, lf)
    ensures Fails(t, p, env, lf)
  {
    assert Opened(READ, 0) && Opened(TEXT, 0) && Opened(MEANT, 0);
    match n
    case NInteger(i) => IntegerScans(t, p, i, env);
    case NReal(x) => RealScans(t, p, x, env);
  }

  lemma {:induction false} ValueFails(t: Bytes, p: nat, n: Node, d: Bytes, flags: Flags, depth: nat, env: Env, lf: LoadFlags)
    requires Sound(n) && NodeText(n, flags, depth, d) && At(t, p, d) && EndsAt(t, p + |d|) && Unread(n, env, lf)
    ensures Fails(t, p, env, lf)
    decreases n, 1, 0
  {
    if n.NArray? {
      var j := UnreadItem(n, env, lf);
      var body := ArrayLayout(t, p, n, d, flags, depth);
      var open, q := p + 1, p + 1 + |Indent(flags, depth + 1, false)|;
      PunctScans(t, p, 0x5B, open, env);
      IndentSkipped(t, open, flags, depth + 1, false, q, env);
      ItemsFailBack(t, q, n, 0, j, body, [], flags, depth, env, lf);
      ItemsFailMoved(t, open, q, [], env, lf);
      ArrayFails(t, p, open, env, lf);
    } else if n.NObject? {
      var j := UnreadKey(n, flags, env, lf);
      var order, body := ObjectLayout(t, p, n, d, flags, depth);
      var open, q := p + 1, p + 1 + |Indent(flags, depth + 1, false)|;
      PunctScans(t, p, 0x7B, open, env);
      IndentSkipped(t, open, flags, depth + 1, false, q, env);
      MembersFailBack(t, q, n, order, j, body, map[], flags, depth, env, lf);
      MembersFailMoved(t, open, q, map[], env, lf);
      ObjectFails(t, p, open, env, lf);
    } else {
      NumberFails(t, p, n, d, flags, depth, env, lf);
    }
  }

  lemma {:induction false} ItemsFailBack(t: Bytes, p: nat, n: Node, i: nat, j: nat, d: Bytes, acc: seq<Json>,
                                         flags: Flags, depth: nat, env: Env, lf: LoadFlags)
    requires Sound(n) && n.NArray? && i <= j < |n.items| && Unread(n.items[j], env, lf)
    requires ItemsText(n, i, flags, depth, d) && At(t, p, d + [0x5D])
    ensures ItemsFail(t, p, acc, env, lf)
    decreases n, 0, |n.items| - i
  {
    var item, rest := ItemsLayout(t, p, n, i, d, flags, depth);
    var q := p + |item|;
    ContinuesEnds(t, q, i + 1 == |n.items|, rest, 0x5D, flags, depth);
    var read, v := ReadOrNot(n.items[i], env, lf);
    if i == j || !read {
      ValueFails(t, p, n.items[i], item, flags, depth + 1, env, lf);
      ItemFails(t, p, acc, env, lf);
    } else {
      var next := q + 1 + |Indent(flags, depth + 1, true)|;
      ValueReadBack(t, p, n.items[i], item, v, q, flags, depth + 1, env, lf);
      ItemsFailBack(t, next, n, i + 1, j, rest, acc + [v], flags, depth, env, lf);
      ItemsFailLater(t, p, acc, v, q, next, rest, flags, depth, env, lf);
    }
  }

  lemma ItemsFailLater(t: Bytes, p: nat, acc: seq<Json>, v: Json, q: nat, next: nat, rest: Bytes, flags: Flags, depth: nat, env: Env, lf: LoadFlags)
    requires ReadsAs(t, p, v, q, env, lf) && Continues(t, q, false, rest, 0x5D, flags, depth)
    requires next == q + 1 + |Indent(flags, depth + 1, true)| && ItemsFail(t, next, acc + [v], env, lf)
    ensures ItemsFail(t, p, acc, env, lf)
  {
    CommaContinues(t, q, rest, 0x5D, q + 1, next, flags, depth, env);
    ItemsFailMoved(t, q + 1, next, acc + [v], env, lf);
    LaterItemFails(t, p, acc, v, q, q + 1, env, lf);
  }

  // The first member, whether it is read, and where its parts stand.
  lemma MemberLaidOut(t: Bytes, p: nat, n: Node, order: seq<ObjectKey>, j: nat, d: Bytes, flags: Flags, depth: nat, env: Env, lf: LoadFlags)
    returns (value: Node, read: bool, v: Json, item: Bytes, rest: Bytes, k: nat, start: nat)
    requires n.NObject? && MemberUnread(n, order, j, env, lf)
    requires MembersText(n, order, flags, depth, d) && At(t, p, d + [0x7D])
    ensures order != [] && value < n && Sound(value) && Valid(order[0].key) && NulFree(order[0].key)
    ensures NodeText(value, flags, depth + 1, item) && At(t, start, item) && EndsAt(t, start + |item|)
    ensures KeyAt(t, p, order[0].key, flags, k) && At(t, k, Separator(flags)) && start == k + |Separator(flags)|
    ensures if read then
              && Meant(value, v, env, lf) && 0 < j < |order| && MemberUnread(n, order[1..], j - 1, env, lf)
              && MembersText(n, order[1..], flags, depth, rest) && Continues(t, start + |item|, false, rest, 0x7D, flags, depth)
            else Unread(value, env, lf)
  {
    value, read, v := MemberRead(n, order, j, env, lf);
    item, rest, k := MembersLayout(t, p, n, order, d, flags, depth);
    start := k + |Separator(flags)|;
  }

  lemma {:induction false} MembersFailBack(t: Bytes, p: nat, n: Node, order: seq<ObjectKey>, j: nat, d: Bytes, acc: map<Bytes, Json>,
                                           flags: Flags, depth: nat, env: Env, lf: LoadFlags)
    requires n.NObject? && MemberUnread(n, order, j, env, lf)
    requires MembersText(n, order, flags, depth, d) && At(t, p, d + [0x7D])
    ensures MembersFail(t, p, acc, env, lf)
    decreases n, 0, |order|
  {
    var value, read, v, item, rest, k, start := MemberLaidOut(t, p, n, order, j, d, flags, depth, env, lf);
    var key := order[0].key;
    var q := start + |item|;
    if !read {
      ValueFails(t, start, value, item, flags, depth + 1, env, lf);
      MemberFailsAt(t, p, acc, key, k, start, flags, env, lf);
    } else {
      var next := q + 1 + |Indent(flags, depth + 1, true)|;
      MemberReadBack(t, p, key, k, start, value, item, v, q, flags, depth, env, lf);
      MembersFailBack(t, next, n, order[1..], j - 1, rest, acc[key := v], flags, depth, env, lf);
      MembersFailLater(t, p, acc, key, k, v, q, next, rest, flags, depth, env, lf);
    }
  }

  lemma MemberReadBack(t: Bytes, p: nat, key: Bytes, k: nat, start: nat, value: Node, item: Bytes, v: Json, q: nat,
                       flags: Flags, depth: nat, env: Env, lf: LoadFlags)
    requires Valid(key) && NulFree(key) && KeyAt(t, p, key, flags, k) && At(t, k, Separator(flags)) && start == k + |Separator(flags)|
    requires Sound(value) && NodeText(value, flags, depth + 1, item) && At(t, start, item) && q == start + |item| && EndsAt(t, q)
    requires Meant(value, v, env, lf)
    ensures ScansTo(t, p, TString(key), k, env) && ScansTo(t, k, Punct(0x3A), k + 1, env) && ReadsAs(t, k + 1, v, q, env, lf)
  {
    ValueReadBack(t, start, value, item, v, q, flags, depth + 1, env, lf);
    MemberReads(t, p, key, k, start, v, q, flags, env, lf);
  }

  lemma MemberFailsAt(t: Bytes, p: nat, acc: map<Bytes, Json>, key: Bytes, k: nat, start: nat, flags: Flags, env: Env, lf: LoadFlags)
    requires Valid(key) && NulFree(key) && KeyAt(t, p, key, flags, k)
    requires At(t, k, Separator(flags)) && start == k + |Separator(flags)| && Fails(t, start, env, lf)
    ensures MembersFail(t, p, acc, env, lf)
  {
    KeyScans(t, p, key, flags, k, env);
    SeparatorScans(t, k, flags, k + 1, start, env);
    FailMoved(t, k + 1, start, env, lf);
    MemberFails(t, p, acc, key, k, k + 1, env, lf);
  }

  lemma MembersFailLater(t: Bytes, p: nat, acc: map<Bytes, Json>, key: Bytes, k: nat, v: Json, q: nat, next: nat, rest: Bytes,
                         flags: Flags, depth: nat, env: Env, lf: LoadFlags)
    requires ScansTo(t, p, TString(key), k, env) && ScansTo(t, k, Punct(0x3A), k + 1, env)
    requires ReadsAs(t, k + 1, v, q, env, lf) && Continues(t, q, false, rest, 0x7D, flags, depth)
    requires next == q + 1 + |Indent(flags, depth + 1, true)| && MembersFail(t, next, acc[key := v], env, lf)
    ensures MembersFail(t, p, acc, env, lf)
  {
    CommaContinues(t, q, rest, 0x7D, q + 1, next, flags, depth, env);
    MembersFailMoved(t, q + 1, next, acc[key := v], env, lf);
    LaterMemberFails(t, p, acc, key, k, k + 1, v, q, q + 1, env, lf);
  }

  // ----------------------------------------------------- order and members

  lemma {:induction false} NoneTwice(s: seq<ObjectKey>)
    requires DistinctKeys(s)
    ensures forall e :: multiset(s)[e] <= 1
  {
    if s != [] {
      NoneTwice(s[1..]);
      assert s == [s[0]] + s[1..];
      assert s[0] !in s[1..];
    }
  }

  lemma Twice(s: seq<ObjectKey>, i: nat, j: nat)
    requires i < j < |s| && s[i] == s[j]
    ensures multiset(s)[s[i]] >= 2
  {
    assert s == s[..j] + s[j..];
    assert s[i] in s[..j] && s[j] in s[j..];
  }

  lemma OrderKeys(pairs: seq<Pair>, flags: Flags)
    ensures multiset(KeyOrder(pairs, flags)) == multiset(KeysOf(pairs))
  {
  }

  lemma OrderIsDistinct(pairs: seq<Pair>, flags: Flags)
    requires Distinct(pairs)
    ensures DistinctKeys(KeyOrder(pairs, flags))
  {
    var keys := KeysOf(pairs);
    var order := KeyOrder(pairs, flags);
    OrderKeys(pairs, flags);
    NoneTwice(keys);
    forall i, j | 0 <= i < j < |order| ensures order[i].key != order[j].key {
      if order[i].key == order[j].key {
        assert order[i] in multiset(order) && order[j] in multiset(order);
        var x :| 0 <= x < |keys| && keys[x] == order[i];
        var y :| 0 <= y < |keys| && keys[y] == order[j];
        assert x == y;
        Twice(order, i, j);
        assert false;
      }
    }
  }

  predicate Ordered(order: seq<ObjectKey>, key: Bytes) {
    exists i :: 0 <= i < |order| && order[i].key == key
  }

  lemma {:induction false} GatheredIs(acc: map<Bytes, Json>, pairs: seq<Pair>, order: seq<ObjectKey>)
    requires forall i :: 0 <= i < |order| ==> HasKey(pairs, order[i].key)
    ensures forall k :: k in Gathered(acc, pairs, order) <==> k in acc || Ordered(order, k)
    ensures forall k :: Ordered(order, k) ==> HasKey(pairs, k) && Gathered(acc, pairs, order)[k] == ValueOf(Lookup(pairs, k))
    ensures forall k :: k in acc && !Ordered(order, k) ==> Gathered(acc, pairs, order)[k] == acc[k]
    decreases |order|
  {
    if order != [] {
      assert HasKey(pairs, order[0].key);
      GatheredIs(acc[order[0].key := ValueOf(Lookup(pairs, order[0].key))], pairs, order[1..]);
      forall k ensures Ordered(order, k) <==> k == order[0].key || Ordered(order[1..], k) {
        if i :| 0 <= i < |order| && order[i].key == k {
          if i > 0 { assert order[1..][i - 1] == order[i]; }
        }
        if i :| 0 <= i < |order[1..]| && order[1..][i].key == k {
          assert order[i + 1].key == k;
        }
      }
    }
  }

  lemma OrderCovers(pairs: seq<Pair>, flags: Flags, k: Bytes)
    ensures Ordered(KeyOrder(pairs, flags), k) <==> HasKey(pairs, k)
  {
    var keys := KeysOf(pairs);
    var order := KeyOrder(pairs, flags);
    OrderKeys(pairs, flags);
    if i :| 0 <= i < |pairs| && pairs[i].key == k {
      assert keys[i] in multiset(keys);
      var x :| 0 <= x < |order| && order[x] == keys[i];
    }
  }

  lemma GatheredAll(pairs: seq<Pair>, flags: Flags)
    requires Distinct(pairs)
    ensures Gathered(map[], pairs, KeyOrder(pairs, flags)) == MembersOf(pairs)
  {
    GatheredIs(map[], pairs, KeyOrder(pairs, flags));
    MembersOfPairs(pairs);
    forall k ensures Ordered(KeyOrder(pairs, flags), k) <==> HasKey(pairs, k) {
      OrderCovers(pairs, flags, k);
    }
  }
}
