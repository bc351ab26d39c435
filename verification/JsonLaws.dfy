// What four hexadecimal digits are worth, in either case, and what json_loads makes of a
// string that is written with them.

module JsonLaws {
  import opened Octets
  import opened Wrappers
  import opened Utf8
  import opened JsonValue
  import opened JsonLex
  import opened JsonParse
  import opened JsonReal
  import opened JsonSyntax
  import opened JsonGrammar
  import R = JsonRoundTrip
  import T = JsonTheorems

  // The digit `b` stands at place `k` of one of the two tables.
  predicate StandsAt(b: byte, k: int) {
    0 <= k < 16 && (LOWER[k] as int == b || UPPER[k] as int == b)
  }

  // Four digits that write `v`, each in whatever case.
  predicate Writes(d: Bytes, v: int) {
    && |d| == 4 && StandsAt(d[0], v / 0x1000) && StandsAt(d[1], v / 0x100 % 0x10)
    && StandsAt(d[2], v / 0x10 % 0x10) && StandsAt(d[3], v % 0x10)
  }

  lemma DigitIs(b: byte, k: int)
    requires StandsAt(b, k)
    ensures HexChar(b) && HexValue(b) == k && HexByte(b) && HexOf(b) == k
  {
    Tables();
    HexAgrees(b);
  }

  lemma UnitOfDigits(v: int, d: Bytes)
    requires 0 <= v < 0x10000 && Writes(d, v)
    ensures FourHex(d, 0) && Unit(d, 0) == v
    ensures GoodChar(Unicode(d)) && CodeUnit(d) == v
  {
    R.NibblesOf(v);
    DigitIs(d[0], v / 0x1000);
    DigitIs(d[1], v / 0x100 % 0x10);
    DigitIs(d[2], v / 0x10 % 0x10);
    DigitIs(d[3], v % 0x10);
  }

  // ["..."]
  function InBrackets(inside: Bytes): Bytes {
    [0x5B, 0x22] + inside + [0x22, 0x5D]
  }

  lemma AsciiIsValid(s: Bytes)
    requires forall i :: 0 <= i < |s| ==> s[i] < 0x80
    ensures Valid(s)
  {
    ValidAscii(s);
  }

  lemma BracketText(inside: Bytes)
    ensures [] + ([0x5B] + ([0x22] + inside + [0x22] + [0x5D])) + [] == InBrackets(inside)
  {
    assert [0x22] + inside + [0x22] + [0x5D] == [0x22] + inside + [0x22, 0x5D];
    assert [0x5B] + ([0x22] + inside + [0x22, 0x5D]) == InBrackets(inside);
  }

  lemma BracketedLoads(cs: seq<Char>, inside: Bytes, s: Bytes, lf: LoadFlags, strtod: Bytes -> Option<Double>)
    requires GoodChars(cs) && inside == CharsText(cs) && Decoded(cs) == Some(s)
    requires forall i :: 0 <= i < |inside| ==> inside[i] < 0x80
    ensures Load(InBrackets(inside), lf, strtod) == Some(Array([String(s)]))
  {
    var e := Element([], Text(cs), []);
    var whole := Element([], List([], [e]), []);
    var text := InBrackets(inside);
    var env := Env(false, strtod);
    AsciiIsValid(text);
    ListOfOne(cs, e, s, env, lf);
    BracketText(inside);
    DerivedLoads(text, whole, Array([String(s)]), env, lf);
  }

  lemma ListOfOne(cs: seq<Char>, e: Element, s: Bytes, env: Env, lf: LoadFlags)
    requires GoodChars(cs) && Decoded(cs) == Some(s) && e == Element([], Text(cs), [])
    ensures GoodTree(List([], [e])) && Meaning(List([], [e]), env, lf) == Some(Array([String(s)]))
    ensures TreeText(List([], [e])) == [0x5B] + (Quoted(cs) + [0x5D])
  {
    var items := [e];
    assert items[1..] == [] && GoodElement(e) && GoodItems([]);
    assert GoodItems(items);
    assert Meaning(Text(cs), env, lf) == Some(String(s));
    assert [] + [String(s)] == [String(s)];
    assert ItemsMeaning(items, [], env, lf) == ItemsMeaning(items[1..], [] + [String(s)], env, lf);
    assert ElementText(e) == Quoted(cs);
    assert ItemsText(items) == Quoted(cs) + [0x5D];
  }

  lemma DigitsAreAscii(v: int, d: Bytes)
    requires Writes(d, v)
    ensures forall i :: 0 <= i < 4 ==> d[i] < 0x80
  {
    DigitIs(d[0], v / 0x1000);
    DigitIs(d[1], v / 0x100 % 0x10);
    DigitIs(d[2], v / 0x10 % 0x10);
    DigitIs(d[3], v % 0x10);
  }

  lemma OneText(d: Bytes)
    ensures CharsText([Unicode(d)]) == [0x5C, 0x75] + d
  {
    assert [Unicode(d)][1..] == [];
    assert CharText(Unicode(d)) + [] == [0x5C, 0x75] + d;
  }

  lemma TwoText(a: Bytes, b: Bytes)
    ensures CharsText([Unicode(a), Unicode(b)]) == [0x5C, 0x75] + a + [0x5C, 0x75] + b
  {
    assert [Unicode(a), Unicode(b)][1..] == [Unicode(b)];
    OneText(b);
  }

  // \u and the digits of `v` are the character U+v ...
  lemma EscapeLoads(v: int, d: Bytes, lf: LoadFlags, strtod: Bytes -> Option<Double>)
    requires IsScalar(v) && 0 < v < 0x10000 && Writes(d, v)
    ensures Load(InBrackets([0x5C, 0x75] + d), lf, strtod) == Some(Array([String(Enc(v))]))
  {
    var cs := [Unicode(d)];
    OneText(d);
    DigitsAreAscii(v, d);
    OneDecoded(v, d, cs);
    BracketedLoads(cs, [0x5C, 0x75] + d, Enc(v), lf, strtod);
  }

  lemma OneDecoded(v: int, d: Bytes, cs: seq<Char>)
    requires IsScalar(v) && 0 < v < 0x10000 && Writes(d, v) && cs == [Unicode(d)]
    ensures GoodChars(cs) && Decoded(cs) == Some(Enc(v))
  {
    UnitOfDigits(v, d);
    assert cs[1..] == [] && Enc(v) + [] == Enc(v);
    assert Decoded(cs) == Unite(v, -1, Some([]), None);
  }

  // ... and two of them that write a surrogate pair are the one character of it.
  lemma PairLoads(cp: int, high: Bytes, low: Bytes, lf: LoadFlags, strtod: Bytes -> Option<Double>)
    requires 0x10000 <= cp <= 0x10FFFF
    requires Writes(high, 0xD800 + (cp - 0x10000) / 0x400) && Writes(low, 0xDC00 + (cp - 0x10000) % 0x400)
    ensures Load(InBrackets([0x5C, 0x75] + high + [0x5C, 0x75] + low), lf, strtod) == Some(Array([String(Enc(cp))]))
  {
    var a, b := 0xD800 + (cp - 0x10000) / 0x400, 0xDC00 + (cp - 0x10000) % 0x400;
    var cs := [Unicode(high), Unicode(low)];
    var inside := [0x5C, 0x75] + high + [0x5C, 0x75] + low;
    TwoText(high, low);
    PairIsAscii(a, b, high, low, inside);
    PairDecoded(cp, a, b, high, low, cs);
    BracketedLoads(cs, inside, Enc(cp), lf, strtod);
  }

  lemma PairIsAscii(a: int, b: int, high: Bytes, low: Bytes, inside: Bytes)
    requires Writes(high, a) && Writes(low, b) && inside == [0x5C, 0x75] + high + [0x5C, 0x75] + low
    ensures forall i :: 0 <= i < |inside| ==> inside[i] < 0x80
  {
    DigitsAreAscii(a, high);
    DigitsAreAscii(b, low);
  }

  lemma PairDecoded(cp: int, a: int, b: int, high: Bytes, low: Bytes, cs: seq<Char>)
    requires 0x10000 <= cp <= 0x10FFFF && cs == [Unicode(high), Unicode(low)]
    requires a == 0xD800 + (cp - 0x10000) / 0x400 && b == 0xDC00 + (cp - 0x10000) % 0x400 && Writes(high, a) && Writes(low, b)
    ensures GoodChars(cs) && Decoded(cs) == Some(Enc(cp))
  {
    UnitOfDigits(a, high);
    UnitOfDigits(b, low);
    TwoDecode(a, b, high, low, cs, Enc(cp));
  }

  lemma TwoDecode(a: int, b: int, high: Bytes, low: Bytes, cs: seq<Char>, out: Bytes)
    requires GoodChar(Unicode(high)) && GoodChar(Unicode(low)) && cs == [Unicode(high), Unicode(low)]
    requires CodeUnit(high) == a && CodeUnit(low) == b && HighSurrogate(a) && LowSurrogate(b)
    requires out == Enc((a - 0xD800) * 0x400 + (b - 0xDC00) + 0x10000)
    ensures GoodChars(cs) && Decoded(cs) == Some(out)
  {
    assert cs[1..] == [Unicode(low)] && cs[2..] == [] && out + [] == out;
    assert UnitOf(cs[1..]) == b;
    assert Decoded(cs) == Unite(a, b, Decoded(cs[1..]), Some([]));
  }
}
