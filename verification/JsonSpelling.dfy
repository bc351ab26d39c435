// How json_dumps spells a string: in which of the three ways of section 7 of RFC 8259
// each of its characters is written.

module JsonSpelling {
  import opened Closed
  import opened Octets
  import opened Wrappers
  import opened Utf8
  import opened JsonValue
  import opened JsonDump
  import opened JsonSyntax
  import opened JsonLaws
  import opened Utf8Laws
  import G = JsonGrammar
  import L = JsonLex
  import R = JsonRoundTrip

  datatype Form = Named | Numbered | Plain

  // Quote, backslash and the controls that have a letter; a slash if it is asked for.
  // The other controls go by number, and so does what is no ASCII if that is asked for.
  function FormOf(cp: int, flags: Flags): Form {
    if cp in [0x22, 0x5C, 0x08, 0x0C, 0x0A, 0x0D, 0x09] || (cp == 0x2F && flags.escapeSlash) then Named
    else if cp < 0x20 || (cp > 0x7F && flags.ensureAscii) then Numbered
    else Plain
  }

  predicate Lower(d: Bytes) {
    forall i :: 0 <= i < |d| ==> !(0x41 <= d[i] <= 0x5A)
  }

  predicate InForm(c: Char, form: Form) {
    match form
    case Named => c.Short?
    case Numbered => c.Unicode? && Lower(c.d)
    case Plain => c.Raw?
  }

  // One character, spelled in its form.
  ghost predicate CharSpelled(cs: seq<Char>, cp: int, flags: Flags)
    requires IsScalar(cp)
  {
    && GoodChars(cs) && (forall i :: 0 <= i < |cs| ==> InForm(cs[i], FormOf(cp, flags)))
    && Decoded(cs) == Some(Enc(cp))
  }

  // One after another.
  ghost predicate Spelling(cs: seq<Char>, cps: seq<int>, flags: Flags)
    requires forall i :: 0 <= i < |cps| ==> IsScalar(cps[i])
    decreases |cps|
  {
    if cps == [] then cs == []
    else exists k: nat :: k <= |cs| && CharSpelled(cs[..k], cps[0], flags) && Spelling(cs[k..], cps[1..], flags)
  }

  ghost predicate SpelledAs(cs: seq<Char>, s: Bytes, flags: Flags) {
    exists cps: seq<int> :: Spells(s, cps) && Spelling(cs, cps, flags)
  }

  // ---------------------------------------------------------- one character

  // A letter behind a backslash.
  lemma NamedSpelled(cp: int, c: byte, flags: Flags) returns (cs: seq<Char>)
    requires L.ShortEscape(c) && cp == L.ShortValue(c) && FormOf(cp, flags) == Named && cp < 0x80
    ensures CharSpelled(cs, cp, flags) && CharsText(cs) == [BACKSLASH, c]
  {
    cs := [Short(c)];
    G.ShortAgrees(c);
    assert cs[1..] == [] && [BACKSLASH, c] + [] == [BACKSLASH, c] && Enc(cp) + [] == Enc(cp);
  }

  // A digit of the lower table.
  lemma HexDigitIs(v: int)
    requires 0 <= v < 16
    ensures StandsAt(HexDigit(v), v) && !(0x41 <= HexDigit(v) <= 0x5A)
  {
    G.Tables();
  }

  lemma EscapeDigits(v: int) returns (d: Bytes)
    requires 0 <= v < 0x10000
    ensures Writes(d, v) && Lower(d) && UnicodeEscape(v) == [BACKSLASH, 0x75] + d
  {
    R.NibblesOf(v);
    HexDigitIs(v / 0x1000);
    HexDigitIs(v / 0x100 % 0x10);
    HexDigitIs(v / 0x10 % 0x10);
    HexDigitIs(v % 0x10);
    d := UnicodeEscape(v)[2..];
  }

  lemma NumberSpelled(cp: int, flags: Flags) returns (cs: seq<Char>)
    requires IsScalar(cp) && 0 < cp < 0x10000 && FormOf(cp, flags) == Numbered
    ensures CharSpelled(cs, cp, flags) && CharsText(cs) == UnicodeEscape(cp)
  {
    var d := EscapeDigits(cp);
    cs := [Unicode(d)];
    OneDecoded(cp, d, cs);
    OneText(d);
  }

  lemma PairSpelled(cp: int, a: int, b: int, flags: Flags) returns (cs: seq<Char>)
    requires 0x10000 <= cp <= 0x10FFFF && FormOf(cp, flags) == Numbered
    requires a == 0xD800 + (cp - 0x10000) / 0x400 && b == 0xDC00 + (cp - 0x10000) % 0x400
    ensures CharSpelled(cs, cp, flags) && CharsText(cs) == UnicodeEscape(a) + UnicodeEscape(b)
  {
    var high := EscapeDigits(a);
    var low := EscapeDigits(b);
    cs := [Unicode(high), Unicode(low)];
    PairText(high, low, UnicodeEscape(a), UnicodeEscape(b));
    PairDecoded(cp, a, b, high, low, cs);
  }

  lemma PairText(high: Bytes, low: Bytes, x: Bytes, y: Bytes)
    requires x == [BACKSLASH, 0x75] + high && y == [BACKSLASH, 0x75] + low
    ensures CharsText([Unicode(high), Unicode(low)]) == x + y
  {
    TwoText(high, low);
  }

  // Its bytes as they are.
  function Raws(b: Bytes): seq<Char> {
    seq(|b|, i requires 0 <= i < |b| => Raw(b[i]))
  }

  lemma {:induction false} RawsAre(b: Bytes)
    requires R.PlainBytes(b)
    ensures GoodChars(Raws(b)) && CharsText(Raws(b)) == b && Decoded(Raws(b)) == Some(b)
  {
    if b != [] {
      RawsAre(b[1..]);
      assert Raws(b)[1..] == Raws(b[1..]) && b == [b[0]] + b[1..];
    }
  }

  lemma PlainSpelled(cp: int, flags: Flags) returns (cs: seq<Char>)
    requires IsScalar(cp) && FormOf(cp, flags) == Plain
    ensures CharSpelled(cs, cp, flags) && CharsText(cs) == Enc(cp)
  {
    R.EncodedIsPlain(cp);
    RawsAre(Enc(cp));
    cs := Raws(Enc(cp));
  }

  lemma EscapeSpelled(cp: int, flags: Flags) returns (cs: seq<Char>)
    requires IsScalar(cp) && cp != 0 && MustEscape(cp, flags)
    ensures CharSpelled(cs, cp, flags) && CharsText(cs) == Escape(cp)
  {
    if cp == 0x5C { cs := NamedSpelled(cp, 0x5C, flags); }
    else if cp == 0x22 { cs := NamedSpelled(cp, 0x22, flags); }
    else if cp == 0x08 { cs := NamedSpelled(cp, 0x62, flags); }
    else if cp == 0x0C { cs := NamedSpelled(cp, 0x66, flags); }
    else if cp == 0x0A { cs := NamedSpelled(cp, 0x6E, flags); }
    else if cp == 0x0D { cs := NamedSpelled(cp, 0x72, flags); }
    else if cp == 0x09 { cs := NamedSpelled(cp, 0x74, flags); }
    else if cp == 0x2F { cs := NamedSpelled(cp, 0x2F, flags); }
    else if cp < 0x10000 { cs := NumberSpelled(cp, flags); }
    else { cs := PairSpelled(cp, 0xD800 + (cp - 0x10000) / 0x400, 0xDC00 + (cp - 0x10000) % 0x400, flags); }
  }

  // What one character of a string is written as.
  lemma OutSpelled(s: Bytes, flags: Flags) returns (cs: seq<Char>)
    requires CharLen(s) > 0 && CharValue(s) != 0
    ensures IsScalar(CharValue(s)) && CharSpelled(cs, CharValue(s), flags) && CharsText(cs) == R.Out(s, flags)
  {
    AcceptedIsEncoded(s);
    if MustEscape(CharValue(s), flags) {
      cs := EscapeSpelled(CharValue(s), flags);
    } else {
      cs := PlainSpelled(CharValue(s), flags);
    }
  }

  // ---------------------------------------------------------- a whole string

  lemma {:induction false} TextsJoin(a: seq<Char>, b: seq<Char>)
    ensures CharsText(a + b) == CharsText(a) + CharsText(b)
  {
    if a == [] {
      assert a + b == b;
    } else {
      TextsJoin(a[1..], b);
      assert (a + b)[1..] == a[1..] + b && (a + b)[0] == a[0];
      Append2(CharText(a[0]), CharsText(a[1..]), CharsText(b));
    }
  }

  lemma SpellingCons(first: seq<Char>, cp: int, rest: seq<Char>, cps: seq<int>, flags: Flags)
    requires IsScalar(cp) && (forall i :: 0 <= i < |cps| ==> IsScalar(cps[i]))
    requires CharSpelled(first, cp, flags) && Spelling(rest, cps, flags)
    ensures (forall i :: 0 <= i < |[cp] + cps| ==> IsScalar(([cp] + cps)[i])) && Spelling(first + rest, [cp] + cps, flags)
  {
    var cs, all, k := first + rest, [cp] + cps, |first|;
    assert cs[..k] == first && cs[k..] == rest && all[1..] == cps;
    assert CharSpelled(cs[..k], all[0], flags) && Spelling(cs[k..], all[1..], flags);
  }

  // The characters of a body, closed as Closed.dfy says.
  ghost predicate BodyIs(s: Bytes, cs: seq<Char>, cps: seq<int>, flags: Flags) {
    forall u: int {:trigger Opened(BODY, u)} :: Opened(BODY, u) ==>
      Valid(s) && GoodChars(cs) && CharsText(cs) == R.Body(s, flags) && Spells(s, cps) && Spelling(cs, cps, flags)
  }

  const BODY: nat := 24

  lemma BodyCons(s: Bytes, rest: Bytes, first: seq<Char>, cs: seq<Char>, cps: seq<int>, flags: Flags)
    requires CharLen(s) > 0 && rest == s[CharLen(s)..] && IsScalar(CharValue(s)) && Enc(CharValue(s)) == s[..CharLen(s)]
    requires CharSpelled(first, CharValue(s), flags) && CharsText(first) == R.Out(s, flags) && BodyIs(rest, cs, cps, flags)
    ensures BodyIs(s, first + cs, [CharValue(s)] + cps, flags)
  {
    assert Opened(BODY, 0);
    SpellingCons(first, CharValue(s), cs, cps, flags);
    TextsJoin(first, cs);
    EncodedCons(s, CharValue(s), cps);
    BodyStep(s, rest, flags);
  }

  lemma BodyStep(s: Bytes, rest: Bytes, flags: Flags)
    requires CharLen(s) > 0 && rest == s[CharLen(s)..] && Valid(rest)
    ensures Valid(s) && R.Body(s, flags) == R.Out(s, flags) + R.Body(rest, flags)
  {
  }

  lemma EncodedCons(s: Bytes, cp: int, cps: seq<int>)
    requires CharLen(s) > 0 && IsScalar(cp) && Enc(cp) == s[..CharLen(s)] && Spells(s[CharLen(s)..], cps)
    ensures Spells(s, [cp] + cps)
  {
    var n := CharLen(s);
    assert ([cp] + cps)[1..] == cps && s == s[..n] + s[n..];
  }

  lemma {:induction false} BodySpelled(s: Bytes, flags: Flags) returns (cs: seq<Char>, cps: seq<int>)
    requires Valid(s) && NulFree(s)
    ensures BodyIs(s, cs, cps, flags)
    decreases |s|
  {
    if s == [] {
      cs, cps := [], [];
    } else {
      R.NonzeroValue(s);
      AcceptedIsEncoded(s);
      var first := OutSpelled(s, flags);
      var rest, others := BodySpelled(s[CharLen(s)..], flags);
      BodyCons(s, s[CharLen(s)..], first, rest, others, flags);
      cs, cps := first + rest, [CharValue(s)] + others;
    }
  }

  // What json_dumps writes of a string in UTF-8.
  lemma StringSpelled(s: Bytes, flags: Flags) returns (cs: seq<Char>)
    requires Valid(s) && NulFree(s)
    ensures GoodChars(cs) && SpelledAs(cs, s, flags) && StringText(s, flags) == Quoted(cs)
  {
    var cps;
    cs, cps := BodySpelled(s, flags);
    assert Opened(BODY, 0);
    R.StringTextShape(s, flags);
  }
}
