// The lexical half of compat/jansson/load.c: what a token is, and the stream
// and lexer that find one.

module JsonLex {
  import opened Closed
  import opened Octets
  import opened Wrappers
  import opened Utf8
  import opened JsonValue
  import opened JsonDump
  import opened JsonReal

  datatype Token =
    | Eof
    | Invalid
    | Punct(c: byte)
    | TString(s: Bytes)
    | TInteger(text: Bytes)
    | TReal(x: Double)
    | TTrue
    | TFalse
    | TNull

  // What a text is read with besides itself: whether it breaks off at what is no
  // UTF-8, and strtod, None where the number is out of range and does not come to zero.
  datatype Env = Env(bad: bool, strtod: Bytes -> Option<Double>)

  // ------------------------------------------------------- what a token is

  predicate Blank(c: int) {
    c == 0x20 || c == 0x09 || c == 0x0A || c == 0x0D
  }

  predicate HexChar(c: int) {
    Digit(c) || 0x41 <= c <= 0x46 || 0x61 <= c <= 0x66
  }

  predicate Alpha(c: int) {
    0x41 <= c <= 0x5A || 0x61 <= c <= 0x7A
  }

  predicate Punctuation(c: int) {
    c == 0x7B || c == 0x7D || c == 0x5B || c == 0x5D || c == COLON || c == COMMA
  }

  predicate ShortEscape(c: int) {
    c == 0x22 || c == 0x5C || c == 0x2F || c == 0x62 || c == 0x66 || c == 0x6E || c == 0x72 || c == 0x74
  }

  predicate FourHex(r: Bytes, p: nat) {
    p + 4 <= |r| && HexChar(r[p]) && HexChar(r[p + 1]) && HexChar(r[p + 2]) && HexChar(r[p + 3])
  }

  function HexValue(c: int): (v: int)
    requires HexChar(c)
    ensures 0 <= v < 16
  {
    if Digit(c) then c - 0x30 else if c >= 0x61 then c - 0x61 + 10 else c - 0x41 + 10
  }

  function Unit(r: Bytes, p: nat): (v: int)
    requires FourHex(r, p)
    ensures 0 <= v < 0x10000
  {
    HexValue(r[p]) * 0x1000 + HexValue(r[p + 1]) * 0x100 + HexValue(r[p + 2]) * 0x10 + HexValue(r[p + 3])
  }

  // The quote that closes the string whose inside starts at `p`, where its
  // escapes have the right shape.
  function CloseFrom(r: Bytes, p: nat): (k: Option<nat>)
    ensures k.Some? ==> p <= k.value < |r| && r[k.value] == QUOTE
    decreases |r| - p
  {
    if p >= |r| then None
    else if r[p] == QUOTE then Some(p)
    else if r[p] < 0x20 then None
    else if r[p] == BACKSLASH then
      if p + 1 >= |r| then None
      else if r[p + 1] == 0x75 then if FourHex(r, p + 2) then CloseFrom(r, p + 6) else None
      else if ShortEscape(r[p + 1]) then CloseFrom(r, p + 2)
      else None
    else CloseFrom(r, p + 1)
  }

  // The end of the escape whose backslash is at `p`, or `p` where it is none.
  function EscapeEnd(r: Bytes, p: nat): (q: nat)
    requires p < |r| && r[p] == BACKSLASH
    ensures p <= q
  {
    if p + 1 >= |r| then p
    else if r[p + 1] == 0x75 then if FourHex(r, p + 2) then p + 6 else p
    else if ShortEscape(r[p + 1]) then p + 2
    else p
  }

  lemma CloseEscape(r: Bytes, p: nat)
    requires p < |r| && r[p] == BACKSLASH
    ensures var q := EscapeEnd(r, p); CloseFrom(r, p) == if p < q <= |r| then CloseFrom(r, q) else None
  {
  }

  function ShortValue(c: int): (v: byte)
    requires ShortEscape(c)
  {
    if c == 0x62 then 0x08
    else if c == 0x66 then 0x0C
    else if c == 0x6E then 0x0A
    else if c == 0x72 then 0x0D
    else if c == 0x74 then 0x09
    else c
  }

  // The string between `p` and its closing quote at `k`, or None for an escape
  // that names no character: section 7 of RFC 8259, without U+0000.
  function Unescape(r: Bytes, p: nat, k: nat): Option<Bytes>
    requires CloseFrom(r, p) == Some(k)
    decreases k - p
  {
    if p == k then Some([])
    else if r[p] != BACKSLASH then Then([r[p]], Unescape(r, p + 1, k))
    else if r[p + 1] != 0x75 then Then([ShortValue(r[p + 1])], Unescape(r, p + 2, k))
    else
      var v := Unit(r, p + 2);
      if 0xD800 <= v <= 0xDBFF then
        assert CloseFrom(r, p + 6) == Some(k);
        if r[p + 6] == BACKSLASH && r[p + 7] == 0x75 then
          var low := Unit(r, p + 8);
          if 0xDC00 <= low <= 0xDFFF then
            Then(Enc((v - 0xD800) * 0x400 + (low - 0xDC00) + 0x10000), Unescape(r, p + 12, k))
          else None
        else None
      else if 0xDC00 <= v <= 0xDFFF then None
      else if v == 0 then None
      else Then(Enc(v), Unescape(r, p + 6, k))
  }

  function Then(a: Bytes, rest: Option<Bytes>): Option<Bytes> {
    if rest.None? then None else Some(a + rest.value)
  }

  function DigitsEnd(r: Bytes, p: nat): (q: nat)
    requires p <= |r|
    ensures p <= q <= |r|
    ensures forall i :: p <= i < q ==> Digit(r[i])
    ensures q < |r| ==> !Digit(r[q])
    decreases |r| - p
  {
    if p < |r| && Digit(r[p]) then DigitsEnd(r, p + 1) else p
  }

  function AlphaEnd(r: Bytes, p: nat): (q: nat)
    requires p <= |r|
    ensures p <= q <= |r|
    decreases |r| - p
  {
    if p < |r| && Alpha(r[p]) then AlphaEnd(r, p + 1) else p
  }

  function BlankEnd(r: Bytes, p: nat): (q: nat)
    requires p <= |r|
    ensures p <= q <= |r|
    ensures q < |r| ==> !Blank(r[q])
    decreases |r| - p
  {
    if p < |r| && Blank(r[p]) then BlankEnd(r, p + 1) else p
  }

  function Decimal(d: Bytes): int
  {
    if d == [] then 0 else Decimal(d[..|d| - 1]) * 10 + (d[|d| - 1] as int - 0x30)
  }

  // strtoll, on what the lexer gives it.
  function IntegerOf(text: Bytes): int
  {
    if text != [] && text[0] == 0x2D then -Decimal(text[1..]) else Decimal(text)
  }

  predicate DigitAt(r: Bytes, p: nat) {
    p < |r| && Digit(r[p])
  }

  predicate ExponentAt(r: Bytes, p: nat) {
    p < |r| && (r[p] == 0x45 || r[p] == 0x65)
  }

  // Where the sign and whole part of the number at `p` end, or `p` for none.
  function WholeEnd(r: Bytes, p: nat): (q: nat)
    requires p < |r|
    ensures p <= q <= |r|
  {
    var d := if r[p] == 0x2D then p + 1 else p;
    if !DigitAt(r, d) then p
    else if r[d] == 0x30 then if DigitAt(r, d + 1) then p else d + 1
    else DigitsEnd(r, d + 1)
  }

  // The number at `p` and where it ends.
  function Number(r: Bytes, p: nat, env: Env): (t: (Token, nat))
    requires p < |r|
    ensures !t.0.Eof? && p <= t.1 <= |r|
    ensures !t.0.Invalid? ==> p < t.1
  {
    var q := WholeEnd(r, p);
    if q == p then (Invalid, p) else AfterWhole(r, p, q, env)
  }

  function AfterWhole(r: Bytes, p: nat, q: nat, env: Env): (t: (Token, nat))
    requires p < q <= |r|
    ensures !t.0.Eof? && p <= t.1 <= |r|
    ensures !t.0.Invalid? ==> p < t.1
  {
    if q < |r| && r[q] == 0x2E then
      if DigitAt(r, q + 1) then Exponent(r, p, DigitsEnd(r, q + 2), env) else (Invalid, p)
    else if ExponentAt(r, q) then Exponent(r, p, q, env)
    else if INT64_MIN <= IntegerOf(r[p..q]) <= INT64_MAX then (TInteger(r[p..q]), q)
    else (Invalid, p)
  }

  function Exponent(r: Bytes, p: nat, q: nat, env: Env): (t: (Token, nat))
    requires p < q <= |r|
    ensures !t.0.Eof? && p <= t.1 <= |r|
    ensures !t.0.Invalid? ==> p < t.1
  {
    if ExponentAt(r, q) then
      var s := if q + 1 < |r| && (r[q + 1] == 0x2B || r[q + 1] == 0x2D) then q + 2 else q + 1;
      if DigitAt(r, s) then RealAt(r, p, DigitsEnd(r, s + 1), env) else (Invalid, p)
    else RealAt(r, p, q, env)
  }

  // jsonp_strtod
  function RealAt(r: Bytes, p: nat, q: nat, env: Env): (t: (Token, nat))
    requires p < q <= |r|
    ensures !t.0.Eof? && p <= t.1 <= |r|
    ensures !t.0.Invalid? ==> p < t.1
  {
    var x := env.strtod(r[p..q]);
    if x.Some? then (TReal(x.value), q) else (Invalid, p)
  }

  const TRUE_TEXT: Bytes := [0x74, 0x72, 0x75, 0x65]
  const FALSE_TEXT: Bytes := [0x66, 0x61, 0x6C, 0x73, 0x65]
  const NULL_TEXT: Bytes := [0x6E, 0x75, 0x6C, 0x6C]

  function Word(text: Bytes): Token {
    if text == TRUE_TEXT then TTrue
    else if text == FALSE_TEXT then TFalse
    else if text == NULL_TEXT then TNull
    else Invalid
  }

  // The token at `p`, where no blank is, and where it ends. `r` is the part of
  // a text that is UTF-8.
  function Head(r: Bytes, p: nat, env: Env): (t: (Token, nat))
    requires p <= |r|
    ensures p <= t.1 <= |r|
    ensures !t.0.Invalid? && !t.0.Eof? ==> p < t.1
  {
    if p == |r| then (if env.bad then Invalid else Eof, p)
    else if Punctuation(r[p]) then (Punct(r[p]), p + 1)
    else if r[p] == QUOTE then StringAt(r, p)
    else if Digit(r[p]) || r[p] == 0x2D then Number(r, p, env)
    else if Alpha(r[p]) then (Word(r[p..AlphaEnd(r, p + 1)]), AlphaEnd(r, p + 1))
    else (Invalid, p)
  }

  function StringAt(r: Bytes, p: nat): (t: (Token, nat))
    requires p < |r|
    ensures !t.0.Eof? && p <= t.1 <= |r|
    ensures !t.0.Invalid? ==> p < t.1
  {
    var k := CloseFrom(r, p + 1);
    if k.None? then (Invalid, p)
    else
      var text := r[p..k.value + 1];
      CloseShift(r, p, text, 1, k.value);
      var s := Unescape(text, 1, k.value - p);
      if s.None? then (Invalid, p) else (TString(s.value), k.value + 1)
  }

  // One call of lex_scan. Where an invalid token ends nobody asks: every caller
  // gives up on one.
  function Scan(r: Bytes, p: nat, env: Env): (t: (Token, nat))
    requires p <= |r|
    ensures p <= t.1 <= |r|
    ensures !t.0.Invalid? && !t.0.Eof? ==> p < t.1
  {
    Head(r, BlankEnd(r, p), env)
  }

  // ------------------------------------------------------------- the lexer

  datatype StreamState = Good | AtEnd | Broken

  const EOF := -1
  const ERROR := -2

  // A byte as the `char` it is kept in, which has a sign.
  function Signed(b: byte): (c: int)
    ensures -0x80 <= c < 0x80 && Unsigned(c) == b
  {
    if b >= 0x80 then b - 0x100 else b
  }

  function Unsigned(c: int): byte
    requires -0x80 <= c < 0x80
  {
    if c < 0 then c + 0x100 else c
  }

  // The part of a text that reaches the lexer.
  function Sound(text: Bytes): Bytes {
    text[..GoodLen(text)]
  }

  // A test for a character of ASCII does not see the sign.
  lemma SignedAscii(b: byte)
    ensures Digit(Signed(b)) <==> Digit(b)
    ensures HexChar(Signed(b)) <==> HexChar(b)
    ensures Alpha(Signed(b)) <==> Alpha(b)
    ensures ShortEscape(Signed(b)) <==> ShortEscape(b)
    ensures Punctuation(Signed(b)) <==> Punctuation(b)
    ensures Blank(Signed(b)) <==> Blank(b)
    ensures b < 0x80 ==> Signed(b) == b
    ensures b >= 0x80 ==> Signed(b) < 0
  {
  }

  class Lexer {
    const input: Bytes
    var at: nat                 // string_data_t
    const buffer: array<byte>   // stream_t
    var bufferPos: nat
    var state: StreamState
    var position: nat
    var savedText: Bytes        // lex_t
    var token: Token
    const strtod: Bytes -> Option<Double>
    ghost const sound: Bytes    // all that will ever be read,
    ghost const env: Env        // and what it is read with,
    ghost var filled: nat       // where the character in the buffer ends
    ghost var start: nat        // and where the token being scanned starts

    // What every state of the stream has.
    ghost predicate Fixed() {
      && NulFree(input) && buffer.Length == 5 && sound <= input && env == Env(|sound| < |input|, strtod)
      && forall i :: 0 <= i < |sound| ==> sound[i] <= 0xF4
    }

    // The buffer holds one character of the text, taken up to bufferPos, and
    // what is UTF-8 behind it ends where the sound part does.
    ghost predicate Inside()
      reads this`at, this`bufferPos, this`filled, this`state, this`position, buffer
    {
      && Fixed()
      && (state == Broken ==> position == |sound| && env.bad)
      && (state == AtEnd ==> position == |sound| && !env.bad)
      && (state == Good ==>
            && bufferPos <= filled <= 4 && buffer[filled] == 0 && filled <= at <= |input|
            && at == position + (filled - bufferPos) && at + GoodLen(input[at..]) == |sound|
            && forall i :: 0 <= i < filled ==> buffer[i] == input[at - filled + i] != 0)
    }

    // The same, out of sight but for the methods that look: the rest of the
    // lexer goes by `position` alone.
    ghost predicate Valid()
      reads this`at, this`bufferPos, this`filled, this`state, this`position, buffer
    {
      position <= |sound| && forall u: int {:trigger Opened(0, u)} :: Opened(0, u) ==> Inside()
    }

    ghost function CharAt(p: nat): int {
      if p < |sound| then Signed(sound[p]) else if env.bad then ERROR else EOF
    }

    constructor (text: Bytes, strtod: Bytes -> Option<Double>)
      requires NulFree(text)
      ensures Valid() && input == text && fresh(buffer) && position == 0
      ensures sound == Sound(text) && env == Env(!Utf8.Valid(text), strtod)
    {
      input := text;
      at := 0;
      buffer := new byte[5](_ => 0);
      bufferPos, filled := 0, 0;
      state := Good;
      position, start := 0, 0;
      savedText := [];
      token := Invalid;
      sound := Sound(text);
      this.strtod := strtod;
      env := Env(!Utf8.Valid(text), strtod);
      new;
      ValidIsGood(text);
      SoundBytes(text);
      assert input[at..] == text;
    }

    // string_get
    method Next() returns (c: int)
      requires at <= |input|
      modifies this`at
      ensures old(at) < |input| ==> c == input[old(at)] && at == old(at) + 1
      ensures old(at) == |input| ==> c == EOF && at == old(at)
    {
      if at == |input| {
        c := EOF;
      } else {
        c := input[at];
        at := at + 1;
      }
    }

    // The loop of stream_get over the rest of a multi-byte character; what is
    // not there any more is stored as the byte EOF truncates to.
    method ReadTail(count: nat)
      requires buffer.Length == 5 && 2 <= count <= 4 && 1 <= at <= |input|
      modifies this`at, buffer
      ensures at == if old(at) + count - 1 <= |input| then old(at) + count - 1 else |input|
      ensures buffer[0] == old(buffer[0])
      ensures forall j :: 1 <= j < count ==>
        buffer[j] == if old(at) - 1 + j < |input| then input[old(at) - 1 + j] else 0xFF
    {
      var i := 1;
      while i < count
        invariant 1 <= i <= count && buffer[0] == old(buffer[0])
        invariant at == if old(at) + i - 1 <= |input| then old(at) + i - 1 else |input|
        invariant forall j :: 1 <= j < i ==>
          buffer[j] == if old(at) - 1 + j < |input| then input[old(at) - 1 + j] else 0xFF
      {
        if at == |input| {
          buffer[i] := 0xFF;
        } else {
          buffer[i] := input[at];
          at := at + 1;
        }
        i := i + 1;
      }
    }

    // The multi-byte branch of the refill, the announcing byte already stored.
    method FillMultiByte(count: nat, ghost ahead: Bytes) returns (full: bool)
      requires buffer.Length == 5 && 2 <= count <= 4 && 1 <= at <= |input|
      requires ahead == input[at - 1..] && buffer[0] == ahead[0] && CheckFirst(ahead[0]) == count
      modifies this`at, buffer
      ensures full <==> CharLen(ahead) > 0
      ensures full ==>
        && CharLen(ahead) == count && at == old(at) - 1 + count <= |input|
        && (forall i :: 0 <= i < count ==> buffer[i] == input[old(at) - 1 + i]) && buffer[count] == 0
    {
      ReadTail(count);
      var ok, _ := CheckFull(buffer[..], count);
      full := ok;
      SameCharacter(buffer[..], ahead, count);
      if full {
        assert forall i :: 0 <= i < count ==> buffer[i] == ahead[i] == input[old(at) - 1 + i];
        buffer[count] := 0;
      }
    }

    // A whole character into the buffer, its first byte `c` in hand.
    method StoreCharacter(c: byte, ghost ahead: Bytes) returns (ok: bool, ghost size: nat)
      requires NulFree(input) && buffer.Length == 5 && 1 <= at <= |input|
      requires ahead == input[at - 1..] && c == ahead[0]
      modifies this`at, buffer
      ensures size == CharLen(ahead) && (ok <==> size > 0)
      ensures ok ==>
        && at == old(at) - 1 + size <= |input| && buffer[size] == 0
        && forall i :: 0 <= i < size ==> buffer[i] == input[old(at) - 1 + i] != 0
    {
      size := CharLen(ahead);
      buffer[0] := c;
      ok := true;
      if 0x80 <= c <= 0xFF {
        var count := CheckFirst(c);
        if count == 0 {
          return false, size;
        }
        ok := FillMultiByte(count, ahead);
      } else {
        buffer[1] := 0;
      }
    }

    // What that does to what is still to come.
    method StoreNext(c: byte) returns (ok: bool, ghost size: nat)
      requires NulFree(input) && buffer.Length == 5 && 1 <= at <= |input| && c == input[at - 1]
      modifies this`at, buffer
      ensures ok <==> size > 0
      ensures !ok ==> GoodLen(input[old(at) - 1..]) == 0
      ensures ok ==>
        && size <= 4 && at == old(at) - 1 + size <= |input| && buffer[size] == 0
        && GoodLen(input[old(at) - 1..]) == size + GoodLen(input[at..])
        && forall i :: 0 <= i < size ==> buffer[i] == input[at - size + i] != 0
    {
      ghost var from := at - 1;
      ok, size := StoreCharacter(c, input[from..]);
      GoodFrom(input, from);
    }

    // A byte has been taken, and it is not the end.
    method FillFrom(c: byte)
      requires Fixed() && 1 <= at <= |input| && c == input[at - 1] && at - 1 == position
      requires position + GoodLen(input[position..]) == |sound|
      modifies this`at, this`bufferPos, this`filled, this`state, buffer
      ensures Inside()
      ensures position < |sound| ==> state == Good && bufferPos == 0 < filled
      ensures position == |sound| ==> state == Broken && env.bad
    {
      bufferPos := 0;
      var ok;
      ok, filled := StoreNext(c);
      state := if ok then Good else Broken;
    }

    // The refilling half of stream_get: the next character into the buffer, all
    // of it or none.
    method Fill()
      requires Inside() && state == Good && bufferPos == filled
      modifies this`at, this`bufferPos, this`filled, this`state, buffer
      ensures Inside()
      ensures position < |sound| ==> state == Good && bufferPos == 0 < filled
      ensures position == |sound| ==> state == if env.bad then Broken else AtEnd
    {
      var c := Next();
      if c == EOF {
        GoodFrom(input, at);
        state := AtEnd;
      } else {
        FillFrom(c);
      }
    }

    // stream_get
    method Get() returns (c: int)
      requires Valid()
      modifies this`at, this`bufferPos, this`filled, this`state, this`position, buffer
      ensures Valid() && c == CharAt(old(position))
      ensures position == if old(position) < |sound| then old(position) + 1 else old(position)
      ensures old(position) < |sound| ==> c != EOF && c != ERROR && state == Good && bufferPos > 0
    {
      assert Opened(0, 0);
      if state != Good {
        return if state == AtEnd then EOF else ERROR;
      }
      if buffer[bufferPos] == 0 {
        Fill();
        if state != Good {
          return if state == AtEnd then EOF else ERROR;
        }
      }
      c := Take();
    }

    // The byte in hand.
    method Take() returns (c: int)
      requires Inside() && state == Good && bufferPos < filled
      modifies this`bufferPos, this`position
      ensures Valid() && c == CharAt(old(position)) && position == old(position) + 1 <= |sound|
      ensures c != EOF && c != ERROR && state == Good && bufferPos > 0
    {
      GoodByte();
      c := Signed(buffer[bufferPos]);
      bufferPos := bufferPos + 1;
      position := position + 1;
    }

    lemma GoodByte()
      requires Inside() && state == Good && bufferPos < filled
      ensures position < |sound| && buffer[bufferPos] == sound[position]
    {
      assert at - filled + bufferPos == position;
    }

    // stream_unget
    method Unget(c: int)
      requires Valid()
      requires c == EOF || c == ERROR || (state == Good && bufferPos > 0 && position > 0 && c == CharAt(position - 1))
      modifies this`bufferPos, this`position
      ensures Valid()
      ensures position == if c == EOF || c == ERROR then old(position) else old(position) - 1
    {
      if c == EOF || c == ERROR {
        return;
      }
      assert Opened(0, 0);
      position := position - 1;
      bufferPos := bufferPos - 1;
      assert Signed(buffer[bufferPos]) == c;
    }

    // The byte at `p` has been taken and saved, or the end has been met there.
    ghost predicate Taken(p: nat, c: int)
      reads this, buffer
    {
      && Valid() && start <= p <= |sound| && c == CharAt(p)
      && position == (if p < |sound| then p + 1 else p) && savedText == sound[start..position]
      && (p < |sound| ==> c != EOF && c != ERROR && state == Good && bufferPos > 0)
    }

    // lex_get_save
    method GetSave(ghost p: nat, ghost last: int) returns (c: int)
      requires p < |sound| && Taken(p, last)
      modifies this`at, this`bufferPos, this`filled, this`state, this`position, this`savedText, buffer
      ensures Taken(p + 1, c)
    {
      c := Get();
      if c != EOF && c != ERROR {
        assert sound[start..position] == sound[start..position - 1] + [sound[position - 1]];
        savedText := savedText + [Unsigned(c)];
      }
    }

    // lex_unget_unsave
    method UngetUnsave(c: int, ghost p: nat)
      requires Taken(p, c)
      modifies this`bufferPos, this`position, this`savedText
      ensures Valid() && position == p && savedText == sound[start..p]
    {
      if c != EOF && c != ERROR {
        Unget(c);
        savedText := savedText[..|savedText| - 1];
      }
    }

    // The four digits of a \uXXXX escape, the first of them in hand.
    method ScanUnit(ghost p: nat, first: int) returns (ok: bool, c: int)
      requires Taken(p, first)
      modifies this`at, this`bufferPos, this`filled, this`state, this`position, this`savedText, buffer
      ensures Valid()
      ensures ok <==> FourHex(sound, p)
      ensures ok ==> Taken(p + 4, c)
    {
      c := first;
      var i := 0;
      while i < 4
        invariant 0 <= i <= 4 && Taken(p + i, c)
        invariant forall j :: p <= j < p + i ==> HexChar(sound[j])
      {
        if p + i < |sound| { SignedAscii(sound[p + i]); }
        if !HexChar(c) {
          return false, c;
        }
        c := GetSave(p + i, c);
        i := i + 1;
      }
      ok := true;
    }

    // One escape, from its backslash to the character behind it.
    method ScanEscape(ghost p: nat, last: int) returns (ok: bool, c: int, ghost next: nat)
      requires p < |sound| && sound[p] == BACKSLASH && Taken(p, last)
      modifies this`at, this`bufferPos, this`filled, this`state, this`position, this`savedText, buffer
      ensures Valid()
      ensures next == EscapeEnd(sound, p)
      ensures ok <==> next > p
      ensures ok ==> Taken(next, c)
    {
      ok, next := false, EscapeEnd(sound, p);
      c := GetSave(p, last);
      if p + 1 < |sound| { SignedAscii(sound[p + 1]); }
      if c == 0x75 {
        c := GetSave(p + 1, c);
        ok, c := ScanUnit(p + 2, c);
      } else if ShortEscape(c) {
        c := GetSave(p + 1, c);
        ok := true;
      }
    }

    // The first half of lex_scan_string: to the closing quote, every escape
    // checked for its shape.
    method FindClose() returns (closed: bool)
      requires start < |sound| && Taken(start, Signed(QUOTE))
      modifies this`at, this`bufferPos, this`filled, this`state, this`position, this`savedText, buffer
      ensures Valid()
      ensures closed <==> CloseFrom(sound, start + 1).Some?
      ensures closed ==> Taken(CloseFrom(sound, start + 1).value, Signed(QUOTE))
    {
      var c := GetSave(start, Signed(QUOTE));
      ghost var p := start + 1;
      while c != Signed(QUOTE)
        invariant Taken(p, c)
        invariant CloseFrom(sound, start + 1) == CloseFrom(sound, p)
        decreases |sound| - p
      {
        if c == ERROR || c == EOF {
          return false;
        }
        SignedAscii(sound[p]);
        if 0 <= c <= 0x1F {
          UngetUnsave(c, p);
          return false;
        } else if c == Signed(BACKSLASH) {
          var ok;
          CloseEscape(sound, p);
          ok, c, p := ScanEscape(p, c);
          if !ok {
            return false;
          }
        } else {
          c := GetSave(p, c);
          p := p + 1;
        }
      }
      closed := true;
    }

    // The second half: the escapes of a saved string, `q` being the pointer
    // into it and `t` what has been written of the value.
    method DecodeSaved() returns (value: Option<Bytes>)
      requires savedText != [] && CloseFrom(savedText, 1) == Some(|savedText| - 1)
      ensures value == Unescape(savedText, 1, |savedText| - 1)
    {
      var text := savedText;
      ghost var k := |text| - 1;
      var t: Bytes := [];
      var q := 1;
      assert forall x: Bytes :: [] + x == x;
      while text[q] != QUOTE
        invariant 1 <= q <= k && CloseFrom(text, q) == Some(k)
        invariant Unescape(text, 1, k) == Then(t, Unescape(text, q, k))
        decreases k - q
      {
        if text[q] == BACKSLASH {
          q := q + 1;
          if text[q] == 0x75 {
            var unit := Unit(text, q + 1);
            q := q + 5;
            assert CloseFrom(text, q) == Some(k);
            if 0xD800 <= unit <= 0xDBFF {
              if text[q] == BACKSLASH && text[q + 1] == 0x75 {
                var low := Unit(text, q + 2);
                q := q + 6;
                if 0xDC00 <= low <= 0xDFFF {
                  unit := (unit - 0xD800) * 0x400 + (low - 0xDC00) + 0x10000;
                } else {
                  return None;
                }
              } else {
                return None;
              }
            } else if 0xDC00 <= unit <= 0xDFFF {
              return None;
            } else if unit == 0 {
              return None;
            }
            ThenThen(t, Enc(unit), Unescape(text, q, k));
            t := t + Enc(unit);
          } else {
            ThenThen(t, [ShortValue(text[q])], Unescape(text, q + 1, k));
            t := t + [ShortValue(text[q])];
            q := q + 1;
          }
        } else {
          ThenThen(t, [text[q]], Unescape(text, q + 1, k));
          t := t + [text[q]];
          q := q + 1;
        }
      }
      assert t + [] == t;
      value := Some(t);
    }

    // lex_scan_string
    method ScanString()
      requires start < |sound| && sound[start] == QUOTE && Taken(start, Signed(QUOTE))
      modifies this`token, this`at, this`bufferPos, this`filled, this`state, this`position, this`savedText, buffer
      ensures Valid() && token == StringAt(sound, start).0
      ensures !token.Invalid? ==> position == StringAt(sound, start).1
    {
      token := Invalid;
      var closed := FindClose();
      if !closed {
        return;
      }
      CloseShift(sound, start, savedText, 1, position - 1);
      var value := DecodeSaved();
      if value.Some? {
        token := TString(value.value);
      }
    }

    // while(l_isdigit(c)) c = lex_get_save(lex, error)
    method ScanDigits(ghost p: nat, first: int) returns (c: int)
      requires Taken(p, first)
      modifies this`at, this`bufferPos, this`filled, this`state, this`position, this`savedText, buffer
      ensures Taken(DigitsEnd(sound, p), c)
    {
      c := first;
      ghost var q := p;
      if q < |sound| { SignedAscii(sound[q]); }
      while Digit(c)
        invariant Taken(q, c)
        invariant DigitsEnd(sound, p) == DigitsEnd(sound, q)
        invariant Digit(c) <==> DigitAt(sound, q)
        decreases |sound| - q
      {
        c := GetSave(q, c);
        q := q + 1;
        if q < |sound| { SignedAscii(sound[q]); }
      }
    }

    // The digit that has to follow a decimal point: looked at before it is saved.
    method DigitAfterPoint(ghost p: nat, last: int) returns (ok: bool, c: int)
      requires p < |sound| && Taken(p, last)
      modifies this`at, this`bufferPos, this`filled, this`state, this`position, this`savedText, buffer
      ensures Valid()
      ensures ok <==> DigitAt(sound, p + 1)
      ensures ok ==> Taken(p + 1, c)
    {
      if p + 1 < |sound| { SignedAscii(sound[p + 1]); }
      c := Get();
      ok := Digit(c);
      if !ok {
        Unget(c);
        return;
      }
      assert sound[start..position] == sound[start..position - 1] + [sound[position - 1]];
      savedText := savedText + [Unsigned(c)];
    }

    // The sign of an exponent, where it has one.
    method ScanSign(ghost p: nat, first: int) returns (c: int, ghost s: nat)
      requires Taken(p, first)
      modifies this`at, this`bufferPos, this`filled, this`state, this`position, this`savedText, buffer
      ensures s == (if p < |sound| && (sound[p] == 0x2B || sound[p] == 0x2D) then p + 1 else p)
      ensures Taken(s, c)
    {
      c, s := first, p;
      if p < |sound| { SignedAscii(sound[p]); }
      if c == 0x2B || c == 0x2D {
        c := GetSave(p, c);
        s := p + 1;
      }
    }

    // At least one digit.
    method ScanSomeDigits(ghost p: nat, first: int) returns (ok: bool, c: int)
      requires Taken(p, first)
      modifies this`at, this`bufferPos, this`filled, this`state, this`position, this`savedText, buffer
      ensures Valid() && (ok <==> DigitAt(sound, p))
      ensures ok ==> Taken(DigitsEnd(sound, p + 1), c)
    {
      c := first;
      if p < |sound| { SignedAscii(sound[p]); }
      ok := Digit(c);
      if !ok {
        UngetUnsave(c, p);
        return;
      }
      c := GetSave(p, c);
      c := ScanDigits(p + 1, c);
    }

    // jsonp_strtod
    method StrToD(text: Bytes) returns (x: Option<Double>)
      requires Valid()
      ensures x == env.strtod(text)
    {
      assert Opened(0, 0);
      x := strtod(text);
    }

    // An exponent, if there is one, and the real it ends.
    method ScanExponent(ghost q: nat, first: int)
      requires start < q <= |sound| && Taken(q, first) && token == Invalid
      modifies this`token, this`at, this`bufferPos, this`filled, this`state, this`position, this`savedText, buffer
      ensures Valid() && token == Exponent(sound, start, q, env).0
      ensures !token.Invalid? ==> position == Exponent(sound, start, q, env).1
    {
      var c := first;
      ghost var e := q;
      if q < |sound| { SignedAscii(sound[q]); }
      if c == 0x45 || c == 0x65 {
        c := GetSave(q, c);
        ghost var s;
        c, s := ScanSign(q + 1, c);
        var ok;
        ok, c := ScanSomeDigits(s, c);
        if !ok {
          return;
        }
        e := DigitsEnd(sound, s + 1);
      }
      UngetUnsave(c, e);
      var x := StrToD(savedText);
      if x.Some? {
        token := TReal(x.value);
      }
    }

    // The sign and the whole part of a number; false where there is none or it
    // has a leading zero.
    method ScanWhole(first: int) returns (ok: bool, c: int)
      requires start < |sound| && Taken(start, first)
      modifies this`at, this`bufferPos, this`filled, this`state, this`position, this`savedText, buffer
      ensures Valid()
      ensures ok <==> WholeEnd(sound, start) > start
      ensures ok ==> Taken(WholeEnd(sound, start), c)
    {
      c, ok := first, false;
      ghost var p := start;
      SignedAscii(sound[start]);
      if c == 0x2D {
        c := GetSave(start, c);
        p := start + 1;
        if p < |sound| { SignedAscii(sound[p]); }
      }
      if c == 0x30 {
        c := GetSave(p, c);
        if p + 1 < |sound| { SignedAscii(sound[p + 1]); }
        if Digit(c) {
          UngetUnsave(c, p + 1);
          return;
        }
      } else if Digit(c) {
        c := GetSave(p, c);
        c := ScanDigits(p + 1, c);
      } else {
        UngetUnsave(c, p);
        return;
      }
      ok := true;
    }

    // strtoll, and what it has to say about the range.
    method FinishInteger(ghost q: nat, last: int)
      requires start < q <= |sound| && Taken(q, last) && token == Invalid
      modifies this`token, this`bufferPos, this`position, this`savedText
      ensures Valid() && position == q
      ensures token ==
        if INT64_MIN <= IntegerOf(sound[start..q]) <= INT64_MAX then TInteger(sound[start..q]) else Invalid
    {
      UngetUnsave(last, q);
      var value := IntegerOf(savedText);
      if value < INT64_MIN || value > INT64_MAX {
        return;
      }
      token := TInteger(savedText);
    }

    // A decimal point and the digits behind it.
    method ScanFraction(ghost q: nat, last: int) returns (ok: bool, c: int)
      requires q < |sound| && Taken(q, last)
      modifies this`at, this`bufferPos, this`filled, this`state, this`position, this`savedText, buffer
      ensures Valid() && (ok <==> DigitAt(sound, q + 1))
      ensures ok ==> Taken(DigitsEnd(sound, q + 2), c)
    {
      ok, c := DigitAfterPoint(q, last);
      if ok {
        c := GetSave(q + 1, c);
        c := ScanDigits(q + 2, c);
      }
    }

    // lex_scan_number
    method ScanNumber(first: int)
      requires start < |sound| && Taken(start, first)
      modifies this`token, this`at, this`bufferPos, this`filled, this`state, this`position, this`savedText, buffer
      ensures Valid() && token == Number(sound, start, env).0
      ensures !token.Invalid? ==> position == Number(sound, start, env).1
    {
      token := Invalid;
      var ok, c := ScanWhole(first);
      if ok {
        ScanAfterWhole(WholeEnd(sound, start), c);
      }
    }

    method ScanAfterWhole(ghost whole: nat, last: int)
      requires start < whole <= |sound| && Taken(whole, last) && token == Invalid
      modifies this`token, this`at, this`bufferPos, this`filled, this`state, this`position, this`savedText, buffer
      ensures Valid() && token == AfterWhole(sound, start, whole, env).0
      ensures !token.Invalid? ==> position == AfterWhole(sound, start, whole, env).1
    {
      var c := last;
      ghost var q := whole;
      if q < |sound| { SignedAscii(sound[q]); }
      if c != 0x2E && c != 0x45 && c != 0x65 {
        FinishInteger(q, c);
        return;
      }
      if c == 0x2E {
        var digit;
        digit, c := ScanFraction(q, c);
        if !digit {
          return;
        }
        q := DigitsEnd(sound, q + 2);
      }
      ScanExponent(q, c);
    }

    // while(l_isalpha(c)) c = lex_get_save(lex, error)
    method ScanLetters(ghost p: nat, first: int) returns (c: int)
      requires Taken(p, first)
      modifies this`at, this`bufferPos, this`filled, this`state, this`position, this`savedText, buffer
      ensures Taken(AlphaEnd(sound, p), c)
    {
      c := first;
      ghost var q := p;
      if q < |sound| { SignedAscii(sound[q]); }
      while Alpha(c)
        invariant Taken(q, c)
        invariant AlphaEnd(sound, p) == AlphaEnd(sound, q)
        invariant Alpha(c) <==> q < |sound| && Alpha(sound[q])
        decreases |sound| - q
      {
        c := GetSave(q, c);
        q := q + 1;
        if q < |sound| { SignedAscii(sound[q]); }
      }
    }

    // An identifier, eaten up whole.
    method ScanWord(first: int)
      requires start < |sound| && Taken(start, first)
      modifies this`token, this`at, this`bufferPos, this`filled, this`state, this`position, this`savedText, buffer
      ensures Valid() && position == AlphaEnd(sound, start + 1)
      ensures token == Word(sound[start..position])
    {
      var c := GetSave(start, first);
      c := ScanLetters(start + 1, c);
      UngetUnsave(c, AlphaEnd(sound, start + 1));
      if savedText == TRUE_TEXT {
        token := TTrue;
      } else if savedText == FALSE_TEXT {
        token := TFalse;
      } else if savedText == NULL_TEXT {
        token := TNull;
      } else {
        token := Invalid;
      }
    }

    // lex_save_cached: the rest of a character that starts no token.
    method SaveCached()
      requires Valid() && state == Good
      modifies this`bufferPos, this`position, this`savedText
      ensures Valid()
    {
      assert Opened(0, 0);
      while buffer[bufferPos] != 0
        invariant Inside() && state == Good
        decreases filled - bufferPos
      {
        savedText := savedText + [buffer[bufferPos]];
        bufferPos := bufferPos + 1;
        position := position + 1;
      }
    }

    // The blanks in front of a token, and the character behind them.
    method SkipBlanks() returns (c: int)
      requires Valid()
      modifies this`at, this`bufferPos, this`filled, this`state, this`position, this`start, this`savedText, buffer
      ensures savedText == [] && start == BlankEnd(sound, old(position)) && start <= |sound|
      ensures Valid() && c == CharAt(start)
      ensures position == if start < |sound| then start + 1 else start
      ensures start < |sound| ==> c != EOF && c != ERROR && state == Good && bufferPos > 0
    {
      savedText := [];
      start := position;
      c := Get();
      if start < |sound| { SignedAscii(sound[start]); }
      while Blank(c)
        invariant savedText == [] && start <= |sound| && BlankEnd(sound, old(position)) == BlankEnd(sound, start)
        invariant Valid() && c == CharAt(start)
        invariant position == if start < |sound| then start + 1 else start
        invariant start < |sound| ==> c != EOF && c != ERROR && state == Good && bufferPos > 0
        invariant Blank(c) <==> start < |sound| && Blank(sound[start])
        decreases |sound| - start
      {
        start := position;
        c := Get();
        if start < |sound| { SignedAscii(sound[start]); }
      }
    }

    // lex_scan
    method LexScan()
      requires Valid()
      modifies this, buffer
      ensures Valid() && token == Scan(sound, old(position), env).0
      ensures !token.Invalid? ==> position == Scan(sound, old(position), env).1
    {
      var c := SkipBlanks();
      if c == EOF {
        token := Eof;
        return;
      }
      if c == ERROR {
        token := Invalid;
        return;
      }
      savedText := [Unsigned(c)];
      SignedAscii(sound[start]);
      if Punctuation(c) {
        token := Punct(c);
      } else if c == Signed(QUOTE) {
        ScanString();
      } else if Digit(c) || c == 0x2D {
        ScanNumber(c);
      } else if Alpha(c) {
        ScanWord(c);
      } else {
        SaveCached();
        token := Invalid;
      }
    }
  }

  lemma GoodStep(s: Bytes)
    ensures CharLen(s) == 0 ==> GoodLen(s) == 0
    ensures CharLen(s) > 0 ==> GoodLen(s) == CharLen(s) + GoodLen(s[CharLen(s)..])
    ensures s != [] && CheckFirst(s[0]) <= 1 ==> CharLen(s) == CheckFirst(s[0])
  {
  }

  lemma GoodFrom(s: Bytes, p: nat)
    requires p <= |s|
    ensures var n := CharLen(s[p..]);
            && p + n <= |s| && n <= 4 && GoodLen(s[p..]) == if n == 0 then 0 else n + GoodLen(s[p + n..])
  {
    var n := CharLen(s[p..]);
    GoodStep(s[p..]);
    assert s[p..][n..] == s[p + n..];
  }

  lemma SoundBytes(text: Bytes)
    ensures forall i :: 0 <= i < GoodLen(text) ==> text[i] <= 0xF4
    decreases |text|
  {
    var n := CharLen(text);
    if n > 0 {
      CharacterBytes(text);
      SoundBytes(text[n..]);
      forall i | n <= i < GoodLen(text) ensures text[i] <= 0xF4 {
        assert text[i] == text[n..][i - n];
      }
    }
  }

  lemma ThenThen(a: Bytes, b: Bytes, rest: Option<Bytes>)
    ensures Then(a, Then(b, rest)) == Then(a + b, rest)
  {
    if rest.Some? { assert a + (b + rest.value) == a + b + rest.value; }
  }

  lemma SameCharacter(buffer: Bytes, ahead: Bytes, n: nat)
    requires ahead != [] && 2 <= n <= 4 <= |buffer| && CheckFirst(ahead[0]) == n
    requires forall j :: 0 <= j < n ==> buffer[j] == if j < |ahead| then ahead[j] else 0xFF
    ensures Full(buffer, n) <==> CharLen(ahead) == n
  {
    if n <= |ahead| {
      CarriedExpanded(buffer, n);
      CarriedExpanded(ahead, n);
      assert Carried(buffer, 1) == Carried(ahead, 1);
      assert Carried(buffer, n) == Carried(ahead, n);
    } else {
      assert buffer[|ahead|] == 0xFF;
    }
  }

  lemma CharacterBytes(s: Bytes)
    requires CharLen(s) > 0
    ensures forall i :: 0 <= i < CharLen(s) ==> s[i] <= 0xF4
  {
  }

  // The shape of a string up to its closing quote, moved elsewhere.
  lemma {:induction false} CloseShift(r: Bytes, s: nat, v: Bytes, p: nat, k: nat)
    requires s + p <= k < |r| && |v| == k + 1 - s
    requires forall i :: 0 <= i < |v| ==> v[i] == r[s + i]
    requires CloseFrom(r, s + p) == Some(k)
    ensures CloseFrom(v, p) == Some(k - s)
    decreases k - p
  {
    assert v[p] == r[s + p];
    if r[s + p] == QUOTE {
    } else if r[s + p] == BACKSLASH {
      assert v[p + 1] == r[s + (p + 1)];
      if r[s + p + 1] == 0x75 {
        assert v[p + 2] == r[s + (p + 2)] && v[p + 3] == r[s + (p + 3)];
        assert v[p + 4] == r[s + (p + 4)] && v[p + 5] == r[s + (p + 5)];
        CloseShift(r, s, v, p + 6, k);
      } else {
        CloseShift(r, s, v, p + 2, k);
      }
    } else {
      CloseShift(r, s, v, p + 1, k);
    }
  }
}
