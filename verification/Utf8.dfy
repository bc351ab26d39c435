// UTF-8 as compat/jansson/utf.c reads and writes it, against the encoding table
// of section 3 of RFC 3629.

module Utf8 {
  import opened Octets

  // A Unicode scalar value: every code point but the surrogate halves.
  predicate IsScalar(cp: int) {
    0 <= cp <= 0x10FFFF && !(0xD800 <= cp <= 0xDFFF)
  }

  // The table of RFC 3629, section 3.
  function Enc(cp: int): (r: Bytes)
    requires 0 <= cp <= 0x10FFFF
    ensures 1 <= |r| <= 4
  {
    if cp < 0x80 then [cp]
    else if cp < 0x800 then [0xC0 + cp / 0x40, 0x80 + cp % 0x40]
    else if cp < 0x10000 then [0xE0 + cp / 0x1000, 0x80 + cp / 0x40 % 0x40, 0x80 + cp % 0x40]
    else [0xF0 + cp / 0x40000, 0x80 + cp / 0x1000 % 0x40, 0x80 + cp / 0x40 % 0x40, 0x80 + cp % 0x40]
  }

  // utf8_encode. The masks and shifts of the source are the divisions below;
  // unlike a decoder it does not refuse a surrogate half.
  method Encode(codepoint: int, buffer: array<byte>) returns (ok: bool, size: nat)
    requires buffer.Length >= 4
    modifies buffer
    ensures ok <==> 0 <= codepoint <= 0x10FFFF
    ensures ok ==> size == |Enc(codepoint)| && buffer[..size] == Enc(codepoint)
    ensures !ok ==> buffer[..] == old(buffer[..])
  {
    size := 0;
    if codepoint < 0 {
      return false, 0;
    } else if codepoint < 0x80 {
      buffer[0] := codepoint;
      size := 1;
    } else if codepoint < 0x800 {
      buffer[0] := 0xC0 + codepoint / 0x40 % 0x20;
      buffer[1] := 0x80 + codepoint % 0x40;
      size := 2;
    } else if codepoint < 0x10000 {
      buffer[0] := 0xE0 + codepoint / 0x1000 % 0x10;
      buffer[1] := 0x80 + codepoint / 0x40 % 0x40;
      buffer[2] := 0x80 + codepoint % 0x40;
      size := 3;
    } else if codepoint <= 0x10FFFF {
      buffer[0] := 0xF0 + codepoint / 0x40000 % 0x8;
      buffer[1] := 0x80 + codepoint / 0x1000 % 0x40;
      buffer[2] := 0x80 + codepoint / 0x40 % 0x40;
      buffer[3] := 0x80 + codepoint % 0x40;
      size := 4;
    } else {
      return false, 0;
    }
    ok := true;
  }

  // utf8_check_first: how long a character starting with this byte is, or 0 for
  // a byte that starts none.
  function CheckFirst(u: byte): (n: nat)
    ensures n <= 4
  {
    if u < 0x80 then 1
    else if u <= 0xBF then 0
    else if u == 0xC0 || u == 0xC1 then 0
    else if u <= 0xDF then 2
    else if u <= 0xEF then 3
    else if u <= 0xF4 then 4
    else 0
  }

  // The number the first `n` bytes of a character carry.
  function Carried(s: Bytes, n: nat): int
    requires 1 <= n <= |s|
  {
    if n == 1 then
      var size := CheckFirst(s[0]);
      if size == 2 then s[0] % 0x20 else if size == 3 then s[0] % 0x10 else s[0] % 0x8
    else Carried(s, n - 1) * 64 + Low(s[n - 1])
  }

  predicate Continuations(s: Bytes, n: nat)
    requires n <= |s|
  {
    forall i :: 1 <= i < n ==> 0x80 <= s[i] <= 0xBF
  }

  // What a decoder has to establish about the multi-byte character at the head
  // of `s` before it may accept it.
  predicate Full(s: Bytes, n: nat)
    requires 2 <= n <= |s| && n <= 4
  {
    && Continuations(s, n)
    && var v := Carried(s, n);
       IsScalar(v) && v >= (if n == 2 then 0x80 else if n == 3 then 0x800 else 0x10000)
  }

  // Length of the well-formed character `s` starts with; 0 where it starts
  // with none.
  function CharLen(s: Bytes): (n: nat)
    ensures n <= 4 && n <= |s|
  {
    if s == [] then 0 else
    var n := CheckFirst(s[0]);
    if n <= 1 then n
    else if n <= |s| && Full(s, n) then n else 0
  }

  function CharValue(s: Bytes): int
    requires CharLen(s) > 0
  {
    if CharLen(s) == 1 then s[0] else Carried(s, CharLen(s))
  }

  lemma LastDigit(a: int, d: int)
    requires a >= 0 && 0 <= d < 64
    ensures (a * 64 + d) / 0x40 == a && (a * 64 + d) % 0x40 == d
  {
  }

  lemma DividedOn(x: int)
    requires x >= 0
    ensures x / 0x1000 == x / 0x40 / 0x40 && x / 0x40000 == x / 0x1000 / 0x40
  {
  }

  // Six-bit digits: what division and remainder do to a number built of them.
  lemma SixBits(a: int, b: int, c: int, d: int)
    requires a >= 0 && 0 <= b < 64 && 0 <= c < 64 && 0 <= d < 64
    ensures (a * 64 + d) / 0x40 == a && (a * 64 + d) % 0x40 == d
    ensures (a * 4096 + c * 64 + d) / 0x1000 == a && (a * 4096 + c * 64 + d) / 0x40 % 0x40 == c
    ensures (a * 4096 + c * 64 + d) % 0x40 == d
    ensures (a * 262144 + b * 4096 + c * 64 + d) / 0x40000 == a
    ensures (a * 262144 + b * 4096 + c * 64 + d) / 0x1000 % 0x40 == b
    ensures (a * 262144 + b * 4096 + c * 64 + d) / 0x40 % 0x40 == c
    ensures (a * 262144 + b * 4096 + c * 64 + d) % 0x40 == d
  {
    LastDigit(a, b);
    LastDigit(a, c);
    LastDigit(a, d);
    LastDigit(a * 64 + b, c);
    LastDigit(a * 64 + c, d);
    LastDigit((a * 64 + b) * 64 + c, d);
    DividedOn((a * 64 + c) * 64 + d);
    DividedOn(((a * 64 + b) * 64 + c) * 64 + d);
  }

  lemma SixBitsJoined(v: int)
    requires v >= 0
    ensures v == v / 0x40 * 64 + v % 0x40
    ensures v == v / 0x1000 * 4096 + v / 0x40 % 0x40 * 64 + v % 0x40
    ensures v == v / 0x40000 * 262144 + v / 0x1000 % 0x40 * 4096 + v / 0x40 % 0x40 * 64 + v % 0x40
  {
    DividedOn(v);
  }

  function Low(b: byte): (v: int)
    ensures 0 <= v < 64
  {
    b % 0x40
  }

  lemma CarriedExpanded(s: Bytes, n: nat)
    requires 2 <= n <= 4 && n <= |s|
    ensures n == 2 ==> Carried(s, n) == Carried(s, 1) * 64 + Low(s[1])
    ensures n == 3 ==> Carried(s, n) == Carried(s, 1) * 4096 + Low(s[1]) * 64 + Low(s[2])
    ensures n == 4 ==> Carried(s, n) == Carried(s, 1) * 262144 + Low(s[1]) * 4096 + Low(s[2]) * 64 + Low(s[3])
    ensures 0 <= Carried(s, 1) < 32
  {
    assert Carried(s, 2) == Carried(s, 1) * 64 + Low(s[1]);
    if n >= 3 { assert Carried(s, 3) == Carried(s, 2) * 64 + Low(s[2]); }
    if n >= 4 { assert Carried(s, 4) == Carried(s, 3) * 64 + Low(s[3]); }
  }

  lemma Enc2(a: int, d: int)
    requires 0 <= a < 32 && 0 <= d < 64 && a * 64 + d >= 0x80
    ensures Enc(a * 64 + d) == [0xC0 + a, 0x80 + d]
  {
    SixBits(a, 0, 0, d);
  }

  lemma Enc3(a: int, c: int, d: int)
    requires 0 <= a < 16 && 0 <= c < 64 && 0 <= d < 64 && a * 4096 + c * 64 + d >= 0x800
    ensures Enc(a * 4096 + c * 64 + d) == [0xE0 + a, 0x80 + c, 0x80 + d]
  {
    SixBits(a, 0, c, d);
  }

  lemma Enc4(a: int, b: int, c: int, d: int)
    requires 0 <= a < 8 && 0 <= b < 64 && 0 <= c < 64 && 0 <= d < 64
    requires 0x10000 <= a * 262144 + b * 4096 + c * 64 + d <= 0x10FFFF
    ensures Enc(a * 262144 + b * 4096 + c * 64 + d) == [0xF0 + a, 0x80 + b, 0x80 + c, 0x80 + d]
  {
    SixBits(a, b, c, d);
  }

  lemma AcceptedTwo(s: Bytes)
    requires CharLen(s) == 2
    ensures Enc(Carried(s, 2)) == [s[0], s[1]]
  {
    CarriedExpanded(s, 2);
    assert s[1] == 0x80 + Low(s[1]);
    Enc2(Carried(s, 1), Low(s[1]));
  }

  lemma AcceptedThree(s: Bytes)
    requires CharLen(s) == 3
    ensures Enc(Carried(s, 3)) == [s[0], s[1], s[2]]
  {
    CarriedExpanded(s, 3);
    assert s[1] == 0x80 + Low(s[1]);
    assert s[2] == 0x80 + Low(s[2]);
    assert s[0] == 0xE0 + Carried(s, 1);
    Enc3(Carried(s, 1), Low(s[1]), Low(s[2]));
  }

  lemma AcceptedFour(s: Bytes)
    requires CharLen(s) == 4
    ensures Enc(Carried(s, 4)) == [s[0], s[1], s[2], s[3]]
  {
    CarriedExpanded(s, 4);
    assert s[1] == 0x80 + Low(s[1]);
    assert s[2] == 0x80 + Low(s[2]);
    assert s[3] == 0x80 + Low(s[3]);
    assert s[0] == 0xF0 + Carried(s, 1);
    Enc4(Carried(s, 1), Low(s[1]), Low(s[2]), Low(s[3]));
  }

  // An accepted character is the table's encoding of the number it carries.
  lemma AcceptedIsEncoded(s: Bytes)
    requires CharLen(s) > 0
    ensures IsScalar(CharValue(s)) && Enc(CharValue(s)) == s[..CharLen(s)]
  {
    if CharLen(s) == 2 {
      AcceptedTwo(s);
    } else if CharLen(s) == 3 {
      AcceptedThree(s);
    } else if CharLen(s) == 4 {
      AcceptedFour(s);
    }
  }

  lemma CarriedByTwo(s: Bytes, a: int, d: int)
    requires 0 <= a < 32 && 0 <= d < 64 && a * 64 + d >= 0x80
    requires |s| >= 2 && s[0] == 0xC0 + a && s[1] == 0x80 + d
    ensures CharLen(s) == 2 && Carried(s, 2) == a * 64 + d
  {
    CarriedExpanded(s, 2);
  }

  lemma CarriedByThree(s: Bytes, a: int, c: int, d: int)
    requires 0 <= a < 16 && 0 <= c < 64 && 0 <= d < 64
    requires a * 4096 + c * 64 + d >= 0x800 && IsScalar(a * 4096 + c * 64 + d)
    requires |s| >= 3 && s[0] == 0xE0 + a && s[1] == 0x80 + c && s[2] == 0x80 + d
    ensures CharLen(s) == 3 && Carried(s, 3) == a * 4096 + c * 64 + d
  {
    CarriedExpanded(s, 3);
  }

  lemma CarriedByFour(s: Bytes, a: int, b: int, c: int, d: int)
    requires 0 <= a < 8 && 0 <= b < 64 && 0 <= c < 64 && 0 <= d < 64
    requires 0x10000 <= a * 262144 + b * 4096 + c * 64 + d <= 0x10FFFF
    requires |s| >= 4 && s[0] == 0xF0 + a && s[1] == 0x80 + b && s[2] == 0x80 + c && s[3] == 0x80 + d
    ensures CharLen(s) == 4 && Carried(s, 4) == a * 262144 + b * 4096 + c * 64 + d
  {
    CarriedExpanded(s, 4);
  }

  // And every encoding in the table is accepted, whatever follows it.
  lemma EncodedIsAccepted(cp: int, rest: Bytes)
    requires IsScalar(cp)
    ensures CharLen(Enc(cp) + rest) == |Enc(cp)| && CharValue(Enc(cp) + rest) == cp
    ensures (Enc(cp) + rest)[|Enc(cp)|..] == rest
  {
    var s := Enc(cp) + rest;
    SixBitsJoined(cp);
    if cp < 0x80 {
    } else if cp < 0x800 {
      CarriedByTwo(s, cp / 0x40, cp % 0x40);
    } else if cp < 0x10000 {
      CarriedByThree(s, cp / 0x1000, cp / 0x40 % 0x40, cp % 0x40);
    } else {
      CarriedByFour(s, cp / 0x40000, cp / 0x1000 % 0x40, cp / 0x40 % 0x40, cp % 0x40);
    }
  }

  lemma FullIffEncoded(s: Bytes, n: nat)
    requires 1 <= n <= |s| && CheckFirst(s[0]) == n
    ensures n >= 2 && Full(s, n) <==> exists cp :: IsScalar(cp) && n >= 2 && Enc(cp) == s[..n]
  {
    if n >= 2 && Full(s, n) {
      AcceptedIsEncoded(s);
    }
    if cp :| IsScalar(cp) && n >= 2 && Enc(cp) == s[..n] {
      EncodedIsAccepted(cp, s[n..]);
      assert Enc(cp) + s[n..] == s;
    }
  }

  // utf8_check_full, for a buffer whose first byte announced `size`.
  method CheckFull(buffer: Bytes, size: nat) returns (ok: bool, codepoint: int)
    requires 1 <= size <= |buffer| && CheckFirst(buffer[0]) == size
    ensures ok <==> exists cp :: IsScalar(cp) && size >= 2 && Enc(cp) == buffer[..size]
    ensures ok <==> size >= 2 && Full(buffer, size)
    ensures ok ==> IsScalar(codepoint) && Enc(codepoint) == buffer[..size] && codepoint == Carried(buffer, size)
  {
    FullIffEncoded(buffer, size);
    ok, codepoint := false, 0;
    var value := 0;
    if size == 2 {
      value := buffer[0] % 0x20;
    } else if size == 3 {
      value := buffer[0] % 0x10;
    } else if size == 4 {
      value := buffer[0] % 0x8;
    } else {
      return;
    }
    var i := 1;
    while i < size
      invariant 1 <= i <= size
      invariant value == Carried(buffer, i)
      invariant Continuations(buffer, i)
    {
      var u := buffer[i];
      if u < 0x80 || u > 0xBF {
        return;
      }
      value := value * 64 + Low(u);
      i := i + 1;
    }
    if value > 0x10FFFF {
      return;
    } else if 0xD800 <= value <= 0xDFFF {
      return;
    } else if (size == 2 && value < 0x80) || (size == 3 && value < 0x800) || (size == 4 && value < 0x10000) {
      return;
    }
    AcceptedIsEncoded(buffer);
    return true, value;
  }

  // A well-formed string: characters of the table and nothing else.
  predicate Valid(s: Bytes)
    decreases |s|
  {
    s == [] || (CharLen(s) > 0 && Valid(s[CharLen(s)..]))
  }

  // How much of `s` is well formed, counted from its start in whole characters.
  function GoodLen(s: Bytes): (n: nat)
    ensures n <= |s|
    decreases |s|
  {
    if CharLen(s) == 0 then 0 else CharLen(s) + GoodLen(s[CharLen(s)..])
  }

  lemma {:induction false} ValidIsGood(s: Bytes)
    ensures Valid(s) <==> GoodLen(s) == |s|
    decreases |s|
  {
    if s != [] && CharLen(s) > 0 { ValidIsGood(s[CharLen(s)..]); }
  }

  lemma CharLenOfPrefix(a: Bytes, b: Bytes)
    requires CharLen(a) > 0
    ensures CharLen(a + b) == CharLen(a) && CharValue(a + b) == CharValue(a)
  {
    AcceptedIsEncoded(a);
    EncodedIsAccepted(CharValue(a), a[CharLen(a)..] + b);
    assert a == a[..CharLen(a)] + a[CharLen(a)..];
    assert a + b == Enc(CharValue(a)) + (a[CharLen(a)..] + b);
  }

  // Cutting in front of a well-formed string changes nothing behind it.
  lemma {:induction false} ValidConcat(a: Bytes, b: Bytes)
    requires Valid(a)
    ensures Valid(a + b) <==> Valid(b)
    decreases |a|
  {
    if a == [] {
      assert a + b == b;
    } else {
      CharLenOfPrefix(a, b);
      var n := CharLen(a);
      ValidConcat(a[n..], b);
      assert (a + b)[n..] == a[n..] + b;
    }
  }

  lemma ValidAscii(s: Bytes)
    requires forall i :: 0 <= i < |s| ==> s[i] < 0x80
    ensures Valid(s)
    decreases |s|
  {
    if s != [] { ValidAscii(s[1..]); }
  }

  lemma ValidFrom(s: Bytes, i: nat)
    requires i < |s|
    ensures s[i..][0] == s[i]
    ensures Valid(s[i..]) <==> CharLen(s[i..]) > 0 && Valid(s[i + CharLen(s[i..])..])
  {
    assert s[i..][CharLen(s[i..])..] == s[i + CharLen(s[i..])..];
  }

  // utf8_check_string, with the length given: the strings it passes are the
  // well-formed ones.
  method CheckString(s: Bytes) returns (ok: bool)
    ensures ok <==> Valid(s)
  {
    var length := |s|;
    var i := 0;
    while i < length
      invariant 0 <= i <= length
      invariant Valid(s) <==> Valid(s[i..])
    {
      var count := CheckFirst(s[i]);
      ValidFrom(s, i);
      if count == 0 {
        return false;
      } else if count > 1 {
        if i + count > length {
          return false;
        }
        var full, _ := CheckFull(s[i..], count);
        if !full {
          return false;
        }
        i := i + count - 1;
      }
      i := i + 1;
    }
    return true;
  }

  // utf8_iterate, on a C string given as its bytes before the terminating NUL.
  // `next` is how far the pointer moves, and nothing where it would be null.
  method Iterate(s: Bytes) returns (ok: bool, next: nat, codepoint: int)
    ensures ok <==> s == [] || CharLen(s) > 0
    ensures ok ==> next == CharLen(s)
    ensures ok && s != [] ==> codepoint == CharValue(s)
  {
    next, codepoint := 0, 0;
    if s == [] {
      return true, 0, 0;
    }
    var count := CheckFirst(s[0]);
    if count <= 0 {
      return false, 0, 0;
    }
    var value := 0;
    if count == 1 {
      value := s[0];
    } else if count > |s| {
      return false, 0, 0;
    } else {
      var full, v := CheckFull(s, count);
      if !full {
        return false, 0, 0;
      }
      value := v;
    }
    return true, count, value;
  }
}
