// UTF-8 by its bits: what the bytes of a character carry, the examples of RFC 3629, and
// the strings of characters there are.

module Utf8Laws {
  import opened Octets
  import opened Utf8

  // The bits a lead byte leaves to the character, and those of the others.
  predicate Lead(b: byte, n: nat) {
    match n
    case 1 => b < 0x80
    case 2 => 0xC0 <= b < 0xE0
    case 3 => 0xE0 <= b < 0xF0
    case _ => 0xF0 <= b < 0xF8
  }

  function Payload(r: Bytes): int
    requires 1 <= |r| <= 4
  {
    var b := r[0];
    match |r|
    case 1 => b
    case 2 => (b - 0xC0) * 64 + Six(r[1])
    case 3 => (b - 0xE0) * 4096 + Six(r[1]) * 64 + Six(r[2])
    case _ => (b - 0xF0) * 262144 + Six(r[1]) * 4096 + Six(r[2]) * 64 + Six(r[3])
  }

  function Six(b: byte): int {
    b - 0x80
  }

  // Section 3 of RFC 3629, read backwards: a lead byte that says how many bytes there
  // are, no more than needed, and six bits from each that follows.
  lemma EncodingCarries(cp: int)
    requires 0 <= cp <= 0x10FFFF
    ensures var r := Enc(cp);
            && |r| == (if cp <= 0x7F then 1 else if cp <= 0x7FF then 2 else if cp <= 0xFFFF then 3 else 4)
            && Lead(r[0], |r|) && (forall i :: 0 < i < |r| ==> 0x80 <= r[i] < 0xC0) && Payload(r) == cp
  {
    SixBitsJoined(cp);
  }

  // Section 7: its examples.
  lemma Examples()
    ensures Enc(0x41) == [0x41] && Enc(0x2262) == [0xE2, 0x89, 0xA2] && Enc(0x391) == [0xCE, 0x91] && Enc(0x2E) == [0x2E]
    ensures Enc(0xD55C) == [0xED, 0x95, 0x9C] && Enc(0xFEFF) == [0xEF, 0xBB, 0xBF] && Enc(0x233B4) == [0xF0, 0xA3, 0x8E, 0xB4]
  {
  }

  function Encoded(cps: seq<int>): Bytes
    requires forall i :: 0 <= i < |cps| ==> IsScalar(cps[i])
  {
    if cps == [] then [] else
      assert IsScalar(cps[0]);
      Enc(cps[0]) + Encoded(cps[1..])
  }

  // The well-formed strings are those of Unicode's characters, one encoding after another,
  // and each of them is of one string of characters.
  lemma ValidIff(s: Bytes)
    ensures Valid(s) <==> exists cps: seq<int> :: Spells(s, cps)
  {
    if Valid(s) {
      var cps := Characters(s);
    }
    if cps: seq<int> :| Spells(s, cps) {
      EncodedIsValid(cps);
    }
  }

  ghost predicate Spells(s: Bytes, cps: seq<int>) {
    (forall i :: 0 <= i < |cps| ==> IsScalar(cps[i])) && s == Encoded(cps)
  }

  lemma {:induction false} Characters(s: Bytes) returns (cps: seq<int>)
    requires Valid(s)
    ensures Spells(s, cps)
    decreases |s|
  {
    cps := [];
    if s != [] {
      var n := CharLen(s);
      AcceptedIsEncoded(s);
      var rest := Characters(s[n..]);
      cps := [CharValue(s)] + rest;
      assert cps[1..] == rest && s == s[..n] + s[n..];
    }
  }

  lemma {:induction false} EncodedIsValid(cps: seq<int>)
    requires forall i :: 0 <= i < |cps| ==> IsScalar(cps[i])
    ensures Valid(Encoded(cps))
  {
    if cps != [] {
      EncodedIsAccepted(cps[0], Encoded(cps[1..]));
      EncodedIsValid(cps[1..]);
    }
  }

  lemma {:induction false} OneSpelling(s: Bytes, a: seq<int>, b: seq<int>)
    requires Spells(s, a) && Spells(s, b)
    ensures a == b
    decreases |a|
  {
    if a != [] && b != [] {
      EncodedIsAccepted(a[0], Encoded(a[1..]));
      EncodedIsAccepted(b[0], Encoded(b[1..]));
      var n := CharLen(s);
      OneSpelling(s[n..], a[1..], b[1..]);
      assert a == [a[0]] + a[1..] && b == [b[0]] + b[1..];
    }
  }
}
