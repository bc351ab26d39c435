// The hash of compat/jansson/hashtable.c as the polynomial it is.

module HashTableLaws {
  import opened Arithmetic
  import opened Octets
  import opened HashTable

  // A byte as the char it is kept in.
  function Char(b: byte): int {
    if b < 128 then b else b - 256
  }

  // 5381 33^n + c_1 33^(n-1) + ... + c_n, in whole numbers.
  function Polynomial(s: Bytes): int {
    if s == [] then 5381 else Polynomial(s[..|s| - 1]) * 33 + Char(s[|s| - 1])
  }

  // The hash is the polynomial of the signed characters, modulo 2^64.
  lemma HashIsPolynomial(s: Bytes)
    ensures 0 <= Hash(s) < 0x1_0000_0000_0000_0000
    ensures (Polynomial(s) - Hash(s)) % 0x1_0000_0000_0000_0000 == 0
  {
    assert s[..0] == [] && s[0..] == s;
    HashedFrom(s, 0, 5381);
  }

  lemma {:induction false} HashedFrom(s: Bytes, i: nat, seed: nat)
    requires i <= |s| && seed < WORD && (Polynomial(s[..i]) - seed) % WORD == 0
    ensures 0 <= HashFrom(seed, s[i..]) < WORD && (Polynomial(s) - HashFrom(seed, s[i..])) % WORD == 0
    decreases |s| - i
  {
    if i == |s| {
      assert s[..i] == s;
    } else {
      var next := (seed * 33 + Widened(s[i])) % WORD;
      NextTerm(Polynomial(s[..i]), seed, s[i], next);
      assert s[..i + 1][..i] == s[..i] && s[i..][1..] == s[i + 1..];
      HashedFrom(s, i + 1, next);
    }
  }

  lemma NextTerm(p: int, seed: nat, b: byte, next: nat)
    requires (p - seed) % WORD == 0 && next == (seed * 33 + Widened(b)) % WORD
    ensures (p * 33 + Char(b) - next) % WORD == 0
  {
    var q, r := (p - seed) / WORD, (seed * 33 + Widened(b)) / WORD;
    var c := if b < 128 then 0 else 1;
    assert p == seed + q * WORD && seed * 33 + Widened(b) == r * WORD + next;
    assert p * 33 + Char(b) - next == (q * 33 + r - c) * WORD;
    Multiple(q * 33 + r - c);
  }

  lemma Multiple(k: int)
    ensures k * WORD % WORD == 0
  {
  }

  // The hash of "a", and of the last byte there is: it is taken away, not added.
  lemma HashExamples()
    ensures Hash([]) == 5381 && Hash([0x61]) == 177670 && Hash([0xFF]) == 177572
  {
    assert HashFrom(177670, []) == 177670;
    assert HashFrom(177572, []) == 177572;
  }
}
