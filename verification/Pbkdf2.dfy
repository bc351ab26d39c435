// hmac_sha256 and pbkdf2_sha256 of algorithms/scrypt/scrypt.cpp against RFC 2104 and
// section 5.2 of RFC 8018, for any hash with a 64-byte block and a 32-byte digest.

module Pbkdf2 {
  import opened Octets
  import opened Closed
  import opened Words

  type Digest = d: Bytes | |d| == 32 witness seq(32, _ => 0)

  type Hash = Bytes -> Digest

  // ------------------------------------------------ what the RFCs ask for

  function Zeros(n: nat): Bytes {
    seq(n, _ => 0)
  }

  // The key of RFC 2104, hashed if it is longer than a block, and padded to one.
  function Padded(sha: Hash, key: Bytes): (k: Bytes)
    ensures |k| == 64
  {
    var short := if |key| > 64 then sha(key) else key;
    short + Zeros(64 - |short|)
  }

  function Masked(k: Bytes, mask: byte): (r: Bytes)
    ensures |r| == |k| && forall i :: 0 <= i < |k| ==> r[i] == Xor8(k[i], mask)
  {
    seq(|k|, i requires 0 <= i < |k| => Xor8(k[i], mask))
  }

  function OpenHmac(s: (Hash, Bytes, Bytes)): Digest {
    var (sha, key, msg) := s;
    sha(Masked(Padded(sha, key), 0x5c) + sha(Masked(Padded(sha, key), 0x36) + msg))
  }

  // The same, closed: HmacIs opens it.
  function Hmac(sha: Hash, key: Bytes, msg: Bytes): Digest {
    Behind(OpenHmac, (sha, key, msg), |key|)
  }

  lemma HmacIs(sha: Hash, key: Bytes, msg: Bytes)
    ensures Hmac(sha, key, msg) == sha(Masked(Padded(sha, key), 0x5c) + sha(Masked(Padded(sha, key), 0x36) + msg))
  {
    BehindIs<(Hash, Bytes, Bytes), Digest>(OpenHmac, (sha, key, msg), |key|);
  }

  function XorDigest(a: Digest, b: Digest): (r: Digest)
    ensures forall i :: 0 <= i < 32 ==> r[i] == Xor8(a[i], b[i])
  {
    seq(32, i requires 0 <= i < 32 => Xor8(a[i], b[i]))
  }

  // INT (i): four bytes, the highest first.
  function BigEndian(x: Word): (r: Bytes)
    ensures |r| == 4
  {
    [x / 0x100_0000, x / 0x1_0000 % 0x100, x / 0x100 % 0x100, x % 0x100]
  }

  // U_j of a block.
  function Iterate(sha: Hash, password: Bytes, message: Bytes, j: nat): Digest
    requires j >= 1
  {
    if j == 1 then Hmac(sha, password, message)
    else Hmac(sha, password, Iterate(sha, password, message, j - 1))
  }

  // U_1 xor ... xor U_j.
  function Folded(sha: Hash, password: Bytes, message: Bytes, j: nat): Digest
    requires j >= 1
  {
    if j == 1 then Iterate(sha, password, message, 1)
    else XorDigest(Folded(sha, password, message, j - 1), Iterate(sha, password, message, j))
  }

  // F (P, S, c, i). With no iterations the code still makes one.
  function F(sha: Hash, password: Bytes, salt: Bytes, iterations: nat, block: Word): Digest {
    Folded(sha, password, salt + BigEndian(block), if iterations == 0 then 1 else iterations)
  }

  // The number the i-th block is counted by: the counter has 32 bits.
  function Counter(i: nat): Word {
    i % 0x1_0000_0000
  }

  // T_1 || ... || T_l
  function Concatenated(sha: Hash, password: Bytes, salt: Bytes, iterations: nat, l: nat): (t: Bytes)
    ensures |t| == 32 * l
  {
    if l == 0 then [] else
      Concatenated(sha, password, salt, iterations, l - 1) + F(sha, password, salt, iterations, Counter(l))
  }

  function BlocksFor(len: nat): (l: nat)
    ensures 32 * l >= len && (l > 0 ==> 32 * (l - 1) < len)
  {
    (len + 31) / 32
  }

  function DerivedKey(sha: Hash, password: Bytes, salt: Bytes, iterations: nat, len: nat): (key: Bytes)
    ensures |key| == len
  {
    Concatenated(sha, password, salt, iterations, BlocksFor(len))[..len]
  }

  // The RFC stops at (2^32 - 1) * 32 bytes. The code does not; up to there, and no
  // further, every block has its own number.
  lemma CountersAreNumbersIff(len: nat)
    ensures (forall i :: 1 <= i <= BlocksFor(len) ==> Counter(i) == i) <==> len <= 0xffff_ffff * 32
  {
    if len > 0xffff_ffff * 32 {
      assert Counter(0x1_0000_0000) != 0x1_0000_0000;
    }
  }

  // A shorter key is the beginning of a longer one.
  lemma ShorterIsPrefix(sha: Hash, password: Bytes, salt: Bytes, iterations: nat, short: nat, long: nat)
    requires short <= long
    ensures DerivedKey(sha, password, salt, iterations, short) == DerivedKey(sha, password, salt, iterations, long)[..short]
  {
    BlocksArePrefix(sha, password, salt, iterations, BlocksFor(short), BlocksFor(long));
    var s, l := Concatenated(sha, password, salt, iterations, BlocksFor(short)),
                Concatenated(sha, password, salt, iterations, BlocksFor(long));
    assert s[..short] == l[..long][..short];
  }

  lemma {:induction false} BlocksArePrefix(sha: Hash, password: Bytes, salt: Bytes, iterations: nat, k: nat, l: nat)
    requires k <= l
    ensures Concatenated(sha, password, salt, iterations, k) == Concatenated(sha, password, salt, iterations, l)[..32 * k]
    decreases l
  {
    var t := Concatenated(sha, password, salt, iterations, l);
    if k == l {
      assert t[..32 * k] == t;
    } else {
      BlocksArePrefix(sha, password, salt, iterations, k, l - 1);
      var before := Concatenated(sha, password, salt, iterations, l - 1);
      assert t[..32 * k] == before[..32 * k];
    }
  }

  // --------------------------------------------------------------- in place

  method Write(dst: array<byte>, at: nat, bytes: Bytes)
    requires at + |bytes| <= dst.Length
    modifies dst
    ensures dst[..] == old(dst[..at]) + bytes + old(dst[at + |bytes|..])
  {
    for i := 0 to |bytes|
      invariant forall k :: 0 <= k < dst.Length ==>
        dst[k] == if at <= k < at + i then bytes[k - at] else old(dst[k])
    {
      dst[at + i] := bytes[i];
    }
  }

  method MaskInto(k0: array<byte>, mask: byte, dst: array<byte>)
    requires k0.Length == 64 && dst.Length >= 64 && k0 != dst
    modifies dst
    ensures dst[..] == Masked(k0[..], mask) + old(dst[64..])
  {
    for i := 0 to 64
      invariant forall k :: 0 <= k < dst.Length ==> dst[k] == if k < i then Xor8(k0[k], mask) else old(dst[k])
    {
      dst[i] := Xor8(k0[i], mask);
    }
  }

  method PadKey(sha: Hash, key: array<byte>) returns (k0: array<byte>)
    ensures fresh(k0) && k0[..] == Padded(sha, key[..])
  {
    k0 := new byte[64](_ => 0);
    assert k0[..] == Zeros(64);
    if key.Length > 64 {
      Write(k0, 0, sha(key[..]));
    } else {
      Write(k0, 0, key[..]);
    }
    assert k0[..] == Padded(sha, key[..]);
  }

  // `out` may be `msg`: it is written last.
  method HmacSha256(sha: Hash, key: array<byte>, msg: array<byte>, out: array<byte>)
    requires out.Length == 32
    modifies out
    ensures out[..] == Hmac(sha, old(key[..]), old(msg[..]))
  {
    HmacIs(sha, key[..], msg[..]);
    var k0 := PadKey(sha, key);
    ghost var k := k0[..];
    var inner := new byte[64 + msg.Length](_ => 0);
    MaskInto(k0, 0x36, inner);
    Write(inner, 64, msg[..]);
    assert inner[..] == Masked(k, 0x36) + msg[..];
    var innerHash := sha(inner[..]);
    var outer := new byte[96](_ => 0);
    MaskInto(k0, 0x5c, outer);
    Write(outer, 64, innerHash);
    assert outer[..] == Masked(k, 0x5c) + innerHash;
    Write(out, 0, sha(outer[..]));
  }

  method XorIn(t: array<byte>, u: array<byte>)
    requires t.Length == 32 && u.Length == 32 && t != u
    modifies t
    ensures t[..] == XorDigest(old(t[..]), u[..])
  {
    for k := 0 to 32
      invariant forall i :: 0 <= i < 32 ==> t[i] == if i < k then Xor8(old(t[i]), u[i]) else old(t[i])
    {
      t[k] := Xor8(t[k], u[k]);
    }
  }

  method OneMore(sha: Hash, password: array<byte>, u: array<byte>, t: array<byte>, i: nat, ghost m: Bytes)
    requires u.Length == 32 && t.Length == 32 && t != u && u != password && t != password && i >= 1
    requires u[..] == Iterate(sha, password[..], m, i) && t[..] == Folded(sha, password[..], m, i)
    modifies u, t
    ensures u[..] == Iterate(sha, password[..], m, i + 1) && t[..] == Folded(sha, password[..], m, i + 1)
  {
    HmacSha256(sha, password, u, u);
    XorIn(t, u);
  }

  // T_i
  method BlockOf(sha: Hash, password: array<byte>, message: array<byte>, iterations: nat) returns (t: array<byte>)
    ensures fresh(t) && t.Length == 32
    ensures t[..] == Folded(sha, password[..], message[..], if iterations == 0 then 1 else iterations)
  {
    ghost var p, m := password[..], message[..];
    var u := new byte[32](_ => 0);
    t := new byte[32](_ => 0);
    HmacSha256(sha, password, message, u);
    Write(t, 0, u[..]);
    var i := 1;
    while i < iterations
      invariant 1 <= i && (i <= iterations || i == 1)
      invariant password[..] == p && u[..] == Iterate(sha, p, m, i) && t[..] == Folded(sha, p, m, i)
    {
      OneMore(sha, password, u, t, i, m);
      i := i + 1;
    }
  }

  method Be32Enc(dst: array<byte>, at: nat, x: Word)
    requires at + 4 == dst.Length
    modifies dst
    ensures dst[..] == old(dst[..at]) + BigEndian(x)
  {
    dst[at] := x / 0x100_0000;
    dst[at + 1] := x / 0x1_0000 % 0x100;
    dst[at + 2] := x / 0x100 % 0x100;
    dst[at + 3] := x % 0x100;
  }

  lemma Extended(sha: Hash, password: Bytes, salt: Bytes, iterations: nat, l: nat,
                 before: Bytes, take: nat, now: Bytes)
    requires before == Concatenated(sha, password, salt, iterations, l) && take <= 32
    requires now == before + F(sha, password, salt, iterations, Counter(l + 1))[..take]
    ensures now == Concatenated(sha, password, salt, iterations, l + 1)[..|before| + take]
  {
  }

  // The block after `done` bytes, or as much of it as is asked for.
  method WriteBlock(sha: Hash, password: array<byte>, message: array<byte>, iterations: nat, block: Word,
                    out: array<byte>, done: nat, ghost salt: Bytes) returns (take: nat)
    requires message.Length == |salt| + 4 && message[..|salt|] == salt && done < out.Length
    requires out != password && message != password && message != out
    modifies out, message
    ensures message[..|salt|] == salt
    ensures take == if out.Length - done < 32 then out.Length - done else 32
    ensures out[..done + take] == old(out[..done]) + F(sha, password[..], salt, iterations, block)[..take]
  {
    Be32Enc(message, message.Length - 4, block);
    assert message[..] == salt + BigEndian(block);
    var t := BlockOf(sha, password, message, iterations);
    take := if out.Length - done < 32 then out.Length - done else 32;
    Write(out, done, t[..take]);
  }

  lemma NextCounter(l: nat)
    ensures Add(Counter(l), 1) == Counter(l + 1)
  {
  }

  // The block after the first `l`, and as much of it as there is room for.
  method NextBlock(sha: Hash, password: array<byte>, message: array<byte>, iterations: nat, block: Word,
                   out: array<byte>, done: nat, ghost salt: Bytes, ghost l: nat) returns (take: nat)
    requires message.Length == |salt| + 4 && message[..|salt|] == salt && done == 32 * l < out.Length
    requires out != password && message != password && message != out && block == Counter(l + 1)
    requires out[..done] == Concatenated(sha, password[..], salt, iterations, l)[..done]
    modifies out, message
    ensures message[..|salt|] == salt
    ensures take == if out.Length - done < 32 then out.Length - done else 32
    ensures out[..done + take] == Concatenated(sha, password[..], salt, iterations, l + 1)[..done + take]
  {
    ghost var before := out[..done];
    assert before == Concatenated(sha, password[..], salt, iterations, l);
    take := WriteBlock(sha, password, message, iterations, block, out, done, salt);
    Extended(sha, password[..], salt, iterations, l, before, take, out[..done + take]);
  }

  method Pbkdf2Sha256(sha: Hash, password: array<byte>, salt: array<byte>, iterations: nat, out: array<byte>)
    requires out != password
    modifies out
    ensures out[..] == DerivedKey(sha, password[..], old(salt[..]), iterations, out.Length)
  {
    ghost var p, s := password[..], salt[..];
    var message := new byte[salt.Length + 4](_ => 0);
    Write(message, 0, salt[..]);
    var done := 0;
    var block: Word := 1;
    ghost var l := 0;
    while done < out.Length
      invariant block == Counter(l + 1) && done == (if 32 * l < out.Length then 32 * l else out.Length)
      invariant done >= out.Length ==> l == BlocksFor(out.Length)
      invariant message[..|s|] == s && password[..] == p
      invariant out[..done] == Concatenated(sha, p, s, iterations, l)[..done]
    {
      var take := NextBlock(sha, password, message, iterations, block, out, done, s, l);
      NextCounter(l + 1);
      done := done + take;
      block := Add(block, 1);
      l := l + 1;
    }
  }
}
