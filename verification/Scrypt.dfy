// scrypt of algorithms/scrypt/scrypt.cpp against section 6 of RFC 7914.

module Scrypt {
  import opened Closed
  import opened Octets
  import opened Words
  import opened Salsa
  import opened Romix
  import opened Pbkdf2

  // ------------------------------------------------ bytes and words

  function Le32(b0: byte, b1: byte, b2: byte, b3: byte): Word {
    b0 + 0x100 * b1 + 0x1_0000 * b2 + 0x100_0000 * b3
  }

  function LeBytes(x: Word): (r: Bytes)
    ensures |r| == 4
  {
    [x % 0x100, x / 0x100 % 0x100, x / 0x1_0000 % 0x100, x / 0x100_0000]
  }

  lemma WordReadsBack(x: Word)
    ensures var b := LeBytes(x); Le32(b[0], b[1], b[2], b[3]) == x
  {
    var y := x / 0x100;
    var z := y / 0x100;
    assert x / 0x1_0000 == z && x / 0x100_0000 == z / 0x100;
  }

  function Decoded(s: Bytes): (w: seq<Word>)
    ensures |w| == |s| / 4
    ensures forall k :: 0 <= k < |w| ==> w[k] == Le32(s[4 * k], s[4 * k + 1], s[4 * k + 2], s[4 * k + 3])
  {
    seq(|s| / 4, k requires 0 <= k < |s| / 4 => Le32(s[4 * k], s[4 * k + 1], s[4 * k + 2], s[4 * k + 3]))
  }

  function Encoded(w: seq<Word>): (s: Bytes)
    ensures |s| == 4 * |w|
  {
    if w == [] then [] else Encoded(w[..|w| - 1]) + LeBytes(w[|w| - 1])
  }

  lemma {:induction false} EncodedAt(w: seq<Word>, k: nat)
    requires k < |w|
    ensures Encoded(w)[4 * k..4 * k + 4] == LeBytes(w[k])
  {
    var n := |w| - 1;
    if k < n {
      EncodedAt(w[..n], k);
      assert Encoded(w)[4 * k..4 * k + 4] == Encoded(w[..n])[4 * k..4 * k + 4];
    }
  }

  // Words survive being written out and read back.
  lemma DecodedIsInverse(w: seq<Word>)
    ensures Decoded(Encoded(w)) == w
  {
    var d := Decoded(Encoded(w));
    forall k | 0 <= k < |w| ensures d[k] == w[k] {
      EncodedAt(w, k);
      var e := Encoded(w);
      var b := e[4 * k..4 * k + 4];
      assert e[4 * k] == b[0] && e[4 * k + 1] == b[1] && e[4 * k + 2] == b[2] && e[4 * k + 3] == b[3];
      WordReadsBack(w[k]);
    }
  }

  // The words of the first `k` blocks.
  function Flat(b: Blocks, k: nat): (w: seq<Word>)
    requires k <= |b|
    ensures |w| == 16 * k
  {
    if k == 0 then [] else Flat(b, k - 1) + b[k - 1]
  }

  lemma {:induction false} FlatOfBlocks(a: seq<Word>, n: nat, k: nat)
    requires 0 < n && n % 2 == 0 && |a| == 16 * n && k <= n
    ensures Flat(BlocksAt(a, 0, n), k) == a[..16 * k]
  {
    if k > 0 { FlatOfBlocks(a, n, k - 1); }
  }

  // ------------------------------------------------ what the RFC asks for

  function OpenPart(s: (Bytes, nat, nat)): Bytes {
    var (lane, r, n) := s;
    if r >= 1 && n >= 1 && |lane| == 128 * r then
      Encoded(Flat(RoMix(BlocksAt(Decoded(lane), 0, 2 * r), n), 2 * r))
    else lane
  }

  // One of the p parts, mixed; closed: PartOpens opens it.
  function Part(lane: Bytes, r: nat, n: nat): (m: Bytes)
    requires r >= 1 && n >= 1 && |lane| == 128 * r
    ensures |m| == |lane|
  {
    PartOpens(lane, r, n);
    Behind(OpenPart, (lane, r, n), r)
  }

  lemma PartOpens(lane: Bytes, r: nat, n: nat)
    ensures Behind(OpenPart, (lane, r, n), r) == OpenPart((lane, r, n))
  {
    BehindIs<(Bytes, nat, nat), Bytes>(OpenPart, (lane, r, n), r);
  }

  function Lane(b: Bytes, at: nat, r: nat): (lane: Bytes)
    requires at + 128 * r <= |b|
    ensures |lane| == 128 * r
  {
    b[at..at + 128 * r]
  }

  // The first `i` parts, mixed.
  function Parts(b: Bytes, r: nat, n: nat, i: nat): (m: Bytes)
    requires r >= 1 && n >= 1 && Offset(i, 128 * r) <= |b|
    ensures |m| == Offset(i, 128 * r)
  {
    if i == 0 then [] else
      OffsetsApart(i - 1, i, 128 * r);
      assert Offset(i, 128 * r) == Offset(i - 1, 128 * r) + 128 * r;
      Parts(b, r, n, i - 1) + Part(Lane(b, Offset(i - 1, 128 * r), r), r, n)
  }

  function ScryptOf(sha: Hash, password: Bytes, salt: Bytes, n: nat, r: nat, p: nat, len: nat): (key: Bytes)
    requires r >= 1 && n >= 1
    ensures |key| == len
  {
    var b := DerivedKey(sha, password, salt, 1, Offset(p, 128 * r));
    DerivedKey(sha, password, Parts(b, r, n, p), 1, len)
  }

  // ------------------------------------------------------------- in place

  method DecodeLane(b: array<byte>, at: nat, block: array<Word>)
    requires at + 4 * block.Length <= b.Length
    modifies block
    ensures block[..] == Decoded(b[at..at + 4 * block.Length])
  {
    for k := 0 to block.Length
      invariant forall j :: 0 <= j < k ==> block[j] == Decoded(b[at..at + 4 * block.Length])[j]
    {
      block[k] := Le32(b[at + 4 * k], b[at + 4 * k + 1], b[at + 4 * k + 2], b[at + 4 * k + 3]);
    }
  }

  lemma EncodedStep(w: seq<Word>, k: nat)
    requires k < |w|
    ensures Encoded(w[..k + 1]) == Encoded(w[..k]) + LeBytes(w[k])
  {
    assert w[..k + 1][..k] == w[..k];
  }

  // What Write leaves when everything up to it is done.
  lemma Overwritten(done: Bytes, all: Bytes, at: nat, piece: Bytes, before: Bytes, now: Bytes)
    requires at + |piece| <= |all| && before == done + all[at..]
    requires now == before[..|done|] + piece + before[|done| + |piece|..]
    ensures now == (done + piece) + all[at + |piece|..]
  {
    assert before[..|done|] == done;
    assert before[|done| + |piece|..] == all[at + |piece|..];
  }

  lemma NextEncoded(head: Bytes, w: seq<Word>, tail: Bytes, k: nat, before: Bytes, now: Bytes)
    requires k < |w| && 4 * k + 4 <= |tail| && before == head + Encoded(w[..k]) + tail[4 * k..]
    requires now == before[..|head| + 4 * k] + LeBytes(w[k]) + before[|head| + 4 * k + 4..]
    ensures now == head + Encoded(w[..k + 1]) + tail[4 * (k + 1)..]
  {
    var done, piece := Encoded(w[..k]), LeBytes(w[k]);
    EncodedStep(w, k);
    Overwritten(head + done, tail, 4 * k, piece, before, now);
    assert (head + done) + piece == head + (done + piece);
  }

  method EncodeLane(block: array<Word>, b: array<byte>, at: nat)
    requires at + 4 * block.Length <= b.Length
    modifies b
    ensures b[..] == old(b[..at]) + Encoded(block[..]) + old(b[at + 4 * block.Length..])
  {
    ghost var w, head, tail := block[..], b[..at], b[at..];
    for k := 0 to block.Length
      invariant b[..] == head + Encoded(w[..k]) + tail[4 * k..]
    {
      ghost var before := b[..];
      Write(b, at + 4 * k, LeBytes(block[k]));
      NextEncoded(head, w, tail, k, before, b[..]);
    }
    assert w[..block.Length] == w;
  }

  lemma PartIs(lane: Bytes, words: seq<Word>, r: nat, n: nat)
    requires r >= 1 && n >= 1 && |lane| == 128 * r && |words| == 32 * r
    requires BlocksAt(words, 0, 2 * r) == RoMix(BlocksAt(Decoded(lane), 0, 2 * r), n)
    ensures Part(lane, r, n) == Encoded(words)
  {
    PartOpens(lane, r, n);
    FlatOfBlocks(words, 2 * r, 2 * r);
    assert words[..16 * (2 * r)] == words;
  }

  method MixWords(b: array<byte>, at: nat, r: nat, n: Word, block: array<Word>, scratch: array<Word>, tmp: array<Word>)
    requires 1 <= r < 0x800_0000 && IsPow2(n) && at + 128 * r <= b.Length
    requires block.Length == 32 * r && tmp.Length == 32 * r && scratch.Length == Offset(n, 32 * r)
    requires block != scratch && block != tmp && scratch != tmp
    modifies block, scratch, tmp
    ensures Encoded(block[..]) == Part(Lane(b[..], at, r), r, n)
  {
    DecodeLane(b, at, block);
    ghost var lane := Lane(b[..], at, r);
    assert block[..] == Decoded(lane);
    RoMixInPlace(block, r, n, scratch, tmp);
    PartIs(lane, block[..], r, n);
  }

  method MixLane(b: array<byte>, at: nat, r: nat, n: Word, block: array<Word>, scratch: array<Word>, tmp: array<Word>)
    returns (ghost piece: Bytes)
    requires 1 <= r < 0x800_0000 && IsPow2(n) && at + 128 * r <= b.Length
    requires block.Length == 32 * r && tmp.Length == 32 * r && scratch.Length == Offset(n, 32 * r)
    requires block != scratch && block != tmp && scratch != tmp
    modifies b, block, scratch, tmp
    ensures piece == Part(Lane(old(b[..]), at, r), r, n)
    ensures b[..] == old(b[..at]) + piece + old(b[at + 128 * r..])
  {
    MixWords(b, at, r, n, block, scratch, tmp);
    piece := Encoded(block[..]);
    EncodeLane(block, b, at);
  }

  lemma SameLane(done: Bytes, before: Bytes, first: Bytes, at: nat, r: nat)
    requires at + 128 * r <= |first| && |done| == at && before == done + first[at..]
    ensures Lane(before, at, r) == Lane(first, at, r)
  {
    forall k | 0 <= k < 128 * r ensures Lane(before, at, r)[k] == Lane(first, at, r)[k] {
      assert before[at + k] == first[at..][k];
    }
  }

  lemma OnePart(first: Bytes, r: nat, n: nat, i: nat, at: nat, piece: Bytes)
    requires r >= 1 && n >= 1 && at == Offset(i, 128 * r) && at + 128 * r == Offset(i + 1, 128 * r) <= |first|
    requires piece == Part(Lane(first, at, r), r, n)
    ensures |piece| == 128 * r && Parts(first, r, n, i + 1) == Parts(first, r, n, i) + piece
  {
  }

  // The first `i` parts are mixed, closed.
  ghost predicate MixedTo(now: Bytes, first: Bytes, r: nat, n: nat, i: nat)
    requires r >= 1 && n >= 1 && Offset(i, 128 * r) <= |first|
  {
    forall u: int {:trigger Opened(0, u)} :: Opened(0, u) ==> now == Parts(first, r, n, i) + first[Offset(i, 128 * r)..]
  }

  lemma LaneToMix(before: Bytes, first: Bytes, r: nat, n: nat, i: nat, at: nat)
    requires r >= 1 && n >= 1 && at == Offset(i, 128 * r) && at + 128 * r <= |first| && MixedTo(before, first, r, n, i)
    ensures |before| == |first| && Lane(before, at, r) == Lane(first, at, r)
  {
    assert Opened(0, 0);
    SameLane(Parts(first, r, n, i), before, first, at, r);
  }

  lemma MixedIs(now: Bytes, first: Bytes, r: nat, n: nat, i: nat)
    requires r >= 1 && n >= 1 && Offset(i, 128 * r) <= |first| && MixedTo(now, first, r, n, i)
    ensures now == Parts(first, r, n, i) + first[Offset(i, 128 * r)..]
  {
    assert Opened(0, 0);
  }

  lemma NextMixed(before: Bytes, now: Bytes, first: Bytes, r: nat, n: nat, i: nat, at: nat, piece: Bytes)
    requires r >= 1 && n >= 1 && at == Offset(i, 128 * r) && at + 128 * r == Offset(i + 1, 128 * r) <= |first|
    requires |before| == |first| && MixedTo(before, first, r, n, i)
    requires |piece| == 128 * r && Parts(first, r, n, i + 1) == Parts(first, r, n, i) + piece
    requires now == before[..at] + piece + before[at + 128 * r..]
    ensures MixedTo(now, first, r, n, i + 1)
  {
    var done := Parts(first, r, n, i);
    MixedIs(before, first, r, n, i);
    Overwritten(done, first, at, piece, before, now);
    MixedSo(now, first, r, n, i + 1, done + piece, at + 128 * r);
  }

  lemma MixedSo(now: Bytes, first: Bytes, r: nat, n: nat, i: nat, parts: Bytes, at: nat)
    requires r >= 1 && n >= 1 && at == Offset(i, 128 * r) <= |first| && parts == Parts(first, r, n, i)
    requires now == parts + first[at..]
    ensures MixedTo(now, first, r, n, i)
  {
  }

  method MixNext(b: array<byte>, r: nat, n: Word, i: nat, block: array<Word>, scratch: array<Word>, tmp: array<Word>,
                 ghost first: Bytes)
    requires 1 <= r < 0x800_0000 && IsPow2(n) && |first| == b.Length && Offset(i, 128 * r) + 128 * r <= b.Length
    requires block.Length == 32 * r && tmp.Length == 32 * r && scratch.Length == Offset(n, 32 * r)
    requires block != scratch && block != tmp && scratch != tmp
    requires MixedTo(b[..], first, r, n, i)
    modifies b, block, scratch, tmp
    ensures Offset(i + 1, 128 * r) <= b.Length && MixedTo(b[..], first, r, n, i + 1)
  {
    NextOffset(i, 128 * r);
    ghost var before := b[..];
    var at := Offset(i, 128 * r);
    LaneToMix(before, first, r, n, i, at);
    ghost var piece := MixLane(b, at, r, n, block, scratch, tmp);
    OnePart(first, r, n, i, at, piece);
    NextMixed(before, b[..], first, r, n, i, at, piece);
  }

  // Every part is mixed by itself, with one scratchpad for all.
  method MixLanes(b: array<byte>, r: nat, n: Word, p: nat)
    requires 1 <= r < 0x800_0000 && IsPow2(n) && b.Length == Offset(p, 128 * r)
    modifies b
    ensures b[..] == Parts(old(b[..]), r, n, p)
  {
    ghost var first := b[..];
    var block := new Word[32 * r](_ => 0);
    var scratch := new Word[Offset(n, 32 * r)](_ => 0);
    var tmp := new Word[32 * r](_ => 0);
    NoneMixed(first, r, n);
    for i := 0 to p
      invariant Offset(i, 128 * r) <= b.Length && MixedTo(b[..], first, r, n, i)
    {
      OffsetsApart(i, p, 128 * r);
      MixNext(b, r, n, i, block, scratch, tmp, first);
    }
    AllMixed(b[..], first, r, n, p);
  }

  lemma NoneMixed(first: Bytes, r: nat, n: nat)
    requires r >= 1 && n >= 1
    ensures Offset(0, 128 * r) == 0 && MixedTo(first, first, r, n, 0)
  {
    NextOffset(0, 128 * r);
    assert first[0..] == first && Parts(first, r, n, 0) + first == first;
  }

  lemma AllMixed(now: Bytes, first: Bytes, r: nat, n: nat, p: nat)
    requires r >= 1 && n >= 1 && Offset(p, 128 * r) == |first| && MixedTo(now, first, r, n, p)
    ensures now == Parts(first, r, n, p)
  {
    MixedIs(now, first, r, n, p);
    assert first[Offset(p, 128 * r)..] == [];
  }

  lemma NextOffset(i: nat, words: nat)
    ensures Offset(i + 1, words) == Offset(i, words) + words && Offset(0, words) == 0
  {
  }

  // The guard turns away exactly what the RFC does not define.
  lemma GuardIsExact(n: Word, r: Word, p: Word)
    ensures !(n < 2 || And(n, n - 1) != 0 || r == 0 || p == 0) <==> (IsPow2(n) && n > 1 && r >= 1 && p >= 1)
  {
    if n > 0 { GuardIsPow2(n); }
  }

  // `out` is all zeros where the parameters are none, and the RFC's key where they are.
  method ScryptSha256(sha: Hash, password: array<byte>, salt: array<byte>, n: Word, r: Word, p: Word, out: array<byte>)
    requires out != password && r < 0x800_0000
    modifies out
    ensures out[..] ==
      if IsPow2(n) && n > 1 && r >= 1 && p >= 1
      then ScryptOf(sha, password[..], old(salt[..]), n, r, p, out.Length)
      else Zeros(out.Length)
  {
    GuardIsExact(n, r, p);
    if n < 2 || And(n, n - 1) != 0 || r == 0 || p == 0 {
      Write(out, 0, Zeros(out.Length));
      return;
    }
    var b := new byte[Offset(p, 128 * r)](_ => 0);
    Pbkdf2Sha256(sha, password, salt, 1, b);
    MixLanes(b, r, n, p);
    Pbkdf2Sha256(sha, password, b, 1, out);
  }
}
