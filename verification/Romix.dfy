// block_mix and romix of algorithms/scrypt/scrypt.cpp against sections 4 and 5 of
// RFC 7914, for every block size and every power of two.

module Romix {
  import opened Arithmetic
  import opened Closed
  import opened Words
  import opened Salsa

  type Blocks = b: seq<Block> | 0 < |b| && |b| % 2 == 0 witness [ZERO_BLOCK, ZERO_BLOCK]

  const ZERO_BLOCK: Block := seq(16, _ => 0)

  // ------------------------------------------------- what the RFC asks for

  function XorBlock(a: Block, b: Block): (r: Block)
    ensures forall k :: 0 <= k < 16 ==> r[k] == Xor(a[k], b[k])
  {
    seq(16, k requires 0 <= k < 16 => Xor(a[k], b[k]))
  }

  // Section 4: X starts as the last block; Y[i] is X after block i.
  function Chained(b: Blocks, i: nat): Block
    requires i <= |b|
  {
    if i == 0 then b[|b| - 1] else Core(XorBlock(Chained(b, i - 1), b[i - 1]))
  }

  function Y(b: Blocks, i: nat): Block
    requires i < |b|
  {
    Chained(b, i + 1)
  }

  // The even results, then the odd ones.
  function Shuffled(k: nat, r: nat): nat {
    if k < r then 2 * k else 2 * (k - r) + 1
  }

  function OpenBlockMix(b: Blocks): (m: Blocks)
    ensures |m| == |b| && forall k :: 0 <= k < |b| ==> m[k] == Y(b, Shuffled(k, |b| / 2))
  {
    seq(|b|, k requires 0 <= k < |b| => Y(b, Shuffled(k, |b| / 2)))
  }

  // The same, closed: BlockMixIs opens it.
  function BlockMix(b: Blocks): (m: Blocks)
    ensures |m| == |b|
  {
    BlockMixBehind(b);
    Behind(OpenBlockMix, b, |b|)
  }

  lemma BlockMixBehind(b: Blocks)
    ensures Behind(OpenBlockMix, b, |b|) == OpenBlockMix(b)
  {
    BehindIs<Blocks, Blocks>(OpenBlockMix, b, |b|);
  }

  lemma BlockMixIs(b: Blocks)
    ensures BlockMix(b) == OpenBlockMix(b)
  {
    BlockMixBehind(b);
  }

  // Section 5: the scratchpad, V[i].
  function Filled(b: Blocks, i: nat): (v: Blocks)
    ensures |v| == |b|
  {
    if i == 0 then b else BlockMix(Filled(b, i - 1))
  }

  function XorBlocks(a: Blocks, b: Blocks): (r: Blocks)
    requires |a| == |b|
    ensures |r| == |a| && forall i :: 0 <= i < |a| ==> r[i] == XorBlock(a[i], b[i])
  {
    seq(|a|, i requires 0 <= i < |a| => XorBlock(a[i], b[i]))
  }

  // The last block as one number.
  function Integerify(x: Blocks): nat
  {
    LittleEndian(x[|x| - 1])
  }

  // The RFC's N.
  type Cost = n: nat | n > 0 witness 1

  function Read(b: Blocks, n: Cost, i: nat): (x: Blocks)
    ensures |x| == |b|
    decreases i
  {
    if i == 0 then Filled(b, n)
    else
      var x := Read(b, n, i - 1);
      BlockMix(XorBlocks(x, Filled(b, Integerify(x) % n)))
  }

  function OpenRoMix(s: (Blocks, Cost)): Blocks {
    Read(s.0, s.1, s.1)
  }

  // The same, closed: RoMixIs opens it.
  function RoMix(b: Blocks, n: Cost): (x: Blocks)
    ensures |x| == |b|
  {
    RoMixBehind(b, n);
    Behind(OpenRoMix, (b, n), |b|)
  }

  lemma RoMixBehind(b: Blocks, n: Cost)
    ensures Behind(OpenRoMix, (b, n), |b|) == Read(b, n, n)
  {
    BehindIs<(Blocks, Cost), Blocks>(OpenRoMix, (b, n), |b|);
  }

  lemma RoMixIs(b: Blocks, n: Cost)
    ensures RoMix(b, n) == Read(b, n, n)
  {
    RoMixBehind(b, n);
  }

  // ------------------------------------------------------ the output slots

  function Slot(i: nat, r: nat): nat {
    i / 2 + (if i % 2 == 1 then r else 0)
  }

  // Each of the 2r results has a slot of its own, and every slot is filled.
  lemma SlotsAreABijection(i: nat, r: nat)
    requires i < 2 * r
    ensures Slot(i, r) < 2 * r && Shuffled(Slot(i, r), r) == i
    ensures Shuffled(i, r) < 2 * r && Slot(Shuffled(i, r), r) == i
  {
  }

  // With r = 1 the shuffle is the identity; with any other r it is not.
  lemma ShuffleIsIdentityIff(r: nat)
    requires r >= 1
    ensures (forall i :: 0 <= i < 2 * r ==> Slot(i, r) == i) <==> r == 1
  {
    assert Slot(1, r) == r;
  }

  // ------------------------------------------------- blocks in flat arrays

  function BlockAt(a: seq<Word>, at: nat): Block
    requires at + 16 <= |a|
  {
    a[at..at + 16]
  }

  // The `n` blocks that start at word `at`.
  function BlocksAt(a: seq<Word>, at: nat, n: nat): (r: Blocks)
    requires 0 < n && n % 2 == 0 && at + 16 * n <= |a|
    ensures |r| == n && forall i :: 0 <= i < n ==> r[i] == BlockAt(a, at + 16 * i)
  {
    seq(n, i requires 0 <= i < n => BlockAt(a, at + 16 * i))
  }

  method CopyWords(dst: array<Word>, at: nat, src: array<Word>, from: nat, count: nat)
    requires dst != src && at + count <= dst.Length && from + count <= src.Length
    modifies dst
    ensures forall k :: 0 <= k < dst.Length ==>
      dst[k] == if at <= k < at + count then src[from + (k - at)] else old(dst[k])
  {
    for i := 0 to count
      invariant forall k :: 0 <= k < dst.Length ==>
        dst[k] == if at <= k < at + i then src[from + (k - at)] else old(dst[k])
    {
      dst[at + i] := src[from + i];
    }
  }

  lemma CopiedSlice(dst: seq<Word>, at: nat, src: seq<Word>, count: nat)
    requires at + count <= |dst| && count <= |src| && forall k :: at <= k < at + count ==> dst[k] == src[k - at]
    ensures dst[at..at + count] == src[0..count]
  {
  }

  method XorInto(x: array<Word>, src: array<Word>, from: nat, count: nat)
    requires x != src && count <= x.Length && from + count <= src.Length
    modifies x
    ensures forall k :: 0 <= k < x.Length ==> x[k] == if k < count then Xor(old(x[k]), src[from + k]) else old(x[k])
  {
    for i := 0 to count
      invariant forall k :: 0 <= k < x.Length ==> x[k] == if k < i then Xor(old(x[k]), src[from + k]) else old(x[k])
    {
      x[i] := Xor(x[i], src[from + i]);
    }
  }

  // ---------------------------------------------------------------- block_mix

  // The results of the first `i` blocks are in their slots.
  ghost predicate Slotted(out: seq<Word>, b: Blocks, i: nat, r: nat)
    requires |out| == 32 * r && |b| == 2 * r && i <= 2 * r
  {
    forall j :: 0 <= j < i ==> Slot(j, r) < 2 * r && BlockAt(out, 16 * Slot(j, r)) == Y(b, j)
  }

  // X after one more block.
  method MixBlock(x: array<Word>, input: array<Word>, r: nat, i: nat, ghost b: Blocks)
    requires x.Length == 16 && input.Length == 32 * r && x != input && i < 2 * r
    requires b == BlocksAt(input[..], 0, 2 * r) && x[..] == Chained(b, i)
    modifies x
    ensures x[..] == Chained(b, i + 1)
  {
    XorInto(x, input, i * 16, 16);
    assert b[i] == BlockAt(input[..], i * 16);
    assert x[..] == XorBlock(Chained(b, i), b[i]);
    Salsa20_8(x);
  }

  lemma NextSlotted(before: seq<Word>, out: seq<Word>, b: Blocks, i: nat, r: nat)
    requires |before| == 32 * r && |out| == 32 * r && |b| == 2 * r && i < 2 * r && Slotted(before, b, i, r)
    requires 16 * Slot(i, r) + 16 <= 32 * r && BlockAt(out, 16 * Slot(i, r)) == Y(b, i)
    requires forall k :: 0 <= k < 32 * r && !(16 * Slot(i, r) <= k < 16 * Slot(i, r) + 16) ==> out[k] == before[k]
    ensures Slotted(out, b, i + 1, r)
  {
    SlotsAreABijection(i, r);
    forall j | 0 <= j < i ensures Slot(j, r) < 2 * r && BlockAt(out, 16 * Slot(j, r)) == Y(b, j) {
      SlotsAreABijection(j, r);
      var at := 16 * Slot(j, r);
      assert at + 16 <= 16 * Slot(i, r) || 16 * Slot(i, r) + 16 <= at;
      assert BlockAt(out, at) == BlockAt(before, at);
    }
  }

  lemma MixedBlock(out: seq<Word>, x: seq<Word>, at: nat)
    requires |x| == 16 && at + 16 <= |out| && forall k :: at <= k < at + 16 ==> out[k] == x[k - at]
    ensures BlockAt(out, at) == x
  {
  }

  method MixOne(x: array<Word>, input: array<Word>, output: array<Word>, r: nat, i: nat, ghost b: Blocks)
    requires x.Length == 16 && input.Length == 32 * r && output.Length == 32 * r && i < 2 * r
    requires x != input && x != output && input != output
    requires b == BlocksAt(input[..], 0, 2 * r) && x[..] == Chained(b, i) && Slotted(output[..], b, i, r)
    modifies x, output
    ensures x[..] == Chained(b, i + 1) && Slotted(output[..], b, i + 1, r)
  {
    MixBlock(x, input, r, i, b);
    StoreBlock(x, output, r, i, b);
  }

  method StoreBlock(x: array<Word>, output: array<Word>, r: nat, i: nat, ghost b: Blocks)
    requires x.Length == 16 && output.Length == 32 * r && i < 2 * r == |b| && x != output
    requires x[..] == Y(b, i) && Slotted(output[..], b, i, r)
    modifies output
    ensures Slotted(output[..], b, i + 1, r)
  {
    ghost var before := output[..];
    var slot := i / 2 + (if i % 2 == 1 then r else 0);
    SlotsAreABijection(i, r);
    CopyWords(output, slot * 16, x, 0, 16);
    MixedBlock(output[..], x[..], slot * 16);
    NextSlotted(before, output[..], b, i, r);
  }

  method BlockMixInto(input: array<Word>, output: array<Word>, r: nat)
    requires 1 <= r && input.Length == 32 * r && output.Length == 32 * r && input != output
    modifies output
    ensures BlocksAt(output[..], 0, 2 * r) == BlockMix(BlocksAt(input[..], 0, 2 * r))
  {
    ghost var b := BlocksAt(input[..], 0, 2 * r);
    var x := new Word[16];
    CopyWords(x, 0, input, (2 * r - 1) * 16, 16);
    assert x[..] == BlockAt(input[..], 16 * (2 * r - 1));
    for i := 0 to 2 * r
      invariant x[..] == Chained(b, i) && Slotted(output[..], b, i, r)
    {
      MixOne(x, input, output, r, i, b);
    }
    AllSlotted(output[..], b, r);
  }

  lemma AllSlotted(out: seq<Word>, b: Blocks, r: nat)
    requires |out| == 32 * r && |b| == 2 * r && Slotted(out, b, 2 * r, r)
    ensures BlocksAt(out, 0, 2 * r) == BlockMix(b)
  {
    BlockMixIs(b);
    var m, got := BlockMix(b), BlocksAt(out, 0, 2 * r);
    forall k | 0 <= k < 2 * r ensures got[k] == m[k] {
      SlotsAreABijection(k, r);
      assert Y(b, Shuffled(k, r)) == BlockAt(out, 16 * Slot(Shuffled(k, r), r));
    }
  }

  // ------------------------------------------------------------------- romix

  lemma SameBlocks(a: seq<Word>, at: nat, c: seq<Word>, from: nat, n: nat)
    requires 0 < n && n % 2 == 0 && at + 16 * n <= |a| && from + 16 * n <= |c|
    requires a[at..at + 16 * n] == c[from..from + 16 * n]
    ensures BlocksAt(a, at, n) == BlocksAt(c, from, n)
  {
    forall i | 0 <= i < n ensures BlockAt(a, at + 16 * i) == BlockAt(c, from + 16 * i) {
      Inner(a, at, at + 16 * n, 16 * i, 16 * i + 16);
      Inner(c, from, from + 16 * n, 16 * i, 16 * i + 16);
    }
  }

  lemma Inner(a: seq<Word>, lo: nat, hi: nat, i: nat, j: nat)
    requires lo <= hi <= |a| && i <= j <= hi - lo
    ensures a[lo..hi][i..j] == a[lo + i..lo + j]
  {
    var l, r := a[lo..hi][i..j], a[lo + i..lo + j];
    assert |l| == |r|;
    forall k | 0 <= k < |l| ensures l[k] == r[k] {
      assert l[k] == a[lo..hi][i + k];
    }
  }

  lemma XorOfBlocks(now: seq<Word>, was: seq<Word>, v: seq<Word>, from: nat, n: nat)
    requires 0 < n && n % 2 == 0 && |now| == 16 * n && |was| == 16 * n && from + 16 * n <= |v|
    requires forall k :: 0 <= k < 16 * n ==> now[k] == Xor(was[k], v[from + k])
    ensures BlocksAt(now, 0, n) == XorBlocks(BlocksAt(was, 0, n), BlocksAt(v, from, n))
  {
    var x := XorBlocks(BlocksAt(was, 0, n), BlocksAt(v, from, n));
    forall i | 0 <= i < n ensures BlockAt(now, 16 * i) == x[i] {
      forall w | 0 <= w < 16 ensures BlockAt(now, 16 * i)[w] == x[i][w] {
        assert now[16 * i + w] == Xor(was[16 * i + w], v[from + (16 * i + w)]);
      }
    }
  }

  // Where V[i] starts.
  function Offset(i: nat, words: nat): nat {
    i * words
  }

  lemma OffsetsApart(i: nat, j: nat, words: nat)
    requires i < j
    ensures Offset(i, words) + words <= Offset(j, words)
  {
    TimesMonotone(i + 1, j, words);
  }

  // The scratchpad holds V[0], ..., V[i - 1].
  ghost predicate Kept(v: seq<Word>, b: Blocks, r: nat, i: nat)
    requires |b| == 2 * r
  {
    forall t :: 0 <= t < i ==>
      Offset(t, 32 * r) + 32 * r <= |v| && BlocksAt(v, Offset(t, 32 * r), 2 * r) == Filled(b, t)
  }

  method Remix(b: array<Word>, tmp: array<Word>, r: nat)
    requires 1 <= r && b.Length == 32 * r && tmp.Length == 32 * r && b != tmp
    modifies b, tmp
    ensures BlocksAt(b[..], 0, 2 * r) == BlockMix(BlocksAt(old(b[..]), 0, 2 * r))
  {
    BlockMixInto(b, tmp, r);
    CopyWords(b, 0, tmp, 0, 32 * r);
    assert b[..][0..32 * r] == tmp[..][0..32 * r];
    SameBlocks(b[..], 0, tmp[..], 0, 2 * r);
  }

  lemma NextKept(before: seq<Word>, v: seq<Word>, b: Blocks, r: nat, i: nat, at: nat)
    requires |b| == 2 * r && |v| == |before| && Kept(before, b, r, i)
    requires at == Offset(i, 32 * r) && at + 32 * r <= |v| && BlocksAt(v, at, 2 * r) == Filled(b, i)
    requires forall k :: 0 <= k < |v| && !(at <= k < at + 32 * r) ==> v[k] == before[k]
    ensures Kept(v, b, r, i + 1)
  {
    forall t | 0 <= t < i
      ensures Offset(t, 32 * r) + 32 * r <= |v| && BlocksAt(v, Offset(t, 32 * r), 2 * r) == Filled(b, t)
    {
      OffsetsApart(t, i, 32 * r);
      assert v[Offset(t, 32 * r)..Offset(t, 32 * r) + 32 * r] == before[Offset(t, 32 * r)..Offset(t, 32 * r) + 32 * r];
      SameBlocks(v, Offset(t, 32 * r), before, Offset(t, 32 * r), 2 * r);
    }
  }

  method FillOne(b: array<Word>, r: nat, v: array<Word>, tmp: array<Word>, i: nat, ghost first: Blocks)
    requires 1 <= r && b.Length == 32 * r && tmp.Length == 32 * r && |first| == 2 * r
    requires b != v && b != tmp && v != tmp && Offset(i, 32 * r) + 32 * r <= v.Length
    requires Kept(v[..], first, r, i) && BlocksAt(b[..], 0, 2 * r) == Filled(first, i)
    modifies b, v, tmp
    ensures Kept(v[..], first, r, i + 1) && BlocksAt(b[..], 0, 2 * r) == Filled(first, i + 1)
  {
    ghost var before := v[..];
    var at := Offset(i, 32 * r);
    CopyWords(v, at, b, 0, 32 * r);
    CopiedSlice(v[..], at, b[..], 32 * r);
    SameBlocks(v[..], at, b[..], 0, 2 * r);
    NextKept(before, v[..], first, r, i, at);
    ghost var filled := v[..];
    Remix(b, tmp, r);
    assert v[..] == filled;
  }

  // The index the data asks for: the mask of its low word is Integerify, modulo n.
  lemma MaskIsIntegerify(a: seq<Word>, r: nat, n: Word)
    requires 1 <= r && |a| == 32 * r && IsPow2(n)
    ensures And(a[32 * r - 16], n - 1) == Integerify(BlocksAt(a, 0, 2 * r)) % n < n
  {
    var x := BlocksAt(a, 0, 2 * r);
    var last := x[2 * r - 1];
    assert last[0] == a[32 * r - 16];
    WordPow2(n);
    var k: nat :| k < 32 && n == Pow2(k);
    LowWordDecides(last, k);
    MaskIsRemainder(last[0], k);
  }

  method ReadOne(b: array<Word>, r: nat, n: Word, v: array<Word>, tmp: array<Word>, i: nat, ghost first: Blocks)
    requires 1 <= r && b.Length == 32 * r && tmp.Length == 32 * r && |first| == 2 * r && IsPow2(n)
    requires b != v && b != tmp && v != tmp
    requires Kept(v[..], first, r, n) && BlocksAt(b[..], 0, 2 * r) == Read(first, n, i)
    modifies b, tmp
    ensures BlocksAt(b[..], 0, 2 * r) == Read(first, n, i + 1)
  {
    ghost var was := b[..];
    MaskIsIntegerify(b[..], r, n);
    var j: nat := And(b[32 * r - 16], n - 1);
    var from := Offset(j, 32 * r);
    assert BlocksAt(v[..], from, 2 * r) == Filled(first, j);
    XorInto(b, v, from, 32 * r);
    XorOfBlocks(b[..], was, v[..], from, 2 * r);
    Remix(b, tmp, r);
  }

  method Fill(b: array<Word>, r: nat, n: Word, v: array<Word>, tmp: array<Word>, ghost first: Blocks)
    requires 1 <= r && b.Length == 32 * r && tmp.Length == 32 * r && v.Length == Offset(n, 32 * r)
    requires b != v && b != tmp && v != tmp && first == BlocksAt(b[..], 0, 2 * r)
    modifies b, v, tmp
    ensures Kept(v[..], first, r, n) && BlocksAt(b[..], 0, 2 * r) == Filled(first, n)
  {
    for i := 0 to n
      invariant Kept(v[..], first, r, i) && BlocksAt(b[..], 0, 2 * r) == Filled(first, i)
    {
      OffsetsApart(i, n, 32 * r);
      FillOne(b, r, v, tmp, i, first);
    }
  }

  method ReadAll(b: array<Word>, r: nat, n: Word, v: array<Word>, tmp: array<Word>, ghost first: Blocks)
    requires 1 <= r && b.Length == 32 * r && tmp.Length == 32 * r && |first| == 2 * r && IsPow2(n)
    requires b != v && b != tmp && v != tmp
    requires Kept(v[..], first, r, n) && BlocksAt(b[..], 0, 2 * r) == Filled(first, n)
    modifies b, tmp
    ensures BlocksAt(b[..], 0, 2 * r) == Read(first, n, n)
  {
    ghost var kept := v[..];
    for i := 0 to n
      invariant v[..] == kept && BlocksAt(b[..], 0, 2 * r) == Read(first, n, i)
    {
      ReadOne(b, r, n, v, tmp, i, first);
    }
  }

  method RoMixInPlace(b: array<Word>, r: nat, n: Word, v: array<Word>, tmp: array<Word>)
    requires 1 <= r < 0x800_0000 && IsPow2(n)
    requires b.Length == 32 * r && tmp.Length == 32 * r && v.Length == Offset(n, 32 * r)
    requires b != v && b != tmp && v != tmp
    modifies b, v, tmp
    ensures BlocksAt(b[..], 0, 2 * r) == RoMix(BlocksAt(old(b[..]), 0, 2 * r), n)
  {
    ghost var first := BlocksAt(b[..], 0, 2 * r);
    Fill(b, r, n, v, tmp, first);
    ReadAll(b, r, n, v, tmp, first);
    RoMixIs(first, n);
  }

  // What block_mix and romix compute in 32 bits: the word count, the start of the last
  // block, and the place of every word read and written.
  function Wrapped(x: int): nat {
    x % 0x1_0000_0000
  }

  predicate PlaceFits(i: nat, k: nat, r: nat) {
    Wrapped(i * 16 + k) == i * 16 + k && Wrapped(Slot(i, r) * 16) == Slot(i, r) * 16
  }

  // In 32 bits they are the places meant if and only if r is below 2^27.
  lemma PlacesFitIff(r: Word)
    requires r >= 1
    ensures (&& Wrapped(32 * r) == 32 * r && Wrapped((2 * r - 1) * 16) == (2 * r - 1) * 16
             && forall i: nat, k: nat :: i < 2 * r && k < 16 ==> PlaceFits(i, k, r))
      <==> r < 0x800_0000
  {
    if r < 0x800_0000 {
      forall i: nat, k: nat | i < 2 * r && k < 16 ensures PlaceFits(i, k, r) {
        SlotsAreABijection(i, r);
      }
    }
  }
}
