// algorithms/progpow/progpow_hash.cpp, init_mix and hash: from a header and a nonce to
// the mix hash and the digest.

module ProgpowSeal {
  import opened Arithmetic
  import opened Closed
  import opened Wrappers
  import opened ProgpowProgram
  import opened ProgpowHash
  import R = RandomOps
  import K = Keccak
  import V = Words

  // A fork: the shape of its programs, its rounds, and the words of its seal.
  datatype Fork = Fork(p: Params, rounds: nat, sealSeed: seq<u32>, sealFinal: seq<u32>)

  predicate Proper(f: Fork) {
    Within(f.p) && f.rounds < 0xFFFF_FFFF && |f.sealSeed| == 15 && |f.sealFinal| == 9
  }

  const OPS: Ops := Ops(R.RandomMath, R.RandomMerge)

  // --------------------------------------------------- the permutation on words

  type State = s: seq<u32> | |s| == 25 witness seq(25, _ => 0)

  function Number(bits: seq<bool>): (x: nat)
    ensures x < Pow2(|bits|)
  {
    if bits == [] then 0 else (if bits[0] then 1 else 0) + 2 * Number(bits[1..])
  }

  function Bits(x: nat, n: nat): (bits: seq<bool>)
    ensures |bits| == n
  {
    seq(n, i requires 0 <= i < n => K.Bit(x, i))
  }

  lemma BitsStep(x: nat, n: nat)
    requires n > 0
    ensures Bits(x, n)[0] == (x % 2 == 1) && Bits(x, n)[1..] == Bits(x / 2, n - 1)
  {
    forall i | 0 <= i < n - 1 ensures Bits(x, n)[1..][i] == Bits(x / 2, n - 1)[i] {
      assert K.Bit(x, i + 1) == K.Bit(x / 2, i);
    }
  }

  lemma {:induction false} NumberOfBits(x: nat, n: nat)
    requires x < Pow2(n)
    ensures Number(Bits(x, n)) == x
    decreases n
  {
    if n > 0 {
      BitsStep(x, n);
      NumberOfBits(x / 2, n - 1);
    }
  }

  lemma {:induction false} BitsOfNumber(bits: seq<bool>)
    ensures Bits(Number(bits), |bits|) == bits
  {
    if bits != [] {
      var x, n := Number(bits), |bits|;
      BitsStep(x, n);
      BitsOfNumber(bits[1..]);
      assert x / 2 == Number(bits[1..]) && (x % 2 == 1) == bits[0];
      assert Bits(x, n) == [Bits(x, n)[0]] + Bits(x, n)[1..];
    }
  }

  function Value(w: K.Word): u32 {
    V.WordBits();
    Number(w)
  }

  lemma WordsAreNumbers(x: u32, w: K.Word)
    ensures Value(K.WordOf(x)) == x && K.WordOf(Value(w)) == w
  {
    V.WordBits();
    assert K.WordOf(x) == Bits(x, 32);
    NumberOfBits(x, 32);
    assert K.WordOf(Value(w)) == Bits(Number(w), 32);
    BitsOfNumber(w);
  }

  function ToBits(s: State): (r: K.State)
    ensures forall i :: 0 <= i < 25 ==> r[i] == K.WordOf(s[i])
  {
    seq(25, i requires 0 <= i < 25 => K.WordOf(s[i]))
  }

  function ToWords(s: K.State): (r: State)
    ensures forall i :: 0 <= i < 25 ==> r[i] == Value(s[i])
  {
    seq(25, i requires 0 <= i < 25 => Value(s[i]))
  }

  lemma SameState(s: State, b: K.State)
    ensures ToWords(ToBits(s)) == s && ToBits(ToWords(b)) == b
  {
    forall i | 0 <= i < 25 ensures ToWords(ToBits(s))[i] == s[i] && ToBits(ToWords(b))[i] == b[i] {
      WordsAreNumbers(s[i], b[i]);
    }
  }

  function OpenPermuted(s: State): State {
    ToWords(K.Rounds(ToBits(s), K.ROUNDS))
  }

  function Permuted(s: State): State {
    Behind(OpenPermuted, s, |s|)
  }

  lemma PermutedIs(s: State)
    ensures Permuted(s) == ToWords(K.Rounds(ToBits(s), K.ROUNDS))
  {
    BehindIs<State, State>(OpenPermuted, s, |s|);
  }

  function Unpermuted(s: State): State {
    ToWords(K.Unrounds(ToBits(s), K.ROUNDS))
  }

  // No two headers and nonces are absorbed into one seed.
  lemma PermutedIsBijective(s: State)
    ensures Unpermuted(Permuted(s)) == s && Permuted(Unpermuted(s)) == s
  {
    PermutedBy(s, K.ROUNDS);
    PermutedIs(s);
    PermutedIs(Unpermuted(s));
  }

  lemma PermutedBy(s: State, k: nat)
    requires k <= K.ROUNDS
    ensures ToWords(K.Unrounds(ToBits(ToWords(K.Rounds(ToBits(s), k))), k)) == s
    ensures ToWords(K.Rounds(ToBits(ToWords(K.Unrounds(ToBits(s), k))), k)) == s
  {
    var b := ToBits(s);
    SameState(s, K.Rounds(b, k));
    SameState(s, K.Unrounds(b, k));
    K.PermutationIsBijective(b, k);
  }

  method KeccakWords(st: array<u32>)
    requires st.Length == 25
    modifies st
    ensures st[..] == Permuted(old(st[..]))
  {
    PermutedIs(st[..]);
    var b := Widen(st);
    K.KeccakF800(b);
    Narrow(b, st);
  }

  method Widen(st: array<u32>) returns (b: array<K.Word>)
    requires st.Length == 25
    ensures fresh(b) && b[..] == ToBits(st[..])
  {
    b := new K.Word[25];
    for i := 0 to 25
      invariant forall j :: 0 <= j < i ==> b[j] == K.WordOf(st[j])
    {
      b[i] := K.WordOf(st[i]);
    }
  }

  method Narrow(b: array<K.Word>, st: array<u32>)
    requires st.Length == b.Length == 25
    modifies st
    ensures st[..] == ToWords(b[..])
  {
    ghost var r := ToWords(b[..]);
    for i := 0 to 25
      invariant forall j :: 0 <= j < i ==> st[j] == r[j]
    {
      st[i] := Value(b[i]);
    }
  }

  // --------------------------------------------------------------- the folds

  const BASIS: u32 := FNV_OFFSET_BASIS as u32

  function OpenFnv(s: (u32, u32)): u32 {
    Fnv1a(s.0 as bv32, s.1 as bv32) as u32
  }

  // fnv1a, closed: nothing below looks into it.
  function Fnv(u: u32, v: u32): u32 {
    Behind(OpenFnv, (u, v), v)
  }

  method FnvOf(u: u32, v: u32) returns (r: u32)
    ensures r == Fnv(u, v)
  {
    BehindIs<(u32, u32), u32>(OpenFnv, (u, v), v);
    r := OpenFnv((u, v));
  }

  // The first `k` registers of a lane, folded in their order.
  function LaneHash(row: seq<u32>, k: nat): u32
    requires k <= |row|
  {
    if k == 0 then BASIS else Fnv(LaneHash(row, k - 1), row[k - 1])
  }

  // Word `i` of the mix hash takes two lanes: this one and the one eight further.
  function MixWord(lanes: seq<u32>, i: nat): u32
    requires |lanes| == LANES && i < 8
  {
    Fnv(Fnv(BASIS, lanes[i]), lanes[i + 8])
  }

  function MixHash(lanes: seq<u32>): (m: seq<u32>)
    requires |lanes| == LANES
    ensures |m| == 8
  {
    seq(8, i requires 0 <= i < 8 => MixWord(lanes, i))
  }

  function LaneHashes(rows: seq<seq<u32>>, regs: nat): (lanes: seq<u32>)
    requires |rows| == LANES && regs <= MAX_REGS && forall l :: 0 <= l < LANES ==> |rows[l]| == MAX_REGS
    ensures |lanes| == LANES
  {
    seq(LANES, l requires 0 <= l < LANES => LaneHash(rows[l], regs))
  }

  method FoldLane(mix: array2<u32>, l: nat, regs: nat) returns (h: u32)
    requires mix.Length0 == LANES && mix.Length1 == MAX_REGS && l < LANES && regs <= MAX_REGS
    ensures h == LaneHash(Row(mix, l), regs)
  {
    ghost var row := Row(mix, l);
    h := BASIS;
    for r := 0 to regs
      invariant h == LaneHash(row, r)
    {
      assert row[r] == mix[l, r];
      h := FnvOf(h, mix[l, r]);
    }
  }

  method FoldLanes(mix: array2<u32>, regs: nat) returns (lanes: array<u32>)
    requires mix.Length0 == LANES && mix.Length1 == MAX_REGS && regs <= MAX_REGS
    ensures fresh(lanes) && lanes[..] == LaneHashes(Rows(mix), regs)
  {
    lanes := new u32[LANES];
    ghost var hashes := LaneHashes(Rows(mix), regs);
    for l := 0 to LANES
      invariant forall k :: 0 <= k < l ==> lanes[k] == hashes[k]
    {
      assert hashes[l] == LaneHash(Row(mix, l), regs);
      var h := FoldLane(mix, l, regs);
      lanes[l] := h;
    }
  }

  // How far word `i` is when `l` lanes have been folded.
  function MixSoFar(lanes: seq<u32>, i: nat, l: nat): u32
    requires |lanes| == LANES && i < 8
  {
    if l <= i then BASIS else if l <= i + 8 then Fnv(BASIS, lanes[i]) else MixWord(lanes, i)
  }

  function WordOfLane(l: nat): (i: nat)
    requires l < LANES
    ensures i < 8 && i == l % 8
  {
    if l < 8 then l else l - 8
  }

  lemma NextWord(lanes: seq<u32>, l: nat, i: nat)
    requires |lanes| == LANES && l < LANES && i < 8
    ensures MixSoFar(lanes, i, l + 1) == if i == WordOfLane(l) then Fnv(MixSoFar(lanes, i, l), lanes[l]) else MixSoFar(lanes, i, l)
  {
  }

  method FoldMix(lanes: array<u32>) returns (m: array<u32>)
    requires lanes.Length == LANES
    ensures fresh(m) && m[..] == MixHash(lanes[..])
  {
    m := new u32[8](_ => BASIS);
    ghost var hashes := lanes[..];
    for l := 0 to LANES
      invariant forall i :: 0 <= i < 8 ==> m[i] == MixSoFar(hashes, i, l)
    {
      forall i | 0 <= i < 8 { NextWord(hashes, l, i); }
      assert l % 8 == WordOfLane(l);
      m[l % 8] := FnvOf(m[l % 8], lanes[l]);
    }
  }

  // ---------------------------------------------------------------- init_mix

  // The generator a lane starts with.
  function LaneSeed(lo: u32, hi: u32, l: nat): Kiss
    requires l < LANES
  {
    var z := Fnv(BASIS, lo);
    var w := Fnv(z, hi);
    var jsr := Fnv(w, l);
    Kiss(z as bv32, w as bv32, jsr as bv32, Fnv(jsr, l) as bv32)
  }

  // Register `r` of lane `l`: the r-th number its generator draws.
  function Filled(lo: u32, hi: u32, l: nat, r: nat): u32
    requires l < LANES
  {
    Stream(LaneSeed(lo, hi, l))(r)
  }

  function FirstRow(lo: u32, hi: u32, regs: nat, l: nat): (row: seq<u32>)
    requires l < LANES
    ensures |row| == MAX_REGS
  {
    seq(MAX_REGS, r requires 0 <= r < MAX_REGS => if r < regs then Filled(lo, hi, l, r) else 0)
  }

  method NewLane(lo: u32, hi: u32, w: u32, z: u32, l: nat) returns (rng: Kiss99)
    requires z == Fnv(BASIS, lo) && w == Fnv(z, hi) && l < LANES
    ensures fresh(rng) && rng.Valid() && rng.drawn == 0 && rng.stream == Stream(LaneSeed(lo, hi, l))
  {
    var jsr := FnvOf(w, l);
    var jcong := FnvOf(jsr, l);
    rng := new Kiss99(z as bv32, w as bv32, jsr as bv32, jcong as bv32);
  }

  method FillFrom(rng: Kiss99, l: nat, regs: nat, mix: array2<u32>)
    requires rng.Valid() && rng.drawn == 0 && l < LANES && regs <= MAX_REGS
    requires mix.Length0 == LANES && mix.Length1 == MAX_REGS
    modifies rng, mix
    ensures forall k, r :: 0 <= k < LANES && 0 <= r < MAX_REGS ==>
      mix[k, r] == if k == l && r < regs then rng.stream(r) else old(mix[k, r])
  {
    for i := 0 to regs
      invariant rng.Valid() && rng.drawn == i
      invariant forall k, r :: 0 <= k < LANES && 0 <= r < MAX_REGS ==>
        mix[k, r] == if k == l && r < i then rng.stream(r) else old(mix[k, r])
    {
      mix[l, i] := rng.Next();
    }
  }

  method FillLane(lo: u32, hi: u32, w: u32, z: u32, l: nat, regs: nat, mix: array2<u32>)
    requires z == Fnv(BASIS, lo) && w == Fnv(z, hi) && l < LANES && regs <= MAX_REGS
    requires mix.Length0 == LANES && mix.Length1 == MAX_REGS
    modifies mix
    ensures forall k, r :: 0 <= k < LANES && 0 <= r < MAX_REGS ==>
      mix[k, r] == if k == l && r < regs then Filled(lo, hi, l, r) else old(mix[k, r])
  {
    var rng := NewLane(lo, hi, w, z, l);
    FillFrom(rng, l, regs, mix);
  }

  method InitMix(lo: u32, hi: u32, regs: nat, mix: array2<u32>)
    requires mix.Length0 == LANES && mix.Length1 == MAX_REGS && regs <= MAX_REGS
    modifies mix
    ensures forall l, r :: 0 <= l < LANES && 0 <= r < regs ==> mix[l, r] == Filled(lo, hi, l, r)
  {
    var z := FnvOf(BASIS, lo);
    var w := FnvOf(z, hi);
    for l := 0 to LANES
      invariant forall k, r :: 0 <= k < l && 0 <= r < regs ==> mix[k, r] == Filled(lo, hi, k, r)
    {
      FillLane(lo, hi, w, z, l, regs, mix);
    }
  }

  // ------------------------------------------------ registers nobody reads

  // The two rows differ at most in registers the fork does not have.
  predicate Agree(a: seq<u32>, b: seq<u32>, regs: nat) {
    |a| == |b| == MAX_REGS && regs <= MAX_REGS && forall i :: 0 <= i < regs ==> a[i] == b[i]
  }

  lemma SetAgree(a: seq<u32>, b: seq<u32>, regs: nat, dst: nat, x: u32)
    requires Agree(a, b, regs) && dst < regs
    ensures Agree(a[dst := x], b[dst := x], regs)
  {
  }

  lemma RegisterBelow(p: Params, word: seq<u32>, at: nat)
    requires Within(p) && WellFormed(p, word) && at < PROGRAM_WORDS && NamesARegister(at)
    ensures word[at] < p.regs
  {
  }

  lemma CacheAgrees(ops: Ops, p: Params, word: seq<u32>, i: nat, a: seq<u32>, b: seq<u32>, l1: seq<u32>)
    requires Within(p) && WellFormed(p, word) && i < p.cacheOps && Fits(a, l1) && Agree(a, b, p.regs)
    ensures Agree(CacheOn(ops, p, word, i, a, l1), CacheOn(ops, p, word, i, b, l1), p.regs)
  {
    var at := CACHE_BASE + i * CACHE_WORDS;
    RegisterBelow(p, word, at);
    RegisterBelow(p, word, at + 1);
    var src, dst := word[at], word[at + 1];
    SetAgree(a, b, p.regs, dst, ops.merge(a[dst], l1[a[src] % L1_WORDS], word[at + 2]));
  }

  lemma MathAgrees(ops: Ops, p: Params, word: seq<u32>, i: nat, a: seq<u32>, b: seq<u32>)
    requires Within(p) && WellFormed(p, word) && i < p.mathOps && Agree(a, b, p.regs)
    ensures Agree(MathOn(ops, p, word, i, a), MathOn(ops, p, word, i, b), p.regs)
  {
    var at := MATH_BASE + i * MATH_WORDS;
    RegisterBelow(p, word, at);
    RegisterBelow(p, word, at + 1);
    RegisterBelow(p, word, at + 3);
    var src1, src2, dst := word[at], word[at + 1], word[at + 3];
    SetAgree(a, b, p.regs, dst, ops.merge(a[dst], ops.math(a[src1], a[src2], word[at + 2]), word[at + 4]));
  }

  lemma StepAgrees(ops: Ops, p: Params, word: seq<u32>, i: nat, a: seq<u32>, b: seq<u32>, l1: seq<u32>)
    requires Within(p) && WellFormed(p, word) && i < Steps(p) && Fits(a, l1) && Agree(a, b, p.regs)
    ensures Agree(StepOn(ops, p, word, i, a, l1), StepOn(ops, p, word, i, b, l1), p.regs)
  {
    var c, d := if i < p.cacheOps then CacheOn(ops, p, word, i, a, l1) else a, if i < p.cacheOps then CacheOn(ops, p, word, i, b, l1) else b;
    if i < p.cacheOps { CacheAgrees(ops, p, word, i, a, b, l1); }
    if i < p.mathOps { MathAgrees(ops, p, word, i, c, d); }
  }

  lemma {:induction false} StepsAgree(ops: Ops, p: Params, word: seq<u32>, k: nat, a: seq<u32>, b: seq<u32>, l1: seq<u32>)
    requires Within(p) && WellFormed(p, word) && k <= Steps(p) && Fits(a, l1) && Agree(a, b, p.regs)
    ensures Agree(StepsOn(ops, p, word, k, a, l1), StepsOn(ops, p, word, k, b, l1), p.regs)
  {
    if k > 0 {
      StepsAgree(ops, p, word, k - 1, a, b, l1);
      StepAgrees(ops, p, word, k - 1, StepsOn(ops, p, word, k - 1, a, l1), StepsOn(ops, p, word, k - 1, b, l1), l1);
    }
  }

  lemma {:induction false} DagAgrees(ops: Ops, p: Params, word: seq<u32>, k: nat, a: seq<u32>, b: seq<u32>, line: Line, offset: nat)
    requires Within(p) && WellFormed(p, word) && k <= DAG_LOADS && offset + DAG_LOADS <= LINE_WORDS && Agree(a, b, p.regs)
    ensures Agree(DagOn(ops, p, word, k, a, line, offset), DagOn(ops, p, word, k, b, line, offset), p.regs)
  {
    if k > 0 {
      DagAgrees(ops, p, word, k - 1, a, b, line, offset);
      var c, d := DagOn(ops, p, word, k - 1, a, line, offset), DagOn(ops, p, word, k - 1, b, line, offset);
      var at := DAG_BASE + (k - 1) * DAG_WORDS;
      RegisterBelow(p, word, at);
      SetAgree(c, d, p.regs, word[at], ops.merge(c[word[at]], line[offset + (k - 1)], word[at + 1]));
    }
  }

  lemma RoundAgrees(ops: Ops, p: Params, word: seq<u32>, a: seq<u32>, b: seq<u32>, l1: seq<u32>, line: Line, offset: nat)
    requires Within(p) && WellFormed(p, word) && Fits(a, l1) && offset + DAG_LOADS <= LINE_WORDS && Agree(a, b, p.regs)
    ensures Agree(RoundOn(ops, p, word, a, l1, line, offset), RoundOn(ops, p, word, b, l1, line, offset), p.regs)
  {
    StepsAgree(ops, p, word, Steps(p), a, b, l1);
    DagAgrees(ops, p, word, DAG_LOADS, StepsOn(ops, p, word, Steps(p), a, l1), StepsOn(ops, p, word, Steps(p), b, l1), line, offset);
  }

  lemma {:induction false} AloneAgrees(ops: Ops, p: Params, word: seq<u32>, l: nat, a: seq<u32>, b: seq<u32>, l1: seq<u32>,
                                       lines: seq<Line>, k: nat)
    requires Within(p) && WellFormed(p, word) && Fits(a, l1) && l < LANES && k <= |lines| < 0x1_0000_0000 && Agree(a, b, p.regs)
    ensures Agree(Alone(ops, p, word, l, a, l1, lines, k), Alone(ops, p, word, l, b, l1, lines, k), p.regs)
  {
    if k > 0 {
      AloneAgrees(ops, p, word, l, a, b, l1, lines, k - 1);
      RoundAgrees(ops, p, word, Alone(ops, p, word, l, a, l1, lines, k - 1), Alone(ops, p, word, l, b, l1, lines, k - 1),
                  l1, lines[k - 1], Quarter(l, k - 1) * DAG_LOADS);
    }
  }

  predicate AllAgree(a: seq<seq<u32>>, b: seq<seq<u32>>, regs: nat) {
    |a| == |b| == LANES && forall l :: 0 <= l < LANES ==> Agree(a[l], b[l], regs)
  }

  // So the lines a hash fetches do not depend on them either.
  lemma {:induction false} FetchedAgree(ops: Ops, p: Params, word: seq<u32>, a: seq<seq<u32>>, b: seq<seq<u32>>, l1: seq<u32>,
                                        dagLines: nat, dag: nat -> Option<Line>, k: nat)
    requires Within(p) && WellFormed(p, word) && |l1| == L1_WORDS && dagLines > 0 && k < 0xFFFF_FFFF && AllAgree(a, b, p.regs)
    ensures Fetched(ops, p, word, a, l1, dagLines, dag, k) == Fetched(ops, p, word, b, l1, dagLines, dag, k)
  {
    if k > 0 {
      FetchedAgree(ops, p, word, a, b, l1, dagLines, dag, k - 1);
      var before := Fetched(ops, p, word, a, l1, dagLines, dag, k - 1);
      if before.Some? {
        var l := (k - 1) % LANES;
        AloneAgrees(ops, p, word, l, a[l], b[l], l1, before.value, k - 1);
      }
    }
  }

  lemma {:induction false} FoldAgrees(a: seq<u32>, b: seq<u32>, regs: nat, k: nat)
    requires Agree(a, b, regs) && k <= regs
    ensures LaneHash(a, k) == LaneHash(b, k)
  {
    if k > 0 {
      FoldAgrees(a, b, regs, k - 1);
      assert a[k - 1] == b[k - 1];
    }
  }

  // -------------------------------------------------------------------- hash

  datatype Sealed = Sealed(mix: seq<u32>, digest: seq<u32>)

  // Header, nonce and the words of the seal: all of the state.
  function First(f: Fork, header: seq<u32>, nonce: nat): State
    requires Proper(f) && |header| == 8 && nonce < 0x1_0000_0000_0000_0000
  {
    header + [nonce % 0x1_0000_0000, nonce / 0x1_0000_0000] + f.sealSeed
  }

  function Last(f: Fork, seed: State, mix: seq<u32>): State
    requires Proper(f) && |mix| == 8
  {
    seed[..8] + mix + f.sealFinal
  }

  function FirstRows(seed: State, regs: nat): (rows: seq<seq<u32>>)
    ensures |rows| == LANES && forall l :: 0 <= l < LANES ==> rows[l] == FirstRow(seed[0], seed[1], regs, l)
  {
    seq(LANES, l requires 0 <= l < LANES => FirstRow(seed[0], seed[1], regs, l))
  }

  // Where every lane ends by itself.
  function LastRows(ops: Ops, f: Fork, word: seq<u32>, rows: seq<seq<u32>>, l1: seq<u32>, lines: seq<Line>): (last: seq<seq<u32>>)
    requires Proper(f) && WellFormed(f.p, word) && |l1| == L1_WORDS && |lines| == f.rounds
    requires |rows| == LANES && forall l :: 0 <= l < LANES ==> |rows[l]| == MAX_REGS
    ensures |last| == LANES && forall l :: 0 <= l < LANES ==> last[l] == Alone(ops, f.p, word, l, rows[l], l1, lines, f.rounds)
  {
    seq(LANES, l requires 0 <= l < LANES => Alone(ops, f.p, word, l, rows[l], l1, lines, f.rounds))
  }

  function SealedFrom(f: Fork, seed: State, rows: seq<seq<u32>>): Sealed
    requires Proper(f) && |rows| == LANES && forall l :: 0 <= l < LANES ==> |rows[l]| == MAX_REGS
  {
    var mix := MixHash(LaneHashes(rows, f.p.regs));
    Sealed(mix, Permuted(Last(f, seed, mix))[..8])
  }

  // The hash, lane by lane: what a program and a dataset make of a header and a nonce.
  // None without a dataset, or where a line of it cannot be had.
  function HashOf(ops: Ops, f: Fork, word: seq<u32>, l1: seq<u32>, dagLines: nat, dag: nat -> Option<Line>,
                  header: seq<u32>, nonce: nat): Option<Sealed>
    requires Proper(f) && WellFormed(f.p, word) && |l1| == L1_WORDS
    requires |header| == 8 && nonce < 0x1_0000_0000_0000_0000
  {
    if dagLines == 0 then None
    else
      var seed := Permuted(First(f, header, nonce));
      var rows := FirstRows(seed, f.p.regs);
      var lines := Fetched(ops, f.p, word, rows, l1, dagLines, dag, f.rounds);
      if lines.None? then None
      else Some(SealedFrom(f, seed, LastRows(ops, f, word, rows, l1, lines.value)))
  }

  method Absorb(f: Fork, header: seq<u32>, nonce: nat) returns (seed: array<u32>)
    requires Proper(f) && |header| == 8 && nonce < 0x1_0000_0000_0000_0000
    ensures fresh(seed) && seed.Length == 25 && seed[..] == Permuted(First(f, header, nonce))
  {
    seed := new u32[25](_ => 0);
    for i := 0 to 8
      invariant seed[..i] == header[..i]
    {
      seed[i] := header[i];
    }
    seed[8] := nonce % 0x1_0000_0000;
    seed[9] := nonce / 0x1_0000_0000;
    for i := 10 to 25
      invariant seed[..10] == header + [nonce % 0x1_0000_0000, nonce / 0x1_0000_0000]
      invariant seed[10..i] == f.sealSeed[..i - 10]
    {
      seed[i] := f.sealSeed[i - 10];
    }
    assert seed[..] == First(f, header, nonce);
    KeccakWords(seed);
  }

  method Finish(f: Fork, seed: array<u32>, mix: array<u32>) returns (digest: seq<u32>)
    requires Proper(f) && seed.Length == 25 && mix.Length == 8
    ensures digest == Permuted(Last(f, seed[..], mix[..]))[..8]
  {
    var last := new u32[25](_ => 0);
    ghost var s, m := seed[..], mix[..];
    for i := 0 to 8
      invariant last[..i] == s[..i]
    {
      last[i] := seed[i];
    }
    for i := 8 to 16
      invariant last[..8] == s[..8] && last[8..i] == m[..i - 8]
    {
      last[i] := mix[i - 8];
    }
    for i := 16 to 25
      invariant last[..8] == s[..8] && last[8..16] == m && last[16..i] == f.sealFinal[..i - 16]
    {
      last[i] := f.sealFinal[i - 16];
    }
    assert last[..] == Last(f, s, m);
    KeccakWords(last);
    digest := last[..8];
  }

  // Registers the fork does not have are left as they came, and make no difference.
  lemma LeftoversMakeNone(ops: Ops, f: Fork, word: seq<u32>, seed: State, rows: seq<seq<u32>>, last: seq<seq<u32>>, l1: seq<u32>,
                          dagLines: nat, dag: nat -> Option<Line>, lines: seq<Line>)
    requires Proper(f) && WellFormed(f.p, word) && |l1| == L1_WORDS && dagLines > 0 && |lines| == f.rounds
    requires AllAgree(rows, FirstRows(seed, f.p.regs), f.p.regs) && |last| == LANES
    requires Stands(ops, f.p, word, last, rows, l1, lines)
    ensures LaneHashes(last, f.p.regs) == LaneHashes(LastRows(ops, f, word, FirstRows(seed, f.p.regs), l1, lines), f.p.regs)
  {
    var first := FirstRows(seed, f.p.regs);
    var clean := LastRows(ops, f, word, first, l1, lines);
    forall l | 0 <= l < LANES ensures LaneHash(last[l], f.p.regs) == LaneHash(clean[l], f.p.regs) {
      AloneAgrees(ops, f.p, word, l, rows[l], first[l], l1, lines, f.rounds);
      FoldAgrees(last[l], clean[l], f.p.regs, f.p.regs);
    }
  }

  lemma FilledAgree(mix: array2<u32>, seed: State, regs: nat)
    requires mix.Length0 == LANES && mix.Length1 == MAX_REGS && regs <= MAX_REGS
    requires forall l, r :: 0 <= l < LANES && 0 <= r < regs ==> mix[l, r] == Filled(seed[0], seed[1], l, r)
    ensures AllAgree(Rows(mix), FirstRows(seed, regs), regs)
  {
  }

  method Hash(ops: Ops, f: Fork, word: seq<u32>, l1: seq<u32>, dagLines: nat, dag: nat -> Option<Line>,
              header: seq<u32>, nonce: nat) returns (r: Option<Sealed>)
    requires Proper(f) && WellFormed(f.p, word) && |l1| == L1_WORDS
    requires |header| == 8 && nonce < 0x1_0000_0000_0000_0000
    ensures r == HashOf(ops, f, word, l1, dagLines, dag, header, nonce)
  {
    if dagLines == 0 {
      return None;
    }
    var seed := Absorb(f, header, nonce);
    ghost var s: State := seed[..];
    var mix := new u32[LANES, MAX_REGS];
    InitMix(seed[0], seed[1], f.p.regs, mix);
    FilledAgree(mix, s, f.p.regs);
    ghost var rows := Rows(mix);
    FetchedAgree(ops, f.p, word, rows, FirstRows(s, f.p.regs), l1, dagLines, dag, f.rounds);
    ghost var lines: seq<Line>;
    var ok: bool;
    ok, lines := Rounds(ops, f.p, word, f.rounds, mix, l1, dagLines, dag);
    if !ok {
      return None;
    }
    LeftoversMakeNone(ops, f, word, s, rows, Rows(mix), l1, dagLines, dag, lines);
    var lanes := FoldLanes(mix, f.p.regs);
    var folded := FoldMix(lanes);
    var digest := Finish(f, seed, folded);
    r := Some(Sealed(folded[..], digest));
  }

  // The program of a period, of the halves of its number.
  function PeriodProgram(p: Params, lo: bv32, hi: bv32): (word: seq<u32>)
    requires Within(p)
    ensures WellFormed(p, word)
  {
    EveryProgramIsSound(p, Stream(Seed(lo, hi)));
    Program(SourceOf(p, Stream(Seed(lo, hi))))
  }

  // Whatever the period, its program is one the interpreter can run.
  method SealInPeriod(f: Fork, lo: bv32, hi: bv32, l1: seq<u32>, dagLines: nat, dag: nat -> Option<Line>,
                      header: seq<u32>, nonce: nat) returns (r: Option<Sealed>)
    requires Proper(f) && |l1| == L1_WORDS && |header| == 8 && nonce < 0x1_0000_0000_0000_0000
    ensures r == HashOf(OPS, f, PeriodProgram(f.p, lo, hi), l1, dagLines, dag, header, nonce)
  {
    var word := BuildProgram(f.p, lo, hi);
    r := Hash(OPS, f, word[..], l1, dagLines, dag, header, nonce);
  }
}
