// The test vectors of EIP-1057 for what a program is drawn with, and what a program and a
// hash do, step by step and word by word.

module ProgpowLaws {
  import opened Arithmetic
  import opened Closed
  import opened Wrappers
  import opened ProgpowProgram
  import opened ProgpowHash
  import opened ProgpowSeal
  import B = Bits

  // ------------------------------------------------------------- the numbers

  // EIP-1057's vectors for FNV1a,
  lemma FnvVectors()
    ensures FNV_OFFSET_BASIS == 0x811C9DC5 && Fnv1a(0x811C9DC5, 0xDDD0A47B) == 0xD37EE61A
    ensures Fnv1a(0xD37EE61A, 0xEE304846) == 0xDEDC7AD4 && Fnv1a(0xDEDC7AD4, 0) == 0xA9155BBC
  {
  }

  // and the first of its numbers for KISS99.
  lemma KissVectors()
    ensures var k0 := Kiss(362436069, 521288629, 123456789, 380116160);
            var k1, k2, k3, k4 := Advance(k0), Advance(Advance(k0)), Advance(Advance(Advance(k0))), Advance(Advance(Advance(Advance(k0))));
            Output(k1) == 769445856 && Output(k2) == 742012328 && Output(k3) == 2121196314 && Output(k4) == 2805620942
  {
    var k0 := Kiss(362436069, 521288629, 123456789, 380116160);
    assert Advance(k0) == Kiss(0x30742087, 0x106645A2, 0x33D1F5FB, 0xCAE79C47);
    assert Advance(Kiss(0x30742087, 0x106645A2, 0x33D1F5FB, 0xCAE79C47)) == Kiss(0x125977D3, 0x13201F06, 0xDC07AC44, 0xDAC19662);
    assert Advance(Kiss(0x125977D3, 0x13201F06, 0xDC07AC44, 0xDAC19662)) == Kiss(0x4397E7E4, 0x8856900, 0x15FA8F19, 0x981D3D01);
    assert Advance(Kiss(0x4397E7E4, 0x8856900, 0x15FA8F19, 0x981D3D01)) == Kiss(0x82CFA01B, 0x1CD6D885, 0x72D2FAFD, 0x8896BD54);
  }

  // The n-th number of a stream is put out after n + 1 steps.
  lemma DrawnAfterSteps(k: seq<Kiss>, n: nat)
    requires |k| > n + 1 && forall i :: 0 <= i < |k| - 1 ==> k[i + 1] == Advance(k[i])
    ensures Stream(k[0])(n) == Output(k[n + 1]) as u32
  {
    NthIs(k, n + 1);
  }

  lemma {:induction false} NthIs(k: seq<Kiss>, n: nat)
    requires |k| > n && forall i :: 0 <= i < |k| - 1 ==> k[i + 1] == Advance(k[i])
    ensures Nth(k[0], n) == k[n]
  {
    if n > 0 { NthIs(k, n - 1); }
  }

  // The seed of a period's generator, of those two halves.
  lemma PeriodSeed()
    ensures Seed(0xDDD0A47B, 0xEE304846) == Kiss(0xD37EE61A, 0xDEDC7AD4, 0x7C428D7D, 0xC5AC7BE1)
  {
  }

  const SEEDS: nat := 42

  lemma WordAndBack(z: bv32)
    ensures (z as u32) as bv32 == z
  {
  }

  // fnv1a, closed.
  ghost predicate Folds(u: bv32, v: bv32, r: bv32) {
    forall k: int {:trigger Opened(SEEDS, k)} :: Opened(SEEDS, k) ==> Fnv(u as u32, v as u32) == r as u32
  }

  lemma FoldIs(u: bv32, v: bv32)
    ensures Folds(u, v, Fnv1a(u, v))
  {
    FoldBehind(u as u32, v as u32);
    FoldOpens(u, v);
  }

  lemma FoldOpens(u: bv32, v: bv32)
    ensures OpenFnv((u as u32, v as u32)) == Fnv1a(u, v) as u32
  {
  }

  lemma FoldBehind(u: u32, v: u32)
    ensures Fnv(u, v) == OpenFnv((u, v))
  {
    BehindIs<(u32, u32), u32>(OpenFnv, (u, v), v);
  }

  // The seed of a lane's generator, closed.
  ghost predicate Seeds(lo: bv32, hi: bv32, l: bv32, k: Kiss)
    requires l < 16
  {
    forall u: int {:trigger Opened(SEEDS, u)} :: Opened(SEEDS, u) ==>
      LaneSeed(lo as u32, hi as u32, BelowSixteen(l)) == k
  }

  function BelowSixteen(l: bv32): (n: u32)
    requires l < 16
    ensures n < 16 && n == l as u32
  {
    ThereAndBack(l);
    l as u32
  }

  lemma SeedIs(lo: bv32, hi: bv32, l: bv32, z: bv32, w: bv32, jsr: bv32, jcong: bv32)
    requires l < 16 && Folds(0x811C9DC5, lo, z) && Folds(z, hi, w) && Folds(w, l, jsr) && Folds(jsr, l, jcong)
    ensures Seeds(lo, hi, l, Kiss(z, w, jsr, jcong))
  {
    assert Opened(SEEDS, 0);
    WordAndBack(z);
    WordAndBack(w);
    WordAndBack(jsr);
    WordAndBack(jcong);
  }

  // EIP-1057's vectors for the lanes: the seeds of lanes 0 and 13, and the first number
  // each puts out.
  lemma LaneVectors()
    ensures Seeds(0xDDD0A47B, 0xEE304846, 0, Kiss(0xD37EE61A, 0xDEDC7AD4, 0xA9155BBC, 0xE89F68F4))
    ensures Output(Advance(Kiss(0xD37EE61A, 0xDEDC7AD4, 0xA9155BBC, 0xE89F68F4))) == 0x10C02F0D
    ensures Seeds(0xDDD0A47B, 0xEE304846, 13, Kiss(0xD37EE61A, 0xDEDC7AD4, 0xAE15639B, 0xA1ABC522))
    ensures Output(Advance(Kiss(0xD37EE61A, 0xDEDC7AD4, 0xAE15639B, 0xA1ABC522))) == 0x4E46D05D
  {
    FoldIs(0x811C9DC5, 0xDDD0A47B);
    FoldIs(0xD37EE61A, 0xEE304846);
    FoldIs(0xDEDC7AD4, 0);
    FoldIs(0xA9155BBC, 0);
    SeedIs(0xDDD0A47B, 0xEE304846, 0, 0xD37EE61A, 0xDEDC7AD4, 0xA9155BBC, 0xE89F68F4);
    FoldIs(0xDEDC7AD4, 13);
    FoldIs(0xAE15639B, 13);
    SeedIs(0xDDD0A47B, 0xEE304846, 13, 0xD37EE61A, 0xDEDC7AD4, 0xAE15639B, 0xA1ABC522);
  }

  // A lane's registers are folded one by one, the first first, from the offset basis on.
  lemma {:induction false} LaneFolded(row: seq<u32>, n: nat, h: seq<u32>)
    requires n <= |row| && |h| == n + 1 && h[0] == 0x811C9DC5 && forall i :: 0 < i <= n ==> h[i] == Fnv(h[i - 1], row[i - 1])
    ensures LaneHash(row, n) == h[n]
    decreases n
  {
    if n > 0 {
      var before := h[..n];
      assert forall i :: 0 <= i < n ==> before[i] == h[i];
      LaneFolded(row, n - 1, before);
    }
  }

  // Register r of a lane is the r-th number its generator draws.
  lemma FilledInOrder(lo: u32, hi: u32, regs: nat, l: nat, r: nat)
    requires l < LANES && r < regs <= MAX_REGS
    ensures FirstRow(lo, hi, regs, l)[r] == Stream(LaneSeed(lo, hi, l))(r)
  {
  }

  // ------------------------------------------------------------- the program

  // One number tells two registers apart: the first is its remainder, and the second
  // its quotient among the others.
  lemma SourcesOfDraw(regs: nat, drawn: nat)
    requires regs >= 2
    ensures var (first, second) := MathSources(regs, drawn);
            && first < regs && second < regs && first != second
            && first + regs * (if second > first then second - 1 else second) == drawn % (regs * (regs - 1))
  {
    Split(drawn % (regs * (regs - 1)), regs);
  }

  // Of two sequences, one exchange in each for every place from the last down to the
  // second: with the place that the next number says, modulo the places left, the
  // first sequence's before the other's.
  lemma {:induction false} ShuffleSteps(stream: nat -> u32, n: nat, i: nat, dst: seq<nat>, src: seq<nat>) returns (a: seq<seq<nat>>, b: seq<seq<nat>>)
    requires i <= |dst| == |src|
    ensures |a| == |b| == if i == 0 then 1 else i
    ensures a[0] == dst && b[0] == src && (a[|a| - 1], b[|b| - 1]) == Shuffled(stream, n, i, dst, src)
    ensures forall k :: 0 <= k < |a| ==> |a[k]| == |b[k]| == |dst|
    ensures forall k :: 0 <= k < |a| - 1 ==> ExchangesAt(stream, n, i, k, a[k], a[k + 1], b[k], b[k + 1])
    decreases i
  {
    a, b := [dst], [src];
    if i > 1 {
      var d, s := Swapped(dst, i - 1, stream(n) % i), Swapped(src, i - 1, stream(n + 1) % i);
      var c, e := ShuffleSteps(stream, n + 2, i - 1, d, s);
      a, b := [dst] + c, [src] + e;
      forall k | 0 <= k < |a| - 1 ensures ExchangesAt(stream, n, i, k, a[k], a[k + 1], b[k], b[k + 1]) {
        if k > 0 { LaterExchange(stream, n, i, k, c[k - 1], c[k], e[k - 1], e[k]); }
      }
    }
  }

  // Exchange k of both.
  predicate ExchangesAt(stream: nat -> u32, n: nat, i: nat, k: nat, a: seq<nat>, b: seq<nat>, c: seq<nat>, d: seq<nat>) {
    k < i && Exchanged(a, b, i - 1 - k, stream(n + 2 * k) % (i - k)) && Exchanged(c, d, i - 1 - k, stream(n + 2 * k + 1) % (i - k))
  }

  lemma LaterExchange(stream: nat -> u32, n: nat, i: nat, k: nat, a: seq<nat>, b: seq<nat>, c: seq<nat>, d: seq<nat>)
    requires 0 < k && i > 0 && ExchangesAt(stream, n + 2, i - 1, k - 1, a, b, c, d)
    ensures ExchangesAt(stream, n, i, k, a, b, c, d)
  {
    assert n + 2 + 2 * (k - 1) == n + 2 * k && i - 1 - (k - 1) == i - k;
  }

  // The two places change what they hold, and no other.
  predicate Exchanged(a: seq<nat>, b: seq<nat>, i: int, j: int) {
    && |a| == |b| && 0 <= i < |a| && 0 <= j < |a| && b[i] == a[j] && b[j] == a[i]
    && forall k :: 0 <= k < |a| && k != i && k != j ==> b[k] == a[k]
  }

  // Of two counts, how often each has been reached within the first `i` steps.
  function Done(i: nat, ops: nat): nat {
    if i < ops then i else ops
  }

  // Numbers and destinations drawn before step `i`.
  function Draws(p: Params, i: nat): int {
    2 * (p.regs - 1) + Done(i, p.cacheOps) + 3 * Done(i, p.mathOps)
  }

  function Targets(p: Params, i: nat): nat {
    Done(i, p.cacheOps) + Done(i, p.mathOps)
  }

  lemma DrawsAre(p: Params, i: nat)
    requires Within(p)
    ensures Draws(p, i) == NumbersBefore(p, i) && Targets(p, i) == Before(p, i)
  {
  }

  // Where a program has what: cache reads in threes from word 0, math operations in
  // fives from word 36, DAG merges in twos from word 126.
  lemma ReadsLayout(s: Source, i: nat)
    requires Ready(s) && i < s.p.cacheOps
    ensures |Program(s)| == 134 && Draws(s.p, i) >= 0
    ensures var word := Program(s);
            && word[3 * i] == s.src[i % s.p.regs] && word[3 * i + 1] == s.dst[Targets(s.p, i) % s.p.regs]
            && word[3 * i + 2] == s.stream(Draws(s.p, i))
  {
    ProgramIsRight(s);
    DrawsAre(s.p, i);
    assert CacheRight(s, Program(s), i);
  }

  lemma OperationsLayout(s: Source, i: nat)
    requires Ready(s) && i < s.p.mathOps
    ensures |Program(s)| == 134 && Draws(s.p, i) >= 0
    ensures var word := Program(s);
            var read := if i < s.p.cacheOps then 1 else 0;
            var n := Draws(s.p, i) + read;
            && (word[36 + 5 * i], word[37 + 5 * i]) == MathSources(s.p.regs, s.stream(n)) && word[38 + 5 * i] == s.stream(n + 1)
            && word[39 + 5 * i] == s.dst[(Targets(s.p, i) + read) % s.p.regs] && word[40 + 5 * i] == s.stream(n + 2)
  {
    ProgramIsRight(s);
    DrawsAre(s.p, i);
    OperationIs(s, Program(s), i);
  }

  lemma OperationIs(s: Source, word: seq<u32>, i: nat)
    requires Ready(s) && i < s.p.mathOps && |word| == PROGRAM_WORDS && ProgramRight(s, word, DAG_LOADS)
    ensures var read := if i < s.p.cacheOps then 1 else 0;
            var n := NumbersBefore(s.p, i) + read;
            && (word[36 + 5 * i], word[37 + 5 * i]) == MathSources(s.p.regs, s.stream(n)) && word[38 + 5 * i] == s.stream(n + 1)
            && word[39 + 5 * i] == s.dst[(Before(s.p, i) + read) % s.p.regs] && word[40 + 5 * i] == s.stream(n + 2)
  {
    assert MathRight(s, word, i);
  }

  lemma MergesLayout(s: Source, i: nat)
    requires Ready(s) && i < 4
    ensures var word, p := Program(s), s.p;
            && |word| == 134
            && word[126 + 2 * i] == (if i == 0 then 0 else s.dst[(p.cacheOps + p.mathOps + i - 1) % p.regs])
            && word[126 + 2 * i + 1] == s.stream(2 * (p.regs - 1) + p.cacheOps + 3 * p.mathOps + i)
  {
    ProgramIsRight(s);
    AllDone(s.p);
    MergeIs(s, Program(s), i);
  }

  lemma AllDone(p: Params)
    requires Within(p)
    ensures Before(p, Steps(p)) == p.cacheOps + p.mathOps
    ensures NumbersBefore(p, Steps(p)) == 2 * (p.regs - 1) + p.cacheOps + 3 * p.mathOps
  {
  }

  lemma MergeIs(s: Source, word: seq<u32>, i: nat)
    requires Ready(s) && |word| == PROGRAM_WORDS && i < 4 && ProgramRight(s, word, DAG_LOADS)
    ensures word[126 + 2 * i] == if i == 0 then 0 else s.dst[(Before(s.p, Steps(s.p)) + i - 1) % s.p.regs]
    ensures word[126 + 2 * i + 1] == s.stream(NumbersBefore(s.p, Steps(s.p)) + i)
  {
    assert DagRight(s, word, i);
  }

  // ---------------------------------------------------------------- one round

  // Register `dst` takes in `data`, and no other changes.
  predicate Takes(ops: Ops, a: seq<u32>, b: seq<u32>, dst: nat, data: u32, sel: u32) {
    |a| == |b| == 32 && dst < 32 && b[dst] == ops.merge(a[dst], data, sel) && forall k :: 0 <= k < 32 && k != dst ==> b[k] == a[k]
  }

  // Cache read `i`: a word of the cache, as a register says modulo its 4096.
  predicate CacheMoves(ops: Ops, word: seq<u32>, i: nat, l1: seq<u32>, a: seq<u32>, b: seq<u32>) {
    && |word| == 134 && i < 12 && |a| == 32 && |l1| == 4096 && word[3 * i] < 32
    && Takes(ops, a, b, word[3 * i + 1], l1[a[word[3 * i]] % 4096], word[3 * i + 2])
  }

  // Math operation `i`, of two registers in this order.
  predicate MathMoves(ops: Ops, word: seq<u32>, i: nat, a: seq<u32>, b: seq<u32>) {
    && |word| == 134 && i < 18 && |a| == 32 && word[36 + 5 * i] < 32 && word[36 + 5 * i + 1] < 32
    && Takes(ops, a, b, word[36 + 5 * i + 3], ops.math(a[word[36 + 5 * i]], a[word[36 + 5 * i + 1]], word[36 + 5 * i + 2]), word[36 + 5 * i + 4])
  }

  // DAG merge `i`, of the i-th word from `offset` on.
  predicate DagMoves(ops: Ops, word: seq<u32>, i: nat, line: seq<u32>, offset: nat, a: seq<u32>, b: seq<u32>) {
    && |word| == 134 && i < 4 && offset + i < |line|
    && Takes(ops, a, b, word[126 + 2 * i], line[offset + i], word[126 + 2 * i + 1])
  }

  // The registers of a lane through the first `k` steps of a round, closed.
  ghost predicate Traced(ops: Ops, p: Params, word: seq<u32>, k: nat, row: seq<u32>, l1: seq<u32>, t: seq<seq<u32>>) {
    forall u: int {:trigger Opened(SEEDS, u)} :: Opened(SEEDS, u) ==>
      && |t| == Done(k, p.cacheOps) + Done(k, p.mathOps) + 1 && t[0] == row
      && (forall i :: 0 <= i < k && i < p.cacheOps ==> CacheStands(ops, p, word, i, l1, t))
      && (forall i :: 0 <= i < k && i < p.mathOps ==> MathStands(ops, p, word, i, t))
  }

  lemma {:induction false} StepsTrace(ops: Ops, p: Params, word: seq<u32>, k: nat, row: seq<u32>, l1: seq<u32>)
    returns (t: seq<seq<u32>>, last: seq<u32>)
    requires Within(p) && WellFormed(p, word) && k <= Steps(p) && Fits(row, l1)
    ensures Traced(ops, p, word, k, row, l1, t) && t != [] && t[|t| - 1] == last == StepsOn(ops, p, word, k, row, l1)
    decreases k
  {
    t, last := [row], row;
    if k > 0 {
      var a;
      t, a := StepsTrace(ops, p, word, k - 1, row, l1);
      var x;
      x, last := StepTrace(ops, p, word, k - 1, a, l1);
      t := TraceOn(ops, p, word, k, row, l1, t, a, x, last);
      NextSteps(ops, p, word, k, row, l1, a, last);
    }
  }

  lemma TraceOn(ops: Ops, p: Params, word: seq<u32>, k: nat, row: seq<u32>, l1: seq<u32>, u: seq<seq<u32>>, a: seq<u32>,
                x: seq<seq<u32>>, z: seq<u32>) returns (t: seq<seq<u32>>)
    requires k > 0 && Traced(ops, p, word, k - 1, row, l1, u) && u != [] && u[|u| - 1] == a
    requires IsStep(ops, p, word, k - 1, l1, a, x) && ([a] + x)[|x|] == z
    ensures Traced(ops, p, word, k, row, l1, t) && t != [] && t[|t| - 1] == z
  {
    assert Opened(SEEDS, 0);
    t := u + x;
    StandStill(ops, p, word, k - 1, l1, u, t);
    StandsNow(ops, p, word, k - 1, l1, u, x, t);
  }

  // Where one step takes the registers, closed.
  ghost predicate StepsTo(ops: Ops, p: Params, word: seq<u32>, i: nat, a: seq<u32>, l1: seq<u32>, z: seq<u32>)
    requires Within(p) && WellFormed(p, word) && i < Steps(p) && Fits(a, l1)
  {
    forall u: int {:trigger Opened(SEEDS, u)} :: Opened(SEEDS, u) ==> z == StepOn(ops, p, word, i, a, l1)
  }

  lemma NextSteps(ops: Ops, p: Params, word: seq<u32>, k: nat, row: seq<u32>, l1: seq<u32>, a: seq<u32>, z: seq<u32>)
    requires Within(p) && WellFormed(p, word) && 0 < k <= Steps(p) && Fits(row, l1)
    requires a == StepsOn(ops, p, word, k - 1, row, l1) && StepsTo(ops, p, word, k - 1, a, l1, z)
    ensures z == StepsOn(ops, p, word, k, row, l1)
  {
    assert Opened(SEEDS, 0);
  }

  // The registers after each operation of one step.
  lemma StepTrace(ops: Ops, p: Params, word: seq<u32>, i: nat, a: seq<u32>, l1: seq<u32>) returns (x: seq<seq<u32>>, z: seq<u32>)
    requires Within(p) && WellFormed(p, word) && i < Steps(p) && Fits(a, l1)
    ensures IsStep(ops, p, word, i, l1, a, x)
    ensures ([a] + x)[|x|] == z && StepsTo(ops, p, word, i, a, l1, z)
  {
    x := [];
    if i < p.cacheOps {
      CacheMovesSo(ops, p, word, i, a, l1);
      x := [CacheOn(ops, p, word, i, a, l1)];
    }
    if i < p.mathOps {
      MathMovesSo(ops, p, word, i, ([a] + x)[|x|]);
      x := x + [MathOn(ops, p, word, i, ([a] + x)[|x|])];
    }
    z := ([a] + x)[|x|];
  }

  predicate IsStep(ops: Ops, p: Params, word: seq<u32>, i: nat, l1: seq<u32>, a: seq<u32>, x: seq<seq<u32>>) {
    && |x| == (if i < p.cacheOps then 1 else 0) + (if i < p.mathOps then 1 else 0)
    && (i < p.cacheOps ==> CacheMoves(ops, word, i, l1, a, x[0]))
    && (i < p.mathOps ==> MathMoves(ops, word, i, ([a] + x)[|x| - 1], x[|x| - 1]))
  }

  lemma StandsNow(ops: Ops, p: Params, word: seq<u32>, i: nat, l1: seq<u32>, u: seq<seq<u32>>, x: seq<seq<u32>>, t: seq<seq<u32>>)
    requires |u| == Done(i, p.cacheOps) + Done(i, p.mathOps) + 1 && t == u + x && IsStep(ops, p, word, i, l1, u[|u| - 1], x)
    ensures i < p.cacheOps ==> CacheStands(ops, p, word, i, l1, t)
    ensures i < p.mathOps ==> MathStands(ops, p, word, i, t)
  {
  }

  // What stands in a trace stands in a longer one.
  lemma StandStill(ops: Ops, p: Params, word: seq<u32>, k: nat, l1: seq<u32>, u: seq<seq<u32>>, t: seq<seq<u32>>)
    requires u <= t
    requires forall i :: 0 <= i < k && i < p.cacheOps ==> CacheStands(ops, p, word, i, l1, u)
    requires forall i :: 0 <= i < k && i < p.mathOps ==> MathStands(ops, p, word, i, u)
    ensures forall i :: 0 <= i < k && i < p.cacheOps ==> CacheStands(ops, p, word, i, l1, t)
    ensures forall i :: 0 <= i < k && i < p.mathOps ==> MathStands(ops, p, word, i, t)
  {
    forall i | 0 <= i < k && i < p.cacheOps ensures CacheStands(ops, p, word, i, l1, t) {
      assert CacheStands(ops, p, word, i, l1, u);
    }
    forall i | 0 <= i < k && i < p.mathOps ensures MathStands(ops, p, word, i, t) {
      assert MathStands(ops, p, word, i, u);
    }
  }

  predicate CacheStands(ops: Ops, p: Params, word: seq<u32>, i: nat, l1: seq<u32>, t: seq<seq<u32>>) {
    var at := Done(i, p.cacheOps) + Done(i, p.mathOps);
    at + 1 < |t| && CacheMoves(ops, word, i, l1, t[at], t[at + 1])
  }

  predicate MathStands(ops: Ops, p: Params, word: seq<u32>, i: nat, t: seq<seq<u32>>) {
    var at := Done(i, p.cacheOps) + Done(i, p.mathOps) + if i < p.cacheOps then 1 else 0;
    at + 1 < |t| && MathMoves(ops, word, i, t[at], t[at + 1])
  }

  lemma CacheMovesSo(ops: Ops, p: Params, word: seq<u32>, i: nat, a: seq<u32>, l1: seq<u32>)
    requires Within(p) && WellFormed(p, word) && i < p.cacheOps && Fits(a, l1)
    ensures CacheMoves(ops, word, i, l1, a, CacheOn(ops, p, word, i, a, l1))
  {
    CacheRegisters(p, word, i);
  }

  lemma MathMovesSo(ops: Ops, p: Params, word: seq<u32>, i: nat, a: seq<u32>)
    requires Within(p) && WellFormed(p, word) && i < p.mathOps && |a| == MAX_REGS
    ensures MathMoves(ops, word, i, a, MathOn(ops, p, word, i, a))
  {
    MathRegisters(p, word, i);
  }

  lemma {:induction false} DagTrace(ops: Ops, p: Params, word: seq<u32>, k: nat, row: seq<u32>, line: seq<u32>, offset: nat) returns (t: seq<seq<u32>>)
    requires Within(p) && WellFormed(p, word) && k <= DAG_LOADS && |row| == MAX_REGS
    requires |line| == LINE_WORDS && offset + DAG_LOADS <= LINE_WORDS
    ensures |t| == k + 1 && t[0] == row && t[k] == DagOn(ops, p, word, k, row, line, offset)
    ensures forall i :: 0 <= i < k ==> DagMoves(ops, word, i, line, offset, t[i], t[i + 1])
    decreases k
  {
    t := [row];
    if k > 0 {
      t := DagTrace(ops, p, word, k - 1, row, line, offset);
      DagRegister(p, word, k - 1);
      t := t + [DagOn(ops, p, word, k, row, line, offset)];
    }
  }

  // A round of a lane: every step's cache read and then its math operation, as far as
  // there are, one by one, and then four words of the line.
  lemma RoundTrace(ops: Ops, p: Params, word: seq<u32>, row: seq<u32>, l1: seq<u32>, line: seq<u32>, offset: nat)
    returns (t: seq<seq<u32>>, d: seq<seq<u32>>)
    requires Within(p) && WellFormed(p, word) && Fits(row, l1) && |line| == LINE_WORDS && offset + DAG_LOADS <= LINE_WORDS
    ensures |t| == p.cacheOps + p.mathOps + 1 && |d| == 5
    ensures t[0] == row && d[0] == t[|t| - 1] && d[4] == RoundOn(ops, p, word, row, l1, line, offset)
    ensures forall i :: 0 <= i < p.cacheOps ==> CacheStands(ops, p, word, i, l1, t)
    ensures forall i :: 0 <= i < p.mathOps ==> MathStands(ops, p, word, i, t)
    ensures forall i :: 0 <= i < 4 ==> DagMoves(ops, word, i, line, offset, d[i], d[i + 1])
  {
    var last;
    t, last := StepsTrace(ops, p, word, Steps(p), row, l1);
    assert Opened(SEEDS, 0);
    d := DagTrace(ops, p, word, DAG_LOADS, last, line, offset);
  }

  // --------------------------------------------------------- the whole hash

  // The lanes through the rounds of a hash.
  predicate Walks(ops: Ops, f: Fork, word: seq<u32>, l1: seq<u32>, dagLines: nat, dag: nat -> Option<Line>, lines: seq<Line>, k: nat,
                  a: seq<seq<u32>>, b: seq<seq<u32>>)
    requires Proper(f) && WellFormed(f.p, word) && |l1| == 4096 && dagLines > 0 && k < |lines| < 0x1_0000_0000
  {
    && |a| == |b| == 16 && (forall l :: 0 <= l < 16 ==> |a[l]| == 32)
    && dag(a[k % 16][0] % dagLines) == Some(lines[k])
    && forall l :: 0 <= l < 16 ==> b[l] == RoundOn(ops, f.p, word, a[l], l1, lines[k], 4 * Quarter(l, k))
  }

  // What a hash is made of: header, nonce and seal are the first state; two of its words
  // seed the lanes; register 0 of lane k mod 16 says which line round k fetches; the
  // lanes are folded, register by register, lane l into word l mod 8; and the last
  // state is the first digest, that mix and the other words of the seal.
  lemma HashTrace(ops: Ops, f: Fork, word: seq<u32>, l1: seq<u32>, dagLines: nat, dag: nat -> Option<Line>, header: seq<u32>, nonce: nat)
    returns (a: State, c: State, lines: seq<Line>, t: seq<seq<seq<u32>>>)
    requires Proper(f) && WellFormed(f.p, word) && |l1| == L1_WORDS && |header| == 8 && nonce < 0x1_0000_0000_0000_0000
    requires HashOf(ops, f, word, l1, dagLines, dag, header, nonce).Some?
    ensures dagLines > 0 && |lines| == f.rounds && |t| == f.rounds + 1
    ensures a[..8] == header && Joined(a[8], a[9]) == nonce && a[10..] == f.sealSeed
    ensures |t[0]| == 16 && forall l :: 0 <= l < 16 ==> t[0][l] == FirstRow(Permuted(a)[0], Permuted(a)[1], f.p.regs, l)
    ensures forall k :: 0 <= k < f.rounds ==> Walks(ops, f, word, l1, dagLines, dag, lines, k, t[k], t[k + 1])
    ensures var r := HashOf(ops, f, word, l1, dagLines, dag, header, nonce).value;
            && |r.mix| == 8 && |t[f.rounds]| == 16 && (forall l :: 0 <= l < 16 ==> |t[f.rounds][l]| == 32)
            && (forall i :: 0 <= i < 8 ==>
                  r.mix[i] == Fnv(Fnv(BASIS, LaneHash(t[f.rounds][i], f.p.regs)), LaneHash(t[f.rounds][i + 8], f.p.regs)))
            && c[..8] == Permuted(a)[..8] && c[8..16] == r.mix && c[16..] == f.sealFinal && r.digest == Permuted(c)[..8]
  {
    a := First(f, header, nonce);
    Split(nonce, 0x1_0000_0000);
    var rows := FirstRows(Permuted(a), f.p.regs);
    lines := Fetched(ops, f.p, word, rows, l1, dagLines, dag, f.rounds).value;
    t := LanesTrace(ops, f, word, rows, l1, dagLines, dag, lines);
    var last := LastRows(ops, f, word, rows, l1, lines);
    assert t[f.rounds] == last;
    c := Last(f, Permuted(a), MixHash(LaneHashes(last, f.p.regs)));
  }

  function Joined(low: nat, high: nat): nat {
    low + 0x1_0000_0000 * high
  }

  // Where lane `l` is after `k` rounds.
  function LaneAfter(ops: Ops, f: Fork, word: seq<u32>, rows: seq<seq<u32>>, l1: seq<u32>, lines: seq<Line>, k: nat): (r: seq<seq<u32>>)
    requires Proper(f) && WellFormed(f.p, word) && |l1| == L1_WORDS && k <= |lines| == f.rounds
    requires |rows| == LANES && forall l :: 0 <= l < LANES ==> |rows[l]| == MAX_REGS
    ensures |r| == LANES && forall l :: 0 <= l < LANES ==> r[l] == Alone(ops, f.p, word, l, rows[l], l1, lines, k)
  {
    seq(LANES, l requires 0 <= l < LANES => Alone(ops, f.p, word, l, rows[l], l1, lines, k))
  }

  lemma LanesTrace(ops: Ops, f: Fork, word: seq<u32>, rows: seq<seq<u32>>, l1: seq<u32>, dagLines: nat, dag: nat -> Option<Line>, lines: seq<Line>)
    returns (t: seq<seq<seq<u32>>>)
    requires Proper(f) && WellFormed(f.p, word) && |l1| == L1_WORDS && dagLines > 0
    requires |rows| == LANES && forall l :: 0 <= l < LANES ==> |rows[l]| == MAX_REGS
    requires |lines| == f.rounds && Fetched(ops, f.p, word, rows, l1, dagLines, dag, f.rounds) == Some(lines)
    ensures |t| == f.rounds + 1 && t[0] == rows && t[f.rounds] == LastRows(ops, f, word, rows, l1, lines)
    ensures forall k :: 0 <= k < f.rounds ==> Walks(ops, f, word, l1, dagLines, dag, lines, k, t[k], t[k + 1])
  {
    t := seq(f.rounds + 1, k requires 0 <= k <= f.rounds => LaneAfter(ops, f, word, rows, l1, lines, k));
    LanesAtEnds(ops, f, word, rows, l1, lines);
    forall k | 0 <= k < f.rounds ensures Walks(ops, f, word, l1, dagLines, dag, lines, k, t[k], t[k + 1]) {
      WalksOn(ops, f, word, rows, l1, dagLines, dag, lines, k);
    }
  }

  lemma LanesAtEnds(ops: Ops, f: Fork, word: seq<u32>, rows: seq<seq<u32>>, l1: seq<u32>, lines: seq<Line>)
    requires Proper(f) && WellFormed(f.p, word) && |l1| == L1_WORDS && |lines| == f.rounds
    requires |rows| == LANES && forall l :: 0 <= l < LANES ==> |rows[l]| == MAX_REGS
    ensures LaneAfter(ops, f, word, rows, l1, lines, 0) == rows
    ensures LaneAfter(ops, f, word, rows, l1, lines, f.rounds) == LastRows(ops, f, word, rows, l1, lines)
  {
  }

  lemma WalksOn(ops: Ops, f: Fork, word: seq<u32>, rows: seq<seq<u32>>, l1: seq<u32>, dagLines: nat, dag: nat -> Option<Line>, lines: seq<Line>, k: nat)
    requires Proper(f) && WellFormed(f.p, word) && |l1| == L1_WORDS && dagLines > 0
    requires |rows| == LANES && forall l :: 0 <= l < LANES ==> |rows[l]| == MAX_REGS
    requires k < |lines| == f.rounds && Fetched(ops, f.p, word, rows, l1, dagLines, dag, f.rounds) == Some(lines)
    ensures Walks(ops, f, word, l1, dagLines, dag, lines, k, LaneAfter(ops, f, word, rows, l1, lines, k), LaneAfter(ops, f, word, rows, l1, lines, k + 1))
  {
    FetchedLine(ops, f, word, rows, l1, dagLines, dag, lines, f.rounds, k);
  }

  // The k-th line fetched is the one the lanes asked for then.
  lemma {:induction false} FetchedLine(ops: Ops, f: Fork, word: seq<u32>, rows: seq<seq<u32>>, l1: seq<u32>, dagLines: nat,
                                       dag: nat -> Option<Line>, lines: seq<Line>, n: nat, k: nat)
    requires Proper(f) && WellFormed(f.p, word) && |l1| == L1_WORDS && dagLines > 0
    requires |rows| == LANES && forall l :: 0 <= l < LANES ==> |rows[l]| == MAX_REGS
    requires k < n == |lines| <= f.rounds && Fetched(ops, f.p, word, rows, l1, dagLines, dag, n) == Some(lines)
    ensures dag(Alone(ops, f.p, word, k % LANES, rows[k % LANES], l1, lines, k)[0] % dagLines) == Some(lines[k])
    decreases n
  {
    var before, line := LastFetched(ops, f, word, rows, l1, dagLines, dag, lines, n);
    if k < n - 1 { FetchedLine(ops, f, word, rows, l1, dagLines, dag, before, n - 1, k); }
    AlonePrefix(ops, f.p, word, k % LANES, rows[k % LANES], l1, before, line, k);
  }

  lemma LastFetched(ops: Ops, f: Fork, word: seq<u32>, rows: seq<seq<u32>>, l1: seq<u32>, dagLines: nat,
                    dag: nat -> Option<Line>, lines: seq<Line>, n: nat) returns (before: seq<Line>, line: Line)
    requires Proper(f) && WellFormed(f.p, word) && |l1| == L1_WORDS && dagLines > 0
    requires |rows| == LANES && forall l :: 0 <= l < LANES ==> |rows[l]| == MAX_REGS
    requires 0 < n == |lines| <= f.rounds && Fetched(ops, f.p, word, rows, l1, dagLines, dag, n) == Some(lines)
    ensures lines == before + [line] && |before| == n - 1 && Fetched(ops, f.p, word, rows, l1, dagLines, dag, n - 1) == Some(before)
    ensures dag(Alone(ops, f.p, word, (n - 1) % LANES, rows[(n - 1) % LANES], l1, before, n - 1)[0] % dagLines) == Some(line)
  {
    before, line := lines[..n - 1], lines[n - 1];
  }

  // Without a dataset there is no hash, and with one it fails only for want of a line.
  lemma HashFails(ops: Ops, f: Fork, word: seq<u32>, l1: seq<u32>, dagLines: nat, dag: nat -> Option<Line>, header: seq<u32>, nonce: nat)
    requires Proper(f) && WellFormed(f.p, word) && |l1| == L1_WORDS && |header| == 8 && nonce < 0x1_0000_0000_0000_0000
    ensures dagLines == 0 ==> HashOf(ops, f, word, l1, dagLines, dag, header, nonce).None?
    ensures dagLines > 0 && HashOf(ops, f, word, l1, dagLines, dag, header, nonce).None? ==> exists i :: 0 <= i < dagLines && dag(i).None?
  {
    if dagLines > 0 && HashOf(ops, f, word, l1, dagLines, dag, header, nonce).None? {
      var i := LineMissing(ops, f, word, FirstRows(Permuted(First(f, header, nonce)), f.p.regs), l1, dagLines, dag, f.rounds);
    }
  }

  lemma {:induction false} LineMissing(ops: Ops, f: Fork, word: seq<u32>, rows: seq<seq<u32>>, l1: seq<u32>, dagLines: nat,
                                       dag: nat -> Option<Line>, n: nat) returns (i: nat)
    requires Proper(f) && WellFormed(f.p, word) && |l1| == L1_WORDS && dagLines > 0 && n <= f.rounds
    requires |rows| == LANES && forall l :: 0 <= l < LANES ==> |rows[l]| == MAX_REGS
    requires Fetched(ops, f.p, word, rows, l1, dagLines, dag, n).None?
    ensures i < dagLines && dag(i).None?
    decreases n
  {
    var before := Fetched(ops, f.p, word, rows, l1, dagLines, dag, n - 1);
    if before.None? {
      i := LineMissing(ops, f, word, rows, l1, dagLines, dag, n - 1);
    } else {
      var l := (n - 1) % LANES;
      i := Alone(ops, f.p, word, l, rows[l], l1, before.value, n - 1)[0] % dagLines;
    }
  }

  // ------------------------------------------------------------- the quarters

  function Ones(a: bool, b: bool, c: bool, d: bool): nat {
    (if a then 1 else 0) + (if b then 2 else 0) + (if c then 4 else 0) + (if d then 8 else 0)
  }

  lemma NibbleIs(z: bv32)
    requires z < 16
    ensures (z as nat) == Ones(z & 1 != 0, z & 2 != 0, z & 4 != 0, z & 8 != 0)
  {
    if z < 8 {
      if z < 4 { if z == 0 {} else if z == 1 {} else if z == 2 {} else { assert z == 3; } }
      else { if z == 4 {} else if z == 5 {} else if z == 6 {} else { assert z == 7; } }
    } else {
      if z < 12 { if z == 8 {} else if z == 9 {} else if z == 10 {} else { assert z == 11; } }
      else { if z == 12 {} else if z == 13 {} else if z == 14 {} else { assert z == 15; } }
    }
  }

  // The low bits of a number, as a word and as they are.
  lemma LowBits(r: nat)
    requires r < 0x1_0000_0000
    ensures ((r as bv32) & 1 != 0) <==> r % 2 == 1
    ensures ((r as bv32) & 2 != 0) <==> r / 2 % 2 == 1
    ensures ((r as bv32) & 4 != 0) <==> r / 4 % 2 == 1
    ensures ((r as bv32) & 8 != 0) <==> r / 8 % 2 == 1
  {
  }

  lemma XorLow(x: bv32, y: bv32)
    ensures var z := (x ^ y) % 16;
            && z < 16
            && (z & 1 != 0) == ((x & 1 != 0) != (y & 1 != 0)) && (z & 2 != 0) == ((x & 2 != 0) != (y & 2 != 0))
            && (z & 4 != 0) == ((x & 4 != 0) != (y & 4 != 0)) && (z & 8 != 0) == ((x & 8 != 0) != (y & 8 != 0))
  {
  }

  predicate Odd(x: nat) {
    x % 2 == 1
  }

  lemma QuarterOnes(l: nat, r: nat)
    requires l < 16 && r < 0x1_0000_0000
    ensures Quarter(l, r) ==
      Ones(Odd(l) != Odd(r), Odd(l / 2) != Odd(r / 2), Odd(l / 4) != Odd(r / 4), Odd(l / 8) != Odd(r / 8))
  {
    LowBits(l);
    LowBits(r);
    XorOnes(l as bv32, r as bv32);
  }

  lemma XorOnes(x: bv32, y: bv32)
    ensures (((x ^ y) % 16) as nat) ==
      Ones((x & 1 != 0) != (y & 1 != 0), (x & 2 != 0) != (y & 2 != 0), (x & 4 != 0) != (y & 4 != 0), (x & 8 != 0) != (y & 8 != 0))
  {
    XorLow(x, y);
    NibbleIs((x ^ y) % 16);
  }

  lemma OnesBit(a: bool, b: bool, c: bool, d: bool, i: nat)
    requires i < 4
    ensures B.Bit(Ones(a, b, c, d), i) <==> if i == 0 then a else if i == 1 then b else if i == 2 then c else d
  {
    assert Pow2(0) == 1 && Pow2(1) == 2 && Pow2(2) == 4 && Pow2(3) == 8;
  }

  lemma BitIsOdd(x: nat, i: nat)
    requires i < 4
    ensures B.Bit(x, i) <==> if i == 0 then Odd(x) else if i == 1 then Odd(x / 2) else if i == 2 then Odd(x / 4) else Odd(x / 8)
  {
    assert Pow2(0) == 1 && Pow2(1) == 2 && Pow2(2) == 4 && Pow2(3) == 8;
  }

  // Which quarter of the line lane l takes in round r: bit by bit, one or the other.
  lemma QuarterBit(l: nat, r: nat, i: nat)
    requires l < 16 && r < 0x1_0000_0000 && i < 4
    ensures B.Bit(Quarter(l, r), i) <==> B.Bit(l, i) != B.Bit(r, i)
  {
    QuarterOnes(l, r);
    OnesBit(Odd(l) != Odd(r), Odd(l / 2) != Odd(r / 2), Odd(l / 4) != Odd(r / 4), Odd(l / 8) != Odd(r / 8), i);
    BitIsOdd(l, i);
    BitIsOdd(r, i);
  }
}
