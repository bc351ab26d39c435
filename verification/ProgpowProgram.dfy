// algorithms/progpow/progpow_program.cpp and .h: the program of a period, drawn
// into a fixed layout.

module ProgpowProgram {
  import opened Arithmetic
  import opened Closed
  import W = Words

  type u32 = W.Word

  const LANES: nat := 16
  const MAX_REGS: nat := 32
  const MAX_CACHE_OPS: nat := 12
  const MAX_MATH_OPS: nat := 18
  const DAG_LOADS: nat := 4
  const L1_WORDS: nat := 4096
  const CACHE_WORDS: nat := 3
  const MATH_WORDS: nat := 5
  const DAG_WORDS: nat := 2
  const CACHE_BASE: nat := 0
  const MATH_BASE: nat := 36
  const DAG_BASE: nat := 126
  const PROGRAM_WORDS: nat := 134

  // The shape of a fork.
  datatype Params = Params(regs: nat, cacheOps: nat, mathOps: nat)

  // Within the maxima, and with two registers to tell apart.
  predicate Within(p: Params) {
    2 <= p.regs <= MAX_REGS && p.cacheOps <= MAX_CACHE_OPS && p.mathOps <= MAX_MATH_OPS
  }

  // --------------------------------------------------------------- numbers

  const FNV_PRIME: bv32 := 0x01000193
  const FNV_OFFSET_BASIS: bv32 := 0x811c9dc5

  function Fnv1a(u: bv32, v: bv32): bv32 {
    (u ^ v) * FNV_PRIME
  }

  datatype Kiss = Kiss(z: bv32, w: bv32, jsr: bv32, jcong: bv32)

  // The steps of the three generators KISS99 combines.
  function Carried(x: bv32, multiplier: bv32): bv32 {
    multiplier * (x & 0xffff) + (x >> 16)
  }

  function Congruential(x: bv32): bv32 {
    69069 * x + 1234567
  }

  function Shaken(x: bv32): bv32 {
    var a := x ^ (x << 17);
    var b := a ^ (a >> 13);
    b ^ (b << 5)
  }

  function Advance(k: Kiss): Kiss {
    Kiss(Carried(k.z, 36969), Carried(k.w, 18000), Shaken(k.jsr), Congruential(k.jcong))
  }

  function Output(k: Kiss): bv32 {
    (((k.z << 16) + k.w) ^ k.jcong) + k.jsr
  }

  function Nth(k: Kiss, n: nat): Kiss {
    if n == 0 then k else Advance(Nth(k, n - 1))
  }

  // The n-th number drawn from a seed.
  function Drawn(k: Kiss, n: nat): u32 {
    Output(Nth(k, n + 1)) as u32
  }

  function Stream(k: Kiss): nat -> u32 {
    n => Drawn(k, n)
  }

  // KISS99. `drawn` counts the numbers it has given, `stream` is all of them.
  class Kiss99 {
    var z: bv32
    var w: bv32
    var jsr: bv32
    var jcong: bv32
    ghost const seed: Kiss
    ghost const stream: nat -> u32
    ghost var drawn: nat

    ghost predicate InStep()
      reads this
    {
      Kiss(z, w, jsr, jcong) == Nth(seed, drawn) && stream == Stream(seed)
    }

    // Closed: who draws numbers need not look at how they are made.
    ghost predicate Valid()
      reads this
    {
      forall u: int {:trigger Opened(0, u)} :: Opened(0, u) ==> InStep()
    }

    constructor (z: bv32, w: bv32, jsr: bv32, jcong: bv32)
      ensures Valid() && stream == Stream(Kiss(z, w, jsr, jcong)) && drawn == 0
    {
      this.z, this.w, this.jsr, this.jcong := z, w, jsr, jcong;
      seed := Kiss(z, w, jsr, jcong);
      stream := Stream(Kiss(z, w, jsr, jcong));
      drawn := 0;
      new;
      assert Opened(0, 0);
    }

    method Step() returns (r: u32)
      requires Kiss(z, w, jsr, jcong) == Nth(seed, drawn)
      modifies this
      ensures Kiss(z, w, jsr, jcong) == Nth(seed, drawn) && drawn == old(drawn) + 1
      ensures r == Drawn(seed, old(drawn))
    {
      z := Carried(z, 36969);
      w := Carried(w, 18000);
      jcong := Congruential(jcong);
      jsr := Shaken(jsr);
      drawn := drawn + 1;
      r := Output(Kiss(z, w, jsr, jcong)) as u32;
    }

    // operator()
    method Next() returns (r: u32)
      requires Valid()
      modifies this
      ensures Valid() && drawn == old(drawn) + 1 && r == stream(old(drawn))
    {
      assert Opened(0, 0);
      r := Step();
      assert Opened(0, 0);
    }
  }

  // ------------------------------------------------------------- shuffling

  predicate Permutation(s: seq<nat>, n: nat) {
    && |s| == n
    && (forall i :: 0 <= i < n ==> s[i] < n)
    && (forall i, j :: 0 <= i < j < n ==> s[i] != s[j])
    && (forall r :: 0 <= r < n ==> r in s)
  }

  function Swapped(s: seq<nat>, i: nat, j: nat): seq<nat>
    requires i < |s| && j < |s|
  {
    s[i := s[j]][j := s[i]]
  }

  lemma SwapKeeps(s: seq<nat>, n: nat, i: nat, j: nat)
    requires Permutation(s, n) && i < n && j < n
    ensures Permutation(Swapped(s, i, j), n)
  {
    var t := Swapped(s, i, j);
    forall r | 0 <= r < n ensures r in t {
      assert r in s;
      var k: nat :| k < n && s[k] == r;
      assert t[if k == i then j else if k == j then i else k] == r;
    }
  }

  function Identity(n: nat): seq<nat> {
    seq(n, i requires 0 <= i < n => i)
  }

  // Fisher-Yates on two sequences at once, from place `i` down: one number for
  // each at every step, from draw `n` on.
  function Shuffled(stream: nat -> u32, n: nat, i: nat, dst: seq<nat>, src: seq<nat>): (r: (seq<nat>, seq<nat>))
    requires i <= |dst| == |src|
    ensures |r.0| == |r.1| == |dst|
    decreases i
  {
    if i <= 1 then (dst, src)
    else Shuffled(stream, n + 2, i - 1, Swapped(dst, i - 1, stream(n) % i), Swapped(src, i - 1, stream(n + 1) % i))
  }

  lemma {:induction false} ShufflePermutes(stream: nat -> u32, n: nat, i: nat, dst: seq<nat>, src: seq<nat>, regs: nat)
    requires i <= regs && Permutation(dst, regs) && Permutation(src, regs)
    ensures Permutation(Shuffled(stream, n, i, dst, src).0, regs)
    ensures Permutation(Shuffled(stream, n, i, dst, src).1, regs)
    decreases i
  {
    if i > 1 {
      SwapKeeps(dst, regs, i - 1, stream(n) % i);
      SwapKeeps(src, regs, i - 1, stream(n + 1) % i);
      ShufflePermutes(stream, n + 2, i - 1, Swapped(dst, i - 1, stream(n) % i), Swapped(src, i - 1, stream(n + 1) % i), regs);
    }
  }

  // The two orders a program draws its registers from.
  function Orders(p: Params, stream: nat -> u32): (seq<nat>, seq<nat>) {
    Shuffled(stream, 0, p.regs, Identity(p.regs), Identity(p.regs))
  }

  function ShuffleDraws(p: Params): nat {
    if p.regs <= 1 then 0 else 2 * (p.regs - 1)
  }

  // ---------------------------------------------------------- the operations

  // The words so far, and how many numbers, destinations and sources were drawn.
  datatype Draft = Draft(word: seq<u32>, n: nat, dsts: nat, srcs: nat)

  datatype Source = Source(p: Params, stream: nat -> u32, dst: seq<nat>, src: seq<nat>)

  predicate Ready(s: Source) {
    Within(s.p) && |s.dst| == |s.src| == s.p.regs
    && (forall i :: 0 <= i < s.p.regs ==> s.dst[i] < s.p.regs && s.src[i] < s.p.regs)
  }

  function CacheOp(s: Source, g: Draft, i: nat): Draft
    requires Ready(s) && |g.word| == PROGRAM_WORDS && i < MAX_CACHE_OPS
  {
    var at := CACHE_BASE + i * CACHE_WORDS;
    Draft(g.word[at := s.src[g.srcs % s.p.regs]][at + 1 := s.dst[g.dsts % s.p.regs]][at + 2 := s.stream(g.n)],
          g.n + 1, g.dsts + 1, g.srcs + 1)
  }

  // Two registers from one number, the second one place on where it would be the
  // first or come after it.
  function MathSources(regs: nat, drawn: nat): (r: (nat, nat))
    requires regs >= 2
    ensures r.0 < regs && r.1 < regs && r.0 != r.1
  {
    var rnd := drawn % (regs * (regs - 1));
    QuotientBelow(rnd, regs);
    var first := rnd % regs;
    var second := rnd / regs;
    (first, if second >= first then second + 1 else second)
  }

  lemma QuotientBelow(rnd: nat, regs: nat)
    requires regs >= 2 && rnd < regs * (regs - 1)
    ensures rnd / regs < regs - 1
  {
    var q := rnd / regs;
    assert rnd == q * regs + rnd % regs;
    if q >= regs - 1 {
      TimesMonotone(regs - 1, q, regs);
    }
  }

  function MathOp(s: Source, g: Draft, i: nat): Draft
    requires Ready(s) && |g.word| == PROGRAM_WORDS && i < MAX_MATH_OPS
  {
    var at := MATH_BASE + i * MATH_WORDS;
    var (first, second) := MathSources(s.p.regs, s.stream(g.n));
    Draft(g.word[at := first][at + 1 := second][at + 2 := s.stream(g.n + 1)]
                [at + 3 := s.dst[g.dsts % s.p.regs]][at + 4 := s.stream(g.n + 2)],
          g.n + 3, g.dsts + 1, g.srcs)
  }

  function DagOp(s: Source, g: Draft, i: nat): Draft
    requires Ready(s) && |g.word| == PROGRAM_WORDS && i < DAG_LOADS
  {
    var at := DAG_BASE + i * DAG_WORDS;
    if i == 0 then Draft(g.word[at := 0][at + 1 := s.stream(g.n)], g.n + 1, g.dsts, g.srcs)
    else Draft(g.word[at := s.dst[g.dsts % s.p.regs]][at + 1 := s.stream(g.n)], g.n + 1, g.dsts + 1, g.srcs)
  }

  function Steps(p: Params): nat {
    if p.cacheOps > p.mathOps then p.cacheOps else p.mathOps
  }

  // A cache read and a math operation at a time, for as long as there are both.
  function StepOp(s: Source, g: Draft, i: nat): (r: Draft)
    requires Ready(s) && |g.word| == PROGRAM_WORDS && i < Steps(s.p)
    ensures |r.word| == PROGRAM_WORDS
  {
    var b := if i < s.p.cacheOps then CacheOp(s, g, i) else g;
    if i < s.p.mathOps then MathOp(s, b, i) else b
  }

  // The same closed, as Closed.Behind has it.
  function StepBehind(s: Source, g: Draft, i: nat, depth: nat): (r: Draft)
    requires Ready(s) && |g.word| == PROGRAM_WORDS && i < Steps(s.p)
    ensures |r.word| == PROGRAM_WORDS
    decreases depth
  {
    if depth == 0 then StepOp(s, g, i) else StepBehind(s, g, i, depth - 1)
  }

  lemma {:induction false} StepBehindIs(s: Source, g: Draft, i: nat, depth: nat)
    requires Ready(s) && |g.word| == PROGRAM_WORDS && i < Steps(s.p)
    ensures StepBehind(s, g, i, depth) == StepOp(s, g, i)
    decreases depth
  {
    if depth > 0 { StepBehindIs(s, g, i, depth - 1); }
  }

  function OpsDone(s: Source, g: Draft, k: nat): (r: Draft)
    requires Ready(s) && |g.word| == PROGRAM_WORDS && k <= Steps(s.p)
    ensures |r.word| == PROGRAM_WORDS
  {
    if k == 0 then g else StepBehind(s, OpsDone(s, g, k - 1), k - 1, k + 9)
  }

  function DagDone(s: Source, g: Draft, k: nat): (r: Draft)
    requires Ready(s) && |g.word| == PROGRAM_WORDS && k <= DAG_LOADS
    ensures |r.word| == PROGRAM_WORDS
  {
    if k == 0 then g else DagOp(s, DagDone(s, g, k - 1), k - 1)
  }

  function Blank(p: Params): (g: Draft)
    ensures |g.word| == PROGRAM_WORDS
  {
    Draft(seq(PROGRAM_WORDS, _ => 0), ShuffleDraws(p), 0, 0)
  }

  // The program the numbers of `stream` make.
  function Program(s: Source): (r: seq<u32>)
    requires Ready(s)
    ensures |r| == PROGRAM_WORDS
  {
    DagDone(s, OpsDone(s, Blank(s.p), Steps(s.p)), DAG_LOADS).word
  }

  // ------------------------------------------------------- what is drawn where

  function Least(x: nat, y: nat): nat {
    if x < y then x else y
  }

  // Destinations drawn before step `i`.
  function Before(p: Params, i: nat): nat {
    Least(i, p.cacheOps) + Least(i, p.mathOps)
  }

  // Numbers drawn before it: the shuffle's, then one by each cache read and three
  // by each math operation.
  function NumbersBefore(p: Params, i: nat): nat {
    ShuffleDraws(p) + Least(i, p.cacheOps) + 3 * Least(i, p.mathOps)
  }

  predicate CacheRight(s: Source, word: seq<u32>, i: nat)
    requires Ready(s) && |word| == PROGRAM_WORDS && i < MAX_CACHE_OPS
  {
    var at := CACHE_BASE + i * CACHE_WORDS;
    && word[at] == s.src[i % s.p.regs] && word[at + 1] == s.dst[Before(s.p, i) % s.p.regs]
    && word[at + 2] == s.stream(NumbersBefore(s.p, i))
  }

  predicate CacheBlank(word: seq<u32>, i: nat)
    requires |word| == PROGRAM_WORDS && i < MAX_CACHE_OPS
  {
    var at := CACHE_BASE + i * CACHE_WORDS;
    word[at] == word[at + 1] == word[at + 2] == 0
  }

  predicate MathRight(s: Source, word: seq<u32>, i: nat)
    requires Ready(s) && |word| == PROGRAM_WORDS && i < MAX_MATH_OPS
  {
    var at := MATH_BASE + i * MATH_WORDS;
    var read := if i < s.p.cacheOps then 1 else 0;
    var n := NumbersBefore(s.p, i) + read;
    && (word[at], word[at + 1]) == MathSources(s.p.regs, s.stream(n)) && word[at + 2] == s.stream(n + 1)
    && word[at + 3] == s.dst[(Before(s.p, i) + read) % s.p.regs] && word[at + 4] == s.stream(n + 2)
  }

  predicate MathBlank(word: seq<u32>, i: nat)
    requires |word| == PROGRAM_WORDS && i < MAX_MATH_OPS
  {
    var at := MATH_BASE + i * MATH_WORDS;
    word[at] == word[at + 1] == word[at + 2] == word[at + 3] == word[at + 4] == 0
  }

  predicate DagRight(s: Source, word: seq<u32>, i: nat)
    requires Ready(s) && |word| == PROGRAM_WORDS && i < DAG_LOADS
  {
    var at := DAG_BASE + i * DAG_WORDS;
    && word[at] == (if i == 0 then 0 else s.dst[(Before(s.p, Steps(s.p)) + i - 1) % s.p.regs])
    && word[at + 1] == s.stream(NumbersBefore(s.p, Steps(s.p)) + i)
  }

  predicate DagBlank(word: seq<u32>, i: nat)
    requires |word| == PROGRAM_WORDS && i < DAG_LOADS
  {
    var at := DAG_BASE + i * DAG_WORDS;
    word[at] == word[at + 1] == 0
  }

  // After `c` cache reads and `m` math operations.
  predicate OpsRight(s: Source, word: seq<u32>, c: nat, m: nat)
    requires Ready(s) && |word| == PROGRAM_WORDS && c <= MAX_CACHE_OPS && m <= MAX_MATH_OPS
  {
    && (forall i :: 0 <= i < c ==> CacheRight(s, word, i))
    && (forall i :: c <= i < MAX_CACHE_OPS ==> CacheBlank(word, i))
    && (forall i :: 0 <= i < m ==> MathRight(s, word, i))
    && (forall i :: m <= i < MAX_MATH_OPS ==> MathBlank(word, i))
    && (forall i :: 0 <= i < DAG_LOADS ==> DagBlank(word, i))
  }

  lemma CacheStep(s: Source, g: Draft, i: nat, m: nat)
    requires Ready(s) && |g.word| == PROGRAM_WORDS && i < s.p.cacheOps && m <= MAX_MATH_OPS && OpsRight(s, g.word, i, m)
    requires g.dsts == Before(s.p, i) && g.srcs == i && g.n == NumbersBefore(s.p, i)
    ensures OpsRight(s, CacheOp(s, g, i).word, i + 1, m)
  {
    var r := CacheOp(s, g, i);
    forall j | 0 <= j < i ensures CacheRight(s, r.word, j) { assert CacheRight(s, g.word, j); }
    assert CacheRight(s, r.word, i);
    forall j | i < j < MAX_CACHE_OPS ensures CacheBlank(r.word, j) { assert CacheBlank(g.word, j); }
    forall j | 0 <= j < m ensures MathRight(s, r.word, j) { assert MathRight(s, g.word, j); }
    forall j | m <= j < MAX_MATH_OPS ensures MathBlank(r.word, j) { assert MathBlank(g.word, j); }
    forall j | 0 <= j < DAG_LOADS ensures DagBlank(r.word, j) { assert DagBlank(g.word, j); }
  }

  lemma MathStep(s: Source, g: Draft, i: nat, c: nat)
    requires Ready(s) && |g.word| == PROGRAM_WORDS && i < s.p.mathOps && c <= MAX_CACHE_OPS && OpsRight(s, g.word, c, i)
    requires var read := if i < s.p.cacheOps then 1 else 0;
             g.dsts == Before(s.p, i) + read && g.n == NumbersBefore(s.p, i) + read
    ensures OpsRight(s, MathOp(s, g, i).word, c, i + 1)
  {
    MathWrites(s, g, i);
    MathStepOver(s, g.word, MathOp(s, g, i).word, i, c);
  }

  // An operation that is not touched is as it was.
  lemma MathKept(s: Source, w: seq<u32>, r: seq<u32>, i: nat, j: nat)
    requires Ready(s) && |w| == |r| == PROGRAM_WORDS && i < MAX_MATH_OPS && j < MAX_MATH_OPS && j != i
    requires forall a :: 0 <= a < PROGRAM_WORDS && !(0 <= a - (MATH_BASE + i * MATH_WORDS) < MATH_WORDS) ==> r[a] == w[a]
    ensures MathRight(s, r, j) <==> MathRight(s, w, j)
    ensures MathBlank(r, j) <==> MathBlank(w, j)
  {
  }

  lemma MathStepOver(s: Source, w: seq<u32>, r: seq<u32>, i: nat, c: nat)
    requires Ready(s) && |w| == |r| == PROGRAM_WORDS && i < s.p.mathOps && c <= MAX_CACHE_OPS && OpsRight(s, w, c, i)
    requires forall a :: 0 <= a < PROGRAM_WORDS && !(0 <= a - (MATH_BASE + i * MATH_WORDS) < MATH_WORDS) ==> r[a] == w[a]
    requires MathRight(s, r, i)
    ensures OpsRight(s, r, c, i + 1)
  {
    MathStepElsewhere(s, w, r, i, c);
    forall j | 0 <= j < i ensures MathRight(s, r, j) { MathKept(s, w, r, i, j); }
    forall j | i < j < MAX_MATH_OPS ensures MathBlank(r, j) { MathKept(s, w, r, i, j); }
  }

  lemma MathWrites(s: Source, g: Draft, i: nat)
    requires Ready(s) && |g.word| == PROGRAM_WORDS && i < s.p.mathOps
    requires var read := if i < s.p.cacheOps then 1 else 0;
             g.dsts == Before(s.p, i) + read && g.n == NumbersBefore(s.p, i) + read
    ensures MathRight(s, MathOp(s, g, i).word, i)
    ensures forall a :: 0 <= a < PROGRAM_WORDS && !(0 <= a - (MATH_BASE + i * MATH_WORDS) < MATH_WORDS) ==>
      MathOp(s, g, i).word[a] == g.word[a]
  {
  }

  lemma MathStepElsewhere(s: Source, w: seq<u32>, r: seq<u32>, i: nat, c: nat)
    requires Ready(s) && |w| == |r| == PROGRAM_WORDS && i < s.p.mathOps && c <= MAX_CACHE_OPS && OpsRight(s, w, c, i)
    requires forall a :: 0 <= a < MATH_BASE || DAG_BASE <= a < PROGRAM_WORDS ==> r[a] == w[a]
    ensures forall j :: 0 <= j < c ==> CacheRight(s, r, j)
    ensures forall j :: c <= j < MAX_CACHE_OPS ==> CacheBlank(r, j)
    ensures forall j :: 0 <= j < DAG_LOADS ==> DagBlank(r, j)
  {
    forall j | 0 <= j < c ensures CacheRight(s, r, j) { assert CacheRight(s, w, j); }
    forall j | c <= j < MAX_CACHE_OPS ensures CacheBlank(r, j) { assert CacheBlank(w, j); }
    forall j | 0 <= j < DAG_LOADS ensures DagBlank(r, j) { assert DagBlank(w, j); }
  }

  // After `k` steps.
  predicate StepsRight(s: Source, g: Draft, k: nat)
    requires Ready(s) && |g.word| == PROGRAM_WORDS
  {
    && OpsRight(s, g.word, Least(k, s.p.cacheOps), Least(k, s.p.mathOps))
    && g.dsts == Before(s.p, k) && g.srcs == Least(k, s.p.cacheOps) && g.n == NumbersBefore(s.p, k)
  }

  lemma OneStep(s: Source, g: Draft, k: nat)
    requires Ready(s) && |g.word| == PROGRAM_WORDS && k < Steps(s.p) && StepsRight(s, g, k)
    ensures StepsRight(s, StepOp(s, g, k), k + 1)
  {
    var b := if k < s.p.cacheOps then CacheOp(s, g, k) else g;
    if k < s.p.cacheOps { CacheStep(s, g, k, Least(k, s.p.mathOps)); }
    if k < s.p.mathOps { MathStep(s, b, k, Least(k + 1, s.p.cacheOps)); }
  }

  lemma {:induction false} OpsAreRight(s: Source, k: nat)
    requires Ready(s) && k <= Steps(s.p)
    ensures StepsRight(s, OpsDone(s, Blank(s.p), k), k)
  {
    if k == 0 {
      BlankIsRight(s);
    } else {
      OpsAreRight(s, k - 1);
      OpsStep(s, k);
    }
  }

  lemma OpsStep(s: Source, k: nat)
    requires Ready(s) && 0 < k <= Steps(s.p) && StepsRight(s, OpsDone(s, Blank(s.p), k - 1), k - 1)
    ensures StepsRight(s, OpsDone(s, Blank(s.p), k), k)
  {
    var g := OpsDone(s, Blank(s.p), k - 1);
    OneStep(s, g, k - 1);
    StepBehindIs(s, g, k - 1, k + 9);
    assert OpsDone(s, Blank(s.p), k) == StepOp(s, g, k - 1);
  }

  lemma BlankIsRight(s: Source)
    requires Ready(s)
    ensures StepsRight(s, Blank(s.p), 0)
  {
  }

  // The same of a whole program.
  predicate ProgramRight(s: Source, word: seq<u32>, d: nat)
    requires Ready(s) && |word| == PROGRAM_WORDS && d <= DAG_LOADS
  {
    && (forall i :: 0 <= i < s.p.cacheOps ==> CacheRight(s, word, i))
    && (forall i :: s.p.cacheOps <= i < MAX_CACHE_OPS ==> CacheBlank(word, i))
    && (forall i :: 0 <= i < s.p.mathOps ==> MathRight(s, word, i))
    && (forall i :: s.p.mathOps <= i < MAX_MATH_OPS ==> MathBlank(word, i))
    && (forall i :: 0 <= i < d ==> DagRight(s, word, i))
  }

  lemma DagStep(s: Source, g: Draft, i: nat)
    requires Ready(s) && |g.word| == PROGRAM_WORDS && i < DAG_LOADS && ProgramRight(s, g.word, i)
    requires g.dsts == Before(s.p, Steps(s.p)) + (if i == 0 then 0 else i - 1) && g.n == NumbersBefore(s.p, Steps(s.p)) + i
    ensures ProgramRight(s, DagOp(s, g, i).word, i + 1)
  {
    DagWrites(s, g, i);
    OpsUnread(s, g.word, DagOp(s, g, i).word);
  }

  lemma DagWrites(s: Source, g: Draft, i: nat)
    requires Ready(s) && |g.word| == PROGRAM_WORDS && i < DAG_LOADS
    requires forall j :: 0 <= j < i ==> DagRight(s, g.word, j)
    requires g.dsts == Before(s.p, Steps(s.p)) + (if i == 0 then 0 else i - 1) && g.n == NumbersBefore(s.p, Steps(s.p)) + i
    ensures forall j :: 0 <= j <= i ==> DagRight(s, DagOp(s, g, i).word, j)
    ensures forall a :: 0 <= a < DAG_BASE ==> DagOp(s, g, i).word[a] == g.word[a]
  {
    var r := DagOp(s, g, i);
    forall j | 0 <= j < i ensures DagRight(s, r.word, j) { assert DagRight(s, g.word, j); }
    assert DagRight(s, r.word, i);
  }

  // What stands before the DAG merges is as it was.
  lemma OpsUnread(s: Source, w: seq<u32>, r: seq<u32>)
    requires Ready(s) && |w| == |r| == PROGRAM_WORDS && ProgramRight(s, w, 0)
    requires forall a :: 0 <= a < DAG_BASE ==> r[a] == w[a]
    ensures ProgramRight(s, r, 0)
  {
    forall j | 0 <= j < s.p.cacheOps ensures CacheRight(s, r, j) { assert CacheRight(s, w, j); }
    forall j | s.p.cacheOps <= j < MAX_CACHE_OPS ensures CacheBlank(r, j) { assert CacheBlank(w, j); }
    forall j | 0 <= j < s.p.mathOps ensures MathRight(s, r, j) { assert MathRight(s, w, j); }
    forall j | s.p.mathOps <= j < MAX_MATH_OPS ensures MathBlank(r, j) { assert MathBlank(w, j); }
  }

  lemma {:induction false} DagIsRight(s: Source, g: Draft, k: nat)
    requires Ready(s) && |g.word| == PROGRAM_WORDS && k <= DAG_LOADS
    requires ProgramRight(s, g.word, 0) && g.dsts == Before(s.p, Steps(s.p)) && g.n == NumbersBefore(s.p, Steps(s.p))
    ensures ProgramRight(s, DagDone(s, g, k).word, k)
    ensures DagDone(s, g, k).dsts == g.dsts + (if k == 0 then 0 else k - 1) && DagDone(s, g, k).n == g.n + k
  {
    if k > 0 {
      DagIsRight(s, g, k - 1);
      DagStep(s, DagDone(s, g, k - 1), k - 1);
    }
  }

  lemma ProgramIsRight(s: Source)
    requires Ready(s)
    ensures ProgramRight(s, Program(s), DAG_LOADS)
  {
    OpsAreRight(s, Steps(s.p));
    DagIsRight(s, OpsDone(s, Blank(s.p), Steps(s.p)), DAG_LOADS);
  }

  // --------------------------------------------------- what a program promises

  // names_a_register
  predicate NamesARegister(i: nat) {
    if i < MATH_BASE then (i - CACHE_BASE) % CACHE_WORDS < 2
    else if i < DAG_BASE then
      var field := (i - MATH_BASE) % MATH_WORDS;
      field == 0 || field == 1 || field == 3
    else (i - DAG_BASE) % DAG_WORDS == 0
  }

  // Whatever an interpreter takes for a register is one; a math operation reads
  // two different ones; the first DAG merge goes to register 0; and what the
  // shape does not reach is zero.
  predicate WellFormed(p: Params, word: seq<u32>)
    requires Within(p)
  {
    && |word| == PROGRAM_WORDS
    && (forall i :: 0 <= i < PROGRAM_WORDS && NamesARegister(i) ==> word[i] < p.regs)
    && (forall i :: 0 <= i < p.mathOps ==> SourcesDiffer(word, i))
    && word[DAG_BASE] == 0
    && (forall i :: p.cacheOps <= i < MAX_CACHE_OPS ==> CacheBlank(word, i))
    && (forall i :: p.mathOps <= i < MAX_MATH_OPS ==> MathBlank(word, i))
  }

  predicate SourcesDiffer(word: seq<u32>, i: nat)
    requires |word| == PROGRAM_WORDS && i < MAX_MATH_OPS
  {
    word[MATH_BASE + i * MATH_WORDS] != word[MATH_BASE + i * MATH_WORDS + 1]
  }

  lemma RightIsWellFormed(s: Source, word: seq<u32>)
    requires Ready(s) && |word| == PROGRAM_WORDS && ProgramRight(s, word, DAG_LOADS)
    ensures WellFormed(s.p, word)
  {
    forall i | 0 <= i < PROGRAM_WORDS && NamesARegister(i) ensures word[i] < s.p.regs {
      RegisterWord(s, word, i);
    }
    forall i | 0 <= i < s.p.mathOps ensures SourcesDiffer(word, i) {
      assert MathRight(s, word, i);
    }
    assert DagRight(s, word, 0);
  }

  lemma RegisterWord(s: Source, word: seq<u32>, i: nat)
    requires Ready(s) && |word| == PROGRAM_WORDS && ProgramRight(s, word, DAG_LOADS)
    requires i < PROGRAM_WORDS && NamesARegister(i)
    ensures word[i] < s.p.regs
  {
    if i < MATH_BASE {
      CacheRegister(s, word, i / CACHE_WORDS, i % CACHE_WORDS);
    } else if i < DAG_BASE {
      MathRegister(s, word, (i - MATH_BASE) / MATH_WORDS, (i - MATH_BASE) % MATH_WORDS);
    } else {
      assert DagRight(s, word, (i - DAG_BASE) / DAG_WORDS);
    }
  }

  lemma CacheRegister(s: Source, word: seq<u32>, op: nat, field: nat)
    requires Ready(s) && |word| == PROGRAM_WORDS && ProgramRight(s, word, DAG_LOADS) && op < MAX_CACHE_OPS && field < 2
    ensures word[CACHE_BASE + op * CACHE_WORDS + field] < s.p.regs
  {
    if op < s.p.cacheOps { assert CacheRight(s, word, op); } else { assert CacheBlank(word, op); }
  }

  lemma MathRegister(s: Source, word: seq<u32>, op: nat, field: nat)
    requires Ready(s) && |word| == PROGRAM_WORDS && ProgramRight(s, word, DAG_LOADS) && op < MAX_MATH_OPS
    requires field == 0 || field == 1 || field == 3
    ensures word[MATH_BASE + op * MATH_WORDS + field] < s.p.regs
  {
    if op < s.p.mathOps { assert MathRight(s, word, op); } else { assert MathBlank(word, op); }
  }

  // The destinations of the first `k` steps, in the order they were drawn.
  function StepDestinations(p: Params, word: seq<u32>, k: nat): seq<u32>
    requires Within(p) && |word| == PROGRAM_WORDS && k <= Steps(p)
  {
    if k == 0 then []
    else
      StepDestinations(p, word, k - 1)
        + (if k - 1 < p.cacheOps then [word[CACHE_BASE + (k - 1) * CACHE_WORDS + 1]] else [])
        + (if k - 1 < p.mathOps then [word[MATH_BASE + (k - 1) * MATH_WORDS + 3]] else [])
  }

  // And all of them: three of the four DAG merges draw one.
  function Destinations(p: Params, word: seq<u32>): seq<u32>
    requires Within(p) && |word| == PROGRAM_WORDS
  {
    StepDestinations(p, word, Steps(p)) + [word[DAG_BASE + 2], word[DAG_BASE + 4], word[DAG_BASE + 6]]
  }

  lemma StepDrawn(s: Source, word: seq<u32>, i: nat)
    requires Ready(s) && |word| == PROGRAM_WORDS && i < Steps(s.p) && ProgramRight(s, word, DAG_LOADS)
    ensures i < s.p.cacheOps ==> word[CACHE_BASE + i * CACHE_WORDS + 1] == s.dst[Before(s.p, i) % s.p.regs]
    ensures i < s.p.mathOps ==>
      word[MATH_BASE + i * MATH_WORDS + 3] == s.dst[(Before(s.p, i) + if i < s.p.cacheOps then 1 else 0) % s.p.regs]
  {
    if i < s.p.cacheOps { assert CacheRight(s, word, i); }
    if i < s.p.mathOps { assert MathRight(s, word, i); }
  }

  lemma {:induction false} StepDestinationsDrawn(s: Source, word: seq<u32>, k: nat)
    requires Ready(s) && |word| == PROGRAM_WORDS && k <= Steps(s.p) && ProgramRight(s, word, DAG_LOADS)
    ensures |StepDestinations(s.p, word, k)| == Before(s.p, k)
    ensures forall j :: 0 <= j < Before(s.p, k) ==> StepDestinations(s.p, word, k)[j] == s.dst[j % s.p.regs]
  {
    if k > 0 {
      StepDestinationsDrawn(s, word, k - 1);
      StepDrawn(s, word, k - 1);
    }
  }

  lemma DestinationsDrawn(s: Source, word: seq<u32>)
    requires Ready(s) && |word| == PROGRAM_WORDS && ProgramRight(s, word, DAG_LOADS)
    ensures forall j :: 0 <= j < |Destinations(s.p, word)| ==> Destinations(s.p, word)[j] == s.dst[j % s.p.regs]
  {
    StepDestinationsDrawn(s, word, Steps(s.p));
    assert DagRight(s, word, 1) && DagRight(s, word, 2) && DagRight(s, word, 3);
  }

  // Register `r` is the destination of one draw of `regs` in a row, and of one
  // only.
  predicate HitOnce(list: seq<u32>, from: nat, regs: nat, r: nat)
    requires from + regs <= |list|
  {
    exists k :: from <= k < from + regs && list[k] == r && forall j :: from <= j < from + regs && list[j] == r ==> j == k
  }

  lemma WindowHitsAll(list: seq<u32>, dst: seq<nat>, from: nat, regs: nat, r: nat)
    requires Permutation(dst, regs) && r < regs && from + regs <= |list|
    requires forall j :: 0 <= j < |list| ==> list[j] == dst[j % regs]
    ensures HitOnce(list, from, regs, r)
  {
    assert r in dst;
    var i: nat :| i < regs && dst[i] == r;
    var k := PlaceInWindow(from, regs, i);
    assert list[k] == r;
    forall j | from <= j < from + regs && list[j] == r ensures j == k {
      SamePlace(from, regs, j, k);
    }
  }

  lemma PlaceInWindow(from: nat, regs: nat, i: nat) returns (k: nat)
    requires i < regs
    ensures from <= k < from + regs && k % regs == i
  {
    var q, m := from / regs, from % regs;
    assert from == q * regs + m;
    if i >= m {
      k := q * regs + i;
      Quotient(q, i, regs);
    } else {
      k := (q + 1) * regs + i;
      Quotient(q + 1, i, regs);
    }
  }

  lemma SamePlace(from: nat, regs: nat, j: nat, k: nat)
    requires regs > 0 && from <= j < from + regs && from <= k < from + regs && j % regs == k % regs
    ensures j == k
  {
    assert j == (j / regs) * regs + j % regs && k == (k / regs) * regs + k % regs;
    if j / regs < k / regs { TimesMonotone(j / regs + 1, k / regs, regs); }
    if k / regs < j / regs { TimesMonotone(k / regs + 1, j / regs, regs); }
  }

  function SourceOf(p: Params, stream: nat -> u32): Source {
    Source(p, stream, Orders(p, stream).0, Orders(p, stream).1)
  }

  lemma OrdersPermute(p: Params, stream: nat -> u32)
    requires Within(p)
    ensures Ready(SourceOf(p, stream))
    ensures Permutation(SourceOf(p, stream).dst, p.regs) && Permutation(SourceOf(p, stream).src, p.regs)
  {
    var id := Identity(p.regs);
    forall r | 0 <= r < p.regs ensures r in id {
      assert id[r] == r;
    }
    ShufflePermutes(stream, 0, p.regs, id, id, p.regs);
  }

  // Whatever numbers it is drawn from, a program is well formed, and any `regs`
  // destinations drawn in a row are all the registers.
  lemma EveryProgramIsSound(p: Params, stream: nat -> u32)
    requires Within(p)
    ensures Ready(SourceOf(p, stream))
    ensures var word := Program(SourceOf(p, stream));
            && WellFormed(p, word)
            && forall from, r :: 0 <= from && from + p.regs <= |Destinations(p, word)| && 0 <= r < p.regs ==>
                 HitOnce(Destinations(p, word), from, p.regs, r)
  {
    OrdersPermute(p, stream);
    var s := SourceOf(p, stream);
    var word := Program(s);
    ProgramIsRight(s);
    RightIsWellFormed(s, word);
    DestinationsDrawn(s, word);
    forall from, r | 0 <= from && from + p.regs <= |Destinations(p, word)| && 0 <= r < p.regs
      ensures HitOnce(Destinations(p, word), from, p.regs, r)
    {
      WindowHitsAll(Destinations(p, word), s.dst, from, p.regs, r);
    }
  }

  // ------------------------------------------------------------- build_program

  method Shuffle(rng: Kiss99, dst: array<nat>, src: array<nat>, regs: nat)
    requires rng.Valid() && dst.Length == src.Length == regs && dst != src
    modifies rng, dst, src
    ensures rng.Valid() && rng.drawn == old(rng.drawn) + if regs <= 1 then 0 else 2 * (regs - 1)
    ensures (dst[..], src[..]) == Shuffled(rng.stream, old(rng.drawn), regs, old(dst[..]), old(src[..]))
  {
    var i: nat := regs;
    while i > 1
      invariant i <= regs && rng.Valid() && (regs > 0 ==> i >= 1)
      invariant rng.drawn == old(rng.drawn) + 2 * (regs - i)
      invariant Shuffled(rng.stream, rng.drawn, i, dst[..], src[..])
        == Shuffled(rng.stream, old(rng.drawn), regs, old(dst[..]), old(src[..]))
    {
      ShuffleStep(rng, dst, src, i);
      i := i - 1;
    }
  }

  method ShuffleStep(rng: Kiss99, dst: array<nat>, src: array<nat>, i: nat)
    requires rng.Valid() && dst != src && 1 < i <= dst.Length == src.Length
    modifies rng, dst, src
    ensures rng.Valid() && rng.drawn == old(rng.drawn) + 2
    ensures Shuffled(rng.stream, rng.drawn, i - 1, dst[..], src[..])
      == Shuffled(rng.stream, old(rng.drawn), i, old(dst[..]), old(src[..]))
  {
    var d := rng.Next();
    SwapPlaces(dst, i - 1, d % i);
    var s := rng.Next();
    SwapPlaces(src, i - 1, s % i);
  }

  method SwapPlaces(a: array<nat>, i: nat, j: nat)
    requires i < a.Length && j < a.Length
    modifies a
    ensures a[..] == Swapped(old(a[..]), i, j)
  {
    var t := a[i];
    a[i] := a[j];
    a[j] := t;
  }

  method CacheOperation(rng: Kiss99, out: array<u32>, dstSeq: array<nat>, srcSeq: array<nat>, i: nat, dsts: nat, srcs: nat, ghost s: Source)
    requires rng.Valid() && Ready(s) && s.stream == rng.stream && out.Length == PROGRAM_WORDS && i < MAX_CACHE_OPS
    requires dstSeq[..] == s.dst && srcSeq[..] == s.src
    modifies rng, out
    ensures rng.Valid() && Draft(out[..], rng.drawn, dsts + 1, srcs + 1) == CacheOp(s, Draft(old(out[..]), old(rng.drawn), dsts, srcs), i)
  {
    var src := srcSeq[srcs % srcSeq.Length];
    var dst := dstSeq[dsts % dstSeq.Length];
    var sel := rng.Next();
    var at := CACHE_BASE + i * CACHE_WORDS;
    out[at] := src;
    out[at + 1] := dst;
    out[at + 2] := sel;
  }

  method MathOperation(rng: Kiss99, out: array<u32>, dstSeq: array<nat>, regs: nat, i: nat, dsts: nat, ghost srcs: nat, ghost s: Source)
    requires rng.Valid() && Ready(s) && s.stream == rng.stream && out.Length == PROGRAM_WORDS && i < MAX_MATH_OPS
    requires dstSeq[..] == s.dst && regs == s.p.regs
    modifies rng, out
    ensures rng.Valid() && Draft(out[..], rng.drawn, dsts + 1, srcs) == MathOp(s, Draft(old(out[..]), old(rng.drawn), dsts, srcs), i)
  {
    var drawn := rng.Next();
    var (src1, src2) := MathSources(regs, drawn);
    var sel1 := rng.Next();
    var dst := dstSeq[dsts % dstSeq.Length];
    var sel2 := rng.Next();
    WriteMath(out, MATH_BASE + i * MATH_WORDS, src1, src2, sel1, dst, sel2);
  }

  method WriteMath(out: array<u32>, at: nat, src1: u32, src2: u32, sel1: u32, dst: u32, sel2: u32)
    requires at + 5 <= out.Length
    modifies out
    ensures out[..] == old(out[..])[at := src1][at + 1 := src2][at + 2 := sel1][at + 3 := dst][at + 4 := sel2]
  {
    out[at] := src1;
    out[at + 1] := src2;
    out[at + 2] := sel1;
    out[at + 3] := dst;
    out[at + 4] := sel2;
  }

  method DagMerge(rng: Kiss99, out: array<u32>, dstSeq: array<nat>, i: nat, dsts: nat, ghost srcs: nat, ghost s: Source) returns (drawn: nat)
    requires rng.Valid() && Ready(s) && s.stream == rng.stream && out.Length == PROGRAM_WORDS && i < DAG_LOADS
    requires dstSeq[..] == s.dst
    modifies rng, out
    ensures rng.Valid() && Draft(out[..], rng.drawn, drawn, srcs) == DagOp(s, Draft(old(out[..]), old(rng.drawn), dsts, srcs), i)
  {
    drawn := dsts;
    var dst := 0;
    if i != 0 {
      dst := dstSeq[dsts % dstSeq.Length];
      drawn := drawn + 1;
    }
    var sel := rng.Next();
    out[DAG_BASE + i * DAG_WORDS] := dst;
    out[DAG_BASE + i * DAG_WORDS + 1] := sel;
  }

  // The generator's seed, of the two halves of a period.
  function Seed(lo: bv32, hi: bv32): Kiss {
    var z := Fnv1a(FNV_OFFSET_BASIS, lo);
    var w := Fnv1a(z, hi);
    var jsr := Fnv1a(w, lo);
    Kiss(z, w, jsr, Fnv1a(jsr, hi))
  }

  method BuildProgram(p: Params, lo: bv32, hi: bv32) returns (out: array<u32>)
    requires Within(p)
    ensures fresh(out)
    ensures Ready(SourceOf(p, Stream(Seed(lo, hi)))) && out[..] == Program(SourceOf(p, Stream(Seed(lo, hi))))
    ensures WellFormed(p, out[..])
  {
    var seed := Seed(lo, hi);
    var rng := new Kiss99(seed.z, seed.w, seed.jsr, seed.jcong);
    assert Kiss(seed.z, seed.w, seed.jsr, seed.jcong) == seed;
    EveryProgramIsSound(p, rng.stream);
    out := Draw(p, rng);
  }

  method Draw(p: Params, rng: Kiss99) returns (out: array<u32>)
    requires Within(p) && rng.Valid() && rng.drawn == 0 && Ready(SourceOf(p, rng.stream))
    modifies rng
    ensures fresh(out) && out[..] == Program(SourceOf(p, rng.stream))
  {
    out := new u32[PROGRAM_WORDS](_ => 0);
    var dstSeq := new nat[p.regs](i => i);
    var srcSeq := new nat[p.regs](i => i);
    assert dstSeq[..] == Identity(p.regs) && srcSeq[..] == Identity(p.regs);
    Shuffle(rng, dstSeq, srcSeq, p.regs);
    ghost var s := SourceOf(p, rng.stream);
    assert out[..] == Blank(p).word;
    ghost var srcs;
    var dsts;
    dsts, srcs := DrawOps(p, rng, out, dstSeq, srcSeq, s);
    DrawDag(rng, out, dstSeq, dsts, srcs, s, OpsDone(s, Blank(p), Steps(p)));
  }

  method DrawOps(p: Params, rng: Kiss99, out: array<u32>, dstSeq: array<nat>, srcSeq: array<nat>, ghost s: Source)
    returns (dsts: nat, srcs: nat)
    requires rng.Valid() && Ready(s) && s.p == p && s.stream == rng.stream && out.Length == PROGRAM_WORDS
    requires dstSeq[..] == s.dst && srcSeq[..] == s.src
    requires Draft(out[..], rng.drawn, 0, 0) == Blank(p)
    modifies rng, out
    ensures rng.Valid() && Draft(out[..], rng.drawn, dsts, srcs) == OpsDone(s, Blank(p), Steps(p))
  {
    dsts, srcs := 0, 0;
    var i: nat := 0;
    while i < Steps(p)
      invariant i <= Steps(p) && rng.Valid() && dstSeq[..] == s.dst && srcSeq[..] == s.src
      invariant Draft(out[..], rng.drawn, dsts, srcs) == OpsDone(s, Blank(p), i)
    {
      StepBehindIs(s, Draft(out[..], rng.drawn, dsts, srcs), i, i + 10);
      dsts, srcs := DrawStep(p, rng, out, dstSeq, srcSeq, i, dsts, srcs, s);
      i := i + 1;
    }
  }

  method DrawStep(p: Params, rng: Kiss99, out: array<u32>, dstSeq: array<nat>, srcSeq: array<nat>,
                  i: nat, dstCounter: nat, srcCounter: nat, ghost s: Source)
    returns (dsts: nat, srcs: nat)
    requires rng.Valid() && Ready(s) && s.p == p && s.stream == rng.stream && out.Length == PROGRAM_WORDS && i < Steps(p)
    requires dstSeq[..] == s.dst && srcSeq[..] == s.src
    modifies rng, out
    ensures rng.Valid()
    ensures Draft(out[..], rng.drawn, dsts, srcs)
      == StepOp(s, Draft(old(out[..]), old(rng.drawn), dstCounter, srcCounter), i)
  {
    dsts, srcs := dstCounter, srcCounter;
    if i < p.cacheOps {
      CacheOperation(rng, out, dstSeq, srcSeq, i, dsts, srcs, s);
      dsts, srcs := dsts + 1, srcs + 1;
    }
    if i < p.mathOps {
      MathOperation(rng, out, dstSeq, p.regs, i, dsts, srcs, s);
      dsts := dsts + 1;
    }
  }

  method DrawDag(rng: Kiss99, out: array<u32>, dstSeq: array<nat>, drawn: nat, ghost srcs: nat, ghost s: Source, ghost g: Draft)
    requires rng.Valid() && Ready(s) && s.stream == rng.stream && out.Length == PROGRAM_WORDS && dstSeq[..] == s.dst
    requires Draft(out[..], rng.drawn, drawn, srcs) == g
    modifies rng, out
    ensures out[..] == DagDone(s, g, DAG_LOADS).word
  {
    var dsts := drawn;
    var i: nat := 0;
    while i < DAG_LOADS
      invariant i <= DAG_LOADS && rng.Valid() && dstSeq[..] == s.dst
      invariant Draft(out[..], rng.drawn, dsts, srcs) == DagDone(s, g, i)
    {
      dsts := DagMerge(rng, out, dstSeq, i, dsts, srcs, s);
      i := i + 1;
    }
  }
}
