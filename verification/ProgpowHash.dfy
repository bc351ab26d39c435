// algorithms/progpow/progpow_hash.cpp: the interpreter of a program, sixteen lanes
// in lockstep.

module ProgpowHash {
  import opened Closed
  import opened Wrappers
  import opened ProgpowProgram

  const LINE_WORDS: nat := 64

  type Line = w: seq<u32> | |w| == LINE_WORDS witness seq(LINE_WORDS, _ => 0)

  // The two operations a program selects from. What the lanes have to do with one
  // another does not depend on them.
  datatype Ops = Ops(math: (u32, u32, u32) -> u32, merge: (u32, u32, u32) -> u32)

  // ------------------------------------------------------------- one lane

  predicate Fits(row: seq<u32>, l1: seq<u32>) {
    |row| == MAX_REGS && |l1| == L1_WORDS
  }

  function CacheOn(ops: Ops, p: Params, word: seq<u32>, i: nat, row: seq<u32>, l1: seq<u32>): (r: seq<u32>)
    requires Within(p) && WellFormed(p, word) && i < p.cacheOps && Fits(row, l1)
    ensures |r| == MAX_REGS
  {
    CacheRegisters(p, word, i);
    var at := CACHE_BASE + i * CACHE_WORDS;
    var src, dst, sel := word[at], word[at + 1], word[at + 2];
    row[dst := ops.merge(row[dst], l1[row[src] % L1_WORDS], sel)]
  }

  lemma CacheRegisters(p: Params, word: seq<u32>, i: nat)
    requires Within(p) && WellFormed(p, word) && i < p.cacheOps
    ensures word[CACHE_BASE + i * CACHE_WORDS] < MAX_REGS && word[CACHE_BASE + i * CACHE_WORDS + 1] < MAX_REGS
  {
    assert NamesARegister(CACHE_BASE + i * CACHE_WORDS) && NamesARegister(CACHE_BASE + i * CACHE_WORDS + 1);
  }

  function MathOn(ops: Ops, p: Params, word: seq<u32>, i: nat, row: seq<u32>): (r: seq<u32>)
    requires Within(p) && WellFormed(p, word) && i < p.mathOps && |row| == MAX_REGS
    ensures |r| == MAX_REGS
  {
    MathRegisters(p, word, i);
    var at := MATH_BASE + i * MATH_WORDS;
    var src1, src2, sel1, dst, sel2 := word[at], word[at + 1], word[at + 2], word[at + 3], word[at + 4];
    row[dst := ops.merge(row[dst], ops.math(row[src1], row[src2], sel1), sel2)]
  }

  lemma MathRegisters(p: Params, word: seq<u32>, i: nat)
    requires Within(p) && WellFormed(p, word) && i < p.mathOps
    ensures var at := MATH_BASE + i * MATH_WORDS;
            word[at] < MAX_REGS && word[at + 1] < MAX_REGS && word[at + 3] < MAX_REGS
  {
    var at := MATH_BASE + i * MATH_WORDS;
    assert NamesARegister(at) && NamesARegister(at + 1) && NamesARegister(at + 3);
  }

  function StepOn(ops: Ops, p: Params, word: seq<u32>, i: nat, row: seq<u32>, l1: seq<u32>): (r: seq<u32>)
    requires Within(p) && WellFormed(p, word) && i < Steps(p) && Fits(row, l1)
    ensures |r| == MAX_REGS
  {
    var a := if i < p.cacheOps then CacheOn(ops, p, word, i, row, l1) else row;
    if i < p.mathOps then MathOn(ops, p, word, i, a) else a
  }

  function StepsOn(ops: Ops, p: Params, word: seq<u32>, k: nat, row: seq<u32>, l1: seq<u32>): (r: seq<u32>)
    requires Within(p) && WellFormed(p, word) && k <= Steps(p) && Fits(row, l1)
    ensures |r| == MAX_REGS
  {
    if k == 0 then row else StepOn(ops, p, word, k - 1, StepsOn(ops, p, word, k - 1, row, l1), l1)
  }

  // The first `k` of the lane's four words of the line, from `offset` on.
  function DagOn(ops: Ops, p: Params, word: seq<u32>, k: nat, row: seq<u32>, line: seq<u32>, offset: nat): (r: seq<u32>)
    requires Within(p) && WellFormed(p, word) && k <= DAG_LOADS && |row| == MAX_REGS
    requires |line| == LINE_WORDS && offset + DAG_LOADS <= LINE_WORDS
    ensures |r| == MAX_REGS
  {
    if k == 0 then row
    else
      DagRegister(p, word, k - 1);
      var r := DagOn(ops, p, word, k - 1, row, line, offset);
      var at := DAG_BASE + (k - 1) * DAG_WORDS;
      r[word[at] := ops.merge(r[word[at]], line[offset + (k - 1)], word[at + 1])]
  }

  lemma DagRegister(p: Params, word: seq<u32>, i: nat)
    requires Within(p) && WellFormed(p, word) && i < DAG_LOADS
    ensures word[DAG_BASE + i * DAG_WORDS] < MAX_REGS
  {
    assert NamesARegister(DAG_BASE + i * DAG_WORDS);
  }

  // A whole round of one lane by itself.
  function RoundOn(ops: Ops, p: Params, word: seq<u32>, row: seq<u32>, l1: seq<u32>, line: seq<u32>, offset: nat): (r: seq<u32>)
    requires Within(p) && WellFormed(p, word) && Fits(row, l1)
    requires |line| == LINE_WORDS && offset + DAG_LOADS <= LINE_WORDS
    ensures |r| == MAX_REGS
  {
    DagOn(ops, p, word, DAG_LOADS, StepsOn(ops, p, word, Steps(p), row, l1), line, offset)
  }

  // ------------------------------------------------- who reads which quarter

  function Quarter(l: nat, r: nat): (q: nat)
    requires l < LANES && r < 0x1_0000_0000
    ensures q < LANES
  {
    (((l as bv32) ^ (r as bv32)) % 16) as nat
  }

  lemma XorTwice(l: bv32, r: bv32)
    requires l < 16
    ensures (((l ^ r) % 16) ^ r) % 16 == l
  {
  }

  // Between words and numbers, both ways.
  lemma ThereAndBack(z: bv32)
    requires z < 16
    ensures (z as nat) < 16 && (z as nat) as bv32 == z
  {
  }

  lemma BackAndThere(l: nat)
    requires l < 16
    ensures (l as bv32) < 16 && (l as bv32) as nat == l
  {
  }

  lemma QuarterTwice(l: nat, r: nat)
    requires l < LANES && r < 0x1_0000_0000
    ensures Quarter(Quarter(l, r), r) == l
  {
    var x, y := l as bv32, r as bv32;
    var z := (x ^ y) % 16;
    XorTwice(x, y);
    ThereAndBack(z);
    BackAndThere(l);
  }

  // Lane `l` takes word `w` of the line as the i-th of its four.
  predicate ReadsWord(l: nat, r: nat, i: nat, w: nat)
    requires r < 0x1_0000_0000
  {
    l < LANES && i < DAG_LOADS && Quarter(l, r) * DAG_LOADS + i == w
  }

  lemma SomeReader(r: nat, w: nat) returns (l: nat, i: nat)
    requires r < 0x1_0000_0000 && w < LINE_WORDS
    ensures ReadsWord(l, r, i, w)
  {
    var q: nat := w / DAG_LOADS;
    l, i := Quarter(q, r), w % DAG_LOADS;
    QuarterTwice(q, r);
  }

  lemma OneReader(r: nat, w: nat, l: nat, i: nat, m: nat, j: nat)
    requires r < 0x1_0000_0000 && ReadsWord(l, r, i, w) && ReadsWord(m, r, j, w)
    ensures l == m && i == j
  {
    var q, p := Quarter(l, r), Quarter(m, r);
    assert q * DAG_LOADS + i == p * DAG_LOADS + j;
    assert q == p;
    QuarterTwice(l, r);
    QuarterTwice(m, r);
  }

  // Each of the 64 words of a line is read by exactly one lane, once.
  lemma EachWordOnce(r: nat, w: nat)
    requires r < 0x1_0000_0000 && w < LINE_WORDS
    ensures exists l: nat, i: nat :: ReadsWord(l, r, i, w)
    ensures forall l: nat, i: nat, m: nat, j: nat :: ReadsWord(l, r, i, w) && ReadsWord(m, r, j, w) ==> l == m && i == j
  {
    var l, i := SomeReader(r, w);
    forall l: nat, i: nat, m: nat, j: nat | ReadsWord(l, r, i, w) && ReadsWord(m, r, j, w) ensures l == m && i == j {
      OneReader(r, w, l, i, m, j);
    }
  }

  // ---------------------------------------------------------- all lanes at once

  function Row(mix: array2<u32>, l: nat): (r: seq<u32>)
    requires mix.Length1 == MAX_REGS && l < mix.Length0
    reads mix
    ensures |r| == MAX_REGS
  {
    seq(MAX_REGS, j requires 0 <= j < MAX_REGS reads mix => mix[l, j])
  }

  function Rows(mix: array2<u32>): (r: seq<seq<u32>>)
    requires mix.Length0 == LANES && mix.Length1 == MAX_REGS
    reads mix
    ensures |r| == LANES && forall l :: 0 <= l < LANES ==> |r[l]| == MAX_REGS
  {
    seq(LANES, l requires 0 <= l < LANES reads mix => Row(mix, l))
  }

  // random_merge on one register of one lane.
  method Merge(ops: Ops, mix: array2<u32>, l: nat, dst: nat, data: u32, sel: u32)
    requires mix.Length0 == LANES && mix.Length1 == MAX_REGS && l < LANES && dst < MAX_REGS
    modifies mix
    ensures var row: seq<u32> := old(Rows(mix)[l]);
            Rows(mix) == old(Rows(mix))[l := row[dst := ops.merge(row[dst], data, sel)]]
  {
    ghost var before := Rows(mix);
    mix[l, dst] := ops.merge(mix[l, dst], data, sel);
    ghost var after := before[l := before[l][dst := ops.merge(before[l][dst], data, sel)]];
    forall k | 0 <= k < LANES ensures Rows(mix)[k] == after[k] {
      assert forall j :: 0 <= j < MAX_REGS ==> Rows(mix)[k][j] == after[k][j];
    }
  }

  // One cache read, by every lane.
  method CacheLanes(ops: Ops, p: Params, word: seq<u32>, i: nat, mix: array2<u32>, l1: seq<u32>)
    requires Within(p) && WellFormed(p, word) && i < p.cacheOps && |l1| == L1_WORDS
    requires mix.Length0 == LANES && mix.Length1 == MAX_REGS
    modifies mix
    ensures forall l :: 0 <= l < LANES ==> Rows(mix)[l] == CacheOn(ops, p, word, i, old(Rows(mix)[l]), l1)
  {
    CacheRegisters(p, word, i);
    var at := CACHE_BASE + i * CACHE_WORDS;
    var src, dst, sel := word[at], word[at + 1], word[at + 2];
    ghost var before := Rows(mix);
    var l := 0;
    while l < LANES
      invariant l <= LANES
      invariant forall k :: 0 <= k < l ==> Rows(mix)[k] == CacheOn(ops, p, word, i, before[k], l1)
      invariant forall k :: l <= k < LANES ==> Rows(mix)[k] == before[k]
    {
      assert Rows(mix)[l][src] == mix[l, src];
      Merge(ops, mix, l, dst, l1[mix[l, src] % L1_WORDS], sel);
      l := l + 1;
    }
  }

  // One math operation, by every lane.
  method MathLanes(ops: Ops, p: Params, word: seq<u32>, i: nat, mix: array2<u32>)
    requires Within(p) && WellFormed(p, word) && i < p.mathOps
    requires mix.Length0 == LANES && mix.Length1 == MAX_REGS
    modifies mix
    ensures forall l :: 0 <= l < LANES ==> Rows(mix)[l] == MathOn(ops, p, word, i, old(Rows(mix)[l]))
  {
    MathRegisters(p, word, i);
    var at := MATH_BASE + i * MATH_WORDS;
    var src1, src2, sel1, dst, sel2 := word[at], word[at + 1], word[at + 2], word[at + 3], word[at + 4];
    ghost var before := Rows(mix);
    var l := 0;
    while l < LANES
      invariant l <= LANES
      invariant forall k :: 0 <= k < l ==> Rows(mix)[k] == MathOn(ops, p, word, i, before[k])
      invariant forall k :: l <= k < LANES ==> Rows(mix)[k] == before[k]
    {
      assert Rows(mix)[l][src1] == mix[l, src1] && Rows(mix)[l][src2] == mix[l, src2];
      var data := ops.math(mix[l, src1], mix[l, src2], sel1);
      Merge(ops, mix, l, dst, data, sel2);
      l := l + 1;
    }
  }

  // The lane's four words of the line.
  method DagLane(ops: Ops, p: Params, word: seq<u32>, l: nat, offset: nat, mix: array2<u32>, line: seq<u32>)
    requires Within(p) && WellFormed(p, word) && l < LANES
    requires |line| == LINE_WORDS && offset + DAG_LOADS <= LINE_WORDS
    requires mix.Length0 == LANES && mix.Length1 == MAX_REGS
    modifies mix
    ensures Rows(mix) == old(Rows(mix))[l := DagOn(ops, p, word, DAG_LOADS, old(Rows(mix)[l]), line, offset)]
  {
    ghost var before := Rows(mix);
    var i := 0;
    while i < DAG_LOADS
      invariant i <= DAG_LOADS
      invariant Rows(mix) == before[l := DagOn(ops, p, word, i, before[l], line, offset)]
    {
      DagRegister(p, word, i);
      var at := DAG_BASE + i * DAG_WORDS;
      Merge(ops, mix, l, word[at], line[offset + i], word[at + 1]);
      i := i + 1;
    }
  }

  method DagLanes(ops: Ops, p: Params, word: seq<u32>, r: nat, mix: array2<u32>, line: seq<u32>)
    requires Within(p) && WellFormed(p, word) && |line| == LINE_WORDS && r < 0x1_0000_0000
    requires mix.Length0 == LANES && mix.Length1 == MAX_REGS
    modifies mix
    ensures forall l :: 0 <= l < LANES ==>
      Rows(mix)[l] == DagOn(ops, p, word, DAG_LOADS, old(Rows(mix)[l]), line, Quarter(l, r) * DAG_LOADS)
  {
    ghost var before := Rows(mix);
    var l := 0;
    while l < LANES
      invariant l <= LANES
      invariant forall k :: 0 <= k < l ==>
        Rows(mix)[k] == DagOn(ops, p, word, DAG_LOADS, before[k], line, Quarter(k, r) * DAG_LOADS)
      invariant forall k :: l <= k < LANES ==> Rows(mix)[k] == before[k]
    {
      DagLane(ops, p, word, l, Quarter(l, r) * DAG_LOADS, mix, line);
      l := l + 1;
    }
  }

  // run_round: operation by operation across the lanes, which is what each lane
  // comes to by itself.
  method RunRound(ops: Ops, p: Params, word: seq<u32>, r: nat, mix: array2<u32>, line: seq<u32>, l1: seq<u32>)
    requires Within(p) && WellFormed(p, word) && |line| == LINE_WORDS && |l1| == L1_WORDS && r < 0x1_0000_0000
    requires mix.Length0 == LANES && mix.Length1 == MAX_REGS
    modifies mix
    ensures forall l :: 0 <= l < LANES ==>
      Rows(mix)[l] == RoundOn(ops, p, word, old(Rows(mix)[l]), l1, line, Quarter(l, r) * DAG_LOADS)
  {
    ghost var before := Rows(mix);
    var i := 0;
    while i < Steps(p)
      invariant i <= Steps(p)
      invariant forall l :: 0 <= l < LANES ==> Rows(mix)[l] == StepsOn(ops, p, word, i, before[l], l1)
    {
      if i < p.cacheOps {
        CacheLanes(ops, p, word, i, mix, l1);
      }
      if i < p.mathOps {
        MathLanes(ops, p, word, i, mix);
      }
      i := i + 1;
    }
    DagLanes(ops, p, word, r, mix, line);
  }

  // -------------------------------------------------------------- all rounds

  // What lane `l` comes to by itself in `k` rounds that fetched `lines`.
  function Alone(ops: Ops, p: Params, word: seq<u32>, l: nat, row: seq<u32>, l1: seq<u32>, lines: seq<Line>, k: nat): (r: seq<u32>)
    requires Within(p) && WellFormed(p, word) && Fits(row, l1) && l < LANES && k <= |lines| < 0x1_0000_0000
    ensures |r| == MAX_REGS
  {
    if k == 0 then row
    else RoundOn(ops, p, word, Alone(ops, p, word, l, row, l1, lines, k - 1), l1, lines[k - 1], Quarter(l, k - 1) * DAG_LOADS)
  }

  lemma {:induction false} AlonePrefix(ops: Ops, p: Params, word: seq<u32>, l: nat, row: seq<u32>, l1: seq<u32>,
                                       lines: seq<Line>, line: Line, k: nat)
    requires Within(p) && WellFormed(p, word) && Fits(row, l1) && l < LANES && k <= |lines| < 0xFFFF_FFFF
    ensures Alone(ops, p, word, l, row, l1, lines + [line], k) == Alone(ops, p, word, l, row, l1, lines, k)
  {
    if k > 0 { AlonePrefix(ops, p, word, l, row, l1, lines, line, k - 1); }
  }

  // The lines of the first `k` rounds: register 0 of one lane says which, and each has to
  // be had.
  function Fetched(ops: Ops, p: Params, word: seq<u32>, rows: seq<seq<u32>>, l1: seq<u32>,
                   dagLines: nat, dag: nat -> Option<Line>, k: nat): (lines: Option<seq<Line>>)
    requires Within(p) && WellFormed(p, word) && |l1| == L1_WORDS && dagLines > 0 && k < 0xFFFF_FFFF
    requires |rows| == LANES && forall l :: 0 <= l < LANES ==> |rows[l]| == MAX_REGS
    ensures lines.Some? ==> |lines.value| == k
  {
    if k == 0 then Some([])
    else
      var before := Fetched(ops, p, word, rows, l1, dagLines, dag, k - 1);
      if before.None? then None
      else
        var l := (k - 1) % LANES;
        var line := dag(Alone(ops, p, word, l, rows[l], l1, before.value, k - 1)[0] % dagLines);
        if line.None? then None else Some(before.value + [line.value])
  }

  // The lanes are where each gets by itself in the rounds that fetched `lines`.
  predicate Stands(ops: Ops, p: Params, word: seq<u32>, rows: seq<seq<u32>>, start: seq<seq<u32>>, l1: seq<u32>, lines: seq<Line>)
    requires Within(p) && WellFormed(p, word) && |l1| == L1_WORDS && |lines| < 0xFFFF_FFFF
    requires |rows| == |start| == LANES && forall l :: 0 <= l < LANES ==> |start[l]| == MAX_REGS
  {
    forall l :: 0 <= l < LANES ==> rows[l] == Alone(ops, p, word, l, start[l], l1, lines, |lines|)
  }

  method OneRound(ops: Ops, p: Params, word: seq<u32>, r: nat, mix: array2<u32>, l1: seq<u32>, line: Line,
                  ghost start: seq<seq<u32>>, ghost lines: seq<Line>)
    requires Within(p) && WellFormed(p, word) && |l1| == L1_WORDS && r == |lines| < 0xFFFF_FFFE
    requires mix.Length0 == LANES && mix.Length1 == MAX_REGS
    requires |start| == LANES && forall l :: 0 <= l < LANES ==> |start[l]| == MAX_REGS
    requires Stands(ops, p, word, Rows(mix), start, l1, lines)
    modifies mix
    ensures Stands(ops, p, word, Rows(mix), start, l1, lines + [line])
  {
    NextRound(ops, p, word, start, l1, lines, line);
    RunRound(ops, p, word, r, mix, line, l1);
  }

  lemma NextFetched(ops: Ops, p: Params, word: seq<u32>, rows: seq<seq<u32>>, start: seq<seq<u32>>, l1: seq<u32>,
                    lines: seq<Line>, dagLines: nat, dag: nat -> Option<Line>, index: nat)
    requires Within(p) && WellFormed(p, word) && |l1| == L1_WORDS && dagLines > 0 && |lines| < 0xFFFF_FFFE
    requires |rows| == |start| == LANES && forall l :: 0 <= l < LANES ==> |start[l]| == MAX_REGS
    requires Stands(ops, p, word, rows, start, l1, lines)
    requires Fetched(ops, p, word, start, l1, dagLines, dag, |lines|) == Some(lines)
    requires |rows[|lines| % LANES]| > 0 && index == rows[|lines| % LANES][0] % dagLines
    ensures Fetched(ops, p, word, start, l1, dagLines, dag, |lines| + 1)
      == if dag(index).None? then None else Some(lines + [dag(index).value])
  {
  }

  // After so many rounds as there are lines, closed.
  ghost predicate Reached(ops: Ops, p: Params, word: seq<u32>, rows: seq<seq<u32>>, start: seq<seq<u32>>, l1: seq<u32>,
                          lines: seq<Line>, dagLines: nat, dag: nat -> Option<Line>)
    requires Within(p) && WellFormed(p, word) && |l1| == L1_WORDS && |lines| < 0xFFFF_FFFF && dagLines > 0
    requires |rows| == |start| == LANES && forall l :: 0 <= l < LANES ==> |start[l]| == MAX_REGS
  {
    forall u: int {:trigger Opened(0, u)} :: Opened(0, u) ==>
      && Stands(ops, p, word, rows, start, l1, lines)
      && Fetched(ops, p, word, start, l1, dagLines, dag, |lines|) == Some(lines)
  }

  // A round, if there is a line for it.
  method FetchAndRun(ops: Ops, p: Params, word: seq<u32>, r: nat, mix: array2<u32>, l1: seq<u32>,
                     dagLines: nat, dag: nat -> Option<Line>, ghost start: seq<seq<u32>>, ghost lines: seq<Line>)
    returns (ok: bool, ghost more: seq<Line>)
    requires Within(p) && WellFormed(p, word) && |l1| == L1_WORDS && r == |lines| < 0xFFFF_FFFE && dagLines > 0
    requires mix.Length0 == LANES && mix.Length1 == MAX_REGS
    requires |start| == LANES && forall l :: 0 <= l < LANES ==> |start[l]| == MAX_REGS
    requires Reached(ops, p, word, Rows(mix), start, l1, lines, dagLines, dag)
    modifies mix
    ensures ok ==> |more| == r + 1 && Reached(ops, p, word, Rows(mix), start, l1, more, dagLines, dag)
    ensures !ok ==> Fetched(ops, p, word, start, l1, dagLines, dag, r + 1) == None
  {
    assert Opened(0, 0);
    assert Rows(mix)[r % LANES][0] == mix[r % LANES, 0];
    var index: nat := mix[r % LANES, 0] % dagLines;
    var line := dag(index);
    NextFetched(ops, p, word, Rows(mix), start, l1, lines, dagLines, dag, index);
    more := lines;
    if line.None? {
      return false, more;
    }
    more := lines + [line.value];
    OneRound(ops, p, word, r, mix, l1, line.value, start, lines);
    ok := true;
  }

  // The rounds of hash. Each lane ends where its own program takes it from its own
  // registers and the lines; nothing else passes between lanes but which lines.
  method Rounds(ops: Ops, p: Params, word: seq<u32>, rounds: nat, mix: array2<u32>, l1: seq<u32>,
                dagLines: nat, dag: nat -> Option<Line>)
    returns (ok: bool, ghost lines: seq<Line>)
    requires Within(p) && WellFormed(p, word) && |l1| == L1_WORDS && rounds < 0xFFFF_FFFF && dagLines > 0
    requires mix.Length0 == LANES && mix.Length1 == MAX_REGS
    modifies mix
    ensures !ok ==> Fetched(ops, p, word, old(Rows(mix)), l1, dagLines, dag, rounds) == None
    ensures ok ==> Fetched(ops, p, word, old(Rows(mix)), l1, dagLines, dag, rounds) == Some(lines)
    ensures ok ==> |lines| == rounds && Stands(ops, p, word, Rows(mix), old(Rows(mix)), l1, lines)
  {
    ghost var start := Rows(mix);
    lines := [];
    ReachedNone(ops, p, word, start, l1, dagLines, dag);
    var r: nat := 0;
    while r < rounds
      invariant r == |lines| <= rounds
      invariant Reached(ops, p, word, Rows(mix), start, l1, lines, dagLines, dag)
    {
      ok, lines := FetchAndRun(ops, p, word, r, mix, l1, dagLines, dag, start, lines);
      r := r + 1;
      if !ok {
        NoneAfter(ops, p, word, start, l1, dagLines, dag, r, rounds);
        return;
      }
    }
    ok := true;
    ReachedAll(ops, p, word, Rows(mix), start, l1, lines, dagLines, dag, rounds);
  }

  lemma ReachedNone(ops: Ops, p: Params, word: seq<u32>, start: seq<seq<u32>>, l1: seq<u32>, dagLines: nat, dag: nat -> Option<Line>)
    requires Within(p) && WellFormed(p, word) && |l1| == L1_WORDS && dagLines > 0
    requires |start| == LANES && forall l :: 0 <= l < LANES ==> |start[l]| == MAX_REGS
    ensures Reached(ops, p, word, start, start, l1, [], dagLines, dag)
  {
  }

  lemma ReachedAll(ops: Ops, p: Params, word: seq<u32>, rows: seq<seq<u32>>, start: seq<seq<u32>>, l1: seq<u32>,
                   lines: seq<Line>, dagLines: nat, dag: nat -> Option<Line>, rounds: nat)
    requires Within(p) && WellFormed(p, word) && |l1| == L1_WORDS && |lines| == rounds < 0xFFFF_FFFF && dagLines > 0
    requires |rows| == |start| == LANES && forall l :: 0 <= l < LANES ==> |start[l]| == MAX_REGS
    requires Reached(ops, p, word, rows, start, l1, lines, dagLines, dag)
    ensures Stands(ops, p, word, rows, start, l1, lines)
    ensures Fetched(ops, p, word, start, l1, dagLines, dag, rounds) == Some(lines)
  {
    assert Opened(0, 0);
  }

  lemma {:induction false} NoneAfter(ops: Ops, p: Params, word: seq<u32>, rows: seq<seq<u32>>, l1: seq<u32>,
                                     dagLines: nat, dag: nat -> Option<Line>, k: nat, n: nat)
    requires Within(p) && WellFormed(p, word) && |l1| == L1_WORDS && dagLines > 0 && k <= n < 0xFFFF_FFFF
    requires |rows| == LANES && forall l :: 0 <= l < LANES ==> |rows[l]| == MAX_REGS
    requires Fetched(ops, p, word, rows, l1, dagLines, dag, k) == None
    ensures Fetched(ops, p, word, rows, l1, dagLines, dag, n) == None
    decreases n
  {
    if k < n { NoneAfter(ops, p, word, rows, l1, dagLines, dag, k, n - 1); }
  }

  lemma NextRound(ops: Ops, p: Params, word: seq<u32>, start: seq<seq<u32>>, l1: seq<u32>, lines: seq<Line>, line: Line)
    requires Within(p) && WellFormed(p, word) && |l1| == L1_WORDS && |lines| < 0xFFFF_FFFE
    requires |start| == LANES && forall l :: 0 <= l < LANES ==> |start[l]| == MAX_REGS
    ensures forall l :: 0 <= l < LANES ==>
      Alone(ops, p, word, l, start[l], l1, lines + [line], |lines| + 1)
        == RoundOn(ops, p, word, Alone(ops, p, word, l, start[l], l1, lines, |lines|), l1, line, Quarter(l, |lines|) * DAG_LOADS)
  {
    forall l | 0 <= l < LANES
      ensures Alone(ops, p, word, l, start[l], l1, lines + [line], |lines| + 1)
        == RoundOn(ops, p, word, Alone(ops, p, word, l, start[l], l1, lines, |lines|), l1, line, Quarter(l, |lines|) * DAG_LOADS)
    {
      AlonePrefix(ops, p, word, l, start[l], l1, lines, line, |lines|);
    }
  }
}
