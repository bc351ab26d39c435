// What SharedState::plan of backends/vulkan/shared_state.cpp promises about a piece, told
// by the limits of the device and what the kernel declares, and how the slices of the
// setup pass follow the clock.

module TableLaws {
  import opened Arithmetic
  import opened SharedTable
  import opened Wrappers
  import K = KernelLaws
  import W = Words

  // A limit of 0 is none.
  predicate Allows(limit: nat, n: nat) {
    limit != 0 ==> n <= limit
  }

  // A piece of this size can be allocated, bound to a shader whole, and is no larger
  // than the kernel asks for.
  predicate Holdable(info: Limits, spec: Spec, chunk: nat) {
    Allows(info.maxAllocation, chunk) && Allows(info.maxBindingRange, chunk) && Allows(spec.chunkBytes, chunk)
  }

  // A table in `count` pieces of `chunk` bytes, the last of them perhaps shorter, that a
  // shader can read: whole quads of 16 bytes, in as many bindings as it declares and no
  // more than 16, and a power of two unless it is one piece.
  ghost predicate Suits(info: Limits, spec: Spec, bytes: nat, chunk: nat, count: nat) {
    && 0 < chunk <= bytes && Holdable(info, spec, chunk)
    && bytes % 16 == 0 && chunk % 16 == 0 && (chunk == bytes || W.IsPow2(chunk))
    && (count - 1) * chunk < bytes <= count * chunk
    && count <= (if spec.chunks == 0 then 1 else spec.chunks) <= 16
  }

  lemma CeilIs(bytes: nat, chunk: nat, count: nat)
    requires 0 < chunk <= bytes && count == CeilDiv(bytes, chunk)
    ensures 0 < count && (count - 1) * chunk < bytes <= count * chunk
  {
    Split(bytes + chunk - 1, chunk);
    assert (count - 1) * chunk == count * chunk - chunk;
    if count == 0 { Quotient(0, 0, chunk); }
  }

  // No more pieces of a larger size.
  lemma FewerPieces(bytes: nat, a: nat, m: nat, b: nat, n: nat)
    requires 0 < a <= b && (m - 1) * a < bytes <= m * a && (n - 1) * b < bytes <= n * b && m > 0 && n > 0
    ensures n <= m
  {
    if m < n {
      TimesMonotone(m, n - 1, b);
      TimesMonotone(a, b, m);
    }
  }

  // The size the pieces would have, from the limits alone.
  lemma {:induction false} ChunkIs(info: Limits, spec: Spec, bytes: nat, chunk: nat)
    requires bytes > 0 && chunk == ChunkOf(info, spec, bytes)
    ensures 0 < chunk <= bytes && Holdable(info, spec, chunk) && (chunk == bytes || W.IsPow2(chunk))
    ensures chunk < bytes ==> !Holdable(info, spec, 2 * chunk)
  {
    var most := AtMost(AtMost(bytes, info.maxAllocation), info.maxBindingRange);
    var wanted := AtMost(AtMost(bytes, spec.chunkBytes), most);
    if wanted < bytes { assert chunk == Pow2(FloorLog2(wanted)); }
  }

  // Any other size that suits is no larger.
  lemma ChunkIsLargest(info: Limits, spec: Spec, bytes: nat, chunk: nat, other: nat, count: nat)
    requires bytes > 0 && chunk == ChunkOf(info, spec, bytes) && Suits(info, spec, bytes, other, count)
    ensures other <= chunk && chunk % 16 == 0
  {
    ChunkIs(info, spec, bytes, chunk);
    if chunk < bytes {
      Outgrown(info, spec, bytes, chunk);
      LargestPower(info, spec, chunk, other);
    }
  }

  lemma LargestPower(info: Limits, spec: Spec, chunk: nat, other: nat)
    requires W.IsPow2(chunk) && W.IsPow2(other) && other % 16 == 0
    requires Holdable(info, spec, other) && !Holdable(info, spec, 2 * chunk)
    ensures other <= chunk && chunk % 16 == 0
  {
    var j: nat :| chunk == Pow2(j);
    var k: nat :| other == Pow2(k);
    if k > j { Pow2Monotone(j + 1, k); } else { Pow2Monotone(k, j); }
    SixteenDivides(k, j);
  }

  // Where one piece will not do, the limits are below the table.
  lemma Outgrown(info: Limits, spec: Spec, bytes: nat, chunk: nat)
    requires bytes > 0 && chunk == ChunkOf(info, spec, bytes) < bytes
    ensures !Holdable(info, spec, bytes)
  {
  }

  lemma SixteenDivides(k: nat, j: nat)
    requires Pow2(k) % 16 == 0 && Pow2(k) <= Pow2(j)
    ensures Pow2(j) % 16 == 0
  {
    assert Pow2(4) == 16;
    if k < 4 {
      Pow2Monotone(k, 3);
      Quotient(0, Pow2(k), 16);
    } else if j < 4 {
      Pow2Monotone(j + 1, k);
    } else {
      Pow2Divides(4, j);
    }
  }

  // Every plan is one the device and the shader can take, in the largest pieces there
  // are: twice as large, below the table itself, they would exceed a limit.
  lemma PlanSuits(info: Limits, spec: Spec, bytes: nat, plan: Plan)
    requires Planned(info, spec, bytes) == Some(plan)
    ensures Suits(info, spec, bytes, plan.chunk, plan.count)
    ensures plan.chunk < bytes ==> !Holdable(info, spec, 2 * plan.chunk)
  {
    ChunkIs(info, spec, bytes, plan.chunk);
    CeilIs(bytes, plan.chunk, plan.count);
  }

  // No other pieces are larger or fewer, and a plan is refused only where there are none.
  lemma PlanIsBest(info: Limits, spec: Spec, bytes: nat, chunk: nat, count: nat)
    requires Suits(info, spec, bytes, chunk, count)
    ensures var plan := Planned(info, spec, bytes); plan.Some? && chunk <= plan.value.chunk && plan.value.count <= count
  {
    var c := ChunkOf(info, spec, bytes);
    ChunkIs(info, spec, bytes, c);
    ChunkIsLargest(info, spec, bytes, c, chunk, count);
    CeilIs(bytes, c, CeilDiv(bytes, c));
    FewerPieces(bytes, chunk, count, c, CeilDiv(bytes, c));
  }

  lemma PlannedIff(info: Limits, spec: Spec, bytes: nat)
    ensures Planned(info, spec, bytes).Some? <==> exists chunk, count :: Suits(info, spec, bytes, chunk, count)
  {
    if Planned(info, spec, bytes).Some? {
      var plan := Planned(info, spec, bytes).value;
      PlanSuits(info, spec, bytes, plan);
    }
    if chunk, count :| Suits(info, spec, bytes, chunk, count) {
      PlanIsBest(info, spec, bytes, chunk, count);
    }
  }

  // --------------------------------------------------------------- the slices

  // A slice that took more than a quarter of a second is followed by none larger, one
  // that took less by none smaller, up to four times or 2^20 items; one too fast for the
  // clock by the largest step; and in between by what would have taken just that long.
  lemma NextSliceAims(slice: nat, seconds: real, n: nat)
    requires 1 <= slice <= 0x10_0000 && n == NextSlice(slice, seconds)
    ensures seconds >= 0.25 ==> n <= slice
    ensures seconds <= 0.25 ==> n >= slice
    ensures seconds < 0.0625 ==> n == 4 * slice || n == 0x10_0000
    ensures seconds >= 0.0625 && n < 0x10_0000 ==> slice as real * 0.25 < (n + 1) as real * seconds
    ensures seconds >= 0.0625 && n > 1 ==> n as real * seconds <= slice as real * 0.25
    ensures n <= 4 * slice
  {
    var s := slice as real;
    if seconds > 0.0 {
      var q := 0.25 / seconds;
      Quarters(s, seconds, q);
      var aimed := s * q;
      Aimed(s, seconds, q, aimed);
      var want := if aimed > 4.0 * s then 4.0 * s else if aimed < 1.0 then 1.0 else aimed;
      assert n == if want > 1048576.0 then 0x10_0000 else want.Floor;
      Rounded(slice, seconds, aimed, want, n);
    }
  }

  lemma Quarters(s: real, seconds: real, q: real)
    requires s >= 0.0 && seconds > 0.0 && q == 0.25 / seconds
    ensures q * seconds == 0.25 && s * q * seconds == s * 0.25
  {
    assert s * q * seconds == s * (q * seconds);
  }

  lemma Aimed(s: real, seconds: real, q: real, aimed: real)
    requires s >= 1.0 && seconds > 0.0 && q > 0.0 && q * seconds == 0.25 && aimed == s * q
    ensures seconds >= 0.25 ==> aimed <= s
    ensures seconds <= 0.25 ==> aimed >= s
    ensures seconds < 0.0625 <==> aimed > 4.0 * s
    ensures aimed > 0.0 && aimed * seconds == s * 0.25
  {
    assert aimed * seconds == s * (q * seconds);
    if seconds >= 0.25 { K.Grows(0.25, seconds, s * q); }
    assert (aimed - s) * seconds == s * (0.25 - seconds);
    assert (aimed - 4.0 * s) * seconds == 4.0 * s * (0.0625 - seconds);
    Signs(aimed - s, seconds, s, 0.25 - seconds);
    Signs(aimed - 4.0 * s, seconds, 4.0 * s, 0.0625 - seconds);
  }

  lemma Signs(a: real, x: real, b: real, y: real)
    requires x > 0.0 && b > 0.0 && a * x == b * y
    ensures (a > 0.0 <==> y > 0.0) && (a >= 0.0 <==> y >= 0.0)
  {
    if y > 0.0 && a <= 0.0 { K.Grows(a, 0.0, x); K.Grows(0.0, y, b); }
    if y <= 0.0 && a > 0.0 { K.Grows(0.0, a, x); K.Grows(y, 0.0, b); }
    if y >= 0.0 && a < 0.0 { K.Grows(a, 0.0, x); K.Grows(0.0, y, b); }
    if y < 0.0 && a >= 0.0 { K.Grows(0.0, a, x); K.Grows(y, 0.0, b); }
  }

  lemma Rounded(slice: nat, seconds: real, aimed: real, want: real, n: nat)
    requires 1 <= slice <= 0x10_0000 && seconds > 0.0 && aimed > 0.0 && aimed * seconds == slice as real * 0.25
    requires want == if aimed > 4.0 * slice as real then 4.0 * slice as real else if aimed < 1.0 then 1.0 else aimed
    requires n == if want > 1048576.0 then 0x10_0000 else want.Floor
    ensures aimed <= slice as real ==> n <= slice
    ensures aimed >= slice as real ==> n >= slice
    ensures aimed > 4.0 * slice as real ==> n == 4 * slice || n == 0x10_0000
    ensures aimed <= 4.0 * slice as real && n < 0x10_0000 ==> slice as real * 0.25 < (n + 1) as real * seconds
    ensures aimed <= 4.0 * slice as real && n > 1 ==> n as real * seconds <= slice as real * 0.25
    ensures n <= 4 * slice
  {
    assert (4 * slice) as real == 4.0 * slice as real;
    if aimed < (n + 1) as real { Over(aimed, (n + 1) as real, seconds, slice as real * 0.25); }
    if n as real <= aimed { K.Grows(n as real, aimed, seconds); }
  }

  lemma Over(x: real, y: real, n: real, product: real)
    requires n > 0.0 && x < y && x * n == product
    ensures product < y * n
  {
    assert (y - x) * n > 0.0;
    assert (y - x) * n == y * n - x * n;
  }
}
