// What a caller of backends/vulkan/vulkan_kernel.cpp sees: which dispatches are sent, and
// what the controller does to the size of a batch, told by the time a dispatch took and
// by the limits.

module KernelLaws {
  import opened Kernel

  lemma Fractions(batch: real, seconds: real, q: real)
    requires batch >= 0.0 && seconds > 0.0 && q == 0.05 / seconds
    ensures q * seconds == 0.05 && batch * q * seconds == batch * 0.05
    ensures q >= 1.0 <==> seconds <= 0.05
    ensures q > 4.0 <==> seconds < 0.0125
    ensures q < 0.25 <==> seconds > 0.2
  {
    assert batch * q * seconds == batch * (q * seconds);
    if seconds <= 0.05 && q < 1.0 { Grows(q, 1.0, seconds); }
    if seconds > 0.05 && q >= 1.0 { Grows(1.0, q, seconds); }
    if seconds < 0.0125 && q <= 4.0 { Grows(q, 4.0, seconds); }
    if seconds >= 0.0125 && q > 4.0 { Grows(4.0, q, seconds); }
    if seconds > 0.2 && q >= 0.25 { Grows(0.25, q, seconds); }
    if seconds <= 0.2 && q < 0.25 { Grows(q, 0.25, seconds); }
  }

  lemma Grows(x: real, y: real, n: real)
    requires n >= 0.0
    ensures x <= y ==> x * n <= y * n
    ensures x < y && n > 0.0 ==> x * n < y * n
  {
  }

  // The size aimed at, before the limits: no larger for a dispatch that took more than
  // the twentieth of a second aimed at, no smaller for one that took less, and within a
  // factor of four what would have taken just that.
  lemma NextSizeAims(batch: nat, seconds: real, n: nat)
    requires seconds > 0.0 && n == Scaled(batch, seconds)
    ensures seconds >= 0.05 ==> n <= batch
    ensures seconds <= 0.05 ==> n >= batch || n == 0x1000_0000
    ensures 0.0125 <= seconds <= 0.2 && n < 0x1000_0000 ==>
      n as real * seconds <= batch as real * 0.05 < (n + 1) as real * seconds
    ensures seconds < 0.0125 ==> n == 4 * batch || n == 0x1000_0000
    ensures seconds > 0.2 && n < 0x1000_0000 ==> 4 * n <= batch < 4 * (n + 1)
    ensures n <= 4 * batch && n <= 0x1000_0000
  {
    var b, q := batch as real, 0.05 / seconds;
    Fractions(b, seconds, q);
    var next := b * Bounded(q);
    ScaledIs(batch, seconds, q, next, n);
    BoundedProduct(b, q, next);
    Grows(n as real, next, seconds);
    if n < 0x1000_0000 { Grows(next, (n + 1) as real, seconds); }
    Compared(n, batch, next);
  }

  lemma ScaledIs(batch: nat, seconds: real, q: real, next: real, n: nat)
    requires seconds > 0.0 && q == 0.05 / seconds && next == batch as real * Bounded(q) && next >= 0.0
    requires n == Scaled(batch, seconds)
    ensures n as real <= next && n <= 0x1000_0000 && (n < 0x1000_0000 ==> next < (n + 1) as real)
  {
  }

  lemma BoundedProduct(b: real, q: real, next: real)
    requires b >= 0.0 && next == b * Bounded(q)
    ensures 0.0 <= next <= 4.0 * b
    ensures q >= 1.0 ==> next >= b
    ensures q <= 1.0 ==> next <= b
    ensures q > 4.0 ==> next == 4.0 * b
    ensures q < 0.25 ==> 4.0 * next == b
    ensures 0.25 <= q <= 4.0 ==> next == b * q
  {
    var scale := Bounded(q);
    Stretched(b, scale, next);
    if q > 4.0 { SameProduct(b, scale, 4.0); }
    if q < 0.25 { SameProduct(b, scale, 0.25); }
  }

  lemma Stretched(b: real, scale: real, next: real)
    requires b >= 0.0 && 0.0 <= scale <= 4.0 && next == b * scale
    ensures 0.0 <= next <= 4.0 * b
    ensures scale >= 1.0 ==> next >= b
    ensures scale <= 1.0 ==> next <= b
  {
    assert next - b == b * (scale - 1.0);
    assert 4.0 * b - next == b * (4.0 - scale);
  }

  // A whole number, against the one it was rounded down to.
  lemma Compared(n: nat, batch: nat, next: real)
    requires n as real <= next && (n < 0x1000_0000 ==> next < (n + 1) as real)
    ensures next <= batch as real ==> n <= batch
    ensures next >= batch as real && n < 0x1000_0000 ==> n >= batch
    ensures next == 4.0 * batch as real && n < 0x1000_0000 ==> n == 4 * batch
    ensures next <= 4.0 * batch as real ==> n <= 4 * batch
    ensures 4.0 * next == batch as real && n < 0x1000_0000 ==> 4 * n <= batch < 4 * (n + 1)
  {
    assert 4.0 * batch as real == (4 * batch) as real;
    assert (4 * n) as real == 4.0 * n as real && (4 * (n + 1)) as real == 4.0 * (n + 1) as real;
  }

  // ------------------------------------------------------------ the limits

  // The most nonces of a dispatch: what there is scratch for, 2^28, and what the groups
  // of one call hold.
  predicate IsMost(l: Limits, c: nat) {
    c == l.maxBatch || c == 0x1000_0000 || (l.maxGroups != 0 && c == l.maxGroups * l.perGroup)
  }

  predicate WithinMost(l: Limits, c: nat) {
    c <= l.maxBatch && c <= 0x1000_0000 && (l.maxGroups != 0 ==> c <= l.maxGroups * l.perGroup)
  }

  // The least: a workgroup, and the nonces that 4096 invocations work on.
  predicate IsLeast(l: Limits, c: nat)
    requires l.lanes > 0
  {
    c == l.perGroup || c == 4096 / l.lanes * l.nonces
  }

  predicate AboveLeast(l: Limits, c: nat)
    requires l.lanes > 0
  {
    c >= l.perGroup && c >= 4096 / l.lanes * l.nonces
  }

  // clamp_batch gives the nearest size between the limits, and where they cross the
  // upper ones hold.
  lemma ClampIsNearest(l: Limits, batch: nat, c: nat)
    requires l.lanes > 0 && c == Clamp(l, batch)
    ensures WithinMost(l, c) && (AboveLeast(l, c) || IsMost(l, c))
    ensures c < batch ==> IsMost(l, c)
    ensures c > batch ==> IsLeast(l, c) || IsMost(l, c)
    ensures AboveLeast(l, batch) && WithinMost(l, batch) ==> c == batch
    ensures c > batch ==> !AboveLeast(l, batch)
  {
  }

  lemma ClampMonotone(l: Limits, a: nat, b: nat)
    requires l.lanes > 0 && a <= b
    ensures Clamp(l, a) <= Clamp(l, b)
  {
  }

  lemma ClampTwice(l: Limits, batch: nat)
    requires l.lanes > 0
    ensures Clamp(l, Clamp(l, batch)) == Clamp(l, batch)
  {
  }

  // ------------------------------------------------------------------ runs

  // The size of a kernel is one the limits leave alone, in every run.
  lemma {:induction false} SizeIsClamped(l: Limits, batch: nat, run: seq<Event>)
    requires Sane(l)
    ensures var s := After(l, batch, run); Clamp(l, s.batch) == s.batch
    decreases |run|
  {
    if run == [] {
      ClampTwice(l, batch);
    } else {
      var s, e := After(l, batch, run[..|run| - 1]), run[|run| - 1];
      SizeIsClamped(l, batch, run[..|run| - 1]);
      ClampTwice(l, s.batch / 4);
      if e.Collect? && e.ending.InTime? && e.ending.seconds > 0.0 { ClampTwice(l, Scaled(s.batch, e.ending.seconds)); }
    }
  }

  // Whether collecting the oldest dispatch changes the size by what it took: the device
  // was full when it was collected and before, it was of a full batch, and no dispatch
  // of another size is waited out.
  predicate Measured(s: State, l: Limits) {
    |s.out| == l.depth && s.prevFull && s.hold == 0 && s.out != [] && s.out[0].fullBatch
  }

  // A completion too slow never makes the batch larger and one too fast never makes it
  // smaller, by no more than four times either way but where a limit stands against it;
  // and no other completion changes it at all.
  lemma CompletionSteers(l: Limits, batch: nat, run: seq<Event>, seconds: real, before: nat, after: nat)
    requires Sane(l) && seconds > 0.0
    requires before == After(l, batch, run).batch && after == Collected(After(l, batch, run), l, InTime(seconds)).batch
    ensures !Measured(After(l, batch, run), l) ==> after == before
    ensures seconds >= 0.05 ==> after <= before
    ensures seconds <= 0.05 ==> after >= before
    ensures after <= 4 * before
    ensures Measured(After(l, batch, run), l) && 0.0125 <= seconds <= 0.2 ==>
      IsLeast(l, after) || IsMost(l, after) || after as real * seconds <= before as real * 0.05 < (after + 1) as real * seconds
  {
    SizeIsClamped(l, batch, run);
    CollectedSize(After(l, batch, run), l, seconds);
    if Measured(After(l, batch, run), l) { ResizedSteers(l, before, seconds, after); }
  }

  lemma CollectedSize(s: State, l: Limits, seconds: real)
    requires Sane(l) && seconds > 0.0
    ensures Collected(s, l, InTime(seconds)).batch == if Measured(s, l) then Resized(l, s.batch, seconds) else s.batch
  {
  }

  lemma ResizedSteers(l: Limits, batch: nat, seconds: real, c: nat)
    requires Sane(l) && seconds > 0.0 && Clamp(l, batch) == batch && c == Resized(l, batch, seconds)
    ensures seconds >= 0.05 ==> c <= batch
    ensures seconds <= 0.05 ==> c >= batch
    ensures c <= 4 * batch
    ensures 0.0125 <= seconds <= 0.2 ==>
      IsLeast(l, c) || IsMost(l, c) || c as real * seconds <= batch as real * 0.05 < (c + 1) as real * seconds
  {
    var n := Scaled(batch, seconds);
    NextSizeAims(batch, seconds, n);
    Steered(l, batch, n, c);
  }

  lemma Steered(l: Limits, batch: nat, n: nat, c: nat)
    requires Sane(l) && Clamp(l, batch) == batch && c == Clamp(l, n)
    ensures n <= batch ==> c <= batch
    ensures n >= batch || n == 0x1000_0000 ==> c >= batch
    ensures n <= 4 * batch ==> c <= 4 * batch
    ensures c == n || IsLeast(l, c) || IsMost(l, c)
    ensures n == 0x1000_0000 ==> IsMost(l, c)
  {
    ClampIsNearest(l, n, c);
    ClampIsNearest(l, batch, batch);
    if n <= batch { ClampMonotone(l, n, batch); }
    if n >= batch { ClampMonotone(l, batch, n); }
  }

  // After a change of size the next `depth` such completions are waited out, one by one,
  // and a time that is none changes nothing.
  lemma HoldRunsOut(s: State, l: Limits, seconds: real)
    requires Sane(l) && Kept(s, l) && s.out != []
    ensures var t := Collected(s, l, InTime(seconds));
            && (t.batch != s.batch ==> t.hold == l.depth && s.hold == 0)
            && (t.batch == s.batch ==>
                  t.hold == if |s.out| == l.depth && s.prevFull && s.out[0].fullBatch && seconds > 0.0 && s.hold > 0 then s.hold - 1 else s.hold)
            && (t.prevFull <==> |s.out| == l.depth)
            && (seconds <= 0.0 ==> t.batch == s.batch)
  {
    assert Proper(s, l, 0);
  }

  // A dispatch is sent if and only if it is of 1 to maxBatch nonces, what it needs is
  // ready, fewer than `depth` are outstanding, the fence of its slot is not pending or
  // was waited for, and the device takes it. Then it is the last of the queue.
  lemma SentIff(l: Limits, batch: nat, run: seq<Event>, count: nat, ready: bool, fate: Fate)
    requires Sane(l)
    ensures var s := After(l, batch, run);
            var t := Dispatched(s, l, count, ready, fate);
            && s.begun % l.depth < |s.pending|
            && (t.out != s.out <==>
                  && 1 <= count <= l.maxBatch && ready && |s.out| < l.depth
                  && (fate.waited || !s.pending[s.begun % l.depth]) && fate.started && fate.flushed && fate.submitted)
            && (t.out != s.out ==> t.out == s.out + [Entry(s.begun % l.depth, count, count == s.batch, s.tickets, s.begun, s.batch)])
  {
    var s := After(l, batch, run);
    var t := Dispatched(s, l, count, ready, fate);
    assert |s.out + [Entry(s.next, count, count == s.batch, s.tickets, s.begun, s.batch)]| == |s.out| + 1;
  }

  // One that is late makes the batch a quarter, as far as the least allows, if it was
  // of the size there is.
  lemma LateQuarters(l: Limits, batch: nat, run: seq<Event>, finished: bool)
    requires Sane(l)
    ensures var s := After(l, batch, run);
            var t := Collected(s, l, Late(finished));
            && t.batch <= s.batch
            && (s.out != [] && s.out[0].count == s.batch ==>
                  (IsLeast(l, t.batch) || IsMost(l, t.batch) || 4 * t.batch <= s.batch < 4 * (t.batch + 1)) && t.hold == l.depth)
            && (s.out == [] || s.out[0].count != s.batch ==> t.batch == s.batch && t.hold == s.hold)
  {
    var s := After(l, batch, run);
    SizeIsClamped(l, batch, run);
    ClampMonotone(l, s.batch / 4, s.batch);
    ClampIsNearest(l, s.batch / 4, Clamp(l, s.batch / 4));
  }
}
