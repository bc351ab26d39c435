// What vulkan_kernel_fit of backends/vulkan/vulkan_kernel.cpp makes of a kernel, told by
// the device, the spec and the options: the nearest arrangement into whole hashes and
// subgroups, the budgets, and the largest batch.

module FitLaws {
  import opened Arithmetic
  import opened Fit
  import opened Wrappers
  import E = Exchange

  // ------------------------------------------------ the least common multiple

  lemma LcmIsCommon(a: nat, b: nat)
    requires a > 0 && b > 0
    ensures Lcm(a, b) > 0 && Lcm(a, b) % a == 0 && Lcm(a, b) % b == 0
  {
    var p, q, u, v := E.Bezout(a, b);
    var g := Gcd(a, b);
    Quotient(p, 0, g);
    assert a / g == p;
    assert Lcm(a, b) == p * b;
    assert p * b == q * a by { assert p * (q * g) == q * (p * g); }
    Factor(p, g);
    Factor(q, g);
    TimesMonotone(1, p, b);
    Quotient(q, 0, a);
    Quotient(p, 0, b);
  }

  lemma Factor(x: nat, y: nat)
    requires x * y > 0
    ensures x > 0
  {
  }

  lemma LcmIsLeast(a: nat, b: nat, w: nat)
    requires a > 0 && b > 0 && w % a == 0 && w % b == 0
    ensures Lcm(a, b) > 0 && w % Lcm(a, b) == 0
  {
    LcmIsCommon(a, b);
    var p, q, u, v := E.Bezout(a, b);
    var g := Gcd(a, b);
    Quotient(p, 0, g);
    Split(w, a);
    Split(w, b);
    var x, y := w / a, w / b;
    Combined(a, b, g, p, q, u, v, w, x, y);
    var k := y * u + x * v;
    if k < 0 { NegativeProduct(k, p * b); }
    Quotient(k, 0, p * b);
  }

  lemma NegativeProduct(k: int, n: nat)
    requires k < 0 && n > 0
    ensures k * n < 0
  {
  }

  // w (u a + v b) in multiples of p b, where a = p g and b = q g.
  lemma Combined(a: nat, b: nat, g: nat, p: nat, q: nat, u: int, v: int, w: nat, x: nat, y: nat)
    requires a == p * g && b == q * g && g > 0 && u * a + v * b == g && w == x * a && w == y * b
    ensures (y * u + x * v) * (p * b) == w
  {
    assert w * (u * a + v * b) == w * g;
    assert w * (u * a + v * b) == y * b * (u * a) + x * a * (v * b);
    assert y * b * (u * a) == y * u * (p * b) * g by { Regrouped(y, b, u, p, g); }
    assert x * a * (v * b) == x * v * (p * b) * g by { Regrouped'(x, p, g, v, b); }
    assert ((y * u + x * v) * (p * b)) * g == w * g;
    Cancels((y * u + x * v) * (p * b), w, g);
  }

  lemma Regrouped(y: int, b: int, u: int, p: int, g: int)
    ensures y * b * (u * (p * g)) == y * u * (p * b) * g
  {
  }

  lemma Regrouped'(x: int, p: int, g: int, v: int, b: int)
    ensures x * (p * g) * (v * b) == x * v * (p * b) * g
  {
  }

  lemma Cancels(x: int, y: int, g: nat)
    requires g > 0 && x * g == y * g
    ensures x == y
  {
    Distributes(x, -y, g);
    if x > y { NegativeProduct(y - x, g); }
    if x < y { NegativeProduct(x - y, g); }
  }

  // -------------------------------------------------------------- the width

  // A width of whole hashes, and of whole subgroups where they are asked for.
  predicate Arranges(width: nat, lanes: nat, full: bool, subgroup: nat)
    requires lanes > 0
  {
    width > 0 && width % lanes == 0 && (full ==> subgroup > 0 && width % subgroup == 0)
  }

  lemma WholeIs(width: nat, step: nat, w: nat)
    requires width > 0 && step > 0
    ensures var r := Whole(width, step);
            && r > 0 && r % step == 0 && (r <= width || r == step)
            && (w > 0 && w % step == 0 ==> (w <= width ==> w <= r <= width) && (r <= width || r <= w))
  {
    Split(width, step);
    Quotient(width / step, 0, step);
    Quotient(1, 0, step);
    Split(w, step);
    if w > 0 && w % step == 0 {
      TimesMonotone(1, w / step, step);
      if w <= width { DivMonotone(w, width, step); TimesMonotone(w / step, width / step, step); }
    }
  }

  // In steps of a multiple of the lanes, a width in whole lanes loses nothing.
  lemma WholeTwice(width: nat, lanes: nat, step: nat, w: nat)
    requires width > 0 && lanes > 0 && step > 0 && step % lanes == 0
    ensures var r := Whole(Whole(width, lanes), step);
            && r > 0 && r % step == 0
            && (w > 0 && w % step == 0 ==> (w <= width ==> w <= r <= width) && (r <= width || r <= w))
  {
    var inner := Whole(width, lanes);
    WholeIs(width, lanes, w);
    WholeIs(inner, step, w);
    if w > 0 && w % step == 0 {
      MultipleOfMultiple(w, step, lanes);
      if w > width { AtLeastStep(w, step); AtLeastStep(w, lanes); AtLeastStep(step, lanes); }
    }
  }

  lemma MultipleOfMultiple(w: nat, step: nat, lanes: nat)
    requires lanes > 0 && step > 0 && step % lanes == 0 && w % step == 0
    ensures w % lanes == 0
  {
    Split(w, step);
    Split(step, lanes);
    assert w == (w / step * (step / lanes)) * lanes;
    Quotient(w / step * (step / lanes), 0, lanes);
  }

  lemma AtLeastStep(w: nat, step: nat)
    requires w > 0 && step > 0 && w % step == 0
    ensures w >= step
  {
    Split(w, step);
    TimesMonotone(1, w / step, step);
  }

  // What is asked for: by the spec, by the options, or else the device's own.
  function Asked(info: Device, spec: KernelSpec, opt: Options): (w: nat)
    ensures w > 0
  {
    if spec.localSize != 0 then spec.localSize else if opt.workgroup != 0 then opt.workgroup else ChooseLocalSize(info)
  }

  function LanesOf(spec: KernelSpec): (n: nat)
    ensures n > 0
  {
    if spec.lanes == 0 then 1 else spec.lanes
  }

  // The width is the largest arrangement no wider than asked for, or the smallest there
  // is where that is wider.
  lemma WidthIsNearest(info: Device, spec: KernelSpec, opt: Options, w: nat)
    requires Shape(info, spec, opt).Some?
    ensures var local, asked := Shape(info, spec, opt).value.local, Asked(info, spec, opt);
            && Arranges(local, LanesOf(spec), spec.fullSubgroups, info.subgroupSize)
            && (Arranges(w, LanesOf(spec), spec.fullSubgroups, info.subgroupSize) ==>
                  (w <= asked ==> w <= local <= asked) && (local <= asked || local <= w))
  {
    var lanes, asked := LanesOf(spec), Asked(info, spec, opt);
    WholeByOne(asked);
    WholeIs(asked, lanes, w);
    if spec.fullSubgroups {
      var step := Lcm(lanes, info.subgroupSize);
      if info.subgroupSize > 0 {
        LcmIsCommon(lanes, info.subgroupSize);
        WholeTwice(asked, lanes, step, w);
        FullWidth(asked, lanes, info.subgroupSize, w);
      }
    }
  }

  lemma WholeByOne(width: nat)
    requires width > 0
    ensures Whole(width, 1) == width
  {
  }

  lemma FullWidth(asked: nat, lanes: nat, subgroup: nat, w: nat)
    requires asked > 0 && lanes > 0 && subgroup > 0
    ensures Lcm(lanes, subgroup) > 0
    ensures var r := Whole(Whole(asked, lanes), Lcm(lanes, subgroup));
            && r % lanes == 0 && r % subgroup == 0
            && (w % lanes == 0 && w % subgroup == 0 ==> w % Lcm(lanes, subgroup) == 0)
  {
    var step := Lcm(lanes, subgroup);
    LcmIsCommon(lanes, subgroup);
    WholeTwice(asked, lanes, step, w);
    var r := Whole(Whole(asked, lanes), step);
    MultipleOfMultiple(r, step, lanes);
    MultipleOfMultiple(r, step, subgroup);
    if w % lanes == 0 && w % subgroup == 0 { LcmIsLeast(lanes, subgroup, w); }
  }

  // No device runs more invocations in a workgroup than it says.
  predicate TooWide(info: Device, w: nat) {
    info.maxInvocations != 0 && w > info.maxInvocations
  }

  // The nonces of an invocation: 256 at most where the module counts them and a nonce
  // has one lane, and else one.
  function MostNonces(spec: KernelSpec): nat {
    if spec.lanes <= 1 && spec.declaresNonces then 256 else 1
  }

  // A shape is refused if and only if every arrangement is too wide for the device, or
  // it does not say what its subgroups are, or too many nonces are asked for.
  lemma ShapeIff(info: Device, spec: KernelSpec, opt: Options)
    ensures Shape(info, spec, opt).Some? <==>
      && (exists w :: Arranges(w, LanesOf(spec), spec.fullSubgroups, info.subgroupSize) && !TooWide(info, w))
      && spec.nonces <= MostNonces(spec)
  {
    var lanes, s := LanesOf(spec), info.subgroupSize;
    if w: nat :| Arranges(w, lanes, spec.fullSubgroups, s) && !TooWide(info, w) {
      AtLeastStep(w, lanes);
      if spec.fullSubgroups {
        LcmIsLeast(lanes, s, w);
        AtLeastStep(w, Lcm(lanes, s));
      }
    }
    if Shape(info, spec, opt).Some? {
      Quotient(1, 0, lanes);
      if spec.fullSubgroups {
        if s > 0 { LcmIsCommon(lanes, s); }
        assert Arranges(Lcm(lanes, s), lanes, true, s);
      } else {
        assert Arranges(lanes, lanes, false, s);
      }
    }
  }

  // The rest of a shape: the depth and the nonces the spec names, or the options, or
  // three and one; and the nonces of a workgroup are those of the hashes that it holds.
  lemma ShapeTells(info: Device, spec: KernelSpec, opt: Options)
    requires Shape(info, spec, opt).Some?
    ensures var f := Shape(info, spec, opt).value;
            && f.depth == (if spec.queueDepth != 0 then spec.queueDepth else if opt.queueDepth != 0 then opt.queueDepth else 3)
            && f.lanes == LanesOf(spec) && 1 <= f.nonces <= MostNonces(spec)
            && (spec.nonces != 0 ==> f.nonces == spec.nonces)
            && (spec.nonces == 0 && opt.nonces != 0 ==> f.nonces == opt.nonces || f.nonces == MostNonces(spec) < opt.nonces)
            && (spec.nonces == 0 && opt.nonces == 0 ==> f.nonces == 1)
            && (f.local / f.lanes * f.nonces < 0x1_0000_0000 ==> f.lanes * f.perGroup == f.local * f.nonces)
            && f.maxBatch == 0x1000_0000
  {
    var f := Shape(info, spec, opt).value;
    WidthIsNearest(info, spec, opt, 0);
    if f.local / f.lanes * f.nonces < 0x1_0000_0000 { GroupIs(f.local, f.lanes, f.nonces); }
  }

  lemma GroupIs(local: nat, lanes: nat, nonces: nat)
    requires local > 0 && lanes > 0 && nonces > 0 && local % lanes == 0 && local / lanes * nonces < 0x1_0000_0000
    ensures var group := local / lanes * nonces % 0x1_0000_0000; group != 0 && lanes * group == local * nonces
  {
    var hashes := local / lanes;
    Split(local, lanes);
    Factor(hashes, lanes);
    TimesMonotone(1, hashes, nonces);
    Unfolded(hashes * nonces, 0x1_0000_0000);
    assert lanes * (hashes * nonces) == (hashes * lanes) * nonces;
  }

  // The device's own width: 256, or its limits, in whole subgroups if it holds one.
  lemma OwnWidth(info: Device, w: nat)
    ensures var local := ChooseLocalSize(info);
            && 0 < local <= 256 && (info.maxWorkgroupSize != 0 ==> local <= info.maxWorkgroupSize) && !TooWide(info, local)
            && (0 < w <= 256 && (info.maxWorkgroupSize != 0 ==> w <= info.maxWorkgroupSize) && !TooWide(info, w) ==>
                  && (info.subgroupSize == 0 ==> w <= local)
                  && (info.subgroupSize > 0 && w % info.subgroupSize == 0 ==> w <= local && local % info.subgroupSize == 0))
  {
    var a := if info.maxWorkgroupSize != 0 && 256 > info.maxWorkgroupSize then info.maxWorkgroupSize else 256;
    var b := if info.maxInvocations != 0 && a > info.maxInvocations then info.maxInvocations else a;
    var s := info.subgroupSize;
    if s > 0 {
      WholeIs(b, s, w);
      if 0 < w <= b && w % s == 0 {
        AtLeastStep(w, s);
        if b == s { Quotient(1, 0, s); }
      }
    }
  }

  // ------------------------------------------------------------- the budgets

  // Nine tenths of a card's own memory for a table and three quarters for scratch, of
  // the machine's a quarter each, no more than 2^30 bytes for scratch; on a software
  // device three twentieths, no more than 2^28.
  lemma Budgets(info: Device)
    ensures info.kind.Discrete? ==> 10 * TableBudget(info) <= 9 * info.memory < 10 * (TableBudget(info) + 1)
    ensures !info.kind.Discrete? ==> 4 * TableBudget(info) <= info.memory < 4 * (TableBudget(info) + 1)
    ensures info.kind.Discrete? ==> 4 * ScratchBudget(info) <= 3 * info.memory < 4 * (ScratchBudget(info) + 1)
    ensures info.kind.OtherKind? && ScratchBudget(info) < 0x4000_0000 ==>
      4 * ScratchBudget(info) <= info.memory < 4 * (ScratchBudget(info) + 1)
    ensures info.kind.OtherKind? ==> ScratchBudget(info) <= 0x4000_0000 && 4 * ScratchBudget(info) <= info.memory
    ensures info.kind.Cpu? && ScratchBudget(info) < 0x1000_0000 ==>
      20 * ScratchBudget(info) <= 3 * info.memory < 20 * (ScratchBudget(info) + 1)
    ensures info.kind.Cpu? ==> ScratchBudget(info) <= 0x1000_0000 && 20 * ScratchBudget(info) <= 3 * info.memory
  {
    ShareIs(info.memory, 0.9, 9, 10);
    ShareIs(info.memory, 0.25, 1, 4);
    ShareIs(info.memory, 0.75, 3, 4);
    ShareIs(info.memory, 0.15, 3, 20);
  }

  lemma ShareIs(memory: nat, q: real, m: nat, n: nat)
    requires n > 0 && q >= 0.0 && q * n as real == m as real
    ensures n * Share(memory, q) <= m * memory < n * (Share(memory, q) + 1)
  {
    var x := memory as real * q;
    Parts(memory, q, m, n, x, m * memory);
    Floored(x, Share(memory, q), n, m * memory);
  }

  lemma Parts(memory: nat, q: real, m: nat, n: nat, x: real, product: nat)
    requires q * n as real == m as real && x == memory as real * q && product == m * memory
    ensures x * n as real == product as real
  {
    Regroup(memory as real, q, n as real, m as real);
    Product(memory, m);
  }

  lemma Regroup(x: real, q: real, n: real, m: real)
    requires q * n == m
    ensures (x * q) * n == x * m
  {
  }

  lemma Product(x: nat, y: nat)
    ensures x as real * y as real == (y * x) as real
  {
  }

  lemma Floored(x: real, r: int, n: nat, product: nat)
    requires n > 0 && r as real <= x < (r + 1) as real && x * n as real == product as real
    ensures n * r <= product < n * (r + 1)
  {
    Between(r as real, x, (r + 1) as real, n as real);
    assert (n * r) as real == r as real * n as real;
    assert (n * (r + 1)) as real == (r + 1) as real * n as real;
  }

  lemma Between(a: real, x: real, b: real, n: real)
    requires n > 0.0 && a <= x < b
    ensures a * n <= x * n < b * n
  {
    assert (x - a) * n >= 0.0 && (x - a) * n == x * n - a * n;
    assert (b - x) * n > 0.0 && (b - x) * n == b * n - x * n;
  }

  // --------------------------------------------------------------- the batch

  // The bytes a nonce is counted with.
  function Counted(spec: KernelSpec, f: Fitted): nat {
    spec.scratchBytes * f.depth * f.lanes
  }

  // There is room for `n` nonces in this kernel's share of what the table leaves.
  predicate Room(info: Device, spec: KernelSpec, f: Fitted, sharedBytes: nat, n: nat) {
    n <= 0x1000_0000 && n * Counted(spec, f) * (if spec.concurrent == 0 then 1 else spec.concurrent) + sharedBytes <= ScratchBudget(info)
  }

  lemma RoomIff(info: Device, spec: KernelSpec, f: Fitted, sharedBytes: nat, n: nat)
    requires sharedBytes < ScratchBudget(info) && 0 < Counted(spec, f) < 0x1_0000_0000_0000_0000
    ensures Room(info, spec, f, sharedBytes, n) <==> n <= NoncesThatFit(info, spec, f, sharedBytes)
  {
    var c, s, left := Counted(spec, f), Sharing(spec), ScratchBudget(info) - sharedBytes;
    Unfolded(c, 0x1_0000_0000_0000_0000);
    DividesIff(n, c, left / s);
    DividesIff(n * c, s, left);
  }

  lemma DividesIff(n: nat, each: nat, left: nat)
    requires each > 0
    ensures n <= left / each <==> n * each <= left
  {
    Split(left, each);
    if n <= left / each { TimesMonotone(n, left / each, each); }
    if n * each <= left {
      DivMonotone(n * each, left, each);
      Quotient(n, 0, each);
    }
  }

  // With scratch whose count does not wrap, a kernel is accepted if and only if its shape
  // is, the device says how much memory it has, the table leaves some, and there is room
  // for a workgroup; and its batch is the largest of whole workgroups there is room for.
  lemma BatchIsLargest(info: Device, spec: KernelSpec, opt: Options, sharedBytes: nat, shape: Fitted, k: nat)
    requires Shape(info, spec, opt) == Some(shape)
    requires 0 < Counted(spec, shape) < 0x1_0000_0000_0000_0000
    ensures KernelFit(info, spec, opt, sharedBytes).Some? <==>
      info.memory > 0 && sharedBytes < ScratchBudget(info) && Room(info, spec, shape, sharedBytes, shape.perGroup)
    ensures KernelFit(info, spec, opt, sharedBytes).Some? ==>
      var f := KernelFit(info, spec, opt, sharedBytes).value;
      && f == shape.(maxBatch := f.maxBatch)
      && f.maxBatch % f.perGroup == 0 && Room(info, spec, shape, sharedBytes, f.maxBatch)
      && (Room(info, spec, shape, sharedBytes, k * f.perGroup) ==> k * f.perGroup <= f.maxBatch)
  {
    assert spec.scratchBytes > 0;
    if info.memory > 0 && sharedBytes < ScratchBudget(info) {
      var fits, g := NoncesThatFit(info, spec, shape, sharedBytes), shape.perGroup;
      RoomIff(info, spec, shape, sharedBytes, g);
      RoomIff(info, spec, shape, sharedBytes, WholeOf(fits, g));
      RoomIff(info, spec, shape, sharedBytes, k * g);
      Split(fits, g);
      Quotient(fits / g, 0, g);
      DividesIff(k, g, fits);
      if k <= fits / g { TimesMonotone(k, fits / g, g); }
    }
  }

  // A kernel without scratch has the largest batch there is.
  lemma WithoutScratch(info: Device, spec: KernelSpec, opt: Options, sharedBytes: nat)
    requires spec.scratchBytes == 0
    ensures KernelFit(info, spec, opt, sharedBytes) == Shape(info, spec, opt)
  {
  }
}
