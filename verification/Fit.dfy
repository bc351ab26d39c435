// backends/vulkan/vulkan_kernel.cpp, vulkan_kernel_fit and the budgets, with
// vulkan_backend.cpp, would_fit: whether a device takes a kernel, and how many
// nonces at a time -- asked ahead for the largest table the algorithm will want.

module Fit {
  import opened Arithmetic
  import opened SharedTable
  import opened Wrappers
  import K = Kernel

  const WORD32: nat := 0x1_0000_0000
  const WORD64: nat := 0x1_0000_0000_0000_0000
  const MAX_NONCES: nat := 256
  const DEFAULT_DEPTH: nat := 3

  datatype Kind = Discrete | Cpu | OtherKind

  datatype Device = Device(
    limits: Limits,
    kind: Kind,
    memory: nat,
    maxInvocations: nat,
    maxWorkgroupSize: nat,
    subgroupSize: nat)

  datatype KernelSpec = KernelSpec(
    shared: Spec,
    queueDepth: nat,
    localSize: nat,
    lanes: nat,
    fullSubgroups: bool,
    nonces: nat,
    declaresNonces: bool,     // the module has the constant for them
    scratchBytes: nat,
    concurrent: nat)

  // The options of the process; 0 where not given.
  datatype Options = Options(queueDepth: nat, workgroup: nat, nonces: nat)

  datatype Fitted = Fitted(depth: nat, local: nat, lanes: nat, nonces: nat, perGroup: nat, maxBatch: nat)

  // ------------------------------------------------------------- budgets

  function Share(memory: nat, share: real): nat
    requires share >= 0.0
  {
    (memory as real * share).Floor
  }

  function TableBudget(info: Device): nat {
    Share(info.memory, if info.kind.Discrete? then 0.90 else 0.25)
  }

  function ScratchBudget(info: Device): nat {
    var usable := Share(info.memory, if info.kind.Cpu? then 0.15 else if info.kind.Discrete? then 0.75 else 0.25);
    match info.kind
    case Discrete => usable
    case Cpu => if usable < 0x1000_0000 then usable else 0x1000_0000
    case OtherKind => if usable < 0x4000_0000 then usable else 0x4000_0000
  }

  // -------------------------------------------------------------- the shape

  function Default(asked: nat, option: nat, otherwise: nat): nat {
    if asked != 0 then asked else if option != 0 then option else otherwise
  }

  function ChooseLocalSize(info: Device): (n: nat)
    ensures n > 0
  {
    var a := if info.maxWorkgroupSize != 0 && 256 > info.maxWorkgroupSize then info.maxWorkgroupSize else 256;
    var b := if info.maxInvocations != 0 && a > info.maxInvocations then info.maxInvocations else a;
    var whole := if info.subgroupSize > 1 && b > info.subgroupSize then b - b % info.subgroupSize else 0;
    if whole > 0 then whole else b
  }

  // A width in whole steps, one at least.
  function Whole(width: nat, step: nat): nat
    requires step > 0
  {
    var whole := width - width % step;
    if whole != 0 then whole else step
  }

  function Lcm(a: nat, b: nat): nat {
    if a == 0 || b == 0 || Gcd(a, b) == 0 then 0 else a / Gcd(a, b) * b
  }

  // The part of vulkan_kernel_fit the table has no say in, maxBatch as it is for
  // a kernel without scratch.
  function Shape(info: Device, spec: KernelSpec, opt: Options): Option<Fitted> {
    var depth := Default(spec.queueDepth, opt.queueDepth, DEFAULT_DEPTH);
    var width := Default(spec.localSize, opt.workgroup, ChooseLocalSize(info));
    var lanes := if spec.lanes != 0 then spec.lanes else 1;
    if info.maxInvocations != 0 && lanes > info.maxInvocations then None
    else
      var inLanes := if lanes > 1 then Whole(width, lanes) else width;
      var step := Lcm(lanes, info.subgroupSize);
      if spec.fullSubgroups && (step == 0 || (info.maxInvocations != 0 && step > info.maxInvocations)) then None
      else
        var local := if spec.fullSubgroups then Whole(inLanes, step) else inLanes;
        var most := if lanes == 1 && spec.declaresNonces then MAX_NONCES else 1;
        if spec.nonces > most then None
        else
          var nonces := if spec.nonces != 0 then spec.nonces
                        else if opt.nonces != 0 then if opt.nonces < most then opt.nonces else most
                        else 1;
          var group := local / lanes * nonces % WORD32;
          Some(Fitted(depth, local, lanes, nonces, if group != 0 then group else 1, K.MAX_BATCH))
  }

  // ------------------------------------------------------------ the scratch

  function PerNonce(spec: KernelSpec, shape: Fitted): (n: nat)
    ensures n > 0
  {
    var n := spec.scratchBytes * shape.depth * shape.lanes % WORD64;
    if n != 0 then n else 1
  }

  function Div(x: nat, y: nat): nat
    requires y > 0
  {
    x / y
  }

  function WholeOf(n: nat, group: nat): nat
    requires group > 0
  {
    Div(n, group) * group
  }

  function NoncesIn(left: nat, spec: KernelSpec, shape: Fitted): nat {
    var fits := Div(left, PerNonce(spec, shape));
    if fits > K.MAX_BATCH then K.MAX_BATCH else fits
  }

  // The kernels the memory is divided among; nobody says 0 but for one.
  function Sharing(spec: KernelSpec): (n: nat)
    ensures n > 0
  {
    if spec.concurrent != 0 then spec.concurrent else 1
  }

  function NoncesThatFit(info: Device, spec: KernelSpec, shape: Fitted, sharedBytes: nat): nat
    requires sharedBytes < ScratchBudget(info)
  {
    NoncesIn(Div(ScratchBudget(info) - sharedBytes, Sharing(spec)), spec, shape)
  }

  function KernelFit(info: Device, spec: KernelSpec, opt: Options, sharedBytes: nat): Option<Fitted> {
    var shape := Shape(info, spec, opt);
    if shape.None? then None
    else if spec.scratchBytes == 0 then shape
    else if info.memory == 0 || sharedBytes >= ScratchBudget(info) then None
    else
      var fits := NoncesThatFit(info, spec, shape.value, sharedBytes);
      var group := shape.value.perGroup;
      if group == 0 || fits < group then None
      else Some(shape.value.(maxBatch := WholeOf(fits, group)))
  }

  method FitShape(info: Device, spec: KernelSpec, opt: Options) returns (r: Option<Fitted>)
    ensures r == Shape(info, spec, opt)
  {
    var fit := Fitted(Default(spec.queueDepth, opt.queueDepth, DEFAULT_DEPTH),
                      Default(spec.localSize, opt.workgroup, ChooseLocalSize(info)), 1, 1, 1, K.MAX_BATCH);
    if spec.lanes != 0 {
      fit := fit.(lanes := spec.lanes);
    }
    if info.maxInvocations != 0 && fit.lanes > info.maxInvocations {
      return None;
    }
    if fit.lanes > 1 {
      fit := fit.(local := Whole(fit.local, fit.lanes));
    }
    if spec.fullSubgroups {
      var step := Lcm(fit.lanes, info.subgroupSize);
      if step == 0 || (info.maxInvocations != 0 && step > info.maxInvocations) {
        return None;
      }
      fit := fit.(local := Whole(fit.local, step));
    }
    var most := if fit.lanes == 1 && spec.declaresNonces then MAX_NONCES else 1;
    if spec.nonces > most {
      return None;
    }
    if spec.nonces != 0 {
      fit := fit.(nonces := spec.nonces);
    } else if opt.nonces != 0 {
      fit := fit.(nonces := if opt.nonces < most then opt.nonces else most);
    }
    var group := fit.local / fit.lanes * fit.nonces % WORD32;
    return Some(fit.(perGroup := if group != 0 then group else 1));
  }

  // What the kernel's controller works with.
  function Controlled(f: Fitted, maxGroups: nat): K.Limits {
    K.Limits(f.depth, f.perGroup, f.maxBatch, f.lanes, f.nonces, maxGroups)
  }

  // That is fit for it, where a workgroup is no more than 2^28 nonces.
  lemma FitIsSane(info: Device, spec: KernelSpec, opt: Options, sharedBytes: nat, maxGroups: nat)
    requires KernelFit(info, spec, opt, sharedBytes).Some?
    ensures var f := KernelFit(info, spec, opt, sharedBytes).value;
            f.perGroup <= K.MAX_BATCH ==>
              K.Sane(Controlled(f, maxGroups))
  {
    var shape := Shape(info, spec, opt).value;
    if spec.scratchBytes != 0 {
      WholeGroups(NoncesThatFit(info, spec, shape, sharedBytes), shape.perGroup);
    }
  }

  lemma WholeGroups(n: nat, group: nat)
    requires group > 0 && n >= group
    ensures group <= n / group * group <= n
  {
    Split(n, group);
    TimesMonotone(1, n / group, group);
  }

  // ------------------------------------------------- the smaller, the easier

  // A device that holds a table holds every smaller one of whole quads.
  lemma PlanAcceptsSmaller(info: Limits, spec: Spec, table: nat, bytes: nat)
    requires Planned(info, spec, table).Some? && 0 < bytes <= table && bytes % 16 == 0
    ensures Planned(info, spec, bytes).Some?
  {
    var chunk := ChunkOf(info, spec, bytes);
    if chunk == bytes {
      Quotient(1, bytes - 1, bytes);
      OneMore(bytes - 1, bytes);
      Quotient(0, bytes - 1, bytes);
    } else {
      assert chunk == ChunkOf(info, spec, table);
      DivMonotone(bytes + chunk - 1, table + chunk - 1, chunk);
    }
  }

  // And leaves a kernel no fewer nonces.
  lemma FitGrows(info: Device, spec: KernelSpec, opt: Options, table: nat, bytes: nat)
    requires KernelFit(info, spec, opt, table).Some? && bytes <= table
    ensures KernelFit(info, spec, opt, bytes).Some?
    ensures KernelFit(info, spec, opt, bytes).value.maxBatch >= KernelFit(info, spec, opt, table).value.maxBatch
    ensures KernelFit(info, spec, opt, bytes).value ==
      KernelFit(info, spec, opt, table).value.(maxBatch := KernelFit(info, spec, opt, bytes).value.maxBatch)
  {
    if spec.scratchBytes != 0 {
      var shape := Shape(info, spec, opt).value;
      var n := Sharing(spec);
      var b := ScratchBudget(info);
      DivMonotone(b - table, b - bytes, n);
      DivMonotone((b - table) / n, (b - bytes) / n, PerNonce(spec, shape));
      var few, many := NoncesThatFit(info, spec, shape, table), NoncesThatFit(info, spec, shape, bytes);
      DivMonotone(few, many, shape.perGroup);
      TimesMonotone(few / shape.perGroup, many / shape.perGroup, shape.perGroup);
    }
  }

  // would_fit, apart from the table other workers hold: asked about the table
  // after the last job there could be.
  function WouldFit(info: Device, spec: KernelSpec, opt: Options, sharedBytes: nat, sharedBytesMax: nat): bool {
    var table := if sharedBytesMax > sharedBytes then sharedBytesMax else sharedBytes;
    && (table != 0 ==> table <= TableBudget(info) && Planned(info.limits, spec.shared, table).Some?)
    && KernelFit(info, spec, opt, table).Some?
  }

  // What would_fit accepts, the build accepts, for every table up to the largest.
  lemma AcceptedOnceAcceptedAlways(info: Device, spec: KernelSpec, opt: Options, shared: nat, most: nat, bytes: nat)
    requires WouldFit(info, spec, opt, shared, most) && 0 < bytes && bytes % 16 == 0
    requires bytes <= shared || bytes <= most
    ensures bytes <= TableBudget(info) && Planned(info.limits, spec.shared, bytes).Some?
    ensures KernelFit(info, spec, opt, bytes).Some?
    ensures var table := if most > shared then most else shared;
            KernelFit(info, spec, opt, bytes).value.maxBatch >= KernelFit(info, spec, opt, table).value.maxBatch
  {
    var table := if most > shared then most else shared;
    PlanAcceptsSmaller(info.limits, spec.shared, table, bytes);
    FitGrows(info, spec, opt, table, bytes);
  }

  // A table of this size can be had, with a kernel beside it.
  predicate HasRoomFor(info: Device, spec: KernelSpec, opt: Options, bytes: nat) {
    bytes <= TableBudget(info) && Planned(info.limits, spec.shared, bytes).Some? && KernelFit(info, spec, opt, bytes).Some?
  }

  // And it turns away nothing else: of sizes in whole quads, as they all are, it accepts
  // the largest if and only if every one up to it can be had.
  lemma WouldFitIff(info: Device, spec: KernelSpec, opt: Options, shared: nat, most: nat)
    ensures shared == most == 0 ==> (WouldFit(info, spec, opt, shared, most) <==> KernelFit(info, spec, opt, 0).Some?)
    ensures var table := if most > shared then most else shared;
            && (table % 16 != 0 ==> !WouldFit(info, spec, opt, shared, most))
            && (table % 16 == 0 && table > 0 ==>
                  (WouldFit(info, spec, opt, shared, most) <==>
                     forall bytes :: 0 < bytes <= table && bytes % 16 == 0 ==> HasRoomFor(info, spec, opt, bytes)))
  {
    var table := if most > shared then most else shared;
    if WouldFit(info, spec, opt, shared, most) {
      forall bytes | 0 < bytes <= table && bytes % 16 == 0 ensures HasRoomFor(info, spec, opt, bytes) {
        AcceptedOnceAcceptedAlways(info, spec, opt, shared, most, bytes);
      }
    }
    if table % 16 == 0 && table > 0 && HasRoomFor(info, spec, opt, table) {
      assert WouldFit(info, spec, opt, shared, most);
    }
  }

  // -------------------------------------------------------------- the epochs

  datatype Params = Params(dagchangeEpoch: nat, dagEpochMul: nat, dagFullOff: nat)

  // epochs_for: the epoch the dataset's size is of, in 32 bits.
  function FullEpoch(p: Params, seed: nat): nat {
    var scaled := if p.dagchangeEpoch != 0 && seed >= p.dagchangeEpoch then seed * p.dagEpochMul % WORD32 else seed;
    (scaled + p.dagFullOff) % WORD32
  }

  // Of 32-bit numbers, as the source has them.
  predicate Words32(p: Params, last: nat) {
    p.dagchangeEpoch < WORD32 && p.dagEpochMul < WORD32 && p.dagFullOff < WORD32 && last < WORD32
  }

  // No epoch up to `last` has a larger one's dataset.
  ghost predicate Monotone(p: Params, last: nat) {
    forall x, y :: 0 <= x <= y <= last ==> FullEpoch(p, x) <= FullEpoch(p, y)
  }

  predicate Multiplied(p: Params, e: nat) {
    p.dagchangeEpoch != 0 && e >= p.dagchangeEpoch
  }

  // Nothing wraps: before the multiplier applies the offset does not, the first scaled
  // epoch is not behind the one before it, and the steps of the multiplier after it stay
  // in range. (A first product that wraps may yet do.)
  predicate NothingWraps(p: Params, last: nat) {
    if !Multiplied(p, last) then last + p.dagFullOff < WORD32
    else
      var before, first := p.dagchangeEpoch - 1 + p.dagFullOff, FullEpoch(p, p.dagchangeEpoch);
      before < WORD32 && before <= first && first + (last - p.dagchangeEpoch) * p.dagEpochMul < WORD32
  }

  lemma PlainEpoch(p: Params, e: nat)
    requires Words32(p, e) && !Multiplied(p, e)
    ensures FullEpoch(p, e) == if e + p.dagFullOff < WORD32 then e + p.dagFullOff else e + p.dagFullOff - WORD32
  {
  }

  lemma ScaledIs(p: Params, e: nat)
    requires Multiplied(p, e)
    ensures FullEpoch(p, e) == (e * p.dagEpochMul + p.dagFullOff) % WORD32
  {
    Folded(e * p.dagEpochMul, p.dagFullOff, WORD32);
  }

  // `k` epochs on from a scaled one.
  lemma ScaledEpoch(p: Params, e: nat, k: nat)
    requires Words32(p, e + k) && Multiplied(p, e)
    ensures FullEpoch(p, e + k) == (FullEpoch(p, e) + k * p.dagEpochMul) % WORD32
  {
    ScaledIs(p, e);
    ScaledIs(p, e + k);
    Distributes(e, k, p.dagEpochMul);
    FoldedSum(e * p.dagEpochMul, k * p.dagEpochMul, p.dagFullOff);
  }

  lemma FoldedSum(a: nat, b: nat, c: nat)
    ensures (a + b + c) % WORD32 == ((a + c) % WORD32 + b) % WORD32
  {
    Folded(a + c, b, WORD32);
  }

  lemma Folded(x: nat, y: nat, n: nat)
    requires n > 0
    ensures (x % n + y) % n == (x + y) % n
  {
    var q, r := x / n, x % n;
    Split(x, n);
    Split(r + y, n);
    Distributes(q, (r + y) / n, n);
    Quotient(q + (r + y) / n, (r + y) % n, n);
  }

  lemma Unfolded(x: nat, n: nat)
    requires x < n
    ensures x % n == x
  {
    Quotient(0, x, n);
  }

  // The dataset's epochs never fall back up to `last` if and only if nothing wraps.
  lemma MonotoneIff(p: Params, last: nat)
    requires Words32(p, last)
    ensures Monotone(p, last) <==> NothingWraps(p, last)
  {
    if NothingWraps(p, last) {
      forall x, y | 0 <= x <= y <= last ensures FullEpoch(p, x) <= FullEpoch(p, y) {
        InOrder(p, x, y, last);
      }
    } else {
      var x, y := FallsBack(p, last);
    }
  }

  lemma InOrder(p: Params, x: nat, y: nat, last: nat)
    requires Words32(p, last) && x <= y <= last && NothingWraps(p, last)
    ensures FullEpoch(p, x) <= FullEpoch(p, y)
  {
    var d := p.dagchangeEpoch;
    if !Multiplied(p, y) {
      PlainEpoch(p, x);
      PlainEpoch(p, y);
    } else {
      FromFirst(p, y, last);
      TimesMonotone(0, y - d, p.dagEpochMul);
      if Multiplied(p, x) {
        ScaledInOrder(p, x, y, last);
      } else {
        PlainEpoch(p, x);
      }
    }
  }

  lemma ScaledInOrder(p: Params, x: nat, y: nat, last: nat)
    requires Words32(p, last) && Multiplied(p, x) && x <= y <= last && NothingWraps(p, last)
    ensures FullEpoch(p, x) <= FullEpoch(p, y)
  {
    FromFirst(p, x, last);
    FromFirst(p, y, last);
    TimesMonotone(x - p.dagchangeEpoch, y - p.dagchangeEpoch, p.dagEpochMul);
  }

  lemma FromFirst(p: Params, e: nat, last: nat)
    requires Words32(p, last) && Multiplied(p, e) && e <= last && NothingWraps(p, last)
    ensures FullEpoch(p, e) == FullEpoch(p, p.dagchangeEpoch) + (e - p.dagchangeEpoch) * p.dagEpochMul
  {
    var d, m := p.dagchangeEpoch, p.dagEpochMul;
    ScaledEpoch(p, d, e - d);
    TimesMonotone(e - d, last - d, m);
    Unfolded(FullEpoch(p, d) + (e - d) * m, WORD32);
  }

  lemma FallsBack(p: Params, last: nat) returns (x: nat, y: nat)
    requires Words32(p, last) && !NothingWraps(p, last)
    ensures x <= y <= last && FullEpoch(p, x) > FullEpoch(p, y)
  {
    var d, m := p.dagchangeEpoch, p.dagEpochMul;
    var plain := if Multiplied(p, last) then d - 1 else last;
    if plain + p.dagFullOff >= WORD32 {
      x, y := WORD32 - 1 - p.dagFullOff, WORD32 - p.dagFullOff;
      PlainEpoch(p, x);
      PlainEpoch(p, y);
    } else if d - 1 + p.dagFullOff > FullEpoch(p, d) {
      x, y := d - 1, d;
      PlainEpoch(p, x);
    } else {
      x, y := LastStep(p, last);
    }
  }

  // The last step within range, and the one that leaves it.
  lemma LastStep(p: Params, last: nat) returns (x: nat, y: nat)
    requires Words32(p, last) && Multiplied(p, last)
    requires FullEpoch(p, p.dagchangeEpoch) + (last - p.dagchangeEpoch) * p.dagEpochMul >= WORD32
    ensures x <= y <= last && FullEpoch(p, x) > FullEpoch(p, y)
  {
    var d, first := p.dagchangeEpoch, FullEpoch(p, p.dagchangeEpoch);
    var k := StepsWithin(first, last - d, p.dagEpochMul);
    x, y := d + k, d + (k + 1);
    ScaledEpoch(p, d, k);
    ScaledEpoch(p, d, k + 1);
  }

  // So many steps of `m` stay within range, and one more does not.
  lemma StepsWithin(first: nat, steps: nat, m: nat) returns (k: nat)
    requires first < WORD32 && m < WORD32 && first + steps * m >= WORD32
    ensures k < steps && (first + (k + 1) * m) % WORD32 < (first + k * m) % WORD32
    decreases steps
  {
    assert steps > 0;
    k := steps - 1;
    Distributes(k, 1, m);
    var a := first + k * m;
    if a >= WORD32 {
      k := StepsWithin(first, steps - 1, m);
    } else {
      Unfolded(a, WORD32);
      Quotient(1, a + m - WORD32, WORD32);
    }
  }

  // A multiplier of two overtakes itself half way through the 32 bits.
  lemma EpochsWrap()
    ensures var p := Params(1, 2, 0);
            && FullEpoch(p, 0x8000_0000) < FullEpoch(p, 1)
            && !NothingWraps(p, 0x8000_0000) && NothingWraps(p, 0x7fff_ffff)
  {
  }

  // With dataset sizes of whole lines that never shrink, what fits the declared
  // last epoch fits every epoch before.
  lemma EveryEpochFits(info: Device, spec: KernelSpec, opt: Options, p: Params, size: nat -> nat, last: nat, e: nat)
    requires forall x, y :: x <= y ==> size(x) <= size(y)
    requires forall x :: size(x) > 0 && size(x) % 64 == 0
    requires Words32(p, last) && NothingWraps(p, last) && e <= last
    requires WouldFit(info, spec, opt, 0, size(FullEpoch(p, last)))
    ensures Planned(info.limits, spec.shared, size(FullEpoch(p, e))).Some?
    ensures KernelFit(info, spec, opt, size(FullEpoch(p, e))).Some?
    ensures KernelFit(info, spec, opt, size(FullEpoch(p, e))).value.maxBatch >=
            KernelFit(info, spec, opt, size(FullEpoch(p, last))).value.maxBatch
  {
    InOrder(p, e, last, last);
    SmallerFits(info, spec, opt, size(FullEpoch(p, last)), size(FullEpoch(p, e)));
  }

  lemma SmallerFits(info: Device, spec: KernelSpec, opt: Options, table: nat, bytes: nat)
    requires Planned(info.limits, spec.shared, table).Some? && KernelFit(info, spec, opt, table).Some?
    requires 0 < bytes <= table && bytes % 64 == 0
    ensures Planned(info.limits, spec.shared, bytes).Some? && KernelFit(info, spec, opt, bytes).Some?
    ensures KernelFit(info, spec, opt, bytes).value.maxBatch >= KernelFit(info, spec, opt, table).value.maxBatch
  {
    WholeQuads(bytes);
    PlanAcceptsSmaller(info.limits, spec.shared, table, bytes);
    FitGrows(info, spec, opt, table, bytes);
  }

  lemma WholeQuads(bytes: nat)
    requires bytes % 64 == 0
    ensures bytes % 16 == 0
  {
  }

  // --------------------------------------------------- scratch on the device

  // What one kernel allocates: a buffer for each dispatch in flight.
  function Allocated(spec: KernelSpec, f: Fitted): nat {
    f.depth * (f.maxBatch * spec.scratchBytes)
  }

  // As many kernels as the spec says share the device, built beside one table,
  // take no more scratch than the budget leaves next to it.
  lemma ScratchWithinBudget(info: Device, spec: KernelSpec, opt: Options, sharedBytes: nat)
    requires KernelFit(info, spec, opt, sharedBytes).Some? && spec.scratchBytes > 0
    requires CountsAll(spec, KernelFit(info, spec, opt, sharedBytes).value)
    ensures Sharing(spec) * Allocated(spec, KernelFit(info, spec, opt, sharedBytes).value) + sharedBytes <= ScratchBudget(info)
  {
    var f := KernelFit(info, spec, opt, sharedBytes).value;
    var shape := Shape(info, spec, opt).value;
    var b, n := ScratchBudget(info) - sharedBytes, Sharing(spec);
    var fits := NoncesThatFit(info, spec, shape, sharedBytes);
    WholeGroups(fits, shape.perGroup);
    AtMostLeft(fits, f.maxBatch, b / n, spec.scratchBytes, f.depth, PerNonce(spec, shape));
    SharesAddUp(n, Allocated(spec, f), b);
  }

  // A nonce is counted with no less than the buffers have for it, which 64 bits that
  // wrap could do.
  predicate CountsAll(spec: KernelSpec, f: Fitted) {
    PerNonce(spec, f) >= spec.scratchBytes * f.depth
  }

  lemma CountsAllUnwrapped(spec: KernelSpec, f: Fitted)
    requires f.lanes > 0 && spec.scratchBytes * f.depth * f.lanes < WORD64
    ensures CountsAll(spec, f)
  {
    var n := spec.scratchBytes * f.depth;
    TimesMonotone(1, f.lanes, n);
    Unfolded(n * f.lanes, WORD64);
  }

  // Whatever memory there is left, the buffers of a batch it is found to have room for
  // are within it -- if and only if a nonce is counted so.
  lemma BatchFitsIff(spec: KernelSpec, f: Fitted)
    requires 0 < f.perGroup <= K.MAX_BATCH
    ensures (forall left: nat :: BatchFits(left, spec, f)) <==> CountsAll(spec, f)
  {
    var p, each := PerNonce(spec, f), spec.scratchBytes * f.depth;
    if CountsAll(spec, f) {
      forall left: nat ensures BatchFits(left, spec, f) {
        var fits := NoncesIn(left, spec, f);
        if fits >= f.perGroup {
          WholeGroups(fits, f.perGroup);
          AtMostLeft(fits, WholeOf(fits, f.perGroup), left, spec.scratchBytes, f.depth, p);
        }
      }
    } else {
      var g := f.perGroup;
      var left := p * g;
      Quotient(g, 0, p);
      Quotient(1, 0, g);
      assert NoncesIn(left, spec, f) == g && WholeOf(g, g) == g;
      Distributes(p, each - p, g);
      TimesMonotone(1, each - p, g);
      Reordered(f.depth, g, spec.scratchBytes);
      assert !BatchFits(left, spec, f);
    }
  }

  predicate BatchFits(left: nat, spec: KernelSpec, f: Fitted)
    requires f.perGroup > 0
  {
    var fits := NoncesIn(left, spec, f);
    fits >= f.perGroup ==> Allocated(spec, f.(maxBatch := WholeOf(fits, f.perGroup))) <= left
  }

  lemma Reordered(x: nat, y: nat, z: nat)
    ensures x * (y * z) == (z * x) * y
  {
  }

  // Four times 2^62 bytes count as one: the kernel is accepted, with the largest batch.
  lemma WrappedScratchOverflows()
    ensures var spec := KernelSpec(Spec(0, 0), 4, 64, 1, false, 1, false, 0x4000_0000_0000_0000, 1);
            var info := Device(Limits(0, 0), Discrete, 0x4000_0000, 0, 0, 0);
            var f := Fitted(4, 64, 1, 1, 64, K.MAX_BATCH);
            && KernelFit(info, spec, Options(0, 0, 0), 0) == Some(f)
            && !CountsAll(spec, f) && Allocated(spec, f) > info.memory
  {
    var spec := KernelSpec(Spec(0, 0), 4, 64, 1, false, 1, false, 0x4000_0000_0000_0000, 1);
    var info := Device(Limits(0, 0), Discrete, 0x4000_0000, 0, 0, 0);
    var shape := Shape(info, spec, Options(0, 0, 0)).value;
    ThreeQuarters(info);
    assert PerNonce(spec, shape) == 1 && NoncesThatFit(info, spec, shape, 0) == K.MAX_BATCH;
  }

  lemma SharesAddUp(n: nat, each: nat, whole: nat)
    requires n > 0 && each <= whole / n
    ensures n * each <= whole
  {
    Split(whole, n);
    TimesMonotone(each, whole / n, n);
  }

  lemma AtMostLeft(fits: nat, batch: nat, left: nat, bytes: nat, depth: nat, perNonce: nat)
    requires perNonce > 0 && perNonce >= bytes * depth && batch <= fits <= left / perNonce
    ensures depth * (batch * bytes) <= left
  {
    Split(left, perNonce);
    TimesMonotone(batch, left / perNonce, perNonce);
    TimesMonotone(bytes * depth, perNonce, batch);
    Reordered(depth, batch, bytes);
  }

  // Each lane of a nonce indexes scratch of its own, and the buffers were made
  // for a nonce each: the largest dispatch stays within them if and only if there
  // is one lane.
  lemma ScratchInBoundsIff(spec: KernelSpec, f: Fitted)
    requires f.maxBatch > 0 && spec.scratchBytes > 0 && f.lanes > 0
    ensures (forall i: nat :: i < f.maxBatch * f.lanes ==> InBuffer(i, spec.scratchBytes, f.maxBatch * spec.scratchBytes))
      <==> f.lanes == 1
  {
    if f.lanes == 1 {
      forall i: nat | i < f.maxBatch * f.lanes ensures InBuffer(i, spec.scratchBytes, f.maxBatch * spec.scratchBytes) {
        TimesMonotone(i + 1, f.maxBatch, spec.scratchBytes);
      }
    } else {
      TimesMonotone(2, f.lanes, f.maxBatch);
      NextOffset(f.maxBatch, 0, spec.scratchBytes);
      assert !InBuffer(f.maxBatch, spec.scratchBytes, f.maxBatch * spec.scratchBytes);
    }
  }

  // Two lanes to a nonce on a device of 2^30 bytes: accepted, and the first
  // invocation of the second half of a full dispatch is out of bounds.
  lemma LanesOutOfBounds()
    ensures var spec := KernelSpec(Spec(0, 0), 1, 64, 2, false, 1, false, 0x1000, 1);
            var info := Device(Limits(0, 0), Discrete, 0x4000_0000, 0, 0, 0);
            var f := Fitted(1, 64, 2, 1, 32, 0x1_8000);
            && KernelFit(info, spec, Options(0, 0, 0), 0) == Some(f)
            && f.maxBatch < f.maxBatch * f.lanes && !InBuffer(f.maxBatch, spec.scratchBytes, f.maxBatch * spec.scratchBytes)
  {
    var spec := KernelSpec(Spec(0, 0), 1, 64, 2, false, 1, false, 0x1000, 1);
    var info := Device(Limits(0, 0), Discrete, 0x4000_0000, 0, 0, 0);
    var shape := Fitted(1, 64, 2, 1, 32, K.MAX_BATCH);
    assert Shape(info, spec, Options(0, 0, 0)) == Some(shape);
    ThreeQuarters(info);
    TwoLanesFit(info, spec, shape);
  }

  lemma ThreeQuarters(info: Device)
    requires info.kind.Discrete? && info.memory == 0x4000_0000
    ensures ScratchBudget(info) == 0x3000_0000
  {
  }

  lemma TwoLanesFit(info: Device, spec: KernelSpec, shape: Fitted)
    requires ScratchBudget(info) == 0x3000_0000 && shape == Fitted(1, 64, 2, 1, 32, K.MAX_BATCH)
    requires spec.scratchBytes == 0x1000 && spec.concurrent == 1
    ensures NoncesThatFit(info, spec, shape, 0) == 0x1_8000 && WholeOf(0x1_8000, 32) == 0x1_8000
  {
    assert PerNonce(spec, shape) == 0x2000;
    assert Div(0x3000_0000, 1) == 0x3000_0000 && Div(0x3000_0000, 0x2000) == 0x1_8000;
  }

  // The scratch of invocation `i` is within the buffer.
  predicate InBuffer(i: nat, bytes: nat, size: nat) {
    (i + 1) * bytes <= size
  }

  lemma AcceptedIsSound(info: Device, spec: KernelSpec, opt: Options, sharedBytes: nat)
    requires KernelFit(info, spec, opt, sharedBytes).Some?
    ensures var f := KernelFit(info, spec, opt, sharedBytes).value;
            && (f.perGroup <= K.MAX_BATCH ==> forall groups: nat :: K.Sane(Controlled(f, groups)))
            && (spec.scratchBytes > 0 && spec.scratchBytes * f.depth * f.lanes < WORD64 ==>
                  Sharing(spec) * Allocated(spec, f) + sharedBytes <= ScratchBudget(info))
  {
    var f := KernelFit(info, spec, opt, sharedBytes).value;
    forall groups: nat ensures f.perGroup <= K.MAX_BATCH ==> K.Sane(Controlled(f, groups)) {
      FitIsSane(info, spec, opt, sharedBytes, groups);
    }
    if spec.scratchBytes > 0 && spec.scratchBytes * f.depth * f.lanes < WORD64 {
      CountsAllUnwrapped(spec, f);
      ScratchWithinBudget(info, spec, opt, sharedBytes);
    }
  }

  // vulkan_kernel_fit: what it accepts is fit for the controller and, where a nonce's
  // bytes do not wrap, within the budget.
  method FitKernel(info: Device, spec: KernelSpec, opt: Options, sharedBytes: nat) returns (r: Option<Fitted>)
    ensures r == KernelFit(info, spec, opt, sharedBytes)
    ensures r.Some? && r.value.perGroup <= K.MAX_BATCH ==>
      forall groups: nat :: K.Sane(Controlled(r.value, groups))
    ensures r.Some? && spec.scratchBytes > 0 && spec.scratchBytes * r.value.depth * r.value.lanes < WORD64 ==>
      Sharing(spec) * Allocated(spec, r.value) + sharedBytes <= ScratchBudget(info)
  {
    if KernelFit(info, spec, opt, sharedBytes).Some? {
      AcceptedIsSound(info, spec, opt, sharedBytes);
    }
    var shape := FitShape(info, spec, opt);
    if shape.None? {
      return None;
    }
    var fit := shape.value;
    if spec.scratchBytes == 0 {
      return Some(fit);
    }
    if info.memory == 0 {
      return None;
    }
    var budget := ScratchBudget(info);
    if sharedBytes >= budget {
      return None;
    }
    var fits := NoncesThatFit(info, spec, fit, sharedBytes);
    if fit.perGroup == 0 || fits < fit.perGroup {
      return None;
    }
    return Some(fit.(maxBatch := WholeOf(fits, fit.perGroup)));
  }
}
