// backends/vulkan/shared_state.cpp: the table of an algorithm on a device, in
// pieces no larger than one binding may be, copied up by the host or generated by
// the device in slices.

module SharedTable {
  import opened Arithmetic
  import opened Wrappers

  // What a device admits; 0 where it does not say.
  datatype Limits = Limits(maxAllocation: nat, maxBindingRange: nat)

  // What a kernel asks for: pieces of this size at most, where not 0, and how
  // many bindings its shader declares for them.
  datatype Spec = Spec(chunkBytes: nat, chunks: nat)

  datatype Plan = Plan(chunk: nat, count: nat)

  const MAX_SHARED_CHUNKS: nat := 16

  // ------------------------------------------------------- powers of two

  function FloorLog2(n: nat): (k: nat)
    requires n >= 1
    ensures Pow2(k) <= n < 2 * Pow2(k)
  {
    if n == 1 then 0 else 1 + FloorLog2(n / 2)
  }

  function FloorPow2(n: nat): (p: nat)
    requires n >= 1
    ensures p <= n < 2 * p
  {
    Pow2(FloorLog2(n))
  }

  lemma {:induction false} OnePower(j: nat, k: nat, n: nat)
    requires Pow2(j) <= n < 2 * Pow2(j) && Pow2(k) <= n < 2 * Pow2(k)
    ensures j == k
  {
    if j < k { Pow2Monotone(j + 1, k); } else if k < j { Pow2Monotone(k + 1, j); }
  }

  // floor_pow2
  method LargestPow2(n: nat) returns (p: nat)
    requires n >= 1
    ensures p == FloorPow2(n)
  {
    p := 1;
    ghost var k := 0;
    while p <= n / 2
      invariant p == Pow2(k) <= n
      decreases n - p
    {
      p := p * 2;
      k := k + 1;
    }
    OnePower(k, FloorLog2(n), n);
  }

  // ------------------------------------------------------------- the plan

  function AtMost(bytes: nat, limit: nat): nat {
    if limit != 0 && limit < bytes then limit else bytes
  }

  function ChunkOf(info: Limits, spec: Spec, bytes: nat): nat {
    var most := AtMost(AtMost(bytes, info.maxAllocation), info.maxBindingRange);
    var wanted := AtMost(AtMost(bytes, spec.chunkBytes), most);
    if 0 < wanted < bytes then FloorPow2(wanted) else wanted
  }

  function CeilDiv(x: nat, y: nat): nat
    requires y > 0
  {
    (x + y - 1) / y
  }

  // How the device would cut up a table of `bytes`, if it would hold it.
  function Planned(info: Limits, spec: Spec, bytes: nat): (r: Option<Plan>)
    ensures r.Some? ==> 0 < r.value.chunk <= bytes
  {
    var most := AtMost(AtMost(bytes, info.maxAllocation), info.maxBindingRange);
    if most == 0 then None
    else
      var chunk := ChunkOf(info, spec, bytes);
      var pieces := CeilDiv(bytes, chunk);
      var declared := if spec.chunks != 0 then spec.chunks else 1;
      if bytes % 16 != 0 || chunk % 16 != 0 || declared > MAX_SHARED_CHUNKS || pieces > declared then None
      else Some(Plan(chunk, pieces))
  }

  // SharedState::plan
  method MakePlan(info: Limits, spec: Spec, bytes: nat) returns (r: Option<Plan>)
    ensures r == Planned(info, spec, bytes)
  {
    var most := bytes;
    if info.maxAllocation != 0 && info.maxAllocation < most {
      most := info.maxAllocation;
    }
    if info.maxBindingRange != 0 && info.maxBindingRange < most {
      most := info.maxBindingRange;
    }
    if most == 0 {
      return None;
    }
    var chunk := bytes;
    if spec.chunkBytes != 0 && spec.chunkBytes < chunk {
      chunk := spec.chunkBytes;
    }
    if chunk > most {
      chunk := most;
    }
    if chunk < bytes {
      chunk := LargestPow2(chunk);
    }
    assert chunk == ChunkOf(info, spec, bytes);
    var pieces := CeilDiv(bytes, chunk);
    if bytes % 16 != 0 || chunk % 16 != 0 {
      return None;
    }
    var declared := if spec.chunks != 0 then spec.chunks else 1;
    if declared > MAX_SHARED_CHUNKS || pieces > declared {
      return None;
    }
    return Some(Plan(chunk, pieces));
  }

  // ------------------------------------------------------------ the pieces

  // Byte `x` of piece `p`, counted through the table.
  function Offset(p: nat, x: nat, chunk: nat): nat {
    p * chunk + x
  }

  // All pieces are of one size but the last of the table, which has what is left.
  ghost predicate Pieces(pieces: seq<seq<int>>, total: nat, chunk: nat) {
    && chunk > 0
    && forall p :: 0 <= p < |pieces| ==>
         && Offset(p, 0, chunk) < total
         && |pieces[p]| == if total - Offset(p, 0, chunk) < chunk then total - Offset(p, 0, chunk) else chunk
  }

  // And there are enough of them.
  ghost predicate Cut(pieces: seq<seq<int>>, total: nat, chunk: nat) {
    Pieces(pieces, total, chunk) && Offset(|pieces|, 0, chunk) >= total
  }

  lemma NextOffset(p: nat, q: nat, chunk: nat)
    ensures Offset(p + 1, 0, chunk) == Offset(p, chunk, chunk)
    ensures p < q ==> Offset(p + 1, 0, chunk) <= Offset(q, 0, chunk)
  {
    if p < q { TimesMonotone(p + 1, q, chunk); }
  }

  // SharedState::create: the buffers, with whatever is in them.
  method Allocate(total: nat, chunk: nat) returns (pieces: seq<seq<int>>)
    requires chunk > 0
    ensures Cut(pieces, total, chunk)
  {
    pieces := [];
    var first := 0;
    while first < total
      invariant first == Offset(|pieces|, 0, chunk)
      invariant forall p :: 0 <= p < |pieces| ==>
        && Offset(p, 0, chunk) < total
        && |pieces[p]| == if total - Offset(p, 0, chunk) < chunk then total - Offset(p, 0, chunk) else chunk
      decreases total - first
    {
      var left := total - first;
      NextOffset(|pieces|, 0, chunk);
      pieces := pieces + [seq(if left < chunk then left else chunk, _ => 0)];
      first := first + chunk;
    }
  }

  // What the table of one key is: items of `size` bytes, one after another.
  function Byte(item: nat -> seq<int>, size: nat, o: nat): int
    requires size > 0
  {
    if o % size < |item(o / size)| then item(o / size)[o % size] else 0
  }

  // The first `n` bytes of the table are in place.
  ghost predicate Holds(pieces: seq<seq<int>>, chunk: nat, item: nat -> seq<int>, size: nat, n: nat)
    requires size > 0
  {
    forall p, x :: 0 <= p < |pieces| && 0 <= x < |pieces[p]| && Offset(p, x, chunk) < n ==>
      pieces[p][x] == Byte(item, size, Offset(p, x, chunk))
  }

  function Written(pieces: seq<seq<int>>, p: nat, x: nat, data: seq<int>): seq<seq<int>>
    requires p < |pieces| && x + |data| <= |pieces[p]|
  {
    pieces[p := pieces[p][..x] + data + pieces[p][x + |data|..]]
  }

  // A write within one piece, where the table has been filled up to it.
  lemma WrittenHolds(pieces: seq<seq<int>>, total: nat, chunk: nat, item: nat -> seq<int>, size: nat,
                     p: nat, x: nat, data: seq<int>)
    requires size > 0 && Pieces(pieces, total, chunk) && p < |pieces| && x + |data| <= |pieces[p]|
    requires Holds(pieces, chunk, item, size, Offset(p, x, chunk))
    requires Run(item, size, Offset(p, x, chunk), data)
    ensures Pieces(Written(pieces, p, x, data), total, chunk)
    ensures Holds(Written(pieces, p, x, data), chunk, item, size, Offset(p, x, chunk) + |data|)
  {
    var r := Written(pieces, p, x, data);
    forall q, y | 0 <= q < |r| && 0 <= y < |r[q]| && Offset(q, y, chunk) < Offset(p, x, chunk) + |data|
      ensures r[q][y] == Byte(item, size, Offset(q, y, chunk))
    {
      NextOffset(q, p, chunk);
      NextOffset(p, q, chunk);
      if q == p && x <= y { assert r[q][y] == data[y - x]; }
    }
  }

  // Pieces of the table have one content, however they came by it.
  lemma OneContent(a: seq<seq<int>>, b: seq<seq<int>>, total: nat, chunk: nat, item: nat -> seq<int>, size: nat)
    requires size > 0 && Cut(a, total, chunk) && Cut(b, total, chunk)
    requires Holds(a, chunk, item, size, total) && Holds(b, chunk, item, size, total)
    ensures a == b
  {
    NextOffset(|a|, |b|, chunk);
    NextOffset(|b|, |a|, chunk);
    forall p | 0 <= p < |a| ensures a[p] == b[p] {
      forall x | 0 <= x < |a[p]| ensures a[p][x] == b[p][x] {
      }
    }
  }

  // The shader reads byte `o` of the table in piece o / chunk at o mod chunk.
  lemma ReadsCanonical(pieces: seq<seq<int>>, total: nat, chunk: nat, item: nat -> seq<int>, size: nat, o: nat)
    requires size > 0 && Cut(pieces, total, chunk) && Holds(pieces, chunk, item, size, total) && o < total
    ensures o / chunk < |pieces| && o % chunk < |pieces[o / chunk]|
    ensures pieces[o / chunk][o % chunk] == Byte(item, size, o)
  {
    var p, x := o / chunk, o % chunk;
    Split(o, chunk);
    Within(pieces, total, chunk, p, x);
    assert Offset(p, x, chunk) == o;
  }

  lemma Within(pieces: seq<seq<int>>, total: nat, chunk: nat, p: nat, x: nat)
    requires Cut(pieces, total, chunk) && x < chunk && Offset(p, x, chunk) < total
    ensures p < |pieces| && x < |pieces[p]|
  {
    if p >= |pieces| { TimesMonotone(|pieces|, p, chunk); }
    if p + 1 < |pieces| { NextOffset(p, p + 1, chunk); }
  }

  // As many pieces as the plan says, in a power of two where there are several.
  lemma PlanIsCut(info: Limits, spec: Spec, bytes: nat, pieces: seq<seq<int>>)
    requires Planned(info, spec, bytes).Some? && Cut(pieces, bytes, Planned(info, spec, bytes).value.chunk)
    ensures |pieces| == Planned(info, spec, bytes).value.count
    ensures |pieces| > 1 ==> exists k :: Pow2(k) == Planned(info, spec, bytes).value.chunk
  {
    var chunk := Planned(info, spec, bytes).value.chunk;
    CountIsCeil(pieces, bytes, chunk);
    if |pieces| > 1 {
      NextOffset(0, 1, chunk);
      assert |pieces[1]| >= 0 && chunk < bytes;
      var most := AtMost(AtMost(bytes, info.maxAllocation), info.maxBindingRange);
      var wanted := AtMost(AtMost(bytes, spec.chunkBytes), most);
      assert Pow2(FloorLog2(wanted)) == chunk;
    }
  }

  lemma CountIsCeil(pieces: seq<seq<int>>, total: nat, chunk: nat)
    requires Cut(pieces, total, chunk) && total > 0
    ensures |pieces| == CeilDiv(total, chunk)
  {
    var n := |pieces|;
    assert Offset(0, 0, chunk) == 0;
    NextOffset(n - 1, n, chunk);
    assert |pieces[n - 1]| >= 0;
    Quotient(n - 1, total - 1 - Offset(n - 1, 0, chunk), chunk);
    assert (total - 1) / chunk == n - 1;
    OneMore(total - 1, chunk);
  }

  lemma OneMore(x: nat, n: nat)
    requires n > 0
    ensures (x + n) / n == x / n + 1
  {
    var q, r := x / n, x % n;
    Split(x, n);
    Distributes(q, 1, n);
    Quotient(q + 1, r, n);
  }

  // An item of a power of two of bytes fits a planned piece a whole number of times
  // if and only if it fits once.
  lemma PlannedDividesIff(info: Limits, spec: Spec, bytes: nat, k: nat)
    requires Planned(info, spec, bytes).Some? && bytes % Pow2(k) == 0
    ensures Planned(info, spec, bytes).value.chunk % Pow2(k) == 0 <==> Pow2(k) <= Planned(info, spec, bytes).value.chunk
  {
    var chunk, size := Planned(info, spec, bytes).value.chunk, Pow2(k);
    if chunk < size {
      Quotient(0, chunk, size);
    } else if chunk < bytes {
      var most := AtMost(AtMost(bytes, info.maxAllocation), info.maxBindingRange);
      var wanted := AtMost(AtMost(bytes, spec.chunkBytes), most);
      var j := FloorLog2(wanted);
      assert chunk == Pow2(j);
      if j < k { Pow2Monotone(j + 1, k); }
      Pow2Divides(k, j);
    }
  }

  // --------------------------------------------------------------- upload

  const STAGING_BYTES: nat := 0x80_0000   // 8 MiB

  // A run of the table from `offset` on.
  ghost predicate Run(item: nat -> seq<int>, size: nat, offset: nat, data: seq<int>)
    requires size > 0
  {
    forall i :: 0 <= i < |data| ==> data[i] == Byte(item, size, offset + i)
  }

  // The host's producer, algorithms/progpow/progpow.cpp: bytes from `offset` on,
  // an item at a time. An item may fail to come.
  method HostBytes(item: nat -> seq<int>, size: nat, offset: nat, bytes: nat, comes: nat -> bool)
    returns (ok: bool, out: seq<int>)
    requires size > 0 && forall i :: |item(i)| == size
    ensures ok ==> |out| == bytes && Run(item, size, offset, out)
    ensures (forall i :: comes(i)) ==> ok
  {
    out := [];
    var o: nat, left: nat := offset, bytes;
    while left > 0
      invariant left <= bytes && |out| == bytes - left && o == offset + |out|
      invariant Run(item, size, offset, out)
    {
      var came, run := PartOfItem(item, size, o, left, comes);
      if !came {
        return false, out;
      }
      RunsJoin(item, size, offset, out, run);
      out := out + run;
      o := o + |run|;
      left := left - |run|;
    }
    ok := true;
  }

  // From byte `o` to the end of the item it is in, or as far as is wanted.
  method PartOfItem(item: nat -> seq<int>, size: nat, o: nat, left: nat, comes: nat -> bool)
    returns (ok: bool, run: seq<int>)
    requires size > 0 && |item(o / size)| == size && left > 0
    ensures ok <==> comes(o / size)
    ensures ok ==> 0 < |run| <= left && Run(item, size, o, run)
  {
    var index, at := o / size, o % size;
    var span := if left < size - at then left else size - at;
    run := item(index)[at..at + span];
    ok := comes(index);
    ItemRun(item, size, o, span);
  }

  lemma ItemRun(item: nat -> seq<int>, size: nat, o: nat, span: nat)
    requires size > 0 && |item(o / size)| == size && o % size + span <= size
    ensures Run(item, size, o, item(o / size)[o % size..o % size + span])
  {
    var run := item(o / size)[o % size..o % size + span];
    forall i | 0 <= i < span ensures run[i] == Byte(item, size, o + i) {
      WithinItem(o, i, size);
    }
  }

  lemma RunsJoin(item: nat -> seq<int>, size: nat, o: nat, a: seq<int>, b: seq<int>)
    requires size > 0 && Run(item, size, o, a) && Run(item, size, o + |a|, b)
    ensures Run(item, size, o, a + b)
  {
    forall i | 0 <= i < |a + b| ensures (a + b)[i] == Byte(item, size, o + i) {
      if i >= |a| { assert b[i - |a|] == Byte(item, size, o + |a| + (i - |a|)); }
    }
  }

  lemma WithinItem(o: nat, i: nat, size: nat)
    requires size > 0 && o % size + i < size
    ensures (o + i) / size == o / size && (o + i) % size == o % size + i
  {
    Split(o, size);
    Quotient(o / size, o % size + i, size);
  }

  // SharedState::upload: staged copies, none across two pieces. `comes` is whether
  // the host produces an item, `works` whether the k-th copy gets done.
  method Upload(dst: seq<seq<int>>, total: nat, chunk: nat, item: nat -> seq<int>, size: nat,
                comes: nat -> bool, works: nat -> bool)
    returns (ok: bool, pieces: seq<seq<int>>)
    requires Pieces(dst, total, chunk) && size > 0 && forall i :: |item(i)| == size
    ensures ok ==> Cut(pieces, total, chunk) && Holds(pieces, chunk, item, size, total)
    ensures Cut(dst, total, chunk) && (forall i :: comes(i)) && (forall k :: works(k)) ==> ok
  {
    pieces := dst;
    var staging := if total < STAGING_BYTES then total else STAGING_BYTES;
    var offset: nat, piece: nat, within: nat, copies: nat := 0, 0, 0, 0;
    while offset < total
      invariant |pieces| == |dst| && Pieces(pieces, total, chunk) && Holds(pieces, chunk, item, size, offset)
      invariant offset <= total && piece <= |pieces| && offset == Offset(piece, within, chunk)
      invariant if piece < |pieces| then within <= |pieces[piece]| else within == 0
      decreases total - offset
    {
      if piece < |pieces| && within == |pieces[piece]| {
        NextOffset(piece, 0, chunk);
        piece := piece + 1;
        within := 0;
      }
      if piece >= |pieces| {
        return false, pieces;
      }
      var span := staging;
      if span > |pieces[piece]| - within {
        span := |pieces[piece]| - within;
      }
      if span > total - offset {
        span := total - offset;
      }
      var filled, data := HostBytes(item, size, offset, span, comes);
      if !filled {
        return false, pieces;
      }
      if !works(copies) {
        return false, pieces;
      }
      WrittenHolds(pieces, total, chunk, item, size, piece, within, data);
      pieces := Written(pieces, piece, within, data);
      copies := copies + 1;
      offset := offset + span;
      within := within + span;
    }
    if piece < |pieces| {
      NextOffset(piece, piece + 1, chunk);
      NextOffset(piece, |pieces|, chunk);
    }
    ok := true;
  }

  // -------------------------------------------------------------- generate

  const FIRST_SLICE: nat := 0x400
  const MAX_SLICE: nat := 0x10_0000
  const SLICE_SECONDS: real := 0.25
  const SLICE_GROWTH: real := 4.0

  // The size of the next slice, from what one of `slice` items took.
  function NextSlice(slice: nat, seconds: real): (n: nat)
    requires slice >= 1
    ensures 1 <= n <= MAX_SLICE
  {
    var most := slice as real * SLICE_GROWTH;
    var aimed := if seconds > 0.0 then slice as real * (SLICE_SECONDS / seconds) else most;
    var capped := if aimed > most then most else aimed;
    var want := if capped < 1.0 then 1.0 else capped;
    if want > MAX_SLICE as real then MAX_SLICE else want.Floor
  }

  // What the setup shader writes for `count` items: each at its own slot.
  function ItemsFrom(item: nat -> seq<int>, first: nat, count: nat): seq<int> {
    if count == 0 then [] else ItemsFrom(item, first, count - 1) + item(first + count - 1)
  }

  lemma {:induction false} ItemsAreRun(item: nat -> seq<int>, size: nat, first: nat, count: nat)
    requires size > 0 && forall i :: |item(i)| == size
    ensures |ItemsFrom(item, first, count)| == count * size
    ensures Run(item, size, first * size, ItemsFrom(item, first, count))
  {
    if count > 0 {
      var k := first + count - 1;
      ItemsAreRun(item, size, first, count - 1);
      assert count * size == (count - 1) * size + size && first * size + (count - 1) * size == k * size;
      OneItemIsRun(item, size, k);
      RunsJoin(item, size, first * size, ItemsFrom(item, first, count - 1), item(k));
    }
  }

  lemma OneItemIsRun(item: nat -> seq<int>, size: nat, k: nat)
    requires size > 0 && |item(k)| == size
    ensures Run(item, size, k * size, item(k))
  {
    forall i | 0 <= i < size ensures item(k)[i] == Byte(item, size, k * size + i) {
      Quotient(k, i, size);
    }
  }

  // Where item `first` goes: at slot `place` of piece `p`.
  lemma SliceFits(pieces: seq<seq<int>>, total: nat, chunk: nat, size: nat, items: nat, perChunk: nat,
                  p: nat, place: nat, first: nat, count: nat)
    requires size > 0 && Cut(pieces, total, chunk) && items * size <= total
    requires if |pieces| > 1 then chunk == perChunk * size else perChunk == items
    requires first == p * perChunk + place && first < items && place + count <= perChunk && first + count <= items
    ensures p < |pieces| && Offset(p, place * size, chunk) == first * size && place * size + count * size <= |pieces[p]|
  {
    if |pieces| > 1 {
      PlaceFits(pieces, total, chunk, size, items, perChunk, p, place, first, count);
    } else {
      if p > 0 { TimesMonotone(1, p, items); }
      OnePieceFits(pieces, total, chunk, size, items, first, count);
    }
  }

  lemma OnePieceFits(pieces: seq<seq<int>>, total: nat, chunk: nat, size: nat, items: nat, first: nat, count: nat)
    requires size > 0 && Cut(pieces, total, chunk) && items * size <= total && |pieces| <= 1
    requires first < items && first + count <= items
    ensures |pieces| == 1 && first * size + count * size <= |pieces[0]|
  {
    TimesMonotone(first + 1, items, size);
    TimesMonotone(first + count, items, size);
    SliceOffset(0, 0, first, size, first, count);
    Lengths(pieces, total, chunk, 0, first * size + count * size);
  }

  lemma PlaceFits(pieces: seq<seq<int>>, total: nat, chunk: nat, size: nat, items: nat, perChunk: nat,
                  p: nat, place: nat, first: nat, count: nat)
    requires size > 0 && Cut(pieces, total, chunk) && items * size <= total && chunk == perChunk * size
    requires first == p * perChunk + place && place + count <= perChunk && first < items && first + count <= items
    ensures p < |pieces| && Offset(p, place * size, chunk) == first * size
    ensures place * size + count * size <= |pieces[p]|
  {
    TimesMonotone(first + 1, items, size);
    TimesMonotone(first + count, items, size);
    TimesMonotone(place + count, perChunk, size);
    SliceOffset(p, perChunk, place, size, first, count);
    if p >= |pieces| { TimesMonotone(|pieces|, p, chunk); }
    Lengths(pieces, total, chunk, p, place * size + count * size);
  }

  lemma SliceOffset(p: nat, perChunk: nat, place: nat, size: nat, first: nat, count: nat)
    requires first == p * perChunk + place
    ensures p * (perChunk * size) + place * size == first * size
    ensures (place + count) * size == place * size + count * size && (first + count) * size == first * size + count * size
  {
    assert p * (perChunk * size) == (p * perChunk) * size;
  }

  lemma Lengths(pieces: seq<seq<int>>, total: nat, chunk: nat, p: nat, x: nat)
    requires Cut(pieces, total, chunk) && p < |pieces| && x <= chunk && Offset(p, x, chunk) <= total
    ensures x <= |pieces[p]|
  {
  }

  // SharedState::generate: the setup pass over the table, a piece at a time, in
  // slices sized by what the last one took. An item has the table's bytes over the
  // number of items; where these do not divide the table, and it is one piece, its
  // end is left as it was.
  method Generate(dst: seq<seq<int>>, total: nat, chunk: nat, item: nat -> seq<int>, size: nat, items: nat,
                  seconds: nat -> real, works: nat -> bool)
    returns (ok: bool, pieces: seq<seq<int>>)
    requires Cut(dst, total, chunk) && size > 0 && forall i :: |item(i)| == size
    requires items > 0 ==> size == total / items
    ensures ok ==> Cut(pieces, total, chunk) && Holds(pieces, chunk, item, size, items * size)
    ensures ok && |dst| > 1 ==> items * size == total
    ensures (forall k :: works(k)) ==> (ok <==> |dst| <= 1 || (items * size == total && chunk % size == 0))
  {
    pieces := dst;
    var perChunk := items;
    ItemsWithin(total, size, items);
    if |pieces| > 1 {
      MorePiecesMoreItems(pieces, total, chunk, size, items);
      var itemBytes := if items != 0 then total / items else 0;
      if itemBytes == 0 || itemBytes * items != total || chunk % itemBytes != 0 {
        return false, pieces;
      }
      perChunk := chunk / itemBytes;
    }
    ok, pieces := Slices(pieces, total, chunk, item, size, items, perChunk, seconds, works);
  }

  lemma ItemsWithin(total: nat, size: nat, items: nat)
    requires items > 0 ==> size == total / items
    ensures items * size <= total
  {
    if items > 0 { Split(total, items); }
  }

  lemma MorePiecesMoreItems(pieces: seq<seq<int>>, total: nat, chunk: nat, size: nat, items: nat)
    requires Cut(pieces, total, chunk) && |pieces| > 1 && size > 0
    ensures total > 0 && (items == 0 ==> items * size != total)
    ensures chunk % size == 0 ==> chunk / size > 0 && chunk == chunk / size * size
  {
    assert Offset(1, 0, chunk) < total by { assert |pieces[1]| >= 0; }
    Split(chunk, size);
  }

  lemma PlaceWithin(first: nat, perChunk: nat)
    requires perChunk > 0
    ensures 0 <= first - first / perChunk * perChunk < perChunk
  {
    Split(first, perChunk);
  }

  // Where the next slice goes, and how many items are left of it in that piece.
  method NextItems(first: nat, items: nat, perChunk: nat, slice: nat) returns (piece: nat, place: nat, count: nat)
    requires first < items && perChunk > 0 && slice > 0
    ensures first == piece * perChunk + place && place + count <= perChunk && first + count <= items
    ensures 0 < count <= slice && (count == slice || first + count == items || place + count == perChunk)
  {
    piece := first / perChunk;
    PlaceWithin(first, perChunk);
    place := first - piece * perChunk;
    var left := items - first;
    if left > perChunk - place {
      left := perChunk - place;
    }
    count := if left < slice then left else slice;
  }

  method Slices(dst: seq<seq<int>>, total: nat, chunk: nat, item: nat -> seq<int>, size: nat, items: nat,
                perChunk: nat, seconds: nat -> real, works: nat -> bool)
    returns (ok: bool, pieces: seq<seq<int>>)
    requires Cut(dst, total, chunk) && size > 0 && items * size <= total && forall i :: |item(i)| == size
    requires items > 0 ==> perChunk > 0
    requires if |dst| > 1 then chunk == perChunk * size else perChunk == items
    ensures ok ==> Cut(pieces, total, chunk) && Holds(pieces, chunk, item, size, items * size)
    ensures (forall k :: works(k)) ==> ok
  {
    pieces := dst;
    var slice: nat, first: nat, passes: nat := FIRST_SLICE, 0, 0;
    while first < items
      invariant 1 <= slice <= MAX_SLICE && first <= items
      invariant |pieces| == |dst| && Cut(pieces, total, chunk) && Holds(pieces, chunk, item, size, first * size)
      decreases items - first
    {
      var piece, place, count := NextItems(first, items, perChunk, slice);
      if !works(passes) {
        return false, pieces;
      }
      pieces := RunSlice(pieces, total, chunk, item, size, items, perChunk, piece, place, first, count);
      slice := NextSlice(slice, seconds(passes));
      passes := passes + 1;
      first := first + count;
    }
    ok := true;
  }

  lemma SliceHolds(dst: seq<seq<int>>, total: nat, chunk: nat, item: nat -> seq<int>, size: nat,
                   p: nat, x: nat, first: nat, count: nat)
    requires Cut(dst, total, chunk) && size > 0 && forall i :: |item(i)| == size
    requires p < |dst| && Offset(p, x, chunk) == first * size && x + count * size <= |dst[p]|
    requires |ItemsFrom(item, first, count)| == count * size && Run(item, size, first * size, ItemsFrom(item, first, count))
    requires Holds(dst, chunk, item, size, first * size)
    ensures var r := Written(dst, p, x, ItemsFrom(item, first, count));
            Cut(r, total, chunk) && Holds(r, chunk, item, size, (first + count) * size)
  {
    WrittenHolds(dst, total, chunk, item, size, p, x, ItemsFrom(item, first, count));
    Distributes(first, count, size);
  }

  // One slice, which writes item first + i at slot place + i of the bound piece.
  method RunSlice(dst: seq<seq<int>>, total: nat, chunk: nat, item: nat -> seq<int>, size: nat, items: nat,
                  perChunk: nat, piece: nat, place: nat, first: nat, count: nat)
    returns (pieces: seq<seq<int>>)
    requires Cut(dst, total, chunk) && size > 0 && items * size <= total && forall i :: |item(i)| == size
    requires if |dst| > 1 then chunk == perChunk * size else perChunk == items
    requires first == piece * perChunk + place && first < items && place + count <= perChunk && first + count <= items
    requires Holds(dst, chunk, item, size, first * size)
    ensures |pieces| == |dst| && Cut(pieces, total, chunk) && Holds(pieces, chunk, item, size, (first + count) * size)
  {
    SliceFits(dst, total, chunk, size, items, perChunk, piece, place, first, count);
    ItemsAreRun(item, size, first, count);
    SliceHolds(dst, total, chunk, item, size, piece, place * size, first, count);
    pieces := Written(dst, piece, place * size, ItemsFrom(item, first, count));
  }

  // However the table is filled, it is the same table, if it is filled whole.
  method FillBothWays(dst: seq<seq<int>>, total: nat, chunk: nat, item: nat -> seq<int>, size: nat, items: nat,
                      seconds: nat -> real, works: nat -> bool, comes: nat -> bool)
    returns (generated: Option<seq<seq<int>>>, uploaded: Option<seq<seq<int>>>)
    requires Cut(dst, total, chunk) && size > 0 && forall i :: |item(i)| == size
    requires items > 0 ==> size == total / items
    ensures generated.Some? && uploaded.Some? && (|dst| > 1 || items * size == total) ==> generated == uploaded
    ensures (forall k :: works(k)) && (forall i :: comes(i)) && (|dst| <= 1 || (items * size == total && chunk % size == 0)) ==>
      generated.Some? && uploaded.Some?
  {
    var okG, g := Generate(dst, total, chunk, item, size, items, seconds, works);
    var okU, u := Upload(dst, total, chunk, item, size, comes, works);
    if okG && okU && items * size == total {
      OneContent(g, u, total, chunk, item, size);
    }
    generated := if okG then Some(g) else None;
    uploaded := if okU then Some(u) else None;
  }

  lemma SizeOfItem(items: nat, size: nat)
    ensures items > 0 ==> items * size / items == size
  {
    if items > 0 { Quotient(size, 0, items); }
  }

  // So a table of such items that the device has a plan for is filled, both ways.
  method CreateFilled(info: Limits, spec: Spec, item: nat -> seq<int>, k: nat, items: nat,
                      seconds: nat -> real, works: nat -> bool, comes: nat -> bool)
    returns (generated: Option<seq<seq<int>>>, uploaded: Option<seq<seq<int>>>)
    requires forall i :: |item(i)| == Pow2(k)
    ensures generated.Some? && uploaded.Some? ==> generated == uploaded
    ensures (forall i :: works(i)) && (forall i :: comes(i)) ==>
      var plan := Planned(info, spec, items * Pow2(k));
      plan.Some? && Pow2(k) <= plan.value.chunk ==> generated.Some? && uploaded.Some?
  {
    var size := Pow2(k);
    var bytes := items * size;
    var plan := MakePlan(info, spec, bytes);
    if plan.None? {
      return None, None;
    }
    var pieces := Allocate(bytes, plan.value.chunk);
    Quotient(items, 0, size);
    SizeOfItem(items, size);
    PlannedDividesIff(info, spec, bytes, k);
    generated, uploaded := FillBothWays(pieces, bytes, plan.value.chunk, item, size, items, seconds, works, comes);
  }
}
