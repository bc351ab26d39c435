// backends/vulkan/vulkan_kernel.cpp and command_ring.cpp: the queue of dispatches
// a kernel keeps on a device, the ring of command buffers and result buffers they
// use, and the controller that sizes them.

module Kernel {
  import opened Arithmetic

  const MIN_BATCH: nat := 0x1000        // 2^12
  const MAX_BATCH: nat := 0x1000_0000   // 2^28
  const TARGET_SECONDS: real := 0.05

  // What a kernel was built with.
  datatype Limits = Limits(
    depth: nat,        // dispatches outstanding at most
    perGroup: nat,     // nonces to a workgroup
    maxBatch: nat,     // nonces there is scratch for
    lanes: nat,
    nonces: nat,
    maxGroups: nat)    // workgroups to a dispatch, 0 where there is no limit

  // vulkan_kernel_fit lets nothing else through.
  predicate Sane(l: Limits) {
    && l.depth > 0 && l.lanes > 0 && l.nonces > 0
    && 0 < l.perGroup <= l.maxBatch <= MAX_BATCH
  }

  // ------------------------------------------------------------- the sizes

  function Clamp(l: Limits, batch: nat): nat
    requires l.lanes > 0
  {
    var wanted := MIN_BATCH / l.lanes * l.nonces;
    var least := if wanted < l.perGroup then l.perGroup else wanted;
    var a := if batch < least then least else batch;
    var b := if a > MAX_BATCH then MAX_BATCH else a;
    var c := if b > l.maxBatch then l.maxBatch else b;
    if l.maxGroups != 0 && c > l.maxGroups * l.perGroup then l.maxGroups * l.perGroup else c
  }

  function Groups(l: Limits, count: nat): nat
    requires l.perGroup > 0
  {
    (count + l.perGroup - 1) / l.perGroup
  }

  // A size no dispatch is refused for: a workgroup at least, within the scratch,
  // and no more workgroups than one call may have.
  predicate Fits(l: Limits, batch: nat)
    requires Sane(l)
  {
    && l.perGroup <= batch <= l.maxBatch
    && (l.maxGroups != 0 ==> Groups(l, batch) <= l.maxGroups)
  }

  lemma RoundsUp(l: Limits, count: nat, most: nat)
    requires l.perGroup > 0
    ensures Groups(l, count) <= most <==> count <= most * l.perGroup
  {
    var g, p := Groups(l, count), l.perGroup;
    var r := (count + p - 1) % p;
    assert count + p - 1 == g * p + r;
    if g <= most {
      TimesMonotone(g, most, p);
    } else {
      TimesMonotone(most + 1, g, p);
    }
  }

  lemma ClampFits(l: Limits, batch: nat)
    requires Sane(l)
    ensures Fits(l, Clamp(l, batch))
  {
    if l.maxGroups != 0 {
      TimesMonotone(1, l.maxGroups, l.perGroup);
      RoundsUp(l, Clamp(l, batch), l.maxGroups);
    }
  }

  function Bounded(scale: real): real {
    if scale > 4.0 then 4.0 else if scale < 0.25 then 0.25 else scale
  }

  // The size that would have taken the target time, a step of four at most.
  function Scaled(batch: nat, seconds: real): nat
    requires seconds > 0.0
  {
    var next := batch as real * Bounded(TARGET_SECONDS / seconds);
    if next >= MAX_BATCH as real then MAX_BATCH else Whole(next)
  }

  // The next size after a dispatch that took `seconds`.
  function Resized(l: Limits, batch: nat, seconds: real): nat
    requires l.lanes > 0 && seconds > 0.0
  {
    Clamp(l, Scaled(batch, seconds))
  }

  function Whole(x: real): nat {
    if x <= 0.0 then 0 else x.Floor
  }

  // ------------------------------------------------------------- the state

  // A dispatch that has not been collected. `ticket` numbers the dispatches,
  // `at` the uses of the ring, and `launched` is the batch size of the time.
  datatype Entry = Entry(slot: nat, count: nat, fullBatch: bool, ticket: nat, at: nat, launched: nat)

  datatype State = State(
    out: seq<Entry>,          // oldest first
    next: nat,                // the ring's next slot,
    pending: seq<bool>,       // and which of its fences are waited for
    begun: nat,               // how often the ring was used
    tickets: nat,
    owner: seq<nat>,          // whose results are in the buffers of a slot, or are to be
    batch: nat,
    hold: nat,
    prevFull: bool)

  function Start(l: Limits, batch: nat): State
    requires l.lanes > 0
  {
    State([], 0, seq(l.depth, _ => false), 0, 0, seq(l.depth, _ => 0), Clamp(l, batch), 0, false)
  }

  // What the device says to a dispatch on its way: whether the fence of a slot
  // still pending was signalled in time, and whether starting the command buffer,
  // flushing the uniform block and submitting worked.
  datatype Fate = Fate(waited: bool, started: bool, flushed: bool, submitted: bool)

  // What the device has to say when a dispatch is collected.
  datatype Ending =
    | Lost                          // the fence could not be asked
    | InTime(seconds: real)         // since the last completion
    | Late(finished: bool)          // after ten seconds, and perhaps not even a minute later

  // Whether dispatch gets as far as the ring. `ready` is what it asks of the
  // algorithm, the table and the program before.
  predicate Accepted(s: State, l: Limits, count: nat, ready: bool) {
    0 < count <= l.maxBatch && ready && |s.out| < l.depth
  }

  predicate Begun(s: State, fate: Fate)
    requires s.next < |s.pending|
  {
    (fate.waited || !s.pending[s.next]) && fate.started
  }

  predicate Sent(s: State, fate: Fate)
    requires s.next < |s.pending|
  {
    Begun(s, fate) && fate.flushed && fate.submitted
  }

  // Until it is submitted a dispatch has only recorded what is to be done to the
  // buffers. (The uniform block it writes before, but the fence of the slot has been
  // waited for, so the dispatch that had it has read it.)
  function Dispatched(s: State, l: Limits, count: nat, ready: bool, fate: Fate): State
    requires s.next < l.depth == |s.pending| == |s.owner|
  {
    if !Accepted(s, l, count, ready) then s
    else
      var slot := s.next;
      var waited := if fate.waited then s.pending[slot := false] else s.pending;
      var t := s.(next := (slot + 1) % l.depth, begun := s.begun + 1, pending := waited);
      if !Sent(s, fate) then t
      else
        t.(pending := waited[slot := true],
           owner := s.owner[slot := s.tickets],
           tickets := s.tickets + 1,
           out := s.out + [Entry(slot, count, count == s.batch, s.tickets, s.begun, s.batch)])
  }

  // retune, as far as the batch size and the hold go.
  function Retuned(s: State, l: Limits, seconds: real): State
    requires l.lanes > 0
  {
    if seconds <= 0.0 then s
    else if s.hold > 0 then s.(hold := s.hold - 1)
    else
      var batch := Resized(l, s.batch, seconds);
      s.(batch := batch, hold := if batch != s.batch then l.depth else 0)
  }

  // Whether a completion is a measurement.
  predicate Measures(s: State, l: Limits, ending: Ending)
    requires s.out != []
  {
    ending.InTime? && |s.out| == l.depth && s.prevFull && s.out[0].fullBatch
  }

  function Signalled(pending: seq<bool>, slot: nat): seq<bool> {
    if slot < |pending| then pending[slot := false] else pending
  }

  function Collected(s: State, l: Limits, ending: Ending): State
    requires l.lanes > 0
  {
    if s.out == [] then s
    else
      var e := s.out[0];
      var wasFull := |s.out| == l.depth;
      var t := s.(out := s.out[1..]);
      match ending
      case Lost => t
      case InTime(seconds) =>
        var r := if Measures(s, l, ending) then Retuned(t, l, seconds) else t;
        r.(pending := Signalled(s.pending, e.slot), prevFull := wasFull)
      case Late(finished) =>
        var r := if e.count == s.batch then t.(batch := Clamp(l, s.batch / 4), hold := l.depth) else t;
        if finished then r.(pending := Signalled(s.pending, e.slot), prevFull := wasFull) else r
  }

  // -------------------------------------------------- what every step keeps

  predicate Ordered(out: seq<Entry>) {
    forall i, j :: 0 <= i < j < |out| ==> out[i].at < out[j].at && out[i].ticket < out[j].ticket
  }

  predicate Kept(s: State, l: Limits)
    requires Sane(l)
  {
    && s.next < l.depth == |s.pending| == |s.owner| && s.next == s.begun % l.depth
    && |s.out| <= l.depth && s.hold <= l.depth && Fits(l, s.batch) && Ordered(s.out)
    && forall i :: 0 <= i < |s.out| ==> Proper(s, l, i)
  }

  // Of an outstanding dispatch. Those launched at another size than the present
  // one are the first `hold` of the queue.
  predicate Proper(s: State, l: Limits, i: nat)
    requires i < |s.out| && l.depth > 0
  {
    var e := s.out[i];
    && e.at < s.begun && e.ticket < s.tickets && e.slot == e.at % l.depth
    && 0 < e.count <= l.maxBatch && (e.fullBatch ==> e.count == e.launched)
    && (i >= s.hold ==> e.launched == s.batch)
  }

  lemma StartKept(l: Limits, batch: nat)
    requires Sane(l)
    ensures Kept(Start(l, batch), l)
  {
    ClampFits(l, batch);
  }

  lemma NextSlot(n: nat, depth: nat)
    requires depth > 0
    ensures (n % depth + 1) % depth == (n + 1) % depth
  {
    var q, r := n / depth, n % depth;
    Split(n, depth);
    if r + 1 == depth {
      Distributes(q, 1, depth);
      Quotient(q + 1, 0, depth);
      Quotient(1, 0, depth);
    } else {
      Quotient(q, r + 1, depth);
      Quotient(0, r + 1, depth);
    }
  }

  lemma DispatchKeeps(s: State, l: Limits, count: nat, ready: bool, fate: Fate)
    requires Sane(l) && Kept(s, l)
    ensures Kept(Dispatched(s, l, count, ready, fate), l)
  {
    var t := Dispatched(s, l, count, ready, fate);
    if Accepted(s, l, count, ready) {
      NextSlot(s.begun, l.depth);
      forall i | 0 <= i < |s.out| ensures Proper(t, l, i) && s.out[i].at < s.begun && s.out[i].ticket < s.tickets {
        assert Proper(s, l, i) && t.out[i] == s.out[i];
      }
      if Sent(s, fate) { assert Proper(t, l, |s.out|); }
    }
  }

  lemma CollectKeeps(s: State, l: Limits, ending: Ending)
    requires Sane(l) && Kept(s, l)
    ensures Kept(Collected(s, l, ending), l)
  {
    var t := Collected(s, l, ending);
    if s.out != [] {
      assert Proper(s, l, 0);
      forall i | 0 <= i < |t.out| ensures Proper(t, l, i) {
        assert Proper(s, l, i + 1) && t.out[i] == s.out[i + 1];
      }
      ClampFits(l, s.batch / 4);
      if ending.InTime? && ending.seconds > 0.0 { ClampFits(l, Scaled(s.batch, ending.seconds)); }
    }
  }

  // Whenever a measurement changes the size, it was taken at the size it changes.
  lemma ResizesOwnMeasurement(s: State, l: Limits, ending: Ending)
    requires Sane(l) && Kept(s, l) && s.out != []
    requires ending.InTime? && Collected(s, l, ending).batch != s.batch
    ensures s.out[0].count == s.out[0].launched == s.batch
    ensures Collected(s, l, ending).hold == l.depth
  {
    assert Proper(s, l, 0);
  }

  // ------------------------------------------------------ slots and buffers

  // The uses of the ring since the oldest outstanding dispatch, its own included.
  function Span(s: State): int {
    if s.out == [] then 0 else s.begun - s.out[0].at
  }

  // No buffer of an outstanding dispatch has been given to another.
  predicate Untouched(s: State) {
    forall i :: 0 <= i < |s.out| ==> s.out[i].slot < |s.owner| && s.owner[s.out[i].slot] == s.out[i].ticket
  }

  predicate Distinct(out: seq<Entry>) {
    forall i, j :: 0 <= i < j < |out| ==> out[i].slot != out[j].slot
  }

  lemma ModApart(x: nat, y: nat, n: nat)
    requires x < y < x + n
    ensures x % n != y % n
  {
    var a, b := x / n, y / n;
    assert x == a * n + x % n && y == b * n + y % n;
    if b > a { TimesMonotone(a + 1, b, n); } else { TimesMonotone(b, a, n); }
  }

  lemma ModSame(x: nat, n: nat)
    requires n > 0
    ensures (x + n) % n == x % n
  {
    assert x == (x / n) * n + x % n;
    TimesMonotone(x / n, x / n, n);
    assert x + n == (x / n + 1) * n + x % n;
    Quotient(x / n + 1, x % n, n);
  }

  lemma DistinctWithin(s: State, l: Limits)
    requires Sane(l) && Kept(s, l) && Span(s) <= l.depth
    ensures Distinct(s.out)
  {
    forall i, j | 0 <= i < j < |s.out| ensures s.out[i].slot != s.out[j].slot {
      assert Proper(s, l, 0) && Proper(s, l, i) && Proper(s, l, j);
      ModApart(s.out[i].at, s.out[j].at, l.depth);
    }
  }

  // A dispatch leaves the results of the outstanding ones alone if and only if it is
  // not submitted, or the slot it gets is none of theirs,
  lemma DispatchIsSafeIff(s: State, l: Limits, count: nat, ready: bool, fate: Fate)
    requires Sane(l) && Kept(s, l) && Untouched(s)
    ensures Untouched(Dispatched(s, l, count, ready, fate)) <==>
      !Accepted(s, l, count, ready) || !Sent(s, fate) || !TakenAgain(s)
  {
    var t := Dispatched(s, l, count, ready, fate);
    if Accepted(s, l, count, ready) && Sent(s, fate) {
      forall i | 0 <= i < |s.out| ensures t.out[i] == s.out[i] && s.out[i].ticket < s.tickets {
        assert Proper(s, l, i);
      }
      if TakenAgain(s) {
        var i :| 0 <= i < |s.out| && s.out[i].slot == s.next;
        assert t.owner[t.out[i].slot] == s.tickets;
      }
    }
  }

  predicate TakenAgain(s: State) {
    exists i :: 0 <= i < |s.out| && s.out[i].slot == s.next
  }

  lemma RingsOn(x: nat, k: nat, n: nat)
    requires n > 0
    ensures (x + k * n) % n == x % n
  {
    Split(x, n);
    Distributes(x / n, k, n);
    Quotient(x / n + k, x % n, n);
  }

  lemma RingsApart(x: nat, y: nat, n: nat)
    requires x <= y && n > 0 && x % n == y % n
    ensures (y - x) % n == 0
  {
    Split(x, n);
    Split(y, n);
    DivMonotone(x, y, n);
    var k := y / n - x / n;
    Distributes(k, x / n, n);
    Quotient(k, 0, n);
  }

  lemma WholeRings(x: nat, y: nat, n: nat)
    requires x <= y && n > 0
    ensures x % n == y % n <==> (y - x) % n == 0
  {
    if (y - x) % n == 0 {
      Split(y - x, n);
      RingsOn(x, (y - x) / n, n);
    }
    if x % n == y % n { RingsApart(x, y, n); }
  }

  // Begun a whole number of rings ago.
  predicate RoundAgain(s: State, l: Limits, i: nat)
    requires i < |s.out| && l.depth > 0
  {
    (s.begun - s.out[i].at) % l.depth == 0
  }

  // that is, if none was begun a whole number of rings ago -- where less than that
  // has been begun since the oldest, if it is less than one.
  lemma ConflictIffFull(s: State, l: Limits)
    requires Sane(l) && Kept(s, l)
    ensures TakenAgain(s) <==> exists i :: 0 <= i < |s.out| && RoundAgain(s, l, i)
    ensures Span(s) <= l.depth ==> (TakenAgain(s) <==> s.out != [] && Span(s) == l.depth)
  {
    forall i | 0 <= i < |s.out| ensures s.out[i].slot == s.next <==> RoundAgain(s, l, i) {
      assert Proper(s, l, i);
      WholeRings(s.out[i].at, s.begun, l.depth);
    }
    if s.out != [] && Span(s) <= l.depth {
      assert Proper(s, l, 0);
      if Span(s) == l.depth { assert RoundAgain(s, l, 0); }
      forall i | 0 <= i < |s.out| && (i > 0 || Span(s) < l.depth) ensures s.out[i].slot != s.next {
        assert Proper(s, l, i);
        ModApart(s.out[i].at, s.begun, l.depth);
      }
    }
  }

  // ------------------------------------------------------------------ runs

  datatype Event =
    | Dispatch(count: nat, ready: bool, fate: Fate)
    | Collect(ending: Ending)

  function Step(s: State, l: Limits, e: Event): State
    requires Sane(l) && Kept(s, l)
  {
    match e
    case Dispatch(count, ready, fate) => Dispatched(s, l, count, ready, fate)
    case Collect(ending) => Collected(s, l, ending)
  }

  function After(l: Limits, batch: nat, run: seq<Event>): (s: State)
    requires Sane(l)
    ensures Kept(s, l)
    decreases |run|
  {
    if run == [] then
      StartKept(l, batch);
      Start(l, batch)
    else
      var s := After(l, batch, run[..|run| - 1]);
      StepKeeps(s, l, run[|run| - 1]);
      Step(s, l, run[|run| - 1])
  }

  lemma StepKeeps(s: State, l: Limits, e: Event)
    requires Sane(l) && Kept(s, l)
    ensures Kept(Step(s, l, e), l)
  {
    match e
    case Dispatch(count, ready, fate) => DispatchKeeps(s, l, count, ready, fate);
    case Collect(ending) => CollectKeeps(s, l, ending);
  }

  // A dispatch has used the ring in vain, and the queue has not been empty since.
  predicate Skipped(l: Limits, batch: nat, run: seq<Event>)
    requires Sane(l)
    decreases |run|
  {
    run != [] &&
    var s := After(l, batch, run[..|run| - 1]);
    var e := run[|run| - 1];
    && After(l, batch, run).out != []
    && (Skipped(l, batch, run[..|run| - 1]) || (e.Dispatch? && Accepted(s, l, e.count, e.ready) && !Sent(s, e.fate)))
  }

  // The caller empties the queue after a dispatch that used the ring in vain,
  // before it dispatches again.
  predicate Drains(l: Limits, batch: nat, run: seq<Event>)
    requires Sane(l)
    decreases |run|
  {
    run == [] ||
    var s := After(l, batch, run[..|run| - 1]);
    var e := run[|run| - 1];
    && Drains(l, batch, run[..|run| - 1])
    && (e.Dispatch? && Accepted(s, l, e.count, e.ready) ==> !Skipped(l, batch, run[..|run| - 1]))
  }

  // The outstanding dispatches took the last slots the ring gave out.
  predicate Lined(s: State) {
    forall i :: 0 <= i < |s.out| ==> s.out[i].at == s.begun - |s.out| + i
  }

  // In every run of such a caller, no two outstanding dispatches share a slot, and
  // the buffers of each hold its own data until it has been collected.
  lemma {:induction false} DrainedRunsAreSafe(l: Limits, batch: nat, run: seq<Event>)
    requires Sane(l) && Drains(l, batch, run)
    ensures var s := After(l, batch, run);
            && Untouched(s) && Distinct(s.out) && Span(s) <= l.depth
            && (!Skipped(l, batch, run) ==> Lined(s))
    decreases |run|
  {
    var t := After(l, batch, run);
    if run != [] {
      var before, e := run[..|run| - 1], run[|run| - 1];
      var s := After(l, batch, before);
      DrainedRunsAreSafe(l, batch, before);
      match e
      case Dispatch(count, ready, fate) =>
        ConflictIffFull(s, l);
        DispatchIsSafeIff(s, l, count, ready, fate);
      case Collect(ending) => CollectIsSafe(s, l, ending);
    }
    DistinctWithin(t, l);
  }

  lemma CollectIsSafe(s: State, l: Limits, ending: Ending)
    requires Sane(l) && Kept(s, l) && Span(s) <= l.depth && Untouched(s)
    ensures var t := Collected(s, l, ending);
            && Untouched(t) && Span(t) <= l.depth && (Lined(s) ==> Lined(t))
  {
    var t := Collected(s, l, ending);
    if s.out != [] {
      assert forall i :: 0 <= i < |t.out| ==> t.out[i] == s.out[i + 1];
      if |s.out| > 1 { assert Proper(s, l, 1); }
    }
  }

  function Tickets(out: seq<Entry>): (r: seq<nat>)
    ensures |r| == |out| && forall i :: 0 <= i < |out| ==> r[i] == out[i].ticket
  {
    seq(|out|, i requires 0 <= i < |out| => out[i].ticket)
  }

  // The dispatch that an event sends to the device, and the one it collects, by ticket.
  function SentBy(s: State, l: Limits, e: Event): seq<nat>
    requires Sane(l) && Kept(s, l)
  {
    if e.Dispatch? && Accepted(s, l, e.count, e.ready) && Sent(s, e.fate) then [s.tickets] else []
  }

  function CollectedBy(s: State, e: Event): seq<nat> {
    if e.Collect? && s.out != [] then [s.out[0].ticket] else []
  }

  function SentIn(l: Limits, batch: nat, run: seq<Event>): seq<nat>
    requires Sane(l)
    decreases |run|
  {
    if run == [] then []
    else
      var before, e := run[..|run| - 1], run[|run| - 1];
      SentIn(l, batch, before) + SentBy(After(l, batch, before), l, e)
  }

  function CollectedIn(l: Limits, batch: nat, run: seq<Event>): seq<nat>
    requires Sane(l)
    decreases |run|
  {
    if run == [] then []
    else
      var before, e := run[..|run| - 1], run[|run| - 1];
      CollectedIn(l, batch, before) + CollectedBy(After(l, batch, before), e)
  }

  lemma TicketsStep(s: State, l: Limits, e: Event)
    requires Sane(l) && Kept(s, l)
    ensures Tickets(s.out) + SentBy(s, l, e) == CollectedBy(s, e) + Tickets(Step(s, l, e).out)
  {
    var t := Step(s, l, e);
    if e.Collect? && s.out != [] {
      assert t.out == s.out[1..];
    } else if SentBy(s, l, e) == [] {
      assert t.out == s.out;
    }
  }

  // Every dispatch that was sent is collected once, in the order of submission;
  // what is not yet is outstanding.
  lemma {:induction false} CollectedInOrder(l: Limits, batch: nat, run: seq<Event>)
    requires Sane(l)
    ensures SentIn(l, batch, run) == CollectedIn(l, batch, run) + Tickets(After(l, batch, run).out)
    decreases |run|
  {
    if run != [] {
      var before, e := run[..|run| - 1], run[|run| - 1];
      var s := After(l, batch, before);
      CollectedInOrder(l, batch, before);
      TicketsStep(s, l, e);
      Reassociated(CollectedIn(l, batch, before), Tickets(s.out), SentBy(s, l, e));
      Reassociated(CollectedIn(l, batch, before), CollectedBy(s, e), Tickets(Step(s, l, e).out));
    }
  }

  lemma Reassociated(a: seq<nat>, b: seq<nat>, c: seq<nat>)
    ensures (a + b) + c == a + (b + c)
  {
  }

  // Without the draining: at the default depth of three, one dispatch sent and
  // two lost past begin() leave the ring at the first one's slot, with room in
  // the queue.
  lemma UndrainedRunOverwrites()
    ensures var l := Limits(3, 64, MAX_BATCH, 1, 1, 0);
            var sent, lost := Dispatch(64, true, Fate(true, true, true, true)), Dispatch(64, true, Fate(true, true, false, true));
            var run := [sent, lost, lost, sent];
            Sane(l) && !Untouched(After(l, 0, run)) && !Distinct(After(l, 0, run).out)
  {
    var l := Limits(3, 64, MAX_BATCH, 1, 1, 0);
    var sent, lost := Dispatch(64, true, Fate(true, true, true, true)), Dispatch(64, true, Fate(true, true, false, true));
    var run := [sent, lost, lost, sent];
    assert run[..3] == [sent, lost, lost] && run[..3][..2] == [sent, lost] && run[..2][..1] == [sent] && [sent][..0] == [];
    var s0 := After(l, 0, []);
    var s1 := After(l, 0, [sent]);
    assert s1 == Dispatched(s0, l, 64, true, sent.fate) && s1.out[0].slot == 0 && s1.next == 1;
    assert [sent, lost][..1] == [sent];
    var s2 := After(l, 0, [sent, lost]);
    assert s2.out == s1.out && s2.next == 2;
    assert [sent, lost, lost][..2] == [sent, lost];
    var s3 := After(l, 0, [sent, lost, lost]);
    assert s3.out == s1.out && s3.next == 0;
    var s4 := After(l, 0, run);
    assert s4.out[0].slot == s4.out[1].slot == 0;
  }

  // ------------------------------------------------------------- the machine

  datatype Pending = Pending(slot: nat, count: nat, fullBatch: bool)

  function Place(head: nat, i: nat, depth: nat): (p: nat)
    requires depth > 0
    ensures p < depth
  {
    (head + i) % depth
  }

  // CommandRing: command buffers used in turn, each with a fence.
  class CommandRing {
    const size: nat
    var next: nat
    const pending: array<bool>

    constructor (size: nat)
      requires size > 0
      ensures this.size == pending.Length == size && fresh(pending) && next == 0
      ensures pending[..] == seq(size, _ => false)
    {
      this.size := size;
      next := 0;
      pending := new bool[size](_ => false);
    }

    // begin: the next slot, once the device is done with its last use. `waited`
    // and `started` are what the fence and the command buffer have to say.
    method Begin(waited: bool, started: bool) returns (ok: bool, slot: nat)
      requires next < size == pending.Length
      modifies this`next, pending
      ensures next == (old(next) + 1) % size && slot == old(next)
      ensures ok <==> (waited || !old(pending[slot])) && started
      ensures pending[..] == if waited then old(pending[..])[slot := false] else old(pending[..])
    {
      slot := next;
      next := (next + 1) % size;
      if pending[slot] {
        if !waited {
          return false, slot;
        }
        pending[slot] := false;
      }
      ok := started;
    }
  }

  // The arithmetic of retune.
  method NextSize(batch: nat, seconds: real) returns (next: nat)
    requires seconds > 0.0
    ensures next == Scaled(batch, seconds)
  {
    var scale := TARGET_SECONDS / seconds;
    if scale > 4.0 {
      scale := 4.0;
    }
    if scale < 0.25 {
      scale := 0.25;
    }
    SameProduct(batch as real, scale, Bounded(TARGET_SECONDS / seconds));
    var size := batch as real * scale;
    next := if size >= MAX_BATCH as real then MAX_BATCH else Whole(size);
  }

  lemma SameProduct(a: real, x: real, y: real)
    requires x == y
    ensures a * x == a * y
  {
  }

  class VulkanKernel {
    const limits: Limits
    const ring: CommandRing
    const queue: array<Pending>
    var head: nat
    var inflight: nat
    var batch: nat
    var hold: nat
    var prevFull: bool
    ghost var state: State

    // The fields stand for `state`: the outstanding dispatches go round the queue
    // from its head on.
    ghost predicate Valid()
      reads this, ring, ring.pending, queue
    {
      && Sane(limits) && Kept(state, limits)
      && ring.size == ring.pending.Length == queue.Length == limits.depth
      && head < limits.depth && inflight == |state.out| && limits.depth > 0
      && ring.next == state.next && ring.pending[..] == state.pending
      && (batch, hold, prevFull) == (state.batch, state.hold, state.prevFull)
      && Queued(state.out)
    }

    ghost predicate Queued(out: seq<Entry>)
      requires queue.Length == limits.depth > 0
      reads this`head, queue
    {
      forall i :: 0 <= i < |out| ==>
        queue[Place(head, i, limits.depth)] == Pending(out[i].slot, out[i].count, out[i].fullBatch)
    }

    constructor (limits: Limits, batch: nat)
      requires Sane(limits)
      ensures Valid() && this.limits == limits && state == Start(limits, batch)
    {
      this.limits := limits;
      ring := new CommandRing(limits.depth);
      queue := new Pending[limits.depth](_ => Pending(0, 0, false));
      head, inflight, hold := 0, 0, 0;
      this.batch := Clamp(limits, batch);
      prevFull := false;
      state := Start(limits, batch);
      new;
      StartKept(limits, batch);
    }

    // clamp_batch
    method ClampBatch()
      requires Sane(limits)
      modifies this`batch
      ensures batch == Clamp(limits, old(batch))
    {
      var least := MIN_BATCH / limits.lanes * limits.nonces;
      if least < limits.perGroup {
        least := limits.perGroup;
      }
      if batch < least {
        batch := least;
      }
      if batch > MAX_BATCH {
        batch := MAX_BATCH;
      }
      if batch > limits.maxBatch {
        batch := limits.maxBatch;
      }
      if limits.maxGroups != 0 {
        var most := limits.maxGroups * limits.perGroup;
        if batch > most {
          batch := most;
        }
      }
    }

    // retune
    method Retune(seconds: real)
      requires Sane(limits)
      modifies this`batch, this`hold
      ensures seconds <= 0.0 ==> batch == old(batch) && hold == old(hold)
      ensures seconds > 0.0 && old(hold) > 0 ==> batch == old(batch) && hold == old(hold) - 1
      ensures seconds > 0.0 && old(hold) == 0 ==>
        batch == Resized(limits, old(batch), seconds) && hold == if batch != old(batch) then limits.depth else 0
    {
      if seconds <= 0.0 {
        return;
      }
      if hold > 0 {
        hold := hold - 1;
        return;
      }
      var before := batch;
      batch := NextSize(batch, seconds);
      ClampBatch();
      if batch != before {
        hold := limits.depth;
      }
    }

    // dispatch. `ready` is whether the table, the program and the algorithm's
    // blocks were.
    method Dispatch(count: nat, ready: bool, fate: Fate) returns (ok: bool)
      requires Valid()
      modifies this`inflight, this`state, ring`next, ring.pending, queue
      ensures Valid() && state == Dispatched(old(state), limits, count, ready, fate)
      ensures ok <==> Accepted(old(state), limits, count, ready) && Sent(old(state), fate)
    {
      DispatchKeeps(state, limits, count, ready, fate);
      ghost var before := state;
      state := Dispatched(state, limits, count, ready, fate);
      if count == 0 || !ready || count > limits.maxBatch || inflight >= limits.depth {
        return false;
      }
      var begun, slot := ring.Begin(fate.waited, fate.started);
      if !begun {
        return false;
      }
      if !fate.flushed {
        return false;
      }
      if !fate.submitted {
        return false;
      }
      Enqueue(slot, count, before.out, state.out[|before.out|]);
      return true;
    }

    // The end of dispatch: submitted, and queued up.
    method Enqueue(slot: nat, count: nat, ghost out: seq<Entry>, ghost e: Entry)
      requires queue.Length == limits.depth > 0 && slot < ring.pending.Length
      requires head < limits.depth && inflight == |out| < limits.depth && Queued(out)
      requires (e.slot, e.count, e.fullBatch) == (slot, count, count == batch)
      modifies this`inflight, ring.pending, queue
      ensures inflight == old(inflight) + 1 && ring.pending[..] == old(ring.pending[..])[slot := true]
      ensures Queued(out + [e])
    {
      ring.pending[slot] := true;
      queue[(head + inflight) % limits.depth] := Pending(slot, count, count == batch);
      forall i | 0 <= i < inflight ensures Place(head, i, limits.depth) != (head + inflight) % limits.depth {
        ModApart(head + i, head + inflight, limits.depth);
      }
      inflight := inflight + 1;
    }
  
    // The head of collect: the oldest dispatch leaves the queue before anything
    // can fail.
    method Dequeue(ghost out: seq<Entry>) returns (entry: Pending)
      requires queue.Length == limits.depth > 0 && head < limits.depth && 0 < inflight == |out| && Queued(out)
      modifies this`head, this`inflight
      ensures entry == Pending(out[0].slot, out[0].count, out[0].fullBatch)
      ensures head < limits.depth && inflight == old(inflight) - 1 && Queued(out[1..])
    {
      assert Place(head, 0, limits.depth) == head;
      entry := queue[head];
      ghost var was := head;
      head := (head + 1) % limits.depth;
      inflight := inflight - 1;
      forall i | 0 <= i < inflight ensures Place(head, i, limits.depth) == Place(was, i + 1, limits.depth) {
        NextPlace(was, i, limits.depth);
      }
    }

    // collect, up to where the results are read; `ok` is whether there are any.
    method Collect(ending: Ending) returns (ok: bool)
      requires Valid()
      modifies this`head, this`inflight, this`batch, this`hold, this`prevFull, this`state, ring.pending
      ensures Valid() && state == Collected(old(state), limits, ending)
      ensures ok <==> old(state).out != [] && !ending.Lost? && (ending.Late? ==> ending.finished)
    {
      CollectKeeps(state, limits, ending);
      ghost var before := state;
      state := Collected(state, limits, ending);
      if inflight == 0 {
        return false;
      }
      assert Proper(before, limits, 0);
      var wasFull := inflight == limits.depth;
      var entry := Dequeue(before.out);
      if ending.Lost? {
        return false;
      }
      if ending.Late? {
        if entry.count == batch {
          batch := batch / 4;
          ClampBatch();
          hold := limits.depth;
        }
        if !ending.finished {
          return false;
        }
      }
      ring.pending[entry.slot] := false;
      if ending.InTime? && wasFull && prevFull && entry.fullBatch {
        Retune(ending.seconds);
      }
      prevFull := wasFull;
      ok := true;
    }
  }

  lemma NextPlace(head: nat, i: nat, depth: nat)
    requires head < depth
    ensures ((head + 1) % depth + i) % depth == (head + (i + 1)) % depth
  {
    if head + 1 == depth {
      Quotient(1, 0, depth);
      ModSame(i, depth);
    } else {
      Quotient(0, head + 1, depth);
    }
  }
}
