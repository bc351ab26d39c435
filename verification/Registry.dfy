// backends/vulkan/vulkan_backend.cpp: the tables of one device. The kernels hold
// theirs, the backend remembers the last one weakly, and a pin keeps it through a
// pause in which there is no kernel.

module Registry {
  import opened Wrappers

  datatype Table = Table(bytes: nat, ready: bool, key: nat)

  // A kernel with a table, and the size its spec declared.
  datatype Holder = Holder(table: nat, declared: nat)

  datatype State = State(
    tables: map<nat, Table>,       // every table there has been, numbered below `next`
    next: nat,
    shared: Option<nat>,           // shared_: the backend's weak pointer
    pinned: Option<nat>,           // pinned_
    kernels: map<nat, Holder>)     // those that have a table

  const START := State(map[], 0, None, None, map[])

  // A table is there as long as a kernel or the pin holds it.
  predicate Live(s: State, t: nat) {
    s.pinned == Some(t) || exists k :: k in s.kernels && s.kernels[k].table == t
  }

  // weak_ptr::lock
  function Lock(s: State): Option<nat> {
    if s.shared.Some? && Live(s, s.shared.value) then s.shared else None
  }

  // The locked table is of another size than wanted.
  predicate Differs(s: State, bytes: nat) {
    Lock(s).Some? && Lock(s).value in s.tables && s.tables[Lock(s).value].bytes != bytes
  }

  // create_kernel up to the table: a pin on one of another size is dropped.
  function Unpinned(s: State, bytes: nat): State {
    if Differs(s, bytes) && s.pinned.Some? then s.(pinned := None) else s
  }

  // The table there is, or a new one; the pin goes either way. None where a live
  // kernel's is in the way or the device will not give the memory.
  function Obtained(s: State, bytes: nat, granted: bool): Option<(State, nat)> {
    var t := Unpinned(s, bytes);
    if Differs(t, bytes) then None
    else if Lock(t).Some? then Some((t.(pinned := None), Lock(t).value))
    else if !granted then None
    else Some((t.(tables := t.tables[t.next := Table(bytes, false, 0)], next := t.next + 1,
                  shared := Some(t.next), pinned := None), t.next))
  }

  // `granted` and `built` are whether the memory is given and the kernel made.
  function Created(s: State, kernel: nat, bytes: nat, granted: bool, built: bool): State {
    if bytes == 0 || kernel in s.kernels then s
    else
      var o := Obtained(s, bytes, granted);
      if o.None? then Unpinned(s, bytes)
      else if built then o.value.0.(kernels := o.value.0.kernels[kernel := Holder(o.value.1, bytes)])
      else o.value.0
  }

  // SharedState::ensure on a kernel's table.
  function Ensured(s: State, kernel: nat, key: nat, built: bool): State {
    if kernel !in s.kernels || s.kernels[kernel].table !in s.tables then s
    else
      var t := s.kernels[kernel].table;
      if Rebuilds(s.tables[t], key) then
        s.(tables := s.tables[t := s.tables[t].(ready := built, key := if built then key else s.tables[t].key)])
      else s
  }

  predicate Rebuilds(t: Table, key: nat) {
    !(t.ready && t.key == key)
  }

  datatype Event =
    | Create(kernel: nat, bytes: nat, granted: bool, built: bool)
    | Destroy(kernel: nat)
    | Retain(retain: bool)
    | Ensure(kernel: nat, key: nat, built: bool)

  function Step(s: State, e: Event): State {
    match e
    case Create(kernel, bytes, granted, built) => Created(s, kernel, bytes, granted, built)
    case Destroy(kernel) => s.(kernels := s.kernels - {kernel})
    case Retain(retain) => s.(pinned := if retain then Lock(s) else None)
    case Ensure(kernel, key, built) => Ensured(s, kernel, key, built)
  }

  function After(run: seq<Event>): State
    decreases |run|
  {
    if run == [] then START else Step(After(run[..|run| - 1]), run[|run| - 1])
  }

  // Whatever holds a table holds the one the backend remembers, and a kernel's is
  // of the size it declared.
  predicate Sound(s: State) {
    && (forall t :: t in s.tables ==> t < s.next)
    && (s.shared.Some? ==> s.shared.value in s.tables)
    && (s.pinned.Some? ==> s.pinned == s.shared)
    && (forall k :: k in s.kernels ==>
          && s.shared == Some(s.kernels[k].table)
          && s.kernels[k].table in s.tables && s.kernels[k].declared == s.tables[s.kernels[k].table].bytes)
  }

  lemma NoneLeft(s: State)
    requires Sound(s)
    ensures Lock(s).None? ==> s.kernels == map[] && s.pinned == None
  {
    forall k | k in s.kernels ensures Lock(s).Some? {
      assert s.kernels[k].table == s.shared.value;
    }
  }

  lemma CreateKeepsSound(s: State, kernel: nat, bytes: nat, granted: bool, built: bool)
    requires Sound(s)
    ensures Sound(Created(s, kernel, bytes, granted, built))
  {
    var t := Unpinned(s, bytes);
    NoneLeft(t);
  }

  lemma StepKeepsSound(s: State, e: Event)
    requires Sound(s)
    ensures Sound(Step(s, e))
  {
    match e
    case Create(kernel, bytes, granted, built) => CreateKeepsSound(s, kernel, bytes, granted, built);
    case _ =>
  }

  // In every run a device has one live table at most; every kernel that has one
  // and the pin have that one, and it is of the size each of them declared.
  lemma {:induction false} OneLiveTable(run: seq<Event>)
    ensures Sound(After(run))
    ensures forall t, u :: Live(After(run), t) && Live(After(run), u) ==> t == u
    decreases |run|
  {
    if run != [] {
      OneLiveTable(run[..|run| - 1]);
      StepKeepsSound(After(run[..|run| - 1]), run[|run| - 1]);
    }
  }

  // --------------------------------------------------------------- retained

  // What a pause does: kernels go, and the pin is asked for again at most.
  predicate Pause(run: seq<Event>) {
    forall i :: 0 <= i < |run| ==> run[i].Destroy? || (run[i].Retain? && run[i].retain)
  }

  function Thence(s: State, run: seq<Event>): State
    decreases |run|
  {
    if run == [] then s else Step(Thence(s, run[..|run| - 1]), run[|run| - 1])
  }

  lemma {:induction false} PinSurvives(s: State, t: nat, pause: seq<Event>)
    requires Sound(s) && s.pinned == Some(t) && Pause(pause)
    ensures var u := Thence(s, pause);
            Sound(u) && u.pinned == u.shared == Some(t) && u.tables == s.tables
    decreases |pause|
  {
    if pause != [] {
      PinSurvives(s, t, pause[..|pause| - 1]);
      StepKeepsSound(Thence(s, pause[..|pause| - 1]), pause[|pause| - 1]);
    }
  }

  // A table retained while it is there is handed to the next kernel of its size,
  // contents and all, whoever has gone meanwhile: for its old key nothing is
  // rebuilt.
  lemma RetainedIsHandedOver(run: seq<Event>, pause: seq<Event>, kernel: nat, granted: bool, key: nat)
    requires Lock(After(run)).Some? && Lock(After(run)).value in After(run).tables && Pause(pause)
    requires After(run).tables[Lock(After(run)).value].bytes > 0
    requires kernel !in Thence(Step(After(run), Retain(true)), pause).kernels
    ensures var t := Lock(After(run)).value;
            var table := After(run).tables[t];
            var s := Thence(Step(After(run), Retain(true)), pause);
            var u := Created(s, kernel, table.bytes, granted, true);
            && kernel in u.kernels && u.kernels[kernel] == Holder(t, table.bytes)
            && t in u.tables && u.tables[t] == table
            && (table.ready && table.key == key ==> !Rebuilds(u.tables[u.kernels[kernel].table], key))
  {
    OneLiveTable(run);
    StepKeepsSound(After(run), Retain(true));
    PinSurvives(Step(After(run), Retain(true)), Lock(After(run)).value, pause);
  }

  // The pin goes even where the kernel it was kept for is not built then: with no
  // other kernel there, the retained table is lost.
  lemma FailedBuildLosesIt(s: State, kernel: nat, granted: bool, t: nat)
    requires Sound(s) && s.pinned == Some(t) && t in s.tables && s.tables[t].bytes > 0 && kernel !in s.kernels
    ensures Live(Created(s, kernel, s.tables[t].bytes, granted, false), t) <==> s.kernels != map[]
  {
    var u := Created(s, kernel, s.tables[t].bytes, granted, false);
    assert u.kernels == s.kernels && u.pinned == None;
    if s.kernels != map[] {
      var k :| k in s.kernels;
      assert s.kernels[k].table == t;
    }
  }

  // As in this run: the table kept through the pause is gone after it.
  lemma RetainedTableLost()
    ensures var first := [Create(0, 64, true, true), Retain(true), Destroy(0)];
            Live(After(first), 0) && !Live(After(first + [Create(1, 64, true, false)]), 0)
  {
    var c, r, d, f := Create(0, 64, true, true), Retain(true), Destroy(0), Create(1, 64, true, false);
    assert [c][..0] == [] && [c, r][..1] == [c] && [c, r, d][..2] == [c, r];
    assert ([c, r, d] + [f])[..3] == [c, r, d];
    assert After([]) == START;
    var s := After([c]);
    assert s == Step(START, c);
    assert Lock(START) == None;
    assert s == Created(START, 0, 64, true, true) && s.kernels == map[0 := Holder(0, 64)] && s.shared == Some(0);
    assert 0 in s.kernels && Live(s, 0);
    assert After([c, r]) == Step(s, r) && After([c, r]).pinned == Some(0);
    var t := After([c, r, d]);
    assert t == Step(After([c, r]), d) && t.kernels == map[] && t.pinned == Some(0);
    OneLiveTable([c, r, d]);
    FailedBuildLosesIt(t, 1, true, 0);
  }

  // ------------------------------------------------------------- the machine

  class Backend {
    var tables: map<nat, Table>
    var next: nat
    var shared: Option<nat>
    var pinned: Option<nat>
    var kernels: map<nat, Holder>

    function View(): State
      reads this
    {
      State(tables, next, shared, pinned, kernels)
    }

    ghost predicate Valid()
      reads this
    {
      Sound(View())
    }

    constructor ()
      ensures Valid() && View() == START
    {
      tables, next, shared, pinned, kernels := map[], 0, None, None, map[];
    }

    // create_kernel
    method CreateKernel(kernel: nat, bytes: nat, granted: bool, built: bool) returns (ok: bool)
      requires Valid() && kernel !in kernels
      modifies this
      ensures Valid() && View() == Created(old(View()), kernel, bytes, granted, built)
      ensures ok <==> built && (bytes != 0 ==> kernel in kernels)
      ensures ok && bytes != 0 ==> tables[kernels[kernel].table].bytes == bytes
    {
      CreateKeepsSound(View(), kernel, bytes, granted, built);
      if bytes == 0 {
        return built;
      }
      var found := Lock(View());
      if found.Some? && tables[found.value].bytes != bytes && pinned.Some? {
        pinned := None;
        found := Lock(View());
      }
      if found.Some? && tables[found.value].bytes != bytes {
        return false;
      }
      if found.None? {
        if !granted {
          return false;
        }
        tables := tables[next := Table(bytes, false, 0)];
        found := Some(next);
        next := next + 1;
        shared := found;
      }
      pinned := None;
      if built {
        kernels := kernels[kernel := Holder(found.value, bytes)];
      }
      ok := built;
    }

    method DestroyKernel(kernel: nat)
      requires Valid()
      modifies this`kernels
      ensures Valid() && View() == Step(old(View()), Destroy(kernel))
    {
      StepKeepsSound(View(), Destroy(kernel));
      kernels := kernels - {kernel};
    }

    // retain_shared_state
    method RetainSharedState(retain: bool)
      requires Valid()
      modifies this`pinned
      ensures Valid() && View() == Step(old(View()), Retain(retain))
    {
      StepKeepsSound(View(), Retain(retain));
      pinned := if retain then Lock(View()) else None;
    }

    // shared_state_bytes
    method SharedStateBytes() returns (bytes: nat)
      requires Valid()
      ensures Lock(View()).Some? ==> Lock(View()).value in tables && bytes == tables[Lock(View()).value].bytes
      ensures Lock(View()).None? ==> bytes == 0 && kernels == map[] && pinned == None
    {
      var state := Lock(View());
      if state.None? {
        NoneLeft(View());
        return 0;
      }
      return tables[state.value].bytes;
    }
  }
}
