// backends/vulkan/shared_state.cpp, ensure, and vulkan_kernel.cpp, dispatch: the
// kernels of a device use one table in turn, each with the key it was prepared
// for. A dispatch makes sure of the table and is submitted in one step.

module TableUse {
  import opened Wrappers

  // A dispatch the device has not finished, by the key its kernel wanted.
  datatype Running = Running(kernel: nat, key: nat)

  datatype State = State(
    ready: bool,
    key: nat,
    content: Option<nat>,        // whose table is in the buffers, if it is one
    kernels: map<nat, nat>,      // the key of each kernel that has been prepared
    running: seq<Running>)       // submitted and unfinished, oldest first

  const START := State(false, 0, None, map[], [])

  // ensure, where `built` is whether a rebuild works. It waits for the device
  // only if the table is somebody's.
  function Ensured(s: State, key: nat, built: bool): State {
    if s.ready && s.key == key then s
    else
      var waited := if s.ready then s.(running := [], ready := false) else s;
      if built then waited.(content := Some(key), key := key, ready := true)
      else waited.(content := None)
  }

  predicate Has(s: State, key: nat, built: bool) {
    (s.ready && s.key == key) || built
  }

  // What is running while ensure writes, if it does.
  function RunningAtWrite(s: State, key: nat): seq<Running> {
    if s.ready then [] else s.running
  }

  datatype Event =
    | Prepare(kernel: nat, key: nat, built: bool)
    | Dispatch(kernel: nat, built: bool, sent: bool)
    | Finish

  function Step(s: State, e: Event): State {
    match e
    case Prepare(kernel, key, built) =>
      var t := Ensured(s, key, built);
      if Has(s, key, built) then t.(kernels := s.kernels[kernel := key]) else t
    case Dispatch(kernel, built, sent) =>
      if kernel !in s.kernels then s
      else
        var key := s.kernels[kernel];
        var t := Ensured(s, key, built);
        if Has(s, key, built) && sent then t.(running := t.running + [Running(kernel, key)]) else t
    case Finish => if s.running == [] then s else s.(running := s.running[1..])
  }

  function After(run: seq<Event>): State
    decreases |run|
  {
    if run == [] then START else Step(After(run[..|run| - 1]), run[|run| - 1])
  }

  // Whatever runs was submitted for the key whose table is in the buffers.
  predicate Sound(s: State) {
    && (if s.ready then s.content == Some(s.key) else s.content == None && s.running == [])
    && forall i :: 0 <= i < |s.running| ==> s.running[i].key == s.key
  }

  lemma StepKeepsSound(s: State, e: Event)
    requires Sound(s)
    ensures Sound(Step(s, e))
  {
  }

  lemma {:induction false} EveryRunIsSound(run: seq<Event>)
    ensures Sound(After(run))
    decreases |run|
  {
    if run != [] {
      EveryRunIsSound(run[..|run| - 1]);
      StepKeepsSound(After(run[..|run| - 1]), run[|run| - 1]);
    }
  }

  // Whether the event writes the table: it asks for a key that is not there.
  function Wanted(s: State, e: Event): Option<nat> {
    match e
    case Prepare(_, key, _) => if s.ready && s.key == key then None else Some(key)
    case Dispatch(kernel, _, _) =>
      if kernel !in s.kernels || (s.ready && s.key == s.kernels[kernel]) then None else Some(s.kernels[kernel])
    case Finish => None
  }

  // In every run, failed rebuilds or not: no rebuild writes while a dispatch is
  // unfinished, and from submission to its end each dispatch has the table of its
  // own kernel's key -- of the key the kernel had been prepared for.
  lemma NoWriteUnderDispatch(run: seq<Event>, e: Event)
    ensures var s := After(run);
            && (Wanted(s, e).Some? ==> RunningAtWrite(s, Wanted(s, e).value) == [])
            && (forall i :: 0 <= i < |s.running| ==> s.content == Some(s.running[i].key))
            && (forall i :: 0 <= i < |Step(s, e).running| ==>
                  Step(s, e).content == Some(Step(s, e).running[i].key))
  {
    EveryRunIsSound(run);
    EveryRunIsSound(run + [e]);
    assert (run + [e])[..|run + [e]| - 1] == run;
  }

  // A dispatch that goes out is its kernel's, for the kernel's key.
  lemma DispatchesOwnKey(run: seq<Event>, kernel: nat, built: bool)
    ensures var s := After(run);
            var t := Step(s, Dispatch(kernel, built, true));
            kernel in s.kernels && Has(s, s.kernels[kernel], built) ==>
              && |t.running| > 0 && t.running[|t.running| - 1] == Running(kernel, s.kernels[kernel])
              && t.content == Some(s.kernels[kernel])
  {
    EveryRunIsSound(run);
  }

  // Another kernel that makes sure of its table.
  datatype Ask = Ask(key: nat, built: bool)

  function Asked(s: State, asks: seq<Ask>): State
    decreases |asks|
  {
    if asks == [] then s
    else
      var last := asks[|asks| - 1];
      Ensured(Asked(s, asks[..|asks| - 1]), last.key, last.built)
  }

  // The asks from `i` on are all for `key`.
  predicate AllFor(asks: seq<Ask>, key: nat, i: nat) {
    forall j :: i <= j < |asks| ==> asks[j].key == key
  }

  // What the asks leave of the table of `key`, were it there: nobody asked for
  // another, or, since somebody did, a rebuild for `key` has worked.
  ghost predicate Survives(asks: seq<Ask>, key: nat) {
    AllFor(asks, key, 0) || exists i :: 0 <= i < |asks| && asks[i].built && AllFor(asks, key, i)
  }

  lemma SurvivesStep(asks: seq<Ask>, key: nat)
    requires asks != []
    ensures var last := asks[|asks| - 1];
            Survives(asks, key) <==> last.key == key && (last.built || Survives(asks[..|asks| - 1], key))
  {
    var front, last := asks[..|asks| - 1], asks[|asks| - 1];
    if Survives(asks, key) && !last.built && !AllFor(asks, key, 0) {
      var i :| 0 <= i < |asks| && asks[i].built && AllFor(asks, key, i);
      assert front[i].built && AllFor(front, key, i);
    }
    if last.key == key {
      if last.built {
        assert AllFor(asks, key, |asks| - 1);
      } else if Survives(front, key) && !AllFor(front, key, 0) {
        var i :| 0 <= i < |front| && front[i].built && AllFor(front, key, i);
        assert asks[i].built && AllFor(asks, key, i);
      }
    }
  }

  lemma {:induction false} AskedIff(s: State, key: nat, asks: seq<Ask>)
    requires Sound(s) && s.ready && s.key == key
    ensures Sound(Asked(s, asks)) && (Asked(s, asks).content == Some(key) <==> Survives(asks, key))
    decreases |asks|
  {
    if asks != [] {
      AskedIff(s, key, asks[..|asks| - 1]);
      SurvivesStep(asks, key);
    }
  }

  // Without that step being one: a kernel makes sure of its table, others ask for
  // theirs, and what the first submits then may run against the wrong one. It goes
  // right if and only if no other key was asked for in between, or a rebuild for
  // the kernel's own has worked since.
  lemma SplitStepIsSafeIff(run: seq<Event>, kernel: nat, built: bool, asks: seq<Ask>)
    requires kernel in After(run).kernels && Has(After(run), After(run).kernels[kernel], built)
    ensures var s := After(run);
            var mine := s.kernels[kernel];
            var swapped := Asked(Ensured(s, mine, built), asks);
            var t := swapped.(running := swapped.running + [Running(kernel, mine)]);
            t.content == Some(mine) <==> Survives(asks, mine)
  {
    EveryRunIsSound(run);
    AskedIff(Ensured(After(run), After(run).kernels[kernel], built), After(run).kernels[kernel], asks);
  }

  // One ask for another key loses the table, and one more for its own, which must
  // rebuild it, brings it back.
  lemma SwappedAndBack()
    ensures var s := After([Prepare(0, 1, true)]);
            && s.content == Some(1)
            && Asked(s, [Ask(2, true)]).content == Some(2) && !Survives([Ask(2, true)], 1)
            && Asked(s, [Ask(2, true), Ask(1, true)]).content == Some(1) && Survives([Ask(2, true), Ask(1, true)], 1)
            && Asked(s, [Ask(2, true), Ask(1, false)]).content == None && !Survives([Ask(2, true), Ask(1, false)], 1)
  {
    var run := [Prepare(0, 1, true)];
    assert run[..0] == [] && After([]) == START;
    var other, back, failed := [Ask(2, true)], [Ask(2, true), Ask(1, true)], [Ask(2, true), Ask(1, false)];
    assert other[..0] == [] && back[..1] == other && failed[..1] == other;
    assert Asked(After(run), []) == After(run);
    assert Asked(After(run), other) == Ensured(After(run), 2, true);
    AskedIff(After(run), 1, other);
    AskedIff(After(run), 1, back);
    AskedIff(After(run), 1, failed);
  }

  // ------------------------------------------------------------- the machine

  class SharedState {
    var key: nat
    var ready: bool
    ghost var state: State

    ghost predicate Valid()
      reads this
    {
      key == state.key && ready == state.ready && Sound(state)
    }

    constructor ()
      ensures Valid() && state == START
    {
      key, ready, state := 0, false, START;
    }

    method Ensure(key: nat, built: bool) returns (ok: bool)
      requires Valid()
      modifies this
      ensures Valid() && state == Ensured(old(state), key, built)
      ensures ok <==> Has(old(state), key, built)
    {
      if ready && this.key == key {
        return true;
      }
      if ready {
        // the device is waited for
        state := state.(running := [], ready := false);
        ready := false;
      }
      if !built {
        state := state.(content := None);
        return false;
      }
      state := state.(content := Some(key), key := key, ready := true);
      this.key := key;
      ready := true;
      return true;
    }
  }
}
