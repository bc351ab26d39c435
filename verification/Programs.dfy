// backends/vulkan/vulkan_kernel.cpp, for a kernel built per program: the pipeline
// in use, the one a change of program replaced, and the one a background thread
// is building for the program after.

module Programs {
  import opened Wrappers

  const KEYS: nat := 0x1_0000_0000_0000_0000

  // A compiled program; `id` tells two compiles of one program apart.
  datatype Pipeline = Pipeline(key: nat, id: nat)

  datatype State = State(
    pipeline: Option<Pipeline>,
    retiring: Option<Pipeline>,
    ready: bool,               // program_ready_
    key: nat,
    running: bool,             // the thread is joinable,
    aheadKey: nat,             // and what it builds
    aheadUsed: nat,
    builds: nat,
    out: seq<Pipeline>,        // what the outstanding dispatches were recorded against
    finished: nat)             // how many of them, the oldest, the device is done with

  const START := State(None, None, false, 0, false, 0, 0, 0, [], 0)

  // ------------------------------------------------------ prepare_program

  // The thread is waited for. Its pipeline is wanted where it is of this program.
  function Joined(s: State, built: bool): State {
    if s.running then s.(running := false, builds := s.builds + if built then 1 else 0) else s
  }

  predicate Taken(s: State, key: nat, aheadBuilt: bool) {
    s.running && s.aheadKey == key && aheadBuilt
  }

  // retire: one replaced pipeline is kept; a second makes the device idle first.
  function Retired(s: State): State {
    if s.pipeline.None? then s
    else
      var t := if s.retiring.Some? then s.(finished := |s.out|, retiring := None) else s;
      if s.out != [] then t.(retiring := s.pipeline) else t
  }

  // start_ahead
  function Ahead(s: State, key: nat): State {
    if key == 0 || s.running || (s.ready && key == s.key) then s
    else s.(running := true, aheadKey := key)
  }

  // The algorithm's next_program_key, in 64 bits.
  function Following(key: nat): nat {
    (key + 1) % KEYS
  }

  function Switched(s: State, key: nat, next: Pipeline): State {
    Ahead(Retired(s).(pipeline := Some(next), key := key, ready := true), Following(key))
  }

  // `aheadBuilt` and `built` say whether the compiles work, the thread's and one
  // made here.
  function Prepared(s: State, key: nat, aheadBuilt: bool, built: bool): State {
    if s.ready && key == s.key then s
    else
      var t := Joined(s, aheadBuilt);
      if Taken(s, key, aheadBuilt) then
        Switched(t.(aheadUsed := s.aheadUsed + 1), key, Pipeline(key, s.builds))
      else if !built then t
      else Switched(t.(builds := t.builds + 1), key, Pipeline(key, t.builds))
  }

  predicate PrepareSucceeds(s: State, key: nat, aheadBuilt: bool, built: bool) {
    (s.ready && key == s.key) || Taken(s, key, aheadBuilt) || built
  }

  // ---------------------------------------------------------------- events

  datatype Event =
    | Prepare(key: nat, aheadBuilt: bool, built: bool)
    | Dispatch               // that reaches the device
    | Finish                 // of the oldest unfinished dispatch
    | Collect

  function Step(s: State, e: Event): State {
    match e
    case Prepare(key, aheadBuilt, built) => Prepared(s, key, aheadBuilt, built)
    case Dispatch => if s.ready && s.pipeline.Some? then s.(out := s.out + [s.pipeline.value]) else s
    case Finish => if s.finished < |s.out| then s.(finished := s.finished + 1) else s
    case Collect => Collected(s)
  }

  // The retired pipeline goes with the last outstanding dispatch.
  function Collected(s: State): State {
    if s.out == [] then s
    else
      var t := s.(out := s.out[1..], finished := if s.finished > 0 then s.finished - 1 else 0);
      if t.out == [] then t.(retiring := None) else t
  }

  function After(run: seq<Event>): State
    decreases |run|
  {
    if run == [] then START else Step(After(run[..|run| - 1]), run[|run| - 1])
  }

  // The pipeline in use is the program's, and whatever the device may still be
  // executing was recorded against one that is kept.
  predicate Sound(s: State) {
    && (s.ready ==> s.pipeline.Some? && s.pipeline.value.key == s.key)
    && s.finished <= |s.out|
    && forall i :: s.finished <= i < |s.out| ==> Some(s.out[i]) == s.pipeline || Some(s.out[i]) == s.retiring
  }

  // What a switch leaves.
  lemma SwitchKeeps(s: State, key: nat, next: Pipeline)
    ensures var t := Switched(s, key, next);
            && t.out == s.out && t.builds == s.builds && t.pipeline == Some(next) && t.ready && t.key == key
            && t.retiring == (if s.pipeline.None? then s.retiring else if s.out == [] then None else s.pipeline)
            && t.finished == if s.pipeline.Some? && s.retiring.Some? then |s.out| else s.finished
  {
  }

  // What prepare_program switches from, if it switches.
  lemma Switching(s: State, key: nat, aheadBuilt: bool, built: bool) returns (u: State, next: Pipeline)
    requires !(s.ready && key == s.key)
    ensures u.out == s.out && u.pipeline == s.pipeline && u.retiring == s.retiring && u.finished == s.finished
    ensures u.ready == s.ready && u.key == s.key && s.builds <= u.builds
    ensures var t := Prepared(s, key, aheadBuilt, built);
            if PrepareSucceeds(s, key, aheadBuilt, built) then t == Switched(u, key, next) && s.builds <= next.id < u.builds && next.key == key else t == u
  {
    var t := Joined(s, aheadBuilt);
    if Taken(s, key, aheadBuilt) {
      u, next := t.(aheadUsed := s.aheadUsed + 1), Pipeline(key, s.builds);
    } else if !built {
      u, next := t, Pipeline(key, 0);
    } else {
      u, next := t.(builds := t.builds + 1), Pipeline(key, t.builds);
    }
  }

  lemma StepKeepsSound(s: State, e: Event)
    requires Sound(s)
    ensures Sound(Step(s, e))
  {
    var t := Step(s, e);
    match e
    case Prepare(key, aheadBuilt, built) =>
      if !(s.ready && key == s.key) {
        var u, next := Switching(s, key, aheadBuilt, built);
        SwitchKeeps(u, key, next);
      }
    case Collect =>
      assert forall i :: 0 <= i < |t.out| ==> t.out[i] == s.out[i + 1];
    case _ =>
  }

  lemma {:induction false} EveryRunIsSound(run: seq<Event>)
    ensures Sound(After(run))
    decreases |run|
  {
    if run != [] {
      EveryRunIsSound(run[..|run| - 1]);
      StepKeepsSound(After(run[..|run| - 1]), run[|run| - 1]);
    }
  }

  // Where it succeeds, whatever was built ahead, it is the program asked for.
  lemma PreparedIsAskedFor(run: seq<Event>, key: nat, aheadBuilt: bool, built: bool)
    ensures var s := After(run);
            var t := Prepared(s, key, aheadBuilt, built);
            if PrepareSucceeds(s, key, aheadBuilt, built) then t.ready && t.pipeline.Some? && t.pipeline.value.key == t.key == key
            else t.pipeline == s.pipeline && t.key == s.key && t.ready == s.ready
  {
    EveryRunIsSound(run);
  }

  // collect drops the retired pipeline before it waits: the dispatch it is about
  // to wait for loses its pipeline while the device may be executing it if and
  // only if it is the last outstanding, unfinished, and recorded against the
  // retired one.
  lemma CollectDropsIff(s: State)
    requires Sound(s) && s.out != [] && s.finished == 0
    ensures var t := Collected(s);
            Some(s.out[0]) != t.pipeline && Some(s.out[0]) != t.retiring <==>
              |s.out| == 1 && Some(s.out[0]) != s.pipeline
  {
  }

  // As it happens to a dispatch that a change of program has overtaken.
  lemma OvertakenDispatchLosesIt()
    ensures var first := [Prepare(1, false, true), Dispatch, Prepare(2, true, true)];
            var s, t := After(first), After(first + [Collect]);
            && s.out == [Pipeline(1, 0)] && s.finished == 0 && s.retiring == Some(s.out[0])
            && t.pipeline == Some(Pipeline(2, 1)) && t.retiring == None
  {
    var p, d, q := Prepare(1, false, true), Dispatch, Prepare(2, true, true);
    assert [p][..0] == [] && [p, d][..1] == [p] && [p, d, q][..2] == [p, d];
    assert ([p, d, q] + [Collect])[..3] == [p, d, q];
    assert After([p]) == Step(START, p) && After([p, d]) == Step(After([p]), d);
    assert After([p, d, q]) == Step(After([p, d]), q);
  }

  // ------------------------------------------------------ consecutive programs

  // The thread is at the program after the present one, unless the keys end there.
  predicate Looking(s: State) {
    s.ready && s.pipeline.Some? && (Following(s.key) != 0 ==> s.running && s.aheadKey == Following(s.key))
  }

  // The programs asked for are each the one in use or the one after it, and the
  // compiles work.
  predicate Consecutive(s: State, e: Event) {
    e.Prepare? ==> e.aheadBuilt && e.built && e.key < KEYS && (s.ready ==> e.key == s.key || (e.key == Following(s.key) && e.key != 0))
  }

  predicate Switches(s: State, e: Event) {
    e.Prepare? && !(s.ready && e.key == s.key)
  }

  predicate AllConsecutive(run: seq<Event>)
    decreases |run|
  {
    run == [] || (AllConsecutive(run[..|run| - 1]) && Consecutive(After(run[..|run| - 1]), run[|run| - 1]))
  }

  function SwitchCount(run: seq<Event>): nat
    decreases |run|
  {
    if run == [] then 0
    else SwitchCount(run[..|run| - 1]) + if Switches(After(run[..|run| - 1]), run[|run| - 1]) then 1 else 0
  }

  // Every switch but the first uses the pipeline that was built ahead.
  lemma {:induction false} SwitchesUseAhead(run: seq<Event>)
    requires AllConsecutive(run)
    ensures var s := After(run);
            && s.aheadUsed == (if SwitchCount(run) == 0 then 0 else SwitchCount(run) - 1)
            && (s.ready <==> SwitchCount(run) > 0)
            && (if s.ready then Looking(s) && s.key < KEYS else !s.running)
    decreases |run|
  {
    if run != [] {
      var before, e := run[..|run| - 1], run[|run| - 1];
      SwitchesUseAhead(before);
      if Switches(After(before), e) { SwitchLooks(After(before), e); }
    }
  }

  lemma SwitchLooks(s: State, e: Event)
    requires Switches(s, e) && Consecutive(s, e) && (if s.ready then Looking(s) && s.key < KEYS else !s.running)
    ensures var t := Step(s, e);
            Looking(t) && t.key == e.key && t.aheadUsed == s.aheadUsed + if s.ready then 1 else 0
  {
    FollowingDiffers(e.key);
  }

  lemma FollowingDiffers(key: nat)
    requires key < KEYS
    ensures Following(key) != key
  {
  }

  // ----------------------------------------------------- what a switch does

  // The thread ends up at the program after, one key on, unless 64 bits end there.
  lemma NextIsBuiltAhead(s: State, key: nat, aheadBuilt: bool, built: bool)
    requires key <= 0xffff_ffff_ffff_ffff && !(s.ready && key == s.key) && PrepareSucceeds(s, key, aheadBuilt, built)
    ensures var t := Prepared(s, key, aheadBuilt, built);
            if key == 0xffff_ffff_ffff_ffff then !t.running else t.running && t.aheadKey == key + 1
  {
  }

  // Every compile has a number of its own: those of the pipelines kept are below that of
  // the next, and differ.
  predicate Numbered(s: State) {
    && (s.pipeline.Some? ==> s.pipeline.value.id < s.builds)
    && (s.retiring.Some? ==> s.retiring.value.id < s.builds && s.retiring != s.pipeline)
  }

  lemma StepNumbers(s: State, e: Event)
    requires Numbered(s)
    ensures Numbered(Step(s, e))
  {
    if e.Prepare? && !(s.ready && e.key == s.key) {
      var u, next := Switching(s, e.key, e.aheadBuilt, e.built);
      SwitchKeeps(u, e.key, next);
    }
  }

  lemma {:induction false} EveryRunIsNumbered(run: seq<Event>)
    ensures Numbered(After(run))
    decreases |run|
  {
    if run != [] {
      EveryRunIsNumbered(run[..|run| - 1]);
      StepNumbers(After(run[..|run| - 1]), run[|run| - 1]);
    }
  }

  // The pipeline replaced is kept while dispatches are outstanding, and the one kept
  // before it goes, once the device is done with all of them.
  lemma ReplacedIsKept(run: seq<Event>, key: nat, aheadBuilt: bool, built: bool)
    ensures var s := After(run);
            var t := Prepared(s, key, aheadBuilt, built);
            && t.out == s.out
            && (if t.pipeline == s.pipeline || s.pipeline.None? then t.retiring == s.retiring
                else t.retiring == if s.out == [] then None else s.pipeline)
            && (s.retiring.Some? && t.retiring != s.retiring ==> t.finished == |s.out|)
            && (s.retiring.None? ==> t.finished == s.finished)
  {
    var s := After(run);
    EveryRunIsNumbered(run);
    if !(s.ready && key == s.key) {
      var u, next := Switching(s, key, aheadBuilt, built);
      SwitchKeeps(u, key, next);
    }
  }

  // ------------------------------------------------------------- the machine

  class ProgramKernel {
    var pipeline: Option<Pipeline>
    var retiring: Option<Pipeline>
    var programReady: bool
    var programKey: nat
    var aheadRunning: bool
    var aheadKey: nat
    var aheadUsed: nat
    var builds: nat
    var inflight: nat
    ghost var out: seq<Pipeline>
    ghost var finished: nat

    ghost function View(): State
      reads this
    {
      State(pipeline, retiring, programReady, programKey, aheadRunning, aheadKey, aheadUsed, builds, out, finished)
    }

    ghost predicate Valid()
      reads this
    {
      Sound(View()) && inflight == |out|
    }

    constructor ()
      ensures Valid() && View() == START
    {
      pipeline, retiring, programReady, programKey := None, None, false, 0;
      aheadRunning, aheadKey, aheadUsed, builds, inflight := false, 0, 0, 0, 0;
      out, finished := [], 0;
    }

    method Retire(former: Option<Pipeline>)
      requires former == pipeline && inflight == |out|
      modifies this`retiring, this`finished
      ensures View() == Retired(old(View()))
    {
      if former.None? {
        return;
      }
      if retiring.Some? {
        finished := |out|;   // the device is waited for
        retiring := None;
      }
      if inflight > 0 {
        retiring := former;
      }
    }

    method StartAhead(key: nat)
      modifies this`aheadRunning, this`aheadKey
      ensures View() == Ahead(old(View()), key)
    {
      if key == 0 || aheadRunning {
        return;
      }
      if programReady && key == programKey {
        return;
      }
      aheadKey := key;
      aheadRunning := true;
    }

    // What the thread was building, if it is wanted.
    method JoinAhead(key: nat, aheadBuilt: bool) returns (next: Option<Pipeline>)
      modifies this`aheadRunning, this`aheadUsed, this`builds
      ensures next == if Taken(old(View()), key, aheadBuilt) then Some(Pipeline(key, old(builds))) else None
      ensures View() == Joined(old(View()), aheadBuilt).(aheadUsed := old(aheadUsed) + if next.Some? then 1 else 0)
    {
      next := None;
      if aheadRunning {
        aheadRunning := false;
        if aheadBuilt {
          if aheadKey == key {
            next := Some(Pipeline(key, builds));
            aheadUsed := aheadUsed + 1;
          }
          builds := builds + 1;
        }
      }
    }

    method Switch(key: nat, next: Pipeline)
      requires inflight == |out|
      modifies this`pipeline, this`retiring, this`programReady, this`programKey, this`aheadRunning, this`aheadKey, this`finished
      ensures View() == Switched(old(View()), key, next)
    {
      Retire(pipeline);
      pipeline := Some(next);
      programKey := key;
      programReady := true;
      StartAhead(Following(key));
    }

    method ChangeProgram(key: nat, aheadBuilt: bool, built: bool) returns (ok: bool)
      requires inflight == |out|
      modifies this`pipeline, this`retiring, this`programReady, this`programKey, this`aheadRunning,
               this`aheadKey, this`aheadUsed, this`builds, this`finished
      ensures View() == Prepared(old(View()), key, aheadBuilt, built)
      ensures ok <==> PrepareSucceeds(old(View()), key, aheadBuilt, built)
    {
      if programReady && key == programKey {
        return true;
      }
      var next := JoinAhead(key, aheadBuilt);
      if next.None? {
        if !built {
          return false;
        }
        next := Some(Pipeline(key, builds));
        builds := builds + 1;
      }
      Switch(key, next.value);
      return true;
    }

    method PrepareProgram(key: nat, aheadBuilt: bool, built: bool) returns (ok: bool)
      requires Valid()
      modifies this`pipeline, this`retiring, this`programReady, this`programKey, this`aheadRunning,
               this`aheadKey, this`aheadUsed, this`builds, this`finished
      ensures Valid() && View() == Prepared(old(View()), key, aheadBuilt, built)
      ensures ok <==> PrepareSucceeds(old(View()), key, aheadBuilt, built)
    {
      StepKeepsSound(View(), Prepare(key, aheadBuilt, built));
      ok := ChangeProgram(key, aheadBuilt, built);
    }

    // dispatch, as far as pipelines go.
    method Dispatch() returns (ok: bool)
      requires Valid()
      modifies this`inflight, this`out
      ensures Valid() && View() == Step(old(View()), Event.Dispatch)
    {
      StepKeepsSound(View(), Event.Dispatch);
      if !programReady {
        return false;
      }
      out := out + [pipeline.value];
      inflight := inflight + 1;
      return true;
    }

    // collect, as far as pipelines go.
    method Collect()
      requires Valid()
      modifies this`inflight, this`out, this`finished, this`retiring
      ensures Valid() && View() == Collected(old(View()))
    {
      StepKeepsSound(View(), Event.Collect);
      if inflight == 0 {
        return;
      }
      inflight := inflight - 1;
      out, finished := out[1..], if finished > 0 then finished - 1 else 0;
      if inflight == 0 {
        retiring := None;
      }
    }
  }
}
