// Loading the objects of an organ with several threads, as a state machine over the atomic
// steps of the main thread and of the workers.  Worker 0 is the main thread's own worker.
module Loader {

  import opened Options

  // How an attempt to load an object ends.
  datatype Outcome = Loaded | Failed | OutOfMemory

  // Where a worker is in its loop: before the test of the memory pool, before the fetch,
  // loading an object, at the end.
  datatype Place = Asleep | Testing | Fetching | Loading(item: nat) | Done

  // `hasObject`: the worker's object pointer is not null.
  datatype Worker = Worker(place: Place, hasObject: bool, wereExceptions: bool, outOfMemory: bool)

  // Where the main thread is.  `wereExceptions` is what it has gathered while joining.
  datatype Main =
    | CacheFetching
    | CacheLoading(item: nat)
    | Starting(thread: nat)
    | Working
    | Joining(thread: nat, wereExceptions: bool)
    | Finished
    | Aborted

  // Who has fetched an object.
  datatype Owner = Nobody | Cache | By(worker: nat)

  datatype State = State(
    pos: nat,
    owner: seq<Owner>,
    attempts: seq<nat>,
    ready: seq<bool>,
    workers: seq<Worker>,
    main: Main,
    // the object whose load from the cache failed
    cacheFailed: Option<nat>,
    cacheable: bool)

  datatype Step =
    | CacheFetch
    | CacheLoad(outcome: Outcome)
    | StartThread
    | Test(worker: nat, poolFull: bool)
    | Fetch(worker: nat)
    | Load(worker: nat, outcome: Outcome)
    | EndOwnLoop
    | Join
    | Decide
    | Cancel

  // `threads` additional threads; the cache is used if there is a valid one.
  predicate Init(s: State, objects: nat, threads: nat, useCache: bool) {
    && s.pos == 0
    && s.owner == seq(objects, _ => Nobody)
    && s.attempts == seq(objects, _ => 0)
    && s.ready == seq(objects, _ => false)
    && s.workers == seq(1 + threads, _ => Worker(Asleep, false, false, false))
    && s.main == (if useCache then CacheFetching else Starting(1))
    && s.cacheFailed == None
    && !s.cacheable
  }

  // Only the main thread moves worker 0, and only while it works.
  predicate MayMove(s: State, w: nat) {
    w < |s.workers| && (w == 0 ==> s.main == Working)
  }

  // One atomic fetch_add.
  function Fetched(s: State, who: Owner): State {
    s.(pos := s.pos + 1, owner := if s.pos < |s.owner| then s.owner[s.pos := who] else s.owner)
  }

  function Attempted(s: State, item: nat, outcome: Outcome): State
    requires item < |s.attempts| && item < |s.ready|
  {
    s.(attempts := s.attempts[item := s.attempts[item] + 1], ready := s.ready[item := outcome == Loaded])
  }

  function Moved(s: State, w: nat, worker: Worker): State
    requires w < |s.workers|
  {
    s.(workers := s.workers[w := worker])
  }

  // The state after a step; None if the step is not possible.
  function Do(s: State, step: Step): Option<State> {
    match step
    case CacheFetch =>
      if s.main != CacheFetching then None
      else
        var t := Fetched(s, Cache);
        Some(if s.pos < |s.owner| then t.(main := CacheLoading(s.pos))
             else t.(main := Finished, cacheable := true))
    case CacheLoad(outcome) =>
      if !s.main.CacheLoading? || s.main.item >= |s.attempts| || s.main.item >= |s.ready| then None
      else
        var t := Attempted(s, s.main.item, outcome);
        Some(match outcome
             case Loaded => t.(main := CacheFetching)
             // the failed object is forgotten: the pointer that holds it shadows the one
             // that is looked at later
             case Failed => t.(main := Starting(1), cacheFailed := Some(s.main.item))
             case OutOfMemory => t.(main := Aborted))
    case StartThread =>
      if !s.main.Starting? then None
      else
        var i := s.main.thread;
        if i < |s.workers| then
          Some(Moved(s, i, s.workers[i].(place := Testing)).(main := Starting(i + 1)))
        else if |s.workers| > 0 then
          Some(Moved(s, 0, s.workers[0].(place := Testing)).(main := Working))
        else None
    case Test(w, poolFull) =>
      if !MayMove(s, w) || s.workers[w].place != Testing then None
      else
        var k := s.workers[w];
        Some(Moved(s, w,
          if !k.outOfMemory && !poolFull then k.(place := Fetching)
          else if k.hasObject && !k.outOfMemory then k.(place := Testing)
          else k.(place := Done)))
    case Fetch(w) =>
      if !MayMove(s, w) || s.workers[w].place != Fetching then None
      else
        var k := s.workers[w];
        Some(Moved(Fetched(s, By(w)), w,
          if s.pos < |s.owner| then k.(place := Loading(s.pos), hasObject := true)
          else k.(place := Done, hasObject := false)))
    case Load(w, outcome) =>
      if !MayMove(s, w) || !s.workers[w].place.Loading? then None
      else
        var k := s.workers[w];
        var item := k.place.item;
        if item >= |s.attempts| || item >= |s.ready| then None
        else
          Some(Moved(Attempted(s, item, outcome), w,
            match outcome
            case Loaded => k.(place := Testing)
            case Failed => k.(place := Testing, wereExceptions := true)
            case OutOfMemory => k.(place := Done, wereExceptions := true, outOfMemory := true)))
    case EndOwnLoop =>
      if s.main != Working || |s.workers| == 0 || s.workers[0].place != Done then None
      else Some(if s.workers[0].outOfMemory then s.(main := Aborted)
                else s.(main := Joining(1, s.workers[0].wereExceptions)))
    case Join =>
      // Wait() returns only when the thread has ended
      if !s.main.Joining? || s.main.thread >= |s.workers| || s.workers[s.main.thread].place != Done then None
      else
        var k := s.workers[s.main.thread];
        Some(if k.outOfMemory then s.(main := Aborted)
             else s.(main := Joining(s.main.thread + 1, s.main.wereExceptions || k.wereExceptions)))
    case Decide =>
      if !s.main.Joining? || s.main.thread < |s.workers| then None
      else Some(s.(main := Finished, cacheable := !s.main.wereExceptions && s.pos >= |s.owner|))
    case Cancel =>
      if s.main == Working || s.main == CacheFetching then Some(s.(main := Aborted)) else None
  }

  // ---------- the invariant ----------

  predicate CacheOwns(s: State, i: nat)
    requires i < |s.owner| && |s.owner| == |s.attempts| == |s.ready|
  {
    && s.pos > i
    && s.attempts[i] == (if s.main == CacheLoading(i) then 0 else 1)
    && (s.attempts[i] == 1 && !s.ready[i] ==> s.cacheFailed == Some(i) || s.main == Aborted)
    && (s.cacheFailed == Some(i) ==> s.attempts[i] == 1 && !s.ready[i])
  }

  predicate WorkerOwns(s: State, i: nat, w: nat)
    requires i < |s.owner| && |s.owner| == |s.attempts| == |s.ready|
  {
    && s.pos > i
    && w < |s.workers|
    && s.attempts[i] == (if s.workers[w].place == Loading(i) then 0 else 1)
    && (s.attempts[i] == 1 && !s.ready[i] ==> s.workers[w].wereExceptions)
    && s.cacheFailed != Some(i)
  }

  predicate ObjectOk(s: State, i: nat)
    requires |s.owner| == |s.attempts| == |s.ready|
  {
    i < |s.owner| ==>
      match s.owner[i]
      case Nobody => s.pos <= i && s.attempts[i] == 0 && s.cacheFailed != Some(i)
      case Cache => CacheOwns(s, i)
      case By(w) => WorkerOwns(s, i, w)
  }

  predicate WorkerOk(s: State, w: nat) {
    w < |s.workers| ==>
      var k := s.workers[w];
      && (k.place.Loading? ==> k.place.item < |s.owner| && s.owner[k.place.item] == By(w))
      && (k.outOfMemory ==> k.wereExceptions && k.place == Done)
      && (k.place == Asleep ==> !k.wereExceptions)
  }

  predicate MainOk(s: State) {
    match s.main
    case CacheFetching => s.cacheFailed == None && AllAsleep(s)
    case CacheLoading(i) => i < |s.owner| && s.owner[i] == Cache && s.cacheFailed == None && AllAsleep(s)
    case Starting(i) => 1 <= i && (forall w :: 0 <= w < |s.workers| ==>
      (s.workers[w].place == Asleep <==> w == 0 || w >= i))
    case Working => AllAwake(s)
    case Joining(i, e) =>
      && 1 <= i <= |s.workers| && AllAwake(s)
      && (forall w :: 0 <= w < i ==> s.workers[w].place == Done && (s.workers[w].wereExceptions ==> e))
    case _ => true
  }

  predicate AllAsleep(s: State) {
    forall w :: 0 <= w < |s.workers| ==> s.workers[w].place == Asleep
  }

  predicate AllAwake(s: State) {
    forall w :: 0 <= w < |s.workers| ==> s.workers[w].place != Asleep
  }

  // What a finished load with the cacheable flag set means.
  predicate CacheableOk(s: State)
    requires |s.owner| == |s.attempts| == |s.ready|
  {
    s.cacheable ==>
      && s.main == Finished
      && s.pos >= |s.owner|
      && (forall w :: 0 <= w < |s.workers| ==> s.workers[w].place == Done || s.workers[w].place == Asleep)
      && (forall i :: 0 <= i < |s.owner| ==> s.attempts[i] == 1 && (s.ready[i] <==> s.cacheFailed != Some(i)))
  }

  ghost predicate Inv(s: State) {
    && |s.owner| == |s.attempts| == |s.ready| && |s.workers| > 0
    && (forall i: nat :: ObjectOk(s, i))
    && (forall w: nat :: WorkerOk(s, w))
    && MainOk(s)
    && CacheableOk(s)
    && (s.cacheable ==> s.main == Finished)
  }

  lemma InitInv(s: State, objects: nat, threads: nat, useCache: bool)
    requires Init(s, objects, threads, useCache)
    ensures Inv(s)
  {
  }

  lemma StepInv(s: State, step: Step, t: State)
    requires Inv(s) && Do(s, step) == Some(t)
    ensures Inv(t)
  {
    match step {
      case CacheFetch => CacheFetchInv(s, t);
      case CacheLoad(outcome) => CacheLoadInv(s, outcome, t);
      case StartThread => StartThreadInv(s, t);
      case Test(w, poolFull) => TestInv(s, w, poolFull, t);
      case Fetch(w) => FetchInv(s, w, t);
      case Load(w, outcome) => LoadInv(s, w, outcome, t);
      case EndOwnLoop => MainInv(s, step, t);
      case Join => MainInv(s, step, t);
      case Decide => DecideInv(s, t);
      case Cancel => MainInv(s, step, t);
    }
  }

  lemma CacheFetchInv(s: State, t: State)
    requires Inv(s) && Do(s, CacheFetch) == Some(t)
    ensures Inv(t)
  {
    forall i: nat ensures ObjectOk(t, i) {
      assert ObjectOk(s, i);
    }
    forall w: nat ensures WorkerOk(t, w) {
      assert WorkerOk(s, w);
    }
    if t.cacheable {
      forall i | 0 <= i < |t.owner| ensures t.attempts[i] == 1 && (t.ready[i] <==> t.cacheFailed != Some(i)) {
        assert ObjectOk(s, i);
        if s.owner[i].By? {
          assert WorkerOk(s, s.owner[i].worker);
        }
      }
    }
  }

  lemma CacheLoadInv(s: State, outcome: Outcome, t: State)
    requires Inv(s) && Do(s, CacheLoad(outcome)) == Some(t)
    ensures Inv(t)
  {
    forall i: nat ensures ObjectOk(t, i) {
      assert ObjectOk(s, i);
    }
    forall w: nat ensures WorkerOk(t, w) {
      assert WorkerOk(s, w);
    }
  }

  lemma StartThreadInv(s: State, t: State)
    requires Inv(s) && Do(s, StartThread) == Some(t)
    ensures Inv(t)
  {
    forall i: nat ensures ObjectOk(t, i) {
      assert ObjectOk(s, i);
    }
    forall w: nat ensures WorkerOk(t, w) {
      assert WorkerOk(s, w);
    }
  }

  lemma TestInv(s: State, w: nat, poolFull: bool, t: State)
    requires Inv(s) && Do(s, Test(w, poolFull)) == Some(t)
    ensures Inv(t)
  {
    forall i: nat ensures ObjectOk(t, i) {
      assert ObjectOk(s, i);
    }
    forall x: nat ensures WorkerOk(t, x) {
      assert WorkerOk(s, x);
    }
  }

  lemma FetchInv(s: State, w: nat, t: State)
    requires Inv(s) && Do(s, Fetch(w)) == Some(t)
    ensures Inv(t)
  {
    forall i: nat ensures ObjectOk(t, i) {
      assert ObjectOk(s, i);
    }
    forall x: nat ensures WorkerOk(t, x) {
      assert WorkerOk(s, x);
      if x < |s.workers| && s.workers[x].place.Loading? {
        assert ObjectOk(s, s.workers[x].place.item);
      }
    }
  }

  lemma LoadInv(s: State, w: nat, outcome: Outcome, t: State)
    requires Inv(s) && Do(s, Load(w, outcome)) == Some(t)
    ensures Inv(t)
  {
    assert WorkerOk(s, w);
    forall i: nat ensures ObjectOk(t, i) {
      assert ObjectOk(s, i);
    }
    forall x: nat ensures WorkerOk(t, x) {
      assert WorkerOk(s, x);
    }
  }

  lemma MainInv(s: State, step: Step, t: State)
    requires Inv(s) && Do(s, step) == Some(t) && (step == EndOwnLoop || step == Join || step == Cancel)
    ensures Inv(t)
  {
    forall i: nat ensures ObjectOk(t, i) {
      assert ObjectOk(s, i);
    }
    forall w: nat ensures WorkerOk(t, w) {
      assert WorkerOk(s, w);
    }
  }

  // All workers have been joined when the flag is set.
  lemma DecideInv(s: State, t: State)
    requires Inv(s) && Do(s, Decide) == Some(t)
    ensures Inv(t)
  {
    forall i: nat ensures ObjectOk(t, i) {
      assert ObjectOk(s, i);
    }
    forall w: nat ensures WorkerOk(t, w) {
      assert WorkerOk(s, w);
    }
    if t.cacheable {
      forall i | 0 <= i < |t.owner| ensures t.attempts[i] == 1 && (t.ready[i] <==> t.cacheFailed != Some(i)) {
        assert ObjectOk(s, i);
      }
    }
  }

  // ---------- runs ----------

  // A run under some interleaving: `states[j + 1]` is what `steps[j]` makes of `states[j]`.
  predicate IsRun(states: seq<State>, steps: seq<Step>, objects: nat, threads: nat, useCache: bool) {
    && |states| == |steps| + 1
    && Init(states[0], objects, threads, useCache)
    && forall j {:trigger steps[j]} :: 0 <= j < |steps| ==> Do(states[j], steps[j]) == Some(states[j + 1])
  }

  lemma {:induction false} RunInv(states: seq<State>, steps: seq<Step>, objects: nat, threads: nat, useCache: bool,
      j: nat)
    requires IsRun(states, steps, objects, threads, useCache) && j < |states|
    ensures Inv(states[j]) && |states[j].owner| == objects
    decreases j
  {
    if j == 0 {
      InitInv(states[0], objects, threads, useCache);
    } else {
      RunInv(states, steps, objects, threads, useCache, j - 1);
      assert Do(states[j - 1], steps[j - 1]) == Some(states[j]);
      StepInv(states[j - 1], steps[j - 1], states[j]);
    }
  }

  // Under every interleaving no object is ever loaded by two parties or twice by one.
  lemma NeverLoadedTwice(states: seq<State>, steps: seq<Step>, objects: nat, threads: nat, useCache: bool, j: nat)
    requires IsRun(states, steps, objects, threads, useCache) && j < |states|
    ensures |states[j].attempts| == objects && forall i :: 0 <= i < objects ==> states[j].attempts[i] <= 1
    ensures var workers := states[j].workers;
            forall w, x :: 0 <= w < x < |workers| && workers[w].place.Loading? && workers[x].place.Loading? ==>
              workers[w].place.item != workers[x].place.item
  {
    RunInv(states, steps, objects, threads, useCache, j);
    var s := states[j];
    forall i | 0 <= i < objects ensures s.attempts[i] <= 1 {
      assert ObjectOk(s, i);
    }
    forall w, x | 0 <= w < x < |s.workers| && s.workers[w].place.Loading? && s.workers[x].place.Loading?
      ensures s.workers[w].place.item != s.workers[x].place.item
    {
      assert WorkerOk(s, w) && WorkerOk(s, x);
    }
  }

  // When the organ is declared cacheable nothing is being loaded any more and every object
  // has been tried exactly once.  All of them are ready if and only if none had failed to
  // load from the cache before.
  lemma CacheableMeansLoaded(states: seq<State>, steps: seq<Step>, objects: nat, threads: nat, useCache: bool, j: nat)
    requires IsRun(states, steps, objects, threads, useCache) && j < |states| && states[j].cacheable
    ensures var s := states[j];
            && |s.attempts| == |s.ready| == objects
            && (forall w :: 0 <= w < |s.workers| ==> !s.workers[w].place.Loading?)
            && (forall i :: 0 <= i < objects ==> s.attempts[i] == 1)
            && ((forall i :: 0 <= i < objects ==> s.ready[i]) <==> s.cacheFailed == None)
  {
    RunInv(states, steps, objects, threads, useCache, j);
    var s := states[j];
    if s.cacheFailed.Some? {
      FailedIsAnObject(states, steps, objects, threads, useCache, j);
      assert !s.ready[s.cacheFailed.value];
    }
  }

  // Object i was tried by a worker, in vain.
  predicate Lost(s: State, i: nat)
    requires |s.owner| == |s.attempts| == |s.ready|
  {
    i < |s.owner| && s.owner[i].By? && s.attempts[i] == 1 && !s.ready[i]
  }

  // Every object was tried once; it is ready, or it is the one that failed to load from the cache.
  predicate AllLoaded(s: State)
    requires |s.owner| == |s.attempts| == |s.ready|
  {
    forall i :: 0 <= i < |s.owner| ==> s.attempts[i] == 1 && (s.ready[i] || s.cacheFailed == Some(i))
  }

  // Every exception that is known has its object, and what a finished load means.
  ghost predicate Explained(s: State)
    requires |s.owner| == |s.attempts| == |s.ready|
  {
    && (forall w :: 0 <= w < |s.workers| && s.workers[w].wereExceptions ==> exists i: nat :: Lost(s, i))
    && (s.main.Joining? ==>
          && (s.main.wereExceptions ==> exists i: nat :: Lost(s, i))
          && (forall w :: 0 <= w < s.main.thread && w < |s.workers| ==> !s.workers[w].outOfMemory))
    && (s.main == Finished ==>
          && (forall w :: 0 <= w < |s.workers| ==>
                (s.workers[w].place == Done || s.workers[w].place == Asleep) && !s.workers[w].outOfMemory)
          && (s.cacheable <==> AllLoaded(s)))
  }

  lemma StepExplained(s: State, step: Step, t: State)
    requires Inv(s) && Explained(s) && Do(s, step) == Some(t) && Inv(t)
    ensures Explained(t)
  {
    forall i: nat | Lost(s, i) ensures Lost(t, i) {
      LostKept(s, step, t, i);
    }
    if step.Load? {
      assert WorkerOk(s, step.worker);
      if step.outcome != Loaded {
        assert ObjectOk(s, s.workers[step.worker].place.item);
        assert Lost(t, s.workers[step.worker].place.item);
      }
    }
    if t.main == Finished {
      FinishedExplained(s, step, t);
    }
  }

  lemma LostKept(s: State, step: Step, t: State, i: nat)
    requires Inv(s) && Do(s, step) == Some(t) && Inv(t) && Lost(s, i)
    ensures Lost(t, i)
  {
    assert ObjectOk(s, i) && ObjectOk(t, i);
    if step.Load? {
      assert WorkerOk(s, step.worker);
    }
  }

  lemma FinishedExplained(s: State, step: Step, t: State)
    requires Inv(s) && Explained(s) && Do(s, step) == Some(t) && Inv(t) && t.main == Finished
    ensures forall w :: 0 <= w < |t.workers| ==>
              (t.workers[w].place == Done || t.workers[w].place == Asleep) && !t.workers[w].outOfMemory
    ensures t.cacheable <==> AllLoaded(t)
  {
    assert s.main != Finished;
    assert step == CacheFetch || step == Decide;
    forall w | 0 <= w < |t.workers|
      ensures (t.workers[w].place == Done || t.workers[w].place == Asleep) && !t.workers[w].outOfMemory
    {
      assert WorkerOk(t, w);
    }
    if t.pos < |t.owner| {
      assert ObjectOk(t, t.pos);
      assert !AllLoaded(t);
    }
    if i: nat :| Lost(s, i) {
      assert ObjectOk(s, i);
      assert !(t.ready[i] || t.cacheFailed == Some(i));
      assert !AllLoaded(t);
    }
  }

  lemma {:induction false} RunExplained(states: seq<State>, steps: seq<Step>, objects: nat, threads: nat,
      useCache: bool, j: nat)
    requires IsRun(states, steps, objects, threads, useCache) && j < |states|
    ensures Inv(states[j]) && |states[j].owner| == objects && Explained(states[j])
    decreases j
  {
    hide Inv, Do, Explained;
    RunInv(states, steps, objects, threads, useCache, j);
    if j == 0 {
      StartExplained(states[0], objects, threads, useCache);
    } else {
      RunExplained(states, steps, objects, threads, useCache, j - 1);
      assert Do(states[j - 1], steps[j - 1]) == Some(states[j]);
      StepExplained(states[j - 1], steps[j - 1], states[j]);
    }
  }

  lemma StartExplained(s: State, objects: nat, threads: nat, useCache: bool)
    requires Init(s, objects, threads, useCache)
    ensures |s.owner| == |s.attempts| == |s.ready| && Explained(s)
  {
  }

  // When loading finishes no worker had run out of memory, and the organ is declared cacheable
  // exactly if every object has been tried once and is ready or failed to load from the cache.
  lemma CacheableExactly(states: seq<State>, steps: seq<Step>, objects: nat, threads: nat, useCache: bool, j: nat)
    requires IsRun(states, steps, objects, threads, useCache) && j < |states| && states[j].main == Finished
    ensures var s := states[j];
            && |s.attempts| == |s.ready| == objects
            && (s.cacheable <==>
                  forall i :: 0 <= i < objects ==> s.attempts[i] == 1 && (s.ready[i] || s.cacheFailed == Some(i)))
            && (forall w :: 0 <= w < |s.workers| ==> !s.workers[w].outOfMemory && !s.workers[w].place.Loading?)
  {
    hide Do;
    RunExplained(states, steps, objects, threads, useCache, j);
  }

  // ---------- a pool that is never full ----------

  predicate Roomy(step: Step) {
    step.Test? ==> !step.poolFull
  }

  // A worker ends only when there is nothing left to fetch or it has run out of memory.
  predicate EndsLast(s: State) {
    && (forall w :: 0 <= w < |s.workers| && s.workers[w].place == Done && !s.workers[w].outOfMemory ==>
          s.pos >= |s.owner|)
    && (s.main.Joining? || s.main == Finished ==> s.pos >= |s.owner|)
  }

  lemma StepEndsLast(s: State, step: Step, t: State)
    requires EndsLast(s) && Roomy(step) && Do(s, step) == Some(t)
    ensures EndsLast(t)
  {
  }

  // Unless the pool gets full, every object has been tried once when loading finishes, whatever
  // failed on the way.
  lemma AllTried(states: seq<State>, steps: seq<Step>, objects: nat, threads: nat, useCache: bool, j: nat)
    requires IsRun(states, steps, objects, threads, useCache) && j < |states| && states[j].main == Finished
    requires forall k :: 0 <= k < |steps| ==> Roomy(steps[k])
    ensures var s := states[j];
            && |s.attempts| == |s.ready| == objects
            && (forall i :: 0 <= i < objects ==> s.attempts[i] == 1)
            && (s.cacheable <==> forall i :: 0 <= i < objects ==> s.ready[i] || s.cacheFailed == Some(i))
  {
    hide Do;
    RunExplained(states, steps, objects, threads, useCache, j);
    RunEndsLast(states, steps, objects, threads, useCache, j);
    var s := states[j];
    forall i | 0 <= i < objects ensures s.attempts[i] == 1 {
      assert ObjectOk(s, i);
    }
  }

  lemma {:induction false} RunEndsLast(states: seq<State>, steps: seq<Step>, objects: nat, threads: nat,
      useCache: bool, j: nat)
    requires IsRun(states, steps, objects, threads, useCache) && j < |states|
    requires forall k :: 0 <= k < |steps| ==> Roomy(steps[k])
    ensures EndsLast(states[j])
    decreases j
  {
    hide Do, Roomy;
    if j > 0 {
      hide EndsLast;
      RunEndsLast(states, steps, objects, threads, useCache, j - 1);
      assert Do(states[j - 1], steps[j - 1]) == Some(states[j]);
      StepEndsLast(states[j - 1], steps[j - 1], states[j]);
    }
  }

  lemma {:induction false} FailedIsAnObject(states: seq<State>, steps: seq<Step>, objects: nat, threads: nat,
      useCache: bool, j: nat)
    requires IsRun(states, steps, objects, threads, useCache) && j < |states| && states[j].cacheFailed.Some?
    ensures states[j].cacheFailed.value < objects
    decreases j
  {
    if j > 0 {
      RunInv(states, steps, objects, threads, useCache, j - 1);
      assert Do(states[j - 1], steps[j - 1]) == Some(states[j]);
      if states[j - 1].cacheFailed.Some? {
        FailedIsAnObject(states, steps, objects, threads, useCache, j - 1);
      }
    }
  }

  // ---------- progress ----------

  function Rank(p: Place): nat {
    match p
    case Asleep => 4
    case Loading(_) => 3
    case Testing => 2
    case Fetching => 1
    case Done => 0
  }

  function Ranks(workers: seq<Worker>): nat {
    if workers == [] then 0 else Rank(workers[0].place) + Ranks(workers[1..])
  }

  lemma {:induction false} RanksUpdate(workers: seq<Worker>, w: nat, k: Worker)
    requires w < |workers|
    ensures Ranks(workers[w := k]) == Ranks(workers) - Rank(workers[w].place) + Rank(k.place)
  {
    if w == 0 {
      assert workers[w := k][1..] == workers[1..];
    } else {
      assert workers[w := k][1..] == workers[1..][w - 1 := k];
      RanksUpdate(workers[1..], w - 1, k);
    }
  }

  // `count` is the number of workers.
  function MainRank(m: Main, count: nat): nat {
    match m
    case CacheLoading(_) => count + 6
    case CacheFetching => count + 5
    case Starting(_) => count + 4
    case Working => count + 3
    case Joining(i, _) => if i <= count then count + 2 - i else 0
    case Finished => 0
    case Aborted => 0
  }

  function Remaining(s: State): nat {
    if s.pos < |s.owner| then |s.owner| - s.pos else 0
  }

  function Measure(s: State): nat {
    3 * Remaining(s) + Ranks(s.workers) + MainRank(s.main, |s.workers|)
  }

  // The worker holds an object and the pool is full: its loop goes round without an effect.
  predicate Spins(s: State, step: Step) {
    && step.Test? && step.poolFull && step.worker < |s.workers|
    && s.workers[step.worker].hasObject && !s.workers[step.worker].outOfMemory
  }

  // A step brings the loading closer to its end, or it is a round of a worker that waits for
  // a full pool, and then it changes nothing.
  lemma StepProgress(s: State, step: Step, t: State)
    requires Inv(s) && Do(s, step) == Some(t)
    ensures if Spins(s, step) then t == s else Measure(t) < Measure(s)
    ensures |t.workers| == |s.workers|
  {
    hide Inv;
    match step {
      case StartThread => StartProgress(s, t);
      case Test(w, poolFull) =>
        RanksUpdate(s.workers, w, t.workers[w]);
        if Spins(s, step) {
          assert t.workers == s.workers;
        }
      case Fetch(w) => RanksUpdate(s.workers, w, t.workers[w]);
      case Load(w, outcome) => RanksUpdate(s.workers, w, t.workers[w]);
      case CacheFetch => MainProgress(s, step, t);
      case CacheLoad(outcome) => MainProgress(s, step, t);
      case EndOwnLoop => MainProgress(s, step, t);
      case Join => MainProgress(s, step, t);
      case Decide => MainProgress(s, step, t);
      case Cancel => MainProgress(s, step, t);
    }
  }

  lemma StartProgress(s: State, t: State)
    requires Inv(s) && Do(s, StartThread) == Some(t)
    ensures Measure(t) < Measure(s) && |t.workers| == |s.workers|
  {
    hide Inv;
    var i := if s.main.thread < |s.workers| then s.main.thread else 0;
    assert s.workers[i].place == Asleep by { StartsAsleep(s, i); }
    RanksUpdate(s.workers, i, s.workers[i].(place := Testing));
  }

  lemma MainProgress(s: State, step: Step, t: State)
    requires Inv(s) && Do(s, step) == Some(t)
    requires step == CacheFetch || step.CacheLoad? || step == EndOwnLoop || step == Join || step == Decide
             || step == Cancel
    ensures Measure(t) < Measure(s) && |t.workers| == |s.workers|
  {
    hide Inv;
    assert s.main.Joining? ==> s.main.thread <= |s.workers| by {
      if s.main.Joining? { JoinsAll(s); }
    }
  }

  lemma StartsAsleep(s: State, i: nat)
    requires Inv(s) && s.main.Starting? && i < |s.workers| && (i == 0 || i >= s.main.thread)
    ensures s.workers[i].place == Asleep
  {
    assert MainOk(s);
  }

  lemma JoinsAll(s: State)
    requires Inv(s) && s.main.Joining?
    ensures s.main.thread <= |s.workers|
  {
    assert MainOk(s);
  }

  // As long as the loading has neither finished nor been given up some step is possible
  // that is not a wait for the pool.
  lemma NoDeadlock(s: State) returns (step: Step)
    requires Inv(s) && s.main != Finished && s.main != Aborted
    ensures Do(s, step).Some? && !Spins(s, step)
  {
    match s.main {
      case CacheFetching => step := CacheFetch;
      case CacheLoading(i) => step := CacheLoad(Loaded);
      case Starting(i) => step := StartThread;
      case Working => step := if s.workers[0].place == Done then EndOwnLoop else NextOf(s, 0);
      case Joining(i, e) =>
        step := if i == |s.workers| then Decide else if s.workers[i].place == Done then Join else NextOf(s, i);
    }
    assert WorkerOk(s, 0);
    if s.main.Joining? {
      assert WorkerOk(s, s.main.thread);
    }
  }

  function NextOf(s: State, w: nat): Step
    requires w < |s.workers|
  {
    match s.workers[w].place
    case Loading(_) => Load(w, Loaded)
    case Fetching => Fetch(w)
    case _ => Test(w, false)
  }

  // The steps below `j` that are not a round of a worker that waits for a full pool.
  function Advances(states: seq<State>, steps: seq<Step>, j: nat): (n: nat)
    requires j <= |steps| && |states| == |steps| + 1
    ensures n <= j
  {
    if j == 0 then 0
    else Advances(states, steps, j - 1) + if Spins(states[j - 1], steps[j - 1]) then 0 else 1
  }

  // Every run has a bounded number of steps that are not such a round: only by waiting can it
  // exceed the bound.
  lemma {:induction false} RunsEnd(states: seq<State>, steps: seq<Step>, objects: nat, threads: nat, useCache: bool,
      j: nat)
    requires IsRun(states, steps, objects, threads, useCache) && j < |states|
    ensures |states[j].workers| == 1 + threads
    ensures Advances(states, steps, j) + Measure(states[j]) <= 3 * objects + 5 * threads + 10
    decreases j
  {
    hide Do, Inv, Spins;
    if j == 0 {
      StartMeasure(states[0], objects, threads, useCache);
    } else {
      hide Init, Measure;
      RunsEnd(states, steps, objects, threads, useCache, j - 1);
      RunInv(states, steps, objects, threads, useCache, j - 1);
      assert Do(states[j - 1], steps[j - 1]) == Some(states[j]);
      StepProgress(states[j - 1], steps[j - 1], states[j]);
    }
  }

  lemma StartMeasure(s: State, objects: nat, threads: nat, useCache: bool)
    requires Init(s, objects, threads, useCache)
    ensures Measure(s) <= 3 * objects + 5 * threads + 10
  {
    AsleepRanks(s.workers);
  }

  lemma {:induction false} AsleepRanks(workers: seq<Worker>)
    requires forall w :: 0 <= w < |workers| ==> workers[w].place == Asleep
    ensures Ranks(workers) == 4 * |workers|
  {
    if workers != [] {
      AsleepRanks(workers[1..]);
    }
  }

  // ---------- a pool that stays full ----------

  // The main thread's own worker has an object and waits for room in the pool.
  predicate Waiting(s: State) {
    && |s.workers| > 0 && s.workers[0].place == Testing
    && s.workers[0].hasObject && !s.workers[0].outOfMemory
    && (s.main == Working || s.main == Aborted)
  }

  predicate PoolFull(step: Step) {
    step.Test? ==> step.poolFull
  }

  lemma StepWaits(s: State, step: Step, t: State)
    requires Waiting(s) && PoolFull(step) && Do(s, step) == Some(t)
    ensures Waiting(t) && (t.main == Working || step == Cancel || s.main == Aborted)
  {
  }

  // While the pool stays full this goes on, whatever the other workers do: loading comes to an
  // end only if it is cancelled.
  lemma {:induction false} WaitsForRoom(states: seq<State>, steps: seq<Step>, j: nat)
    requires |states| == |steps| + 1 && j < |states| && Waiting(states[0])
    requires forall i {:trigger steps[i]} :: 0 <= i < |steps| ==>
             PoolFull(steps[i]) && Do(states[i], steps[i]) == Some(states[i + 1])
    ensures Waiting(states[j])
    ensures Cancel !in steps[..j] && states[0].main == Working ==> states[j].main == Working
    decreases j
  {
    hide Do, Waiting, PoolFull;
    if j > 0 {
      WaitsForRoom(states, steps, j - 1);
      StepWaits(states[j - 1], steps[j - 1], states[j]);
      assert steps[..j] == steps[..j - 1] + [steps[j - 1]];
      assert states[j].main == Working || steps[j - 1] == Cancel || states[j - 1].main == Aborted;
      if Cancel !in steps[..j] && states[0].main == Working {
        assert steps[j - 1] in steps[..j];
      }
    }
  }

  // All workers wait or have ended.
  predicate AllWaiting(s: State) {
    && Waiting(s) && s.main == Working
    && forall w :: 0 <= w < |s.workers| ==>
         s.workers[w].place == Done || (s.workers[w].place == Testing && s.workers[w].hasObject
           && !s.workers[w].outOfMemory)
  }

  // Then no step but Cancel changes anything.
  lemma OnlyCancelChanges(s: State, step: Step, t: State)
    requires AllWaiting(s) && PoolFull(step) && Do(s, step) == Some(t)
    ensures t == s || step == Cancel
  {
    if step.Test? {
      assert s.workers[step.worker := s.workers[step.worker]] == s.workers;
    }
  }

  // An organ with two objects, without additional threads: the pool gets full with the first.
  function FullRun(): seq<State> {
    var k := Worker(Asleep, false, false, false);
    var start := State(0, [Nobody, Nobody], [0, 0], [false, false], [k], Starting(1), None, false);
    var fetched := start.(pos := 1, owner := [By(0), Nobody], workers := [Worker(Loading(0), true, false, false)],
      main := Working);
    [start,
     start.(workers := [k.(place := Testing)], main := Working),
     start.(workers := [k.(place := Fetching)], main := Working),
     fetched,
     fetched.(attempts := [1, 0], ready := [true, false], workers := [Worker(Testing, true, false, false)])]
  }

  function FullSteps(): seq<Step> {
    [StartThread, Test(0, false), Fetch(0), Load(0, Loaded)]
  }

  lemma FullStarts(j: nat)
    requires j < 2
    ensures Do(FullRun()[j], FullSteps()[j]) == Some(FullRun()[j + 1])
  {
    assert FullRun()[j].workers[0 := FullRun()[j + 1].workers[0]] == FullRun()[j + 1].workers;
  }

  lemma FullLoads()
    ensures Do(FullRun()[2], FullSteps()[2]) == Some(FullRun()[3])
    ensures Do(FullRun()[3], FullSteps()[3]) == Some(FullRun()[4])
  {
    assert [Nobody, Nobody][0 := By(0)] == [By(0), Nobody];
    assert [0, 0][0 := 1] == [1, 0] && [false, false][0 := true] == [true, false];
    assert FullRun()[2].workers[0 := FullRun()[3].workers[0]] == FullRun()[3].workers;
    assert FullRun()[3].workers[0 := FullRun()[4].workers[0]] == FullRun()[4].workers;
  }

  // This run leads to a state in which the loader tests the full pool for ever, with an object
  // still to be loaded.
  lemma FullPoolReached()
    ensures IsRun(FullRun(), FullSteps(), 2, 0, false)
    ensures AllWaiting(FullRun()[4]) && FullRun()[4].pos < 2 && !FullRun()[4].ready[1]
    ensures Spins(FullRun()[4], Test(0, true)) && Do(FullRun()[4], Test(0, true)) == Some(FullRun()[4])
  {
    FullTests();
    hide Do;
    FullLoads();
    forall j: nat | j < 4 ensures Do(FullRun()[j], FullSteps()[j]) == Some(FullRun()[j + 1]) {
      if j < 2 { FullStarts(j); }
    }
  }

  lemma FullTests()
    ensures Do(FullRun()[4], Test(0, true)) == Some(FullRun()[4])
  {
    assert FullRun()[4].workers[0 := FullRun()[4].workers[0]] == FullRun()[4].workers;
  }

  // ---------- a failure that is forgotten ----------

  // An organ with one object, without additional threads, whose load from the cache fails.
  function FailedRun(): seq<State> {
    var k := Worker(Asleep, false, false, false);
    var start := State(0, [Nobody], [0], [false], [k], CacheFetching, None, false);
    var failed := start.(pos := 1, owner := [Cache], attempts := [1], main := Starting(1), cacheFailed := Some(0));
    var over := failed.(pos := 2, workers := [k.(place := Done)]);
    [start,
     start.(pos := 1, owner := [Cache], main := CacheLoading(0)),
     failed,
     failed.(workers := [k.(place := Testing)], main := Working),
     failed.(workers := [k.(place := Fetching)], main := Working),
     over.(main := Working),
     over.(main := Joining(1, false)),
     over.(main := Finished, cacheable := true)]
  }

  function FailedSteps(): seq<Step> {
    [CacheFetch, CacheLoad(Failed), StartThread, Test(0, false), Fetch(0), EndOwnLoop, Decide]
  }

  lemma FailedInCache()
    ensures forall j :: 0 <= j < 2 ==> Do(FailedRun()[j], FailedSteps()[j]) == Some(FailedRun()[j + 1])
  {
    assert [Nobody][0 := Cache] == [Cache];
    assert [0][0 := 1] == [1] && [false][0 := false] == [false];
  }

  lemma FailedStarts(j: nat)
    requires 2 <= j < 5
    ensures Do(FailedRun()[j], FailedSteps()[j]) == Some(FailedRun()[j + 1])
  {
    assert FailedRun()[j].workers[0 := FailedRun()[j + 1].workers[0]] == FailedRun()[j + 1].workers;
  }

  lemma FailedEnds(j: nat)
    requires 5 <= j < 7
    ensures Do(FailedRun()[j], FailedSteps()[j]) == Some(FailedRun()[j + 1])
  {
  }

  // The organ is declared cacheable without its object.
  lemma FailedButCacheable()
    ensures IsRun(FailedRun(), FailedSteps(), 1, 0, true)
    ensures FailedRun()[7].cacheable && FailedRun()[7].ready == [false]
  {
    hide Do;
    FailedInCache();
    forall j: nat | 2 <= j < 7 ensures Do(FailedRun()[j], FailedSteps()[j]) == Some(FailedRun()[j + 1]) {
      if j < 5 { FailedStarts(j); } else { FailedEnds(j); }
    }
  }
}
