/**
 Work started by a route that does not wait for it: promise chains per key, the set of tasks in
 flight and the tail of every chain, under every schedule of the event loop.
 */
module BackgroundQueue {
  import opened Wrappers

  type Key = string

  /** A task's number is its place in the order of the calls to `run`. */
  type TaskId = nat

  /** `Done` once the promise has settled, well or badly; `Cleaned` once its `finally` callback ran. */
  datatype Phase = Waiting | Running | Done(failed: bool) | Cleaned

  datatype Task = Task(key: Option<Key>, previous: Option<TaskId>, phase: Phase)

  datatype Work = Work(tasks: seq<Task>, inFlight: set<TaskId>, tails: map<Key, TaskId>)

  datatype Step = Run(key: Option<Key>) | Start(id: TaskId) | Finish(id: TaskId, failed: bool) | Cleanup(id: TaskId)

  /**
   The `finally` callback of a promise is registered before any successor's `then`, so it runs
   first: a task may start when its predecessor has been cleaned up.
   */
  predicate Enabled(w: Work, step: Step) {
    match step
    case Run(_) => true
    case Start(id) =>
      && id < |w.tasks| && w.tasks[id].phase == Waiting
      && (w.tasks[id].previous.Some? ==>
           w.tasks[id].previous.value < |w.tasks| && w.tasks[w.tasks[id].previous.value].phase == Cleaned)
    case Finish(id, _) => id < |w.tasks| && w.tasks[id].phase == Running
    case Cleanup(id) => id < |w.tasks| && w.tasks[id].phase.Done?
  }

  function Tail(w: Work, key: Option<Key>): Option<TaskId> {
    if key.Some? && key.value in w.tails then Some(w.tails[key.value]) else None
  }

  function SetPhase(w: Work, id: TaskId, phase: Phase): Work
    requires id < |w.tasks|
  {
    w.(tasks := w.tasks[id := w.tasks[id].(phase := phase)])
  }

  function Apply(w: Work, step: Step): Work
    requires Enabled(w, step)
  {
    match step
    case Run(key) =>
      Work(w.tasks + [Task(key, Tail(w, key), Waiting)], w.inFlight + {|w.tasks|},
           if key.Some? then w.tails[key.value := |w.tasks|] else w.tails)
    case Start(id) => SetPhase(w, id, Running)
    case Finish(id, failed) => SetPhase(w, id, Done(failed))
    case Cleanup(id) =>
      var key := w.tasks[id].key;
      SetPhase(w, id, Cleaned).(
        inFlight := w.inFlight - {id},
        tails := if key.Some? && key.value in w.tails && w.tails[key.value] == id then w.tails - {key.value}
                 else w.tails)
  }

  // ---- the invariant --------------------------------------------------------------------

  ghost predicate HasKey(w: Work, id: TaskId, key: Key) {
    id < |w.tasks| && w.tasks[id].key == Some(key)
  }

  /** `p` is the last task with `key` before task number `n`. */
  ghost predicate LastBefore(w: Work, p: TaskId, key: Key, n: nat) {
    p < n && HasKey(w, p, key) && forall i | p < i < n :: !HasKey(w, i, key)
  }

  ghost predicate AllCleanedBefore(w: Work, key: Key, n: nat) {
    forall i | 0 <= i < n && HasKey(w, i, key) :: w.tasks[i].phase == Cleaned
  }

  /** A task follows the last one of its key, unless all of those were over when it was queued. */
  ghost predicate LinkOk(w: Work, id: TaskId)
    requires id < |w.tasks|
  {
    var t := w.tasks[id];
    && (t.previous.Some? ==> t.key.Some? && LastBefore(w, t.previous.value, t.key.value, id))
    && (t.previous.None? && t.key.Some? ==> AllCleanedBefore(w, t.key.value, id))
    && (t.phase != Waiting && t.key.Some? ==> AllCleanedBefore(w, t.key.value, id))
  }

  /** The tail of a key is its last task as long as that is not over; without a tail all are over. */
  ghost predicate TailOk(w: Work, key: Key) {
    if key in w.tails then LastBefore(w, w.tails[key], key, |w.tasks|) && w.tasks[w.tails[key]].phase != Cleaned
    else AllCleanedBefore(w, key, |w.tasks|)
  }

  ghost predicate Inv(w: Work) {
    && (forall id | 0 <= id < |w.tasks| :: LinkOk(w, id))
    && (forall key :: TailOk(w, key))
    && (forall id: TaskId :: id in w.inFlight <==> id < |w.tasks| && w.tasks[id].phase != Cleaned)
  }

  lemma RunKeeps(w: Work, key: Option<Key>)
    requires Inv(w)
    ensures Inv(Apply(w, Run(key)))
  {
    var w' := Apply(w, Run(key));
    forall id | 0 <= id < |w'.tasks| ensures LinkOk(w', id) {
      if id < |w.tasks| {
        assert LinkOk(w, id);
        assert forall i: TaskId, k | i < |w.tasks| :: HasKey(w', i, k) <==> HasKey(w, i, k);
      } else if key.Some? {
        assert TailOk(w, key.value);
        assert forall i: TaskId, k | i < |w.tasks| :: HasKey(w', i, k) <==> HasKey(w, i, k);
      }
    }
    forall k ensures TailOk(w', k) {
      assert TailOk(w, k);
      assert forall i: TaskId | i < |w.tasks| :: HasKey(w', i, k) <==> HasKey(w, i, k);
    }
  }

  lemma StartKeeps(w: Work, id: TaskId)
    requires Inv(w) && Enabled(w, Start(id))
    ensures Inv(Apply(w, Start(id)))
  {
    var w' := Apply(w, Start(id));
    PhasesElsewhere(w, w', id);
    if w.tasks[id].key.Some? {
      EarlierAreOver(w, id);
    }
    forall i | 0 <= i < |w'.tasks| ensures LinkOk(w', i) {
      assert LinkOk(w, i);
    }
    forall k ensures TailOk(w', k) {
      assert TailOk(w, k);
    }
  }

  lemma PhasesElsewhere(w: Work, w': Work, id: TaskId)
    requires id < |w.tasks| == |w'.tasks|
    requires forall i | 0 <= i < |w.tasks| :: w'.tasks[i].key == w.tasks[i].key
    requires forall i | 0 <= i < |w.tasks| && i != id :: w'.tasks[i] == w.tasks[i]
    requires w.tasks[id].phase != Cleaned
    ensures forall i: TaskId, k :: HasKey(w', i, k) <==> HasKey(w, i, k)
    ensures forall k, n: nat :: AllCleanedBefore(w, k, n) ==> AllCleanedBefore(w', k, n)
    ensures forall p: TaskId, k, n: nat :: LastBefore(w, p, k, n) <==> LastBefore(w', p, k, n)
  {
  }

  /** When a task may start, every earlier task of its key is over. */
  lemma EarlierAreOver(w: Work, id: TaskId)
    requires Inv(w) && Enabled(w, Start(id)) && w.tasks[id].key.Some?
    ensures AllCleanedBefore(w, w.tasks[id].key.value, id)
  {
    var key := w.tasks[id].key.value;
    assert LinkOk(w, id);
    if w.tasks[id].previous.Some? {
      var p := w.tasks[id].previous.value;
      assert LinkOk(w, p) && HasKey(w, p, key);
      forall i | 0 <= i < id && HasKey(w, i, key) ensures w.tasks[i].phase == Cleaned {
        assert i <= p;
      }
    }
  }

  lemma FinishKeeps(w: Work, id: TaskId, failed: bool)
    requires Inv(w) && Enabled(w, Finish(id, failed))
    ensures Inv(Apply(w, Finish(id, failed)))
  {
    var w' := Apply(w, Finish(id, failed));
    PhasesElsewhere(w, w', id);
    forall i | 0 <= i < |w'.tasks| ensures LinkOk(w', i) {
      assert LinkOk(w, i) && LinkOk(w, id);
    }
    forall k ensures TailOk(w', k) {
      assert TailOk(w, k);
    }
  }

  lemma CleanupKeeps(w: Work, id: TaskId)
    requires Inv(w) && Enabled(w, Cleanup(id))
    ensures Inv(Apply(w, Cleanup(id)))
  {
    var w' := Apply(w, Cleanup(id));
    PhasesElsewhere(w, w', id);
    forall i | 0 <= i < |w'.tasks| ensures LinkOk(w', i) {
      assert LinkOk(w, i) && LinkOk(w, id);
    }
    forall k ensures TailOk(w', k) {
      assert TailOk(w, k) && LinkOk(w, id);
      if k in w.tails && w.tails[k] == id {
        assert HasKey(w, id, k);
        forall i | 0 <= i < |w'.tasks| && HasKey(w', i, k) ensures w'.tasks[i].phase == Cleaned {
          assert HasKey(w, i, k);
          assert i <= id;
        }
      }
    }
  }

  lemma StepKeeps(w: Work, step: Step)
    requires Inv(w) && Enabled(w, step)
    ensures Inv(Apply(w, step))
  {
    match step
    case Run(key) => RunKeeps(w, key);
    case Start(id) => StartKeeps(w, id);
    case Finish(id, failed) => FinishKeeps(w, id, failed);
    case Cleanup(id) => CleanupKeeps(w, id);
  }

  // ---- whole schedules ------------------------------------------------------------------

  const IDLE: Work := Work([], {}, map[])

  ghost predicate Schedules(w: Work, steps: seq<Step>, w': Work)
    decreases |steps|
  {
    if steps == [] then w == w' else Enabled(w, steps[0]) && Schedules(Apply(w, steps[0]), steps[1..], w')
  }

  lemma {:induction false} ScheduleKeeps(w: Work, steps: seq<Step>, w': Work)
    requires Inv(w) && Schedules(w, steps, w')
    ensures Inv(w')
    decreases |steps|
  {
    if steps != [] {
      StepKeeps(w, steps[0]);
      ScheduleKeeps(Apply(w, steps[0]), steps[1..], w');
    }
  }

  /**
   Under every schedule, tasks that share a key run one at a time in the order of their calls:
   when one has started, all earlier ones, failed or not, are over.
   */
  lemma OneAtATimeInOrder(steps: seq<Step>, w: Work, i: TaskId, j: TaskId)
    requires Schedules(IDLE, steps, w) && i < j < |w.tasks| && w.tasks[i].key == w.tasks[j].key && w.tasks[i].key.Some?
    ensures w.tasks[j].phase != Waiting ==> w.tasks[i].phase == Cleaned
    ensures !(w.tasks[i].phase == Running && w.tasks[j].phase == Running)
  {
    ScheduleKeeps(IDLE, steps, w);
    assert LinkOk(w, j) && HasKey(w, i, w.tasks[j].key.value);
  }

  /** The tail of a key is its last unfinished task, and a key without one has none unfinished. */
  lemma TailIsLastUnfinished(steps: seq<Step>, w: Work, key: Key)
    requires Schedules(IDLE, steps, w)
    ensures key in w.tails ==> HasKey(w, w.tails[key], key) && w.tasks[w.tails[key]].phase != Cleaned
    ensures key in w.tails <==> exists i: TaskId :: HasKey(w, i, key) && w.tasks[i].phase != Cleaned
    ensures forall i: TaskId | HasKey(w, i, key) && w.tasks[i].phase != Cleaned :: key in w.tails && i <= w.tails[key]
  {
    ScheduleKeeps(IDLE, steps, w);
    assert TailOk(w, key);
    if key in w.tails {
      assert HasKey(w, w.tails[key], key);
    }
  }

  /** `settled` waits for the set in flight to run empty: then nothing is queued, running or half done. */
  lemma SettledMeansIdle(steps: seq<Step>, w: Work)
    requires Schedules(IDLE, steps, w)
    ensures w.inFlight == {} <==> forall t | t in w.tasks :: t.phase == Cleaned
    ensures w.inFlight == {} ==> w.tails == map[]
  {
    ScheduleKeeps(IDLE, steps, w);
    if w.inFlight == {} {
      NothingInFlight(w);
    } else {
      var id :| id in w.inFlight;
      assert w.tasks[id] in w.tasks;
    }
  }

  lemma NothingInFlight(w: Work)
    requires Inv(w) && w.inFlight == {}
    ensures w.tails == map[] && forall t | t in w.tasks :: t.phase == Cleaned
  {
    forall key | key in w.tails ensures w.tails[key] in w.inFlight {
      assert TailOk(w, key);
    }
    forall t | t in w.tasks ensures t.phase == Cleaned {
      var i :| 0 <= i < |w.tasks| && w.tasks[i] == t;
      assert i !in w.inFlight;
    }
  }

  /** The task can go on to `phase`. */
  predicate Moves(w: Work, id: TaskId, phase: Phase) {
    match phase
    case Waiting => false
    case Running => Enabled(w, Start(id))
    case Done(failed) => Enabled(w, Finish(id, failed))
    case Cleaned => Enabled(w, Cleanup(id))
  }

  function StepTo(w: Work, id: TaskId, phase: Phase): (step: Step)
    requires Moves(w, id, phase)
    ensures Enabled(w, step) && !step.Run?
  {
    match phase
    case Running => Start(id)
    case Done(failed) => Finish(id, failed)
    case Cleaned => Cleanup(id)
  }

  /** As long as something is in flight some task can move on: no failure and no chain is in the way. */
  lemma NeverStuck(w: Work) returns (id: TaskId, phase: Phase)
    requires Inv(w) && w.inFlight != {}
    ensures id < |w.tasks| && Moves(w, id, phase)
  {
    var some :| some in w.inFlight;
    id := FirstUnfinished(w, some);
    assert LinkOk(w, id);
    match w.tasks[id].phase
    case Waiting => phase := Running;
    case Running => phase := Done(true);
    case Done(_) => phase := Cleaned;
  }

  lemma {:induction false} FirstUnfinished(w: Work, id: TaskId) returns (first: TaskId)
    requires id < |w.tasks| && w.tasks[id].phase != Cleaned
    ensures first <= id && w.tasks[first].phase != Cleaned && forall i | 0 <= i < first :: w.tasks[i].phase == Cleaned
  {
    if i :| 0 <= i < id && w.tasks[i].phase != Cleaned {
      first := FirstUnfinished(w, i);
    } else {
      first := id;
    }
  }

  function Left(phase: Phase): nat {
    match phase
    case Waiting => 3
    case Running => 2
    case Done(_) => 1
    case Cleaned => 0
  }

  function StepsLeft(tasks: seq<Task>): nat {
    if tasks == [] then 0 else StepsLeft(tasks[..|tasks| - 1]) + Left(tasks[|tasks| - 1].phase)
  }

  lemma {:induction false} OneStepLess(tasks: seq<Task>, id: nat, phase: Phase)
    requires id < |tasks| && Left(phase) + 1 == Left(tasks[id].phase)
    ensures StepsLeft(tasks[id := tasks[id].(phase := phase)]) + 1 == StepsLeft(tasks)
  {
    var after := tasks[id := tasks[id].(phase := phase)];
    if id == |tasks| - 1 {
      assert after[..|after| - 1] == tasks[..|tasks| - 1];
    } else {
      assert after[..|after| - 1] == tasks[..|tasks| - 1][id := tasks[id].(phase := phase)];
      OneStepLess(tasks[..|tasks| - 1], id, phase);
    }
  }

  /** Without new calls every step brings the queue closer to settled, three steps a task at most. */
  lemma StepsCountDown(w: Work, step: Step)
    requires Enabled(w, step) && !step.Run?
    ensures StepsLeft(Apply(w, step).tasks) + 1 == StepsLeft(w.tasks)
  {
    match step
    case Start(id) => OneStepLess(w.tasks, id, Running);
    case Finish(id, failed) => OneStepLess(w.tasks, id, Done(failed));
    case Cleanup(id) => OneStepLess(w.tasks, id, Cleaned);
  }

  /** What is left to do when `calls` are still to come: a call is one step and makes three. */
  function Remaining(w: Work, calls: seq<Option<Key>>): nat {
    StepsLeft(w.tasks) + 4 * |calls|
  }

  lemma CallsCount(w: Work, key: Option<Key>)
    ensures StepsLeft(Apply(w, Run(key)).tasks) == StepsLeft(w.tasks) + 3
  {
    var after := Apply(w, Run(key)).tasks;
    assert after[..|after| - 1] == w.tasks;
  }

  /** The keys of the calls among the steps, in order. */
  function CallsIn(steps: seq<Step>): seq<Option<Key>> {
    if steps == [] then []
    else CallsIn(steps[..|steps| - 1]) + (if steps[|steps| - 1].Run? then [steps[|steps| - 1].key] else [])
  }

  lemma CallsOn(steps: seq<Step>, step: Step, calls: seq<Option<Key>>, rest: seq<Option<Key>>)
    requires if step.Run? then calls == [step.key] + rest else rest == calls
    ensures CallsIn(steps) + calls == CallsIn(steps + [step]) + rest
  {
    assert (steps + [step])[..|steps + [step]| - 1] == steps;
  }

  lemma {:induction false} CallsJoin(a: seq<Step>, b: seq<Step>)
    ensures CallsIn(a + b) == CallsIn(a) + CallsIn(b)
  {
    if b == [] {
      assert a + b == a;
    } else {
      CallsJoin(a, b[..|b| - 1]);
      assert (a + b)[..|a + b| - 1] == a + b[..|b| - 1];
    }
  }

  lemma CallsFurther(calls: seq<Option<Key>>, steps: seq<Step>, was: seq<Option<Key>>, more: seq<Step>,
      rest: seq<Option<Key>>)
    requires calls == CallsIn(steps) + was && was == CallsIn(more) + rest
    ensures calls == CallsIn(steps + more) + rest
  {
    CallsJoin(steps, more);
  }

  lemma {:induction false} SchedulesOn(w: Work, steps: seq<Step>, w': Work, step: Step)
    requires Schedules(w, steps, w') && Enabled(w', step)
    ensures Schedules(w, steps + [step], Apply(w', step))
    decreases |steps|
  {
    if steps == [] {
      assert (steps + [step])[1..] == [];
    } else {
      SchedulesOn(Apply(w, steps[0]), steps[1..], w', step);
      assert (steps + [step])[1..] == steps[1..] + [step];
    }
  }

  lemma {:induction false} SchedulesJoin(w: Work, a: seq<Step>, w': Work, b: seq<Step>, w'': Work)
    requires Schedules(w, a, w') && Schedules(w', b, w'')
    ensures Schedules(w, a + b, w'')
    decreases |a|
  {
    if a == [] {
      assert a + b == b;
    } else {
      SchedulesJoin(Apply(w, a[0]), a[1..], w', b, w'');
      assert (a + b)[0] == a[0] && (a + b)[1..] == a[1..] + b;
    }
  }

  // ---- the service ----------------------------------------------------------------------

  class BackgroundWork {
    var tasks: seq<Task>
    var inFlight: set<TaskId>
    var tails: map<Key, TaskId>

    function View(): Work
      reads this
    {
      Work(tasks, inFlight, tails)
    }

    constructor ()
      ensures View() == IDLE && Inv(View())
    {
      tasks, inFlight, tails := [], {}, map[];
    }

    method Run(key: Option<Key>) returns (done: TaskId)
      modifies this
      ensures View() == Apply(old(View()), Step.Run(key)) && done == |old(tasks)|
    {
      var previous := if key.Some? && key.value in tails then Some(tails[key.value]) else None;
      done := |tasks|;
      tasks := tasks + [Task(key, previous, Waiting)];
      inFlight := inFlight + {done};
      if key.Some? {
        tails := tails[key.value := done];
      }
    }

    /** The `finally` callback of `done`. */
    method Finally(done: TaskId)
      requires Enabled(View(), Cleanup(done))
      modifies this
      ensures View() == Apply(old(View()), Cleanup(done))
    {
      var key := tasks[done].key;
      tasks := tasks[done := tasks[done].(phase := Cleaned)];
      inFlight := inFlight - {done};
      if key.Some? && key.value in tails && tails[key.value] == done {
        tails := tails - {key.value};
      }
    }

    /**
     One move of the event loop, no matter which: the next call of `run`, if there is one to come, or
     a step of a task.
     */
    method Move(calls: seq<Option<Key>>) returns (rest: seq<Option<Key>>, ghost step: Step)
      requires Inv(View()) && inFlight != {}
      modifies this
      ensures Inv(View()) && Enabled(old(View()), step) && View() == Apply(old(View()), step)
      ensures if step.Run? then calls == [step.key] + rest else rest == calls
      ensures Remaining(View(), rest) < Remaining(old(View()), calls)
    {
      var callNow: bool := *;
      if calls != [] && callNow {
        step, rest := Step.Run(calls[0]), calls[1..];
        StepKeeps(View(), step);
        CallsCount(View(), calls[0]);
        var _ := Run(calls[0]);
      } else {
        ghost var some, next := NeverStuck(View());
        var id: TaskId, phase :| id < |tasks| && Moves(View(), id, phase);
        step, rest := StepTo(View(), id, phase), calls;
        StepKeeps(View(), step);
        StepsCountDown(View(), step);
        Proceed(id, phase);
      }
    }

    /** A task starts, settles or is cleaned up after. */
    method Proceed(id: TaskId, phase: Phase)
      requires Moves(View(), id, phase)
      modifies this
      ensures View() == Apply(old(View()), StepTo(old(View()), id, phase))
    {
      if phase == Cleaned {
        Finally(id);
      } else {
        tasks := tasks[id := tasks[id].(phase := phase)];
      }
    }

    /** `Promise.allSettled` on the promises given: the event loop goes on until all of those are over. */
    method AllSettled(waitedFor: set<TaskId>, calls: seq<Option<Key>>)
      returns (rest: seq<Option<Key>>, ghost steps: seq<Step>)
      requires Inv(View())
      modifies this
      ensures Inv(View()) && waitedFor * inFlight == {}
      ensures Schedules(old(View()), steps, View()) && calls == CallsIn(steps) + rest
      ensures Remaining(View(), rest) <= Remaining(old(View()), calls)
      ensures waitedFor * old(inFlight) != {} ==> Remaining(View(), rest) < Remaining(old(View()), calls)
    {
      rest, steps := calls, [];
      while waitedFor * inFlight != {}
        invariant Inv(View()) && Schedules(old(View()), steps, View()) && calls == CallsIn(steps) + rest
        invariant Remaining(View(), rest) <= Remaining(old(View()), calls)
        invariant steps == [] ==> View() == old(View())
        invariant steps != [] ==> Remaining(View(), rest) < Remaining(old(View()), calls)
        decreases Remaining(View(), rest)
      {
        ghost var before, was := View(), rest;
        ghost var step;
        rest, step := Move(rest);
        SchedulesOn(old(View()), steps, before, step);
        CallsOn(steps, step, was, rest);
        steps := steps + [step];
      }
    }

    /**
     The wait ends, whatever moves the event loop makes and whatever calls of `run`, finitely
     many, come during it; and then every task started by then is over.
     */
    method Settled(calls: seq<Option<Key>>) returns (rest: seq<Option<Key>>, ghost steps: seq<Step>)
      requires Inv(View())
      modifies this
      ensures Schedules(old(View()), steps, View()) && calls == CallsIn(steps) + rest
      ensures Inv(View()) && inFlight == {} && tails == map[] && forall t | t in tasks :: t.phase == Cleaned
    {
      rest, steps := calls, [];
      while inFlight != {}
        invariant Inv(View()) && Schedules(old(View()), steps, View()) && calls == CallsIn(steps) + rest
        decreases Remaining(View(), rest)
      {
        ghost var before, was := View(), rest;
        ghost var more;
        rest, more := AllSettled(inFlight, rest);
        SchedulesJoin(old(View()), steps, before, more, View());
        CallsFurther(calls, steps, was, more, rest);
        steps := steps + more;
      }
      NothingInFlight(View());
    }
  }
}
