/**
 * Scheduling of background GC. A step is one stretch of code that holds the database mutex, so any
 * interleaving of threads is a run of steps; a wait on the condition variable is the guard of a step.
 */
module GcScheduler {

  /** Counters and queue, the requests ever asked for and taken, and the drops in each phase. */
  datatype State = State(unscheduled: nat, scheduled: nat, running: nat, queue: seq<nat>,
                         waiting: nat, dropping: nat, failed: nat, asked: seq<nat>, taken: seq<nat>)

  datatype Step = Ask(cf: nat) | Schedule | Begin | End(again: bool, cf: nat) | AskDrop | StartDrop | EndDrop(ok: bool)

  const IDLE := State(0, 0, 0, [], 0, 0, 0, [], [])

  /** A worker starts when no drop is requested; a drop goes on when no worker runs. */
  predicate Enabled(s: State, a: Step) {
    match a
    case Ask(_) | Schedule | AskDrop => true
    case Begin => s.running < s.scheduled && s.waiting + s.dropping + s.failed == 0
    case End(_, _) => 0 < s.running
    case StartDrop => s.waiting > 0 && s.running == 0
    case EndDrop(_) => s.dropping > 0
  }

  function Min(a: int, b: int): int { if a < b then a else b }

  /** As many requests go to the thread pool as the limit allows. */
  function Scheduled(s: State, max: nat): State {
    var n := if s.scheduled < max then Min(s.unscheduled, max - s.scheduled) else 0;
    s.(unscheduled := s.unscheduled - n, scheduled := s.scheduled + n)
  }

  function Asked(s: State, cf: nat): State {
    s.(unscheduled := s.unscheduled + 1, queue := s.queue + [cf], asked := s.asked + [cf])
  }

  /** A worker that finds the queue empty does nothing; a drop the base database refuses is never withdrawn. */
  function Next(s: State, a: Step, max: nat): State
    requires Enabled(s, a) && s.running <= s.scheduled
  {
    match a
    case Ask(cf) => Asked(s, cf)
    case Schedule => Scheduled(s, max)
    case Begin =>
      if s.queue == [] then s.(running := s.running + 1)
      else s.(running := s.running + 1, queue := s.queue[1..], taken := s.taken + [s.queue[0]])
    case End(again, cf) =>
      var t := if again then Asked(s, cf) else s;
      Scheduled(t.(running := t.running - 1, scheduled := t.scheduled - 1), max)
    case AskDrop => s.(waiting := s.waiting + 1)
    case StartDrop => s.(waiting := s.waiting - 1, dropping := s.dropping + 1)
    case EndDrop(ok) => s.(dropping := s.dropping - 1, failed := if ok then s.failed else s.failed + 1)
  }

  predicate Inv(s: State, max: nat) {
    && s.running <= s.scheduled <= max
    && |s.queue| == s.unscheduled + s.scheduled - s.running
    && s.asked == s.taken + s.queue
    && (s.dropping + s.failed > 0 ==> s.running == 0)
  }

  lemma StepKeeps(s: State, a: Step, max: nat)
    requires Inv(s, max) && Enabled(s, a)
    ensures Inv(Next(s, a, max), max)
    ensures a.Begin? ==> s.queue != []
  {
  }

  predicate IsRun(s: State, steps: seq<Step>, max: nat)
    requires Inv(s, max)
    decreases |steps|
  {
    steps == []
    || (Enabled(s, steps[0]) && (StepKeeps(s, steps[0], max); IsRun(Next(s, steps[0], max), steps[1..], max)))
  }

  function After(s: State, steps: seq<Step>, max: nat): State
    requires Inv(s, max) && IsRun(s, steps, max)
    decreases |steps|
  {
    if steps == [] then s else (StepKeeps(s, steps[0], max); After(Next(s, steps[0], max), steps[1..], max))
  }

  /** In every run the limits hold, and the requests taken and those queued are the requests asked for, each once. */
  lemma {:induction false} RunKeeps(s: State, steps: seq<Step>, max: nat)
    requires Inv(s, max) && IsRun(s, steps, max)
    ensures Inv(After(s, steps, max), max)
    decreases |steps|
  {
    if steps != [] {
      StepKeeps(s, steps[0], max);
      RunKeeps(Next(s, steps[0], max), steps[1..], max);
    }
  }

  /** From the start: conservative, exclusive, and every worker that starts finds work. */
  lemma SchedulingIsSafe(steps: seq<Step>, max: nat)
    requires IsRun(IDLE, steps, max)
    ensures var s := After(IDLE, steps, max);
            && s.running <= s.scheduled <= max && s.asked == s.taken + s.queue
            && (s.dropping > 0 ==> s.running == 0)
            && (Enabled(s, Begin) ==> s.queue != [])
  {
    RunKeeps(IDLE, steps, max);
  }

  /** A drop that the base database refuses ends garbage collection for good: no later run takes another request. */
  lemma {:induction false} FailedDropStopsGc(s: State, steps: seq<Step>, max: nat)
    requires Inv(s, max) && s.failed > 0 && IsRun(s, steps, max)
    ensures After(s, steps, max).taken == s.taken && After(s, steps, max).running == 0
    decreases |steps|
  {
    if steps != [] {
      StepKeeps(s, steps[0], max);
      var t := Next(s, steps[0], max);
      assert t.failed > 0 && t.taken == s.taken;
      FailedDropStopsGc(t, steps[1..], max);
    }
  }

  /** While no drop has failed, waiting for drops and workers to end is enough for a queued request to be taken. */
  lemma ProgressExact(s: State, max: nat)
    requires Inv(s, max) && max > 0 && s.queue != [] && s.running == 0
    ensures (exists steps ::
               && IsRun(s, steps, max)
               && (forall i :: 0 <= i < |steps| ==> steps[i] in {Schedule, StartDrop, EndDrop(true), Begin})
                             && s.taken < After(s, steps, max).taken) <==> s.failed == 0
  {
    if s.failed == 0 {
      var steps := Drain(s, max);
    } else {
      forall steps | IsRun(s, steps, max)
        ensures After(s, steps, max).taken == s.taken
      {
        FailedDropStopsGc(s, steps, max);
      }
    }
  }

  /** Finish the drops that are under way, then schedule and begin. */
  lemma {:induction false} Drain(s: State, max: nat) returns (steps: seq<Step>)
    requires Inv(s, max) && max > 0 && s.queue != [] && s.running == 0 && s.failed == 0
    ensures IsRun(s, steps, max) && s.taken < After(s, steps, max).taken
    ensures forall i :: 0 <= i < |steps| ==> steps[i] in {Schedule, StartDrop, EndDrop(true), Begin}
    decreases s.waiting, s.dropping
  {
    if s.dropping > 0 || s.waiting > 0 {
      var a := if s.dropping > 0 then EndDrop(true) else StartDrop;
      StepKeeps(s, a, max);
      var t := Next(s, a, max);
      var rest := Drain(t, max);
      steps := [a] + rest;
      assert steps[1..] == rest;
    } else {
      var t := Next(s, Schedule, max);
      StepKeeps(s, Schedule, max);
      StepKeeps(t, Begin, max);
      steps := [Schedule, Begin];
      assert steps[1..] == [Begin] && [Begin][1..] == [];
      var u := Next(t, Begin, max);
      assert IsRun(u, [], max) && IsRun(t, [Begin], max) && IsRun(s, steps, max);
      assert After(t, [Begin], max) == u;
      assert u.taken == s.taken + [s.queue[0]];
    }
  }

  // ---------------------------------------------------------------- the code

  class Scheduler {
    const maxBackground: nat
    var unscheduled: nat
    var scheduled: nat
    var running: nat
    var queue: seq<nat>
    var dropRequests: nat
    ghost var view: State

    ghost predicate Valid()
      reads this
    {
      && Inv(view, maxBackground)
      && unscheduled == view.unscheduled && scheduled == view.scheduled && running == view.running
      && queue == view.queue
      && dropRequests == view.waiting + view.dropping + view.failed
    }

    constructor (maxBackground: nat)
      ensures Valid() && view == IDLE && this.maxBackground == maxBackground
    {
      this.maxBackground := maxBackground;
      unscheduled, scheduled, running, queue, dropRequests, view := 0, 0, 0, [], 0, IDLE;
    }

    method AddToGCQueue(cf: nat)
      requires Valid()
      modifies this`unscheduled, this`queue, this`view
      ensures Valid() && view == Next(old(view), Ask(cf), maxBackground)
      ensures queue == old(queue) + [cf] && view.asked == old(view).asked + [cf] && unscheduled == old(unscheduled) + 1
    {
      unscheduled := unscheduled + 1;
      queue := queue + [cf];
      view := Next(view, Ask(cf), maxBackground);
    }

    method MaybeScheduleGC()
      requires Valid()
      modifies this`unscheduled, this`scheduled, this`view
      ensures Valid() && view == Next(old(view), Schedule, maxBackground)
      ensures unscheduled == 0 || scheduled == maxBackground
      ensures unscheduled + scheduled == old(unscheduled + scheduled) && scheduled >= old(scheduled)
    {
      while unscheduled > 0 && scheduled < maxBackground
        invariant unscheduled + scheduled == old(unscheduled + scheduled)
        invariant old(scheduled) <= scheduled <= maxBackground
        invariant view == old(view)
        decreases unscheduled
      {
        unscheduled, scheduled := unscheduled - 1, scheduled + 1;
      }
      view := Next(view, Schedule, maxBackground);
    }

    /** A scheduled worker starts; the wait for drops is over. */
    method BeginBackgroundGC() returns (cf: nat)
      requires Valid() && running < scheduled && dropRequests == 0
      modifies this`running, this`queue, this`view
      ensures Valid() && view == Next(old(view), Begin, maxBackground) && view.taken == old(view).taken + [cf]
      ensures old(queue) == [cf] + queue && running == old(running) + 1
    {
      running := running + 1;
      cf := queue[0];
      queue := queue[1..];
      view := Next(view, Begin, maxBackground);
    }

    method EndBackgroundGC(again: bool, cf: nat)
      requires Valid() && running > 0
      modifies this`running, this`unscheduled, this`scheduled, this`queue, this`view
      ensures Valid() && view == Next(old(view), End(again, cf), maxBackground)
      ensures queue == (if again then old(queue) + [cf] else old(queue)) && running == old(running) - 1
      ensures unscheduled + scheduled == old(unscheduled + scheduled) - (if again then 0 else 1)
      ensures unscheduled == 0 || scheduled == maxBackground
    {
      if again { AddToGCQueue(cf); }
      running, scheduled := running - 1, scheduled - 1;
      view := view.(running := running, scheduled := scheduled);
      MaybeScheduleGC();
    }

    method BeginDrop()
      requires Valid()
      modifies this`dropRequests, this`view
      ensures Valid() && view == Next(old(view), AskDrop, maxBackground) && dropRequests == old(dropRequests) + 1
    {
      dropRequests := dropRequests + 1;
      view := Next(view, AskDrop, maxBackground);
    }

    /** No worker runs any more: the drop goes on. */
    method ProceedDrop()
      requires Valid() && view.waiting > 0 && running == 0
      modifies this`view
      ensures Valid() && view == Next(old(view), StartDrop, maxBackground)
    {
      view := Next(view, StartDrop, maxBackground);
    }

    /** The request is withdrawn only when the base database has dropped the column families. */
    method FinishDrop(ok: bool)
      requires Valid() && view.dropping > 0
      modifies this`dropRequests, this`view
      ensures Valid() && view == Next(old(view), EndDrop(ok), maxBackground)
      ensures dropRequests == old(dropRequests) - (if ok then 1 else 0)
    {
      if ok { dropRequests := dropRequests - 1; }
      view := Next(view, EndDrop(ok), maxBackground);
    }
  }
}
