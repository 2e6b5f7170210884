/** What becomes of a thread that gives up its CPU: from the call of `schedule` on, over every run. */
module SchedFate {
  import opened Sched
  import opened SchedPlaces

  /** `t` is leaving CPU `c` with this action: picked away, parked, or parked and switched from. */
  predicate Leaving(s: State, c: Cpu, t: Task, a: Action) {
    c in s.cpus &&
    var cs := s.cpus[c];
    || (cs.mode.Picked? && cs.mode.action == a && cs.current == t)
    || ((cs.mode.Committed? || cs.mode.Switched?) && cs.prev == Parked(t, a))
  }

  /** `t` is where the action sends it. */
  predicate Arrived(s: State, t: Task, a: Action) {
    match a
    case ToReady => t in s.ready
    case ToSleep => t in s.sleepers
    case ToZombie => t in s.zombies || t in s.freed
    case ToWait(q) => q in s.queues && t in s.queues[q].list
  }

  /** The step takes `t` out of there: it is picked, its sleep ends, or a waker of its queue pops it. */
  predicate Releases(s: State, step: Step, t: Task, a: Action) {
    match a
    case ToReady => step.Pick? && s.ready != [] && s.ready[0] == t
    case ToSleep => step.WakeSleeper? && step.i < |s.sleepers| && s.sleepers[step.i] == t
    case ToZombie => false
    case ToWait(q) =>
      && step.Give? && step.c in s.cpus && s.cpus[step.c].mode.Crit? && IsWaker(s.cpus[step.c].mode.op)
      && s.cpus[step.c].mode.op.q == q && q in s.queues && t in Popped(s.cpus[step.c].mode.op, s.queues[q].list)
  }

  /** No step of the run releases `t`. */
  ghost predicate Unreleased(s: State, steps: seq<Step>, t: Task, a: Action)
    requires IsRun(s, steps)
    decreases |steps|
  {
    steps == [] || (!Releases(s, steps[0], t, a) && Unreleased(Apply(s, steps[0]), steps[1..], t, a))
  }

  // ---- single steps ----

  lemma PickLeaves(s: State, c: Cpu, a: Action)
    requires Enabled(s, Pick(c, a))
    ensures Leaving(Apply(s, Pick(c, a)), c, s.cpus[c].current, a)
    ensures Apply(s, Pick(c, a)).cpus[c].mode.Picked?
  {
  }

  /** Nothing but `finish_switch` of that CPU, run by the next task, publishes `t`. */
  lemma LeavingStep(s: State, step: Step, c: Cpu, t: Task, a: Action)
    requires Shape(s) && Enabled(s, step) && t.Thread? && Leaving(s, c, t, a)
    ensures step != Finish(c) ==> Leaving(Apply(s, step), c, t, a)
    ensures step == Finish(c) ==> Arrived(Apply(s, step), t, a)
    ensures step != Finish(c) && step != Switch(c) ==>
              (Apply(s, step).cpus[c].mode.Switched? <==> s.cpus[c].mode.Switched?)
    ensures step == Switch(c) ==> Apply(s, step).cpus[c].mode.Switched?
  {
    assert GoodCpu(s, c, s.cpus[c]);
    if step == Finish(c) {
      FinishArrives(s, c, t, a);
    } else if !step.NewQueue? && step.c == c {
      OwnStep(s, step, c, t, a);
    } else {
      StepMovesOneCpu(s, step, c);
    }
  }

  lemma FinishArrives(s: State, c: Cpu, t: Task, a: Action)
    requires Enabled(s, Finish(c)) && t.Thread? && Leaving(s, c, t, a) && GoodCpu(s, c, s.cpus[c])
    ensures Arrived(Apply(s, Finish(c)), t, a)
  {
  }

  lemma OwnStep(s: State, step: Step, c: Cpu, t: Task, a: Action)
    requires Enabled(s, step) && t.Thread? && Leaving(s, c, t, a) && GoodCpu(s, c, s.cpus[c])
    requires step != Finish(c) && !step.NewQueue? && step.c == c
    ensures Leaving(Apply(s, step), c, t, a)
    ensures Apply(s, step).cpus[c].mode.Switched? <==> step == Switch(c)
  {
  }

  /** What does not release `t` leaves it there. */
  lemma ArrivedStep(s: State, step: Step, t: Task, a: Action)
    requires Enabled(s, step) && t.Thread? && Arrived(s, t, a) && !Releases(s, step, t, a)
    ensures Arrived(Apply(s, step), t, a)
  {
    match a
    case ToSleep => if step.WakeSleeper? { SwapKeeps(s.sleepers, step.i, t); }
    case ToWait(q) => if step.Give? { GiveKeeps(s, step.c, q, t); }
    case _ =>
  }

  lemma SwapKeeps(v: seq<Task>, i: nat, t: Task)
    requires i < |v| && t in v && v[i] != t
    ensures t in SwapRemove(v, i)
  {
    var j :| 0 <= j < |v| && v[j] == t;
    var r := SwapRemove(v, i);
    if j < |v| - 1 { assert r[j] == t; } else { assert r[i] == t; }
  }

  lemma GiveKeeps(s: State, c: Cpu, q: Queue, t: Task)
    requires Enabled(s, Give(c)) && q in s.queues && t in s.queues[q].list
    requires s.cpus[c].mode.op.q == q ==> t !in Popped(s.cpus[c].mode.op, s.queues[q].list)
    ensures var s1 := Apply(s, Give(c)); q in s1.queues && t in s1.queues[q].list
  {
    if s.cpus[c].mode.op.q == q {
      var l := s.queues[q].list;
      assert l[0] in Popped(s.cpus[c].mode.op, l);
    }
  }

  // ---- runs ----

  lemma {:induction false} FateFrom(s: State, steps: seq<Step>, c: Cpu, t: Task, a: Action)
    requires PlacesInv(s) && IsRun(s, steps) && t.Thread? && Unreleased(s, steps, t, a)
    requires Leaving(s, c, t, a) || Arrived(s, t, a)
    ensures Arrived(s, t, a) || Finish(c) in steps ==> Arrived(After(s, steps), t, a)
    ensures !Arrived(s, t, a) && Finish(c) !in steps ==> Leaving(After(s, steps), c, t, a)
    decreases |steps|
  {
    if steps != [] {
      PlacesStep(s, steps[0]);
      if Arrived(s, t, a) {
        ArrivedStep(s, steps[0], t, a);
      } else {
        LeavingStep(s, steps[0], c, t, a);
        if steps[0] != Finish(c) { OnlyLeaving(Apply(s, steps[0]), c, t, a); }
      }
      hide Apply, PlacesInv, Arrived, Leaving;
      FateFrom(Apply(s, steps[0]), steps[1..], c, t, a);
      assert steps == [steps[0]] + steps[1..];
    }
  }

  /** In every run, a thread that calls `schedule` with an action is, once the switch is finished, where the action
      sends it, and nowhere else, until a step releases it; before that it is still leaving. */
  lemma Fate(before: seq<Step>, c: Cpu, a: Action, after: seq<Step>, t: Task)
    requires IsRun(Init(), before) && Enabled(After(Init(), before), Pick(c, a)) && t.Thread?
    requires After(Init(), before).cpus[c].current == t && IsRun(Apply(After(Init(), before), Pick(c, a)), after)
    requires Unreleased(Apply(After(Init(), before), Pick(c, a)), after, t, a)
    ensures var s := After(Apply(After(Init(), before), Pick(c, a)), after);
      if Finish(c) in after then Arrived(s, t, a) && Rests(s, t) else Leaving(s, c, t, a)
  {
    var s0 := After(Init(), before);
    var s1 := Apply(s0, Pick(c, a));
    PlacesRun(Init(), before);
    PlacesStep(s0, Pick(c, a));
    PlacesRun(s1, after);
    PickLeaves(s0, c, a);
    if Arrived(s1, t, a) { OnlyLeaving(s1, c, t, a); }
    FateFrom(s1, after, c, t, a);
    if Finish(c) in after { ArrivedRests(After(s1, after), t, a); }
  }

  /** No CPU executes `t`, has picked it, is switching to or from it or holds it to wake it up. */
  predicate Rests(s: State, t: Task) {
    forall c :: c in s.cpus ==>
      && s.cpus[c].current != t && s.cpus[c].live != t && (s.cpus[c].prev.Parked? ==> s.cpus[c].prev.task != t)
      && (s.cpus[c].mode.Picked? ==> s.cpus[c].mode.next != t) && (s.cpus[c].mode.Waking? ==> t !in s.cpus[c].mode.hand)
  }

  lemma ArrivedAt(s: State, t: Task, a: Action) returns (l: Place)
    requires Arrived(s, t, a)
    ensures Occupies(s, t, l) && (l.InReady? || l.InSleepers? || l.InZombies? || l.InFreed? || l.InList?)
  {
    match a {
      case ToReady => var i :| 0 <= i < |s.ready| && s.ready[i] == t; l := InReady(i);
      case ToSleep => var i :| 0 <= i < |s.sleepers| && s.sleepers[i] == t; l := InSleepers(i);
      case ToZombie =>
        if t in s.zombies {
          var i :| 0 <= i < |s.zombies| && s.zombies[i] == t;
          l := InZombies(i);
        } else {
          var i :| 0 <= i < |s.freed| && s.freed[i] == t;
          l := InFreed(i);
        }
      case ToWait(q) => var i :| 0 <= i < |s.queues[q].list| && s.queues[q].list[i] == t; l := InList(q, i);
    }
  }

  lemma ArrivedRests(s: State, t: Task, a: Action)
    requires PlacesInv(s) && t.Thread? && Arrived(s, t, a)
    ensures Rests(s, t)
  {
    var l := ArrivedAt(s, t, a);
    QueuedIsSaved(s, t, l);
    forall c | c in s.cpus
      ensures s.cpus[c].current != t && (s.cpus[c].prev.Parked? ==> s.cpus[c].prev.task != t)
      ensures s.cpus[c].mode.Picked? ==> s.cpus[c].mode.next != t
      ensures s.cpus[c].mode.Waking? ==> t !in s.cpus[c].mode.hand
    {
      assert !Occupies(s, t, OnCpu(c)) && !Occupies(s, t, InPrev(c)) && !Occupies(s, t, InPick(c));
      if s.cpus[c].mode.Waking? && t in s.cpus[c].mode.hand {
        var i :| 0 <= i < |s.cpus[c].mode.hand| && s.cpus[c].mode.hand[i] == t;
        assert Occupies(s, t, InHand(c, i));
      }
    }
  }

  lemma OnlyLeaving(s: State, c: Cpu, t: Task, a: Action)
    requires PlacesInv(s) && t.Thread? && Leaving(s, c, t, a)
    ensures forall b :: !Arrived(s, t, b)
  {
    assert Occupies(s, t, OnCpu(c)) || Occupies(s, t, InPrev(c));
    forall b | Arrived(s, t, b) ensures false { var l := ArrivedAt(s, t, b); }
  }

  // ---- exit ----

  /** `t` has exited and its CPU no longer runs on its stack. */
  predicate Off(s: State, c: Cpu, t: Task) {
    Arrived(s, t, ToZombie) || (Leaving(s, c, t, ToZombie) && s.cpus[c].mode.Switched?)
  }

  lemma {:induction false} ExitFrom(s: State, steps: seq<Step>, c: Cpu, t: Task)
    requires PlacesInv(s) && IsRun(s, steps) && t.Thread? && (Leaving(s, c, t, ToZombie) || Arrived(s, t, ToZombie))
    ensures Off(s, c, t) || Switch(c) in steps ==> Off(After(s, steps), c, t)
    ensures !Off(s, c, t) && Switch(c) !in steps ==> Leaving(After(s, steps), c, t, ToZombie)
    decreases |steps|
  {
    if steps != [] {
      PlacesStep(s, steps[0]);
      if Arrived(s, t, ToZombie) {
        ArrivedStep(s, steps[0], t, ToZombie);
      } else {
        LeavingStep(s, steps[0], c, t, ToZombie);
        if steps[0] != Finish(c) { OnlyLeaving(Apply(s, steps[0]), c, t, ToZombie); }
      }
      hide Apply, PlacesInv, Arrived;
      ExitFrom(Apply(s, steps[0]), steps[1..], c, t);
      assert steps == [steps[0]] + steps[1..];
    }
  }

  lemma OffIdle(s: State, c: Cpu, t: Task)
    requires PlacesInv(s) && t.Thread? && Off(s, c, t)
    ensures forall d :: d in s.cpus ==> s.cpus[d].current != t && s.cpus[d].live != t
  {
    if Arrived(s, t, ToZombie) {
      ArrivedRests(s, t, ToZombie);
    } else {
      assert Occupies(s, t, InPrev(c));
      forall d | d in s.cpus ensures s.cpus[d].current != t && s.cpus[d].live != t {
        assert GoodCpu(s, d, s.cpus[d]) && !Occupies(s, t, OnCpu(d));
        LiveAt(s, d);
      }
    }
  }

  /** In every run, once a thread has called `exit` and its CPU has switched away, no CPU ever executes it again; and
      up to that switch it is not handed to `reap`, so no stack in use is freed. */
  lemma ExitIsFinal(before: seq<Step>, c: Cpu, after: seq<Step>, t: Task)
    requires IsRun(Init(), before) && Enabled(After(Init(), before), Pick(c, ToZombie))
    requires After(Init(), before).cpus[c].current == t && IsRun(Apply(After(Init(), before), Pick(c, ToZombie)), after)
    ensures var s := After(Apply(After(Init(), before), Pick(c, ToZombie)), after);
      if Switch(c) in after
      then forall d :: d in s.cpus ==> s.cpus[d].current != t && s.cpus[d].live != t
      else t !in s.zombies && t !in s.freed
  {
    var s0 := After(Init(), before);
    var s1 := Apply(s0, Pick(c, ToZombie));
    PlacesRun(Init(), before);
    PlacesStep(s0, Pick(c, ToZombie));
    PlacesRun(s1, after);
    PickLeaves(s0, c, ToZombie);
    OnlyLeaving(s1, c, t, ToZombie);
    assert !Off(s1, c, t);
    ExitFrom(s1, after, c, t);
    var s := After(s1, after);
    if Switch(c) in after {
      OffIdle(s, c, t);
    } else {
      OnlyLeaving(s, c, t, ToZombie);
      assert !Arrived(s, t, ToZombie);
    }
  }

  lemma {:induction false} FreedStays(s: State, steps: seq<Step>, t: Task)
    requires IsRun(s, steps) && t in s.freed
    ensures t in After(s, steps).freed
    decreases |steps|
  {
    if steps != [] { FreedStays(Apply(s, steps[0]), steps[1..], t); }
  }

  /** In every run, the next `reap` after an exiting thread was switched away from frees it. */
  lemma ExitIsReaped(before: seq<Step>, c: Cpu, mid: seq<Step>, d: Cpu, after: seq<Step>, t: Task)
    requires IsRun(Init(), before) && Enabled(After(Init(), before), Pick(c, ToZombie))
    requires After(Init(), before).cpus[c].current == t && IsRun(Apply(After(Init(), before), Pick(c, ToZombie)), mid)
    requires Finish(c) in mid && Enabled(After(Apply(After(Init(), before), Pick(c, ToZombie)), mid), Reap(d))
    requires IsRun(Apply(After(Apply(After(Init(), before), Pick(c, ToZombie)), mid), Reap(d)), after)
    ensures t in After(Apply(After(Apply(After(Init(), before), Pick(c, ToZombie)), mid), Reap(d)), after).freed
  {
    var s1 := Apply(After(Init(), before), Pick(c, ToZombie));
    NeverReleased(s1, mid, t);
    PlacesRun(Init(), before);
    Fate(before, c, ToZombie, mid, t);
    FreedStays(Apply(After(s1, mid), Reap(d)), after, t);
  }

  lemma {:induction false} NeverReleased(s: State, steps: seq<Step>, t: Task)
    requires IsRun(s, steps)
    ensures Unreleased(s, steps, t, ToZombie)
    decreases |steps|
  {
    if steps != [] { NeverReleased(Apply(s, steps[0]), steps[1..], t); }
  }

  // ---- wake-ups ----

  /** The threads that a call on a waiting list has to wake: all of them, or the first. */
  function Chosen(op: Op, list: seq<Task>): seq<Task> {
    if op.WakeAll? || |list| <= 1 then list else list[..1]
  }

  /** What CPU `c` makes ready up to the end of its current wake-up. */
  ghost function MadeReady(s: State, steps: seq<Step>, c: Cpu): seq<Task>
    requires IsRun(s, steps)
    decreases |steps|
  {
    if steps == [] || steps[0] == EndWake(c) then []
    else (if steps[0] == MakeReady(c) then Enqueued(s, steps[0]) else []) + MadeReady(Apply(s, steps[0]), steps[1..], c)
  }

  lemma {:induction false} HandRun(s: State, steps: seq<Step>, c: Cpu)
    requires IsRun(s, steps) && c in s.cpus && s.cpus[c].mode.Waking? && EndWake(c) in steps
    ensures MadeReady(s, steps, c) == s.cpus[c].mode.hand
    decreases |steps|
  {
    assert steps == [steps[0]] + steps[1..];
    if steps[0] != EndWake(c) {
      HandStep(s, steps[0], c);
      HandRun(Apply(s, steps[0]), steps[1..], c);
    }
  }

  lemma HandStep(s: State, step: Step, c: Cpu)
    requires Enabled(s, step) && c in s.cpus && s.cpus[c].mode.Waking? && step != EndWake(c)
    ensures var s' := Apply(s, step);
      && c in s'.cpus && s'.cpus[c].mode.Waking?
      && s.cpus[c].mode.hand == (if step == MakeReady(c) then Enqueued(s, step) else []) + s'.cpus[c].mode.hand
  {
    if step.NewQueue? || step.c != c { StepMovesOneCpu(s, step, c); }
  }

  /** A wake-up, a broadcast or a post makes exactly the threads it has to wake ready, in the order of the list. */
  lemma WakesChosen(s: State, c: Cpu, after: seq<Step>)
    requires Enabled(s, Give(c)) && IsRun(Apply(s, Give(c)), after) && EndWake(c) in after
    ensures var op := s.cpus[c].mode.op;
      && MadeReady(Apply(s, Give(c)), after, c) == Chosen(op, s.queues[op.q].list)
      && s.queues[op.q].list == Chosen(op, s.queues[op.q].list) + Apply(s, Give(c)).queues[op.q].list
  {
    HandRun(Apply(s, Give(c)), after, c);
  }

  // ---- order ----

  /** The tasks a step appends to the ready queue. */
  function Enqueued(s: State, step: Step): seq<Task>
    requires Enabled(s, step)
  {
    match step
    case Spawn(_, t) => [t]
    case MakeReady(c) => [s.cpus[c].mode.hand[0]]
    case WakeSleeper(_, i) => [s.sleepers[i]]
    case Finish(c) => if s.cpus[c].prev.Parked? && s.cpus[c].prev.action == ToReady && s.cpus[c].prev.task.Thread? then [s.cpus[c].prev.task] else []
    case _ => []
  }

  /** The thread that a call of `pick_next` returns. */
  function Dequeued(s: State, step: Step): seq<Task>
    requires Enabled(s, step)
  {
    if step.Pick? && Apply(s, step).cpus[step.c].mode.Picked? && Apply(s, step).cpus[step.c].mode.next.Thread?
    then [Apply(s, step).cpus[step.c].mode.next] else []
  }

  ghost function AllEnqueued(s: State, steps: seq<Step>): seq<Task>
    requires IsRun(s, steps)
    decreases |steps|
  {
    if steps == [] then [] else Enqueued(s, steps[0]) + AllEnqueued(Apply(s, steps[0]), steps[1..])
  }

  ghost function AllDequeued(s: State, steps: seq<Step>): seq<Task>
    requires IsRun(s, steps)
    decreases |steps|
  {
    if steps == [] then [] else Dequeued(s, steps[0]) + AllDequeued(Apply(s, steps[0]), steps[1..])
  }

  lemma QueueStep(s: State, step: Step)
    requires Shape(s) && Enabled(s, step)
    ensures s.ready + Enqueued(s, step) == Dequeued(s, step) + Apply(s, step).ready
  {
    match step
    case Pick(c, a) => QueuePick(s, c, a);
    case Finish(c) => QueueFinish(s, c);
    case _ => QueueOther(s, step);
  }

  lemma QueuePick(s: State, c: Cpu, a: Action)
    requires Shape(s) && Enabled(s, Pick(c, a))
    ensures s.ready == Dequeued(s, Pick(c, a)) + Apply(s, Pick(c, a)).ready
  {
  }

  lemma QueueFinish(s: State, c: Cpu)
    requires Enabled(s, Finish(c))
    ensures s.ready + Enqueued(s, Finish(c)) == Apply(s, Finish(c)).ready
  {
  }

  lemma QueueOther(s: State, step: Step)
    requires Enabled(s, step) && !step.Pick? && !step.Finish?
    ensures s.ready + Enqueued(s, step) == Apply(s, step).ready
  {
  }

  lemma {:induction false} QueueRun(s: State, steps: seq<Step>)
    requires PlacesInv(s) && IsRun(s, steps)
    ensures s.ready + AllEnqueued(s, steps) == AllDequeued(s, steps) + After(s, steps).ready
    decreases |steps|
  {
    if steps != [] {
      var s1 := Apply(s, steps[0]);
      QueueStep(s, steps[0]);
      PlacesStep(s, steps[0]);
      hide Apply, PlacesInv, Enqueued, Dequeued, Enabled;
      QueueRun(s1, steps[1..]);
      Chain(s.ready, Enqueued(s, steps[0]), Dequeued(s, steps[0]), s1.ready, AllEnqueued(s1, steps[1..]),
        AllDequeued(s1, steps[1..]), After(s1, steps[1..]).ready);
    }
  }

  lemma Chain(a: seq<Task>, e: seq<Task>, d: seq<Task>, b: seq<Task>, es: seq<Task>, ds: seq<Task>, r: seq<Task>)
    requires a + e == d + b && b + es == ds + r
    ensures a + (e + es) == d + ds + r
  {
    assert a + (e + es) == a + e + es == d + b + es == d + (b + es) == d + (ds + r);
  }

  /** Threads are picked in the order in which they became ready; the queue holds those not picked yet. */
  lemma ReadyFifo(steps: seq<Step>)
    requires IsRun(Init(), steps)
    ensures AllEnqueued(Init(), steps) == AllDequeued(Init(), steps) + After(Init(), steps).ready
  {
    QueueRun(Init(), steps);
  }

  function ListOf(s: State, q: Queue): seq<Task> { if q in s.queues then s.queues[q].list else [] }

  /** The thread a step appends to the list of `q`, and those that a waker of `q` gets. */
  function Blocked(s: State, step: Step, q: Queue): seq<Task>
    requires Enabled(s, step)
  {
    if step.Finish? && s.cpus[step.c].prev.Parked? && s.cpus[step.c].prev.action == ToWait(q)
    then [s.cpus[step.c].prev.task] else []
  }

  function Unblocked(s: State, step: Step, q: Queue): seq<Task>
    requires Enabled(s, step)
  {
    if step.Give? && s.cpus[step.c].mode.op.q == q && Apply(s, step).cpus[step.c].mode.Waking?
    then Apply(s, step).cpus[step.c].mode.hand else []
  }

  ghost function AllBlocked(s: State, steps: seq<Step>, q: Queue): seq<Task>
    requires IsRun(s, steps)
    decreases |steps|
  {
    if steps == [] then [] else Blocked(s, steps[0], q) + AllBlocked(Apply(s, steps[0]), steps[1..], q)
  }

  ghost function AllUnblocked(s: State, steps: seq<Step>, q: Queue): seq<Task>
    requires IsRun(s, steps)
    decreases |steps|
  {
    if steps == [] then [] else Unblocked(s, steps[0], q) + AllUnblocked(Apply(s, steps[0]), steps[1..], q)
  }

  lemma ListStep(s: State, step: Step, q: Queue)
    requires Shape(s) && Enabled(s, step)
    ensures ListOf(s, q) + Blocked(s, step, q) == Unblocked(s, step, q) + ListOf(Apply(s, step), q)
  {
    match step
    case Give(c) => ListGive(s, c, q);
    case Finish(c) => ListFinish(s, c, q);
    case _ => ListSame(s, step, q);
  }

  lemma ListGive(s: State, c: Cpu, q: Queue)
    requires Enabled(s, Give(c))
    ensures ListOf(s, q) == Unblocked(s, Give(c), q) + ListOf(Apply(s, Give(c)), q)
  {
  }

  lemma ListFinish(s: State, c: Cpu, q: Queue)
    requires Shape(s) && Enabled(s, Finish(c))
    ensures ListOf(s, q) + Blocked(s, Finish(c), q) == ListOf(Apply(s, Finish(c)), q)
  {
    assert GoodCpu(s, c, s.cpus[c]);
  }

  lemma ListSame(s: State, step: Step, q: Queue)
    requires Enabled(s, step) && !step.Give? && !step.Finish?
    ensures ListOf(Apply(s, step), q) == ListOf(s, q)
  {
  }

  lemma {:induction false} ListRun(s: State, steps: seq<Step>, q: Queue)
    requires PlacesInv(s) && IsRun(s, steps)
    ensures ListOf(s, q) + AllBlocked(s, steps, q) == AllUnblocked(s, steps, q) + ListOf(After(s, steps), q)
    decreases |steps|
  {
    if steps != [] {
      var s1 := Apply(s, steps[0]);
      ListStep(s, steps[0], q);
      PlacesStep(s, steps[0]);
      hide Apply, PlacesInv, Blocked, Unblocked, Enabled, ListOf;
      ListRun(s1, steps[1..], q);
      Chain(ListOf(s, q), Blocked(s, steps[0], q), Unblocked(s, steps[0], q), ListOf(s1, q), AllBlocked(s1, steps[1..], q),
        AllUnblocked(s1, steps[1..], q), ListOf(After(s1, steps[1..]), q));
    }
  }

  /** Threads are woken in the order in which they blocked on the queue; its list holds those still waiting. */
  lemma WaitFifo(steps: seq<Step>, q: Queue)
    requires IsRun(Init(), steps)
    ensures AllBlocked(Init(), steps, q) == AllUnblocked(Init(), steps, q) + ListOf(After(Init(), steps), q)
  {
    ListRun(Init(), steps, q);
  }
}
