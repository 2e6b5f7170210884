/** `timer_tick`: wake the due sleepers by swap-removal and count the time slice down. */
module SchedTimer {
  import opened Sched

  function Due(wake: map<Task, nat>, now: nat, t: Task): bool { t in wake && wake[t] <= now }

  predicate AllDue(wake: map<Task, nat>, now: nat, v: seq<Task>) { forall i :: 0 <= i < |v| ==> Due(wake, now, v[i]) }

  /** The shared queues the tick touches, and the slice of the CPU it runs on. */
  class Timer {
    var ready: seq<Task>
    var sleepers: seq<Task>
    var wakeTick: map<Task, nat>
    var slice: nat

    /** Exactly the due sleepers move to the back of the ready queue, and the tick is a run of the
        scheduler's wake-up steps: by `SchedPlaces.OnePlaceStep` nobody is lost or duplicated. */
    method TimerTick(now: nat, ghost s: State, ghost c: Cpu) returns (ghost steps: seq<Step>)
      requires At(s, c, User) && s.ready == ready && s.sleepers == sleepers
      modifies this`ready, this`sleepers, this`slice
      ensures old(ready) <= ready
      ensures forall t :: t in sleepers && t in wakeTick ==> now < wakeTick[t]
      ensures forall i :: |old(ready)| <= i < |ready| ==> ready[i] in wakeTick && wakeTick[ready[i]] <= now
      ensures slice == if old(slice) > 0 then old(slice) - 1 else 0
      ensures IsRun(s, steps) && After(s, steps) == s.(ready := ready, sleepers := sleepers)
    {
      var i := 0;
      steps := [];
      while i < |sleepers|
        invariant 0 <= i <= |sleepers|
        invariant slice == old(slice)
        invariant old(ready) <= ready
        invariant forall j :: 0 <= j < i ==> !Due(wakeTick, now, sleepers[j])
        invariant AllDue(wakeTick, now, ready[|old(ready)|..])
        invariant IsRun(s, steps) && After(s, steps) == s.(ready := ready, sleepers := sleepers)
        decreases |sleepers| - i
      {
        if Due(wakeTick, now, sleepers[i]) {
          var task := sleepers[i];
          Extend(s, steps, WakeSleeper(c, i));
          steps := steps + [WakeSleeper(c, i)];
          sleepers := SwapRemove(sleepers, i);
          ready := ready + [task];
        } else {
          i := i + 1;
        }
      }
      if slice > 0 { slice := slice - 1; }
    }
  }

  lemma {:induction false} Extend(s: State, steps: seq<Step>, step: Step)
    requires IsRun(s, steps) && Enabled(After(s, steps), step)
    ensures IsRun(s, steps + [step]) && After(s, steps + [step]) == Apply(After(s, steps), step)
    decreases |steps|
  {
    if steps == [] {
      assert [step][1..] == [];
    } else {
      Extend(Apply(s, steps[0]), steps[1..], step);
      assert (steps + [step])[1..] == steps[1..] + [step];
    }
  }
}
