/** Where a thread can be, and the proof that every run keeps each spawned thread in exactly one
    place, with its context saved unless a CPU is executing it. */
module SchedPlaces {
  import opened Sched

  /** A place a thread can be in: queue places carry the index, so a queue holding a thread twice
      would be two places. */
  datatype Place =
    | OnCpu(c: Cpu)
    | InPrev(c: Cpu)
    | InPick(c: Cpu)
    | InHand(c: Cpu, i: nat)
    | InReady(i: nat)
    | InSleepers(i: nat)
    | InZombies(i: nat)
    | InFreed(i: nat)
    | InList(q: Queue, i: nat)

  predicate Occupies(s: State, t: Task, l: Place) {
    match l
    case OnCpu(c) => c in s.cpus && s.cpus[c].current == t
    case InPrev(c) => c in s.cpus && s.cpus[c].prev.Parked? && s.cpus[c].prev.task == t
    case InPick(c) => c in s.cpus && s.cpus[c].mode.Picked? && s.cpus[c].mode.next == t
    case InHand(c, i) =>
      c in s.cpus && s.cpus[c].mode.Waking? && i < |s.cpus[c].mode.hand| && s.cpus[c].mode.hand[i] == t
    case InReady(i) => i < |s.ready| && s.ready[i] == t
    case InSleepers(i) => i < |s.sleepers| && s.sleepers[i] == t
    case InZombies(i) => i < |s.zombies| && s.zombies[i] == t
    case InFreed(i) => i < |s.freed| && s.freed[i] == t
    case InList(q, i) => q in s.queues && i < |s.queues[q].list| && s.queues[q].list[i] == t
  }

  predicate Threads(v: seq<Task>) { forall i :: 0 <= i < |v| ==> v[i].Thread? }

  predicate GoodOp(s: State, op: Op) {
    op != NoOp && op.q in s.queues && (s.queues[op.q].sem <==> op.SemWait? || op.Post?)
  }

  predicate GoodAction(s: State, action: Action) { action.ToWait? ==> action.q in s.queues }

  predicate GoodMode(s: State, c: Cpu, cs: CpuState) {
    match cs.mode
    case Spin(op) => GoodOp(s, op) && (op.Wait? || op.SemWait? ==> cs.current.Thread?)
    case Crit(op) => GoodOp(s, op) && (op.Wait? || op.SemWait? ==> cs.current.Thread?)
    case Waking(hand) => Threads(hand)
    case Picked(next, action) =>
      && (next.Idle? ==> next == Idle(c))
      && (next == cs.current ==> next.Idle?)
      && (action != ToReady ==> cs.current.Thread?)
      && GoodAction(s, action)
    case _ => true
  }

  /** The per-CPU fields fit together: a parked task exactly between commit and finish, the fallback
      task only on its own CPU, and `live` trailing `current` until the switch. */
  predicate GoodCpu(s: State, c: Cpu, cs: CpuState) {
    && GoodMode(s, c, cs)
    && (cs.current.Idle? ==> cs.current == Idle(c))
    && (cs.prev.Parked? <==> cs.mode.Committed? || cs.mode.Switched?)
    && (cs.prev.Parked? ==>
          && cs.prev.task != cs.current
          && (cs.prev.task.Idle? ==> cs.prev.task == Idle(c) && cs.prev.action == ToReady)
          && GoodAction(s, cs.prev.action))
    && cs.live == (if cs.mode.Committed? && cs.prev.Parked? then cs.prev.task else cs.current)
  }

  ghost predicate Shape(s: State) {
    && Threads(s.ready) && Threads(s.sleepers) && Threads(s.zombies) && Threads(s.freed)
    && (forall q :: q in s.queues ==> Threads(s.queues[q].list))
    && (forall c :: c in s.cpus ==> GoodCpu(s, c, s.cpus[c]))
    && (forall t :: t in s.spawned ==> t.Thread?)
    && (forall t :: t in s.op && s.op[t].SemWait? ==> t.Thread? && GoodOp(s, s.op[t]))
  }

  /** No thread is in two places, and exactly the spawned threads are somewhere. */
  ghost predicate OnePlace(s: State) {
    && (forall t: Task, l1, l2 :: t.Thread? && Occupies(s, t, l1) && Occupies(s, t, l2) ==> l1 == l2)
    && (forall t: Task, l :: t.Thread? && Occupies(s, t, l) ==> t in s.spawned)
    && (forall t :: t in s.spawned ==> exists l :: Occupies(s, t, l))
  }

  predicate Exists(s: State, t: Task) { t in s.spawned || (t.Idle? && t.home in s.cpus) }

  predicate Unlive(s: State, t: Task) { forall c :: c in s.cpus ==> s.cpus[c].live != t }

  /** A context is in memory exactly when no CPU is executing on it. */
  ghost predicate ContextsSaved(s: State) {
    forall t :: t in s.saved <==> Exists(s, t) && Unlive(s, t)
  }

  ghost predicate PlacesInv(s: State) { Shape(s) && OnePlace(s) && ContextsSaved(s) }

  // ---- where a step moves the occupant of each place, and where it came from ----

  function Fwd(s: State, step: Step, l: Place): Place
    requires Enabled(s, step)
  {
    match step
    case Give(c) =>
      var op := s.cpus[c].mode.op;
      if l.InList? && l.q == op.q then
        if op.WakeAll? || l.i == 0 then InHand(c, l.i) else InList(l.q, l.i - 1)
      else l
    case MakeReady(c) =>
      if l.InHand? && l.c == c then (if l.i == 0 then InReady(|s.ready|) else InHand(c, l.i - 1)) else l
    case Pick(c, _) => if l.InReady? then (if l.i == 0 then InPick(c) else InReady(l.i - 1)) else l
    case Commit(c) =>
      if s.cpus[c].current == s.cpus[c].mode.next && s.cpus[c].mode.action == ToReady then l
      else if l == OnCpu(c) then InPrev(c) else if l == InPick(c) then OnCpu(c) else l
    case Finish(c) =>
      if l == InPrev(c) && s.cpus[c].prev.Parked? then Landing(s, s.cpus[c].prev.action) else l
    case WakeSleeper(_, i) =>
      if l == InSleepers(i) then InReady(|s.ready|)
      else if l == InSleepers(|s.sleepers| - 1) then InSleepers(i) else l
    case Reap(_) => if l.InZombies? then InFreed(|s.freed| + l.i) else l
    case _ => l
  }

  /** Where `finish_switch` puts the outgoing thread. */
  function Landing(s: State, action: Action): Place {
    match action
    case ToReady => InReady(|s.ready|)
    case ToSleep => InSleepers(|s.sleepers|)
    case ToZombie => InZombies(|s.zombies|)
    case ToWait(q) => InList(q, if q in s.queues then |s.queues[q].list| else 0)
  }

  function Back(s: State, step: Step, l: Place): Place
    requires Enabled(s, step)
  {
    match step
    case Give(c) =>
      var op := s.cpus[c].mode.op;
      if l.InHand? && l.c == c then InList(op.q, l.i)
      else if l.InList? && l.q == op.q then InList(op.q, l.i + 1) else l
    case MakeReady(c) =>
      if l == InReady(|s.ready|) then InHand(c, 0)
      else if l.InHand? && l.c == c then InHand(c, l.i + 1) else l
    case Pick(c, _) => if l == InPick(c) then InReady(0) else if l.InReady? then InReady(l.i + 1) else l
    case Commit(c) =>
      if s.cpus[c].current == s.cpus[c].mode.next && s.cpus[c].mode.action == ToReady then l
      else if l == InPrev(c) then OnCpu(c) else if l == OnCpu(c) then InPick(c) else l
    case Finish(c) =>
      if s.cpus[c].prev.Parked? && l == Landing(s, s.cpus[c].prev.action) then InPrev(c) else l
    case WakeSleeper(_, i) =>
      if l == InReady(|s.ready|) then InSleepers(i)
      else if l == InSleepers(i) then InSleepers(|s.sleepers| - 1) else l
    case Reap(_) => if l.InFreed? && l.i >= |s.freed| then InZombies(l.i - |s.freed|) else l
    case _ => l
  }

  lemma GiveCarried(s: State, c: Cpu, t: Task, l: Place)
    requires Enabled(s, Give(c)) && GoodCpu(s, c, s.cpus[c]) && t.Thread? && Occupies(s, t, l)
    ensures Occupies(ApplyGive(s, c), t, Fwd(s, Give(c), l))
  {
  }

  lemma GiveBrought(s: State, c: Cpu, t: Task, l: Place)
    requires Enabled(s, Give(c)) && GoodCpu(s, c, s.cpus[c]) && t.Thread? && Occupies(ApplyGive(s, c), t, l)
    ensures var l' := Back(s, Give(c), l); Occupies(s, t, l') && Fwd(s, Give(c), l') == l
  {
  }

  lemma MakeReadyCarried(s: State, c: Cpu, t: Task, l: Place)
    requires Enabled(s, MakeReady(c)) && t.Thread? && Occupies(s, t, l)
    ensures Occupies(Apply(s, MakeReady(c)), t, Fwd(s, MakeReady(c), l))
  {
  }

  lemma MakeReadyBrought(s: State, c: Cpu, t: Task, l: Place)
    requires Enabled(s, MakeReady(c)) && t.Thread? && Occupies(Apply(s, MakeReady(c)), t, l)
    ensures var l' := Back(s, MakeReady(c), l); Occupies(s, t, l') && Fwd(s, MakeReady(c), l') == l
  {
  }

  lemma PickCarried(s: State, c: Cpu, a: Action, t: Task, l: Place)
    requires Enabled(s, Pick(c, a)) && GoodCpu(s, c, s.cpus[c]) && t.Thread? && Occupies(s, t, l)
    ensures Occupies(ApplyPick(s, c, a), t, Fwd(s, Pick(c, a), l))
  {
  }

  lemma PickBrought(s: State, c: Cpu, a: Action, t: Task, l: Place)
    requires Enabled(s, Pick(c, a)) && GoodCpu(s, c, s.cpus[c]) && t.Thread? && Occupies(ApplyPick(s, c, a), t, l)
    ensures var l' := Back(s, Pick(c, a), l); Occupies(s, t, l') && Fwd(s, Pick(c, a), l') == l
  {
  }

  lemma CommitCarried(s: State, c: Cpu, t: Task, l: Place)
    requires Enabled(s, Commit(c)) && GoodCpu(s, c, s.cpus[c]) && t.Thread? && Occupies(s, t, l)
    ensures Occupies(ApplyCommit(s, c), t, Fwd(s, Commit(c), l))
  {
  }

  lemma CommitBrought(s: State, c: Cpu, t: Task, l: Place)
    requires Enabled(s, Commit(c)) && GoodCpu(s, c, s.cpus[c]) && t.Thread? && Occupies(ApplyCommit(s, c), t, l)
    ensures var l' := Back(s, Commit(c), l); Occupies(s, t, l') && Fwd(s, Commit(c), l') == l
  {
  }

  lemma FinishCarried(s: State, c: Cpu, t: Task, l: Place)
    requires Enabled(s, Finish(c)) && GoodCpu(s, c, s.cpus[c]) && t.Thread? && Occupies(s, t, l)
    ensures Occupies(ApplyFinish(s, c), t, Fwd(s, Finish(c), l))
  {
  }

  lemma FinishBrought(s: State, c: Cpu, t: Task, l: Place)
    requires Enabled(s, Finish(c)) && GoodCpu(s, c, s.cpus[c]) && t.Thread? && Occupies(ApplyFinish(s, c), t, l)
    ensures var l' := Back(s, Finish(c), l); Occupies(s, t, l') && Fwd(s, Finish(c), l') == l
  {
  }

  lemma WakeSleeperCarried(s: State, c: Cpu, i: nat, t: Task, l: Place)
    requires Enabled(s, WakeSleeper(c, i)) && t.Thread? && Occupies(s, t, l)
    ensures Occupies(Apply(s, WakeSleeper(c, i)), t, Fwd(s, WakeSleeper(c, i), l))
  {
  }

  lemma WakeSleeperBrought(s: State, c: Cpu, i: nat, t: Task, l: Place)
    requires Enabled(s, WakeSleeper(c, i)) && t.Thread? && Occupies(Apply(s, WakeSleeper(c, i)), t, l)
    ensures var l' := Back(s, WakeSleeper(c, i), l); Occupies(s, t, l') && Fwd(s, WakeSleeper(c, i), l') == l
  {
  }

  lemma ReapCarried(s: State, c: Cpu, t: Task, l: Place)
    requires Enabled(s, Reap(c)) && t.Thread? && Occupies(s, t, l)
    ensures Occupies(Apply(s, Reap(c)), t, Fwd(s, Reap(c), l))
  {
  }

  lemma ReapBrought(s: State, c: Cpu, t: Task, l: Place)
    requires Enabled(s, Reap(c)) && t.Thread? && Occupies(Apply(s, Reap(c)), t, l)
    ensures var l' := Back(s, Reap(c), l); Occupies(s, t, l') && Fwd(s, Reap(c), l') == l
  {
  }

  lemma QueueStepCarried(s: State, step: Step, t: Task, l: Place)
    requires Enabled(s, step) && (step.NewQueue? || step.Lock? || step.Decline? || step.Take?) && Occupies(s, t, l)
    ensures Occupies(Apply(s, step), t, l)
  {
  }

  lemma CpuStepCarried(s: State, step: Step, t: Task, l: Place)
    requires Enabled(s, step) && t.Thread? && Occupies(s, t, l)
    requires step.InitCpu? || step.Begin? || step.EndWake? || step.Switch? || step.Spawn?
    requires !step.InitCpu? ==> GoodCpu(s, step.c, s.cpus[step.c])
    ensures Occupies(Apply(s, step), t, l)
  {
  }

  /** The step carries the occupant of every place to the place `Fwd` names. */
  lemma StepCarried(s: State, step: Step, t: Task, l: Place)
    requires Enabled(s, step) && t.Thread? && Occupies(s, t, l)
    requires !step.NewQueue? && !step.InitCpu? ==> GoodCpu(s, step.c, s.cpus[step.c])
    ensures Occupies(Apply(s, step), t, Fwd(s, step, l))
  {
    match step
    case Give(c) => GiveCarried(s, c, t, l);
    case MakeReady(c) => MakeReadyCarried(s, c, t, l);
    case Pick(c, a) => PickCarried(s, c, a, t, l);
    case Commit(c) => CommitCarried(s, c, t, l);
    case Finish(c) => FinishCarried(s, c, t, l);
    case WakeSleeper(c, i) => WakeSleeperCarried(s, c, i, t, l);
    case Reap(c) => ReapCarried(s, c, t, l);
    case NewQueue(_, _, _) => QueueStepCarried(s, step, t, l);
    case Lock(_) => QueueStepCarried(s, step, t, l);
    case Decline(_) => QueueStepCarried(s, step, t, l);
    case Take(_) => QueueStepCarried(s, step, t, l);
    case _ => CpuStepCarried(s, step, t, l);
  }

  predicate Moves(step: Step) {
    step.Give? || step.MakeReady? || step.Pick? || step.Commit? || step.Finish? || step.WakeSleeper? || step.Reap?
  }

  lemma QueueStepBrought(s: State, step: Step, t: Task, l: Place)
    requires Enabled(s, step) && (step.NewQueue? || step.Lock? || step.Decline? || step.Take?)
    ensures Occupies(Apply(s, step), t, l) ==> Occupies(s, t, l)
  {
  }

  lemma CpuStepBrought(s: State, step: Step, t: Task, l: Place)
    requires Enabled(s, step) && t.Thread?
    requires step.InitCpu? || step.Begin? || step.EndWake? || step.Switch?
    ensures Occupies(Apply(s, step), t, l) ==> Occupies(s, t, l)
  {
  }

  lemma SpawnBrought(s: State, c: Cpu, t': Task, t: Task, l: Place)
    requires Enabled(s, Spawn(c, t'))
    ensures Occupies(Apply(s, Spawn(c, t')), t, l) && l != InReady(|s.ready|) ==> Occupies(s, t, l)
  {
  }

  /** Whoever is somewhere after the step was carried there, unless just spawned. */
  lemma StepBrought(s: State, step: Step, t: Task, l: Place)
    requires Enabled(s, step) && t.Thread? && Occupies(Apply(s, step), t, l)
    requires !step.NewQueue? && !step.InitCpu? ==> GoodCpu(s, step.c, s.cpus[step.c])
    requires !(step.Spawn? && l == InReady(|s.ready|))
    ensures Occupies(s, t, Back(s, step, l)) && Fwd(s, step, Back(s, step, l)) == l
  {
    match step
    case Give(c) => GiveBrought(s, c, t, l);
    case MakeReady(c) => MakeReadyBrought(s, c, t, l);
    case Pick(c, a) => PickBrought(s, c, a, t, l);
    case Commit(c) => CommitBrought(s, c, t, l);
    case Finish(c) => FinishBrought(s, c, t, l);
    case WakeSleeper(c, i) => WakeSleeperBrought(s, c, i, t, l);
    case Reap(c) => ReapBrought(s, c, t, l);
    case Spawn(c, t') => SpawnBrought(s, c, t', t, l);
    case NewQueue(_, _, _) => QueueStepBrought(s, step, t, l);
    case Lock(_) => QueueStepBrought(s, step, t, l);
    case Decline(_) => QueueStepBrought(s, step, t, l);
    case Take(_) => QueueStepBrought(s, step, t, l);
    case _ => CpuStepBrought(s, step, t, l);
  }

  // ---- preservation ----

  predicate SameKinds(s: State, s': State) {
    forall q :: q in s.queues ==> q in s'.queues && s'.queues[q].sem == s.queues[q].sem
  }

  lemma StepKeepsKinds(s: State, step: Step)
    requires Enabled(s, step)
    ensures SameKinds(s, Apply(s, step))
  {
  }

  lemma GoodCpuFrame(s: State, s': State, c: Cpu, cs: CpuState)
    requires SameKinds(s, s') && GoodCpu(s, c, cs)
    ensures GoodCpu(s', c, cs)
  {
  }

  lemma StepMovesOneCpu(s: State, step: Step, c: Cpu)
    requires Enabled(s, step) && c in Apply(s, step).cpus && (step.NewQueue? || c != step.c)
    ensures c in s.cpus && Apply(s, step).cpus[c] == s.cpus[c]
  {
  }

  lemma QueueStepGood(s: State, step: Step)
    requires Shape(s) && Enabled(s, step)
    requires step.InitCpu? || step.Begin? || step.Lock? || step.Decline? || step.Take? || step.Give? || step.MakeReady?
    ensures GoodCpu(Apply(s, step), step.c, Apply(s, step).cpus[step.c])
  {
    if !step.InitCpu? { assert GoodCpu(s, step.c, s.cpus[step.c]); }
  }

  lemma PickGood(s: State, c: Cpu, a: Action)
    requires Shape(s) && OnePlace(s) && Enabled(s, Pick(c, a))
    ensures GoodCpu(Apply(s, Pick(c, a)), c, Apply(s, Pick(c, a)).cpus[c])
  {
    assert GoodCpu(s, c, s.cpus[c]);
    if s.ready != [] && s.ready[0] == s.cpus[c].current {
      assert Occupies(s, s.ready[0], InReady(0)) && Occupies(s, s.ready[0], OnCpu(c));
      assert false;
    }
  }

  lemma SwitchStepGood(s: State, step: Step)
    requires Shape(s) && Enabled(s, step)
    requires step.EndWake? || step.Commit? || step.Switch? || step.Finish? || step.Spawn? || step.WakeSleeper? || step.Reap?
    ensures GoodCpu(Apply(s, step), step.c, Apply(s, step).cpus[step.c])
  {
    assert GoodCpu(s, step.c, s.cpus[step.c]);
  }

  lemma StepKeepsThreads(s: State, step: Step)
    requires Threads(s.ready) && Threads(s.sleepers) && Threads(s.zombies) && Threads(s.freed) && Enabled(s, step)
    requires step.MakeReady? || step.Finish? ==> GoodCpu(s, step.c, s.cpus[step.c])
    ensures var s' := Apply(s, step); Threads(s'.ready) && Threads(s'.sleepers) && Threads(s'.zombies) && Threads(s'.freed)
  {
  }

  lemma StepKeepsLists(s: State, step: Step, q: Queue)
    requires Enabled(s, step) && q in Apply(s, step).queues && (q in s.queues ==> Threads(s.queues[q].list))
    requires step.Finish? ==> GoodCpu(s, step.c, s.cpus[step.c])
    ensures Threads(Apply(s, step).queues[q].list)
  {
  }

  lemma StepKeepsOps(s: State, step: Step, t: Task)
    requires Enabled(s, step) && t in Apply(s, step).op && Apply(s, step).op[t].SemWait?
    requires t in s.op && s.op[t].SemWait? ==> t.Thread? && GoodOp(s, s.op[t])
    ensures t.Thread? && GoodOp(Apply(s, step), Apply(s, step).op[t])
  {
    StepKeepsKinds(s, step);
  }

  lemma ShapeStep(s: State, step: Step)
    requires Shape(s) && OnePlace(s) && Enabled(s, step)
    ensures Shape(Apply(s, step))
  {
    var s' := Apply(s, step);
    StepKeepsKinds(s, step);
    StepKeepsThreads(s, step);
    forall q | q in s'.queues ensures Threads(s'.queues[q].list) { StepKeepsLists(s, step, q); }
    forall t | t in s'.op && s'.op[t].SemWait? ensures t.Thread? && GoodOp(s', s'.op[t]) { StepKeepsOps(s, step, t); }
    forall c | c in s'.cpus ensures GoodCpu(s', c, s'.cpus[c]) {
      if step.NewQueue? || c != step.c {
        StepMovesOneCpu(s, step, c);
        GoodCpuFrame(s, s', c, s.cpus[c]);
      } else {
        ActorGood(s, step);
      }
    }
  }

  lemma ActorGood(s: State, step: Step)
    requires Shape(s) && OnePlace(s) && Enabled(s, step) && !step.NewQueue?
    ensures GoodCpu(Apply(s, step), step.c, Apply(s, step).cpus[step.c])
  {
    match step
    case Pick(c, a) => PickGood(s, c, a);
    case EndWake(_) => SwitchStepGood(s, step);
    case Commit(_) => SwitchStepGood(s, step);
    case Switch(_) => SwitchStepGood(s, step);
    case Finish(_) => SwitchStepGood(s, step);
    case Spawn(_, _) => SwitchStepGood(s, step);
    case WakeSleeper(_, _) => SwitchStepGood(s, step);
    case Reap(_) => SwitchStepGood(s, step);
    case _ => QueueStepGood(s, step);
  }

  /** Nothing is duplicated or lost: the step only carries threads from place to place. */
  lemma OnePlaceStep(s: State, step: Step)
    requires Shape(s) && OnePlace(s) && Enabled(s, step)
    ensures OnePlace(Apply(s, step))
  {
    var s' := Apply(s, step);
    forall t: Task, l1, l2 | t.Thread? && Occupies(s', t, l1) && Occupies(s', t, l2) ensures l1 == l2 {
      CameFrom(s, step, t, l1);
      CameFrom(s, step, t, l2);
    }
    forall t: Task, l | t.Thread? && Occupies(s', t, l) ensures t in s'.spawned {
      CameFrom(s, step, t, l);
      StepKeepsSpawned(s, step);
    }
    forall t | t in s'.spawned ensures exists l :: Occupies(s', t, l) {
      StepKeepsSpawned(s, step);
      if t in s.spawned {
        var l :| Occupies(s, t, l);
        StaysSomewhere(s, step, t, l);
      } else {
        assert Occupies(s', t, InReady(|s.ready|));
      }
    }
  }

  lemma StepKeepsSpawned(s: State, step: Step)
    requires Enabled(s, step)
    ensures Apply(s, step).spawned == if step.Spawn? then s.spawned + {step.t} else s.spawned
  {
  }

  lemma StaysSomewhere(s: State, step: Step, t: Task, l: Place)
    requires Shape(s) && Enabled(s, step) && t.Thread? && Occupies(s, t, l)
    ensures Occupies(Apply(s, step), t, Fwd(s, step, l))
  {
    StepCarried(s, step, t, l);
  }

  /** A thread found after the step was spawned by it or came from the place `Back` names. */
  lemma CameFrom(s: State, step: Step, t: Task, l: Place)
    requires Shape(s) && OnePlace(s) && Enabled(s, step) && t.Thread? && Occupies(Apply(s, step), t, l)
    ensures if t in s.spawned
            then Occupies(s, t, Back(s, step, l)) && Fwd(s, step, Back(s, step, l)) == l
            else step.Spawn? && t == step.t && l == InReady(|s.ready|)
  {
    if step.Spawn? && l == InReady(|s.ready|) {
      assert t == step.t;
    } else {
      StepBrought(s, step, t, l);
    }
  }

  /** No two CPUs execute on one task's stack. */
  lemma OneCpuPerTask(s: State, c1: Cpu, c2: Cpu)
    requires Shape(s) && OnePlace(s) && c1 in s.cpus && c2 in s.cpus
    requires s.cpus[c1].live == s.cpus[c2].live
    ensures c1 == c2
  {
    var t := s.cpus[c1].live;
    assert GoodCpu(s, c1, s.cpus[c1]) && GoodCpu(s, c2, s.cpus[c2]);
    if t.Thread? {
      assert Occupies(s, t, OnCpu(c1)) || Occupies(s, t, InPrev(c1));
      assert Occupies(s, t, OnCpu(c2)) || Occupies(s, t, InPrev(c2));
    }
  }

  lemma LiveAt(s: State, c: Cpu)
    requires Shape(s) && c in s.cpus
    ensures var t := s.cpus[c].live; Occupies(s, t, OnCpu(c)) || Occupies(s, t, InPrev(c))
    ensures s.cpus[c].live.Idle? ==> s.cpus[c].live == Idle(c)
  {
    assert GoodCpu(s, c, s.cpus[c]);
  }

  lemma LiveExists(s: State, c: Cpu)
    requires Shape(s) && OnePlace(s) && c in s.cpus
    ensures Exists(s, s.cpus[c].live)
  {
    var t := s.cpus[c].live;
    assert GoodCpu(s, c, s.cpus[c]);
    if t.Thread? {
      assert Occupies(s, t, OnCpu(c)) || Occupies(s, t, InPrev(c));
    }
  }

  lemma SwitchContexts(s: State, c: Cpu, t: Task)
    requires PlacesInv(s) && Enabled(s, Switch(c))
    ensures var s' := Apply(s, Switch(c)); t in s'.saved <==> Exists(s', t) && Unlive(s', t)
  {
    var s' := Apply(s, Switch(c));
    var cs := s.cpus[c];
    assert GoodCpu(s, c, cs) && s'.cpus[c].live == cs.current;
    if t == cs.prev.task {
      LiveExists(s, c);
      forall c' | c' in s'.cpus ensures s'.cpus[c'].live != t {
        if c' != c { if s.cpus[c'].live == t { OneCpuPerTask(s, c, c'); } }
      }
    } else if t != cs.current {
      if Unlive(s', t) {
        forall c' | c' in s.cpus ensures s.cpus[c'].live != t { assert c' != c ==> s'.cpus[c'].live == s.cpus[c'].live; }
      }
      if Unlive(s, t) { assert Unlive(s', t); }
    }
  }

  lemma BirthContexts(s: State, step: Step, t: Task)
    requires PlacesInv(s) && Enabled(s, step) && (step.Spawn? || step.InitCpu?)
    ensures var s' := Apply(s, step); t in s'.saved <==> Exists(s', t) && Unlive(s', t)
  {
    var s' := Apply(s, step);
    forall c' | c' in s.cpus ensures s'.cpus[c'] == s.cpus[c'] && Exists(s, s.cpus[c'].live) { LiveExists(s, c'); }
    if step.InitCpu? && t == Idle(step.c) {
      assert s'.cpus[step.c].live == t;
    } else {
      if Unlive(s', t) { assert Unlive(s, t); }
      if Unlive(s, t) { assert Unlive(s', t); }
    }
  }

  lemma LiveStays(s: State, step: Step, c: Cpu)
    requires Enabled(s, step) && !step.Spawn? && !step.InitCpu? && !step.Switch?
    ensures var s' := Apply(s, step);
      s'.cpus.Keys == s.cpus.Keys && s'.saved == s.saved && (c in s.cpus ==> s'.cpus[c].live == s.cpus[c].live)
  {
  }

  lemma ContextsStep(s: State, step: Step)
    requires PlacesInv(s) && Enabled(s, step)
    ensures ContextsSaved(Apply(s, step))
  {
    var s' := Apply(s, step);
    forall t ensures t in s'.saved <==> Exists(s', t) && Unlive(s', t) {
      if step.Spawn? || step.InitCpu? {
        BirthContexts(s, step, t);
      } else if step.Switch? {
        SwitchContexts(s, step.c, t);
      } else {
        forall c
          ensures s'.cpus.Keys == s.cpus.Keys && s'.saved == s.saved && (c in s.cpus ==> s'.cpus[c].live == s.cpus[c].live)
        {
          LiveStays(s, step, c);
        }
        StepKeepsSpawned(s, step);
        assert t in s.saved <==> Exists(s, t) && Unlive(s, t);
        assert Unlive(s, t) <==> Unlive(s', t);
      }
    }
  }

  lemma PlacesStep(s: State, step: Step)
    requires PlacesInv(s) && Enabled(s, step)
    ensures PlacesInv(Apply(s, step))
  {
    ShapeStep(s, step);
    OnePlaceStep(s, step);
    ContextsStep(s, step);
  }

  // ---- what holds in every run ----

  lemma {:induction false} PlacesRun(s: State, steps: seq<Step>)
    requires PlacesInv(s) && IsRun(s, steps)
    ensures PlacesInv(After(s, steps))
    decreases |steps|
  {
    if steps != [] {
      PlacesStep(s, steps[0]);
      PlacesRun(Apply(s, steps[0]), steps[1..]);
    }
  }

  /** In every run, each spawned thread is in exactly one place. */
  lemma ExactlyOnePlace(steps: seq<Step>, t: Task)
    requires IsRun(Init(), steps) && t in After(Init(), steps).spawned
    ensures exists l :: Occupies(After(Init(), steps), t, l)
                        && forall l' :: Occupies(After(Init(), steps), t, l') ==> l' == l
  {
    PlacesRun(Init(), steps);
    var s := After(Init(), steps);
    var l :| Occupies(s, t, l);
    forall l' | Occupies(s, t, l') ensures l' == l { }
  }

  predicate Parkable(l: Place) { !l.OnCpu? && !l.InPrev? }

  /** A thread in any queue, in a waker's hand or just picked has its context saved. */
  lemma QueuedIsSaved(s: State, t: Task, l: Place)
    requires PlacesInv(s) && t.Thread? && Occupies(s, t, l) && Parkable(l)
    ensures t in s.saved
  {
    forall c | c in s.cpus ensures s.cpus[c].live != t {
      LiveAt(s, c);
    }
  }

  /** The context switch only ever loads a saved context: no half-switched task is run. */
  lemma SwitchLoadsSaved(steps: seq<Step>, c: Cpu)
    requires IsRun(Init(), steps) && Enabled(After(Init(), steps), Switch(c))
    ensures After(Init(), steps).cpus[c].current in After(Init(), steps).saved
  {
    PlacesRun(Init(), steps);
    var s := After(Init(), steps);
    var t := s.cpus[c].current;
    assert GoodCpu(s, c, s.cpus[c]);
    if t.Thread? { assert Occupies(s, t, OnCpu(c)); }
    forall c' | c' in s.cpus ensures s.cpus[c'].live != t {
      LiveAt(s, c');
    }
  }

  predicate Dead(s: State, t: Task) { t in s.zombies || t in s.freed }

  lemma DeadPlace(s: State, t: Task)
    requires Dead(s, t)
    ensures exists l: Place :: (l.InZombies? || l.InFreed?) && Occupies(s, t, l)
  {
    if t in s.zombies {
      var i :| 0 <= i < |s.zombies| && s.zombies[i] == t;
      assert Occupies(s, t, InZombies(i));
    } else {
      var i :| 0 <= i < |s.freed| && s.freed[i] == t;
      assert Occupies(s, t, InFreed(i));
    }
  }

  /** Once exited, a thread stays exited; no CPU executes it, so `reap` frees no stack in use. */
  lemma {:induction false} ExitedNeverRuns(s: State, steps: seq<Step>, t: Task)
    requires PlacesInv(s) && IsRun(s, steps) && t.Thread? && Dead(s, t)
    ensures Dead(After(s, steps), t)
    ensures forall c :: c in After(s, steps).cpus ==>
              After(s, steps).cpus[c].current != t && After(s, steps).cpus[c].live != t
    decreases |steps|
  {
    DeadPlace(s, t);
    var l: Place :| (l.InZombies? || l.InFreed?) && Occupies(s, t, l);
    if steps == [] {
      QueuedIsSaved(s, t, l);
      forall c | c in s.cpus ensures s.cpus[c].current != t {
        if s.cpus[c].current == t { assert Occupies(s, t, OnCpu(c)); }
      }
    } else {
      StaysSomewhere(s, steps[0], t, l);
      PlacesStep(s, steps[0]);
      ExitedNeverRuns(Apply(s, steps[0]), steps[1..], t);
    }
  }
}
