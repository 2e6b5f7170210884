/** The blocking primitives on top of the scheduler: who holds a wait queue's raw lock, how a
    semaphore's count evolves, and why no wake-up is lost. */
module SchedSem {
  import opened Sched
  import opened SchedPlaces

  // ---- what a thread is doing, by place ----

  /** The operation a task parked with `action` will resume. */
  function PendingOp(s: State, action: Action): Op {
    if action.ToWait? && action.q in s.queues && s.queues[action.q].sem then SemWait(action.q) else NoOp
  }

  predicate OpAllowed(s: State, l: Place, op: Op) {
    match l
    case OnCpu(c) =>
      c in s.cpus && (match s.cpus[c].mode
                      case User => op == NoOp
                      case Waking(_) => op == NoOp
                      case Spin(o) => op == o
                      case Crit(o) => op == o
                      case Picked(_, a) => op == PendingOp(s, a)
                      case _ => op == NoOp || op.SemWait?)
    case InPrev(c) => c in s.cpus && s.cpus[c].prev.Parked? && op == PendingOp(s, s.cpus[c].prev.action)
    case InSleepers(_) => op == NoOp
    case InZombies(_) => op == NoOp
    case InFreed(_) => op == NoOp
    case InList(q, _) => op == PendingOp(s, ToWait(q))
    case _ => op == NoOp || op.SemWait?
  }

  predicate IdleOp(s: State, c: Cpu) {
    OpOf(s, Idle(c)) == if c in s.cpus && s.cpus[c].current == Idle(c) && (s.cpus[c].mode.Spin? || s.cpus[c].mode.Crit?)
                        then s.cpus[c].mode.op else NoOp
  }

  ghost predicate OpsInv(s: State) {
    && (forall t: Task, l :: t.Thread? && Occupies(s, t, l) ==> OpAllowed(s, l, OpOf(s, t)))
    && (forall c :: IdleOp(s, c))
  }

  /** The step leaves the operation of everybody but its own CPU's current task alone. */
  lemma OpStays(s: State, step: Step, t: Task)
    requires Enabled(s, step)
    requires !step.NewQueue? && !step.InitCpu? ==> s.cpus[step.c].current != t
    requires step.Spawn? ==> step.t != t
    ensures OpOf(Apply(s, step), t) == OpOf(s, t)
  {
  }

  predicate ElsewhereOrQueue(s: State, step: Step, l: Place)
    requires Enabled(s, step)
  {
    && (l.OnCpu? ==> step.NewQueue? || l.c != step.c)
    && (l.InPrev? ==> step.NewQueue? || l.c != step.c || (!step.Commit? && !step.Finish?))
  }

  lemma FrameOpAllowed(s: State, step: Step, l: Place, op: Op)
    requires Enabled(s, step) && OpAllowed(s, l, op) && ElsewhereOrQueue(s, step, l)
    requires l.OnCpu? || l.InPrev? ==> l.c in s.cpus && GoodCpu(s, l.c, s.cpus[l.c])
    requires l.InList? ==> l.q in s.queues
    ensures OpAllowed(Apply(s, step), l, op)
  {
    StepKeepsKinds(s, step);
    if l.OnCpu? || l.InPrev? {
      CpuFrame(s, step, l);
      KindFrame(s, Apply(s, step), l, op);
    } else if l.InList? {
      KindFrame(s, Apply(s, step), l, op);
    }
  }

  lemma CpuFrame(s: State, step: Step, l: Place)
    requires Enabled(s, step) && ElsewhereOrQueue(s, step, l) && (l.OnCpu? || l.InPrev?) && l.c in s.cpus
    ensures var s' := Apply(s, step); l.c in s'.cpus
    ensures if l.OnCpu? then Apply(s, step).cpus[l.c] == s.cpus[l.c] else Apply(s, step).cpus[l.c].prev == s.cpus[l.c].prev
  {
  }

  lemma KindFrame(s: State, s': State, l: Place, op: Op)
    requires SameKinds(s, s') && OpAllowed(s, l, op) && (l.OnCpu? || l.InPrev? || l.InList?)
    requires l.OnCpu? ==> l.c in s'.cpus && s'.cpus[l.c] == s.cpus[l.c] && GoodCpu(s, l.c, s.cpus[l.c])
    requires l.InPrev? ==> l.c in s'.cpus && s'.cpus[l.c].prev == s.cpus[l.c].prev && GoodCpu(s, l.c, s.cpus[l.c])
    requires l.InList? ==> l.q in s.queues
    ensures OpAllowed(s', l, op)
  {
  }

  lemma ActorMode(s: State, step: Step, t: Task)
    requires Enabled(s, step) && !step.NewQueue? && !step.InitCpu? && !step.Pick? && !step.Commit?
    requires t == s.cpus[step.c].current && OpAllowed(s, OnCpu(step.c), OpOf(s, t))
    requires GoodCpu(s, step.c, s.cpus[step.c])
    requires step.Spawn? ==> step.t != t
    ensures OpAllowed(Apply(s, step), OnCpu(step.c), OpOf(Apply(s, step), t))
  {
  }

  lemma ActorSwitch(s: State, step: Step, t: Task)
    requires Enabled(s, step) && (step.Pick? || step.Commit?) && t.Thread?
    requires t == s.cpus[step.c].current && OpAllowed(s, OnCpu(step.c), OpOf(s, t))
    requires GoodCpu(s, step.c, s.cpus[step.c])
    ensures OpAllowed(Apply(s, step), Fwd(s, step, OnCpu(step.c)), OpOf(Apply(s, step), t))
  {
  }

  lemma MovedOpAllowed(s: State, step: Step, t: Task, l: Place)
    requires Enabled(s, step) && !step.NewQueue? && !step.InitCpu? && Moves(step) && t.Thread?
    requires GoodCpu(s, step.c, s.cpus[step.c]) && Occupies(s, t, l)
    requires OpAllowed(s, l, OpOf(s, t)) && Fwd(s, step, l) != l && l != OnCpu(step.c)
    ensures OpAllowed(Apply(s, step), Fwd(s, step, l), OpOf(s, t))
  {
  }

  lemma OpsStepThread(s: State, step: Step, t: Task, l: Place)
    requires PlacesInv(s) && OpsInv(s) && Enabled(s, step) && t.Thread? && Occupies(Apply(s, step), t, l)
    ensures OpAllowed(Apply(s, step), l, OpOf(Apply(s, step), t))
  {
    CameFrom(s, step, t, l);
    if t in s.spawned {
      var l0 := Back(s, step, l);
      if !step.NewQueue? && !step.InitCpu? && t == s.cpus[step.c].current {
        assert Occupies(s, t, OnCpu(step.c)) && l0 == OnCpu(step.c);
        if step.Pick? || step.Commit? { ActorSwitch(s, step, t); } else { ActorMode(s, step, t); assert l == l0; }
      } else {
        OpStays(s, step, t);
        if l == l0 {
          if (l.OnCpu? || l.InPrev?) { assert GoodCpu(s, l.c, s.cpus[l.c]); }
          NotFromHere(s, step, t, l);
          FrameOpAllowed(s, step, l, OpOf(s, t));
        } else {
          MovedOpAllowed(s, step, t, l0);
        }
      }
    } else {
      assert step.Spawn? && step.t == t;
    }
  }

  lemma NotFromHere(s: State, step: Step, t: Task, l: Place)
    requires Enabled(s, step) && t.Thread? && Occupies(s, t, l) && Back(s, step, l) == l && Fwd(s, step, l) == l
    requires !step.NewQueue? && !step.InitCpu? ==> t != s.cpus[step.c].current && GoodCpu(s, step.c, s.cpus[step.c])
    ensures ElsewhereOrQueue(s, step, l)
  {
  }

  lemma OpsStepIdleHere(s: State, step: Step)
    requires Enabled(s, step) && !step.NewQueue? && !step.InitCpu? && IdleOp(s, step.c)
    requires GoodCpu(s, step.c, s.cpus[step.c])
    ensures IdleOp(Apply(s, step), step.c)
  {
  }

  lemma OpsStepIdle(s: State, step: Step, c: Cpu)
    requires IdleOp(s, c) && Enabled(s, step)
    requires !step.NewQueue? && !step.InitCpu? ==> GoodCpu(s, step.c, s.cpus[step.c])
    ensures IdleOp(Apply(s, step), c)
  {
    if step.NewQueue? || step.c != c {
      OpStays(s, step, Idle(c));
      if c in Apply(s, step).cpus { StepMovesOneCpu(s, step, c); }
    } else if !step.InitCpu? {
      OpsStepIdleHere(s, step);
    }
  }

  lemma OpsStep(s: State, step: Step)
    requires PlacesInv(s) && OpsInv(s) && Enabled(s, step)
    ensures OpsInv(Apply(s, step))
  {
    var s' := Apply(s, step);
    forall t: Task, l | t.Thread? && Occupies(s', t, l) ensures OpAllowed(s', l, OpOf(s', t)) {
      OpsStepThread(s, step, t, l);
    }
    forall c ensures IdleOp(s', c) {
      if !step.NewQueue? && !step.InitCpu? { assert GoodCpu(s, step.c, s.cpus[step.c]); }
      OpsStepIdle(s, step, c);
    }
  }

  // ---- the raw lock ----

  /** The CPU is on its way out with a task that blocks on `q`: the lock is handed to `finish_switch`. */
  predicate Blocking(cs: CpuState, q: Queue) {
    (cs.mode.Picked? && cs.mode.action == ToWait(q)) || (cs.prev.Parked? && cs.prev.action == ToWait(q))
  }

  predicate Holds(cs: CpuState, q: Queue) {
    (cs.mode.Crit? && cs.mode.op != NoOp && cs.mode.op.q == q) || Blocking(cs, q)
  }

  /** A queue's lock is taken exactly when one critical section or one hand-off holds it. */
  ghost predicate LockOk(s: State, q: Queue) {
    && (forall c1, c2 :: c1 in s.cpus && c2 in s.cpus && Holds(s.cpus[c1], q) && Holds(s.cpus[c2], q) ==> c1 == c2)
    && (q in s.queues ==> (s.queues[q].locked <==> exists c :: c in s.cpus && Holds(s.cpus[c], q)))
    && (q !in s.queues ==> forall c :: c in s.cpus ==> !Holds(s.cpus[c], q))
  }

  predicate LockMove(locked: bool, locked': bool, held: bool, held': bool) {
    (locked' == locked && held' == held) || (!locked && locked' && held') || (held && !held' && !locked')
  }

  /** What a step of CPU `c` does to the lock of `q`: nothing, acquire it, or release what `c` held. */
  lemma ActorLock(s: State, step: Step, q: Queue)
    requires Enabled(s, step) && !step.NewQueue? && !step.InitCpu? && q in s.queues
    requires GoodCpu(s, step.c, s.cpus[step.c])
    ensures q in Apply(s, step).queues && step.c in Apply(s, step).cpus
    ensures LockMove(s.queues[q].locked, Apply(s, step).queues[q].locked,
                     Holds(s.cpus[step.c], q), Holds(Apply(s, step).cpus[step.c], q))
  {
  }

  lemma QueuesKept(s: State, step: Step, q: Queue)
    requires Enabled(s, step) && !step.NewQueue?
    ensures q in Apply(s, step).queues <==> q in s.queues
  {
  }

  lemma LockStepElsewhere(s: State, step: Step, q: Queue)
    requires Enabled(s, step) && (step.NewQueue? || step.InitCpu?) && LockOk(s, q)
    ensures LockOk(Apply(s, step), q)
  {
    var s' := Apply(s, step);
    if step.InitCpu? {
      assert s'.queues == s.queues;
      forall c | c in s'.cpus && Holds(s'.cpus[c], q) ensures c in s.cpus && s'.cpus[c] == s.cpus[c] { }
      if q in s.queues && s.queues[q].locked {
        var c :| c in s.cpus && Holds(s.cpus[c], q);
        assert c in s'.cpus && Holds(s'.cpus[c], q);
      }
    } else {
      assert s'.cpus == s.cpus;
    }
  }

  /** Everybody but CPU `a` stays as it is, and `a` moves the lock as `LockMove` says. */
  lemma LockTransfer(s: State, s': State, a: Cpu, q: Queue)
    requires LockOk(s, q) && a in s.cpus && s'.cpus.Keys == s.cpus.Keys && q in s.queues && q in s'.queues
    requires forall c :: c in s.cpus && c != a ==> s'.cpus[c] == s.cpus[c]
    requires LockMove(s.queues[q].locked, s'.queues[q].locked, Holds(s.cpus[a], q), Holds(s'.cpus[a], q))
    ensures LockOk(s', q)
  {
    if s'.queues[q].locked && !Holds(s'.cpus[a], q) {
      var c :| c in s.cpus && Holds(s.cpus[c], q);
      assert c != a && Holds(s'.cpus[c], q);
    }
  }

  lemma LockStep(s: State, step: Step, q: Queue)
    requires Shape(s) && Enabled(s, step) && LockOk(s, q)
    ensures LockOk(Apply(s, step), q)
  {
    var s' := Apply(s, step);
    if step.NewQueue? || step.InitCpu? {
      LockStepElsewhere(s, step, q);
    } else {
      var a := step.c;
      assert GoodCpu(s, a, s.cpus[a]);
      QueuesKept(s, step, q);
      CpusKept(s, step);
      forall c | c in s.cpus && c != a ensures s'.cpus[c] == s.cpus[c] { StepMovesOneCpu(s, step, c); }
      if q in s.queues {
        ActorLock(s, step, q);
        LockTransfer(s, s', a, q);
      } else {
        ActorNoLock(s, step, q);
      }
    }
  }

  lemma CpusKept(s: State, step: Step)
    requires Enabled(s, step) && !step.InitCpu?
    ensures Apply(s, step).cpus.Keys == s.cpus.Keys
  {
  }

  lemma ActorNoLock(s: State, step: Step, q: Queue)
    requires Enabled(s, step) && !step.NewQueue? && !step.InitCpu? && q !in s.queues
    requires GoodCpu(s, step.c, s.cpus[step.c]) && !Holds(s.cpus[step.c], q)
    ensures !Holds(Apply(s, step).cpus[step.c], q)
  {
  }

  // ---- the count ----

  function Min(a: int, b: int): int { if a < b then a else b }

  /** The count is what was posted minus what was taken, and is spent while somebody is about to block. */
  ghost predicate CountOk(s: State, q: Queue) {
    q in s.queues && s.queues[q].sem ==>
      && s.queues[q].count == s.queues[q].initial + s.queues[q].posts - s.queues[q].takes
      && s.queues[q].count >= Min(s.queues[q].initial, 0)
      && forall c :: c in s.cpus && Blocking(s.cpus[c], q) ==> s.queues[q].count <= 0
  }

  predicate Counts(s: State, step: Step, q: Queue) {
    (step.Take? || step.Give?) && step.c in s.cpus && s.cpus[step.c].mode.Crit? &&
    (s.cpus[step.c].mode.op.SemWait? || s.cpus[step.c].mode.op.Post?) && s.cpus[step.c].mode.op.q == q
  }

  lemma CountStays(s: State, step: Step, q: Queue)
    requires Enabled(s, step) && q in s.queues && !Counts(s, step, q)
    ensures q in Apply(s, step).queues
    ensures var (w, w') := (s.queues[q], Apply(s, step).queues[q]);
      w'.count == w.count && w'.initial == w.initial && w'.posts == w.posts && w'.takes == w.takes && w'.sem == w.sem
  {
  }

  lemma ActorBlocking(s: State, step: Step, q: Queue)
    requires Enabled(s, step) && !step.NewQueue? && !step.InitCpu? && GoodCpu(s, step.c, s.cpus[step.c])
    requires q in s.queues && s.queues[q].sem && Blocking(Apply(s, step).cpus[step.c], q)
    ensures Blocking(s.cpus[step.c], q) || s.queues[q].count <= 0
  {
  }

  lemma CountMoves(s: State, step: Step, q: Queue)
    requires Enabled(s, step) && q in s.queues && Counts(s, step, q) && s.queues[q].sem
    ensures var (w, w') := (s.queues[q], Apply(s, step).queues[q]);
      && w'.initial == w.initial && w'.sem
      && (if step.Take? then w.count > 0 && w'.count == w.count - 1 && w'.takes == w.takes + 1 && w'.posts == w.posts
          else w'.count == w.count + 1 && w'.posts == w.posts + 1 && w'.takes == w.takes)
    ensures Holds(s.cpus[step.c], q)
    ensures (Apply(s, step).cpus[step.c].mode.User? || Apply(s, step).cpus[step.c].mode.Waking?)
  {
  }

  /** While a CPU counts inside the lock, no hand-off of that lock is under way. */
  lemma NobodyBlocks(s: State, step: Step, q: Queue, c: Cpu)
    requires Shape(s) && Enabled(s, step) && LockOk(s, q) && q in s.queues && s.queues[q].sem && Counts(s, step, q)
    requires c in Apply(s, step).cpus
    ensures !Blocking(Apply(s, step).cpus[c], q)
  {
    CountMoves(s, step, q);
    assert GoodCpu(s, step.c, s.cpus[step.c]);
    if c == step.c {
      CountingDone(s, step, q);
    } else {
      StepMovesOneCpu(s, step, c);
      assert Holds(s.cpus[step.c], q);
    }
  }

  lemma CountingDone(s: State, step: Step, q: Queue)
    requires Enabled(s, step) && Counts(s, step, q) && !s.cpus[step.c].prev.Parked?
    ensures !Blocking(Apply(s, step).cpus[step.c], q)
  {
  }

  lemma CountStep(s: State, step: Step, q: Queue)
    requires Shape(s) && Enabled(s, step) && LockOk(s, q) && CountOk(s, q)
    ensures CountOk(Apply(s, step), q)
  {
    var s' := Apply(s, step);
    if q in s.queues && s.queues[q].sem {
      if Counts(s, step, q) { CountMoves(s, step, q); } else { CountStays(s, step, q); }
      forall c | c in s'.cpus ensures Blocking(s'.cpus[c], q) ==> s'.queues[q].count <= 0 {
        if Counts(s, step, q) {
          NobodyBlocks(s, step, q, c);
        } else if step.NewQueue? || c != step.c {
          StepMovesOneCpu(s, step, c);
        } else if !step.InitCpu? {
          assert GoodCpu(s, c, s.cpus[c]);
          if Blocking(s'.cpus[c], q) { ActorBlocking(s, step, q); }
        }
      }
    } else if q in s'.queues && s'.queues[q].sem {
      StepKeepsKinds(s, step);
      QueueBorn(s, step, q);
    }
  }

  lemma QueueBorn(s: State, step: Step, q: Queue)
    requires Enabled(s, step) && q !in s.queues && q in Apply(s, step).queues && LockOk(s, q)
    ensures step.NewQueue? && CountOk(Apply(s, step), q)
  {
    if !step.NewQueue? { QueuesKept(s, step, q); }
  }

  // ---- no lost wake-ups ----

  /** On the way from the waker's pop to the next look at the count. */
  predicate EnrouteAt(s: State, l: Place, q: Queue) {
    match l
    case OnCpu(c) =>
      c in s.cpus && (s.cpus[c].mode.Committed? || s.cpus[c].mode.Switched?
                      || s.cpus[c].mode == Spin(SemWait(q)) || s.cpus[c].mode == Crit(SemWait(q)))
    case InHand(_, _) => true
    case InReady(_) => true
    case InPick(_) => true
    case _ => false
  }

  ghost predicate Enroute(s: State, t: Task, q: Queue) {
    t.Thread? && OpOf(s, t) == SemWait(q) && exists l :: Occupies(s, t, l) && EnrouteAt(s, l, q)
  }

  /** Every woken thread is on its way to check the count again, and while a thread is blocked
      there are at least as many of them as tokens. */
  ghost predicate WokenOk(s: State, q: Queue) {
    q in s.queues ==>
      && (forall t :: t in s.queues[q].woken ==> Enroute(s, t, q))
      && (s.queues[q].sem && s.queues[q].list != [] ==> s.queues[q].count <= |s.queues[q].woken|)
  }

  /** The steps by which the acting CPU's current thread looks at the count of `q`. */
  predicate Rechecks(s: State, step: Step, t: Task, q: Queue) {
    (step.Take? || step.Pick?) && step.c in s.cpus && s.cpus[step.c].current == t && s.cpus[step.c].mode == Crit(SemWait(q))
  }

  lemma EnrouteKept(s: State, step: Step, t: Task, l: Place, q: Queue)
    requires Enabled(s, step) && t.Thread? && Occupies(s, t, l) && EnrouteAt(s, l, q) && OpOf(s, t) == SemWait(q)
    requires !step.NewQueue? && !step.InitCpu? ==> GoodCpu(s, step.c, s.cpus[step.c])
    requires !Rechecks(s, step, t, q)
    ensures EnrouteAt(Apply(s, step), Fwd(s, step, l), q)
  {
    if l.OnCpu? { EnrouteCpu(s, step, t, l.c, q); }
  }

  lemma EnrouteCpu(s: State, step: Step, t: Task, c: Cpu, q: Queue)
    requires Enabled(s, step) && Occupies(s, t, OnCpu(c)) && EnrouteAt(s, OnCpu(c), q) && OpOf(s, t) == SemWait(q)
    requires !step.NewQueue? && !step.InitCpu? ==> GoodCpu(s, step.c, s.cpus[step.c])
    requires !Rechecks(s, step, t, q)
    ensures EnrouteAt(Apply(s, step), Fwd(s, step, OnCpu(c)), q)
  {
  }

  lemma EnrouteOp(s: State, step: Step, t: Task, l: Place, q: Queue)
    requires PlacesInv(s) && OpsInv(s) && Enabled(s, step) && t.Thread? && Occupies(s, t, l) && EnrouteAt(s, l, q)
    requires OpOf(s, t) == SemWait(q) && !Rechecks(s, step, t, q)
    ensures OpOf(Apply(s, step), t) == SemWait(q)
  {
    assert t in s.spawned;
    if !step.NewQueue? && !step.InitCpu? && s.cpus[step.c].current == t {
      assert Occupies(s, t, OnCpu(step.c)) && l == OnCpu(step.c);
      EnrouteActor(s, step, t, q);
    } else {
      OpStays(s, step, t);
    }
  }

  lemma EnrouteActor(s: State, step: Step, t: Task, q: Queue)
    requires Enabled(s, step) && !step.NewQueue? && !step.InitCpu? && s.cpus[step.c].current == t
    requires OpOf(s, t) == SemWait(q) && EnrouteAt(s, OnCpu(step.c), q) && !Rechecks(s, step, t, q)
    requires step.Spawn? ==> step.t != t
    ensures OpOf(Apply(s, step), t) == SemWait(q)
  {
  }

  lemma EnrouteStep(s: State, step: Step, t: Task, q: Queue)
    requires PlacesInv(s) && OpsInv(s) && Enabled(s, step) && Enroute(s, t, q) && !Rechecks(s, step, t, q)
    ensures Enroute(Apply(s, step), t, q)
  {
    var l :| Occupies(s, t, l) && EnrouteAt(s, l, q);
    if !step.NewQueue? && !step.InitCpu? { assert GoodCpu(s, step.c, s.cpus[step.c]); }
    EnrouteKept(s, step, t, l, q);
    StaysSomewhere(s, step, t, l);
    EnrouteOp(s, step, t, l, q);
  }

  /** What a step does to the history of woken threads: a post adds the head of the list, a check of
      the count removes the checking thread, nothing else touches it. */
  lemma WokenChange(s: State, step: Step, q: Queue)
    requires Enabled(s, step) && q in s.queues && s.queues[q].sem
    requires !step.NewQueue? && !step.InitCpu? ==> GoodCpu(s, step.c, s.cpus[step.c])
    ensures q in Apply(s, step).queues
    ensures var (w, w') := (s.queues[q], Apply(s, step).queues[q]);
      if Counts(s, step, q) && step.Give?
      then w'.woken == w.woken + (if w.list == [] then {} else {w.list[0]}) && w'.list == Tail(w.list)
      else w'.woken == w.woken - (if !step.NewQueue? && !step.InitCpu? && Rechecks(s, step, s.cpus[step.c].current, q)
                                  then {s.cpus[step.c].current} else {})
           && (w'.list == w.list || (step.Finish? && Blocking(s.cpus[step.c], q)))
  {
  }

  lemma PostWakes(s: State, step: Step, q: Queue)
    requires PlacesInv(s) && OpsInv(s) && Enabled(s, step) && q in s.queues && s.queues[q].sem
    requires Counts(s, step, q) && step.Give? && s.queues[q].list != []
    ensures Enroute(Apply(s, step), s.queues[q].list[0], q) && !Enroute(s, s.queues[q].list[0], q)
  {
    var t := s.queues[q].list[0];
    assert Occupies(s, t, InList(q, 0));
    assert t.Thread? && OpOf(s, t) == SemWait(q);
    forall l | Occupies(s, t, l) ensures !EnrouteAt(s, l, q) { assert l == InList(q, 0); }
    StaysSomewhere(s, step, t, InList(q, 0));
    assert GoodCpu(s, step.c, s.cpus[step.c]);
    assert s.cpus[step.c].current != t by {
      if s.cpus[step.c].current == t { assert Occupies(s, t, OnCpu(step.c)); }
    }
    OpStays(s, step, t);
    assert Fwd(s, step, InList(q, 0)) == InHand(step.c, 0);
    assert EnrouteAt(Apply(s, step), InHand(step.c, 0), q);
  }

  lemma WokenMembers(s: State, step: Step, q: Queue, t: Task)
    requires PlacesInv(s) && OpsInv(s) && Enabled(s, step) && WokenOk(s, q) && q in s.queues && s.queues[q].sem
    requires q in Apply(s, step).queues && t in Apply(s, step).queues[q].woken
    ensures Enroute(Apply(s, step), t, q)
  {
    if t in s.queues[q].woken {
      WokenNotRechecking(s, step, t, q);
      EnrouteStep(s, step, t, q);
    } else {
      if !step.NewQueue? && !step.InitCpu? { assert GoodCpu(s, step.c, s.cpus[step.c]); }
      WokenChange(s, step, q);
      PostWakes(s, step, q);
    }
  }

  lemma RecheckFinds(s: State, step: Step, q: Queue)
    requires Enabled(s, step) && !step.NewQueue? && !step.InitCpu? && q in s.queues
    requires Rechecks(s, step, s.cpus[step.c].current, q)
    ensures Counts(s, step, q) || s.queues[q].count <= 0
  {
  }

  lemma WokenEnough(s: State, step: Step, q: Queue)
    requires Enabled(s, step) && CountOk(s, q) && q in s.queues && s.queues[q].sem
    requires !step.NewQueue? && !step.InitCpu? ==> GoodCpu(s, step.c, s.cpus[step.c])
    requires s.queues[q].list != [] ==> s.queues[q].count <= |s.queues[q].woken|
    requires Counts(s, step, q) && step.Give? && s.queues[q].list != [] ==> s.queues[q].list[0] !in s.queues[q].woken
    requires q in Apply(s, step).queues && Apply(s, step).queues[q].list != []
    ensures Apply(s, step).queues[q].count <= |Apply(s, step).queues[q].woken|
  {
    var (w, w') := (s.queues[q], Apply(s, step).queues[q]);
    WokenChange(s, step, q);
    if Counts(s, step, q) {
      CountMoves(s, step, q);
    } else {
      CountStays(s, step, q);
      if !step.NewQueue? && !step.InitCpu? && Rechecks(s, step, s.cpus[step.c].current, q) { RecheckFinds(s, step, q); }
    }
  }

  lemma WokenStep(s: State, step: Step, q: Queue)
    requires PlacesInv(s) && OpsInv(s) && Enabled(s, step) && CountOk(s, q) && WokenOk(s, q)
    requires q in s.queues && s.queues[q].sem
    ensures WokenOk(Apply(s, step), q)
  {
    var s' := Apply(s, step);
    StepKeepsKinds(s, step);
    forall t | t in s'.queues[q].woken ensures Enroute(s', t, q) { WokenMembers(s, step, q, t); }
    if s'.queues[q].list != [] {
      if Counts(s, step, q) && step.Give? && s.queues[q].list != [] { PostWakes(s, step, q); }
      if !step.NewQueue? && !step.InitCpu? { assert GoodCpu(s, step.c, s.cpus[step.c]); }
      WokenEnough(s, step, q);
    }
  }

  lemma WokenNotRechecking(s: State, step: Step, t: Task, q: Queue)
    requires Enabled(s, step) && q in s.queues && s.queues[q].sem && t in s.queues[q].woken
    requires q in Apply(s, step).queues && t in Apply(s, step).queues[q].woken
    ensures !Rechecks(s, step, t, q)
  {
  }

  // ---- every run ----

  ghost predicate SemInv(s: State) {
    && PlacesInv(s) && OpsInv(s)
    && (forall q :: LockOk(s, q) && CountOk(s, q) && WokenOk(s, q))
    && (forall q :: q in s.queues && !s.queues[q].sem ==> s.queues[q].woken == {})
  }

  lemma PlainQueueStep(s: State, step: Step, q: Queue)
    requires Enabled(s, step) && q in Apply(s, step).queues && !Apply(s, step).queues[q].sem
    requires !step.NewQueue? && !step.InitCpu? ==> GoodCpu(s, step.c, s.cpus[step.c])
    requires q in s.queues ==> !s.queues[q].sem && s.queues[q].woken == {}
    ensures Apply(s, step).queues[q].woken == {}
  {
  }

  lemma QueueStep(s: State, step: Step, q: Queue)
    requires SemInv(s) && Enabled(s, step) && q in Apply(s, step).queues
    ensures WokenOk(Apply(s, step), q) && (!Apply(s, step).queues[q].sem ==> Apply(s, step).queues[q].woken == {})
  {
    StepKeepsKinds(s, step);
    if q in s.queues && s.queues[q].sem {
      WokenStep(s, step, q);
    } else if q in s.queues {
      if !step.NewQueue? && !step.InitCpu? { assert GoodCpu(s, step.c, s.cpus[step.c]); }
      PlainQueueStep(s, step, q);
    } else {
      QueueBorn(s, step, q);
    }
  }

  lemma SemStep(s: State, step: Step)
    requires SemInv(s) && Enabled(s, step)
    ensures SemInv(Apply(s, step))
  {
    var s' := Apply(s, step);
    PlacesStep(s, step);
    OpsStep(s, step);
    forall q ensures LockOk(s', q) && CountOk(s', q) { LockStep(s, step, q); CountStep(s, step, q); }
    forall q | q in s'.queues ensures WokenOk(s', q) && (!s'.queues[q].sem ==> s'.queues[q].woken == {}) {
      QueueStep(s, step, q);
    }
  }

  lemma {:induction false} SemRun(s: State, steps: seq<Step>)
    requires SemInv(s) && IsRun(s, steps)
    ensures SemInv(After(s, steps))
    decreases |steps|
  {
    if steps != [] {
      SemStep(s, steps[0]);
      SemRun(Apply(s, steps[0]), steps[1..]);
    }
  }

  /** In every run the lock of a queue is held by exactly one CPU when it is taken, by none otherwise. */
  lemma LockHeldOnce(steps: seq<Step>, q: Queue)
    requires IsRun(Init(), steps) && q in After(Init(), steps).queues
    ensures var s := After(Init(), steps);
      s.queues[q].locked <==>
      (exists c :: c in s.cpus && Holds(s.cpus[c], q) && forall c' :: c' in s.cpus && Holds(s.cpus[c'], q) ==> c' == c)
  {
    SemRun(Init(), steps);
    var s := After(Init(), steps);
    assert LockOk(s, q);
    if s.queues[q].locked { var c :| c in s.cpus && Holds(s.cpus[c], q); }
  }

  /** In every run a semaphore's count is its initial value plus posts minus completed waits and never
      falls below zero (nor below a negative initial value). */
  lemma CountConserved(steps: seq<Step>, q: Queue)
    requires IsRun(Init(), steps) && q in After(Init(), steps).queues && After(Init(), steps).queues[q].sem
    ensures var w := After(Init(), steps).queues[q];
      w.count == w.initial + w.posts - w.takes && w.count >= Min(w.initial, 0)
  {
    SemRun(Init(), steps);
    assert CountOk(After(Init(), steps), q);
  }

  /** In every run, while a thread is blocked on a semaphore there are at least as many woken threads on
      their way to look at the count again as there are tokens. */
  lemma TokensCovered(steps: seq<Step>, q: Queue)
    requires IsRun(Init(), steps) && q in After(Init(), steps).queues && After(Init(), steps).queues[q].sem
    ensures var s := After(Init(), steps);
      && (forall t :: t in s.queues[q].woken ==> Enroute(s, t, q))
      && (s.queues[q].list != [] ==> s.queues[q].count <= |s.queues[q].woken|)
  {
    SemRun(Init(), steps);
    assert WokenOk(After(Init(), steps), q);
  }

  /** Nothing is being scheduled or woken: no CPU is inside the scheduler and nobody is ready. */
  ghost predicate Quiescent(s: State) {
    s.ready == [] && forall c :: c in s.cpus ==> s.cpus[c].mode == User
  }

  /** No lost wake-up: a run never comes to rest with a token left and a thread asleep for it. */
  lemma NoLostWakeup(steps: seq<Step>, q: Queue)
    requires IsRun(Init(), steps) && q in After(Init(), steps).queues && After(Init(), steps).queues[q].sem
    requires Quiescent(After(Init(), steps)) && After(Init(), steps).queues[q].count > 0
    ensures After(Init(), steps).queues[q].list == []
  {
    SemRun(Init(), steps);
    var s := After(Init(), steps);
    assert WokenOk(s, q);
    forall t ensures !Enroute(s, t, q) {
      forall l | Occupies(s, t, l) ensures !EnrouteAt(s, l, q) { }
    }
    assert s.queues[q].woken == {};
  }

  // ---- progress ----

  /** A step that CPU `c` itself takes. */
  predicate StepOf(step: Step, c: Cpu) { !step.NewQueue? && !step.InitCpu? && step.c == c }

  /** Inside the scheduler, a CPU that is not spinning can always go on. */
  lemma GoesOn(s: State, c: Cpu)
    requires Shape(s) && c in s.cpus && !s.cpus[c].mode.User? && !s.cpus[c].mode.Spin?
    ensures exists step :: StepOf(step, c) && Enabled(s, step)
  {
    assert GoodCpu(s, c, s.cpus[c]);
    var step := match s.cpus[c].mode
      case Crit(op) =>
        (match op
         case Wait(_) => Decline(c)
         case SemWait(q) => if s.queues[q].count > 0 then Take(c) else Pick(c, ToWait(q))
         case _ => Give(c))
      case Waking(hand) => if hand == [] then EndWake(c) else MakeReady(c)
      case Picked(_, _) => Commit(c)
      case Committed => Switch(c)
      case _ => Finish(c);
    assert StepOf(step, c) && Enabled(s, step);
  }

  /** In every run, a CPU inside the scheduler can take a step, or it spins for a raw lock and the CPU that holds this
      lock can take one: the scheduler does not deadlock. */
  lemma NoDeadlock(steps: seq<Step>, c: Cpu)
    requires IsRun(Init(), steps) && c in After(Init(), steps).cpus && !After(Init(), steps).cpus[c].mode.User?
    ensures var s := After(Init(), steps);
      || (exists step :: StepOf(step, c) && Enabled(s, step))
      || (s.cpus[c].mode.Spin? && s.cpus[c].mode.op != NoOp && exists d, step ::
            d in s.cpus && Holds(s.cpus[d], s.cpus[c].mode.op.q) && StepOf(step, d) && Enabled(s, step))
  {
    SemRun(Init(), steps);
    var s := After(Init(), steps);
    if !s.cpus[c].mode.Spin? {
      GoesOn(s, c);
    } else {
      assert GoodCpu(s, c, s.cpus[c]);
      var q := s.cpus[c].mode.op.q;
      if s.queues[q].locked {
        assert LockOk(s, q);
        var d :| d in s.cpus && Holds(s.cpus[d], q);
        GoesOn(s, d);
      } else {
        assert StepOf(Lock(c), c) && Enabled(s, Lock(c));
      }
    }
  }

  // ---- tokens, counted over the run ----

  /** What a step adds to the count of `q`: a token for a post that is carried out, minus one for a wait that ends. */
  function Tokens(s: State, step: Step, q: Queue): int
    requires Enabled(s, step)
  {
    match step
    case NewQueue(p, _, n) => if p == q then n else 0
    case Give(c) => if s.cpus[c].mode.op == Post(q) then 1 else 0
    case Take(c) => if s.cpus[c].mode.op == SemWait(q) then -1 else 0
    case _ => 0
  }

  ghost function AllTokens(s: State, steps: seq<Step>, q: Queue): int
    requires IsRun(s, steps)
    decreases |steps|
  {
    if steps == [] then 0 else Tokens(s, steps[0], q) + AllTokens(Apply(s, steps[0]), steps[1..], q)
  }

  function CountOf(s: State, q: Queue): int { if q in s.queues then s.queues[q].count else 0 }

  lemma TokensStep(s: State, step: Step, q: Queue)
    requires Enabled(s, step)
    ensures CountOf(Apply(s, step), q) == CountOf(s, q) + Tokens(s, step, q)
  {
  }

  lemma {:induction false} TokensFrom(s: State, steps: seq<Step>, q: Queue)
    requires IsRun(s, steps)
    ensures CountOf(After(s, steps), q) == CountOf(s, q) + AllTokens(s, steps, q)
    decreases |steps|
  {
    if steps != [] {
      TokensStep(s, steps[0], q);
      TokensFrom(Apply(s, steps[0]), steps[1..], q);
    }
  }

  /** In every run the count of a semaphore is its initial value, plus one for every post and minus one for every
      wait that ended. */
  lemma TokensRun(steps: seq<Step>, q: Queue)
    requires IsRun(Init(), steps)
    ensures CountOf(After(Init(), steps), q) == AllTokens(Init(), steps, q)
  {
    TokensFrom(Init(), steps, q);
  }
}
