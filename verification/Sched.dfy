/** The SMP scheduler of kor-sched as a step relation.

    Any number of CPUs and tasks; every step is one atomic action of one CPU.  A section that runs
    under a spin lock held for a single queue operation is one step; everything else (picking the
    next task, committing it, switching contexts, publishing the outgoing task, acquiring a wait
    queue's raw lock, the critical section itself, each `make_ready`) is a step of its own, so the
    other CPUs may interleave between any two of them.

    No guard below mentions saved contexts or the uniqueness of a task's place: those are proved. */
module Sched {

  type Cpu = nat
  type Queue = nat

  /** A task is one `Arc<Task>`: the fallback task of a CPU (id 0) or a spawned thread. */
  datatype Task = Idle(home: Cpu) | Thread(id: nat)

  /** The deferred transition that `finish_switch` applies to the outgoing task. */
  datatype Action = ToReady | ToSleep | ToZombie | ToWait(q: Queue)

  /** What a task is doing to a wait queue; it survives a context switch in the task's own stack. */
  datatype Op = NoOp | Wait(q: Queue) | SemWait(q: Queue) | Post(q: Queue) | WakeOne(q: Queue) | WakeAll(q: Queue)

  /** Where a CPU is inside the scheduler; everything but `User` runs with interrupts disabled. */
  datatype Mode =
    | User
    | Spin(op: Op)                          // raw_lock: spinning for the queue's lock
    | Crit(op: Op)                          // the queue's lock is held
    | Waking(hand: seq<Task>)               // lock released, the popped tasks not yet made ready
    | Picked(next: Task, action: Action)    // schedule: pick_next has returned
    | Committed                             // schedule: `prev` and `current` stored, not switched yet
    | Switched                              // on the incoming stack, finish_switch still to run

  datatype Outgoing = Nobody | Parked(task: Task, action: Action)

  /** `live` is the task whose stack and registers the CPU really executes on. */
  datatype CpuState = CpuState(current: Task, prev: Outgoing, mode: Mode, live: Task)

  /** A wait queue, with the count of its semaphore when it belongs to one.
      `initial`, `posts`, `takes` and `woken` are history: they guard nothing. */
  datatype WaitQueue = WaitQueue(
    sem: bool, locked: bool, list: seq<Task>, count: int,
    initial: int, posts: nat, takes: nat, woken: set<Task>)

  /** `freed` lists the tasks whose stacks `reap` has released; `saved` the contexts stored in memory. */
  datatype State = State(
    cpus: map<Cpu, CpuState>,
    ready: seq<Task>, sleepers: seq<Task>, zombies: seq<Task>, freed: seq<Task>,
    queues: map<Queue, WaitQueue>,
    op: map<Task, Op>,
    saved: set<Task>,
    spawned: set<Task>)

  datatype Step =
    | InitCpu(c: Cpu)
    | NewQueue(q: Queue, sem: bool, initial: int)
    | Spawn(c: Cpu, t: Task)
    | Begin(c: Cpu, op: Op)
    | Lock(c: Cpu)
    | Decline(c: Cpu)
    | Take(c: Cpu)
    | Give(c: Cpu)
    | MakeReady(c: Cpu)
    | EndWake(c: Cpu)
    | Pick(c: Cpu, action: Action)
    | Commit(c: Cpu)
    | Switch(c: Cpu)
    | Finish(c: Cpu)
    | WakeSleeper(c: Cpu, i: nat)
    | Reap(c: Cpu)

  function Init(): State {
    State(map[], [], [], [], [], map[], map[], {}, {})
  }

  function OpOf(s: State, t: Task): Op { if t in s.op then s.op[t] else NoOp }

  function SetCpu(s: State, c: Cpu, cs: CpuState): State { s.(cpus := s.cpus[c := cs]) }

  /** `pick_next`: the head of the ready queue, or this CPU's fallback task. */
  function NextTask(s: State, c: Cpu): Task { if s.ready == [] then Idle(c) else s.ready[0] }

  function Tail(q: seq<Task>): seq<Task> { if q == [] then [] else q[1..] }

  /** `Vec::swap_remove`. */
  function SwapRemove(v: seq<Task>, i: nat): seq<Task>
    requires i < |v|
  {
    if i == |v| - 1 then v[..i] else v[i := v[|v| - 1]][..|v| - 1]
  }

  /** The tasks a waker takes out of the list under the lock. */
  function Popped(op: Op, list: seq<Task>): seq<Task> {
    if op.WakeAll? then list else if list == [] then [] else [list[0]]
  }

  function Rest(op: Op, list: seq<Task>): seq<Task> {
    if op.WakeAll? then [] else Tail(list)
  }

  predicate IsWaker(op: Op) { op.Post? || op.WakeOne? || op.WakeAll? }

  predicate At(s: State, c: Cpu, m: Mode) { c in s.cpus && s.cpus[c].mode == m }

  /** May the CPU call `schedule(action)` here, and on whose behalf. Only threads sleep, exit or block. */
  predicate MayPick(s: State, c: Cpu, action: Action)
    requires c in s.cpus
  {
    var cs := s.cpus[c];
    match action
    case ToReady => cs.mode == User
    case ToSleep => cs.mode == User && cs.current.Thread?
    case ToZombie => cs.mode == User && cs.current.Thread?
    case ToWait(q) =>
      && cs.current.Thread? && q in s.queues
      && (cs.mode == Crit(Wait(q)) || (cs.mode == Crit(SemWait(q)) && s.queues[q].count <= 0))
  }

  predicate MayBegin(s: State, c: Cpu, op: Op)
    requires c in s.cpus
  {
    && s.cpus[c].mode == User
    && op != NoOp && op.q in s.queues
    && (s.queues[op.q].sem <==> op.SemWait? || op.Post?)
    && (op.Wait? || op.SemWait? ==> s.cpus[c].current.Thread?)
  }

  predicate Enabled(s: State, step: Step) {
    match step
    case InitCpu(c) => c !in s.cpus
    case NewQueue(q, _, _) => q !in s.queues
    case Spawn(c, t) => At(s, c, User) && t.Thread? && t !in s.spawned
    case Begin(c, op) => c in s.cpus && MayBegin(s, c, op)
    case Lock(c) =>
      c in s.cpus && s.cpus[c].mode.Spin? && var op := s.cpus[c].mode.op;
      op != NoOp && op.q in s.queues && !s.queues[op.q].locked
    case Decline(c) =>
      c in s.cpus && s.cpus[c].mode.Crit? && var op := s.cpus[c].mode.op; op.Wait? && op.q in s.queues
    case Take(c) =>
      c in s.cpus && s.cpus[c].mode.Crit? && var op := s.cpus[c].mode.op;
      op.SemWait? && op.q in s.queues && s.queues[op.q].count > 0
    case Give(c) =>
      c in s.cpus && s.cpus[c].mode.Crit? && var op := s.cpus[c].mode.op; IsWaker(op) && op.q in s.queues
    case MakeReady(c) => c in s.cpus && s.cpus[c].mode.Waking? && s.cpus[c].mode.hand != []
    case EndWake(c) => At(s, c, Waking([]))
    case Pick(c, action) => c in s.cpus && MayPick(s, c, action)
    case Commit(c) => c in s.cpus && s.cpus[c].mode.Picked?
    case Switch(c) => At(s, c, Committed)
    case Finish(c) => At(s, c, Switched)
    case WakeSleeper(c, i) => At(s, c, User) && i < |s.sleepers|
    case Reap(c) => At(s, c, User)
  }

  function ApplyTake(s: State, c: Cpu): State
    requires Enabled(s, Take(c))
  {
    var cs := s.cpus[c];
    var q := cs.mode.op.q;
    var wq := s.queues[q];
    SetCpu(s, c, cs.(mode := User)).(
      queues := s.queues[q := wq.(count := wq.count - 1, takes := wq.takes + 1, locked := false,
                                   woken := wq.woken - {cs.current})],
      op := s.op[cs.current := NoOp])
  }

  function ApplyGive(s: State, c: Cpu): State
    requires Enabled(s, Give(c))
  {
    var cs := s.cpus[c];
    var op := cs.mode.op;
    var wq := s.queues[op.q];
    var hand := Popped(op, wq.list);
    var wq' := wq.(list := Rest(op, wq.list), locked := false);
    var wq'' := if op.Post?
                then wq'.(count := wq.count + 1, posts := wq.posts + 1, woken := wq.woken + set t | t in hand)
                else wq';
    SetCpu(s, c, cs.(mode := Waking(hand))).(queues := s.queues[op.q := wq''], op := s.op[cs.current := NoOp])
  }

  /** `schedule` up to and including `pick_next`.  A plain wait is over once the task resumes; a
      semaphore wait is not (the loop checks the count again). */
  function ApplyPick(s: State, c: Cpu, action: Action): State
    requires Enabled(s, Pick(c, action))
  {
    var cs := s.cpus[c];
    var s1 := SetCpu(s, c, cs.(mode := Picked(NextTask(s, c), action))).(ready := Tail(s.ready));
    if !action.ToWait? then s1
    else if cs.mode.op.Wait? then s1.(op := s.op[cs.current := NoOp])
    else s1.(queues := s.queues[action.q := s.queues[action.q].(woken := s.queues[action.q].woken - {cs.current})])
  }

  function ApplyCommit(s: State, c: Cpu): State
    requires Enabled(s, Commit(c))
  {
    var cs := s.cpus[c];
    if cs.current == cs.mode.next && cs.mode.action == ToReady then SetCpu(s, c, cs.(mode := User))
    else SetCpu(s, c, CpuState(cs.mode.next, Parked(cs.current, cs.mode.action), Committed, cs.live))
  }

  function ApplySwitch(s: State, c: Cpu): State
    requires Enabled(s, Switch(c))
  {
    var cs := s.cpus[c];
    var out := if cs.prev.Parked? then {cs.prev.task} else {};
    SetCpu(s, c, cs.(mode := Switched, live := cs.current)).(saved := s.saved + out - {cs.current})
  }

  /** `finish_switch`, run by the incoming task; a resumed semaphore wait goes back to the lock. */
  function ApplyFinish(s: State, c: Cpu): State
    requires Enabled(s, Finish(c))
  {
    var cs := s.cpus[c];
    var op := OpOf(s, cs.current);
    var s1 := SetCpu(s, c, cs.(prev := Nobody, mode := if op.SemWait? then Spin(op) else User));
    match cs.prev
    case Nobody => s1
    case Parked(t, ToReady) => if t.Idle? then s1 else s1.(ready := s.ready + [t])
    case Parked(t, ToSleep) => s1.(sleepers := s.sleepers + [t])
    case Parked(t, ToZombie) => s1.(zombies := s.zombies + [t])
    case Parked(t, ToWait(q)) =>
      if q in s.queues
      then s1.(queues := s.queues[q := s.queues[q].(list := s.queues[q].list + [t], locked := false)])
      else s1
  }

  function Apply(s: State, step: Step): State
    requires Enabled(s, step)
  {
    match step
    case InitCpu(c) => SetCpu(s, c, CpuState(Idle(c), Nobody, User, Idle(c))).(saved := s.saved - {Idle(c)})
    case NewQueue(q, sem, n) => s.(queues := s.queues[q := WaitQueue(sem, false, [], n, n, 0, 0, {})])
    case Spawn(c, t) =>
      s.(ready := s.ready + [t], spawned := s.spawned + {t}, saved := s.saved + {t}, op := s.op[t := NoOp])
    case Begin(c, op) => SetCpu(s, c, s.cpus[c].(mode := Spin(op))).(op := s.op[s.cpus[c].current := op])
    case Lock(c) =>
      var op := s.cpus[c].mode.op;
      SetCpu(s, c, s.cpus[c].(mode := Crit(op))).(queues := s.queues[op.q := s.queues[op.q].(locked := true)])
    case Decline(c) =>
      var q := s.cpus[c].mode.op.q;
      SetCpu(s, c, s.cpus[c].(mode := User)).(
        queues := s.queues[q := s.queues[q].(locked := false)], op := s.op[s.cpus[c].current := NoOp])
    case Take(c) => ApplyTake(s, c)
    case Give(c) => ApplyGive(s, c)
    case MakeReady(c) =>
      var hand := s.cpus[c].mode.hand;
      SetCpu(s, c, s.cpus[c].(mode := Waking(hand[1..]))).(ready := s.ready + [hand[0]])
    case EndWake(c) => SetCpu(s, c, s.cpus[c].(mode := User))
    case Pick(c, action) => ApplyPick(s, c, action)
    case Commit(c) => ApplyCommit(s, c)
    case Switch(c) => ApplySwitch(s, c)
    case Finish(c) => ApplyFinish(s, c)
    case WakeSleeper(c, i) => s.(sleepers := SwapRemove(s.sleepers, i), ready := s.ready + [s.sleepers[i]])
    case Reap(c) => s.(zombies := [], freed := s.freed + s.zombies)
  }

  /** A run: every step is enabled where it is taken. */
  ghost predicate IsRun(s: State, steps: seq<Step>)
    decreases |steps|
  {
    steps == [] || (Enabled(s, steps[0]) && IsRun(Apply(s, steps[0]), steps[1..]))
  }

  ghost function After(s: State, steps: seq<Step>): State
    requires IsRun(s, steps)
    decreases |steps|
  {
    if steps == [] then s else After(Apply(s, steps[0]), steps[1..])
  }
}
