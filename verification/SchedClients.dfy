/** `sync::Mutex` and `sync::Channel` as programs run by the threads of the scheduler: the joint
    runs of the scheduler and its clients.

    The deque of a channel is read and written in two separate steps, so an item would be lost if two
    threads could be inside the channel's mutex. */
module SchedClients {
  import opened Sched
  import opened SchedPlaces
  import opened SchedSem

  type Item = int
  type Ch = nat

  datatype Why = ForUser | ForSend(ch: Ch, x: Item) | ForRecv(ch: Ch)

  datatype Seen = Unread | Read(items: seq<Item>)

  /** The item that `recv` took out of the deque. */
  datatype Got = Nothing | Some(x: Item)

  /** How far a thread is in a mutex or channel call. */
  datatype Stage =
    | Out
    | Locking(m: Queue, why: Why)               // Mutex::lock, in sem.wait
    | Holding(m: Queue, why: Why, seen: Seen)   // the guard is alive
    | Dropping(m: Queue, why: Why, got: Got)    // the guard is being dropped, in sem.post
    | Posting(ch: Ch)                           // Channel::send, in items.post
    | Awaiting(ch: Ch)                          // Channel::recv, in items.wait
    | Returned(x: Item)                         // Channel::recv has returned this item
    | Panicked                                  // `expect("channel item missing")` fired

  /** `pushed` and `popped` are the history of the channel. */
  datatype Chan = Chan(lock: Queue, items: Queue, queue: seq<Item>, pushed: seq<Item>, popped: seq<Item>)

  datatype Clients = Clients(stage: map<Task, Stage>, mutexes: set<Queue>, chans: map<Ch, Chan>)

  datatype World = World(sys: State, k: Clients)

  datatype Move = CallLock(m: Queue) | CallSend(ch: Ch, x: Item) | CallRecv(ch: Ch) | DropGuard | ReadDeque | WriteDeque

  datatype JStep =
    | Sys(step: Step)
    | NewMutex(m: Queue)
    | NewChannel(ch: Ch, m: Queue, items: Queue)
    | Client(c: Cpu, move: Move)

  function StageOf(k: Clients, t: Task): Stage { if t in k.stage then k.stage[t] else Out }

  predicate IsItems(k: Clients, q: Queue) { exists ch :: ch in k.chans && k.chans[ch].items == q }

  predicate Owned(k: Clients, q: Queue) { q in k.mutexes || IsItems(k, q) }

  /** The semaphore the thread's call is waiting on, or posting to. */
  predicate WaitsOn(k: Clients, st: Stage, q: Queue) {
    (st.Locking? && st.m == q) || (st.Awaiting? && st.ch in k.chans && k.chans[st.ch].items == q)
  }

  predicate PostsTo(k: Clients, st: Stage, q: Queue) {
    (st.Dropping? && st.m == q) || (st.Posting? && st.ch in k.chans && k.chans[st.ch].items == q)
  }

  function AfterTake(k: Clients, st: Stage): Stage {
    if st.Locking? then Holding(st.m, st.why, Unread)
    else if st.Awaiting? && st.ch in k.chans then Locking(k.chans[st.ch].lock, ForRecv(st.ch))
    else st
  }

  function AfterGive(st: Stage): Stage {
    if st.Dropping? && st.why.ForSend? then Posting(st.why.ch)
    else if st.Dropping? && st.why.ForRecv? && st.got.Some? then Returned(st.got.x)
    else Out
  }

  // ---- the joint steps ----

  predicate SysEnabled(w: World, step: Step) {
    && Enabled(w.sys, step)
    && (step.Begin? && Owned(w.k, step.op.q) ==>
          var st := StageOf(w.k, w.sys.cpus[step.c].current);
          (step.op.SemWait? && WaitsOn(w.k, st, step.op.q)) || (step.op.Post? && PostsTo(w.k, st, step.op.q)))
  }

  predicate BetweenCalls(st: Stage) { st.Out? || st.Returned? }

  predicate MoveEnabled(k: Clients, st: Stage, move: Move) {
    match move
    case CallLock(m) => BetweenCalls(st) && m in k.mutexes
    case CallSend(ch, x) => BetweenCalls(st) && ch in k.chans
    case CallRecv(ch) => BetweenCalls(st) && ch in k.chans
    case DropGuard => st.Holding? && st.why.ForUser?
    case ReadDeque => st.Holding? && !st.why.ForUser? && st.seen.Unread? && st.why.ch in k.chans
    case WriteDeque => st.Holding? && !st.why.ForUser? && st.seen.Read? && st.why.ch in k.chans
  }

  predicate JEnabled(w: World, j: JStep) {
    match j
    case Sys(step) => SysEnabled(w, step)
    case NewMutex(m) => m !in w.sys.queues
    case NewChannel(ch, m, items) => ch !in w.k.chans && m !in w.sys.queues && items !in w.sys.queues && m != items
    case Client(c, move) =>
      At(w.sys, c, User) && w.sys.cpus[c].current.Thread? && MoveEnabled(w.k, StageOf(w.k, w.sys.cpus[c].current), move)
  }

  /** The channel and the stage after the deque is written back. */
  function Written(chan: Chan, st: Stage): (r: (Chan, Stage))
    requires st.Holding? && !st.why.ForUser? && st.seen.Read?
  {
    var seen := st.seen.items;
    if st.why.ForSend? then
      (chan.(queue := seen + [st.why.x], pushed := chan.pushed + [st.why.x]), Dropping(st.m, st.why, Nothing))
    else if seen == [] then (chan, Panicked)
    else (chan.(queue := seen[1..], popped := chan.popped + [seen[0]]), Dropping(st.m, st.why, Some(seen[0])))
  }

  function ApplyMove(k: Clients, t: Task, move: Move): Clients
    requires MoveEnabled(k, StageOf(k, t), move)
  {
    var st := StageOf(k, t);
    match move
    case CallLock(m) => k.(stage := k.stage[t := Locking(m, ForUser)])
    case CallSend(ch, x) => k.(stage := k.stage[t := Locking(k.chans[ch].lock, ForSend(ch, x))])
    case CallRecv(ch) => k.(stage := k.stage[t := Awaiting(ch)])
    case DropGuard => k.(stage := k.stage[t := Dropping(st.m, st.why, Nothing)])
    case ReadDeque => k.(stage := k.stage[t := st.(seen := Read(k.chans[st.why.ch].queue))])
    case WriteDeque =>
      var (chan, st') := Written(k.chans[st.why.ch], st);
      k.(stage := k.stage[t := st'], chans := k.chans[st.why.ch := chan])
  }

  /** What a step of the scheduler means to the clients: a completed wait or post moves the call on. */
  function Notify(w: World, step: Step): Clients
    requires Enabled(w.sys, step)
  {
    if (step.Take? || step.Give?) && w.sys.cpus[step.c].mode.op != NoOp && Owned(w.k, w.sys.cpus[step.c].mode.op.q) then
      var t := w.sys.cpus[step.c].current;
      var st := StageOf(w.k, t);
      w.k.(stage := w.k.stage[t := if step.Take? then AfterTake(w.k, st) else AfterGive(st)])
    else w.k
  }

  function JApply(w: World, j: JStep): World
    requires JEnabled(w, j)
  {
    match j
    case Sys(step) => World(Apply(w.sys, step), Notify(w, step))
    case NewMutex(m) => World(Apply(w.sys, NewQueue(m, true, 1)), w.k.(mutexes := w.k.mutexes + {m}))
    case NewChannel(ch, m, items) =>
      World(Apply(Apply(w.sys, NewQueue(m, true, 1)), NewQueue(items, true, 0)),
            w.k.(mutexes := w.k.mutexes + {m}, chans := w.k.chans[ch := Chan(m, items, [], [], [])]))
    case Client(c, move) => w.(k := ApplyMove(w.k, w.sys.cpus[c].current, move))
  }

  function Start(): World { World(Init(), Clients(map[], {}, map[])) }

  ghost predicate IsJRun(w: World, js: seq<JStep>)
    decreases |js|
  {
    js == [] || (JEnabled(w, js[0]) && IsJRun(JApply(w, js[0]), js[1..]))
  }

  ghost function JAfter(w: World, js: seq<JStep>): World
    requires IsJRun(w, js)
    decreases |js|
  {
    if js == [] then w else JAfter(JApply(w, js[0]), js[1..])
  }

  // ---- the invariant ----

  predicate HasGuard(st: Stage, m: Queue) { (st.Holding? || st.Dropping?) && st.m == m }

  function Guards(k: Clients, m: Queue): set<Task> { set t | t in k.stage && HasGuard(k.stage[t], m) }

  /** A sender between its push and its post, or a receiver between its wait and its pop. */
  predicate InFlight(st: Stage, ch: Ch) {
    || (st.Dropping? && st.why.ForSend? && st.why.ch == ch)
    || (st.Posting? && st.ch == ch)
    || ((st.Locking? || st.Holding?) && st.why.ForRecv? && st.why.ch == ch)
  }

  function Flights(k: Clients, ch: Ch): set<Task> { set t | t in k.stage && InFlight(k.stage[t], ch) }

  /** A stage names existing objects, the channel's own mutex, and never the panic. */
  predicate GoodStage(k: Clients, st: Stage) {
    match st
    case Out => true
    case Returned(_) => true
    case Panicked => false
    case Posting(ch) => ch in k.chans
    case Awaiting(ch) => ch in k.chans
    case _ =>
      && st.m in k.mutexes
      && (!st.why.ForUser? ==> st.why.ch in k.chans && k.chans[st.why.ch].lock == st.m)
      && (st.Dropping? ==> (st.got.Some? <==> st.why.ForRecv?))
      && (st.Holding? && st.seen.Read? ==> !st.why.ForUser? && st.seen.items == k.chans[st.why.ch].queue)
  }

  ghost predicate GoodNames(w: World) {
    && (forall m :: m in w.k.mutexes ==> m in w.sys.queues && w.sys.queues[m].sem && w.sys.queues[m].initial == 1)
    && (forall ch :: ch in w.k.chans ==>
          && w.k.chans[ch].lock in w.k.mutexes && w.k.chans[ch].items !in w.k.mutexes
          && w.k.chans[ch].items in w.sys.queues && w.sys.queues[w.k.chans[ch].items].sem
          && w.sys.queues[w.k.chans[ch].items].initial == 0)
    && (forall ch1, ch2 :: ch1 in w.k.chans && ch2 in w.k.chans && ch1 != ch2 ==>
          w.k.chans[ch1].lock != w.k.chans[ch2].lock && w.k.chans[ch1].items != w.k.chans[ch2].items)
    && (forall t :: t in w.k.stage ==> t.Thread? && GoodStage(w.k, w.k.stage[t]))
  }

  /** A thread inside a semaphore operation of a client object is at the matching point of its call. */
  predicate Coupled(w: World, t: Task) {
    var op := OpOf(w.sys, t);
    && (op.SemWait? && Owned(w.k, op.q) ==> WaitsOn(w.k, StageOf(w.k, t), op.q))
    && (op.Post? && Owned(w.k, op.q) ==> PostsTo(w.k, StageOf(w.k, t), op.q))
  }

  predicate MutexOk(w: World, m: Queue) {
    m in w.sys.queues ==> w.sys.queues[m].count + |Guards(w.k, m)| == 1
  }

  predicate ChanOk(w: World, ch: Ch)
    requires ch in w.k.chans
  {
    var chan := w.k.chans[ch];
    && chan.pushed == chan.popped + chan.queue
    && (chan.items in w.sys.queues ==> |chan.queue| == w.sys.queues[chan.items].count + |Flights(w.k, ch)|)
  }

  ghost predicate WorldInv(w: World) {
    && SemInv(w.sys) && GoodNames(w)
    && (forall t :: Exists(w.sys, t) ==> Coupled(w, t))
    && (forall m :: m in w.k.mutexes ==> MutexOk(w, m))
    && (forall ch :: ch in w.k.chans ==> ChanOk(w, ch))
  }

  // ---- counting threads by stage ----

  function Bit(b: bool): nat { if b then 1 else 0 }

  lemma ChangedSize(a: set<Task>, b: set<Task>, t: Task)
    requires forall u :: u != t ==> (u in a <==> u in b)
    ensures |b| == |a| - Bit(t in a) + Bit(t in b)
  {
    var rest := a - {t};
    assert rest == b - {t};
    if t in a { assert a == rest + {t}; } else { assert a == rest; }
    if t in b { assert b == rest + {t}; } else { assert b == rest; }
  }

  lemma GuardCount(k: Clients, k': Clients, t: Task, st': Stage, m: Queue)
    requires k'.stage == k.stage[t := st']
    ensures |Guards(k', m)| == |Guards(k, m)| - Bit(HasGuard(StageOf(k, t), m)) + Bit(HasGuard(st', m))
  {
    ChangedSize(Guards(k, m), Guards(k', m), t);
  }

  lemma FlightCount(k: Clients, k': Clients, t: Task, st': Stage, ch: Ch)
    requires k'.stage == k.stage[t := st']
    ensures |Flights(k', ch)| == |Flights(k, ch)| - Bit(InFlight(StageOf(k, t), ch)) + Bit(InFlight(st', ch))
  {
    ChangedSize(Flights(k, ch), Flights(k', ch), t);
  }

  /** At most one guard of a mutex is alive. */
  lemma OneGuard(w: World, m: Queue, t1: Task, t2: Task)
    requires WorldInv(w) && m in w.k.mutexes
    requires HasGuard(StageOf(w.k, t1), m) && HasGuard(StageOf(w.k, t2), m)
    ensures t1 == t2
  {
    assert CountOk(w.sys, m) && MutexOk(w, m);
    if t1 != t2 {
      assert {t1, t2} <= Guards(w.k, m);
      SubsetSize({t1, t2}, Guards(w.k, m));
      assert false;
    }
  }

  lemma SubsetSize<A>(a: set<A>, b: set<A>)
    requires a <= b
    ensures |a| <= |b|
  {
    assert b == a + (b - a);
  }

  /** A receiver that has consumed a token finds an item: the `expect` cannot fire. */
  lemma ItemPresent(w: World, t: Task, ch: Ch)
    requires WorldInv(w) && ch in w.k.chans && InFlight(StageOf(w.k, t), ch)
    ensures w.k.chans[ch].queue != []
  {
    assert ChanOk(w, ch) && CountOk(w.sys, w.k.chans[ch].items);
    SubsetSize({t}, Flights(w.k, ch));
  }

  // ---- moves of a client ----

  lemma RunningHasNoOp(s: State, c: Cpu)
    requires SemInv(s) && At(s, c, User)
    ensures OpOf(s, s.cpus[c].current) == NoOp
  {
    assert GoodCpu(s, c, s.cpus[c]);
    var t := s.cpus[c].current;
    if t.Thread? {
      assert Occupies(s, t, OnCpu(c));
    } else {
      assert IdleOp(s, c);
    }
  }

  lemma MoveNames(w: World, c: Cpu, move: Move)
    requires GoodNames(w) && JEnabled(w, Client(c, move)) && move != WriteDeque
    ensures GoodNames(JApply(w, Client(c, move)))
  {
  }

  /** The receiver about to write the deque back has seen an item. */
  predicate CanPop(w: World, c: Cpu, move: Move)
    requires JEnabled(w, Client(c, move))
  {
    var st := StageOf(w.k, w.sys.cpus[c].current);
    move == WriteDeque ==> GoodStage(w.k, st) && (st.why.ForRecv? ==> st.seen.items != [])
  }

  lemma PopFinds(w: World, c: Cpu, move: Move)
    requires WorldInv(w) && JEnabled(w, Client(c, move))
    ensures CanPop(w, c, move)
  {
    var t := w.sys.cpus[c].current;
    var st := StageOf(w.k, t);
    assert GoodStage(w.k, st);
    if move == WriteDeque && st.why.ForRecv? { ItemPresent(w, t, st.why.ch); }
  }

  lemma WriteKeepsOthers(w: World, c: Cpu, t2: Task)
    requires WorldInv(w) && JEnabled(w, Client(c, WriteDeque)) && t2 in w.k.stage && t2 != w.sys.cpus[c].current
    ensures GoodStage(JApply(w, Client(c, WriteDeque)).k, w.k.stage[t2])
  {
    var t := w.sys.cpus[c].current;
    var st := StageOf(w.k, t);
    var st2 := w.k.stage[t2];
    assert GoodStage(w.k, st2) && GoodStage(w.k, st);
    if st2.Holding? && st2.m == st.m { OneGuard(w, st.m, t, t2); }
  }

  lemma WriteNames(w: World, c: Cpu)
    requires GoodNames(w) && JEnabled(w, Client(c, WriteDeque)) && CanPop(w, c, WriteDeque)
    requires forall t2 :: t2 in w.k.stage && t2 != w.sys.cpus[c].current ==>
               GoodStage(JApply(w, Client(c, WriteDeque)).k, w.k.stage[t2])
    ensures GoodNames(JApply(w, Client(c, WriteDeque)))
  {
  }

  lemma MoveChan(w: World, c: Cpu, move: Move, ch: Ch)
    requires JEnabled(w, Client(c, move)) && CanPop(w, c, move) && ch in w.k.chans && ChanOk(w, ch)
    ensures ChanOk(JApply(w, Client(c, move)), ch)
  {
    var w' := JApply(w, Client(c, move));
    var t := w.sys.cpus[c].current;
    FlightCount(w.k, w'.k, t, w'.k.stage[t], ch);
  }

  lemma MoveMutex(w: World, c: Cpu, move: Move, m: Queue)
    requires JEnabled(w, Client(c, move)) && CanPop(w, c, move) && MutexOk(w, m)
    ensures MutexOk(JApply(w, Client(c, move)), m)
  {
    var w' := JApply(w, Client(c, move));
    var t := w.sys.cpus[c].current;
    GuardCount(w.k, w'.k, t, w'.k.stage[t], m);
  }

  lemma MoveItems(w: World, c: Cpu, move: Move)
    requires JEnabled(w, Client(c, move))
    ensures var (k, k') := (w.k, JApply(w, Client(c, move)).k);
      && k'.mutexes == k.mutexes && k'.chans.Keys == k.chans.Keys
      && forall ch :: ch in k.chans ==> k'.chans[ch].items == k.chans[ch].items
  {
  }

  lemma MoveCoupled(w: World, c: Cpu, move: Move, t: Task)
    requires JEnabled(w, Client(c, move)) && Coupled(w, t) && OpOf(w.sys, w.sys.cpus[c].current) == NoOp
    ensures Coupled(JApply(w, Client(c, move)), t)
  {
    if OpOf(w.sys, t) != NoOp {
      MoveItems(w, c, move);
      SameOwned(w.k, JApply(w, Client(c, move)).k, OpOf(w.sys, t).q);
    }
  }

  lemma SameOwned(k: Clients, k': Clients, q: Queue)
    requires k'.mutexes == k.mutexes && k'.chans.Keys == k.chans.Keys
    requires forall ch :: ch in k.chans ==> k'.chans[ch].items == k.chans[ch].items
    ensures Owned(k', q) <==> Owned(k, q)
  {
    if IsItems(k, q) { var ch :| ch in k.chans && k.chans[ch].items == q; assert k'.chans[ch].items == q; }
    if IsItems(k', q) { var ch :| ch in k'.chans && k'.chans[ch].items == q; assert k.chans[ch].items == q; }
  }

  lemma MoveStep(w: World, c: Cpu, move: Move)
    requires WorldInv(w) && JEnabled(w, Client(c, move))
    ensures WorldInv(JApply(w, Client(c, move)))
  {
    var w' := JApply(w, Client(c, move));
    PopFinds(w, c, move);
    if move == WriteDeque {
      forall t2 | t2 in w.k.stage && t2 != w.sys.cpus[c].current ensures GoodStage(w'.k, w.k.stage[t2]) {
        WriteKeepsOthers(w, c, t2);
      }
      WriteNames(w, c);
    } else {
      MoveNames(w, c, move);
    }
    RunningHasNoOp(w.sys, c);
    forall t | Exists(w'.sys, t) ensures Coupled(w', t) { MoveCoupled(w, c, move, t); }
    forall m | m in w'.k.mutexes ensures MutexOk(w', m) { MoveMutex(w, c, move, m); }
    forall ch | ch in w'.k.chans ensures ChanOk(w', ch) { MoveChan(w, c, move, ch); }
  }

  // ---- steps of the scheduler ----

  /** The acting CPU's current task really performs the operation its CPU is in. */
  lemma ActorOp(s: State, c: Cpu)
    requires SemInv(s) && c in s.cpus && s.cpus[c].mode.Crit?
    ensures OpOf(s, s.cpus[c].current) == s.cpus[c].mode.op && Exists(s, s.cpus[c].current)
  {
    var t := s.cpus[c].current;
    assert GoodCpu(s, c, s.cpus[c]);
    if t.Thread? {
      assert Occupies(s, t, OnCpu(c));
    } else {
      assert IdleOp(s, c);
    }
  }

  predicate Notifies(w: World, step: Step)
    requires Enabled(w.sys, step)
  {
    (step.Take? || step.Give?) && w.sys.cpus[step.c].mode.op != NoOp && Owned(w.k, w.sys.cpus[step.c].mode.op.q)
  }

  /** The call the acting thread is in, when a client's semaphore moves. */
  predicate AtPoint(w: World, step: Step)
    requires Enabled(w.sys, step)
  {
    Notifies(w, step) ==>
      var (op, st) := (w.sys.cpus[step.c].mode.op, StageOf(w.k, w.sys.cpus[step.c].current));
      && op.q in w.sys.queues && w.sys.queues[op.q].sem && GoodStage(w.k, st) && w.sys.cpus[step.c].current.Thread?
      && (if step.Take? then op.SemWait? && WaitsOn(w.k, st, op.q) else op.Post? && PostsTo(w.k, st, op.q))
  }

  lemma ReachesPoint(w: World, step: Step)
    requires WorldInv(w) && Enabled(w.sys, step)
    ensures AtPoint(w, step)
  {
    if Notifies(w, step) {
      var t := w.sys.cpus[step.c].current;
      assert GoodCpu(w.sys, step.c, w.sys.cpus[step.c]);
      ActorOp(w.sys, step.c);
      assert Coupled(w, t);
      OwnedIsSem(w, w.sys.cpus[step.c].mode.op.q);
      assert StageOf(w.k, t) != Out && t in w.k.stage;
    }
  }

  lemma OwnedIsSem(w: World, q: Queue)
    requires GoodNames(w) && Owned(w.k, q)
    ensures q in w.sys.queues && w.sys.queues[q].sem
  {
  }

  lemma SysMutex(w: World, step: Step, m: Queue)
    requires SysEnabled(w, step) && AtPoint(w, step) && m in w.k.mutexes && MutexOk(w, m) && m in w.sys.queues
    requires w.sys.queues[m].sem && forall ch :: ch in w.k.chans ==> w.k.chans[ch].items != m
    ensures MutexOk(JApply(w, Sys(step)), m)
  {
    var w' := JApply(w, Sys(step));
    if Counts(w.sys, step, m) { CountMoves(w.sys, step, m); } else { CountStays(w.sys, step, m); }
    if Notifies(w, step) {
      var t := w.sys.cpus[step.c].current;
      GuardCount(w.k, w'.k, t, w'.k.stage[t], m);
    }
  }

  lemma SysChan(w: World, step: Step, ch: Ch)
    requires SysEnabled(w, step) && AtPoint(w, step) && GoodNames(w) && ch in w.k.chans && ChanOk(w, ch)
    ensures ChanOk(JApply(w, Sys(step)), ch)
  {
    var w' := JApply(w, Sys(step));
    var q := w.k.chans[ch].items;
    assert Owned(w.k, q);
    if Counts(w.sys, step, q) { CountMoves(w.sys, step, q); } else { CountStays(w.sys, step, q); }
    if Notifies(w, step) {
      var t := w.sys.cpus[step.c].current;
      FlightCount(w.k, w'.k, t, w'.k.stage[t], ch);
    }
  }

  lemma SysCoupled(w: World, step: Step, t: Task)
    requires WorldInv(w) && SysEnabled(w, step) && AtPoint(w, step) && Exists(w.sys, t)
    ensures Coupled(JApply(w, Sys(step)), t)
  {
    var w' := JApply(w, Sys(step));
    assert Coupled(w, t);
    assert w'.k.chans == w.k.chans && w'.k.mutexes == w.k.mutexes;
    if !step.NewQueue? && !step.InitCpu? && w.sys.cpus[step.c].current == t {
      ActorCoupled(w, step);
    } else {
      OpStays(w.sys, step, t);
    }
  }

  lemma ActorCoupled(w: World, step: Step)
    requires SysEnabled(w, step) && !step.NewQueue? && !step.InitCpu? && Coupled(w, w.sys.cpus[step.c].current)
    requires step.Spawn? ==> step.t != w.sys.cpus[step.c].current
    ensures Coupled(JApply(w, Sys(step)), w.sys.cpus[step.c].current)
  {
  }

  lemma SysNames(w: World, step: Step)
    requires SysEnabled(w, step) && AtPoint(w, step) && GoodNames(w)
    ensures GoodNames(JApply(w, Sys(step)))
  {
    var w' := JApply(w, Sys(step));
    assert w'.k.chans == w.k.chans && w'.k.mutexes == w.k.mutexes;
    forall q | q in w.sys.queues
      ensures q in w'.sys.queues && w'.sys.queues[q].sem == w.sys.queues[q].sem
      ensures w'.sys.queues[q].initial == w.sys.queues[q].initial
    {
      if Counts(w.sys, step, q) { QueueIdentity(w.sys, step, q); } else { CountStays(w.sys, step, q); }
    }
    forall t | t in w'.k.stage ensures t.Thread? && GoodStage(w'.k, w'.k.stage[t]) {
      StageAfter(w, step, t);
    }
  }

  lemma QueueIdentity(s: State, step: Step, q: Queue)
    requires Enabled(s, step) && q in s.queues && Counts(s, step, q)
    ensures q in Apply(s, step).queues && Apply(s, step).queues[q].sem == s.queues[q].sem
    ensures Apply(s, step).queues[q].initial == s.queues[q].initial
  {
  }

  lemma StageAfter(w: World, step: Step, t: Task)
    requires SysEnabled(w, step) && AtPoint(w, step) && t in Notify(w, step).stage
    requires t in w.k.stage ==> t.Thread? && GoodStage(w.k, w.k.stage[t])
    requires forall ch :: ch in w.k.chans ==> w.k.chans[ch].lock in w.k.mutexes
    ensures t.Thread? && GoodStage(Notify(w, step), Notify(w, step).stage[t])
  {
  }

  lemma SysStep(w: World, step: Step)
    requires WorldInv(w) && SysEnabled(w, step)
    ensures WorldInv(JApply(w, Sys(step)))
  {
    var w' := JApply(w, Sys(step));
    SemStep(w.sys, step);
    ReachesPoint(w, step);
    SysNames(w, step);
    forall t | Exists(w'.sys, t) ensures Coupled(w', t) {
      if Exists(w.sys, t) { SysCoupled(w, step, t); } else { BornCoupled(w, step, t); }
    }
    forall m | m in w'.k.mutexes ensures MutexOk(w', m) { SysMutex(w, step, m); }
    forall ch | ch in w'.k.chans ensures ChanOk(w', ch) { SysChan(w, step, ch); }
  }

  lemma BornCoupled(w: World, step: Step, t: Task)
    requires WorldInv(w) && SysEnabled(w, step) && !Exists(w.sys, t) && Exists(Apply(w.sys, step), t)
    ensures Coupled(JApply(w, Sys(step)), t)
  {
    StepKeepsSpawned(w.sys, step);
    if step.Spawn? && t == step.t {
    } else {
      if !step.InitCpu? { CpusKept(w.sys, step); }
      assert IdleOp(w.sys, t.home);
    }
  }

  // ---- new objects ----

  lemma OpKnown(s: State, t: Task)
    requires SemInv(s) && Exists(s, t) && OpOf(s, t) != NoOp
    ensures OpOf(s, t).q in s.queues
  {
    if t.Thread? {
      var l :| Occupies(s, t, l);
      assert OpAllowed(s, l, OpOf(s, t));
      if l.OnCpu? { assert GoodCpu(s, l.c, s.cpus[l.c]); }
    } else {
      assert IdleOp(s, t.home);
      assert GoodCpu(s, t.home, s.cpus[t.home]);
    }
  }

  /** A new queue belongs to nobody's operation. */
  lemma NewQueueCoupled(w: World, q: Queue, initial: int, k': Clients, t: Task)
    requires SemInv(w.sys) && Coupled(w, t) && q !in w.sys.queues && Exists(w.sys, t)
    requires k'.stage == w.k.stage && w.k.chans.Keys <= k'.chans.Keys
    requires forall ch :: ch in w.k.chans ==> k'.chans[ch] == w.k.chans[ch]
    requires forall p :: p in w.sys.queues && Owned(k', p) ==> Owned(w.k, p)
    ensures Coupled(World(Apply(w.sys, NewQueue(q, true, initial)), k'), t)
  {
    if OpOf(w.sys, t) != NoOp { OpKnown(w.sys, t); }
  }

  lemma NoGuards(w: World, m: Queue)
    requires GoodNames(w) && m !in w.k.mutexes
    ensures Guards(w.k, m) == {}
  {
    forall t | t in w.k.stage ensures !HasGuard(w.k.stage[t], m) { assert GoodStage(w.k, w.k.stage[t]); }
  }

  lemma NewMutexNames(w: World, m: Queue)
    requires GoodNames(w) && m !in w.sys.queues
    ensures GoodNames(JApply(w, NewMutex(m)))
  {
    var w' := JApply(w, NewMutex(m));
    forall t | t in w'.k.stage ensures t.Thread? && GoodStage(w'.k, w'.k.stage[t]) { assert GoodStage(w.k, w.k.stage[t]); }
  }

  lemma NewMutexOk(w: World, m: Queue, m': Queue)
    requires GoodNames(w) && m !in w.sys.queues && (m' == m || (m' in w.k.mutexes && MutexOk(w, m')))
    ensures MutexOk(JApply(w, NewMutex(m)), m')
  {
    NoGuards(w, m);
    assert Guards(JApply(w, NewMutex(m)).k, m') == Guards(w.k, m');
  }

  lemma NewMutexStep(w: World, m: Queue)
    requires WorldInv(w) && m !in w.sys.queues
    ensures WorldInv(JApply(w, NewMutex(m)))
  {
    var w' := JApply(w, NewMutex(m));
    SemStep(w.sys, NewQueue(m, true, 1));
    NewMutexNames(w, m);
    forall t | Exists(w'.sys, t) ensures Coupled(w', t) { NewQueueCoupled(w, m, 1, w'.k, t); }
    forall m' | m' in w'.k.mutexes ensures MutexOk(w', m') { NewMutexOk(w, m, m'); }
    forall ch | ch in w'.k.chans ensures ChanOk(w', ch) {
      assert ChanOk(w, ch) && Flights(w'.k, ch) == Flights(w.k, ch);
    }
  }

  function WithChan(w: World, ch: Ch, m: Queue, items: Queue): World
    requires items !in w.sys.queues
  {
    World(Apply(w.sys, NewQueue(items, true, 0)), w.k.(chans := w.k.chans[ch := Chan(m, items, [], [], [])]))
  }

  lemma NewChanNames(w: World, ch: Ch, m: Queue, items: Queue)
    requires GoodNames(w) && ch !in w.k.chans && items !in w.sys.queues && m in w.k.mutexes
    requires forall ch' :: ch' in w.k.chans ==> w.k.chans[ch'].lock != m
    ensures GoodNames(WithChan(w, ch, m, items))
  {
    var w' := WithChan(w, ch, m, items);
    forall t | t in w'.k.stage ensures t.Thread? && GoodStage(w'.k, w'.k.stage[t]) { assert GoodStage(w.k, w.k.stage[t]); }
  }

  lemma NewChanOk(w: World, ch: Ch, m: Queue, items: Queue, ch': Ch)
    requires GoodNames(w) && ch !in w.k.chans && items !in w.sys.queues
    requires ch' == ch || (ch' in w.k.chans && ChanOk(w, ch'))
    ensures ChanOk(WithChan(w, ch, m, items), ch')
  {
    var w' := WithChan(w, ch, m, items);
    assert Flights(w'.k, ch') == Flights(w.k, ch');
    forall t | t in w.k.stage ensures !InFlight(w.k.stage[t], ch) { assert GoodStage(w.k, w.k.stage[t]); }
  }

  lemma NewChanMutex(w: World, ch: Ch, m: Queue, items: Queue, m': Queue)
    requires items !in w.sys.queues && m' in w.sys.queues && MutexOk(w, m')
    ensures MutexOk(WithChan(w, ch, m, items), m')
  {
    assert Guards(WithChan(w, ch, m, items).k, m') == Guards(w.k, m');
  }

  lemma OwnedBefore(w: World, ch: Ch, m: Queue, items: Queue)
    requires items !in w.sys.queues && ch !in w.k.chans
    ensures forall p :: p in w.sys.queues && Owned(WithChan(w, ch, m, items).k, p) ==> Owned(w.k, p)
  {
    var w' := WithChan(w, ch, m, items);
    forall p | p in w.sys.queues && Owned(w'.k, p) ensures Owned(w.k, p) {
      if IsItems(w'.k, p) { var ch' :| ch' in w'.k.chans && w'.k.chans[ch'].items == p; assert ch' in w.k.chans; }
    }
  }

  lemma NewChanCoupled(w: World, ch: Ch, m: Queue, items: Queue, t: Task)
    requires SemInv(w.sys) && Coupled(w, t) && items !in w.sys.queues && Exists(w.sys, t) && ch !in w.k.chans
    ensures Coupled(WithChan(w, ch, m, items), t)
  {
    OwnedBefore(w, ch, m, items);
    NewQueueCoupled(w, items, 0, WithChan(w, ch, m, items).k, t);
  }

  lemma AddChannel(w: World, ch: Ch, m: Queue, items: Queue)
    requires WorldInv(w) && ch !in w.k.chans && items !in w.sys.queues && m in w.k.mutexes
    requires forall ch' :: ch' in w.k.chans ==> w.k.chans[ch'].lock != m
    ensures WorldInv(WithChan(w, ch, m, items))
  {
    var w' := WithChan(w, ch, m, items);
    SemStep(w.sys, NewQueue(items, true, 0));
    NewChanNames(w, ch, m, items);
    forall t | Exists(w'.sys, t) ensures Coupled(w', t) { NewChanCoupled(w, ch, m, items, t); }
    forall m' | m' in w'.k.mutexes ensures MutexOk(w', m') { NewChanMutex(w, ch, m, items, m'); }
    forall ch' | ch' in w'.k.chans ensures ChanOk(w', ch') { NewChanOk(w, ch, m, items, ch'); }
  }

  lemma NewChannelStep(w: World, ch: Ch, m: Queue, items: Queue)
    requires WorldInv(w) && JEnabled(w, NewChannel(ch, m, items))
    ensures WorldInv(JApply(w, NewChannel(ch, m, items)))
  {
    var w1 := JApply(w, NewMutex(m));
    NewMutexStep(w, m);
    AddChannel(w1, ch, m, items);
    assert WithChan(w1, ch, m, items) == JApply(w, NewChannel(ch, m, items));
  }

  lemma WorldStep(w: World, j: JStep)
    requires WorldInv(w) && JEnabled(w, j)
    ensures WorldInv(JApply(w, j))
  {
    match j
    case Sys(step) => SysStep(w, step);
    case NewMutex(m) => NewMutexStep(w, m);
    case NewChannel(ch, m, items) => NewChannelStep(w, ch, m, items);
    case Client(c, move) => MoveStep(w, c, move);
  }

  // ---- every joint run ----

  lemma StartOk()
    ensures WorldInv(Start())
  {
  }

  lemma {:induction false} WorldRun(w: World, js: seq<JStep>)
    requires WorldInv(w) && IsJRun(w, js)
    ensures WorldInv(JAfter(w, js))
    decreases |js|
  {
    if js != [] {
      WorldStep(w, js[0]);
      WorldRun(JApply(w, js[0]), js[1..]);
    }
  }

  /** In every run the count of a mutex's semaphore plus its live guards is one: two threads are
      never inside the same mutex. */
  lemma MutualExclusion(js: seq<JStep>, m: Queue, t1: Task, t2: Task)
    requires IsJRun(Start(), js) && m in JAfter(Start(), js).k.mutexes
    ensures var w := JAfter(Start(), js);
      && m in w.sys.queues && w.sys.queues[m].count + |Guards(w.k, m)| == 1
      && (t1 in Guards(w.k, m) && t2 in Guards(w.k, m) ==> t1 == t2)
  {
    StartOk();
    WorldRun(Start(), js);
    hide SemInv, Coupled, ChanOk, Start, JAfter, IsJRun;
    var w := JAfter(Start(), js);
    assert MutexOk(w, m);
    if t1 in Guards(w.k, m) && t2 in Guards(w.k, m) { OneGuard(w, m, t1, t2); }
  }

  /** In every run the deque of a channel holds one item per token and per call in flight, the
      `expect` of `recv` never fires, and what was popped is exactly the prefix of what was pushed. */
  lemma ChannelFifo(js: seq<JStep>, ch: Ch, t: Task)
    requires IsJRun(Start(), js) && ch in JAfter(Start(), js).k.chans
    ensures var w := JAfter(Start(), js); var chan := w.k.chans[ch];
      && StageOf(w.k, t) != Panicked
      && chan.popped <= chan.pushed && chan.pushed[|chan.popped|..] == chan.queue
      && chan.items in w.sys.queues && |chan.queue| == w.sys.queues[chan.items].count + |Flights(w.k, ch)|
  {
    hide *;
    StartOk();
    WorldRun(Start(), js);
    ChannelFacts(JAfter(Start(), js), ch, t);
  }

  lemma ChannelFacts(w: World, ch: Ch, t: Task)
    requires WorldInv(w) && ch in w.k.chans
    ensures var chan := w.k.chans[ch];
      && StageOf(w.k, t) != Panicked
      && chan.popped <= chan.pushed && chan.pushed[|chan.popped|..] == chan.queue
      && chan.items in w.sys.queues && |chan.queue| == w.sys.queues[chan.items].count + |Flights(w.k, ch)|
  {
    hide SemInv, Coupled, MutexOk, Flights;
    assert ChanOk(w, ch);
    if t in w.k.stage { assert GoodStage(w.k, w.k.stage[t]); }
  }
}
