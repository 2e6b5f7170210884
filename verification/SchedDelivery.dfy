/** What the callers of a channel observe: `recv` returns the items given to `send`, each once and in order. */
module SchedDelivery {
  import opened Sched
  import opened SchedPlaces
  import opened SchedSem
  import opened SchedClients

  /** Of one channel: the call each thread made last, the items given to `send` in the order in which the senders
      wrote the deque, and the items `recv` returned in the order of the returns. */
  datatype Log = Log(calls: map<Task, Move>, sent: seq<Item>, received: seq<Item>)

  predicate IsCall(move: Move) { move.CallLock? || move.CallSend? || move.CallRecv? }

  function Observe(w: World, j: JStep, log: Log, ch: Ch): Log
    requires JEnabled(w, j)
  {
    match j
    case Client(c, move) =>
      var t := w.sys.cpus[c].current;
      if IsCall(move) then log.(calls := log.calls[t := move])
      else if move.WriteDeque? && t in log.calls && log.calls[t].CallSend? && log.calls[t].ch == ch
      then log.(sent := log.sent + [log.calls[t].x])
      else log
    case Sys(Give(c)) =>
      var t := w.sys.cpus[c].current;
      var st := StageOf(JApply(w, j).k, t);
      if t in log.calls && log.calls[t] == CallRecv(ch) && st.Returned?
      then log.(received := log.received + [st.x], calls := log.calls - {t})
      else log
    case _ => log
  }

  ghost function LogOf(w: World, js: seq<JStep>, log: Log, ch: Ch): Log
    requires IsJRun(w, js)
    decreases |js|
  {
    if js == [] then log else LogOf(JApply(w, js[0]), js[1..], Observe(w, js[0], log, ch), ch)
  }

  // ---- the log and the state ----

  /** The call that a stage belongs to. */
  predicate CallOf(st: Stage, t: Task, calls: map<Task, Move>, ch: Ch) {
    match st
    case Posting(_) => t in calls && calls[t].CallSend?
    case Awaiting(a) => t in calls && calls[t] == CallRecv(a)
    case Out => t in calls ==> calls[t] != CallRecv(ch)
    case Returned(_) => t in calls ==> calls[t] != CallRecv(ch)
    case Panicked => true
    case _ => t in calls && calls[t] == CallFor(st.m, st.why)
  }

  function CallFor(m: Queue, why: Why): Move {
    match why
    case ForUser => CallLock(m)
    case ForSend(ch, x) => CallSend(ch, x)
    case ForRecv(ch) => CallRecv(ch)
  }

  /** A receiver that took an item and has not returned it yet. */
  predicate Carries(st: Stage, ch: Ch) { st.Dropping? && st.why == ForRecv(ch) && st.got.Some? }

  ghost predicate Accounted(k: Clients, popped: seq<Item>, received: seq<Item>, ch: Ch) {
    && (forall t :: t in k.stage && Carries(k.stage[t], ch) ==> popped == received + [k.stage[t].got.x])
    && ((forall t :: t in k.stage ==> !Carries(k.stage[t], ch)) ==> popped == received)
  }

  ghost predicate Calls(k: Clients, log: Log, ch: Ch) {
    && (forall t :: t in k.stage ==> CallOf(k.stage[t], t, log.calls, ch))
    && (forall t :: t !in k.stage ==> CallOf(Out, t, log.calls, ch))
  }

  ghost predicate Told(k: Clients, log: Log, ch: Ch) {
    if ch in k.chans then log.sent == k.chans[ch].pushed && Accounted(k, k.chans[ch].popped, log.received, ch)
    else log.sent == [] == log.received && forall t :: t in k.stage ==> !Carries(k.stage[t], ch)
  }

  // ---- steps of the clients ----

  lemma MoveCalls(w: World, c: Cpu, move: Move, log: Log, ch: Ch)
    requires JEnabled(w, Client(c, move)) && Calls(w.k, log, ch)
    ensures Calls(JApply(w, Client(c, move)).k, Observe(w, Client(c, move), log, ch), ch)
  {
  }

  /** While one thread has the guard of a channel, no other carries an item. */
  lemma NoneCarries(w: World, t: Task, ch: Ch)
    requires WorldInv(w) && ch in w.k.chans && t in w.k.stage && HasGuard(w.k.stage[t], w.k.chans[ch].lock)
    ensures forall u :: u in w.k.stage && u != t ==> !Carries(w.k.stage[u], ch)
  {
    hide SemInv, Coupled, ChanOk;
    var m := w.k.chans[ch].lock;
    forall u | u in w.k.stage && Carries(w.k.stage[u], ch) ensures u == t {
      assert GoodStage(w.k, w.k.stage[u]);
      assert MutexOk(w, m);
      OneGuard(w, m, t, u);
    }
  }

  lemma MoveTold(w: World, c: Cpu, move: Move, log: Log, ch: Ch)
    requires WorldInv(w) && JEnabled(w, Client(c, move)) && Calls(w.k, log, ch) && Told(w.k, log, ch)
    ensures Told(JApply(w, Client(c, move)).k, Observe(w, Client(c, move), log, ch), ch)
  {
    var t := w.sys.cpus[c].current;
    var st := StageOf(w.k, t);
    if move == WriteDeque {
      PopFinds(w, c, move);
      assert t in w.k.stage && GoodStage(w.k, st);
      if st.why.ch == ch { NoneCarries(w, t, ch); }
      hide WorldInv;
      WriteTold(w.k, t, log, ch);
    } else {
      hide WorldInv;
      OtherTold(w.k, t, move, log, ch);
    }
  }

  lemma OtherTold(k: Clients, t: Task, move: Move, log: Log, ch: Ch)
    requires MoveEnabled(k, StageOf(k, t), move) && move != WriteDeque && Told(k, log, ch)
    ensures Told(ApplyMove(k, t, move), log, ch)
  {
    var k' := ApplyMove(k, t, move);
    assert !Carries(StageOf(k, t), ch) && !Carries(k'.stage[t], ch) && k'.chans == k.chans;
    SameCarriers(k, k', t, ch);
  }

  /** One thread, which carries nothing, changes its stage. */
  lemma SameCarriers(k: Clients, k': Clients, t: Task, ch: Ch)
    requires t in k'.stage && k'.stage == k.stage[t := k'.stage[t]]
    requires !Carries(StageOf(k, t), ch) && !Carries(k'.stage[t], ch)
    ensures forall u :: u in k'.stage && Carries(k'.stage[u], ch) <==> u in k.stage && Carries(k.stage[u], ch)
    ensures forall u :: u in k.stage && Carries(k.stage[u], ch) ==> k'.stage[u] == k.stage[u]
    ensures forall p, r :: Accounted(k, p, r, ch) ==> Accounted(k', p, r, ch)
  {
  }

  lemma WriteTold(k: Clients, t: Task, log: Log, ch: Ch)
    requires t in k.stage && MoveEnabled(k, k.stage[t], WriteDeque) && Calls(k, log, ch) && Told(k, log, ch)
    requires k.stage[t].why.ForRecv? ==> k.stage[t].seen.items != []
    requires k.stage[t].why.ch == ch ==> forall u :: u in k.stage && u != t ==> !Carries(k.stage[u], ch)
    ensures var st := k.stage[t];
      var sent := if st.why.ForSend? && st.why.ch == ch then log.sent + [st.why.x] else log.sent;
      Told(ApplyMove(k, t, WriteDeque), log.(sent := sent), ch)
      && (t in log.calls && (log.calls[t].CallSend? && log.calls[t].ch == ch <==> st.why.ForSend? && st.why.ch == ch))
      && (st.why.ForSend? && st.why.ch == ch ==> log.calls[t].x == st.why.x)
  {
    var st := k.stage[t];
    var k' := ApplyMove(k, t, WriteDeque);
    assert CallOf(st, t, log.calls, ch) && !Carries(st, ch);
    if st.why != ForRecv(ch) { SameCarriers(k, k', t, ch); } else {
      assert forall u :: u in k.stage ==> !Carries(k.stage[u], ch);
      assert Carries(k'.stage[t], ch);
      assert forall u :: u in k'.stage && Carries(k'.stage[u], ch) ==> u == t;
    }
  }

  // ---- steps of the scheduler ----

  /** The call of `t` moves on: its wait or its post is complete. */
  function Advance(k: Clients, t: Task, take: bool): Clients {
    k.(stage := k.stage[t := if take then AfterTake(k, StageOf(k, t)) else AfterGive(StageOf(k, t))])
  }

  function ObserveGive(k: Clients, t: Task, log: Log, ch: Ch): Log {
    if t in log.calls && log.calls[t] == CallRecv(ch) && StageOf(k, t).Returned?
    then log.(received := log.received + [StageOf(k, t).x], calls := log.calls - {t})
    else log
  }

  /** A step of the scheduler advances one call or none. */
  lemma SysSeen(w: World, step: Step, log: Log, ch: Ch)
    requires WorldInv(w) && JEnabled(w, Sys(step))
    ensures var k := JApply(w, Sys(step)).k;
      if Notifies(w, step)
      then var t := w.sys.cpus[step.c].current;
        && t in w.k.stage && k == Advance(w.k, t, step.Take?) && GoodStage(w.k, w.k.stage[t])
        && (if step.Take? then w.k.stage[t].Locking? || w.k.stage[t].Awaiting? else w.k.stage[t].Dropping? || w.k.stage[t].Posting?)
        && Observe(w, Sys(step), log, ch) == if step.Take? then log else ObserveGive(k, t, log, ch)
      else k == w.k && Observe(w, Sys(step), log, ch) == (if step.Give? then ObserveGive(k, w.sys.cpus[step.c].current, log, ch) else log)
  {
    ReachesPoint(w, step);
  }

  lemma AdvanceCalls(k: Clients, t: Task, take: bool, log: Log, ch: Ch)
    requires Calls(k, log, ch) && t in k.stage && GoodStage(k, k.stage[t])
    requires if take then k.stage[t].Locking? || k.stage[t].Awaiting? else k.stage[t].Dropping? || k.stage[t].Posting?
    ensures var k' := Advance(k, t, take); Calls(k', if take then log else ObserveGive(k', t, log, ch), ch)
  {
  }

  lemma IdleGive(k: Clients, t: Task, log: Log, ch: Ch)
    requires Calls(k, log, ch)
    ensures ObserveGive(k, t, log, ch) == log
  {
    assert t in k.stage ==> CallOf(k.stage[t], t, log.calls, ch);
  }

  lemma AdvanceTold(k: Clients, t: Task, take: bool, log: Log, ch: Ch)
    requires Calls(k, log, ch) && Told(k, log, ch) && t in k.stage && GoodStage(k, k.stage[t])
    requires if take then k.stage[t].Locking? || k.stage[t].Awaiting? else k.stage[t].Dropping? || k.stage[t].Posting?
    requires Carries(k.stage[t], ch) ==> forall u :: u in k.stage && u != t ==> !Carries(k.stage[u], ch)
    ensures var k' := Advance(k, t, take); Told(k', if take then log else ObserveGive(k', t, log, ch), ch)
  {
    var k' := Advance(k, t, take);
    assert CallOf(k.stage[t], t, log.calls, ch) && !Carries(k'.stage[t], ch);
    if Carries(k.stage[t], ch) {
      assert forall u :: u in k'.stage ==> !Carries(k'.stage[u], ch);
    } else {
      SameCarriers(k, k', t, ch);
    }
  }

  lemma SysLog(w: World, step: Step, log: Log, ch: Ch)
    requires WorldInv(w) && JEnabled(w, Sys(step)) && Calls(w.k, log, ch) && Told(w.k, log, ch)
    ensures var (k, log') := (JApply(w, Sys(step)).k, Observe(w, Sys(step), log, ch)); Calls(k, log', ch) && Told(k, log', ch)
  {
    SysSeen(w, step, log, ch);
    if Notifies(w, step) {
      var t := w.sys.cpus[step.c].current;
      if Carries(w.k.stage[t], ch) { NoneCarries(w, t, ch); }
      hide WorldInv, JApply, Observe;
      AdvanceCalls(w.k, t, step.Take?, log, ch);
      AdvanceTold(w.k, t, step.Take?, log, ch);
    } else if step.Give? {
      IdleGive(w.k, w.sys.cpus[step.c].current, log, ch);
    }
  }

  // ---- runs ----

  lemma LogStep(w: World, j: JStep, log: Log, ch: Ch)
    requires WorldInv(w) && JEnabled(w, j) && Calls(w.k, log, ch) && Told(w.k, log, ch)
    ensures Calls(JApply(w, j).k, Observe(w, j, log, ch), ch) && Told(JApply(w, j).k, Observe(w, j, log, ch), ch)
  {
    match j
    case Sys(step) => SysLog(w, step, log, ch);
    case Client(c, move) =>
      MoveCalls(w, c, move, log, ch);
      MoveTold(w, c, move, log, ch);
    case NewMutex(m) =>
    case NewChannel(a, m, items) =>
  }

  lemma {:induction false} LogRun(w: World, js: seq<JStep>, log: Log, ch: Ch)
    requires WorldInv(w) && IsJRun(w, js) && Calls(w.k, log, ch) && Told(w.k, log, ch)
    ensures Calls(JAfter(w, js).k, LogOf(w, js, log, ch), ch) && Told(JAfter(w, js).k, LogOf(w, js, log, ch), ch)
    decreases |js|
  {
    if js != [] {
      LogStep(w, js[0], log, ch);
      WorldStep(w, js[0]);
      hide Calls, Told, WorldInv, Observe, JApply, JEnabled;
      LogRun(JApply(w, js[0]), js[1..], Observe(w, js[0], log, ch), ch);
    }
  }

  /** In every run the items returned by `recv` are, in order, the first items given to `send`; at most one more has
      been taken by a receiver that is about to return it, and the rest is in the deque. */
  lemma Delivery(js: seq<JStep>, ch: Ch)
    requires IsJRun(Start(), js) && ch in JAfter(Start(), js).k.chans
    ensures var log := LogOf(Start(), js, Log(map[], [], []), ch); var k := JAfter(Start(), js).k;
      && log.received <= log.sent
      && exists taken: seq<Item> :: Taken(k, ch, taken) && log.sent == log.received + taken + k.chans[ch].queue
  {
    StartOk();
    WorldRun(Start(), js);
    LogRun(Start(), js, Log(map[], [], []), ch);
    DeliveryHere(JAfter(Start(), js), LogOf(Start(), js, Log(map[], [], []), ch), ch);
  }

  /** The item, if any, between the deque and the return of a receiver. */
  ghost predicate Taken(k: Clients, ch: Ch, taken: seq<Item>) {
    if taken == [] then forall t :: t in k.stage ==> !Carries(k.stage[t], ch)
    else |taken| == 1 && exists t :: t in k.stage && Carries(k.stage[t], ch) && k.stage[t].got == Some(taken[0])
  }

  lemma DeliveryHere(w: World, log: Log, ch: Ch)
    requires WorldInv(w) && Told(w.k, log, ch) && ch in w.k.chans
    ensures log.received <= log.sent
    ensures exists taken: seq<Item> :: Taken(w.k, ch, taken) && log.sent == log.received + taken + w.k.chans[ch].queue
  {
    assert ChanOk(w, ch);
    hide WorldInv;
    var k, chan := w.k, w.k.chans[ch];
    if t :| t in k.stage && Carries(k.stage[t], ch) {
      assert Taken(k, ch, [k.stage[t].got.x]);
      assert log.sent == log.received + [k.stage[t].got.x] + chan.queue;
    } else {
      assert Taken(k, ch, []);
      assert log.sent == log.received + [] + chan.queue;
    }
  }
}
