/** What a call of `lock`, `send` or `recv` does before the thread can make another one, and that it can go on. */
module SchedProtocol {
  import opened Sched
  import opened SchedPlaces
  import opened SchedSem
  import opened SchedClients
  import opened SchedDelivery

  /** Of every thread: its last call, and the semaphores it waited for and posted to since then. */
  datatype Trace = Trace(calls: map<Task, Move>, took: map<Task, set<Queue>>, gave: map<Task, set<Queue>>)

  function Of(m: map<Task, set<Queue>>, t: Task): set<Queue> { if t in m then m[t] else {} }

  function Noted(w: World, j: JStep, tr: Trace): Trace
    requires JEnabled(w, j)
  {
    match j
    case Client(c, move) =>
      var t := w.sys.cpus[c].current;
      if IsCall(move) then Trace(tr.calls[t := move], tr.took[t := {}], tr.gave[t := {}]) else tr
    case Sys(Take(c)) =>
      var t := w.sys.cpus[c].current;
      tr.(took := tr.took[t := Of(tr.took, t) + {w.sys.cpus[c].mode.op.q}])
    case Sys(Give(c)) =>
      var t := w.sys.cpus[c].current;
      tr.(gave := tr.gave[t := Of(tr.gave, t) + {w.sys.cpus[c].mode.op.q}])
    case _ => tr
  }

  ghost function TraceOf(w: World, js: seq<JStep>, tr: Trace): Trace
    requires IsJRun(w, js)
    decreases |js|
  {
    if js == [] then tr else TraceOf(JApply(w, js[0]), js[1..], Noted(w, js[0], tr))
  }

  /** What a finished call has waited for and posted to. */
  predicate Complete(k: Clients, call: Move, took: set<Queue>, gave: set<Queue>) {
    match call
    case CallLock(m) => m in took && m in gave
    case CallSend(ch, _) =>
      ch in k.chans && k.chans[ch].lock in took && k.chans[ch].lock in gave && k.chans[ch].items in gave
    case CallRecv(ch) =>
      ch in k.chans && k.chans[ch].items in took && k.chans[ch].lock in took && k.chans[ch].lock in gave
    case _ => true
  }

  /** How far the last call of a thread is. */
  predicate OnWay(k: Clients, st: Stage, t: Task, tr: Trace) {
    match st
    case Out => t in tr.calls ==> Complete(k, tr.calls[t], Of(tr.took, t), Of(tr.gave, t))
    case Returned(_) => t in tr.calls ==> Complete(k, tr.calls[t], Of(tr.took, t), Of(tr.gave, t))
    case Posting(ch) =>
      && t in tr.calls && tr.calls[t].CallSend? && tr.calls[t].ch == ch && ch in k.chans
      && k.chans[ch].lock in Of(tr.took, t) && k.chans[ch].lock in Of(tr.gave, t)
    case Awaiting(ch) => t in tr.calls && tr.calls[t] == CallRecv(ch)
    case Panicked => true
    case Locking(m, why) => InCall(k, m, why, t, tr)
    case Holding(m, why, _) => InCall(k, m, why, t, tr) && m in Of(tr.took, t)
    case Dropping(m, why, _) => InCall(k, m, why, t, tr) && m in Of(tr.took, t)
  }

  predicate InCall(k: Clients, m: Queue, why: Why, t: Task, tr: Trace) {
    t in tr.calls &&
    match why
    case ForUser => tr.calls[t] == CallLock(m)
    case ForSend(ch, x) => tr.calls[t] == CallSend(ch, x)
    case ForRecv(ch) => tr.calls[t] == CallRecv(ch) && ch in k.chans && k.chans[ch].items in Of(tr.took, t)
  }

  ghost predicate AllOnWay(k: Clients, tr: Trace) { forall t :: OnWay(k, StageOf(k, t), t, tr) }

  // ---- steps ----

  lemma MoveOnWay(w: World, c: Cpu, move: Move, tr: Trace)
    requires JEnabled(w, Client(c, move)) && AllOnWay(w.k, tr)
    ensures AllOnWay(JApply(w, Client(c, move)).k, Noted(w, Client(c, move), tr))
  {
    var t := w.sys.cpus[c].current;
    var k := JApply(w, Client(c, move)).k;
    forall u ensures OnWay(k, StageOf(k, u), u, Noted(w, Client(c, move), tr)) {
      assert OnWay(w.k, StageOf(w.k, u), u, tr);
      assert OnWay(w.k, StageOf(w.k, t), t, tr);
      if u != t { assert StageOf(k, u) == StageOf(w.k, u); }
    }
  }

  function Took(tr: Trace, t: Task, q: Queue): Trace { tr.(took := tr.took[t := Of(tr.took, t) + {q}]) }
  function Gave(tr: Trace, t: Task, q: Queue): Trace { tr.(gave := tr.gave[t := Of(tr.gave, t) + {q}]) }

  /** More waits and posts do no harm. */
  lemma MoreOnWay(k: Clients, tr: Trace, t: Task, q: Queue)
    requires AllOnWay(k, tr)
    ensures AllOnWay(k, Took(tr, t, q)) && AllOnWay(k, Gave(tr, t, q))
  {
    forall u ensures OnWay(k, StageOf(k, u), u, Took(tr, t, q)) && OnWay(k, StageOf(k, u), u, Gave(tr, t, q)) {
      assert OnWay(k, StageOf(k, u), u, tr);
    }
  }

  /** A wait or a post that a call was waiting for moves it on. */
  lemma AdvanceOnWay(k: Clients, tr: Trace, t: Task, q: Queue, take: bool)
    requires AllOnWay(k, tr) && t in k.stage && GoodStage(k, k.stage[t])
    requires if take then WaitsOn(k, k.stage[t], q) else PostsTo(k, k.stage[t], q)
    ensures AllOnWay(Advance(k, t, take), if take then Took(tr, t, q) else Gave(tr, t, q))
  {
    var k', tr' := Advance(k, t, take), if take then Took(tr, t, q) else Gave(tr, t, q);
    forall u ensures OnWay(k', StageOf(k', u), u, tr') {
      assert OnWay(k, StageOf(k, u), u, tr);
      if u != t { assert StageOf(k', u) == StageOf(k, u); }
    }
  }

  lemma SysOnWay(w: World, step: Step, tr: Trace)
    requires WorldInv(w) && JEnabled(w, Sys(step)) && AllOnWay(w.k, tr)
    ensures AllOnWay(JApply(w, Sys(step)).k, Noted(w, Sys(step), tr))
  {
    SysSeen(w, step, Log(map[], [], []), 0);
    ReachesPoint(w, step);
    hide WorldInv, AllOnWay, Observe, ObserveGive, GoodStage;
    if step.Take? || step.Give? {
      var t, q := w.sys.cpus[step.c].current, w.sys.cpus[step.c].mode.op.q;
      if Notifies(w, step) {
        AdvanceOnWay(w.k, tr, t, q, step.Take?);
      } else {
        MoreOnWay(w.k, tr, t, q);
      }
    }
  }

  lemma TraceStep(w: World, j: JStep, tr: Trace)
    requires WorldInv(w) && JEnabled(w, j) && AllOnWay(w.k, tr)
    ensures AllOnWay(JApply(w, j).k, Noted(w, j, tr))
  {
    match j
    case Sys(step) => SysOnWay(w, step, tr);
    case Client(c, move) => MoveOnWay(w, c, move, tr);
    case NewMutex(m) => SameOnWay(w.k, JApply(w, j).k, tr);
    case NewChannel(ch, m, items) => SameOnWay(w.k, JApply(w, j).k, tr);
  }

  lemma SameOnWay(k: Clients, k': Clients, tr: Trace)
    requires AllOnWay(k, tr) && k'.stage == k.stage && forall ch :: ch in k.chans ==> ch in k'.chans && k'.chans[ch] == k.chans[ch]
    ensures AllOnWay(k', tr)
  {
    forall u ensures OnWay(k', StageOf(k', u), u, tr) { assert OnWay(k, StageOf(k, u), u, tr); }
  }

  lemma {:induction false} TraceRun(w: World, js: seq<JStep>, tr: Trace)
    requires WorldInv(w) && IsJRun(w, js) && AllOnWay(w.k, tr)
    ensures AllOnWay(JAfter(w, js).k, TraceOf(w, js, tr))
    decreases |js|
  {
    if js != [] {
      TraceStep(w, js[0], tr);
      WorldStep(w, js[0]);
      hide AllOnWay, WorldInv, Noted, JApply, JEnabled;
      TraceRun(JApply(w, js[0]), js[1..], Noted(w, js[0], tr));
    }
  }

  /** In every run, before a thread makes another call, its last one is complete: `lock` has waited for the mutex and
      the guard was dropped; `send` has held the channel's mutex and posted an item; `recv` has waited for an item
      and held the channel's mutex. */
  lemma CallsComplete(js: seq<JStep>, c: Cpu, move: Move)
    requires IsJRun(Start(), js) && JEnabled(JAfter(Start(), js), Client(c, move)) && IsCall(move)
    ensures var tr := TraceOf(Start(), js, Trace(map[], map[], map[])); var w := JAfter(Start(), js);
      var t := w.sys.cpus[c].current;
      t in tr.calls ==> Complete(w.k, tr.calls[t], Of(tr.took, t), Of(tr.gave, t))
  {
    StartOk();
    TraceRun(Start(), js, Trace(map[], map[], map[]));
    var w := JAfter(Start(), js);
    var t := w.sys.cpus[c].current;
    assert OnWay(w.k, StageOf(w.k, t), t, TraceOf(Start(), js, Trace(map[], map[], map[])));
  }

  // ---- progress ----

  /** The next step of a call that runs on CPU `c`. */
  function NextOf(k: Clients, st: Stage, c: Cpu): JStep
    requires GoodStage(k, st) && !BetweenCalls(st)
  {
    match st
    case Locking(m, _) => Sys(Begin(c, SemWait(m)))
    case Holding(_, why, seen) =>
      if why.ForUser? then Client(c, DropGuard) else if seen.Unread? then Client(c, ReadDeque) else Client(c, WriteDeque)
    case Dropping(m, _, _) => Sys(Begin(c, Post(m)))
    case Posting(ch) => Sys(Begin(c, Post(k.chans[ch].items)))
    case Awaiting(ch) => Sys(Begin(c, SemWait(k.chans[ch].items)))
  }

  /** In every run, a thread that is executed outside the scheduler in the middle of a call can go on with it. */
  lemma CallsGoOn(js: seq<JStep>, c: Cpu)
    requires IsJRun(Start(), js) && At(JAfter(Start(), js).sys, c, User)
    ensures var w := JAfter(Start(), js); var t := w.sys.cpus[c].current;
      t.Thread? && !BetweenCalls(StageOf(w.k, t)) ==>
        GoodStage(w.k, StageOf(w.k, t)) && JEnabled(w, NextOf(w.k, StageOf(w.k, t), c))
  {
    StartOk();
    WorldRun(Start(), js);
    GoesOnHere(JAfter(Start(), js), c);
  }

  lemma GoesOnHere(w: World, c: Cpu)
    requires WorldInv(w) && At(w.sys, c, User)
    ensures var t := w.sys.cpus[c].current;
      t.Thread? && !BetweenCalls(StageOf(w.k, t)) ==>
        GoodStage(w.k, StageOf(w.k, t)) && JEnabled(w, NextOf(w.k, StageOf(w.k, t), c))
  {
    var t := w.sys.cpus[c].current;
    if t.Thread? && !BetweenCalls(StageOf(w.k, t)) {
      assert t in w.k.stage && GoodStage(w.k, w.k.stage[t]);
    }
  }
}
