/** The pointer queue on the step machine: handles around a queue whose every shared access is a
    step of its own. Each run is a run of the pointer model, whose laws therefore hold of it. */
module PointerMachine {
  import opened FifoSpec
  import opened Histories
  import opened Machine
  import opened Simulation
  import opened Linearizability
  import opened Solo
  import P = PointerModel

  /** What a thread does next: reset its handle to a new object, destroy its handle's object,
      call push or pop, or make one step of its call. */
  datatype Turn = Make(t: nat) | Drop(t: nat) | CallPush(t: nat) | CallPop(t: nat) | Step(t: nat)

  /** The inner queue's schedule so far, every thread's handle, the number of objects made and
      the ones deleted, in order. */
  datatype System = System(acts: seq<Action>, handles: seq<Value>, created: nat, deleted: seq<Value>)

  function Start0(threads: nat): System { System([], seq(threads, _ => 0), 0, []) }

  function InnerPc(c: Config, s: System, t: nat): Pc { PcAt(c, |s.handles|, s.acts, t) }

  function InnerEvent(c: Config, s: System, a: Action): Event {
    Next(c, Exec(c, |s.handles|, s.acts), a).1
  }

  /** What push and pop do to the handle once the inner call has responded. */
  function Returned(s: System, t: nat, ev: Event): System
    requires t < |s.handles|
  {
    match ev
    case Respond(Push(_), Pushed(_)) => s.(handles := s.handles[t := 0])
    case Respond(Pop, Popped(p, _)) =>
      s.(deleted := P.Deleting(s.deleted, s.handles[t]), handles := s.handles[t := p])
    case _ => s
  }

  function Moved(c: Config, s: System, turn: Turn): System {
    if turn.t >= |s.handles| then s
    else match turn
      case Make(t) =>
        if InnerPc(c, s, t).Idle? then
          s.(created := s.created + 1, deleted := P.Deleting(s.deleted, s.handles[t]),
             handles := s.handles[t := s.created + 1])
        else s
      case Drop(t) =>
        if InnerPc(c, s, t).Idle? then
          s.(deleted := P.Deleting(s.deleted, s.handles[t]), handles := s.handles[t := 0])
        else s
      case CallPush(t) => s.(acts := s.acts + [Start(t, Push(s.handles[t]))])
      case CallPop(t) => s.(acts := s.acts + [Start(t, Pop)])
      case Step(t) =>
        Returned(s.(acts := s.acts + [Go(t, true)]), t, InnerEvent(c, s, Go(t, true)))
  }

  function Run(c: Config, threads: nat, turns: seq<Turn>): (s: System)
    ensures |s.handles| == threads
  {
    if turns == [] then Start0(threads) else Moved(c, Run(c, threads, Butlast(turns)), Last(turns))
  }

  // ---------- the pointer model's view ----------

  /** What a thread owns and carries, as the pointer model sees it. */
  function HolderOf(pc: Pc, handle: Value): P.Holder {
    match PhaseOf(pc)
    case Decided(Push(_), Pushed(_)) => P.Holder(handle, P.Releasing)
    case Decided(Pop, Popped(p, _)) => P.Holder(handle, P.Resetting(p))
    case _ => P.Holder(handle, P.Rest)
  }

  function Holders(c: Config, s: System): (hs: seq<P.Holder>)
    ensures |hs| == |s.handles|
    ensures forall t :: 0 <= t < |s.handles| ==> hs[t] == HolderOf(InnerPc(c, s, t), s.handles[t])
  { seq(|s.handles|, t requires 0 <= t < |s.handles| => HolderOf(InnerPc(c, s, t), s.handles[t])) }

  /** The model's step for a move: the inner effect publishes or takes, the response releases or
      resets. */
  function Seen(c: Config, s: System, turn: Turn): seq<P.Action> {
    if turn.t >= |s.handles| then []
    else match turn
      case Make(t) => if InnerPc(c, s, t).Idle? then [P.Make(t)] else []
      case Drop(t) => if InnerPc(c, s, t).Idle? then [P.Drop(t)] else []
      case Step(t) => SeenAs(t, InnerEvent(c, s, Go(t, true)))
      case _ => []
  }

  function SeenAs(t: nat, ev: Event): seq<P.Action> {
    match ev
    case Lin(Push(_), _) => [P.Publish(t)]
    case Lin(Pop, _) => [P.Take(t)]
    case Respond(Push(_), Pushed(_)) => [P.Release(t)]
    case Respond(Pop, Popped(_, _)) => [P.Reset(t)]
    case _ => []
  }

  function View(c: Config, threads: nat, turns: seq<Turn>): seq<P.Action> {
    if turns == [] then []
    else View(c, threads, Butlast(turns)) + Seen(c, Run(c, threads, Butlast(turns)), Last(turns))
  }

  function InnerFifo(c: Config, s: System): Queue { FifoAt(c, |s.handles|, s.acts) }

  /** The model's world w is this system's. */
  predicate Views(c: Config, s: System, w: P.World) {
    && w.queue == InnerFifo(c, s) && w.holders == Holders(c, s)
    && w.created == s.created && w.deleted == s.deleted && !w.closing
  }

  /** Calls are of push with the own handle, or of pop. */
  predicate CallInv(pc: Pc, handle: Value) {
    pc.Idle? || pc.op == Push(handle) || pc.op == Pop
  }

  predicate SystemInv(c: Config, s: System) {
    forall t :: 0 <= t < |s.handles| ==> CallInv(InnerPc(c, s, t), s.handles[t])
  }

  /** Thread t's control state after one more action of the inner schedule. */
  function PcNext(c: Config, s: System, a: Action, t: nat): Pc {
    var pc := InnerPc(c, s, t);
    if a.tid != t then pc
    else if a.Start? then if pc.Idle? then Entry(a.op) else pc
    else Act(c, Exec(c, |s.handles|, s.acts).mem, pc, a.accept).1
  }

  lemma InnerSnoc(c: Config, s: System, a: Action)
    ensures var s' := s.(acts := s.acts + [a]);
      && InnerFifo(c, s') == After(InnerFifo(c, s), InnerEvent(c, s, a))
      && forall t :: 0 <= t < |s.handles| ==> InnerPc(c, s', t) == PcNext(c, s, a, t)
    ensures a.tid < |s.handles| && a.Start? ==>
      InnerEvent(c, s, a) == if InnerPc(c, s, a.tid).Idle? then Invoke(a.op) else Tau
  {
    Snoc(s.acts, a);
    ThreadCount(c, |s.handles|, s.acts);
    forall t | 0 <= t < |s.handles| { PcAfter(c, |s.handles|, s.acts + [a], t); }
  }

  /** An inner step: its event fits the thread's phase, keeps the operation, and answers as the
      atomic queue. */
  lemma InnerStep(c: Config, s: System, t: nat)
    requires !c.wraps && t < |s.handles| && SystemInv(c, s)
    ensures var pc, ev := InnerPc(c, s, t), InnerEvent(c, s, Go(t, true));
      var pc' := InnerPc(c, s.(acts := s.acts + [Go(t, true)]), t);
      && Fits(PhaseOf(pc), ev) && PhaseOf(pc') == Move(PhaseOf(pc), ev)
      && (ev.Lin? ==> Allowed(c.N(), InnerFifo(c, s), ev.op, ev.res))
      && (pc'.Idle? || (!pc.Idle? && pc'.op == pc.op))
  {
    var st, f := Exec(c, |s.handles|, s.acts), InnerFifo(c, s);
    Reachable(c, |s.handles|, s.acts);
    ThreadCount(c, |s.handles|, s.acts);
    InnerSnoc(c, s, Go(t, true));
    ForwardSimulation(c, st, f, Go(t, true));
    PhaseStep(c, st, f, Go(t, true));
    PhaseKeepsOp(InnerPc(c, s, t), InnerEvent(c, s, Go(t, true)), InnerPc(c, s.(acts := s.acts + [Go(t, true)]), t));
  }

  lemma PhaseKeepsOp(pc: Pc, ev: Event, pc': Pc)
    requires Fits(PhaseOf(pc), ev) && PhaseOf(pc') == Move(PhaseOf(pc), ev) && !ev.Invoke?
    ensures pc'.Idle? || (!pc.Idle? && pc'.op == pc.op)
  {
  }

  // ---------- every run is a run of the pointer model ----------

  function Followed(c: Config, w: P.World, seen: seq<P.Action>): P.World {
    if seen == [] then w else P.Next(c.N(), w, seen[0])
  }

  lemma OneHolder(c: Config, s: System, s': System, t: nat)
    requires t < |s.handles| == |s'.handles|
    requires forall x :: 0 <= x < |s.handles| && x != t ==>
      s'.handles[x] == s.handles[x] && InnerPc(c, s', x) == InnerPc(c, s, x)
    ensures Holders(c, s') == Holders(c, s)[t := HolderOf(InnerPc(c, s', t), s'.handles[t])]
  {
  }

  lemma LocalTurn(c: Config, s: System, w: P.World, turn: Turn)
    requires Views(c, s, w) && SystemInv(c, s) && turn.t < |s.handles| && (turn.Make? || turn.Drop?)
    ensures Views(c, Moved(c, s, turn), Followed(c, w, Seen(c, s, turn))) && SystemInv(c, Moved(c, s, turn))
  {
    var s' := Moved(c, s, turn);
    assert forall x :: InnerPc(c, s', x) == InnerPc(c, s, x);
    OneHolder(c, s, s', turn.t);
  }

  /** A call of the inner queue begins. */
  lemma InnerCall(c: Config, s: System, t: nat, op: Call)
    requires t < |s.handles|
    ensures var s' := s.(acts := s.acts + [Start(t, op)]);
      && InnerFifo(c, s') == InnerFifo(c, s)
      && (forall x :: 0 <= x < |s.handles| && x != t ==> InnerPc(c, s', x) == InnerPc(c, s, x))
      && InnerPc(c, s', t) == if InnerPc(c, s, t).Idle? then Entry(op) else InnerPc(c, s, t)
  {
    InnerSnoc(c, s, Start(t, op));
    hide InnerPc, InnerEvent, InnerFifo, Entry, Act, Exec;
  }

  /** A turn that shows nothing: only the control state of thread t differs, and not what it owns. */
  lemma Unseen(c: Config, s: System, s': System, w: P.World, t: nat)
    requires Views(c, s, w) && SystemInv(c, s) && t < |s.handles| && s' == s.(acts := s'.acts)
    requires InnerFifo(c, s') == InnerFifo(c, s)
    requires forall x :: 0 <= x < |s.handles| && x != t ==> InnerPc(c, s', x) == InnerPc(c, s, x)
    requires HolderOf(InnerPc(c, s', t), s.handles[t]) == HolderOf(InnerPc(c, s, t), s.handles[t])
    requires CallInv(InnerPc(c, s', t), s.handles[t])
    ensures Views(c, s', w) && SystemInv(c, s')
  {
    hide InnerPc, InnerFifo, HolderOf, Holders, CallInv;
    OneHolder(c, s, s', t);
    assert Holders(c, s') == Holders(c, s);
  }

  lemma CallTurn(c: Config, s: System, w: P.World, turn: Turn)
    requires Views(c, s, w) && SystemInv(c, s) && turn.t < |s.handles| && (turn.CallPush? || turn.CallPop?)
    ensures Views(c, Moved(c, s, turn), Followed(c, w, Seen(c, s, turn))) && SystemInv(c, Moved(c, s, turn))
  {
    var s', t := Moved(c, s, turn), turn.t;
    var op := if turn.CallPush? then Push(s.handles[t]) else Pop;
    assert CallInv(InnerPc(c, s, t), s.handles[t]);
    hide InnerPc, InnerEvent, InnerFifo, HolderOf, CallInv, Entry, Views, SystemInv;
    InnerCall(c, s, t, op);
    Called(InnerPc(c, s, t), InnerPc(c, s', t), op, s.handles[t]);
    Unseen(c, s, s', w, t);
  }

  lemma Called(pc: Pc, pc': Pc, op: Call, handle: Value)
    requires CallInv(pc, handle) && pc' == (if pc.Idle? then Entry(op) else pc) && (op == Push(handle) || op == Pop)
    ensures CallInv(pc', handle) && HolderOf(pc', handle) == HolderOf(pc, handle)
  {
  }

  /** The model's step at an event of thread t's call does to its world what the event does to
      the inner queue and what the return does to the handle. */
  lemma EventSeen(c: Config, w: P.World, s: System, t: nat, pc: Pc, pc': Pc, ev: Event)
    requires t < |w.holders| == |s.handles| && !w.closing && w.deleted == s.deleted
    requires CallInv(pc, s.handles[t]) && w.holders[t] == HolderOf(pc, s.handles[t])
    requires Fits(PhaseOf(pc), ev) && PhaseOf(pc') == Move(PhaseOf(pc), ev) && !ev.Invoke?
    requires ev.Lin? ==> Allowed(c.N(), w.queue, ev.op, ev.res)
    requires pc'.Idle? || (!pc.Idle? && pc'.op == pc.op)
    ensures var w', s' := Followed(c, w, SeenAs(t, ev)), Returned(s, t, ev);
      && w'.queue == After(w.queue, ev) && w'.created == w.created && !w'.closing
      && w'.deleted == s'.deleted
      && w'.holders == w.holders[t := HolderOf(pc', s'.handles[t])]
      && CallInv(pc', s'.handles[t])
  {
    if ev.Tau? {
      assert w.holders[t := w.holders[t]] == w.holders;
    } else {
      assert pc.op == ev.op;
    }
  }

  lemma StepTurn(c: Config, s: System, w: P.World, t: nat)
    requires !c.wraps && Views(c, s, w) && SystemInv(c, s) && t < |s.handles|
    ensures Views(c, Moved(c, s, Step(t)), Followed(c, w, Seen(c, s, Step(t))))
    ensures SystemInv(c, Moved(c, s, Step(t)))
  {
    var mid, ev := s.(acts := s.acts + [Go(t, true)]), InnerEvent(c, s, Go(t, true));
    var s' := Returned(mid, t, ev);
    hide InnerPc, InnerEvent, InnerFifo, After, SeenAs, Followed, HolderOf, Holders, Act, Exec, PhaseOf, Allowed;
    InnerSnoc(c, s, Go(t, true));
    InnerStep(c, s, t);
    SameInner(c, mid, s');
    OneHolder(c, s, s', t);
    EventSeen(c, w, mid, t, InnerPc(c, s, t), InnerPc(c, s', t), ev);
  }

  lemma SameInner(c: Config, s: System, s': System)
    requires s.acts == s'.acts && |s.handles| == |s'.handles|
    ensures InnerFifo(c, s') == InnerFifo(c, s) && forall x: nat :: InnerPc(c, s', x) == InnerPc(c, s, x)
  {
  }

  lemma TurnSeen(c: Config, s: System, w: P.World, turn: Turn)
    requires !c.wraps && Views(c, s, w) && SystemInv(c, s)
    ensures Views(c, Moved(c, s, turn), Followed(c, w, Seen(c, s, turn))) && SystemInv(c, Moved(c, s, turn))
    ensures |Seen(c, s, turn)| <= 1
  {
    hide Views, SystemInv, Followed;
    if turn.t < |s.handles| {
      match turn
      case Step(t) => StepTurn(c, s, w, t);
      case Make(_) => LocalTurn(c, s, w, turn);
      case Drop(_) => LocalTurn(c, s, w, turn);
      case CallPush(_) => CallTurn(c, s, w, turn);
      case CallPop(_) => CallTurn(c, s, w, turn);
    } else {
      NothingSeen(c, s, w, turn);
    }
  }

  lemma NothingSeen(c: Config, s: System, w: P.World, turn: Turn)
    requires turn.t >= |s.handles|
    ensures Moved(c, s, turn) == s && Followed(c, w, Seen(c, s, turn)) == w
  {
  }

  /** Every run of the pointer queue on the step machine is, seen from outside, a run of the
      pointer model: same contents, same handles and hand-overs, same deletions. */
  lemma {:induction false} RunsAreSeen(c: Config, threads: nat, turns: seq<Turn>)
    requires !c.wraps
    ensures Views(c, Run(c, threads, turns), P.Exec(c.N(), threads, View(c, threads, turns)))
    ensures SystemInv(c, Run(c, threads, turns))
  {
    if turns == [] {
      var s := Start0(threads);
      ThreadCount(c, threads, []);
      assert forall t :: 0 <= t < threads ==> InnerPc(c, s, t).Idle?;
      assert Holders(c, s) == P.Init(threads).holders;
    } else {
      var pre, last := Butlast(turns), Last(turns);
      var s := Run(c, threads, pre);
      RunsAreSeen(c, threads, pre);
      TurnSeen(c, s, P.Exec(c.N(), threads, View(c, threads, pre)), last);
      ViewStep(c, threads, turns);
    }
  }

  lemma {:induction false} ViewStep(c: Config, threads: nat, turns: seq<Turn>)
    requires turns != [] && |Seen(c, Run(c, threads, Butlast(turns)), Last(turns))| <= 1
    ensures P.Exec(c.N(), threads, View(c, threads, turns))
      == Followed(c, P.Exec(c.N(), threads, View(c, threads, Butlast(turns))),
                  Seen(c, Run(c, threads, Butlast(turns)), Last(turns)))
  {
    hide Run, Seen, P.Next;
    var v, seen := View(c, threads, Butlast(turns)), Seen(c, Run(c, threads, Butlast(turns)), Last(turns));
    if seen == [] {
      assert v + seen == v;
    } else {
      assert seen == [seen[0]];
      Snoc(v, seen[0]);
    }
  }

  /** In every run of the step machine each object made is in exactly one place: in the queue's
      contents, in a handle that owns it, in the hands of one pop, or deleted once. */
  lemma {:induction false} OnePlaceInSteps(c: Config, threads: nat, turns: seq<Turn>, p: Value)
    requires !c.wraps && p > 0
    ensures var s := Run(c, threads, turns);
      P.Times(p, InnerFifo(c, s).items) + P.TimesHeld(p, Holders(c, s)) + P.Times(p, s.deleted)
      == if p <= s.created then 1 else 0
  {
    RunsAreSeen(c, threads, turns);
    P.OnePlace(c.N(), threads, View(c, threads, turns), p);
  }

  // ---------- what a call does ----------

  lemma {:induction false} RunSnoc(c: Config, threads: nat, turns: seq<Turn>, turn: Turn)
    ensures Run(c, threads, turns + [turn]) == Moved(c, Run(c, threads, turns), turn)
  {
    Snoc(turns, turn);
  }

  /** When the inner pop responds with p, the caller's handle owns p, which is nowhere else and not
      deleted, and the handle's former object has been deleted once (if there was one). */
  lemma {:induction false} PopReturns(c: Config, threads: nat, turns: seq<Turn>, t: nat, p: Value, i: nat)
    requires !c.wraps && t < threads
    requires InnerEvent(c, Run(c, threads, turns), Go(t, true)) == Respond(Pop, Popped(p, i))
    ensures var s, s' := Run(c, threads, turns), Run(c, threads, turns + [Step(t)]);
      && s'.handles == s.handles[t := p] && InnerFifo(c, s') == InnerFifo(c, s)
      && s'.deleted == s.deleted + (if s.handles[t] == 0 then [] else [s.handles[t]])
      && (p > 0 ==> p !in s'.deleted && p !in InnerFifo(c, s').items)
      && (s.handles[t] > 0 ==> P.Times(s.handles[t], s'.deleted) == 1)
  {
    var s, s' := Run(c, threads, turns), Run(c, threads, turns + [Step(t)]);
    RunSnoc(c, threads, turns, Step(t));
    InnerSnoc(c, s, Go(t, true));
    SameInner(c, s.(acts := s.acts + [Go(t, true)]), s');
    if p > 0 { ReturnedIsFree(c, threads, turns, t, p, i); }
    if s.handles[t] > 0 {
      OnePlaceInSteps(c, threads, turns + [Step(t)], s.handles[t]);
      P.TimesSnoc(s.handles[t], s.deleted, s.handles[t]);
    }
  }

  lemma {:induction false} ReturnedIsFree(c: Config, threads: nat, turns: seq<Turn>, t: nat, p: Value, i: nat)
    requires !c.wraps && t < threads && p > 0
    requires InnerEvent(c, Run(c, threads, turns), Go(t, true)) == Respond(Pop, Popped(p, i))
    ensures var s' := Run(c, threads, turns + [Step(t)]);
      p !in s'.deleted && p !in InnerFifo(c, s').items
  {
    var s, s' := Run(c, threads, turns), Run(c, threads, turns + [Step(t)]);
    RunSnoc(c, threads, turns, Step(t));
    RunsAreSeen(c, threads, turns);
    InnerStep(c, s, t);
    InnerSnoc(c, s, Go(t, true));
    SameInner(c, s.(acts := s.acts + [Go(t, true)]), s');
    assert Holders(c, s')[t] == P.Holder(p, P.Rest);
    OnePlaceInSteps(c, threads, turns + [Step(t)], p);
    P.HeldAtLeast(p, Holders(c, s'), t);
    P.TimesIn(p, InnerFifo(c, s').items);
    P.TimesIn(p, s'.deleted);
  }

  /** `more` is `turns` followed by steps of thread t only. */
  predicate Steps(turns: seq<Turn>, more: seq<Turn>, t: nat) {
    turns <= more && forall i :: |turns| <= i < |more| ==> more[i] == Step(t)
  }

  /** The inner call of thread t has just responded, and its wrapper has returned: all that has
      changed since s is the queue and, by the return, the handle and the deletions. */
  predicate Completed(c: Config, s: System, s': System, t: nat, op: Call, f0: Queue)
    requires t < |s.handles|
  {
    && |s'.handles| == |s.handles| && Responded(c, |s.handles|, s'.acts, t, op, f0, true)
    && s' == Returned(s.(acts := s'.acts), t, Last(Trace(c, |s.handles|, s'.acts)).1)
    && InnerPc(c, s', t).Idle?
  }

  /** One more step of a call that runs alone. */
  lemma {:induction false} OneStepAlone(c: Config, threads: nat, turns: seq<Turn>, t: nat, op: Call, f0: Queue)
    requires !c.wraps && t < threads && Underway(c, threads, Run(c, threads, turns).acts, t, f0, op, true)
    ensures var s, s' := Run(c, threads, turns), Run(c, threads, turns + [Step(t)]);
      && Remaining(c, threads, s'.acts, t) < Remaining(c, threads, s.acts, t)
      && if InnerPc(c, s', t).Idle? then Completed(c, s, s', t, op, f0)
         else Underway(c, threads, s'.acts, t, f0, op, true) && s' == s.(acts := s'.acts)
  {
    var s, s' := Run(c, threads, turns), Run(c, threads, turns + [Step(t)]);
    RunSnoc(c, threads, turns, Step(t));
    RunsAreSeen(c, threads, turns);
    var ev := InnerEvent(c, s, Go(t, true));
    InnerStep(c, s, t);
    InnerSnoc(c, s, Go(t, true));
    var next := StepAlone(c, threads, s.acts, t, f0, op, true);
    TraceStep(c, threads, next);
    Snoc(s.acts, Go(t, true));
    hide Underway, Remaining, Responded, Exec, FifoAt;
    assert s'.acts == next;
    assert InnerPc(c, s', t) == PcAt(c, threads, next, t);
  }

  lemma {:induction false} RunCall(c: Config, threads: nat, turns: seq<Turn>, t: nat, op: Call, f0: Queue)
      returns (more: seq<Turn>)
    requires !c.wraps && t < threads && Underway(c, threads, Run(c, threads, turns).acts, t, f0, op, true)
    ensures Steps(turns, more, t)
    ensures Completed(c, Run(c, threads, turns), Run(c, threads, more), t, op, f0)
    ensures |more| <= |turns| + Remaining(c, threads, Run(c, threads, turns).acts, t)
    decreases Remaining(c, threads, Run(c, threads, turns).acts, t)
  {
    hide Run, Underway, Remaining, Completed, InnerPc;
    OneStepAlone(c, threads, turns, t, op, f0);
    more := turns + [Step(t)];
    if !InnerPc(c, Run(c, threads, more), t).Idle? {
      var mid := more;
      more := RunCall(c, threads, mid, t, op, f0);
      CompletedSince(c, Run(c, threads, turns), Run(c, threads, mid), Run(c, threads, more), t, op, f0);
    }
  }

  lemma CompletedSince(c: Config, s: System, mid: System, s': System, t: nat, op: Call, f0: Queue)
    requires t < |s.handles| && mid == s.(acts := mid.acts) && Completed(c, mid, s', t, op, f0)
    ensures Completed(c, s, s', t, op, f0)
  {
  }

  /** Starting a call, on an idle thread. */
  lemma {:induction false} BeginCall(c: Config, threads: nat, turns: seq<Turn>, t: nat, turn: Turn)
    requires !c.wraps && t < threads && InnerPc(c, Run(c, threads, turns), t).Idle?
    requires turn == CallPush(t) || turn == CallPop(t)
    ensures var s, s' := Run(c, threads, turns), Run(c, threads, turns + [turn]);
      var op := if turn.CallPush? then Push(s.handles[t]) else Pop;
      && s' == s.(acts := s'.acts) && Underway(c, threads, s'.acts, t, InnerFifo(c, s), op, true)
      && Remaining(c, threads, s'.acts, t) <= 8
  {
    var s := Run(c, threads, turns);
    var op := if turn.CallPush? then Push(s.handles[t]) else Pop;
    RunSnoc(c, threads, turns, turn);
    var next := StartAlone(c, threads, s.acts, t, op, true);
  }

  lemma PushOutcome(c: Config, s: System, mid: System, s': System, t: nat)
    requires !c.wraps && t < |s.handles| && mid == s.(acts := mid.acts)
    requires Completed(c, mid, s', t, Push(s.handles[t]), InnerFifo(c, s))
    ensures var items := InnerFifo(c, s).items;
      && InnerPc(c, s', t).Idle? && s'.created == s.created && s'.deleted == s.deleted
      && InnerFifo(c, s').items == (if |items| < c.N() then items + [s.handles[t]] else items)
      && s'.handles == if |items| < c.N() then s.handles[t := 0] else s.handles
  {
    hide FifoAt, InnerPc;
  }

  /** push, called on an idle thread while all others pause wherever they are, returns within eight
      steps: with room, the pointer is appended to the queue and the handle is null; on a full
      queue nothing has changed. */
  lemma {:induction false} PushAlone(c: Config, threads: nat, turns: seq<Turn>, t: nat) returns (more: seq<Turn>)
    requires !c.wraps && t < threads && InnerPc(c, Run(c, threads, turns), t).Idle?
    ensures Steps(turns + [CallPush(t)], more, t) && |more| <= |turns| + 1 + 8
    ensures var s, s' := Run(c, threads, turns), Run(c, threads, more);
      var items := InnerFifo(c, s).items;
      && InnerPc(c, s', t).Idle? && s'.created == s.created && s'.deleted == s.deleted
      && InnerFifo(c, s').items == (if |items| < c.N() then items + [s.handles[t]] else items)
      && s'.handles == if |items| < c.N() then s.handles[t := 0] else s.handles
  {
    var s, called := Run(c, threads, turns), turns + [CallPush(t)];
    BeginCall(c, threads, turns, t, CallPush(t));
    hide Run, Underway, Remaining, Completed, InnerFifo, InnerPc;
    more := RunCall(c, threads, called, t, Push(s.handles[t]), InnerFifo(c, s));
    PushOutcome(c, s, Run(c, threads, called), Run(c, threads, more), t);
  }

  lemma PopOutcome(c: Config, s: System, mid: System, s': System, t: nat)
    requires !c.wraps && t < |s.handles| && mid == s.(acts := mid.acts)
    requires Completed(c, mid, s', t, Pop, InnerFifo(c, s))
    ensures var items, former := InnerFifo(c, s).items, s.handles[t];
      && InnerPc(c, s', t).Idle? && s'.created == s.created
      && if items == [] then
           InnerFifo(c, s').items == [] && s'.handles == s.handles && s'.deleted == s.deleted
         else
           && InnerFifo(c, s').items == items[1..] && s'.handles == s.handles[t := items[0]]
           && s'.deleted == s.deleted + if former == 0 then [] else [former]
  {
    hide FifoAt, InnerPc;
  }

  /** pop likewise: the head goes to the handle, whose former object is deleted; on an empty queue
      nothing has changed. */
  lemma {:induction false} PopAlone(c: Config, threads: nat, turns: seq<Turn>, t: nat) returns (more: seq<Turn>)
    requires !c.wraps && t < threads && InnerPc(c, Run(c, threads, turns), t).Idle?
    ensures Steps(turns + [CallPop(t)], more, t) && |more| <= |turns| + 1 + 8
    ensures var s, s' := Run(c, threads, turns), Run(c, threads, more);
      var items, former := InnerFifo(c, s).items, s.handles[t];
      && InnerPc(c, s', t).Idle? && s'.created == s.created
      && if items == [] then
           InnerFifo(c, s').items == [] && s'.handles == s.handles && s'.deleted == s.deleted
         else
           && InnerFifo(c, s').items == items[1..] && s'.handles == s.handles[t := items[0]]
           && s'.deleted == s.deleted + if former == 0 then [] else [former]
  {
    var s, called := Run(c, threads, turns), turns + [CallPop(t)];
    BeginCall(c, threads, turns, t, CallPop(t));
    hide Run, Underway, Remaining, Completed, InnerFifo, InnerPc;
    more := RunCall(c, threads, called, t, Pop, InnerFifo(c, s));
    PopOutcome(c, s, Run(c, threads, called), Run(c, threads, more), t);
  }

  /** Outside calls, resetting a handle to a new object, or destroying its object, deletes the
      former object once; the new one is in that handle and neither deleted nor queued. */
  lemma {:induction false} HandleTurns(c: Config, threads: nat, turns: seq<Turn>, t: nat, turn: Turn)
    requires !c.wraps && t < threads && InnerPc(c, Run(c, threads, turns), t).Idle?
    requires turn == Make(t) || turn == Drop(t)
    ensures var s, s' := Run(c, threads, turns), Run(c, threads, turns + [turn]);
      var former, made := s.handles[t], s.created + 1;
      && s'.handles == s.handles[t := if turn.Make? then made else 0] && InnerFifo(c, s') == InnerFifo(c, s)
      && s'.deleted == s.deleted + (if former == 0 then [] else [former])
      && s'.created == s.created + (if turn.Make? then 1 else 0)
      && (former > 0 ==> P.Times(former, s'.deleted) == 1)
      && (turn.Make? ==> made !in s'.deleted && made !in InnerFifo(c, s').items)
  {
    var s, s' := Run(c, threads, turns), Run(c, threads, turns + [turn]);
    RunSnoc(c, threads, turns, turn);
    var former, made := s.handles[t], s.created + 1;
    if former > 0 {
      OnePlaceInSteps(c, threads, turns + [turn], former);
      P.TimesSnoc(former, s.deleted, former);
    }
    if turn.Make? {
      assert Holders(c, s')[t] == P.Holder(made, P.Rest);
      OnePlaceInSteps(c, threads, turns + [turn], made);
      P.HeldAtLeast(made, Holders(c, s'), t);
      P.TimesIn(made, InnerFifo(c, s').items);
      P.TimesIn(made, s'.deleted);
    }
  }
}
