/** The pack on the step machine: producers and consumers around G queues whose every shared
    access is a step of its own. Each run is a run of the pack model, whose laws therefore hold of
    it. */
module PackMachine {
  import opened Bits
  import opened FifoSpec
  import opened Histories
  import opened Machine
  import opened Simulation
  import opened Linearizability
  import P = PackModel

  /** Where a consumer is: outside pop, or in the k-th inner pop of a call. */
  datatype Place = Out | At(k: nat)

  datatype Reader = Reader(index: nat, count: nat, place: Place)

  /** The inner queues' schedules so far, every producer's queue, every consumer; and, for the
      statements, what has been pushed (by whom) and popped, in the order of the effects. Producer
      p is thread 2p of each queue, consumer r is thread 2r + 1. */
  datatype System = System(acts: seq<seq<Action>>, writers: seq<nat>, readers: seq<Reader>,
                           pushed: seq<P.Item>, popped: seq<Value>)

  datatype Turn =
    | NewProducer
    | NewConsumer
    | CallPush(p: nat, value: Value)
    | StepPush(p: nat)
    | CallPop(r: nat)
    | StepPop(r: nat)

  /** Whose thread it is: the even ones are the producers', the odd ones the consumers'. */
  datatype Role = Produces(p: nat) | Consumes(r: nat)

  function WriterThread(p: nat): nat { 2 * p }

  function ReaderThread(r: nat): nat { 2 * r + 1 }

  function RoleOf(t: nat): (role: Role)
    ensures t == match role case Produces(p) => WriterThread(p) case Consumes(r) => ReaderThread(r)
  { if t % 2 == 0 then Produces(t / 2) else Consumes(t / 2) }

  lemma RoleOfReader(r: nat)
    ensures RoleOf(ReaderThread(r)) == Consumes(r)
  {
  }

  lemma RoleOfWriter(p: nat)
    ensures RoleOf(WriterThread(p)) == Produces(p)
  {
  }

  lemma ThreadsDiffer()
    ensures forall p: nat, r: nat :: WriterThread(p) != ReaderThread(r)
    ensures forall r: nat, r': nat :: ReaderThread(r) == ReaderThread(r') ==> r == r'
  {
  }

  /** G queues of capacity g.n with T threads each. */
  datatype Shape = Shape(c: Config, g: P.Params, T: nat) {
    predicate Ok() { g.Ok() && !c.wraps && c.N() == g.n }
  }

  function Begin(z: Shape): System { System(seq(z.g.G, _ => []), [], [], [], []) }

  function InnerPc(z: Shape, s: System, i: nat, t: nat): Pc
    requires i < |s.acts|
  { PcAt(z.c, z.T, s.acts[i], t) }

  function InnerFifo(z: Shape, s: System, i: nat): Queue
    requires i < |s.acts|
  { FifoAt(z.c, z.T, s.acts[i]) }

  function InnerEvent(z: Shape, s: System, i: nat, a: Action): Event
    requires i < |s.acts|
  { Next(z.c, Exec(z.c, z.T, s.acts[i]), a).1 }

  /** Queue i makes one step. */
  function Inner(s: System, i: nat, a: Action): System
    requires i < |s.acts|
  { s.(acts := s.acts[i := s.acts[i] + [a]]) }

  /** A consumer after its inner pop succeeded in the k-th attempt. */
  function Won(g: P.Params, x: Reader, k: nat): Reader
    requires g.Ok()
  {
    if k > 0 then x.(place := Out)
    else if x.count + 1 >= g.K then Reader((x.index + 1) % g.G, 0, Out)
    else Reader(x.index, x.count + 1, Out)
  }

  /** ... and after it failed: the next attempt, or the end of the call. */
  function Lost(g: P.Params, x: Reader, k: nat): Reader
    requires g.Ok()
  {
    if k + 1 < g.G then Reader((x.index + 1) % g.G, 0, At(k + 1)) else Reader(x.index, 0, Out)
  }

  /** What consumer r does when its inner pop has responded. */
  function Returned(z: Shape, s: System, r: nat, ev: Event): System
    requires z.g.Ok() && r < |s.readers| && s.readers[r].place.At? && |s.acts| == z.g.G
  {
    var x := s.readers[r];
    match ev
    case Respond(Pop, Popped(_, _)) => s.(readers := s.readers[r := Won(z.g, x, x.place.k)])
    case Respond(Pop, NoElement) =>
      var s' := s.(readers := s.readers[r := Lost(z.g, x, x.place.k)]);
      if x.place.k + 1 < z.g.G then Inner(s', (x.index + 1) % z.g.G, Start(ReaderThread(r), Pop)) else s'
    case _ => s
  }

  /** The records of effects. */
  function Recorded(s: System, p: nat, ev: Event): System {
    match ev
    case Lin(Push(v), Pushed(_)) => s.(pushed := s.pushed + [P.Item(v, p)])
    case Lin(Pop, Popped(v, _)) => s.(popped := s.popped + [v])
    case _ => s
  }

  /** The step of consumer r's inner pop, and its event. */
  function PopStepped(s: System, r: nat): System
    requires r < |s.readers| && s.readers[r].index < |s.acts|
  { Inner(s, s.readers[r].index, Go(ReaderThread(r), true)) }

  function PopEvent(z: Shape, s: System, r: nat): Event
    requires r < |s.readers| && s.readers[r].index < |s.acts|
  { InnerEvent(z, s, s.readers[r].index, Go(ReaderThread(r), true)) }

  function Moved(z: Shape, s: System, turn: Turn): (s': System)
    requires z.Ok() && |s.acts| == z.g.G
    ensures |s'.acts| == z.g.G
  {
    match turn
    case NewProducer => s.(writers := s.writers + [P.Counter(|s.writers|) % z.g.G])
    case NewConsumer => s.(readers := s.readers + [Reader(P.Counter(|s.readers|) % z.g.G, 0, Out)])
    case CallPush(p, v) =>
      if p < |s.writers| && s.writers[p] < z.g.G then Inner(s, s.writers[p], Start(WriterThread(p), Push(v))) else s
    case StepPush(p) =>
      if p < |s.writers| && s.writers[p] < z.g.G then
        var a := Go(WriterThread(p), true);
        Recorded(Inner(s, s.writers[p], a), p, InnerEvent(z, s, s.writers[p], a))
      else s
    case CallPop(r) =>
      if r < |s.readers| && s.readers[r].index < z.g.G && s.readers[r].place.Out? && ReaderThread(r) < z.T then
        var x := s.readers[r];
        Inner(s, x.index, Start(ReaderThread(r), Pop)).(readers := s.readers[r := x.(place := At(0))])
      else s
    case StepPop(r) =>
      if r < |s.readers| && s.readers[r].index < z.g.G && s.readers[r].place.At? then
        Returned(z, Recorded(PopStepped(s, r), 0, PopEvent(z, s, r)), r, PopEvent(z, s, r))
      else s
  }

  function Run(z: Shape, turns: seq<Turn>): (s: System)
    requires z.Ok()
    ensures |s.acts| == z.g.G
  {
    if turns == [] then Begin(z) else Moved(z, Run(z, Butlast(turns)), Last(turns))
  }

  // ---------- the pack model's view ----------

  function Values(items: seq<P.Item>): (vs: seq<Value>)
    ensures |vs| == |items| && forall i :: 0 <= i < |items| ==> vs[i] == items[i].value
  { seq(|items|, i requires 0 <= i < |items| => items[i].value) }

  predicate SameValues(f: Fifo<P.Item>, q: Queue) { f.pops == q.pops && Values(f.items) == q.items }

  /** The model's consumer y is this one, x, whose inner call is in phase ph. */
  predicate ReaderView(g: P.Params, x: Reader, y: P.Consumer, ph: Phase)
    requires g.Ok()
  {
    match x.place
    case Out => !y.phase.Trying? && y.index == x.index && y.count == x.count
    case At(k) =>
      match ph
      case Pending(_) => y.phase.Trying? && y.phase.k == k && y.index == x.index && y.count == x.count
      case Decided(_, res) =>
        (res.Popped? || res == NoElement) && Reached(if res.Popped? then Won(g, x, k) else Lost(g, x, k), y)
      case Ready => false
  }

  /** The model is already where x will be. */
  predicate Reached(x: Reader, y: P.Consumer) {
    && y.index == x.index && y.count == x.count
    && match x.place case Out => !y.phase.Trying? case At(k) => y.phase.Trying? && y.phase.k == k
  }

  /** Each thread of each queue is used by its producer or consumer only. */
  predicate InUse(s: System, i: nat, t: nat, pc: Pc) {
    pc.Idle? ||
    match RoleOf(t)
    case Produces(p) => p < |s.writers| && s.writers[p] == i && pc.op.Push?
    case Consumes(r) => r < |s.readers| && s.readers[r].index == i && s.readers[r].place.At? && pc.op == Pop
  }

  predicate SystemInv(z: Shape, s: System)
    requires z.Ok()
  {
    && |s.acts| == z.g.G
    && (forall i, t :: 0 <= i < z.g.G && 0 <= t < z.T ==> InUse(s, i, t, InnerPc(z, s, i, t)))
    && (forall p :: 0 <= p < |s.writers| ==> s.writers[p] < z.g.G)
    && (forall r :: 0 <= r < |s.readers| ==> ReaderInv(z, s.readers[r], r))
  }

  predicate ReaderInv(z: Shape, x: Reader, r: nat)
    requires z.Ok()
  {
    && x.index < z.g.G && x.count < z.g.Quota()
    && (x.place.At? ==> x.place.k < z.g.G && ReaderThread(r) < z.T && (x.place.k > 0 ==> x.count == 0))
  }

  function ReaderPhase(z: Shape, s: System, r: nat): Phase
    requires r < |s.readers| && s.readers[r].index < |s.acts|
  { PhaseOf(InnerPc(z, s, s.readers[r].index, ReaderThread(r))) }

  /** The model's pack w is this system's. */
  predicate Views(z: Shape, s: System, w: P.Pack)
    requires z.Ok()
  {
    && SystemInv(z, s) && |w.queues| == z.g.G
    && (forall i :: 0 <= i < z.g.G ==> SameValues(w.queues[i], InnerFifo(z, s, i)))
    && w.producers == s.writers && |w.consumers| == |s.readers|
    && (forall r :: 0 <= r < |s.readers| ==> ReaderView(z.g, s.readers[r], w.consumers[r], ReaderPhase(z, s, r)))
    && w.pushed == s.pushed && Values(w.popped) == s.popped
  }

  /** The model's step for a turn: calls of pop, and inner effects. */
  function Seen(z: Shape, s: System, turn: Turn): seq<P.Action>
    requires z.Ok() && |s.acts| == z.g.G
  {
    match turn
    case NewProducer => [P.NewProducer]
    case NewConsumer => [P.NewConsumer]
    case CallPush(_, _) => []
    case StepPush(p) =>
      if p < |s.writers| && s.writers[p] < z.g.G
      then SeenPush(p, InnerEvent(z, s, s.writers[p], Go(WriterThread(p), true))) else []
    case CallPop(r) =>
      if r < |s.readers| && s.readers[r].index < z.g.G && s.readers[r].place.Out? && ReaderThread(r) < z.T
      then [P.CallBy(r)] else []
    case StepPop(r) =>
      if r < |s.readers| && s.readers[r].index < z.g.G && s.readers[r].place.At?
      then SeenPop(r, PopEvent(z, s, r)) else []
  }

  function SeenPush(p: nat, ev: Event): seq<P.Action> {
    if ev.Lin? && ev.op.Push? then [P.PushBy(p, ev.op.d)] else []
  }

  function SeenPop(r: nat, ev: Event): seq<P.Action> { if ev.Lin? then [P.StepBy(r)] else [] }

  function View(z: Shape, turns: seq<Turn>): seq<P.Action>
    requires z.Ok()
  {
    if turns == [] then []
    else View(z, Butlast(turns)) + Seen(z, Run(z, Butlast(turns)), Last(turns))
  }

  function Followed(g: P.Params, w: P.Pack, seen: seq<P.Action>): P.Pack
    requires g.Ok() && |w.queues| == g.G
  { if seen == [] then w else P.Next(g, w, seen[0]) }

  // ---------- one inner step ----------

  /** Thread t's control state in queue i after one more action there. */
  function PcNext(z: Shape, s: System, i: nat, a: Action, t: nat): Pc
    requires i < |s.acts|
  {
    var pc := InnerPc(z, s, i, t);
    if a.tid != t then pc
    else if a.Start? then if pc.Idle? then Entry(a.op) else pc
    else Act(z.c, Exec(z.c, z.T, s.acts[i]).mem, pc, a.accept).1
  }

  lemma InnerSnoc(z: Shape, s: System, i: nat, a: Action)
    requires i < |s.acts|
    ensures var s' := Inner(s, i, a);
      && InnerFifo(z, s', i) == After(InnerFifo(z, s, i), InnerEvent(z, s, i, a))
      && (forall t :: 0 <= t < z.T ==> InnerPc(z, s', i, t) == PcNext(z, s, i, a, t))
      && (forall j, t :: 0 <= j < |s.acts| && j != i && 0 <= t ==> InnerPc(z, s', j, t) == InnerPc(z, s, j, t))
      && (forall j :: 0 <= j < |s.acts| && j != i ==> InnerFifo(z, s', j) == InnerFifo(z, s, j))
    ensures a.Start? && a.tid < z.T ==>
      InnerEvent(z, s, i, a) == if InnerPc(z, s, i, a.tid).Idle? then Invoke(a.op) else Tau
    ensures a.tid >= z.T ==> InnerEvent(z, s, i, a) == Tau
  {
    var acts := s.acts[i];
    Snoc(acts, a);
    ThreadCount(z.c, z.T, acts);
    forall t | 0 <= t < z.T { PcAfter(z.c, z.T, acts + [a], t); }
  }

  /** A step of thread t of queue i inside a call: its event fits the thread's phase, keeps the
      operation, and answers as the atomic queue. */
  lemma InnerStep(z: Shape, s: System, i: nat, t: nat)
    requires z.Ok() && i < |s.acts| && t < z.T
    ensures var pc, ev := InnerPc(z, s, i, t), InnerEvent(z, s, i, Go(t, true));
      var pc' := PcNext(z, s, i, Go(t, true), t);
      && Fits(PhaseOf(pc), ev) && PhaseOf(pc') == Move(PhaseOf(pc), ev) && !ev.Invoke?
      && (ev.Lin? ==> Allowed(z.c.N(), InnerFifo(z, s, i), ev.op, ev.res))
      && (pc'.Idle? || (!pc.Idle? && pc'.op == pc.op))
  {
    var st, f, a := Exec(z.c, z.T, s.acts[i]), InnerFifo(z, s, i), Go(t, true);
    Reachable(z.c, z.T, s.acts[i]);
    ThreadCount(z.c, z.T, s.acts[i]);
    ForwardSimulation(z.c, st, f, a);
    PhaseStep(z.c, st, f, a);
    NoInvoke(z.c, st.mem, st.pcs[t]);
    PhaseKeepsOp(st.pcs[t], Next(z.c, st, a).1, Next(z.c, st, a).0.pcs[t]);
  }

  lemma NoInvoke(c: Config, m: Mem, pc: Pc)
    requires |m.slots| == c.N()
    ensures !Act(c, m, pc, true).2.Invoke?
  {
  }

  lemma PhaseKeepsOp(pc: Pc, ev: Event, pc': Pc)
    requires Fits(PhaseOf(pc), ev) && PhaseOf(pc') == Move(PhaseOf(pc), ev) && !ev.Invoke?
    ensures pc'.Idle? || (!pc.Idle? && pc'.op == pc.op)
  {
  }

  /** Thread t has moved and nothing else has, except what is stated of it. */
  lemma Framed(z: Shape, s: System, w: P.Pack, s': System, w': P.Pack, t: nat)
    requires z.Ok() && Views(z, s, w) && |s'.acts| == z.g.G && |w'.queues| == z.g.G
    requires s'.writers == s.writers && w'.producers == w.producers
    requires |s'.readers| == |s.readers| && |w'.consumers| == |w.consumers|
    requires forall j, u :: 0 <= j < z.g.G && 0 <= u < z.T && u != t ==> InnerPc(z, s', j, u) == InnerPc(z, s, j, u)
    requires forall j :: 0 <= j < z.g.G ==> SameValues(w'.queues[j], InnerFifo(z, s', j))
    requires t < z.T ==> forall j :: 0 <= j < z.g.G ==> InUse(s', j, t, InnerPc(z, s', j, t))
    requires forall r :: 0 <= r < |s.readers| && ReaderThread(r) != t ==>
      s'.readers[r] == s.readers[r] && w'.consumers[r] == w.consumers[r]
    requires forall r :: 0 <= r < |s.readers| && ReaderThread(r) == t ==>
      && ReaderInv(z, s'.readers[r], r)
      && ReaderView(z.g, s'.readers[r], w'.consumers[r], ReaderPhase(z, s', r))
    requires w'.pushed == s'.pushed && Values(w'.popped) == s'.popped
    ensures Views(z, s', w')
  {
    forall i, u | 0 <= i < z.g.G && 0 <= u < z.T
      ensures InUse(s', i, u, InnerPc(z, s', i, u))
    {
      assert InUse(s, i, u, InnerPc(z, s, i, u));
      if u != t && RoleOf(u).Consumes? && RoleOf(u).r < |s.readers| { assert ReaderThread(RoleOf(u).r) == u; }
    }
    forall r | 0 <= r < |s.readers|
      ensures ReaderInv(z, s'.readers[r], r)
      ensures ReaderView(z.g, s'.readers[r], w'.consumers[r], ReaderPhase(z, s', r))
    {
      if ReaderThread(r) != t {
        assert ReaderInv(z, s.readers[r], r);
        assert ReaderView(z.g, s.readers[r], w.consumers[r], ReaderPhase(z, s, r));
      }
    }
  }

  /** Producer p's thread has moved in its queue i. */
  lemma FramedWriter(z: Shape, s: System, w: P.Pack, s': System, w': P.Pack, p: nat, i: nat)
    requires z.Ok() && Views(z, s, w) && |s'.acts| == z.g.G && |w'.queues| == z.g.G && i < z.g.G
    requires s'.writers == s.writers && w'.producers == w.producers
    requires s'.readers == s.readers && w'.consumers == w.consumers
    requires forall j, u :: 0 <= j < z.g.G && 0 <= u < z.T && (j != i || u != WriterThread(p)) ==>
      InnerPc(z, s', j, u) == InnerPc(z, s, j, u)
    requires forall j :: 0 <= j < z.g.G && j != i ==>
      InnerFifo(z, s', j) == InnerFifo(z, s, j) && w'.queues[j] == w.queues[j]
    requires SameValues(w'.queues[i], InnerFifo(z, s', i))
    requires WriterThread(p) < z.T ==> InUse(s', i, WriterThread(p), InnerPc(z, s', i, WriterThread(p)))
    requires w'.pushed == s'.pushed && Values(w'.popped) == s'.popped
    ensures Views(z, s', w')
  {
    ThreadsDiffer();
    hide RoleOf, WriterThread, ReaderThread, InnerPc, InnerFifo, ReaderView, ReaderInv, ReaderPhase;
    if WriterThread(p) < z.T {
      forall j | 0 <= j < z.g.G ensures InUse(s', j, WriterThread(p), InnerPc(z, s', j, WriterThread(p))) {
        assert InUse(s, j, WriterThread(p), InnerPc(z, s, j, WriterThread(p)));
      }
    }
    Framed(z, s, w, s', w', WriterThread(p));
  }

  // ---------- the turns ----------

  lemma NewcomerTurn(z: Shape, s: System, w: P.Pack, turn: Turn)
    requires z.Ok() && Views(z, s, w) && (turn.NewProducer? || turn.NewConsumer?)
    ensures Views(z, Moved(z, s, turn), Followed(z.g, w, Seen(z, s, turn)))
  {
    var s', w' := Moved(z, s, turn), Followed(z.g, w, Seen(z, s, turn));
    forall i, t | 0 <= i < z.g.G && 0 <= t < z.T
      ensures InUse(s', i, t, InnerPc(z, s', i, t))
    {
      assert InUse(s, i, t, InnerPc(z, s, i, t));
    }
    forall r | 0 <= r < |s'.readers|
      ensures ReaderInv(z, s'.readers[r], r)
      ensures ReaderView(z.g, s'.readers[r], w'.consumers[r], ReaderPhase(z, s', r))
    {
      if r < |s.readers| {
        assert ReaderInv(z, s.readers[r], r);
        assert ReaderView(z.g, s.readers[r], w.consumers[r], ReaderPhase(z, s, r));
      }
    }
    assert forall i :: 0 <= i < z.g.G ==> InnerFifo(z, s', i) == InnerFifo(z, s, i);
  }

  lemma CallPushTurn(z: Shape, s: System, w: P.Pack, p: nat, v: Value)
    requires z.Ok() && Views(z, s, w) && p < |s.writers| && s.writers[p] < z.g.G
    ensures Views(z, Moved(z, s, CallPush(p, v)), w)
  {
    var i, t, a := s.writers[p], WriterThread(p), Start(WriterThread(p), Push(v));
    var s' := Inner(s, i, a);
    InnerSnoc(z, s, i, a);
    if t < z.T { assert InUse(s, i, t, InnerPc(z, s, i, t)); }
    hide RoleOf, WriterThread, ReaderThread, InnerPc, InnerFifo, InnerEvent, ReaderView, ReaderInv, ReaderPhase;
    assert InnerFifo(z, s', i) == InnerFifo(z, s, i);
    FramedWriter(z, s, w, s', w, p, i);
  }

  /** The effect of a push on the queue, and in the model. */
  lemma PushEffect(z: Shape, w: P.Pack, p: nat, q: Queue, v: Value, res: Answer)
    requires z.Ok() && |w.queues| == z.g.G && p < |w.producers| && w.producers[p] < z.g.G
    requires SameValues(w.queues[w.producers[p]], q) && Allowed(z.c.N(), q, Push(v), res)
    ensures var i, w' := w.producers[p], P.Next(z.g, w, P.PushBy(p, v));
      && |w'.queues| == z.g.G && w'.producers == w.producers && w'.consumers == w.consumers && w'.popped == w.popped
      && SameValues(w'.queues[i], Apply(q, Push(v), res))
      && (forall j :: 0 <= j < z.g.G && j != i ==> w'.queues[j] == w.queues[j])
      && w'.pushed == w.pushed + if res.Pushed? then [P.Item(v, p)] else []
  {
    var i := w.producers[p];
    var f := w.queues[i];
    assert |f.items| == |q.items|;
    assert Values(f.items + [P.Item(v, p)]) == q.items + [v];
  }

  /** An event of a push, recorded, and what the model does. */
  lemma PushSeen(z: Shape, s: System, w: P.Pack, p: nat, q: Queue, ev: Event)
    requires z.Ok() && |w.queues| == z.g.G && p < |w.producers| && w.producers[p] < z.g.G
    requires SameValues(w.queues[w.producers[p]], q) && w.pushed == s.pushed && Values(w.popped) == s.popped
    requires ev.Lin? ==> ev.op.Push? && Allowed(z.c.N(), q, ev.op, ev.res)
    ensures var i, s', w' := w.producers[p], Recorded(s, p, ev), Followed(z.g, w, SeenPush(p, ev));
      && s'.acts == s.acts && s'.writers == s.writers && s'.readers == s.readers
      && |w'.queues| == z.g.G && w'.producers == w.producers && w'.consumers == w.consumers
      && SameValues(w'.queues[i], After(q, ev))
      && (forall j :: 0 <= j < z.g.G && j != i ==> w'.queues[j] == w.queues[j])
      && w'.pushed == s'.pushed && Values(w'.popped) == s'.popped
  {
    hide P.Next;
    if ev.Lin? { PushEffect(z, w, p, q, ev.op.d, ev.res); }
  }

  /** An inner step of producer p. */
  lemma PushFits(z: Shape, s: System, p: nat)
    requires z.Ok() && SystemInv(z, s) && p < |s.writers|
    ensures var i, a := s.writers[p], Go(WriterThread(p), true);
      var ev, t, s1 := InnerEvent(z, s, i, a), WriterThread(p), Inner(s, i, a);
      && (ev.Lin? ==> ev.op.Push? && Allowed(z.c.N(), InnerFifo(z, s, i), ev.op, ev.res))
      && (t < z.T ==> InUse(s1, i, t, InnerPc(z, s1, i, t)))
  {
    var i, t := s.writers[p], WriterThread(p);
    InnerSnoc(z, s, i, Go(t, true));
    if t < z.T {
      InnerStep(z, s, i, t);
      assert InUse(s, i, t, InnerPc(z, s, i, t));
    }
  }

  lemma StepPushTurn(z: Shape, s: System, w: P.Pack, p: nat)
    requires z.Ok() && Views(z, s, w) && p < |s.writers| && s.writers[p] < z.g.G
    ensures Views(z, Moved(z, s, StepPush(p)), Followed(z.g, w, Seen(z, s, StepPush(p))))
  {
    var i, a := s.writers[p], Go(WriterThread(p), true);
    var s1, ev := Inner(s, i, a), InnerEvent(z, s, i, a);
    var s', w' := Recorded(s1, p, ev), Followed(z.g, w, SeenPush(p, ev));
    PushFits(z, s, p);
    InnerSnoc(z, s, i, a);
    hide RoleOf, WriterThread, ReaderThread, InnerPc, InnerFifo, InnerEvent, ReaderView, ReaderInv, ReaderPhase,
      PcNext, Recorded, Followed, SeenPush,
      After, SameValues, Values;
    PushSeen(z, s1, w, p, InnerFifo(z, s, i), ev);
    SameActs(z, s1, s');
    SameUse(s1, s', i, WriterThread(p), InnerPc(z, s1, i, WriterThread(p)));
    FramedWriter(z, s, w, s', w', p, i);
  }

  lemma SameUse(s: System, s': System, i: nat, t: nat, pc: Pc)
    requires s'.writers == s.writers && s'.readers == s.readers
    ensures InUse(s', i, t, pc) == InUse(s, i, t, pc)
  {
  }

  lemma SameActs(z: Shape, s: System, s': System)
    requires s'.acts == s.acts
    ensures forall i, t :: 0 <= i < |s.acts| && 0 <= t ==> InnerPc(z, s', i, t) == InnerPc(z, s, i, t)
    ensures forall i :: 0 <= i < |s.acts| ==> InnerFifo(z, s', i) == InnerFifo(z, s, i)
  {
  }

  /** Outside pop, consumer r's thread is idle everywhere. */
  lemma FreeThread(z: Shape, s: System, w: P.Pack, r: nat)
    requires z.Ok() && Views(z, s, w) && r < |s.readers| && s.readers[r].place.Out? && ReaderThread(r) < z.T
    ensures forall j :: 0 <= j < z.g.G ==> InnerPc(z, s, j, ReaderThread(r)).Idle?
  {
    var t := ReaderThread(r);
    RoleOfReader(r);
    hide RoleOf, ReaderThread, InnerPc;
    forall j | 0 <= j < z.g.G ensures InnerPc(z, s, j, t).Idle? { assert InUse(s, j, t, InnerPc(z, s, j, t)); }
  }

  /** Consumer r's thread is busy in its own queue only. */
  lemma BusyThread(z: Shape, s: System, w: P.Pack, r: nat)
    requires z.Ok() && Views(z, s, w) && r < |s.readers| && s.readers[r].place.At?
    ensures var x, t := s.readers[r], ReaderThread(r);
      && t < z.T && x.index < z.g.G && ReaderInv(z, x, r)
      && ReaderView(z.g, x, w.consumers[r], ReaderPhase(z, s, r))
      && !InnerPc(z, s, x.index, t).Idle? && InnerPc(z, s, x.index, t).op == Pop
      && forall j :: 0 <= j < z.g.G && j != x.index ==> InnerPc(z, s, j, t).Idle?
  {
    var x, t := s.readers[r], ReaderThread(r);
    assert ReaderInv(z, x, r) && ReaderView(z.g, x, w.consumers[r], ReaderPhase(z, s, r));
    RoleOfReader(r);
    hide RoleOf, ReaderThread, InnerPc;
    forall j | 0 <= j < z.g.G && j != x.index ensures InnerPc(z, s, j, t).Idle? {
      assert InUse(s, j, t, InnerPc(z, s, j, t));
    }
    assert InUse(s, x.index, t, InnerPc(z, s, x.index, t));
  }

  /** Consumer r's inner step, and what is left as it was. */
  lemma PopFits(z: Shape, s: System, r: nat, i: nat, t: nat)
    requires z.Ok() && |s.acts| == z.g.G && i < z.g.G && t < z.T
    requires !InnerPc(z, s, i, t).Idle? && InnerPc(z, s, i, t).op == Pop
    ensures var a := Go(t, true);
      var s1, ev, pc' := Inner(s, i, a), InnerEvent(z, s, i, a), InnerPc(z, Inner(s, i, a), i, t);
      && Fits(PhaseOf(InnerPc(z, s, i, t)), ev) && PhaseOf(pc') == Move(PhaseOf(InnerPc(z, s, i, t)), ev)
      && !ev.Invoke? && (!ev.Tau? ==> ev.op == Pop) && (pc'.Idle? || pc'.op == Pop)
      && (ev.Lin? ==> Allowed(z.c.N(), InnerFifo(z, s, i), Pop, ev.res))
  {
    InnerSnoc(z, s, i, Go(t, true));
    InnerStep(z, s, i, t);
  }

  predicate BusyAt(z: Shape, s: System, r: nat, j: nat)
    requires r < |s.readers| && j < |s.acts|
  {
    var x, pc := s.readers[r], InnerPc(z, s, j, ReaderThread(r));
    pc.Idle? || (j == x.index && x.place.At? && pc.op == Pop)
  }

  /** Consumer r has moved: its thread is busy in the queue it is now at, if at all. */
  lemma FramedReader(z: Shape, s: System, w: P.Pack, s': System, w': P.Pack, r: nat)
    requires z.Ok() && Views(z, s, w) && |s'.acts| == z.g.G && |w'.queues| == z.g.G && r < |s.readers|
    requires s'.writers == s.writers && w'.producers == w.producers
    requires |s'.readers| == |s.readers| && s'.readers == s.readers[r := s'.readers[r]]
    requires |w'.consumers| == |w.consumers| && w'.consumers == w.consumers[r := w'.consumers[r]]
    requires forall j, u :: 0 <= j < z.g.G && 0 <= u < z.T && u != ReaderThread(r) ==>
      InnerPc(z, s', j, u) == InnerPc(z, s, j, u)
    requires forall j :: 0 <= j < z.g.G ==> SameValues(w'.queues[j], InnerFifo(z, s', j))
    requires ReaderInv(z, s'.readers[r], r)
    requires ReaderView(z.g, s'.readers[r], w'.consumers[r], ReaderPhase(z, s', r))
    requires forall j :: 0 <= j < z.g.G ==> BusyAt(z, s', r, j)
    requires w'.pushed == s'.pushed && Values(w'.popped) == s'.popped
    ensures Views(z, s', w')
  {
    var t := ReaderThread(r);
    RoleOfReader(r);
    ThreadsDiffer();
    hide RoleOf, WriterThread, ReaderThread, InnerPc, InnerFifo, ReaderView, ReaderInv, SameValues;
    forall j | 0 <= j < z.g.G ensures InUse(s', j, t, InnerPc(z, s', j, t)) {
      assert BusyAt(z, s', r, j);
    }
    Framed(z, s, w, s', w', t);
  }

  lemma CallPopTurn(z: Shape, s: System, w: P.Pack, r: nat)
    requires z.Ok() && Views(z, s, w) && r < |s.readers| && s.readers[r].place.Out? && ReaderThread(r) < z.T
    ensures Views(z, Moved(z, s, CallPop(r)), Followed(z.g, w, Seen(z, s, CallPop(r))))
  {
    var x, t := s.readers[r], ReaderThread(r);
    assert ReaderInv(z, x, r) && ReaderView(z.g, x, w.consumers[r], ReaderPhase(z, s, r));
    var i, a := x.index, Start(t, Pop);
    var s1 := Inner(s, i, a);
    var s' := s1.(readers := s.readers[r := x.(place := At(0))]);
    var w' := P.Next(z.g, w, P.CallBy(r));
    InnerSnoc(z, s, i, a);
    SameActs(z, s1, s');
    FreeThread(z, s, w, r);
    hide RoleOf, WriterThread, ReaderThread, InnerPc, InnerFifo, InnerEvent, SameValues, Values;
    assert InnerFifo(z, s', i) == InnerFifo(z, s, i);
    FramedReader(z, s, w, s', w', r);
  }

  /** The effect of an inner pop on the queue, and in the model. */
  lemma PopEffect(z: Shape, w: P.Pack, r: nat, q: Queue, res: Answer)
    requires z.Ok() && |w.queues| == z.g.G && r < |w.consumers|
    requires w.consumers[r].phase.Trying? && w.consumers[r].index < z.g.G
    requires SameValues(w.queues[w.consumers[r].index], q) && Allowed(z.c.N(), q, Pop, res)
    ensures var y, w' := w.consumers[r], P.Next(z.g, w, P.StepBy(r));
      && |w'.queues| == z.g.G && w'.producers == w.producers && w'.pushed == w.pushed
      && w'.consumers == w.consumers[r := if res.Popped? then P.Hit(z.g, y) else P.Miss(z.g, y)]
      && SameValues(w'.queues[y.index], Apply(q, Pop, res))
      && (forall j :: 0 <= j < z.g.G && j != y.index ==> w'.queues[j] == w.queues[j])
      && Values(w'.popped) == Values(w.popped) + (if res.Popped? then [res.d] else [])
      && (res.Popped? || res == NoElement)
  {
    var f := w.queues[w.consumers[r].index];
    assert |f.items| == |q.items|;
    if f.items != [] {
      assert Values(f.items[1..]) == q.items[1..];
      assert Values(w.popped + [f.items[0]]) == Values(w.popped) + [q.items[0]];
    }
  }

  /** The model's consumer after its attempt is where this one will be. */
  lemma HitIsWon(g: P.Params, x: Reader, y: P.Consumer, k: nat)
    requires g.Ok() && y.phase.Trying? && y.phase.k == k && y.index == x.index && y.count == x.count
    requires k < g.G && (k > 0 ==> x.count == 0)
    ensures Reached(Won(g, x, k), P.Hit(g, y)) && Reached(Lost(g, x, k), P.Miss(g, y))
  {
  }

  lemma PopTauTurn(z: Shape, s: System, w: P.Pack, r: nat, ev: Event)
    requires z.Ok() && Views(z, s, w) && r < |s.readers| && s.readers[r].place.At?
    requires s.readers[r].index < z.g.G
    requires ev == PopEvent(z, s, r) && ev.Tau?
    ensures Views(z, PopStepped(s, r), w)
  {
    var i, t := s.readers[r].index, ReaderThread(r);
    BusyThread(z, s, w, r);
    PopFits(z, s, r, i, t);
    InnerSnoc(z, s, i, Go(t, true));
    hide RoleOf, WriterThread, ReaderThread, InnerPc, InnerFifo, InnerEvent, PcNext, ReaderView, ReaderInv;
    FramedReader(z, s, w, Inner(s, i, Go(t, true)), w, r);
  }

  lemma PopLinTurn(z: Shape, s: System, w: P.Pack, r: nat, ev: Event)
    requires z.Ok() && Views(z, s, w) && r < |s.readers| && s.readers[r].place.At?
    requires s.readers[r].index < z.g.G
    requires ev == PopEvent(z, s, r) && ev.Lin?
    ensures Views(z, Recorded(PopStepped(s, r), 0, ev), P.Next(z.g, w, P.StepBy(r)))
  {
    var i, t, x := s.readers[r].index, ReaderThread(r), s.readers[r];
    var s1 := Inner(s, i, Go(t, true));
    var s', w' := Recorded(s1, 0, ev), P.Next(z.g, w, P.StepBy(r));
    BusyThread(z, s, w, r);
    PopFits(z, s, r, i, t);
    InnerSnoc(z, s, i, Go(t, true));
    SameActs(z, s1, s');
    PopEffect(z, w, r, InnerFifo(z, s, i), ev.res);
    HitIsWon(z.g, x, w.consumers[r], x.place.k);
    LinRecorded(s1, ev);
    hide RoleOf, WriterThread, ReaderThread, InnerPc, InnerFifo, InnerEvent, PcNext, ReaderInv, Recorded, SameValues,
      Values, P.Next, P.Hit, P.Miss, Won, Lost;
    FramedReader(z, s, w, s', w', r);
  }

  lemma LinRecorded(s: System, ev: Event)
    requires ev.Lin? && ev.op == Pop && (ev.res.Popped? || ev.res == NoElement)
    ensures Recorded(s, 0, ev) == s.(popped := s.popped + if ev.res.Popped? then [ev.res.d] else [])
  {
  }

  /** The inner pop responds and the call of pop ends. */
  lemma PopEndTurn(z: Shape, s: System, w: P.Pack, r: nat, ev: Event)
    requires z.Ok() && Views(z, s, w) && r < |s.readers| && s.readers[r].place.At?
    requires s.readers[r].index < z.g.G
    requires ev == PopEvent(z, s, r) && ev.Respond?
    requires ev.res.Popped? || s.readers[r].place.k + 1 >= z.g.G
    ensures Views(z, Returned(z, PopStepped(s, r), r, ev), w)
  {
    var i, t, x := s.readers[r].index, ReaderThread(r), s.readers[r];
    var s1 := Inner(s, i, Go(t, true));
    var s' := Returned(z, s1, r, ev);
    BusyThread(z, s, w, r);
    PopFits(z, s, r, i, t);
    InnerSnoc(z, s, i, Go(t, true));
    var x' := if ev.res.Popped? then Won(z.g, x, x.place.k) else Lost(z.g, x, x.place.k);
    assert s' == s1.(readers := s.readers[r := x']);
    SameActs(z, s1, s');
    WonInv(z, x, r);
    hide RoleOf, WriterThread, ReaderThread, InnerPc, InnerFifo, InnerEvent, PcNext, ReaderInv, Returned,
      SameValues, Values;
    FramedReader(z, s, w, s', w, r);
  }

  lemma WonInv(z: Shape, x: Reader, r: nat)
    requires z.Ok() && ReaderInv(z, x, r) && x.place.At?
    ensures ReaderInv(z, Won(z.g, x, x.place.k), r) && ReaderInv(z, Lost(z.g, x, x.place.k), r)
    ensures Won(z.g, x, x.place.k).place.Out?
    ensures Lost(z.g, x, x.place.k).place == if x.place.k + 1 < z.g.G then At(x.place.k + 1) else Out
    ensures x.place.k + 1 < z.g.G ==> Lost(z.g, x, x.place.k).index == (x.index + 1) % z.g.G != x.index
  {
    if x.index + 1 < z.g.G {
      ModUnique(x.index + 1, 0, x.index + 1, z.g.G);
    } else {
      ModUnique(x.index + 1, 1, 0, z.g.G);
    }
  }

  /** The inner pop responds that its queue is empty, and the next queue's is called. */
  lemma PopOnTurn(z: Shape, s: System, w: P.Pack, r: nat, ev: Event)
    requires z.Ok() && Views(z, s, w) && r < |s.readers| && s.readers[r].place.At?
    requires s.readers[r].index < z.g.G
    requires ev == PopEvent(z, s, r) && ev.Respond?
    requires !ev.res.Popped? && s.readers[r].place.k + 1 < z.g.G
    ensures Views(z, Returned(z, PopStepped(s, r), r, ev), w)
  {
    var i, t, x := s.readers[r].index, ReaderThread(r), s.readers[r];
    var s1 := Inner(s, i, Go(t, true));
    var x' := Lost(z.g, x, x.place.k);
    var s2 := s1.(readers := s.readers[r := x']);
    var s' := Inner(s2, x'.index, Start(t, Pop));
    BusyThread(z, s, w, r);
    PopFits(z, s, r, i, t);
    InnerSnoc(z, s, i, Go(t, true));
    SameActs(z, s1, s2);
    WonInv(z, x, r);
    assert Returned(z, s1, r, ev) == s';
    InnerSnoc(z, s2, x'.index, Start(t, Pop));
    hide RoleOf, WriterThread, ReaderThread, InnerPc, InnerFifo, InnerEvent, ReaderInv, Returned, SameValues,
      Values, Lost;
    FramedReader(z, s, w, s', w, r);
  }

  /** A step of a pop records an effect or returns, or neither. */
  lemma PopMoves(z: Shape, s1: System, r: nat, ev: Event)
    requires z.g.Ok() && r < |s1.readers| && s1.readers[r].place.At? && |s1.acts| == z.g.G
    ensures ev.Tau? ==> Returned(z, Recorded(s1, 0, ev), r, ev) == s1
    ensures ev.Lin? ==> Returned(z, Recorded(s1, 0, ev), r, ev) == Recorded(s1, 0, ev)
    ensures ev.Respond? ==> Returned(z, Recorded(s1, 0, ev), r, ev) == Returned(z, s1, r, ev)
  {
  }

  lemma StepPopTurn(z: Shape, s: System, w: P.Pack, r: nat)
    requires z.Ok() && Views(z, s, w) && r < |s.readers| && s.readers[r].place.At?
    requires s.readers[r].index < z.g.G
    ensures Views(z, Moved(z, s, StepPop(r)), Followed(z.g, w, Seen(z, s, StepPop(r))))
  {
    var i, t, x := s.readers[r].index, ReaderThread(r), s.readers[r];
    var s1, ev := Inner(s, i, Go(t, true)), InnerEvent(z, s, i, Go(t, true));
    BusyThread(z, s, w, r);
    PopFits(z, s, r, i, t);
    PopMoves(z, s1, r, ev);
    hide RoleOf, WriterThread, ReaderThread, InnerPc, InnerFifo, InnerEvent, Views, ReaderView, ReaderInv, P.Next,
      Returned, Recorded, Inner;
    match ev
    case Tau => PopTauTurn(z, s, w, r, ev);
    case Lin(_, _) => PopLinTurn(z, s, w, r, ev);
    case Respond(_, res) =>
      if res.Popped? || x.place.k + 1 >= z.g.G {
        PopEndTurn(z, s, w, r, ev);
      } else {
        PopOnTurn(z, s, w, r, ev);
      }
  }

  lemma TurnSeen(z: Shape, s: System, w: P.Pack, turn: Turn)
    requires z.Ok() && Views(z, s, w)
    ensures Views(z, Moved(z, s, turn), Followed(z.g, w, Seen(z, s, turn))) && |Seen(z, s, turn)| <= 1
  {
    hide InnerEvent, Views;
    match turn
    case NewProducer => NewcomerTurn(z, s, w, turn);
    case NewConsumer => NewcomerTurn(z, s, w, turn);
    case CallPush(p, v) => if p < |s.writers| && s.writers[p] < z.g.G { CallPushTurn(z, s, w, p, v); }
    case StepPush(p) => if p < |s.writers| && s.writers[p] < z.g.G { StepPushTurn(z, s, w, p); }
    case CallPop(r) =>
      if r < |s.readers| && s.readers[r].index < z.g.G && s.readers[r].place.Out? && ReaderThread(r) < z.T {
        CallPopTurn(z, s, w, r);
      }
    case StepPop(r) =>
      if r < |s.readers| && s.readers[r].index < z.g.G && s.readers[r].place.At? { StepPopTurn(z, s, w, r); }
  }

  /** Every run of the pack on the step machine is, seen from outside, a run of the pack model:
      the same queues up to the tags of their elements, the same producers, the same consumers. */
  lemma {:induction false} RunsAreSeen(z: Shape, turns: seq<Turn>)
    requires z.Ok()
    ensures Views(z, Run(z, turns), P.Exec(z.g, View(z, turns)))
  {
    if turns == [] {
      forall i | 0 <= i < z.g.G ensures InnerFifo(z, Begin(z), i) == Fresh() {
      }
      ThreadCount(z.c, z.T, []);
    } else {
      var pre, last := Butlast(turns), Last(turns);
      RunsAreSeen(z, pre);
      TurnSeen(z, Run(z, pre), P.Exec(z.g, View(z, pre)), last);
      ViewStep(z, turns);
    }
  }

  lemma ViewStep(z: Shape, turns: seq<Turn>)
    requires z.Ok() && turns != [] && |Seen(z, Run(z, Butlast(turns)), Last(turns))| <= 1
    ensures P.Exec(z.g, View(z, turns))
      == Followed(z.g, P.Exec(z.g, View(z, Butlast(turns))), Seen(z, Run(z, Butlast(turns)), Last(turns)))
  {
    hide Run, Seen, P.Next;
    var v, seen := View(z, Butlast(turns)), Seen(z, Run(z, Butlast(turns)), Last(turns));
    if seen == [] {
      assert v + seen == v;
    } else {
      assert seen == [seen[0]];
      Snoc(v, seen[0]);
    }
  }

  /** Order and conservation in every run of the step machine: the values popped, and those in
      the queues, can be attributed to producers so that each producer's elements are, in the
      order it pushed them, the popped ones and then those in its queue, and nothing is lost or
      made up. */
  lemma OrderInSteps(z: Shape, turns: seq<Turn>) returns (popped: seq<P.Item>, queues: seq<Fifo<P.Item>>)
    requires z.Ok()
    ensures var s := Run(z, turns);
      && Values(popped) == s.popped && |queues| == z.g.G
      && (forall i :: 0 <= i < z.g.G ==> SameValues(queues[i], InnerFifo(z, s, i)))
      && (forall p :: 0 <= p < |s.writers| ==> s.writers[p] < z.g.G)
      && (forall p :: 0 <= p < |s.writers| ==>
            P.Of(p, s.pushed) == P.Of(p, popped) + P.Of(p, queues[s.writers[p]].items))
      && multiset(s.pushed) == multiset(popped) + P.Queued(queues)
  {
    var w := P.Exec(z.g, View(z, turns));
    RunsAreSeen(z, turns);
    P.OrderAndConservation(z.g, View(z, turns));
    popped, queues := w.popped, w.queues;
    forall p | 0 <= p < |w.producers|
      ensures P.Of(p, w.pushed) == P.Of(p, popped) + P.Of(p, queues[w.producers[p]].items)
    {
      assert P.Flow(w, p);
    }
  }
}
