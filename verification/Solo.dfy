/** A thread that runs alone: whatever the others were doing when they paused, every call
    finishes, with the atomic queue's answer; only peek and pop_if may have to see the lap of a
    lagging read index for that. */
module Solo {
  import opened FifoSpec
  import opened Histories
  import opened Machine
  import opened Simulation
  import opened Linearizability
  import opened WrapAround

  /** Nothing hides the head from this operation: it is not peek or pop_if, or the read index
      does not lag, or its lap is visible. */
  predicate CanSee(c: Config, m: Mem, f: Queue, op: Call) {
    op.Peek? || op.PopIf? ==> m.r == f.pops || c.Visible(m.r + c.N())
  }

  function Lagging(m: Mem, f: Queue, op: Call): nat { if Index(m, op) < Count(f, op) then 1 else 0 }

  /** A bound on the steps left; at most one iteration is wasted on what was read before the
      others paused. */
  function Left(c: Config, m: Mem, f: Queue, pc: Pc): (n: nat)
    requires |m.slots| == c.N()
    ensures n <= 10
  {
    match pc
    case Idle => 0
    case Return(_, _) => 1
    case Finish(_, _, _) => 2
    case Swap(_) => 2
    case Cas(op, h, seen, _) => if m.slots[c.SlotOf(h)] == seen then 3 else 9
    case Read(op, h, _) => if h == Index(m, op) then 4 + 3 * Lagging(m, f, op) else 10
    case Load(op, _) => 5 + 3 * Lagging(m, f, op)
    case Help(op, h, _) => if h == Index(m, op) then 6 else 9
  }

  /** op has taken effect on the atomic queue f0 with answer res, which leaves f. Beyond what
      the atomic queue promises: empty says yes unless an element or a lag is there, pop_if
      follows the callback's verdict, and after a lazy pop the read index lags. */
  predicate Settled(c: Config, m: Mem, f: Queue, f0: Queue, op: Call, res: Answer, accept: bool) {
    && Allowed(c.N(), f0, op, res) && f == Apply(f0, op, res)
    && (op.IsEmpty? ==> res == Emptiness(f.items == [] && m.r == f.pops))
    && (op.PopIf? && f0.items != [] ==> res.Popped? == accept)
    && (res.Popped? && c.lazyPop ==> m.r + 1 == f.pops)
  }

  /** A call of op that runs alone since the atomic queue was f0. */
  predicate Along(c: Config, m: Mem, f: Queue, pc: Pc, f0: Queue, op: Call, accept: bool) {
    match PhaseOf(pc)
    case Pending(o) =>
      && o == op && f == f0 && CanSee(c, m, f, op)
      && (pc.Cas? && op.PopIf? ==> accept) && (pc.Read? && op.IsEmpty? ==> pc.h == m.r)
    case Decided(o, res) =>
      && o == op && Settled(c, m, f, f0, op, res, accept)
      && (pc.Finish? ==> !(if op.Push? then c.lazyPush else c.lazyPop))
    case Ready => false
  }

  /** One step of the way. */
  predicate Onward(c: Config, m: Mem, f: Queue, pc: Pc, f0: Queue, op: Call, accept: bool)
    requires |m.slots| == c.N()
  {
    var (m', pc', ev) := Act(c, m, pc, accept);
    var f' := After(f, ev);
    && |m'.slots| == c.N()
    && Left(c, m', f', pc') < Left(c, m, f, pc)
    && (op.IsEmpty? ==> m' == m)
    && if pc'.Idle?
       then pc.Return? && ev == Respond(op, pc.res) && Settled(c, m', f', f0, op, pc.res, accept)
       else Along(c, m', f', pc', f0, op, accept)
  }

  /** A push that reads at the live index stores, helps or answers. */
  lemma AlonePushNow(c: Config, m: Mem, f: Queue, op: Call, accept: bool, tries: nat)
    requires !c.wraps && MemInv(c, m, f) && op.Push?
    ensures var d := Decide(c, op, m.w, m.slots[c.SlotOf(m.w)], accept, tries);
      if m.w < f.Pushes() then d == (Help(op, m.w, tries), Tau)
      else if |f.items| == c.N() then d == Answering(op, Full)
      else d == (Cas(op, m.w, Slot(2 * m.w, ZERO), tries), Tau) && m.slots[c.SlotOf(m.w)] == Slot(2 * m.w, ZERO)
  {
    hide TicketAt;
    PushReads(c, m, f, op, m.w, accept, tries);
    SlotShows(c, m, f, m.w);
    SeenSteps(c, f, m.w);
    if m.w == f.Pushes() && |f.items| < c.N() { TicketIn(f.pops, c.N(), m.w); }
  }

  /** ... and one with an older index helps or starts over. */
  lemma AlonePushLate(c: Config, m: Mem, f: Queue, op: Call, h: nat, accept: bool, tries: nat)
    requires !c.wraps && MemInv(c, m, f) && op.Push? && h < m.w
    ensures var d := Decide(c, op, h, m.slots[c.SlotOf(h)], accept, tries);
      d == (Help(op, h, tries), Tau) || d == (Load(op, tries), Tau)
  {
    hide TicketAt;
    PushReads(c, m, f, op, h, accept, tries);
  }

  /** The same for pop. */
  lemma AlonePopNow(c: Config, m: Mem, f: Queue, accept: bool, tries: nat)
    requires !c.wraps && MemInv(c, m, f)
    ensures var e := m.slots[c.SlotOf(m.r)];
      var d := Decide(c, Pop, m.r, e, accept, tries);
      if m.r < f.pops then d == (Help(Pop, m.r, tries), Tau)
      else if f.items == [] then d == Answering(Pop, NoElement)
      else d == (Cas(Pop, m.r, e, tries), Tau)
  {
    hide TicketAt;
    PopReads(c, m, f, Pop, m.r, accept, tries);
    SeenAhead(c, f, m.r);
    if m.r == f.pops { TicketIn(f.pops, c.N(), m.r); }
  }

  lemma AlonePopLate(c: Config, m: Mem, f: Queue, h: nat, accept: bool, tries: nat)
    requires !c.wraps && MemInv(c, m, f) && h < m.r
    ensures var d := Decide(c, Pop, h, m.slots[c.SlotOf(h)], accept, tries);
      d == (Help(Pop, h, tries), Tau) || d == (Load(Pop, tries), Tau)
  {
    hide TicketAt;
    PopReads(c, m, f, Pop, h, accept, tries);
  }

  /** The same for peek and pop_if. */
  lemma AlonePeekNow(c: Config, m: Mem, f: Queue, op: Call, accept: bool, tries: nat)
    requires !c.wraps && MemInv(c, m, f) && (op.Peek? || op.PopIf?) && CanSee(c, m, f, op)
    ensures var e := m.slots[c.SlotOf(m.r)];
      var d := Decide(c, op, m.r, e, accept, tries);
      if m.r < f.pops then d == (Help(op, m.r, tries), Tau)
      else if f.items == [] then d == Answering(op, NoElement)
      else d == (if op.Peek? then Answering(op, Peeked(e.data, e.word))
                 else if accept then (Cas(op, m.r, e, tries), Tau)
                 else Answering(op, Refused(e.data, e.word)))
    ensures m.r == f.pops && f.items != [] ==> m.slots[c.SlotOf(m.r)] == Slot(2 * f.pops + 1, f.items[0])
  {
    hide TicketAt;
    PeekReads(c, m, f, op, m.r, accept, tries);
    SeenAhead(c, f, m.r);
    if m.r == f.pops { TicketIn(f.pops, c.N(), m.r); }
  }

  lemma AlonePeekLate(c: Config, m: Mem, f: Queue, op: Call, h: nat, accept: bool, tries: nat)
    requires !c.wraps && MemInv(c, m, f) && (op.Peek? || op.PopIf?) && h < m.r
    ensures var d := Decide(c, op, h, m.slots[c.SlotOf(h)], accept, tries);
      d == (Help(op, h, tries), Tau) || d == (Load(op, tries), Tau)
  {
    hide TicketAt;
    PeekReads(c, m, f, op, h, accept, tries);
  }

  lemma AloneReadLate(c: Config, m: Mem, f: Queue, pc: Pc, f0: Queue, op: Call, accept: bool)
    requires !c.wraps && MemInv(c, m, f) && PcInv(m, f, pc) && pc.Read? && Along(c, m, f, pc, f0, op, accept)
    requires pc.h < Index(m, op)
    ensures var d := Decide(c, op, pc.h, m.slots[c.SlotOf(pc.h)], accept, pc.tries);
      && Left(c, m, f, d.0) < Left(c, m, f, pc) && !d.0.Idle?
      && After(f, d.1) == f && Along(c, m, f, d.0, f0, op, accept)
  {
    hide Decide, TicketAt, Cell, Settled;
    match op
    case Push(_) => AlonePushLate(c, m, f, op, pc.h, accept, pc.tries);
    case Pop => AlonePopLate(c, m, f, pc.h, accept, pc.tries);
    case IsEmpty => assert false;
    case Peek => AlonePeekLate(c, m, f, op, pc.h, accept, pc.tries);
    case PopIf => AlonePeekLate(c, m, f, op, pc.h, accept, pc.tries);
    case Exchange(_, _, _) => assert false;
  }

  lemma AloneReadPush(c: Config, m: Mem, f: Queue, pc: Pc, f0: Queue, op: Call, accept: bool)
    requires !c.wraps && MemInv(c, m, f) && PcInv(m, f, pc) && pc.Read? && Along(c, m, f, pc, f0, op, accept)
    requires pc.h == Index(m, op) && op.Push?
    ensures var d := Decide(c, op, pc.h, m.slots[c.SlotOf(pc.h)], accept, pc.tries);
      && Left(c, m, f, d.0) < Left(c, m, f, pc) && !d.0.Idle?
      && After(f, d.1) == f && Along(c, m, f, d.0, f0, op, accept)
  {
    hide Decide, TicketAt, Cell;
    AlonePushNow(c, m, f, op, accept, pc.tries);
  }

  lemma AloneReadPop(c: Config, m: Mem, f: Queue, pc: Pc, f0: Queue, op: Call, accept: bool)
    requires !c.wraps && MemInv(c, m, f) && PcInv(m, f, pc) && pc.Read? && Along(c, m, f, pc, f0, op, accept)
    requires pc.h == Index(m, op) && op.Pop?
    ensures var d := Decide(c, op, pc.h, m.slots[c.SlotOf(pc.h)], accept, pc.tries);
      && Left(c, m, f, d.0) < Left(c, m, f, pc) && !d.0.Idle?
      && After(f, d.1) == f && Along(c, m, f, d.0, f0, op, accept)
  {
    hide Decide, TicketAt, Cell;
    AlonePopNow(c, m, f, accept, pc.tries);
  }

  lemma AloneReadPeek(c: Config, m: Mem, f: Queue, pc: Pc, f0: Queue, op: Call, accept: bool)
    requires !c.wraps && MemInv(c, m, f) && PcInv(m, f, pc) && pc.Read? && Along(c, m, f, pc, f0, op, accept)
    requires pc.h == Index(m, op) && (op.Peek? || op.PopIf?)
    ensures var d := Decide(c, op, pc.h, m.slots[c.SlotOf(pc.h)], accept, pc.tries);
      && Left(c, m, f, d.0) < Left(c, m, f, pc) && !d.0.Idle?
      && After(f, d.1) == f && Along(c, m, f, d.0, f0, op, accept)
  {
    hide Decide, TicketAt, Cell;
    AlonePeekNow(c, m, f, op, accept, pc.tries);
  }

  lemma AloneReadEmpty(c: Config, m: Mem, f: Queue, pc: Pc, f0: Queue, op: Call, accept: bool)
    requires !c.wraps && MemInv(c, m, f) && PcInv(m, f, pc) && pc.Read? && Along(c, m, f, pc, f0, op, accept)
    requires pc.h == Index(m, op) && op.IsEmpty?
    ensures var d := Decide(c, op, pc.h, m.slots[c.SlotOf(pc.h)], accept, pc.tries);
      && Left(c, m, f, d.0) < Left(c, m, f, pc) && !d.0.Idle?
      && After(f, d.1) == f && Along(c, m, f, d.0, f0, op, accept)
  {
    hide Decide, TicketAt, Cell;
    EmptyReads(c, m, f, pc.h, accept, pc.tries);
  }

  lemma AloneReadNow(c: Config, m: Mem, f: Queue, pc: Pc, f0: Queue, op: Call, accept: bool)
    requires !c.wraps && MemInv(c, m, f) && PcInv(m, f, pc) && pc.Read? && Along(c, m, f, pc, f0, op, accept)
    requires pc.h == Index(m, op)
    ensures var d := Decide(c, op, pc.h, m.slots[c.SlotOf(pc.h)], accept, pc.tries);
      && Left(c, m, f, d.0) < Left(c, m, f, pc) && !d.0.Idle?
      && After(f, d.1) == f && Along(c, m, f, d.0, f0, op, accept)
  {
    assert pc.op == op && !op.Exchange?;
    hide Decide, Along, Left, After, MemInv;
    match op
    case Push(_) => AloneReadPush(c, m, f, pc, f0, op, accept);
    case Pop => AloneReadPop(c, m, f, pc, f0, op, accept);
    case IsEmpty => AloneReadEmpty(c, m, f, pc, f0, op, accept);
    case Peek => AloneReadPeek(c, m, f, pc, f0, op, accept);
    case PopIf => AloneReadPeek(c, m, f, pc, f0, op, accept);
    case Exchange(_, _, _) => assert false;
  }

  lemma AloneReadStep(c: Config, m: Mem, f: Queue, pc: Pc, f0: Queue, op: Call, accept: bool)
    requires !c.wraps && MemInv(c, m, f) && PcInv(m, f, pc) && pc.Read? && Along(c, m, f, pc, f0, op, accept)
    ensures Onward(c, m, f, pc, f0, op, accept)
  {
    if pc.h < Index(m, op) {
      AloneReadLate(c, m, f, pc, f0, op, accept);
    } else {
      AloneReadNow(c, m, f, pc, f0, op, accept);
    }
  }

  lemma AloneCasStep(c: Config, m: Mem, f: Queue, pc: Pc, f0: Queue, op: Call, accept: bool)
    requires !c.wraps && MemInv(c, m, f) && PcInv(m, f, pc) && pc.Cas? && Along(c, m, f, pc, f0, op, accept)
    ensures Onward(c, m, f, pc, f0, op, accept)
  {
    hide TicketAt;
    if m.slots[c.SlotOf(pc.h)] == pc.seen {
      WinnerIsCurrent(c, m, f, pc);
    }
  }

  lemma AloneOtherStep(c: Config, m: Mem, f: Queue, pc: Pc, f0: Queue, op: Call, accept: bool)
    requires !c.wraps && MemInv(c, m, f) && PcInv(m, f, pc) && Along(c, m, f, pc, f0, op, accept)
    requires pc.Load? || pc.Help? || pc.Finish? || pc.Return?
    ensures Onward(c, m, f, pc, f0, op, accept)
  {
    hide TicketAt;
  }

  lemma AloneSwapStep(c: Config, m: Mem, f: Queue, pc: Pc, f0: Queue, op: Call, accept: bool)
    requires !c.wraps && MemInv(c, m, f) && PcInv(m, f, pc) && pc.Swap? && Along(c, m, f, pc, f0, op, accept)
    ensures Onward(c, m, f, pc, f0, op, accept)
  {
    hide TicketAt;
    var after := ExchangeOnTickets(c, m, f, op, accept);
  }

  lemma AloneStep(c: Config, m: Mem, f: Queue, pc: Pc, f0: Queue, op: Call, accept: bool)
    requires !c.wraps && MemInv(c, m, f) && PcInv(m, f, pc) && Along(c, m, f, pc, f0, op, accept)
    ensures Onward(c, m, f, pc, f0, op, accept)
  {
    hide Onward, MemInv;
    match pc
    case Read(_, _, _) => AloneReadStep(c, m, f, pc, f0, op, accept);
    case Cas(_, _, _, _) => AloneCasStep(c, m, f, pc, f0, op, accept);
    case Swap(_) => AloneSwapStep(c, m, f, pc, f0, op, accept);
    case _ => AloneOtherStep(c, m, f, pc, f0, op, accept);
  }

  /** The held index is the live one, and an exchange names a recent ticket. */
  predicate Current(c: Config, m: Mem, f: Queue, pc: Pc)
    requires c.Ok()
  {
    match pc
    case Read(op, h, _) => h == Index(m, op)
    case Cas(op, h, _, _) => h == Index(m, op)
    case Help(op, h, _) => h == Index(m, op)
    case Finish(op, h, _) => h == Index(m, op)
    case Swap(op) => op.Exchange? ==> Recent(c, f, op)
    case _ => true
  }

  predicate Recent(c: Config, f: Queue, op: Call)
    requires c.Ok() && op.Exchange?
  { op.index <= f.Pushes() <= op.index + Half(c) }

  lemma CurrentIsFresh(c: Config, m: Mem, f: Queue, pc: Pc)
    requires c.Ok() && MemInv(c, m, f) && Current(c, m, f, pc)
    ensures FreshPc(c, f, pc)
  {
    hide TicketAt, Cell;
    var laps := Sizes(c);
  }

  /** Nothing a thread does itself makes its index outdated. */
  lemma CurrentStep(c: Config, m: Mem, f: Queue, pc: Pc, accept: bool)
    requires c.Ok() && !c.wraps && MemInv(c, m, f) && PcInv(m, f, pc) && Current(c, m, f, pc)
    ensures var (m', pc', ev) := Act(c, m, pc, accept);
      |m'.slots| == c.N() && Current(c, m', After(f, ev), pc')
  {
    hide TicketAt, Cell;
  }

  predicate AllIdle(c: Config, threads: nat, acts: seq<Action>) {
    forall t :: 0 <= t < threads ==> PcAt(c, threads, acts, t).Idle?
  }

  /** Between `was` and `now` no thread but tid has moved. */
  predicate OnlyMoved(c: Config, threads: nat, was: seq<Action>, now: seq<Action>, tid: nat) {
    forall t :: 0 <= t < threads && t != tid ==> PcAt(c, threads, now, t) == PcAt(c, threads, was, t)
  }

  /** The last step of the schedule is thread tid's response to op, which settles it since f0. */
  predicate Responded(c: Config, threads: nat, acts: seq<Action>, tid: nat, op: Call, f0: Queue, accept: bool) {
    && acts != []
    && var (t, ev) := Last(Trace(c, threads, acts));
    && t == tid && ev.Respond? && ev.op == op
    && Settled(c, Exec(c, threads, acts).mem, FifoAt(c, threads, acts), f0, op, ev.res, accept)
  }

  /** `more` is `acts` followed by steps of thread tid only. */
  predicate Extends(acts: seq<Action>, more: seq<Action>, tid: nat, accept: bool) {
    acts <= more && forall i :: |acts| <= i < |more| ==> more[i] == Go(tid, accept)
  }

  /** Thread tid is on the way of a call of op that began to run alone when the queue was f0. */
  predicate Underway(c: Config, threads: nat, acts: seq<Action>, tid: nat, f0: Queue, op: Call, accept: bool) {
    Along(c, Exec(c, threads, acts).mem, FifoAt(c, threads, acts), PcAt(c, threads, acts, tid), f0, op, accept)
  }

  /** One more step of thread tid. */
  lemma StepAlone(c: Config, threads: nat, acts: seq<Action>, tid: nat, f0: Queue, op: Call, accept: bool)
      returns (next: seq<Action>)
    requires !c.wraps && tid < threads && Underway(c, threads, acts, tid, f0, op, accept)
    ensures next == acts + [Go(tid, accept)] && OnlyMoved(c, threads, acts, next, tid)
    ensures if PcAt(c, threads, next, tid).Idle? then Responded(c, threads, next, tid, op, f0, accept)
      else Underway(c, threads, next, tid, f0, op, accept)
    ensures Remaining(c, threads, next, tid) < Remaining(c, threads, acts, tid)
    ensures op.IsEmpty? ==> Exec(c, threads, next).mem == Exec(c, threads, acts).mem
  {
    hide Along, Settled, Left, Act;
    var s, f := Exec(c, threads, acts), FifoAt(c, threads, acts);
    next := acts + [Go(tid, accept)];
    Snoc(acts, Go(tid, accept));
    ThreadCount(c, threads, acts);
    Reachable(c, threads, acts);
    AloneStep(c, s.mem, f, s.pcs[tid], f0, op, accept);
    forall t | 0 <= t < threads { PcAfter(c, threads, next, t); }
    TraceStep(c, threads, next);
  }

  /** Along the schedule, steps the thread may still need. */
  function Remaining(c: Config, threads: nat, acts: seq<Action>, tid: nat): (n: nat)
    ensures n <= 10
  { Left(c, Exec(c, threads, acts).mem, FifoAt(c, threads, acts), PcAt(c, threads, acts, tid)) }

  predicate CurrentAt(c: Config, threads: nat, acts: seq<Action>, tid: nat)
    requires c.Ok()
  { Current(c, Exec(c, threads, acts).mem, FifoAt(c, threads, acts), PcAt(c, threads, acts, tid)) }

  lemma StaysCurrent(c: Config, threads: nat, acts: seq<Action>, tid: nat, accept: bool)
    requires c.Ok() && !c.wraps && tid < threads && FreshRun(c, threads, acts) && CurrentAt(c, threads, acts, tid)
    ensures FreshRun(c, threads, acts + [Go(tid, accept)]) && CurrentAt(c, threads, acts + [Go(tid, accept)], tid)
  {
    hide Current, FreshPc, Act;
    var s, f := Exec(c, threads, acts), FifoAt(c, threads, acts);
    Snoc(acts, Go(tid, accept));
    ThreadCount(c, threads, acts);
    Reachable(c, threads, acts);
    CurrentIsFresh(c, s.mem, f, s.pcs[tid]);
    CurrentStep(c, s.mem, f, s.pcs[tid], accept);
    PcAfter(c, threads, acts + [Go(tid, accept)], tid);
  }

  /** Running thread tid until its call is over, while the others pause. */
  lemma {:induction false} RunAlone(c: Config, threads: nat, acts: seq<Action>, tid: nat, f0: Queue, op: Call,
                                    accept: bool)
      returns (more: seq<Action>)
    requires !c.wraps && tid < threads && Underway(c, threads, acts, tid, f0, op, accept)
    ensures Extends(acts, more, tid, accept) && Responded(c, threads, more, tid, op, f0, accept)
    ensures PcAt(c, threads, more, tid).Idle? && OnlyMoved(c, threads, acts, more, tid)
    ensures c.Ok() && FreshRun(c, threads, acts) && CurrentAt(c, threads, acts, tid) ==> FreshRun(c, threads, more)
    ensures op.IsEmpty? ==> Exec(c, threads, more).mem == Exec(c, threads, acts).mem
    ensures |more| <= |acts| + Remaining(c, threads, acts, tid)
    decreases Remaining(c, threads, acts, tid)
  {
    hide Underway, Responded, Remaining, FreshRun, CurrentAt, PcAt;
    more := StepAlone(c, threads, acts, tid, f0, op, accept);
    if c.Ok() && FreshRun(c, threads, acts) && CurrentAt(c, threads, acts, tid) {
      StaysCurrent(c, threads, acts, tid, accept);
    }
    if !PcAt(c, threads, more, tid).Idle? {
      more := RunAlone(c, threads, more, tid, f0, op, accept);
    }
  }

  lemma StartAlone(c: Config, threads: nat, acts: seq<Action>, tid: nat, op: Call, accept: bool)
      returns (next: seq<Action>)
    requires !c.wraps && tid < threads && PcAt(c, threads, acts, tid).Idle?
    requires CanSee(c, Exec(c, threads, acts).mem, FifoAt(c, threads, acts), op)
    ensures next == acts + [Start(tid, op)] && OnlyMoved(c, threads, acts, next, tid)
    ensures Underway(c, threads, next, tid, FifoAt(c, threads, acts), op, accept)
    ensures Remaining(c, threads, next, tid) <= 8 && Exec(c, threads, next).mem == Exec(c, threads, acts).mem
    ensures c.Ok() && FreshRun(c, threads, acts) && (op.Exchange? ==> Recent(c, FifoAt(c, threads, acts), op)) ==>
      FreshRun(c, threads, next) && CurrentAt(c, threads, next, tid)
  {
    next := acts + [Start(tid, op)];
    Snoc(acts, Start(tid, op));
    ThreadCount(c, threads, acts);
    forall t | 0 <= t < threads { PcAfter(c, threads, next, t); }
  }

  /** Obstruction freedom: after any schedule, while everybody else pauses wherever they are, a
      call that is started and then stepped responds within eight steps, as the atomic
      queue; peek and pop_if if they can see. The real queue follows if it did so far. */
  lemma CallAlone(c: Config, threads: nat, acts: seq<Action>, tid: nat, op: Call, accept: bool)
      returns (more: seq<Action>)
    requires !c.wraps && tid < threads && PcAt(c, threads, acts, tid).Idle?
    requires CanSee(c, Exec(c, threads, acts).mem, FifoAt(c, threads, acts), op)
    ensures Extends(acts + [Start(tid, op)], more, tid, accept)
    ensures Responded(c, threads, more, tid, op, FifoAt(c, threads, acts), accept)
    ensures PcAt(c, threads, more, tid).Idle? && OnlyMoved(c, threads, acts, more, tid)
    ensures c.Ok() && FreshRun(c, threads, acts) && (op.Exchange? ==> Recent(c, FifoAt(c, threads, acts), op)) ==>
      && FreshRun(c, threads, more)
      && Trace(Words(c), threads, CutActions(c, more)) != []
      && Last(Trace(Words(c), threads, CutActions(c, more)))
         == (tid, Respond(CutOp(c, op), CutAnswer(c, Last(Trace(c, threads, more)).1.res)))
    ensures op.IsEmpty? ==> Exec(c, threads, more).mem == Exec(c, threads, acts).mem
    ensures |more| <= |acts| + 1 + 8
  {
    hide Responded, FreshRun, CurrentAt, Trace;
    var next := StartAlone(c, threads, acts, tid, op, accept);
    more := RunAlone(c, threads, next, tid, FifoAt(c, threads, acts), op, accept);
    assert Responded(c, threads, more, tid, op, FifoAt(c, threads, acts), accept);
    if c.Ok() && FreshRun(c, threads, more) {
      RespondedOnWords(c, threads, more, tid, op, FifoAt(c, threads, acts), accept);
    }
  }

  lemma RespondedOnWords(c: Config, threads: nat, acts: seq<Action>, tid: nat, op: Call, f0: Queue, accept: bool)
    requires c.Ok() && !c.wraps && FreshRun(c, threads, acts) && Responded(c, threads, acts, tid, op, f0, accept)
    ensures Trace(Words(c), threads, CutActions(c, acts)) != []
    ensures Last(Trace(Words(c), threads, CutActions(c, acts)))
      == (tid, Respond(CutOp(c, op), CutAnswer(c, Last(Trace(c, threads, acts)).1.res)))
  {
    LastOnWords(c, threads, acts);
  }

  /** The calls a schedule starts, in order. */
  function Calls(acts: seq<Action>): seq<(nat, Call)> {
    if acts == [] then []
    else Calls(Butlast(acts)) + if Last(acts).Start? then [(Last(acts).tid, Last(acts).op)] else []
  }

  lemma CallsSnoc(acts: seq<Action>, a: Action)
    ensures Calls(acts + [a]) == Calls(acts) + if a.Start? then [(a.tid, a.op)] else []
  {
    Snoc(acts, a);
  }

  lemma {:induction false} CallsExtend(acts: seq<Action>, more: seq<Action>, tid: nat, accept: bool)
    requires Extends(acts, more, tid, accept)
    ensures Calls(more) == Calls(acts)
  {
    if |more| == |acts| {
      assert more == acts;
    } else {
      CallsExtend(acts, Butlast(more), tid, accept);
      assert Last(more) == Go(tid, accept);
    }
  }

  /** Thread 0 calls push and pop in turn, j times. */
  function Alternation(j: nat): seq<(nat, Call)> {
    if j == 0 then [] else Alternation(j - 1) + [(0, Push(ZERO))] + [(0, Pop)]
  }

  lemma RoundCalls(before: seq<Action>, pushed: seq<Action>, more: seq<Action>)
    requires Extends(before + [Start(0, Push(ZERO))], pushed, 0, true)
    requires Extends(pushed + [Start(0, Pop)], more, 0, true)
    ensures Calls(more) == Calls(before) + [(0, Push(ZERO))] + [(0, Pop)]
  {
    CallsSnoc(before, Start(0, Push(ZERO)));
    CallsExtend(before + [Start(0, Push(ZERO))], pushed, 0, true);
    CallsSnoc(pushed, Start(0, Pop));
    CallsExtend(pushed + [Start(0, Pop)], more, 0, true);
  }

  lemma OneRound(c: Config, threads: nat, acts: seq<Action>, j: nat) returns (more: seq<Action>)
    requires c.Ok() && !c.wraps && threads > 0 && FreshRun(c, threads, acts)
    requires PcAt(c, threads, acts, 0).Idle? && FifoAt(c, threads, acts) == Fifo(j, [], 0)
    ensures PcAt(c, threads, more, 0).Idle? && OnlyMoved(c, threads, acts, more, 0)
    ensures FreshRun(c, threads, more) && FifoAt(c, threads, more) == Fifo(j + 1, [], 0)
    ensures Calls(more) == Calls(acts) + [(0, Push(ZERO))] + [(0, Pop)]
    ensures c.lazyPop ==> Exec(c, threads, more).mem.r == j
  {
    hide Exec, FifoAt, FreshRun, PcAt;
    var pushed := CallAlone(c, threads, acts, 0, Push(ZERO), true);
    assert FifoAt(c, threads, pushed) == Fifo(j, [ZERO], 0);
    more := CallAlone(c, threads, pushed, 0, Pop, true);
    RoundCalls(acts, pushed, more);
  }

  /** j times push then pop by thread 0, starting from an empty queue never used before. */
  lemma {:induction false} PushPopRounds(c: Config, threads: nat, acts: seq<Action>, j: nat) returns (more: seq<Action>)
    requires c.Ok() && !c.wraps && threads > 0 && FreshRun(c, threads, acts)
    requires PcAt(c, threads, acts, 0).Idle? && FifoAt(c, threads, acts) == Fresh()
    ensures PcAt(c, threads, more, 0).Idle? && OnlyMoved(c, threads, acts, more, 0)
    ensures FreshRun(c, threads, more) && FifoAt(c, threads, more) == Fifo(j, [], 0)
    ensures Calls(more) == Calls(acts) + Alternation(j)
    ensures c.lazyPop && j > 0 ==> Exec(c, threads, more).mem.r + 1 == j
  {
    if j == 0 {
      more := acts;
    } else {
      hide Exec, FifoAt, FreshRun, PcAt;
      var before := PushPopRounds(c, threads, acts, j - 1);
      more := OneRound(c, threads, before, j - 1);
      Regroup(Calls(acts), Alternation(j - 1));
    }
  }

  lemma Regroup(a: seq<(nat, Call)>, b: seq<(nat, Call)>)
    ensures a + b + [(0, Push(ZERO))] + [(0, Pop)] == a + (b + [(0, Push(ZERO))] + [(0, Pop)])
  {
  }

  /** i pushes by thread 0 into an empty queue, of the values 1, 2, ..., i. */
  lemma {:induction false} PushMany(c: Config, threads: nat, acts: seq<Action>, i: nat) returns (more: seq<Action>)
    requires c.Ok() && !c.wraps && threads > 0 && i <= c.N() && FreshRun(c, threads, acts)
    requires PcAt(c, threads, acts, 0).Idle? && FifoAt(c, threads, acts).items == []
    ensures PcAt(c, threads, more, 0).Idle? && OnlyMoved(c, threads, acts, more, 0)
    ensures FreshRun(c, threads, more)
    ensures FifoAt(c, threads, more) == FifoAt(c, threads, acts).(items := FifoAt(c, threads, more).items)
    ensures |FifoAt(c, threads, more).items| == i
    ensures forall x :: 0 <= x < i ==> FifoAt(c, threads, more).items[x] == x + 1
  {
    if i == 0 {
      more := acts;
    } else {
      hide Exec, FifoAt, FreshRun, PcAt, Trace;
      var before := PushMany(c, threads, acts, i - 1);
      more := CallAlone(c, threads, before, 0, Push(i), true);
    }
  }
}
