/** The ticket machine (unbounded arithmetic) refines the atomic FIFO: the invariant of
    every reachable state, and the forward simulation. */
module Simulation {
  import opened Bits
  import opened FifoSpec
  import opened Machine

  // ---------- tickets and slots ----------

  /** The one ticket in [R, R + n) that lives in slot i. */
  function TicketAt(R: nat, n: nat, i: nat): (t: nat)
    requires i < n
    ensures R <= t < R + n && t % n == i
  {
    var d := (i - R) % n;
    ModAdd(i - R, R, n);
    ModUnique(i, 0, i, n);
    R + d
  }

  lemma TicketIn(R: nat, n: nat, t: nat)
    requires n > 0 && R <= t < R + n
    ensures TicketAt(R, n, t % n) == t
  {
    ModNear(TicketAt(R, n, t % n), t, n);
  }

  /** When the head leaves, its slot moves one lap ahead and no other slot moves. */
  lemma TicketAdvance(R: nat, n: nat, i: nat)
    requires i < n
    ensures TicketAt(R + 1, n, i) == if i == R % n then R + n else TicketAt(R, n, i)
  {
    var t := TicketAt(R, n, i);
    if t == R {
      ModTurns(R, 1, n);
      TicketIn(R + 1, n, R + n);
    } else {
      TicketIn(R + 1, n, t);
      if i == R % n { ModNear(t, R, n); }
    }
  }

  /** What the slot of ticket t holds when the atomic queue is f. */
  function Cell(f: Queue, t: nat): Slot
    requires f.pops <= t
  {
    if t < f.Pushes() then Slot(2 * t + 1, f.items[t - f.pops]) else Slot(2 * t, ZERO)
  }

  function Count(f: Queue, op: Call): nat {
    if op.Push? then f.Pushes() else f.pops
  }

  // ---------- the invariant ----------

  /** An index lags its count by at most one. */
  predicate Lag(x: nat, count: nat) { x <= count <= x + 1 }

  predicate MemInv(c: Config, m: Mem, f: Queue) {
    && |m.slots| == c.N()
    && |f.items| <= c.N()
    && Lag(m.w, f.Pushes())
    && Lag(m.r, f.pops)
    && forall i :: 0 <= i < c.N() ==> m.slots[i] == Cell(f, TicketAt(f.pops, c.N(), i))
  }

  predicate PcInv(m: Mem, f: Queue, pc: Pc) {
    match pc
    case Idle => true
    case Load(op, _) => !op.Exchange?
    case Read(op, h, tries) => !op.Exchange? && h <= Index(m, op) && tries > 0
    case Cas(op, h, seen, tries) =>
      && (op.Push? || op.Pop? || op.PopIf?)
      && h <= Index(m, op)
      && (if op.Push? then seen == Slot(2 * h, ZERO) else seen.word == 2 * h + 1)
      && tries > 0
    case Help(op, h, tries) =>
      !op.Exchange? && !op.IsEmpty? && h <= Index(m, op) && h < Count(f, op) && tries > 0
    case Swap(op) => op.Exchange?
    case Finish(op, h, res) =>
      && (op.Push? || op.Pop? || op.PopIf?)
      && h <= Index(m, op) && h < Count(f, op)
    case Return(_, _) => true
  }

  predicate Sim(c: Config, s: State, f: Queue) {
    && MemInv(c, s.mem, f)
    && forall i :: 0 <= i < |s.pcs| ==> PcInv(s.mem, f, s.pcs[i])
  }

  // ---------- what a slot read at index h can show ----------

  /** The ticket a thread holding h finds: h itself, or a whole number of laps away. */
  function Seen(c: Config, f: Queue, h: nat): (t: nat)
    ensures f.pops <= t < f.pops + c.N() && t % c.N() == h % c.N()
  {
    TicketAt(f.pops, c.N(), h % c.N())
  }

  lemma SeenSteps(c: Config, f: Queue, h: nat)
    requires |f.items| <= c.N() && h <= f.Pushes()
    ensures var t := Seen(c, f, h);
      t == h || t == h + c.N() || t >= h + 2 * c.N()
      || (t + c.N() == h && h == f.Pushes() && |f.items| == c.N())
  {
    ModSteps(Seen(c, f, h), h, c.N());
  }

  /** Behind the head there is nothing: a held read index sees itself or laps ahead. */
  lemma SeenAhead(c: Config, f: Queue, h: nat)
    requires h <= f.pops
    ensures var t := Seen(c, f, h); t == h || t == h + c.N() || t >= h + 2 * c.N()
  {
    ModSteps(Seen(c, f, h), h, c.N());
  }

  lemma SlotShows(c: Config, m: Mem, f: Queue, h: nat)
    requires MemInv(c, m, f)
    ensures m.slots[c.SlotOf(h)] == Cell(f, Seen(c, f, h))
  {
  }

  lemma TicketsSlot(c: Config, m: Mem, f: Queue, t: nat)
    requires MemInv(c, m, f) && f.pops <= t < f.pops + c.N()
    ensures m.slots[t % c.N()] == Cell(f, t)
    ensures t < f.Pushes() ==> m.slots[t % c.N()] == Slot(2 * t + 1, f.items[t - f.pops])
    ensures t >= f.Pushes() ==> m.slots[t % c.N()] == Slot(2 * t, ZERO)
  {
    TicketIn(f.pops, c.N(), t);
  }

  /** The cases of a push iteration, told by the ticket t in the slot it reads. */
  lemma PushReads(c: Config, m: Mem, f: Queue, op: Call, h: nat, accept: bool, tries: nat)
    requires !c.wraps && MemInv(c, m, f) && op.Push? && h <= f.Pushes()
    ensures var t, W, n := Seen(c, f, h), f.Pushes(), c.N();
      var d := Decide(c, op, h, m.slots[c.SlotOf(h)], accept, tries);
      if t == h then d == (if W <= t then Cas(op, h, Slot(2 * h, ZERO), tries) else Help(op, h, tries), Tau)
      else if t == h + n && W <= t then d == (Help(op, h, tries), Tau)
      else if t + n == h then d == Answering(op, Full) && h == W && |f.items| == n
      else d == (Load(op, tries), Tau) && t >= h + n && h + n < W
  {
    SlotShows(c, m, f, h);
    SeenSteps(c, f, h);
  }

  /** The cases of a pop iteration. */
  lemma PopReads(c: Config, m: Mem, f: Queue, op: Call, h: nat, accept: bool, tries: nat)
    requires !c.wraps && MemInv(c, m, f) && op.Pop? && h <= f.pops
    ensures var t, W, n := Seen(c, f, h), f.Pushes(), c.N();
      var e := m.slots[c.SlotOf(h)];
      var d := Decide(c, op, h, e, accept, tries);
      if t == h && t < W then d == (Cas(op, h, e, tries), Tau) && e == Cell(f, h)
      else if t == h then d == Answering(op, NoElement) && h == f.pops == W
      else if t == h + n then d == (Help(op, h, tries), Tau) && h < f.pops
      else d == (Load(op, tries), Tau) && t >= h + 2 * n && h + n < f.pops
  {
    SlotShows(c, m, f, h);
    SeenAhead(c, f, h);
  }

  /** The cases of an iteration of peek and pop_if: as for pop, but a lap ahead is only
      recognised when its ticket is visible. */
  lemma PeekReads(c: Config, m: Mem, f: Queue, op: Call, h: nat, accept: bool, tries: nat)
    requires !c.wraps && MemInv(c, m, f) && (op.Peek? || op.PopIf?) && h <= f.pops
    ensures var t, W, n := Seen(c, f, h), f.Pushes(), c.N();
      var e := m.slots[c.SlotOf(h)];
      var d := Decide(c, op, h, e, accept, tries);
      if t == h && t < W then
        && e == Cell(f, h) && h == f.pops
        && d == (if op.Peek? then Answering(op, Peeked(e.data, e.word))
                 else if accept then (Cas(op, h, e, tries), Tau)
                 else Answering(op, Refused(e.data, e.word)))
      else if t == h then d == Answering(op, NoElement) && h == f.pops == W
      else if t == h + n && c.Visible(t) then d == (Help(op, h, tries), Tau) && h < f.pops
      else d == (Load(op, tries), Tau) && t >= h + n && h < f.pops
  {
    hide TicketAt, Pow2, MemInv;
    SlotShows(c, m, f, h);
    SeenAhead(c, f, h);
  }

  /** empty() says yes exactly when it reads the empty slot of the index it holds. */
  lemma EmptyReads(c: Config, m: Mem, f: Queue, h: nat, accept: bool, tries: nat)
    requires !c.wraps && MemInv(c, m, f) && h <= f.pops
    ensures Decide(c, IsEmpty, h, m.slots[c.SlotOf(h)], accept, tries)
      == Answering(IsEmpty, Emptiness(f.items == [] && h == f.pops))
  {
    var t := Seen(c, f, h);
    SlotShows(c, m, f, h);
    if h == f.pops {
      TicketIn(f.pops, c.N(), h);
      assert t == h;
    } else {
      assert t > h;
    }
  }

  // ---------- memory updates ----------

  lemma PushKeeps(c: Config, m: Mem, f: Queue, d: Value)
    requires MemInv(c, m, f) && |f.items| < c.N() && m.w == f.Pushes()
    ensures MemInv(c, m.(slots := m.slots[m.w % c.N() := Slot(2 * m.w + 1, d)]), f.(items := f.items + [d]))
  {
    var n, W := c.N(), f.Pushes();
    TicketIn(f.pops, n, W);
    forall i | 0 <= i < n && i != W % n
      ensures TicketAt(f.pops, n, i) != W
    {
    }
  }

  lemma PopKeeps(c: Config, m: Mem, f: Queue)
    requires MemInv(c, m, f) && f.items != [] && m.r == f.pops
    ensures MemInv(c, m.(slots := m.slots[m.r % c.N() := Slot(2 * (m.r + c.N()), ZERO)]),
                   f.(pops := f.pops + 1, items := f.items[1..]))
  {
    hide TicketAt, Pow2;
    var n, R := c.N(), f.pops;
    forall i | 0 <= i < n
      ensures TicketAt(R + 1, n, i) == if i == R % n then R + n else TicketAt(R, n, i)
      ensures TicketAt(R, n, i) == R ==> i == R % n
    {
      TicketAdvance(R, n, i);
    }
  }

  /** The queue after a successful exchange of ticket t's element. */
  function Replaced(f: Queue, t: nat, d: Value): Queue
    requires f.Queued(t)
  { f.(items := f.items[t - f.pops := d], swaps := f.swaps + 1) }

  lemma SwapKeeps(c: Config, m: Mem, f: Queue, t: nat, d: Value)
    requires MemInv(c, m, f) && f.Queued(t)
    ensures MemInv(c, m.(slots := m.slots[t % c.N() := Slot(2 * t + 1, d)]), Replaced(f, t, d))
  {
    TicketIn(f.pops, c.N(), t);
  }

  // ---------- one step ----------

  /** The answers the lin events carry are those of the atomic queue, and its state follows. */
  ghost predicate StepOk(c: Config, m: Mem, f: Queue, m': Mem, f': Queue, pc': Pc, ev: Event) {
    && (if ev.Lin? then Allowed(c.N(), f, ev.op, ev.res) && f' == Apply(f, ev.op, ev.res) else f' == f)
    && MemInv(c, m', f')
    && PcInv(m', f', pc')
    && m.w <= m'.w && m.r <= m'.r && f.Pushes() <= f'.Pushes() && f.pops <= f'.pops
  }

  function After(f: Queue, ev: Event): Queue {
    if ev.Lin? then Apply(f, ev.op, ev.res) else f
  }

  lemma ReadStep(c: Config, m: Mem, f: Queue, pc: Pc, accept: bool)
    requires !c.wraps && MemInv(c, m, f) && PcInv(m, f, pc) && pc.Read?
    ensures var d := Decide(c, pc.op, pc.h, m.slots[c.SlotOf(pc.h)], accept, pc.tries);
      StepOk(c, m, f, m, After(f, d.1), d.0, d.1)
  {
    hide Decide;
    var h := pc.h;
    match pc.op
    case Push(_) => PushReads(c, m, f, pc.op, h, accept, pc.tries);
    case Pop => PopReads(c, m, f, pc.op, h, accept, pc.tries);
    case IsEmpty => EmptyReads(c, m, f, h, accept, pc.tries);
    case Peek => PeekReads(c, m, f, pc.op, h, accept, pc.tries);
    case PopIf => PeekReads(c, m, f, pc.op, h, accept, pc.tries);
    case Exchange(_, _, _) => assert false;
  }

  /** A slot compare-and-swap succeeds only for the thread whose held index is both the
      live index and the count: push at the tail, pop at the head. */
  lemma WinnerIsCurrent(c: Config, m: Mem, f: Queue, pc: Pc)
    requires MemInv(c, m, f) && PcInv(m, f, pc) && pc.Cas? && !c.wraps
    requires m.slots[c.SlotOf(pc.h)] == pc.seen
    ensures pc.h == Index(m, pc.op) == Count(f, pc.op)
    ensures pc.op.Push? ==> |f.items| < c.N()
    ensures !pc.op.Push? ==> f.items != [] && pc.seen == Slot(2 * f.pops + 1, f.items[0])
  {
    SlotShows(c, m, f, pc.h);
  }

  lemma CasStep(c: Config, m: Mem, f: Queue, pc: Pc, accept: bool)
    requires !c.wraps && MemInv(c, m, f) && PcInv(m, f, pc) && pc.Cas?
    ensures var (m', pc', ev) := Act(c, m, pc, accept); StepOk(c, m, f, m', After(f, ev), pc', ev)
  {
    if m.slots[c.SlotOf(pc.h)] == pc.seen {
      WinnerIsCurrent(c, m, f, pc);
      if pc.op.Push? {
        PushKeeps(c, m, f, pc.op.d);
      } else {
        PopKeeps(c, m, f);
      }
    }
  }

  lemma SwapStep(c: Config, m: Mem, f: Queue, pc: Pc, accept: bool)
    requires !c.wraps && MemInv(c, m, f) && PcInv(m, f, pc) && pc.Swap?
    ensures var (m', pc', ev) := Act(c, m, pc, accept); StepOk(c, m, f, m', After(f, ev), pc', ev)
  {
    hide TicketAt, Pow2;
    var t := pc.op.index;
    SlotShows(c, m, f, t);
    if f.Queued(t) {
      TicketIn(f.pops, c.N(), t);
      SwapKeeps(c, m, f, t, pc.op.desired);
    }
  }

  lemma ActStep(c: Config, m: Mem, f: Queue, pc: Pc, accept: bool)
    requires !c.wraps && MemInv(c, m, f) && PcInv(m, f, pc)
    ensures var (m', pc', ev) := Act(c, m, pc, accept); StepOk(c, m, f, m', After(f, ev), pc', ev)
  {
    match pc
    case Read(_, _, _) => ReadStep(c, m, f, pc, accept);
    case Cas(_, _, _, _) => CasStep(c, m, f, pc, accept);
    case Swap(_) => SwapStep(c, m, f, pc, accept);
    case _ =>
  }

  /** Forward simulation: whatever thread moves, the invariant is kept, and the step is
      either invisible to the atomic queue or one atomic operation with the same answer. */
  lemma ForwardSimulation(c: Config, s: State, f: Queue, a: Action)
    requires !c.wraps && Sim(c, s, f)
    ensures var (s', ev) := Next(c, s, a);
      && (ev.Lin? ==> Allowed(c.N(), f, ev.op, ev.res))
      && Sim(c, s', After(f, ev))
  {
    hide Act, Apply, Allowed, MemInv;
    if a.Go? && a.tid < |s.pcs| {
      ActStep(c, s.mem, f, s.pcs[a.tid], a.accept);
    }
  }

  lemma InitSim(c: Config, threads: nat)
    requires !c.wraps
    ensures Sim(c, Init(c, threads), Fresh())
  {
    forall i | 0 <= i < c.N()
      ensures TicketAt(0, c.N(), i) == i
    {
      ModUnique(i, 0, i, c.N());
      TicketIn(0, c.N(), i);
    }
  }
}
