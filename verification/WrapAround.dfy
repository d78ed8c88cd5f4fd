/** The word machine (every value cut to `bits` bits, all casts truncating) takes the same
    steps as the ticket machine, as long as no moving thread holds too old an index. */
module WrapAround {
  import opened Bits
  import opened FifoSpec
  import opened Histories
  import opened Machine
  import opened Simulation
  import opened Linearizability

  // ---------- cutting tickets to words ----------

  /** The same queue with truncating arithmetic. */
  function Words(c: Config): Config { c.(wraps := true) }

  function Cut(c: Config, x: nat): (y: nat)
    ensures y < c.Range()
  { x % c.Range() }

  function CutSlot(c: Config, s: Slot): Slot { s.(word := Cut(c, s.word)) }

  function CutMem(c: Config, m: Mem): (m': Mem)
    ensures |m'.slots| == |m.slots|
    ensures forall i :: 0 <= i < |m.slots| ==> m'.slots[i] == CutSlot(c, m.slots[i])
  {
    Mem(Cut(c, m.w), Cut(c, m.r), seq(|m.slots|, i requires 0 <= i < |m.slots| => CutSlot(c, m.slots[i])))
  }

  function CutOp(c: Config, op: Call): Call {
    if op.Exchange? then op.(index := Cut(c, op.index)) else op
  }

  function CutAnswer(c: Config, res: Answer): Answer {
    match res
    case Pushed(i) => Pushed(Cut(c, i))
    case Popped(d, i) => Popped(d, Cut(c, i))
    case Refused(d, x) => Refused(d, Cut(c, x))
    case Peeked(d, x) => Peeked(d, Cut(c, x))
    case _ => res
  }

  function CutPc(c: Config, pc: Pc): Pc {
    match pc
    case Idle => Idle
    case Load(op, tries) => Load(CutOp(c, op), tries)
    case Read(op, h, tries) => Read(CutOp(c, op), Cut(c, h), tries)
    case Cas(op, h, seen, tries) => Cas(CutOp(c, op), Cut(c, h), CutSlot(c, seen), tries)
    case Help(op, h, tries) => Help(CutOp(c, op), Cut(c, h), tries)
    case Swap(op) => Swap(CutOp(c, op))
    case Finish(op, h, res) => Finish(CutOp(c, op), Cut(c, h), CutAnswer(c, res))
    case Return(op, res) => Return(CutOp(c, op), CutAnswer(c, res))
  }

  function CutEvent(c: Config, ev: Event): Event {
    match ev
    case Tau => Tau
    case Invoke(op) => Invoke(CutOp(c, op))
    case Lin(op, res) => Lin(CutOp(c, op), CutAnswer(c, res))
    case Respond(op, res) => Respond(CutOp(c, op), CutAnswer(c, res))
  }

  function CutState(c: Config, s: State): (s': State)
    ensures |s'.pcs| == |s.pcs|
    ensures forall i :: 0 <= i < |s.pcs| ==> s'.pcs[i] == CutPc(c, s.pcs[i])
  {
    State(CutMem(c, s.mem), seq(|s.pcs|, i requires 0 <= i < |s.pcs| => CutPc(c, s.pcs[i])))
  }

  function CutAction(c: Config, a: Action): Action {
    match a
    case Start(tid, op) => Start(tid, CutOp(c, op))
    case Go(_, _) => a
  }

  // ---------- how stale a held index may be ----------

  /** Half the range: tickets this far apart have the same sequence word. */
  function Half(c: Config): (h: nat)
    requires c.Ok()
    ensures c.Range() == 2 * h
  { Pow2(c.bits - 1) }

  /** The index a thread holds is at most Half - N tickets behind the live count, or less than
      a whole range once all that is left to do with it is an index swap. An exchange names a
      ticket issued at most Half pushes ago. */
  predicate FreshPc(c: Config, f: Queue, pc: Pc)
    requires c.Ok()
  {
    match pc
    case Read(op, h, _) => Count(f, op) + c.N() <= h + Half(c)
    case Cas(op, h, _, _) => Count(f, op) + c.N() <= h + Half(c)
    case Help(op, h, _) => Count(f, op) < h + c.Range()
    case Finish(op, h, _) => Count(f, op) < h + c.Range()
    case Swap(op) => op.Exchange? ==> op.index <= f.Pushes() <= op.index + Half(c)
    case _ => true
  }

  /** The moving thread is fresh. */
  predicate FreshMove(c: Config, s: State, f: Queue, a: Action)
    requires c.Ok()
  {
    a.Go? && a.tid < |s.pcs| ==> FreshPc(c, f, s.pcs[a.tid])
  }

  lemma Sizes(c: Config) returns (laps: nat)
    requires c.Ok()
    ensures laps >= 2 && Half(c) == c.N() * laps && c.Range() == c.N() * (2 * laps)
    ensures Half(c) >= 2 * c.N() && c.Range() == 2 * Half(c)
  {
    laps := Pow2(c.bits - 1 - c.k);
    Pow2Sum(c.k, c.bits - 1 - c.k);
    assert laps == 2 * Pow2(c.bits - 2 - c.k);
    MulAtLeast(c.N(), laps, 2);
    assert c.N() * (2 * laps) == 2 * (c.N() * laps);
    assert laps * c.N() == c.N() * laps;
  }

  // ---------- the word tests ----------

  lemma CutSlotOf(c: Config, h: nat)
    requires c.Ok()
    ensures Words(c).SlotOf(Cut(c, h)) == c.SlotOf(h)
  {
    var laps := Sizes(c);
    ModMod(h, c.N(), 2 * laps);
  }

  /** Equality of words is equality of numbers that are less than one range apart. */
  lemma CutEqual(c: Config, x: nat, y: nat)
    requires -(c.Range() as int) < x - y < c.Range()
    ensures Cut(c, x) == Cut(c, y) <==> x == y
  {
    if Cut(c, x) == Cut(c, y) {
      ModNear(x, y, c.Range());
    }
  }

  /** Words keep the low bit. */
  lemma CutLowBit(c: Config, x: nat)
    requires c.Ok()
    ensures Cut(c, x) % 2 == x % 2
  {
    ModMod(x, 2, Half(c));
  }

  lemma CutParity(c: Config, x: nat)
    requires c.Ok()
    ensures Cut(c, x) % 2 == x % 2
    ensures x % 2 == 0 ==> Cut(c, x + 1) == Cut(c, x) + 1
  {
    CutLowBit(c, x);
    if x % 2 == 0 {
      var n, y := c.Range(), Cut(c, x);
      assert n == 2 * Half(c);
      assert y + 1 < n;
      assert x == x / n * n + y;
      ModUnique(x + 1, x / n, y + 1, n);
    }
  }

  /** The words computed from a cut index are the cuts of the tickets' words. */
  lemma CutWords(c: Config, h: nat, ahead: nat)
    requires c.Ok() && !c.wraps
    ensures Words(c).EmptyWord(Cut(c, h) + ahead) == Cut(c, c.EmptyWord(h + ahead))
    ensures Words(c).FullWord(Cut(c, h) + ahead) == Cut(c, c.FullWord(h + ahead))
    ensures Words(c).Cast(Cut(c, h) + ahead) == Cut(c, h + ahead)
  {
    ModAdd(h, ahead, c.Range());
    ModDouble(Cut(c, h) + ahead, c.Range());
    ModDouble(h + ahead, c.Range());
    CutParity(c, 2 * (h + ahead));
  }

  lemma CutNow(c: Config, h: nat)
    requires c.Ok() && !c.wraps
    ensures Words(c).EmptyWord(Cut(c, h)) == Cut(c, c.EmptyWord(h))
    ensures Words(c).FullWord(Cut(c, h)) == Cut(c, c.FullWord(h))
  {
    CutWords(c, h, 0);
  }

  /** A word is the ticket modulo Half and the low bit. */
  lemma WordIs(c: Config, t: nat, b: nat)
    requires c.Ok() && b < 2
    ensures Cut(c, 2 * t + b) == 2 * (t % Half(c)) + b
  {
    var H := Half(c);
    var q, r := t / H, t % H;
    assert 2 * t + b == q * (2 * H) + (2 * r + b) by { assert t == q * H + r; Double(q, H); }
    ModUnique(2 * t + b, q, 2 * r + b, 2 * H);
  }

  /** Shifting out the low bit of a word leaves the ticket modulo Half. */
  lemma CutShift(c: Config, t: nat, b: nat)
    requires c.Ok() && b < 2
    ensures Cut(c, 2 * t + b) / 2 == t % Half(c)
  {
    WordIs(c, t, b);
  }

  /** The shifted test compares bits-1 bits with bits bits, so it only ever matches a
      visible ticket. */
  lemma ShiftedTest(c: Config, t: nat, b: nat, h: nat)
    requires c.Ok() && !c.wraps && b < 2 && h <= t < h + Half(c)
    ensures Words(c).ShiftedMatch(Cut(c, 2 * t + b), Cut(c, h) + c.N())
      <==> c.ShiftedMatch(2 * t + b, h + c.N())
  {
    var H, x := Half(c), h + c.N();
    var laps := Sizes(c);
    CutShift(c, t, b);
    ModAdd(h, c.N(), c.Range());
    ModMod(x, H, 2);
    assert H * 2 == c.Range();
    if c.Visible(x) {
      ModUnique(Cut(c, x), 0, Cut(c, x), H);
      assert Cut(c, x) == x % H;
      if t % H == x % H {
        ModNear(t, x, H);
      }
    }
  }

  // ---------- one step ----------

  /** The four comparisons of a push give the same answers on words. */
  lemma PushTests(c: Config, t: nat, x: nat, h: nat)
    requires c.Ok() && !c.wraps && 2 * t <= x <= 2 * t + 1
    requires h <= t + c.N() && t < h + Half(c)
    requires if x == 2 * t + 1 then t + c.N() < h + Half(c) else h <= t
    ensures Cut(c, x) == Words(c).EmptyWord(Cut(c, h)) <==> x == c.EmptyWord(h)
    ensures Cut(c, x) == Words(c).FullWord(Cut(c, h)) <==> x == c.FullWord(h)
    ensures Cut(c, x) == Words(c).EmptyWord(Cut(c, h) + c.N()) <==> x == c.EmptyWord(h + c.N())
    ensures Words(c).Cast(Cut(c, x) + 2 * c.N()) == Words(c).FullWord(Cut(c, h)) <==> x + 2 * c.N() == c.FullWord(h)
  {
    var n := c.N();
    var laps := Sizes(c);
    CutNow(c, h);
    CutWords(c, h, n);
    CutEqual(c, x, 2 * h);
    CutEqual(c, x, 2 * h + 1);
    CutEqual(c, x, 2 * (h + n));
    ModAdd(x, 2 * n, c.Range());
    if x == 2 * t + 1 {
      CutEqual(c, x + 2 * n, 2 * h + 1);
    } else {
      EvenIsNotOdd(c, t + n, h);
      assert x + 2 * n == 2 * (t + n);
    }
  }

  lemma EvenIsNotOdd(c: Config, x: nat, y: nat)
    requires c.Ok()
    ensures Cut(c, 2 * x) != Cut(c, 2 * y + 1)
  {
    CutParity(c, 2 * x);
    CutParity(c, 2 * y + 1);
    assert 2 * x % 2 == 0 && (2 * y + 1) % 2 == 1;
  }

  /** One iteration of push, on an entry that has ticket t. */
  lemma DecideCommutesPush(c: Config, t: nat, e: Slot, op: Call, h: nat, accept: bool, tries: nat)
    requires c.Ok() && !c.wraps && op.Push? && h <= t + c.N() && t < h + Half(c)
    requires 2 * t <= e.word <= 2 * t + 1 && if e.word == 2 * t + 1 then t + c.N() < h + Half(c) else h <= t
    ensures var d := Decide(c, op, h, e, accept, tries);
      Decide(Words(c), op, Cut(c, h), CutSlot(c, e), accept, tries) == (CutPc(c, d.0), CutEvent(c, d.1))
  {
    hide Pow2, BitAnd;
    PushTests(c, t, e.word, h);
    CutNow(c, h);
  }

  lemma ReadCommutesPush(c: Config, m: Mem, f: Queue, pc: Pc, accept: bool)
    requires c.Ok() && !c.wraps && MemInv(c, m, f) && PcInv(m, f, pc) && FreshPc(c, f, pc)
    requires pc.Read? && pc.op.Push?
    ensures var d, e := Decide(c, pc.op, pc.h, m.slots[c.SlotOf(pc.h)], accept, pc.tries), CutPc(c, pc);
      Decide(Words(c), e.op, e.h, CutSlot(c, m.slots[c.SlotOf(pc.h)]), accept, e.tries)
      == (CutPc(c, d.0), CutEvent(c, d.1))
  {
    hide Decide, TicketAt, Pow2, BitAnd;
    SlotShows(c, m, f, pc.h);
    SeenSteps(c, f, pc.h);
    DecideCommutesPush(c, Seen(c, f, pc.h), m.slots[c.SlotOf(pc.h)], pc.op, pc.h, accept, pc.tries);
  }

  lemma PopTests(c: Config, t: nat, x: nat, h: nat)
    requires c.Ok() && !c.wraps && h <= t < h + Half(c) && 2 * t <= x <= 2 * t + 1
    ensures Cut(c, x) == Words(c).EmptyWord(Cut(c, h)) <==> x == c.EmptyWord(h)
    ensures Cut(c, x) == Words(c).FullWord(Cut(c, h)) <==> x == c.FullWord(h)
    ensures OrOne(Cut(c, x)) == Words(c).FullWord(Cut(c, h) + c.N()) <==> OrOne(x) == c.FullWord(h + c.N())
  {
    var laps := Sizes(c);
    CutNow(c, h);
    CutWords(c, h, c.N());
    CutEqual(c, x, c.EmptyWord(h));
    CutEqual(c, x, c.FullWord(h));
    CutParity(c, x);
    CutParity(c, 2 * t);
    CutEqual(c, OrOne(x), c.FullWord(h + c.N()));
  }

  /** One iteration of any other operation, on an entry that has ticket t. */
  lemma DecideCommutesPop(c: Config, t: nat, e: Slot, op: Call, h: nat, accept: bool, tries: nat)
    requires c.Ok() && !c.wraps && !op.Push? && !op.Exchange?
    requires h <= t < h + Half(c) && 2 * t <= e.word <= 2 * t + 1
    ensures var d := Decide(c, op, h, e, accept, tries);
      Decide(Words(c), op, Cut(c, h), CutSlot(c, e), accept, tries) == (CutPc(c, d.0), CutEvent(c, d.1))
  {
    hide Pow2, BitAnd;
    PopTests(c, t, e.word, h);
    ShiftedTest(c, t, e.word - 2 * t, h);
  }

  lemma ReadCommutesPop(c: Config, m: Mem, f: Queue, pc: Pc, accept: bool)
    requires c.Ok() && !c.wraps && MemInv(c, m, f) && PcInv(m, f, pc) && FreshPc(c, f, pc)
    requires pc.Read? && !pc.op.Push?
    ensures var d, e := Decide(c, pc.op, pc.h, m.slots[c.SlotOf(pc.h)], accept, pc.tries), CutPc(c, pc);
      Decide(Words(c), e.op, e.h, CutSlot(c, m.slots[c.SlotOf(pc.h)]), accept, e.tries)
      == (CutPc(c, d.0), CutEvent(c, d.1))
  {
    hide Decide, TicketAt, Pow2, BitAnd;
    SlotShows(c, m, f, pc.h);
    DecideCommutesPop(c, Seen(c, f, pc.h), m.slots[c.SlotOf(pc.h)], pc.op, pc.h, accept, pc.tries);
  }

  lemma BumpCommutes(c: Config, m: Mem, op: Call, h: nat)
    requires c.Ok() && !c.wraps && h <= Index(m, op) < h + c.Range()
    ensures Bump(Words(c), CutMem(c, m), CutOp(c, op), Cut(c, h)) == CutMem(c, Bump(c, m, op, h))
  {
    CutEqual(c, Index(m, op), h);
    CutWords(c, h, 1);
  }

  lemma UpdateCommutes(c: Config, m: Mem, i: nat, s: Slot)
    requires i < |m.slots|
    ensures CutMem(c, m.(slots := m.slots[i := s]))
      == CutMem(c, m).(slots := CutMem(c, m).slots[i := CutSlot(c, s)])
  {
  }

  /** The comparison of a slot exchange gives the same answer on words. */
  lemma CasAgrees(c: Config, m: Mem, f: Queue, pc: Pc)
    requires c.Ok() && !c.wraps && MemInv(c, m, f) && PcInv(m, f, pc) && FreshPc(c, f, pc) && pc.Cas?
    ensures var e := m.slots[c.SlotOf(pc.h)]; CutSlot(c, e) == CutSlot(c, pc.seen) <==> e == pc.seen
  {
    hide TicketAt, Pow2, BitAnd;
    var laps := Sizes(c);
    SlotShows(c, m, f, pc.h);
    SeenSteps(c, f, pc.h);
    CutEqual(c, m.slots[c.SlotOf(pc.h)].word, pc.seen.word);
  }

  lemma CasCommutes(c: Config, m: Mem, f: Queue, pc: Pc, accept: bool)
    requires c.Ok() && !c.wraps && MemInv(c, m, f) && PcInv(m, f, pc) && FreshPc(c, f, pc) && pc.Cas?
    ensures var (m', pc', ev) := Act(c, m, pc, accept);
      Act(Words(c), CutMem(c, m), CutPc(c, pc), accept) == (CutMem(c, m'), CutPc(c, pc'), CutEvent(c, ev))
  {
    hide Pow2, BitAnd, FreshPc;
    CasAgrees(c, m, f, pc);
    CutSlotOf(c, pc.h);
    CutNow(c, pc.h);
    CutWords(c, pc.h, c.N());
    UpdateCommutes(c, m, c.SlotOf(pc.h), Desired(c, pc.op, pc.h));
  }

  lemma FullAgainstFull(c: Config, t: nat, h: nat)
    requires c.Ok() && !c.wraps && h <= t + c.N() && t < h + Half(c)
    ensures Cut(c, 2 * t + 1) == Cut(c, 2 * h + 1) <==> t == h
  {
    var laps := Sizes(c);
    CutEqual(c, 2 * t + 1, 2 * h + 1);
  }

  lemma SwapCommutes(c: Config, m: Mem, f: Queue, pc: Pc, accept: bool)
    requires c.Ok() && !c.wraps && MemInv(c, m, f) && PcInv(m, f, pc) && FreshPc(c, f, pc) && pc.Swap?
    ensures var (m', pc', ev) := Act(c, m, pc, accept);
      Act(Words(c), CutMem(c, m), CutPc(c, pc), accept) == (CutMem(c, m'), CutPc(c, pc'), CutEvent(c, ev))
  {
    var h := pc.op.index;
    var i := c.SlotOf(h);
    CutSlotOf(c, h);
    SlotShows(c, m, f, h);
    var t := Seen(c, f, h);
    if t < f.Pushes() {
      FullAgainstFull(c, t, h);
    } else {
      EvenIsNotOdd(c, t, h);
    }
    CutNow(c, h);
    UpdateCommutes(c, m, i, Slot(c.FullWord(h), pc.op.desired));
  }

  lemma ExchangeOnTickets(c: Config, m: Mem, f: Queue, op: Call, accept: bool) returns (after: Mem)
    requires !c.wraps && MemInv(c, m, f) && op.Exchange?
    ensures var ok := f.Queued(op.index) && f.items[op.index - f.pops] == op.expected;
      && Act(c, m, Swap(op), accept) == (after, Return(op, Swapped(ok)), Lin(op, Swapped(ok)))
      && MemInv(c, after, if ok then Replaced(f, op.index, op.desired) else f)
      && after.w == m.w && after.r == m.r && (!ok ==> after == m)
  {
    hide Cell, TicketAt;
    after := Act(c, m, Swap(op), accept).0;
    SwapStep(c, m, f, Swap(op), accept);
  }

  /** An exchange on words whose index is a past ticket at most Half pushes old: it succeeds
      exactly when that ticket is queued with the expected value, and the words it leaves are
      those of the atomic queue with that element replaced (or of the same queue). */
  lemma ExchangeOnWords(c: Config, m: Mem, f: Queue, op: Call, accept: bool) returns (after: Mem)
    requires c.Ok() && !c.wraps && MemInv(c, m, f) && op.Exchange? && op.index <= f.Pushes() <= op.index + Half(c)
    ensures var ok, i := f.Queued(op.index) && f.items[op.index - f.pops] == op.expected, CutOp(c, op);
      && Act(Words(c), CutMem(c, m), Swap(i), accept) == (CutMem(c, after), Return(i, Swapped(ok)), Lin(i, Swapped(ok)))
      && MemInv(c, after, if ok then Replaced(f, op.index, op.desired) else f)
      && after.w == m.w && after.r == m.r && (!ok ==> after == m)
  {
    hide MemInv, Act, CutMem;
    after := ExchangeOnTickets(c, m, f, op, accept);
    SwapCommutes(c, m, f, Swap(op), accept);
  }

  lemma ReadCommutes(c: Config, m: Mem, f: Queue, pc: Pc, accept: bool)
    requires c.Ok() && !c.wraps && MemInv(c, m, f) && PcInv(m, f, pc) && FreshPc(c, f, pc) && pc.Read?
    ensures var (m', pc', ev) := Act(c, m, pc, accept);
      Act(Words(c), CutMem(c, m), CutPc(c, pc), accept) == (CutMem(c, m'), CutPc(c, pc'), CutEvent(c, ev))
  {
    CutSlotOf(c, pc.h);
    if pc.op.Push? {
      ReadCommutesPush(c, m, f, pc, accept);
    } else {
      ReadCommutesPop(c, m, f, pc, accept);
    }
  }

  lemma BumpStepCommutes(c: Config, m: Mem, f: Queue, pc: Pc, accept: bool)
    requires c.Ok() && !c.wraps && MemInv(c, m, f) && PcInv(m, f, pc) && FreshPc(c, f, pc)
    requires pc.Help? || pc.Finish?
    ensures var (m', pc', ev) := Act(c, m, pc, accept);
      Act(Words(c), CutMem(c, m), CutPc(c, pc), accept) == (CutMem(c, m'), CutPc(c, pc'), CutEvent(c, ev))
  {
    var laps := Sizes(c);
    BumpCommutes(c, m, pc.op, pc.h);
  }

  lemma ActCommutes(c: Config, m: Mem, f: Queue, pc: Pc, accept: bool)
    requires c.Ok() && !c.wraps && MemInv(c, m, f) && PcInv(m, f, pc) && FreshPc(c, f, pc)
    ensures var (m', pc', ev) := Act(c, m, pc, accept);
      Act(Words(c), CutMem(c, m), CutPc(c, pc), accept) == (CutMem(c, m'), CutPc(c, pc'), CutEvent(c, ev))
  {
    match pc
    case Read(_, _, _) => ReadCommutes(c, m, f, pc, accept);
    case Cas(_, _, _, _) => CasCommutes(c, m, f, pc, accept);
    case Help(_, _, _) => BumpStepCommutes(c, m, f, pc, accept);
    case Finish(_, _, _) => BumpStepCommutes(c, m, f, pc, accept);
    case Swap(_) => SwapCommutes(c, m, f, pc, accept);
    case _ =>
  }

  // ---------- whole schedules ----------

  /** One step of any thread: cutting commutes with stepping. */
  lemma NextCommutes(c: Config, s: State, f: Queue, a: Action)
    requires c.Ok() && !c.wraps && Sim(c, s, f) && FreshMove(c, s, f, a)
    ensures var (s', ev) := Next(c, s, a);
      Next(Words(c), CutState(c, s), CutAction(c, a)) == (CutState(c, s'), CutEvent(c, ev))
  {
    if a.tid < |s.pcs| {
      if a.Go? {
        ActCommutes(c, s.mem, f, s.pcs[a.tid], a.accept);
        PcsCommute(c, s, a.tid, Act(c, s.mem, s.pcs[a.tid], a.accept).1);
      } else {
        PcsCommute(c, s, a.tid, Entry(a.op));
      }
    }
  }

  lemma PcsCommute(c: Config, s: State, tid: nat, pc: Pc)
    requires tid < |s.pcs|
    ensures CutState(c, s).pcs[tid := CutPc(c, pc)] == CutState(c, s.(pcs := s.pcs[tid := pc])).pcs
  {
  }

  function CutActions(c: Config, acts: seq<Action>): (r: seq<Action>)
    ensures |r| == |acts|
  {
    if acts == [] then [] else CutActions(c, Butlast(acts)) + [CutAction(c, Last(acts))]
  }

  function CutTrace(c: Config, tr: seq<(nat, Event)>): seq<(nat, Event)> {
    if tr == [] then [] else CutTrace(c, Butlast(tr)) + [(Last(tr).0, CutEvent(c, Last(tr).1))]
  }

  /** Every thread is fresh whenever it moves. */
  predicate FreshRun(c: Config, threads: nat, acts: seq<Action>)
    requires c.Ok()
  {
    acts == [] ||
    (FreshRun(c, threads, Butlast(acts)) &&
     FreshMove(c, Exec(c, threads, Butlast(acts)), FifoAt(c, threads, Butlast(acts)), Last(acts)))
  }

  /** The word machine follows the ticket machine along every fresh schedule. */
  lemma {:induction false} WordsFollowTickets(c: Config, threads: nat, acts: seq<Action>)
    requires c.Ok() && !c.wraps && FreshRun(c, threads, acts)
    ensures Exec(Words(c), threads, CutActions(c, acts)) == CutState(c, Exec(c, threads, acts))
    ensures Trace(Words(c), threads, CutActions(c, acts)) == CutTrace(c, Trace(c, threads, acts))
  {
    if acts == [] {
      assert CutState(c, Init(c, threads)) == Init(Words(c), threads);
    } else {
      var pre, a := Butlast(acts), Last(acts);
      WordsFollowTickets(c, threads, pre);
      Reachable(c, threads, pre);
      NextCommutes(c, Exec(c, threads, pre), FifoAt(c, threads, pre), a);
      Snoc(CutActions(c, pre), CutAction(c, a));
      TraceStep(c, threads, acts);
      TraceStep(Words(c), threads, CutActions(c, acts));
    }
  }

  lemma {:induction false} CutPrefix(c: Config, acts: seq<Action>, k: nat)
    requires k <= |acts|
    ensures CutActions(c, acts)[..k] == CutActions(c, acts[..k])
  {
    if k < |acts| {
      CutPrefix(c, Butlast(acts), k);
      assert Butlast(acts)[..k] == acts[..k];
    } else {
      assert acts[..k] == acts;
    }
  }

  lemma {:induction false} PrefixFresh(c: Config, threads: nat, acts: seq<Action>, k: nat)
    requires c.Ok() && FreshRun(c, threads, acts) && k <= |acts|
    ensures FreshRun(c, threads, acts[..k])
  {
    if k < |acts| {
      PrefixFresh(c, threads, Butlast(acts), k);
      assert Butlast(acts)[..k] == acts[..k];
    } else {
      assert acts[..k] == acts;
    }
  }

  /** Where each thread of the word machine is. */
  lemma PcOnWords(c: Config, threads: nat, acts: seq<Action>, t: nat)
    requires c.Ok() && !c.wraps && FreshRun(c, threads, acts)
    ensures PcAt(Words(c), threads, CutActions(c, acts), t) == CutPc(c, PcAt(c, threads, acts, t))
  {
    WordsFollowTickets(c, threads, acts);
  }

  /** What the last step of the schedule shows on words. */
  lemma LastOnWords(c: Config, threads: nat, acts: seq<Action>)
    requires c.Ok() && !c.wraps && FreshRun(c, threads, acts) && acts != []
    ensures Trace(Words(c), threads, CutActions(c, acts)) != []
    ensures var (t, ev) := Last(Trace(c, threads, acts));
      Last(Trace(Words(c), threads, CutActions(c, acts))) == (t, CutEvent(c, ev))
  {
    WordsFollowTickets(c, threads, acts);
  }

  /** The real queue: along every fresh schedule its trace is that of a linearizable run,
      with each ticket cut to its low `bits` bits. */
  lemma WordMachineIsLinearizable(c: Config, threads: nat, acts: seq<Action>)
    requires c.Ok() && !c.wraps && FreshRun(c, threads, acts)
    ensures Trace(Words(c), threads, CutActions(c, acts)) == CutTrace(c, Trace(c, threads, acts))
    ensures Linearizable(c.N(), Trace(c, threads, acts))
  {
    WordsFollowTickets(c, threads, acts);
    TicketMachineIsLinearizable(c, threads, acts);
  }

  /** What the callers of the real queue see, along every fresh schedule: values leave in the
      order they were pushed (as last exchanged in the ticket run; if no exchange succeeded,
      in the order of the trace's own pushes), and the indexes answered by pushes, and by pops,
      count 0, 1, 2, ... modulo 2^bits. */
  lemma RealQueueIsFifo(c: Config, threads: nat, acts: seq<Action>)
    requires c.Ok() && !c.wraps && FreshRun(c, threads, acts)
    ensures var seen, ideal := Dones(Trace(Words(c), threads, CutActions(c, acts))), Dones(Trace(c, threads, acts));
      && PopLog(seen) == PopLog(ideal) <= PushLog(ideal)
      && (NoSwaps(seen) ==> PopLog(seen) <= PushLog(seen))
      && PushTickets(seen) == CutAll(c, UpTo(|PushTickets(seen)|))
      && PopTickets(seen) == CutAll(c, UpTo(|PopLog(seen)|))
  {
    WordMachineIsLinearizable(c, threads, acts);
    DonesOfCut(c, Trace(c, threads, acts));
    LegalCut(c, Dones(Trace(c, threads, acts)));
  }

  /** No exchange of the history succeeded. */
  predicate NoSwaps(h: seq<Done<Value>>) { forall i :: 0 <= i < |h| ==> h[i].res != Swapped(true) }

  lemma LegalCut(c: Config, h: seq<Done<Value>>)
    requires Legal(c.N(), h)
    ensures PopLog(CutDones(c, h)) == PopLog(h) <= PushLog(h)
    ensures NoSwaps(CutDones(c, h)) ==> PushLog(CutDones(c, h)) == PushLog(h)
    ensures PushTickets(CutDones(c, h)) == CutAll(c, UpTo(|PushTickets(CutDones(c, h))|))
    ensures PopTickets(CutDones(c, h)) == CutAll(c, UpTo(|PopLog(CutDones(c, h))|))
  {
    CutValues(c, h);
    if NoSwaps(CutDones(c, h)) { CutPushes(c, h); }
    CutPushTickets(c, h);
    CutPopTickets(c, h);
    FirstInFirstOut(c.N(), h);
    TicketsAreConsecutive(c.N(), h);
  }

  function CutAll(c: Config, s: seq<nat>): (r: seq<nat>)
    ensures |r| == |s| && forall i :: 0 <= i < |s| ==> r[i] == Cut(c, s[i])
  { if s == [] then [] else CutAll(c, Butlast(s)) + [Cut(c, Last(s))] }

  function CutDone(c: Config, d: Done<Value>): Done<Value> { Done(CutOp(c, d.op), CutAnswer(c, d.res)) }

  function CutDones(c: Config, h: seq<Done<Value>>): seq<Done<Value>> {
    if h == [] then [] else CutDones(c, Butlast(h)) + [CutDone(c, Last(h))]
  }

  lemma {:induction false} DonesOfCut(c: Config, tr: seq<(nat, Event)>)
    ensures Dones(CutTrace(c, tr)) == CutDones(c, Dones(tr))
  {
    if tr != [] {
      var pre, ev := Butlast(tr), Last(tr).1;
      DonesOfCut(c, pre);
      Snoc(CutTrace(c, pre), (Last(tr).0, CutEvent(c, ev)));
      if ev.Lin? {
        Snoc(Dones(pre), Done(ev.op, ev.res));
      } else {
        assert Dones(tr) == Dones(pre);
      }
    }
  }

  /** Cutting changes no value and cuts every ticket. */
  lemma {:induction false} CutValues(c: Config, h: seq<Done<Value>>)
    ensures PopLog(CutDones(c, h)) == PopLog(h)
  {
    if h != [] {
      CutValues(c, Butlast(h));
      Snoc(CutDones(c, Butlast(h)), CutDone(c, Last(h)));
    }
  }

  lemma {:induction false} CutPushes(c: Config, h: seq<Done<Value>>)
    requires NoSwaps(CutDones(c, h))
    ensures PushLog(CutDones(c, h)) == PushLog(h)
  {
    if h != [] {
      var pre, last := CutDones(c, Butlast(h)), CutDone(c, Last(h));
      Snoc(pre, last);
      assert CutDones(c, h) == pre + [last];
      assert forall i :: 0 <= i < |pre| ==> pre[i] == CutDones(c, h)[i];
      assert last == CutDones(c, h)[|pre|];
      CutPushes(c, Butlast(h));
    }
  }

  lemma CutSnoc(c: Config, s: seq<nat>, x: nat)
    ensures CutAll(c, s + [x]) == CutAll(c, s) + [Cut(c, x)]
  {
    Snoc(s, x);
  }

  lemma {:induction false} CutPushTickets(c: Config, h: seq<Done<Value>>)
    ensures PushTickets(CutDones(c, h)) == CutAll(c, PushTickets(h))
  {
    if h != [] {
      CutPushTickets(c, Butlast(h));
      Snoc(CutDones(c, Butlast(h)), CutDone(c, Last(h)));
      if Last(h).res.Pushed? { CutSnoc(c, PushTickets(Butlast(h)), Last(h).res.index); }
    }
  }

  lemma {:induction false} CutPopTickets(c: Config, h: seq<Done<Value>>)
    ensures PopTickets(CutDones(c, h)) == CutAll(c, PopTickets(h))
  {
    if h != [] {
      CutPopTickets(c, Butlast(h));
      Snoc(CutDones(c, Butlast(h)), CutDone(c, Last(h)));
      if Last(h).res.Popped? { CutSnoc(c, PopTickets(Butlast(h)), Last(h).res.index); }
    }
  }
}
