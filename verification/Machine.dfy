/** The queue as a state machine: any number of threads, one shared load or
    compare-and-swap per step. One definition serves two arithmetics: with `wraps`
    every word has `bits` bits and all casts truncate, as in the program; without it
    the same code runs on unbounded tickets. */
module Machine {
  import opened Bits
  import opened FifoSpec

  type Value = int

  /** The all-zero data an empty entry holds. */
  const ZERO: Value := 0

  type Call = Op<Value>
  type Answer = Result<Value>
  type Queue = Fifo<Value>

  datatype Config = Config(k: nat, bits: nat, lazyPush: bool, lazyPop: bool, wraps: bool) {
    /** What the constructor accepts: capacity 2^k and a word at least two bits wider. */
    predicate Ok() { k + 2 <= bits }

    function N(): (n: nat)
      ensures n >= 1
    { Pow2(k) }

    function Range(): (n: nat)
      ensures n >= 1
    { Pow2(bits) }

    function Cast(x: nat): (y: nat)
      ensures !wraps ==> y == x
      ensures wraps ==> y == x % Range()
    { if wraps then x % Range() else x }

    /** The sequence word of an empty, and of a full, slot with ticket t. */
    function EmptyWord(t: nat): nat { Cast(2 * t) }

    function FullWord(t: nat): nat { Cast(2 * t) + 1 }

    /** Masking of an index. */
    function SlotOf(h: nat): (i: nat)
      ensures i == h % N() && i < N()
    {
      MaskIsMod(h, k);
      BitAnd(h, N() - 1)
    }

    /** Whether ticket x can be told from x + Range()/2 once its top bit is shifted away. */
    predicate Visible(x: nat) { 2 * (x % Range()) < Range() }

    /** The test (seq >> 1) == (index_type)x of peek and pop_if: a value of bits-1 bits
        against one of `bits` bits. */
    predicate ShiftedMatch(seqWord: nat, x: nat) {
      if wraps then seqWord / 2 == x % Range() else seqWord / 2 == x && Visible(x)
    }
  }

  datatype Slot = Slot(word: nat, data: Value)

  datatype Mem = Mem(w: nat, r: nat, slots: seq<Slot>)

  /** Control state of one thread. `h` is the index it holds, `tries` counts its index
      loads in the current call. */
  datatype Pc =
    | Idle
    | Load(op: Call, tries: nat)
    | Read(op: Call, h: nat, tries: nat)
    | Cas(op: Call, h: nat, seen: Slot, tries: nat)
    | Help(op: Call, h: nat, tries: nat)
    | Swap(op: Call)
    | Finish(op: Call, h: nat, res: Answer)
    | Return(op: Call, res: Answer)

  datatype Event = Tau | Invoke(op: Call) | Lin(op: Call, res: Answer) | Respond(op: Call, res: Answer)

  function Index(m: Mem, op: Call): nat {
    if op.Push? then m.w else m.r
  }

  /** compare_exchange_strong(h, h + 1) on the index an operation of this kind uses. */
  function Bump(c: Config, m: Mem, op: Call, h: nat): Mem {
    if Index(m, op) != h then m
    else if op.Push? then m.(w := c.Cast(h + 1))
    else m.(r := c.Cast(h + 1))
  }

  /** x | 1 */
  function OrOne(x: nat): nat { x - x % 2 + 1 }

  /** The decision an iteration takes on the entry e it read at index h. */
  function Decide(c: Config, op: Call, h: nat, e: Slot, accept: bool, tries: nat): (Pc, Event) {
    match op
    case Push(d) =>
      if e.word == c.EmptyWord(h) then
        (Cas(op, h, Slot(c.EmptyWord(h), ZERO), tries), Tau)
      else if e.word == c.FullWord(h) || e.word == c.EmptyWord(h + c.N()) then
        (Help(op, h, tries), Tau)
      else if c.Cast(e.word + 2 * c.N()) == c.FullWord(h) then
        Answering(op, Full)
      else (Load(op, tries), Tau)
    case Pop =>
      if e.word == c.FullWord(h) then (Cas(op, h, e, tries), Tau)
      else if OrOne(e.word) == c.FullWord(h + c.N()) then (Help(op, h, tries), Tau)
      else if e.word == c.EmptyWord(h) then Answering(op, NoElement)
      else (Load(op, tries), Tau)
    case PopIf =>
      if e.word == c.EmptyWord(h) then Answering(op, NoElement)
      else if e.word == c.FullWord(h) then
        if accept then (Cas(op, h, e, tries), Tau)
        else Answering(op, Refused(e.data, e.word))
      else if c.ShiftedMatch(e.word, h + c.N()) then (Help(op, h, tries), Tau)
      else (Load(op, tries), Tau)
    case Peek =>
      if e.word == c.EmptyWord(h) then Answering(op, NoElement)
      else if e.word == c.FullWord(h) then Answering(op, Peeked(e.data, e.word))
      else if c.ShiftedMatch(e.word, h + c.N()) then (Help(op, h, tries), Tau)
      else (Load(op, tries), Tau)
    case IsEmpty => Answering(op, Emptiness(e.word == c.EmptyWord(h)))
    case Exchange(_, _, _) => (Idle, Tau)
  }

  function Answering(op: Call, res: Answer): (Pc, Event) {
    (Return(op, res), Lin(op, res))
  }

  /** What a successful slot compare-and-swap stores, and what the call will answer. */
  function Desired(c: Config, op: Call, h: nat): Slot {
    if op.Push? then Slot(c.FullWord(h), op.d) else Slot(c.EmptyWord(h + c.N()), ZERO)
  }

  function Won(op: Call, h: nat, seen: Slot): Answer {
    if op.Push? then Pushed(h) else Popped(seen.data, h)
  }

  /** One step of a thread inside a call. */
  function Act(c: Config, m: Mem, pc: Pc, accept: bool): (Mem, Pc, Event)
    requires |m.slots| == c.N()
  {
    match pc
    case Idle => (m, pc, Tau)
    case Load(op, tries) => (m, Read(op, Index(m, op), tries + 1), Tau)
    case Read(op, h, tries) =>
      var d := Decide(c, op, h, m.slots[c.SlotOf(h)], accept, tries);
      (m, d.0, d.1)
    case Cas(op, h, seen, tries) =>
      var i := c.SlotOf(h);
      if m.slots[i] == seen then
        var res := Won(op, h, seen);
        var lazy := if op.Push? then c.lazyPush else c.lazyPop;
        (m.(slots := m.slots[i := Desired(c, op, h)]),
         if lazy then Return(op, res) else Finish(op, h, res),
         Lin(op, res))
      else (m, Load(op, tries), Tau)
    case Help(op, h, tries) => (Bump(c, m, op, h), Load(op, tries), Tau)
    case Swap(op) =>
      if op.Exchange? then
        var i := c.SlotOf(op.index);
        if m.slots[i] == Slot(c.FullWord(op.index), op.expected) then
          (m.(slots := m.slots[i := Slot(c.FullWord(op.index), op.desired)]),
           Return(op, Swapped(true)), Lin(op, Swapped(true)))
        else (m, Return(op, Swapped(false)), Lin(op, Swapped(false)))
      else (m, Idle, Tau)
    case Finish(op, h, res) => (Bump(c, m, op, h), Return(op, res), Tau)
    case Return(op, res) => (m, Idle, Respond(op, res))
  }

  datatype State = State(mem: Mem, pcs: seq<Pc>)

  /** The scheduler's choice: thread tid starts a call, or takes one step of its call.
      `accept` is the callback's verdict, used by PopIf only. */
  datatype Action = Start(tid: nat, op: Call) | Go(tid: nat, accept: bool)

  function Entry(op: Call): Pc {
    if op.Exchange? then Swap(op) else Load(op, 0)
  }

  /** One step of the whole machine. An action that is not possible changes nothing. */
  function Next(c: Config, s: State, a: Action): (State, Event)
    requires |s.mem.slots| == c.N()
  {
    if a.tid >= |s.pcs| then (s, Tau)
    else match a
      case Start(tid, op) =>
        if s.pcs[tid].Idle? then (s.(pcs := s.pcs[tid := Entry(op)]), Invoke(op)) else (s, Tau)
      case Go(tid, accept) =>
        var (m, pc, ev) := Act(c, s.mem, s.pcs[tid], accept);
        (State(m, s.pcs[tid := pc]), ev)
  }

  function InitMem(c: Config): (m: Mem)
    ensures |m.slots| == c.N()
  {
    Mem(0, 0, seq(c.N(), i requires 0 <= i => Slot(c.Cast(2 * i), ZERO)))
  }

  function Init(c: Config, threads: nat): (s: State)
    ensures |s.mem.slots| == c.N()
  {
    State(InitMem(c), seq(threads, i => Idle))
  }

  /** The state a schedule leads to. */
  function Exec(c: Config, threads: nat, acts: seq<Action>): (s: State)
    ensures |s.mem.slots| == c.N()
  {
    if acts == [] then Init(c, threads)
    else Next(c, Exec(c, threads, acts[..|acts| - 1]), acts[|acts| - 1]).0
  }

  /** What thread tid does visibly at each step of a schedule. */
  function Trace(c: Config, threads: nat, acts: seq<Action>): (tr: seq<(nat, Event)>)
    ensures |tr| == |acts|
  {
    if acts == [] then []
    else
      var last := acts[|acts| - 1];
      Trace(c, threads, acts[..|acts| - 1]) + [(last.tid, Next(c, Exec(c, threads, acts[..|acts| - 1]), last).1)]
  }
}
