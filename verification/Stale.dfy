/** What a push or pop does on words whose index was loaded any number of tickets ago: exactly
    when it takes a slot for its own, and what it then answers. */
module Stale {
  import opened Bits
  import opened FifoSpec
  import opened Histories
  import opened Machine
  import opened Simulation
  import opened Linearizability
  import opened WrapAround
  import opened Solo

  // ---------- every age ----------

  /** How far beyond the live count the first ticket is whose words are those of an index that
      is a tickets old. */
  function Ahead(c: Config, a: nat): (p: nat)
    requires c.Ok()
    ensures p < Half(c)
  { (0 - a) % Half(c) }

  /** That ticket is one of the next N exactly if the age is, modulo Half, zero or more than
      Half - N. */
  lemma AheadNear(c: Config, a: nat)
    requires c.Ok()
    ensures Ahead(c, a) < c.N() <==> a % Half(c) == 0 || a % Half(c) > Half(c) - c.N()
  {
    var laps := Sizes(c);
    ModNegative(a, Half(c));
  }

  lemma ModNegative(a: nat, n: nat)
    requires n > 0
    ensures (0 - a) % n == if a % n == 0 then 0 else n - a % n
  {
    var q, r := a / n, a % n;
    assert a == q * n + r;
    Distribute(-q, q, n);
    Distribute(-q, -1, n);
    if r == 0 {
      ModUnique(0 - a, -q, 0, n);
    } else {
      ModUnique(0 - a, -q - 1, n - r, n);
    }
  }

  /** Among N tickets from the live count on, the one in the slot of index h has the words of h
      exactly if it is Ahead of the count. */
  lemma OwnTicket(c: Config, h: nat, count: nat, t: nat)
    requires c.Ok() && h <= count <= t < count + c.N() && t % c.N() == h % c.N()
    ensures t % Half(c) == h % Half(c) <==> Ahead(c, count - h) < c.N()
    ensures Ahead(c, count - h) < c.N() ==> t == count + Ahead(c, count - h)
  {
    var laps := Sizes(c);
    var H, a, p := Half(c), count - h, Ahead(c, count - h);
    if t % H == h % H {
      var k := ModApart(t, h, H);
      ModTurns(0 - a, k, H);
      ModUnique(t - count, 0, t - count, H);
    }
    if p < c.N() {
      ModUnique(p, 0, p, H);
      var k := ModApart(p, 0 - a, H);
      ModTurns(h, k, H);
      ModMod(count + p, c.N(), laps);
      ModMod(h, c.N(), laps);
      ModNear(count + p, t, c.N());
    }
  }

  /** Two words are equal exactly if their low bits are and their tickets are modulo Half. */
  lemma SameWords(c: Config, t: nat, b: nat, h: nat, e: nat)
    requires c.Ok() && b < 2 && e < 2
    ensures Cut(c, 2 * t + b) == Cut(c, 2 * h + e) <==> b == e && t % Half(c) == h % Half(c)
  {
    hide Cut, Half;
    WordIs(c, t, b);
    WordIs(c, h, e);
  }

  lemma OwnWords(c: Config, t: nat, b: nat, h: nat)
    requires c.Ok() && !c.wraps && b < 2
    ensures Cut(c, 2 * t + b) == Words(c).EmptyWord(Cut(c, h)) <==> b == 0 && t % Half(c) == h % Half(c)
    ensures Cut(c, 2 * t + b) == Words(c).FullWord(Cut(c, h)) <==> b == 1 && t % Half(c) == h % Half(c)
  {
    CutNow(c, h);
    SameWords(c, t, b, h, 0);
    SameWords(c, t, b, h, 1);
  }

  /** Of two tickets N apart at most one agrees with h modulo Half. */
  lemma HalfApart(c: Config, t: nat, h: nat)
    requires c.Ok()
    ensures !(t % Half(c) == h % Half(c) && (t + c.N()) % Half(c) == h % Half(c))
  {
    var laps := Sizes(c);
    if t % Half(c) == h % Half(c) && (t + c.N()) % Half(c) == h % Half(c) {
      ModNear(t, t + c.N(), Half(c));
    }
  }

  /** The decision on an entry taken for the head. */
  function Taking(op: Call, i: nat, e: Slot, accept: bool, tries: nat): (Pc, Event) {
    if op.Pop? || (op.PopIf? && accept) then (Cas(op, i, e, tries), Tau)
    else Answering(op, if op.PopIf? then Refused(e.data, e.word) else Peeked(e.data, e.word))
  }

  /** The word tests of a taking operation on an entry of ticket t, full if b is 1. */
  lemma TakeDecides(c: Config, t: nat, b: nat, e: Slot, op: Call, h: nat, accept: bool, tries: nat)
    requires c.Ok() && !c.wraps && b < 2 && e.word == Cut(c, 2 * t + b) && (op.Pop? || op.PopIf? || op.Peek?)
    ensures var d := Decide(Words(c), op, Cut(c, h), e, accept, tries);
      if t % Half(c) != h % Half(c) then d == (Load(op, tries), Tau) || d == (Help(op, Cut(c, h), tries), Tau)
      else if b == 0 then d == Answering(op, NoElement)
      else d == Taking(op, Cut(c, h), e, accept, tries)
  {
    OwnWords(c, t, b, h);
    if t % Half(c) == h % Half(c) && b == 0 { LapIsNotOwn(c, t, h); }
    TakeBranches(Words(c), op, Cut(c, h), e, accept, tries);
  }

  /** The branches of an iteration of a taking operation. */
  lemma TakeBranches(c: Config, op: Call, i: nat, e: Slot, accept: bool, tries: nat)
    requires op.Pop? || op.PopIf? || op.Peek?
    ensures var d := Decide(c, op, i, e, accept, tries);
      if e.word == c.FullWord(i) then e.word != c.EmptyWord(i) ==> d == Taking(op, i, e, accept, tries)
      else if e.word == c.EmptyWord(i) then
        OrOne(e.word) != c.FullWord(i + c.N()) ==> d == Answering(op, NoElement)
      else d == (Load(op, tries), Tau) || d == (Help(op, i, tries), Tau)
  {
  }

  /** An entry with the words of h does not have those of its lap. */
  lemma LapIsNotOwn(c: Config, t: nat, h: nat)
    requires c.Ok() && !c.wraps && t % Half(c) == h % Half(c)
    ensures OrOne(Cut(c, 2 * t)) != Words(c).FullWord(Cut(c, h) + c.N())
  {
    CutWords(c, h, c.N());
    WordIs(c, t, 0);
    WordIs(c, h + c.N(), 1);
    LapApart(c, h);
  }

  lemma LapApart(c: Config, h: nat)
    requires c.Ok()
    ensures (h + c.N()) % Half(c) != h % Half(c)
  {
    var laps := Sizes(c);
    if (h + c.N()) % Half(c) == h % Half(c) { ModNear(h + c.N(), h, Half(c)); }
  }

  /** What a taking operation decides on words, its index being any number of tickets old: with
      p as above, it takes the p-th element for the head, if there is one; else, for p < N, it
      finds the queue empty; and for larger p it decides nothing. */
  lemma TakeReadAtAge(c: Config, m: Mem, f: Queue, op: Call, h: nat, accept: bool, tries: nat)
    requires c.Ok() && !c.wraps && MemInv(c, m, f) && h <= f.pops && (op.Pop? || op.PopIf? || op.Peek?)
    ensures var p, e := Ahead(c, f.pops - h), CutSlot(c, m.slots[c.SlotOf(h)]);
      var d := Decide(Words(c), op, Cut(c, h), e, accept, tries);
      if p < |f.items| then
        && e == CutSlot(c, Cell(f, f.pops + p))
        && d == Taking(op, Cut(c, h), e, accept, tries)
      else if p < c.N() then d == Answering(op, NoElement)
      else d == (Load(op, tries), Tau) || d == (Help(op, Cut(c, h), tries), Tau)
  {
    hide TicketAt, Pow2, Decide;
    var t := Seen(c, f, h);
    SlotShows(c, m, f, h);
    OwnTicket(c, h, f.pops, t);
    TakeDecides(c, t, if t < f.Pushes() then 1 else 0, CutSlot(c, m.slots[c.SlotOf(h)]), op, h, accept, tries);
  }

  lemma FullWordAhead(c: Config, t: nat, b: nat, h: nat)
    requires c.Ok() && !c.wraps && b < 2
    ensures Words(c).Cast(Cut(c, 2 * t + b) + 2 * c.N()) == Words(c).FullWord(Cut(c, h))
      <==> b == 1 && (t + c.N()) % Half(c) == h % Half(c)
  {
    ModAdd(2 * t + b, 2 * c.N(), c.Range());
    assert 2 * t + b + 2 * c.N() == 2 * (t + c.N()) + b;
    OwnWords(c, t + c.N(), b, h);
  }

  /** A full word is not the empty word of the lap ahead. */
  lemma LapWord(c: Config, t: nat, h: nat)
    requires c.Ok() && !c.wraps
    ensures Cut(c, 2 * t + 1) != Words(c).EmptyWord(Cut(c, h) + c.N())
  {
    CutWords(c, h, c.N());
    SameWords(c, t, 1, h + c.N(), 0);
  }

  /** The word tests of a push on an entry of ticket t, full if b is 1. */
  lemma PushDecides(c: Config, t: nat, b: nat, e: Slot, op: Call, h: nat, accept: bool, tries: nat)
    requires c.Ok() && !c.wraps && b < 2 && e.word == Cut(c, 2 * t + b) && op.Push?
    ensures var i := Cut(c, h);
      var d := Decide(Words(c), op, i, e, accept, tries);
      if b == 0 && t % Half(c) == h % Half(c)
      then d == (Cas(op, i, Slot(Words(c).EmptyWord(i), ZERO), tries), Tau) && e.word == Words(c).EmptyWord(i)
      else if b == 1 && (t + c.N()) % Half(c) == h % Half(c) then d == Answering(op, Full)
      else d == (Load(op, tries), Tau) || d == (Help(op, i, tries), Tau)
  {
    OwnWords(c, t, b, h);
    FullWordAhead(c, t, b, h);
    if b == 1 { LapWord(c, t, h); }
    HalfApart(c, t, h);
    PushBranches(Words(c), op, Cut(c, h), e, accept, tries);
  }

  lemma PushBranches(c: Config, op: Call, i: nat, e: Slot, accept: bool, tries: nat)
    requires op.Push?
    ensures var d := Decide(c, op, i, e, accept, tries);
      if e.word == c.EmptyWord(i) then d == (Cas(op, i, Slot(c.EmptyWord(i), ZERO), tries), Tau)
      else if e.word == c.FullWord(i) || e.word == c.EmptyWord(i + c.N()) then d == (Help(op, i, tries), Tau)
      else if c.Cast(e.word + 2 * c.N()) == c.FullWord(i) then d == Answering(op, Full)
      else d == (Load(op, tries), Tau)
  {
  }

  /** The same for push: with its own p, it stores for the p-th next ticket, if that is free;
      else, for p < N, it finds the queue full; and for larger p it decides nothing. */
  lemma PushReadAtAge(c: Config, m: Mem, f: Queue, op: Call, h: nat, accept: bool, tries: nat)
    requires c.Ok() && !c.wraps && MemInv(c, m, f) && h <= f.Pushes() && op.Push?
    ensures var p, e := Ahead(c, f.Pushes() - h), CutSlot(c, m.slots[c.SlotOf(h)]);
      var d := Decide(Words(c), op, Cut(c, h), e, accept, tries);
      if p < c.N() - |f.items| then
        && e == CutSlot(c, Slot(2 * (f.Pushes() + p), ZERO)) && c.SlotOf(h) == c.SlotOf(f.Pushes() + p)
        && d == (Cas(op, Cut(c, h), Slot(Words(c).EmptyWord(Cut(c, h)), ZERO), tries), Tau) && e == d.0.seen
      else if p < c.N() then d == Answering(op, Full)
      else d == (Load(op, tries), Tau) || d == (Help(op, Cut(c, h), tries), Tau)
  {
    hide TicketAt, Pow2, Decide;
    var t, b := Seen(c, f, h), if Seen(c, f, h) < f.Pushes() then 1 else 0;
    SlotShows(c, m, f, h);
    if b == 0 {
      OwnTicket(c, h, f.Pushes(), t);
    } else {
      ModTurns(t, 1, c.N());
      OwnTicket(c, h, f.Pushes(), t + c.N());
    }
    PushDecides(c, t, b, CutSlot(c, m.slots[c.SlotOf(h)]), op, h, accept, tries);
  }

  /** The comparison of a slot swap at any age: a push wins the p-th next free slot, a pop the
      p-th element if its data is what the pop read. */
  lemma SlotSwapAtAge(c: Config, m: Mem, f: Queue, h: nat, d: Value)
    requires c.Ok() && !c.wraps && MemInv(c, m, f)
    ensures h <= f.Pushes() ==>
      (CutSlot(c, m.slots[c.SlotOf(h)]) == Slot(Words(c).EmptyWord(Cut(c, h)), ZERO)
       <==> Ahead(c, f.Pushes() - h) < c.N() - |f.items|)
    ensures h <= f.pops ==>
      (CutSlot(c, m.slots[c.SlotOf(h)]) == Slot(Words(c).FullWord(Cut(c, h)), d)
       <==> var p := Ahead(c, f.pops - h); p < |f.items| && f.items[p] == d)
  {
    hide TicketAt, Pow2;
    var t := Seen(c, f, h);
    SlotShows(c, m, f, h);
    OwnWords(c, t, if t < f.Pushes() then 1 else 0, h);
    if h <= f.pops { OwnTicket(c, h, f.pops, t); }
    if h <= f.Pushes() {
      if f.Pushes() <= t {
        OwnTicket(c, h, f.Pushes(), t);
      } else {
        ModTurns(t, 1, c.N());
        OwnTicket(c, h, f.Pushes(), t + c.N());
        HalfApart(c, t, h);
      }
    }
  }

  /** An index swap with an index that is late by less than the range changes nothing. */
  lemma LateIndexSwap(c: Config, m: Mem, op: Call, h: nat)
    requires c.Ok() && !c.wraps && h < Index(m, op) < h + c.Range()
    ensures Bump(Words(c), CutMem(c, m), CutOp(c, op), Cut(c, h)) == CutMem(c, m)
  {
    BumpCommutes(c, m, op, h);
  }

  /** The answer of a pop that takes effect on f. */
  function PopAnswer(f: Queue): (res: Answer)
    ensures Allowed(0, f, Pop, res)
  { if f.items == [] then NoElement else Popped(f.items[0], f.pops) }

  /** The answer of a pop that takes the p-th element for the head and answers index i. */
  function AgedAnswer(f: Queue, p: nat, i: nat): Answer
  { if p < |f.items| then Popped(f.items[p], i) else NoElement }

  /** As far as pop(d) can tell: both say empty, or both return the same value. */
  predicate SameValue(r: Answer, s: Answer) {
    if r.Popped? then s.Popped? && r.d == s.d else !s.Popped?
  }

  /** A pop on words, its index being any number a of tickets old. It goes on to decide exactly
      if a is, modulo 2^(B-1), zero or more than 2^(B-1) - N (on tickets: only at a == 0). Its
      answer is then right with the index exactly if the queue is empty or a is a multiple of
      2^B; and in its value exactly if the queue is empty or the element taken equals the head. */
  lemma PopAtAge(c: Config, m: Mem, f: Queue, h: nat, tries: nat, accept: bool)
    requires c.Ok() && !c.wraps && MemInv(c, m, f) && h <= f.pops
    ensures var a := f.pops - h;
      var p, res := Ahead(c, a), AgedAnswer(f, Ahead(c, a), Cut(c, h));
      var (m1, pc, ev) := Act(Words(c), CutMem(c, m), Read(Pop, Cut(c, h), tries), accept);
      && m1 == CutMem(c, m)
      && (p < c.N() <==> a % Half(c) == 0 || a % Half(c) > Half(c) - c.N())
      && if p >= c.N() then ev == Tau && (pc == Load(Pop, tries) || pc == Help(Pop, Cut(c, h), tries))
         else if p >= |f.items| then ev == Lin(Pop, res)
         else ev == Tau && pc.Cas? && Act(Words(c), m1, pc, accept).2 == Lin(Pop, res)
    ensures var a := f.pops - h;
      var res := AgedAnswer(f, Ahead(c, a), Cut(c, h));
      && (Ahead(c, a) < c.N() ==> (res == CutAnswer(c, PopAnswer(f)) <==> f.items == [] || a % c.Range() == 0))
      && (SameValue(res, PopAnswer(f))
          <==> f.items == [] || (Ahead(c, a) < |f.items| && f.items[Ahead(c, a)] == f.items[0]))
    ensures h < f.pops ==>
      var (_, pc, ev) := Act(c, m, Read(Pop, h, tries), accept); ev == Tau && (pc.Load? || pc.Help?)
  {
    hide TicketAt, Pow2, BitAnd, Decide, Ahead;
    CutSlotOf(c, h);
    AheadNear(c, f.pops - h);
    TakeReadAtAge(c, m, f, Pop, h, accept, tries);
    PopReads(c, m, f, Pop, h, accept, tries);
    if Ahead(c, f.pops - h) < c.N() { AgedVerdict(c, f, h); }
  }

  lemma AgedVerdict(c: Config, f: Queue, h: nat)
    requires c.Ok() && h <= f.pops && Ahead(c, f.pops - h) < c.N()
    ensures AgedAnswer(f, Ahead(c, f.pops - h), Cut(c, h)) == CutAnswer(c, PopAnswer(f))
      <==> f.items == [] || (f.pops - h) % c.Range() == 0
  {
    var a := f.pops - h;
    if a % c.Range() == 0 {
      var k := ModApart(a, 0, c.Range());
      ModTurns(h, k, c.Range());
      assert 0 - a == (-2 * k) * Half(c) + 0 by { Double(k, Half(c)); }
      ModUnique(0 - a, -2 * k, 0, Half(c));
    }
    if Cut(c, f.pops) == Cut(c, h) {
      var k := ModApart(f.pops, h, c.Range());
      ModUnique(a, k, 0, c.Range());
    }
  }

  /** A push on words, its index being any number a of tickets old. It decides exactly if a is,
      modulo 2^(B-1), zero or more than 2^(B-1) - N; then it stores for the p-th next ticket if
      that is free, which is the tail's slot exactly if p == 0, and answers full otherwise, which
      is right exactly if there are N elements. */
  lemma PushAtAge(c: Config, m: Mem, f: Queue, d: Value, h: nat, tries: nat, accept: bool)
    requires c.Ok() && !c.wraps && MemInv(c, m, f) && h <= f.Pushes()
    ensures var a := f.Pushes() - h;
      var p, t := Ahead(c, a), f.Pushes() + Ahead(c, a);
      var (m1, pc, ev) := Act(Words(c), CutMem(c, m), Read(Push(d), Cut(c, h), tries), accept);
      && m1 == CutMem(c, m)
      && (p < c.N() <==> a % Half(c) == 0 || a % Half(c) > Half(c) - c.N())
      && if p >= c.N() then ev == Tau && (pc == Load(Push(d), tries) || pc == Help(Push(d), Cut(c, h), tries))
         else if p >= c.N() - |f.items| then ev == Lin(Push(d), Full)
         else
           && ev == Tau && pc.Cas?
           && var (m2, _, ev2) := Act(Words(c), m1, pc, accept);
           && ev2 == Lin(Push(d), Pushed(Cut(c, h)))
           && m2 == m1.(slots := m1.slots[c.SlotOf(t) := CutSlot(c, Slot(2 * t + 1, d))])
           && (c.SlotOf(t) == c.SlotOf(f.Pushes()) <==> p == 0)
    ensures h < f.Pushes() ==>
      var (_, pc, ev) := Act(c, m, Read(Push(d), h, tries), accept); ev == Tau && (pc.Load? || pc.Help?)
  {
    hide TicketAt, Pow2, BitAnd, Decide, Ahead;
    CutSlotOf(c, h);
    AheadNear(c, f.Pushes() - h);
    PushReadAtAge(c, m, f, Push(d), h, accept, tries);
    PushReads(c, m, f, Push(d), h, accept, tries);
    if Ahead(c, f.Pushes() - h) < c.N() { PushStores(c, f, h); }
  }

  lemma PushStores(c: Config, f: Queue, h: nat)
    requires c.Ok() && !c.wraps && h <= f.Pushes() && Ahead(c, f.Pushes() - h) < c.N()
    ensures var t := f.Pushes() + Ahead(c, f.Pushes() - h);
      && Words(c).FullWord(Cut(c, h)) == Cut(c, 2 * t + 1)
      && (c.SlotOf(t) == c.SlotOf(f.Pushes()) <==> t == f.Pushes())
  {
    var laps := Sizes(c);
    var H, a, p := Half(c), f.Pushes() - h, Ahead(c, f.Pushes() - h);
    ModUnique(p, 0, p, H);
    var k := ModApart(p, 0 - a, H);
    ModTurns(h, k, H);
    OwnWords(c, f.Pushes() + p, 1, h);
    if c.SlotOf(f.Pushes() + p) == c.SlotOf(f.Pushes()) { ModNear(f.Pushes() + p, f.Pushes(), c.N()); }
  }

  // ---------- one ticket beyond the bound of fresh schedules ----------

  /** The youngest of the harmful ages. */
  lemma FirstHarmfulAge(c: Config, a: nat)
    requires c.Ok() && a + c.N() == Half(c) + 1
    ensures Ahead(c, a) == c.N() - 1
  {
    var laps := Sizes(c);
    assert 0 - a == (-1) * Half(c) + (c.N() - 1);
    ModUnique(0 - a, -1, c.N() - 1, Half(c));
  }

  /** The last of the N tickets in the array is the one a thread just too old finds. */
  lemma StaleTicket(c: Config, f: Queue, h: nat)
    requires c.Ok() && f.pops + c.N() == h + Half(c) + 1
    ensures Seen(c, f, h) == f.pops + c.N() - 1 >= h + 2 * c.N()
  {
    var laps := Sizes(c);
    assert f.pops + c.N() - 1 == h + laps * c.N();
    ModTurns(h, laps, c.N());
    TicketIn(f.pops, c.N(), f.pops + c.N() - 1);
  }

  /** One ticket beyond the bound, where the ticket machine loads the index again, a pop on
      words takes the tail of a full queue and calls any other queue empty. With the index it
      is answered rightly exactly if the queue is empty; leaving the index out, exactly if the
      queue is empty or is full with head and tail alike (with N == 1, always). */
  lemma OneTicketTooOldToPop(c: Config, m: Mem, f: Queue, h: nat, tries: nat, accept: bool)
    requires c.Ok() && !c.wraps && MemInv(c, m, f)
    requires f.pops + c.N() == h + Half(c) + 1
    ensures Act(c, m, Read(Pop, h, tries), accept) == (m, Load(Pop, tries), Tau)
    ensures var res := AgedAnswer(f, c.N() - 1, Cut(c, h));
      var (m1, pc, ev) := Act(Words(c), CutMem(c, m), Read(Pop, Cut(c, h), tries), accept);
      if |f.items| < c.N() then ev == Lin(Pop, res)
      else m1 == CutMem(c, m) && pc.Cas? && Act(Words(c), m1, pc, accept).2 == Lin(Pop, res)
    ensures AgedAnswer(f, c.N() - 1, Cut(c, h)) == CutAnswer(c, PopAnswer(f)) <==> f.items == []
    ensures SameValue(AgedAnswer(f, c.N() - 1, Cut(c, h)), PopAnswer(f))
      <==> f.items == [] || (|f.items| == c.N() && f.items[0] == f.items[c.N() - 1])
  {
    hide TicketAt, Pow2, BitAnd, Decide;
    var laps := Sizes(c);
    FirstHarmfulAge(c, f.pops - h);
    StaleTicket(c, f, h);
    PopReads(c, m, f, Pop, h, accept, tries);
    PopAtAge(c, m, f, h, tries, accept);
    ModUnique(f.pops - h, 0, f.pops - h, c.Range());
  }

  /** On an empty queue a push one ticket beyond the bound stores into the slot of ticket
      W + N - 1 instead of W, and answers success: the right slot exactly if N == 1. */
  lemma StalePushOnEmpty(c: Config, m: Mem, f: Queue, d: Value, h: nat, tries: nat, accept: bool)
    requires c.Ok() && !c.wraps && MemInv(c, m, f) && f.items == []
    requires f.Pushes() + c.N() == h + Half(c) + 1
    ensures Act(c, m, Read(Push(d), h, tries), accept) == (m, Load(Push(d), tries), Tau)
    ensures var t := f.Pushes() + c.N() - 1;
      var (m1, pc, _) := Act(Words(c), CutMem(c, m), Read(Push(d), Cut(c, h), tries), accept);
      && m1 == CutMem(c, m)
      && var (m2, _, ev) := Act(Words(c), m1, pc, accept);
      && ev == Lin(Push(d), Pushed(Cut(c, h)))
      && m2.slots == m1.slots[c.SlotOf(t) := CutSlot(c, Slot(2 * t + 1, d))]
      && (c.SlotOf(t) == c.SlotOf(f.Pushes()) <==> c.N() == 1)
  {
    hide TicketAt, Pow2, BitAnd, Decide;
    var laps := Sizes(c);
    FirstHarmfulAge(c, f.Pushes() - h);
    StaleTicket(c, f, h);
    PushReads(c, m, f, Push(d), h, accept, tries);
    PushAtAge(c, m, f, d, h, tries, accept);
  }

  lemma StalePushTicket(c: Config, f: Queue, h: nat)
    requires c.Ok() && |f.items| <= c.N() && f.items != []
    requires f.Pushes() + c.N() == h + Half(c) + 1
    ensures Seen(c, f, h) == f.Pushes() - 1 >= h + c.N()
  {
    var laps := Sizes(c);
    var n := c.N();
    assert (laps - 1) * n == laps * n - n by { Distribute(laps, -1, n); }
    MulAtLeast(n, laps - 1, 1);
    assert f.Pushes() - 1 == h + (laps - 1) * n;
    ModTurns(h, laps - 1, n);
    TicketIn(f.pops, n, f.Pushes() - 1);
  }

  /** One ticket beyond the bound, a stale push reports a full queue on seeing the last
      element, however few elements are queued. */
  lemma OneTicketTooOldToPush(c: Config, m: Mem, f: Queue, d: Value, h: nat, tries: nat, accept: bool)
    requires c.Ok() && !c.wraps && MemInv(c, m, f) && f.items != []
    requires f.Pushes() + c.N() == h + Half(c) + 1
    ensures Act(c, m, Read(Push(d), h, tries), accept) == (m, Load(Push(d), tries), Tau)
    ensures Act(Words(c), CutMem(c, m), CutPc(c, Read(Push(d), h, tries)), accept).2 == Lin(Push(d), Full)
  {
    hide TicketAt, Pow2, BitAnd, Decide;
    var laps := Sizes(c);
    FirstHarmfulAge(c, f.Pushes() - h);
    StalePushTicket(c, f, h);
    PushReads(c, m, f, Push(d), h, accept, tries);
    PushAtAge(c, m, f, d, h, tries, accept);
  }

  // ---------- runs that get there ----------

  /** A push or pop that has loaded index 0 and then pauses. */
  lemma PausedCall(c: Config, threads: nat, op: Call) returns (acts: seq<Action>)
    requires c.Ok() && !c.wraps && threads > 1 && (op.Push? || op.Pop?)
    ensures FreshRun(c, threads, acts) && FifoAt(c, threads, acts) == Fresh()
    ensures PcAt(c, threads, acts, 0).Idle? && PcAt(c, threads, acts, 1) == Read(op, 0, 1)
  {
    acts := [Start(1, op), Go(1, true)];
    var first := [Start(1, op)];
    assert Butlast(acts) == first && Butlast(first) == [];
    ThreadCount(c, threads, []);
    ThreadCount(c, threads, first);
    var none: seq<Action> := [];
    assert FreshRun(c, threads, none) && FifoAt(c, threads, none) == Fresh();
    assert Butlast(first) == none && Last(first) == Start(1, op);
    assert FifoAt(c, threads, first) == Fresh();
    assert FreshRun(c, threads, first);
    PcAfter(c, threads, first, 0);
    PcAfter(c, threads, first, 1);
    PcAfter(c, threads, acts, 0);
    PcAfter(c, threads, acts, 1);
  }

  /** Thread 1 holds index 0 while thread 0 makes j rounds of push and pop and then i pushes, of
      the values 1, 2, ..., i; what the real queue's thread 1 then holds, and its memory. */
  lemma Overtaken(c: Config, threads: nat, op: Call, j: nat, i: nat) returns (acts: seq<Action>, m: Mem)
    requires c.Ok() && !c.wraps && threads > 1 && (op.Push? || op.Pop?) && i <= c.N()
    ensures FreshRun(c, threads, acts) && m == Exec(c, threads, acts).mem
    ensures Holds(c, Exec(Words(c), threads, CutActions(c, acts)), CutMem(c, m), Read(op, 0, 1))
    ensures var f := FifoAt(c, threads, acts);
      MemInv(c, m, f) && f.pops == j && |f.items| == i && forall x :: 0 <= x < i ==> f.items[x] == x + 1
  {
    var paused := PausedCall(c, threads, op);
    var rounds := PushPopRounds(c, threads, paused, j);
    acts := PushMany(c, threads, rounds, i);
    ThreadCount(c, threads, acts);
    Reachable(c, threads, acts);
    WordsFollowTickets(c, threads, acts);
    m := Exec(c, threads, acts).mem;
    assert Exec(c, threads, acts).pcs[1] == Read(op, 0, 1);
    ModUnique(0, 0, 0, c.Range());
  }

  /** Thread 1 of this machine is at pc, and these are its words. */
  predicate Holds(c: Config, s: State, m: Mem, pc: Pc) {
    |s.mem.slots| == c.N() && |s.pcs| > 1 && s.mem == m && s.pcs[1] == pc
  }

  /** Without the bound the real queue is not a FIFO: a pop paused while 2^(B-1) - N + 1 other
      elements pass through and N more are queued then answers ticket 0 with the youngest
      element, although the queue's head is another one (for N >= 2). */
  lemma StalePopTakesTheTail(c: Config, threads: nat) returns (acts: seq<Action>)
    requires c.Ok() && !c.wraps && threads > 1
    ensures FreshRun(c, threads, acts)
    ensures var s, f := Exec(Words(c), threads, CutActions(c, acts)), FifoAt(c, threads, acts);
      var s1 := Next(Words(c), s, Go(1, true)).0;
      && |f.items| == c.N() && f.items[0] == 1 && f.items[c.N() - 1] == c.N()
      && |s1.mem.slots| == c.N()
      && Next(Words(c), s1, Go(1, true)).1 == Lin(Pop, Popped(c.N(), 0))
  {
    var laps := Sizes(c);
    var m;
    acts, m := Overtaken(c, threads, Pop, Half(c) - c.N() + 1, c.N());
    OneTicketTooOldToPop(c, m, FifoAt(c, threads, acts), 0, 1, true);
    ModUnique(0, 0, 0, c.Range());
  }

  /** ... and with only i elements queued, i < N, it answers that there is none. */
  lemma StalePopMissesElements(c: Config, threads: nat, i: nat) returns (acts: seq<Action>)
    requires c.Ok() && !c.wraps && threads > 1 && i < c.N()
    ensures FreshRun(c, threads, acts) && |FifoAt(c, threads, acts).items| == i
    ensures Next(Words(c), Exec(Words(c), threads, CutActions(c, acts)), Go(1, true)).1 == Lin(Pop, NoElement)
  {
    var laps := Sizes(c);
    var m;
    acts, m := Overtaken(c, threads, Pop, Half(c) - c.N() + 1, i);
    OneTicketTooOldToPop(c, m, FifoAt(c, threads, acts), 0, 1, true);
    ModUnique(0, 0, 0, c.Range());
  }

  /** A push paused one ticket beyond the bound answers full with i elements queued, 0 < i <= N. */
  lemma StalePushSaysFull(c: Config, threads: nat, d: Value, i: nat) returns (acts: seq<Action>)
    requires c.Ok() && !c.wraps && threads > 1 && 0 < i <= c.N()
    ensures FreshRun(c, threads, acts) && |FifoAt(c, threads, acts).items| == i
    ensures Next(Words(c), Exec(Words(c), threads, CutActions(c, acts)), Go(1, true)).1 == Lin(Push(d), Full)
  {
    var laps := Sizes(c);
    var m;
    acts, m := Overtaken(c, threads, Push(d), Half(c) - c.N() + 1 - i, i);
    OneTicketTooOldToPush(c, m, FifoAt(c, threads, acts), d, 0, 1, true);
    ModUnique(0, 0, 0, c.Range());
  }
}
