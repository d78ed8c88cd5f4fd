/** The queue as a program: the fields, the array and the loops, run by one thread, with
    words of `bits` bits. Every method is proved against the atomic FIFO. */
module QueueClass {
  import opened Bits
  import opened FifoSpec
  import opened Machine
  import opened Simulation
  import opened WrapAround
  import opened Limits

  // ---------- what one thread finds when nobody interferes ----------

  /** The decision on the entry at the write index: store, answer full, or help. */
  lemma LonePushRead(c: Config, m: Mem, f: Queue)
    requires c.Ok() && !c.wraps && MemInv(c, m, f)
    ensures var h, i := Cut(c, m.w), c.SlotOf(m.w);
      var e := CutSlot(c, m.slots[i]);
      var w, next := Words(c), Words(c).EmptyWord(h + c.N());
      && w.SlotOf(h) == i
      && (if m.w < f.Pushes() then e.word != w.EmptyWord(h) && (e.word == w.FullWord(h) || e.word == next)
          else if |f.items| < c.N() then e == Slot(w.EmptyWord(h), ZERO)
          else e.word != w.EmptyWord(h) && e.word != w.FullWord(h) && e.word != next
               && w.Cast(e.word + 2 * c.N()) == w.FullWord(h))
  {
    hide TicketAt, Pow2, BitAnd;
    var h, t := m.w, Seen(c, f, m.w);
    var laps := Sizes(c);
    CutSlotOf(c, h);
    SlotShows(c, m, f, h);
    SeenSteps(c, f, h);
    PushTests(c, t, m.slots[c.SlotOf(h)].word, h);
  }

  /** The same at the read index for pop. */
  lemma LonePopRead(c: Config, m: Mem, f: Queue)
    requires c.Ok() && !c.wraps && MemInv(c, m, f)
    ensures var h, i := Cut(c, m.r), c.SlotOf(m.r);
      var e := CutSlot(c, m.slots[i]);
      var pc := Decide(Words(c), Pop, h, e, true, 1).0;
      && Words(c).SlotOf(h) == i
      && (if m.r < f.pops then pc.Help?
          else if f.items != [] then pc.Cas? && e == Slot(Words(c).FullWord(h), f.items[0])
          else pc.Return?)
  {
    hide TicketAt, Pow2, BitAnd;
    var pc := Read(Pop, m.r, 1);
    var laps := Sizes(c);
    CutSlotOf(c, m.r);
    ReadCommutesPop(c, m, f, pc, true);
    PopReads(c, m, f, Pop, m.r, true, 1);
    ModSteps(Seen(c, f, m.r), m.r, c.N());
    if m.r == f.pops {
      TicketIn(f.pops, c.N(), m.r);
      CutNow(c, m.r);
    }
  }

  /** The same for peek and pop_if: help only if the lap ahead is visible. */
  lemma LonePeekRead(c: Config, m: Mem, f: Queue)
    requires c.Ok() && !c.wraps && MemInv(c, m, f)
    ensures var h, i := Cut(c, m.r), c.SlotOf(m.r);
      var e := CutSlot(c, m.slots[i]);
      var pc := Decide(Words(c), Peek, h, e, true, 1).0;
      && Words(c).SlotOf(h) == i
      && (if m.r < f.pops then (if c.Visible(m.r + c.N()) then pc.Help? else pc.Load?)
          else pc.Return? && (e.word == Words(c).EmptyWord(h) <==> f.items == []))
      && (m.r < f.pops ==> e.word != Words(c).EmptyWord(h))
      && (m.r == f.pops && f.items != [] ==>
            e == Slot(Words(c).FullWord(h), f.items[0]) && e.word == Cut(c, 2 * f.pops + 1))
  {
    hide TicketAt, Pow2, BitAnd;
    var pc := Read(Peek, m.r, 1);
    var laps := Sizes(c);
    CutSlotOf(c, m.r);
    ReadCommutesPop(c, m, f, pc, true);
    PeekReads(c, m, f, Peek, m.r, true, 1);
    ModSteps(Seen(c, f, m.r), m.r, c.N());
    if m.r == f.pops {
      TicketIn(f.pops, c.N(), m.r);
      CutNow(c, m.r);
    }
  }

  /** The fields w, r and slots of a queue object stand for the atomic queue f: they are the
      ticket memory m, cut to words. */
  ghost predicate Represents(c: Config, w: nat, r: nat, slots: seq<Slot>, m: Mem, f: Queue) {
    && c.wraps && c.Ok()
    && MemInv(Tickets(c), m, f)
    && CutMem(Tickets(c), m) == Mem(w, r, slots)
  }

  function Tickets(c: Config): (t: Config)
    ensures c.wraps ==> Words(t) == c
  { c.(wraps := false) }

  function Enqueued(f: Queue, d: Value): Queue { f.(items := f.items + [d]) }

  function Dequeued(f: Queue): Queue
    requires f.items != []
  { f.(pops := f.pops + 1, items := f.items[1..]) }

  lemma LonePush(c: Config, w: nat, r: nat, slots: seq<Slot>, m: Mem, f: Queue, d: Value)
    requires Represents(c, w, r, slots, m, f) && m.w == f.Pushes() && |f.items| < c.N()
    ensures c.SlotOf(w) < |slots| == |m.slots|
    ensures var s := c.SlotOf(w);
      Represents(c, w, r, slots[s := Slot(c.FullWord(w), d)],
                 m.(slots := m.slots[s := Slot(2 * m.w + 1, d)]), Enqueued(f, d))
  {
    var t := Tickets(c);
    CutSlotOf(t, m.w);
    PushKeeps(t, m, f, d);
    CutNow(t, m.w);
    UpdateCommutes(t, m, c.SlotOf(w), Slot(2 * m.w + 1, d));
  }

  lemma LonePop(c: Config, w: nat, r: nat, slots: seq<Slot>, m: Mem, f: Queue)
    requires Represents(c, w, r, slots, m, f) && m.r == f.pops && f.items != []
    ensures c.SlotOf(r) < |slots| == |m.slots|
    ensures var s := c.SlotOf(r);
      Represents(c, w, r, slots[s := Slot(c.EmptyWord(r + c.N()), ZERO)],
                 m.(slots := m.slots[s := Slot(2 * (m.r + c.N()), ZERO)]), Dequeued(f))
  {
    var t := Tickets(c);
    CutSlotOf(t, m.r);
    PopKeeps(t, m, f);
    CutWords(t, m.r, c.N());
    UpdateCommutes(t, m, c.SlotOf(r), Slot(2 * (m.r + c.N()), ZERO));
  }

  lemma LoneSwap(c: Config, w: nat, r: nat, slots: seq<Slot>, m: Mem, f: Queue, i: nat, t: nat, d: Value)
    requires Represents(c, w, r, slots, m, f) && f.Queued(t) && c.SlotOf(i) == t % c.N()
    requires Cut(Tickets(c), 2 * t + 1) == c.FullWord(i)
    ensures c.SlotOf(i) < |slots| == |m.slots|
    ensures var s := c.SlotOf(i);
      Represents(c, w, r, slots[s := Slot(c.FullWord(i), d)], m.(slots := m.slots[s := Slot(2 * t + 1, d)]),
                 Replaced(f, t, d))
  {
    SwapKeeps(Tickets(c), m, f, t, d);
    UpdateCommutes(Tickets(c), m, c.SlotOf(i), Slot(2 * t + 1, d));
  }

  lemma LoneBumpWrite(c: Config, w: nat, r: nat, slots: seq<Slot>, m: Mem, f: Queue)
    requires Represents(c, w, r, slots, m, f) && m.w < f.Pushes()
    ensures Represents(c, c.Cast(w + 1), r, slots, m.(w := m.w + 1), f)
  {
    CutWords(Tickets(c), m.w, 1);
  }

  lemma LoneBumpRead(c: Config, w: nat, r: nat, slots: seq<Slot>, m: Mem, f: Queue)
    requires Represents(c, w, r, slots, m, f) && m.r < f.pops
    ensures Represents(c, w, c.Cast(r + 1), slots, m.(r := m.r + 1), f)
  {
    CutWords(Tickets(c), m.r, 1);
  }

  /** The last n elements. */
  function LastOf<T>(n: nat, q: seq<T>): (r: seq<T>)
    ensures |r| == if |q| <= n then |q| else n
  { if |q| <= n then q else q[|q| - n..] }

  /** What repeated push_keep_n calls leave. */
  function KeepAll<T>(n: nat, q: seq<T>, ds: seq<T>): seq<T> {
    if ds == [] then q else LastOf(n, KeepAll(n, q, ds[..|ds| - 1]) + [ds[|ds| - 1]])
  }

  /** m calls on contents q leave the last N values of q followed by the values pushed. */
  lemma {:induction false} KeepLast<T>(n: nat, q: seq<T>, ds: seq<T>)
    requires n > 0 && |q| <= n
    ensures KeepAll(n, q, ds) == LastOf(n, q + ds)
  {
    if ds == [] {
      assert q + ds == q;
    } else {
      var pre, x := ds[..|ds| - 1], ds[|ds| - 1];
      KeepLast(n, q, pre);
      assert ds == pre + [x];
      KeepLastStep(n, q + pre, x);
      assert q + ds == (q + pre) + [x];
    }
  }

  lemma KeepLastStep<T>(n: nat, s: seq<T>, x: T)
    requires n > 0
    ensures LastOf(n, LastOf(n, s) + [x]) == LastOf(n, s + [x])
  {
  }

  class MpmcQueue {
    const c: Config
    const slots: array<Slot>
    var writeIndex: nat
    var readIndex: nat
    /** The atomic queue this object stands for, and its memory before cutting to words. */
    ghost var fifo: Queue
    ghost var mem: Mem

    ghost function T(): Config { Tickets(c) }

    ghost predicate Valid()
      reads this, slots
    {
      Represents(c, writeIndex, readIndex, slots[..], mem, fifo)
    }

    ghost predicate WriteLags() reads this { mem.w < fifo.Pushes() }

    ghost predicate ReadLags() reads this { mem.r < fifo.pops }

    /** The guard of the helping branch of peek and pop_if, when it is needed. */
    ghost predicate PeekReturns() reads this { ReadLags() ==> c.Visible(mem.r + c.N()) }

    constructor (c: Config)
      requires c.wraps && c.Ok()
      ensures this.c == c && fresh(slots) && Valid() && fifo == Fresh()
      ensures !WriteLags() && !ReadLags()
    {
      this.c := c;
      var a := new Slot[c.N()](_ => Slot(0, ZERO));
      slots := a;
      writeIndex, readIndex := 0, 0;
      fifo, mem := Fresh(), InitMem(c.(wraps := false));
      new;
      var i := 0;
      while i < slots.Length
        invariant 0 <= i <= slots.Length
        invariant fifo == Fresh() && mem == InitMem(T()) && writeIndex == readIndex == 0
        invariant forall j :: 0 <= j < i ==> slots[j] == Slot(c.Cast(2 * j), ZERO)
      {
        slots[i] := Slot(c.Cast(2 * i), ZERO);
        i := i + 1;
      }
      InitSim(T(), 0);
      ModUnique(0, 0, 0, c.Range());
      assert slots[..] == CutMem(T(), mem).slots;
    }

    /** The run-time sized constructor. `accepted` says that its check throws nothing; q is null
        if it throws, and if it lets a capacity through that no working queue has: 0, or a 2^k
        with k >= 32 that leaves less than two spare bits. */
    static method Create(bits: nat, n: nat, lazyPush: bool, lazyPop: bool)
        returns (accepted: bool, q: MpmcQueue?)
      requires bits > 0 && n < Pow2(64)
      ensures accepted <==> n == 0 || exists k: nat :: PassesAs(n, bits, 32, k)
      ensures q != null <==> exists k: nat :: IsExponent(n, bits, k)
      ensures q != null ==> accepted && fresh(q) && fresh(q.slots) && q.Valid() && q.fifo == Fresh()
      ensures q != null ==> q.c.N() == n && q.c.bits == bits && q.c.lazyPush == lazyPush && q.c.lazyPop == lazyPop
      ensures accepted && q == null ==> n == 0 || exists k: nat :: n == Pow2(k) && k >= 32 && bits < k + 2
    {
      q := null;
      accepted := AcceptsCapacity(bits, n);
      var b := BitsForValue(n);
      WorkingCapacity(bits, n, b);
      if accepted && n > 0 && b + 1 <= bits {
        q := new MpmcQueue(Config(b - 1, bits, lazyPush, lazyPop, true));
      }
    }

    /** push(d, i); push(d) is the same loop without the assignment to i. */
    method Push(d: Value) returns (ok: bool, i: nat, ghost rounds: nat)
      requires Valid()
      modifies this, slots
      ensures Valid()
      ensures ok == (|old(fifo).items| < c.N())
      ensures ok ==> i == old(fifo).Pushes() % c.Range()
      ensures fifo == if ok then Enqueued(old(fifo), d) else old(fifo)
      ensures WriteLags() == (ok && c.lazyPush) && ReadLags() == old(ReadLags()) && mem.r == old(mem.r)
      ensures rounds == if old(WriteLags()) then 2 else 1
    {
      i, rounds := 0, 0;
      while true
        invariant Valid() && fifo == old(fifo) && mem.r == old(mem.r)
        invariant rounds == if old(WriteLags()) && !WriteLags() then 1 else 0
        decreases fifo.Pushes() - mem.w
      {
        rounds := rounds + 1;
        LonePushRead(T(), mem, fifo);
        var h := writeIndex;
        var s := c.SlotOf(h);
        var word := slots[s].word;
        if word == c.EmptyWord(h) {
          var expected := Slot(c.EmptyWord(h), ZERO);
          if slots[s] == expected {
            StoreTail(h, s, d);
            i := h;
            if !c.lazyPush {
              if writeIndex == h { BumpWrite(); }
            }
            return true, i, rounds;
          }
        } else if word == c.FullWord(h) || word == c.EmptyWord(h + c.N()) {
          if writeIndex == h { BumpWrite(); }
        } else if c.Cast(word + 2 * c.N()) == c.FullWord(h) {
          return false, i, rounds;
        }
      }
    }

    /** The store of a successful slot exchange by a producer. */
    method StoreTail(h: nat, s: nat, d: Value)
      requires Valid() && !WriteLags() && |fifo.items| < c.N() && h == writeIndex && s == c.SlotOf(h)
      modifies slots, this`mem, this`fifo
      ensures Valid()
      ensures fifo == Enqueued(old(fifo), d)
      ensures mem.w == old(mem.w) && mem.r == old(mem.r) && WriteLags()
    {
      LonePush(c, writeIndex, readIndex, slots[..], mem, fifo, d);
      ghost var was := slots[..];
      slots[s] := Slot(c.FullWord(h), d);
      assert slots[..] == was[s := Slot(c.FullWord(h), d)];
      mem := mem.(slots := mem.slots[s := Slot(2 * mem.w + 1, d)]);
      fifo := Enqueued(fifo, d);
    }

    method BumpWrite()
      requires Valid() && WriteLags()
      modifies this`writeIndex, this`mem
      ensures Valid() && mem == old(mem).(w := old(mem).w + 1) && !WriteLags()
    {
      LoneBumpWrite(c, writeIndex, readIndex, slots[..], mem, fifo);
      writeIndex := c.Cast(writeIndex + 1);
      mem := mem.(w := mem.w + 1);
    }

    method BumpRead()
      requires Valid() && ReadLags()
      modifies this`readIndex, this`mem
      ensures Valid() && mem == old(mem).(r := old(mem).r + 1) && !ReadLags()
    {
      LoneBumpRead(c, writeIndex, readIndex, slots[..], mem, fifo);
      readIndex := c.Cast(readIndex + 1);
      mem := mem.(r := mem.r + 1);
    }

    /** pop(d, i): the index is loaded at the head of the loop. */
    method PopIndexed() returns (ok: bool, d: Value, i: nat, ghost rounds: nat)
      requires Valid()
      modifies this, slots
      ensures Valid()
      ensures ok == (old(fifo).items != [])
      ensures ok ==> d == old(fifo).items[0] && i == old(fifo).pops % c.Range()
      ensures fifo == if ok then Dequeued(old(fifo)) else old(fifo)
      ensures ReadLags() == (ok && c.lazyPop) && WriteLags() == old(WriteLags()) && mem.w == old(mem.w)
      ensures rounds == if old(ReadLags()) then 2 else 1
    {
      hide Pow2, BitAnd, Cell, TicketAt;
      d, i, rounds := ZERO, 0, 0;
      while true
        invariant Valid() && fifo == old(fifo) && mem.w == old(mem.w)
        invariant rounds == if old(ReadLags()) && !ReadLags() then 1 else 0
        decreases fifo.pops - mem.r
      {
        rounds := rounds + 1;
        LonePopRead(T(), mem, fifo);
        var h := readIndex;
        var s := c.SlotOf(h);
        var e := slots[s];
        if e.word == c.FullWord(h) {
          if slots[s] == e {
            TakeHead(h, s);
            d, i := e.data, h;
            if !c.lazyPop {
              if readIndex == h { BumpRead(); }
            }
            return true, d, i, rounds;
          }
        } else if OrOne(e.word) == c.FullWord(h + c.N()) {
          if readIndex == h { BumpRead(); }
        } else if e.word == c.EmptyWord(h) {
          return false, d, i, rounds;
        }
      }
    }

    /** The store of a successful slot exchange by a consumer. */
    method TakeHead(h: nat, s: nat)
      requires Valid() && !ReadLags() && fifo.items != [] && h == readIndex && s == c.SlotOf(h)
      modifies slots, this`mem, this`fifo
      ensures Valid()
      ensures fifo == Dequeued(old(fifo))
      ensures mem.w == old(mem.w) && mem.r == old(mem.r) && ReadLags()
    {
      LonePop(c, writeIndex, readIndex, slots[..], mem, fifo);
      ghost var was := slots[..];
      slots[s] := Slot(c.EmptyWord(h + c.N()), ZERO);
      assert slots[..] == was[s := Slot(c.EmptyWord(h + c.N()), ZERO)];
      mem := mem.(slots := mem.slots[s := Slot(2 * (mem.r + c.N()), ZERO)]);
      fifo := Dequeued(fifo);
    }

    /** pop(d): the index is loaded before the loop and again at the end of each iteration. */
    method Pop() returns (ok: bool, d: Value, ghost rounds: nat)
      requires Valid()
      modifies this, slots
      ensures Valid()
      ensures ok == (old(fifo).items != [])
      ensures ok ==> d == old(fifo).items[0]
      ensures fifo == if ok then Dequeued(old(fifo)) else old(fifo)
      ensures ReadLags() == (ok && c.lazyPop) && WriteLags() == old(WriteLags()) && mem.w == old(mem.w)
      ensures rounds == if old(ReadLags()) then 2 else 1
    {
      d, rounds := ZERO, 0;
      var h := readIndex;
      while true
        invariant Valid() && fifo == old(fifo) && mem.w == old(mem.w) && h == readIndex
        invariant rounds == if old(ReadLags()) && !ReadLags() then 1 else 0
        decreases fifo.pops - mem.r
      {
        rounds := rounds + 1;
        LonePopRead(T(), mem, fifo);
        var s := c.SlotOf(h);
        var e := slots[s];
        if e.word == c.FullWord(h) {
          if slots[s] == e {
            TakeHead(h, s);
            d := e.data;
            if !c.lazyPop {
              if readIndex == h { BumpRead(); }
            }
            return true, d, rounds;
          }
        } else if OrOne(e.word) == c.FullWord(h + c.N()) {
          if readIndex == h { BumpRead(); }
        } else if e.word == c.EmptyWord(h) {
          return false, d, rounds;
        }
        h := readIndex;
      }
    }

    /** push_keep_n: the contents become the last N elements of what they were plus d. */
    method PushKeepN(d: Value) returns (ok: bool, i: nat, ghost outer: nat)
      requires Valid()
      modifies this, slots
      ensures Valid() && ok && outer <= 2
      ensures fifo.items == LastOf(c.N(), old(fifo).items + [d])
      ensures fifo.Pushes() == old(fifo).Pushes() + 1 && i == old(fifo).Pushes() % c.Range()
    {
      outer := 0;
      while true
        invariant Valid() && fifo.Pushes() == old(fifo).Pushes()
        invariant outer == 0 ==> fifo == old(fifo)
        invariant outer > 0 ==> outer == 1 && |fifo.items| < c.N()
        invariant outer > 0 ==> |old(fifo).items| == c.N() && fifo.items == old(fifo).items[1..]
        decreases 2 - outer
      {
        outer := outer + 1;
        ghost var rounds;
        ok, i, rounds := Push(d);
        if ok { return; }
        var popped, lost, _ := Pop();
      }
    }

    /** push_keep_n for each value in turn: the last N elements of the contents followed by the
        values stay. */
    method PushKeepEach(ds: seq<Value>)
      requires Valid()
      modifies this, slots
      ensures Valid() && fifo.items == LastOf(c.N(), old(fifo).items + ds)
      ensures fifo.Pushes() == old(fifo).Pushes() + |ds|
    {
      var x := 0;
      assert ds[..0] == [];
      while x < |ds|
        invariant Valid() && x <= |ds| && fifo.Pushes() == old(fifo).Pushes() + x
        invariant fifo.items == KeepAll(c.N(), old(fifo).items, ds[..x])
      {
        var ok, i, outer := PushKeepN(ds[x]);
        assert ds[..x + 1][..x] == ds[..x];
        x := x + 1;
      }
      assert ds[..|ds|] == ds;
      KeepLast(c.N(), old(fifo).items, ds);
    }

    /** exchange: the word shifts out the top bit of i, so i stands for the one queued ticket
        that agrees with it modulo half the range, if there is one. */
    method Exchange(i: nat, expected: Value, desired: Value) returns (ok: bool, ghost t: nat)
      requires Valid() && i < c.Range()
      modifies slots, this`mem, this`fifo
      ensures Valid() && mem.w == old(mem.w) && mem.r == old(mem.r)
      ensures ok <==> exists u: nat :: SameWord(u, i, expected, old(fifo))
      ensures ok ==> SameWord(t, i, expected, old(fifo))
      ensures ok ==> fifo == Replaced(old(fifo), t, desired)
      ensures !ok ==> fifo == old(fifo) && slots[..] == old(slots[..])
    {
      var s := c.SlotOf(i);
      var oldEntry := Slot(c.FullWord(i), expected);
      t := TicketAt(fifo.pops, c.N(), s);
      ExchangeTest(T(), mem, fifo, i, expected);
      assert fifo.Queued(t) && SameWord(t, i, expected, fifo) ==> slots[s] == oldEntry;
      if slots[s] == oldEntry {
        ReplaceItem(i, t, desired);
        return true, t;
      }
      return false, t;
    }

    /** The store of a successful exchange. */
    method ReplaceItem(i: nat, ghost t: nat, d: Value)
      requires Valid() && i < c.Range() && fifo.Queued(t) && c.SlotOf(i) == t % c.N()
      requires Cut(T(), 2 * t + 1) == c.FullWord(i)
      modifies slots, this`mem, this`fifo
      ensures Valid() && mem.w == old(mem.w) && mem.r == old(mem.r)
      ensures fifo == Replaced(old(fifo), t, d)
    {
      var s := c.SlotOf(i);
      LoneSwap(c, writeIndex, readIndex, slots[..], mem, fifo, i, t, d);
      ghost var was := slots[..];
      slots[s] := Slot(c.FullWord(i), d);
      assert slots[..] == was[s := Slot(c.FullWord(i), d)];
      mem := mem.(slots := mem.slots[s := Slot(2 * t + 1, d)]);
      fifo := Replaced(fifo, t, d);
    }

    ghost predicate SameWord(u: nat, i: nat, expected: Value, f: Queue)
      requires c.Ok()
    {
      f.Queued(u) && u % Half(c) == i % Half(c) && f.items[u - f.pops] == expected
    }

    /** peek(d, i), watched for at most `turns` iterations: i receives the slot's word, not the
        ticket. It is done within two iterations, unless the read index lags behind an
        invisible lap: then never, and nothing changes. */
    method Peek(turns: nat) returns (done: bool, ok: bool, d: Value, i: nat, ghost rounds: nat)
      requires Valid()
      modifies this`readIndex, this`mem
      ensures Valid() && mem.w == old(mem.w)
      ensures done <==> old(PeekReturns()) && turns >= if old(ReadLags()) then 2 else 1
      ensures done ==> ok == (fifo.items != []) && !ReadLags()
      ensures done && ok ==> d == fifo.items[0] && i == (2 * fifo.pops + 1) % c.Range()
      ensures done ==> rounds == if old(ReadLags()) then 2 else 1
      ensures !old(PeekReturns()) ==> mem == old(mem) && readIndex == old(readIndex)
    {
      hide Pow2, BitAnd, Cell, TicketAt;
      ok, d, i, rounds := false, ZERO, 0, 0;
      var left := turns;
      while left > 0
        invariant Valid() && mem.w == old(mem.w) && rounds + left == turns
        invariant rounds == 0 || !old(PeekReturns()) ==> mem == old(mem) && readIndex == old(readIndex)
        invariant rounds > 0 && old(PeekReturns()) ==> old(ReadLags()) && rounds == 1 && !ReadLags()
      {
        left, rounds := left - 1, rounds + 1;
        LonePeekRead(T(), mem, fifo);
        var h := readIndex;
        var e := slots[c.SlotOf(h)];
        if e.word == c.EmptyWord(h) {
          return true, false, d, i, rounds;
        }
        if e.word == c.FullWord(h) {
          d, i := e.data, e.word;
          return true, true, d, i, rounds;
        }
        if c.ShiftedMatch(e.word, h + c.N()) {
          if readIndex == h { BumpRead(); }
        }
      }
      done := false;
    }

    /** pop_if, watched likewise: the callback sees the head and the slot's word. */
    method PopIf(f: (Value, nat) -> bool, turns: nat) returns (done: bool, ok: bool, d: Value, ghost rounds: nat)
      requires Valid()
      modifies this, slots
      ensures Valid() && mem.w == old(mem.w)
      ensures done <==> old(PeekReturns()) && turns >= if old(ReadLags()) then 2 else 1
      ensures done ==>
        (ok <==> old(fifo).items != [] && f(old(fifo).items[0], (2 * old(fifo).pops + 1) % c.Range()))
      ensures done && ok ==> d == old(fifo).items[0]
      ensures fifo == if done && ok then Dequeued(old(fifo)) else old(fifo)
      ensures done ==> ReadLags() == (ok && c.lazyPop)
      ensures done ==> rounds == if old(ReadLags()) then 2 else 1
      ensures !old(PeekReturns()) ==> mem == old(mem) && readIndex == old(readIndex) && slots[..] == old(slots[..])
    {
      hide Pow2, BitAnd, Cell, TicketAt;
      ok, d, rounds := false, ZERO, 0;
      var left := turns;
      while left > 0
        invariant Valid() && mem.w == old(mem.w) && fifo == old(fifo) && rounds + left == turns
        invariant slots[..] == old(slots[..])
        invariant rounds == 0 || !old(PeekReturns()) ==> mem == old(mem) && readIndex == old(readIndex)
        invariant rounds > 0 && old(PeekReturns()) ==> old(ReadLags()) && rounds == 1 && !ReadLags()
      {
        left, rounds := left - 1, rounds + 1;
        LonePeekRead(T(), mem, fifo);
        var h := readIndex;
        var s := c.SlotOf(h);
        var e := slots[s];
        if e.word == c.EmptyWord(h) {
          return true, false, d, rounds;
        }
        if e.word == c.FullWord(h) {
          if !f(e.data, e.word) { return true, false, d, rounds; }
          if slots[s] == e {
            TakeHead(h, s);
            d := e.data;
            if !c.lazyPop {
              if readIndex == h { BumpRead(); }
            }
            return true, true, d, rounds;
          }
        } else if c.ShiftedMatch(e.word, h + c.N()) {
          if readIndex == h { BumpRead(); }
        }
      }
      done := false;
    }

    /** consume: pops until the queue is empty or the callback says stop. */
    method Consume(f: (Value, nat) -> bool) returns (n: nat)
      requires Valid()
      modifies this, slots
      ensures Valid() && n <= |old(fifo).items|
      ensures fifo == old(fifo).(pops := old(fifo).pops + n, items := old(fifo).items[n..])
      ensures forall j :: 0 <= j < n - 1 ==> !f(old(fifo).items[j], (old(fifo).pops + j) % c.Range())
      ensures n < |old(fifo).items| ==> n > 0 && f(old(fifo).items[n - 1], (old(fifo).pops + n - 1) % c.Range())
    {
      n := 0;
      while true
        invariant Valid() && n <= |old(fifo).items|
        invariant fifo == old(fifo).(pops := old(fifo).pops + n, items := old(fifo).items[n..])
        invariant forall j :: 0 <= j < n ==> !f(old(fifo).items[j], (old(fifo).pops + j) % c.Range())
        decreases |fifo.items|
      {
        var ok, v, i, _ := PopIndexed();
        if !ok { return; }
        n := n + 1;
        if f(v, i) { return; }
      }
    }

    /** empty(): true exactly when the queue is empty and the read index does not lag. */
    method Empty() returns (yes: bool)
      requires Valid()
      ensures yes <==> fifo.items == [] && !ReadLags()
    {
      LonePeekRead(T(), mem, fifo);
      var h := readIndex;
      var e := slots[c.SlotOf(h)];
      yes := e.word == c.EmptyWord(h);
    }

    /** size(): the distance of the indexes while both are in the same turn of the word;
        once only the write index has wrapped, that distance plus N minus the range. */
    method Size() returns (n: nat)
      requires Valid() && c.bits <= 64
      ensures fifo.items == [] && !ReadLags() ==> n == 0
      ensures !(fifo.items == [] && !ReadLags()) ==>
        && mem.r <= mem.w
        && n == (if mem.w / c.Range() == mem.r / c.Range() then mem.w - mem.r
                 else (mem.w - mem.r + c.N() - c.Range()) % Pow2(64))
      ensures mem.w < c.Range() ==> -1 <= n - |fifo.items| <= 1
      ensures mem.w < c.Range() && !WriteLags() && !ReadLags() ==> n == |fifo.items|
    {
      var none := Empty();
      if none { return 0; }
      SizeFacts(T(), mem, fifo);
      if writeIndex >= readIndex { return writeIndex - readIndex; }
      return (writeIndex + c.N() - readIndex) % Pow2(64);
    }
  }

  /** exchange takes an index that was never issued: after one push, which answers index 0, it
      succeeds at index 2^(B-1). The head is then the new value. */
  method ExchangeUnissued(c: Config, d: Value, desired: Value) returns (issued: nat, i: nat, ok: bool, head: Value)
    requires c.wraps && c.Ok()
    ensures issued == 0 && 0 < i < c.Range() && ok && head == desired
  {
    var q := new MpmcQueue(c);
    var pushed, popped;
    ghost var rounds, t;
    pushed, issued, rounds := q.Push(d);
    ModUnique(0, 0, 0, c.Range());
    i := Pow2(c.bits - 1);
    ModUnique(0, 0, 0, Half(c));
    ModUnique(i, 1, 0, Half(c));
    assert q.SameWord(0, i, d, q.fifo);
    ok, t := q.Exchange(i, d, desired);
    popped, head, rounds := q.Pop();
  }

  /** Among the capacities the check lets through, those of working queues. */
  lemma WorkingCapacity(bits: nat, n: nat, b: nat)
    requires IsBitLength(n, b)
    ensures (exists k: nat :: IsExponent(n, bits, k)) ==> exists k: nat :: PassesAs(n, bits, 32, k)
    ensures (exists k: nat :: PassesAs(n, bits, 32, k)) ==> b > 0 && n == Pow2(b - 1)
    ensures (exists k: nat :: IsExponent(n, bits, k)) <==> b > 0 && n == Pow2(b - 1) && b + 1 <= bits
    ensures (exists k: nat :: PassesAs(n, bits, 32, k)) && b + 1 > bits ==> b - 1 >= 32
  {
    if k: nat :| IsExponent(n, bits, k) {
      assert PassesAs(n, bits, 32, k);
      BitLengthOfPower(k, b);
    }
    if k: nat :| PassesAs(n, bits, 32, k) {
      BitLengthOfPower(k, b);
    }
    if b > 0 && n == Pow2(b - 1) && b + 1 <= bits {
      assert IsExponent(n, bits, b - 1);
    }
  }

  /** The difference of two remainders. */
  lemma TurnsApart(x: nat, y: nat, n: nat)
    requires n > 0 && y <= x < y + n
    ensures if x / n == y / n then x % n - y % n == x - y else x / n == y / n + 1 && x % n - y % n == x - y - n
  {
    var p, q := x / n, y / n;
    assert x == p * n + x % n && y == q * n + y % n;
    assert (p - q) * n == p * n - q * n;
    MulAtLeast(n, p - q, 2);
    MulAtLeast(n, p - q, -1);
  }

  /** Where the indexes' words stand to each other. */
  lemma SizeFacts(c: Config, m: Mem, f: Queue)
    requires c.Ok() && !c.wraps && MemInv(c, m, f) && m.r <= m.w
    ensures var R := c.Range();
      && (if m.w / R == m.r / R then Cut(c, m.w) - Cut(c, m.r) == m.w - m.r
          else Cut(c, m.w) < Cut(c, m.r) && Cut(c, m.w) - Cut(c, m.r) == m.w - m.r - R)
      && (m.w < R ==> m.w / R == m.r / R)
  {
    var laps := Sizes(c);
    TurnsApart(m.w, m.r, c.Range());
    if m.w < c.Range() {
      ModUnique(m.w, 0, m.w, c.Range());
      ModUnique(m.r, 0, m.r, c.Range());
    }
  }

  /** At most one queued ticket has the low bits of i, and it lives in the slot of i. */
  lemma OneTicketForWord(c: Config, f: Queue, i: nat, u: nat)
    requires c.Ok() && |f.items| <= c.N() && f.Queued(u) && u % Half(c) == i % Half(c)
    ensures u == TicketAt(f.pops, c.N(), c.SlotOf(i))
  {
    var laps := Sizes(c);
    ModMod(u, c.N(), laps);
    ModMod(i, c.N(), laps);
    TicketIn(f.pops, c.N(), u);
  }

  /** The one entry exchange looks at. */
  lemma ExchangeTest(c: Config, m: Mem, f: Queue, i: nat, expected: Value)
    requires c.Ok() && !c.wraps && MemInv(c, m, f) && i < c.Range()
    ensures var s := c.SlotOf(i);
      var t := TicketAt(f.pops, c.N(), s);
      && Words(c).SlotOf(i) == s == t % c.N()
      && (CutSlot(c, m.slots[s]) == Slot(Words(c).FullWord(i), expected) <==>
          f.Queued(t) && t % Half(c) == i % Half(c) && f.items[t - f.pops] == expected)
      && (f.Queued(t) && t % Half(c) == i % Half(c) ==> Cut(c, 2 * t + 1) == Words(c).FullWord(i))
      && forall u: nat :: f.Queued(u) && u % Half(c) == i % Half(c) ==> u == t
  {
    var s := c.SlotOf(i);
    var t := TicketAt(f.pops, c.N(), s);
    forall u: nat | f.Queued(u) && u % Half(c) == i % Half(c)
      ensures u == t
    {
      OneTicketForWord(c, f, i, u);
    }
    ModUnique(i, 0, i, c.Range());
    CutSlotOf(c, i);
    ExchangeWord(c, f, t, i);
  }

  lemma ExchangeWord(c: Config, f: Queue, t: nat, i: nat)
    requires c.Ok() && !c.wraps && i < c.Range() && f.pops <= t
    ensures Cut(c, Cell(f, t).word) == Words(c).FullWord(i) <==> f.Queued(t) && t % Half(c) == i % Half(c)
  {
    ModUnique(i, 0, i, c.Range());
    CutNow(c, i);
    WordIs(c, i, 1);
    if f.Queued(t) {
      WordIs(c, t, 1);
    } else {
      EvenIsNotOdd(c, t, i);
    }
  }
}
