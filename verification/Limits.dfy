/** Where the code stops behaving like the atomic queue, exactly: the negative answer of empty,
    and words too narrow for the capacity. */
module Limits {
  import opened Bits
  import opened FifoSpec
  import opened Histories
  import opened Machine
  import opened Simulation
  import opened Linearizability
  import opened WrapAround
  import opened Solo

  // ---------- empty() ----------

  /** empty() answers true exactly when the queue is empty and the index it loaded is still
      the head's ticket. So true is always right, and a lagging read index makes an empty
      queue look non-empty. */
  lemma EmptyAnswers(c: Config, m: Mem, f: Queue, pc: Pc, accept: bool)
    requires !c.wraps && MemInv(c, m, f) && PcInv(m, f, pc) && pc.Read? && pc.op.IsEmpty?
    ensures Act(c, m, pc, accept).2 == Lin(IsEmpty, Emptiness(f.items == [] && pc.h == f.pops))
  {
    EmptyReads(c, m, f, pc.h, accept, pc.tries);
  }

  /** A lazily popping queue that is empty says it is not, after one push and one pop; on words
      too. */
  lemma EmptySaysNo(c: Config, threads: nat) returns (acts: seq<Action>)
    requires c.Ok() && !c.wraps && c.lazyPop && threads > 0
    ensures FreshRun(c, threads, acts) && Calls(acts) == Alternation(1) + [(0, IsEmpty)]
    ensures FifoAt(c, threads, acts).items == []
    ensures Trace(c, threads, acts) != [] && Trace(Words(c), threads, CutActions(c, acts)) != []
    ensures Last(Trace(c, threads, acts)) == (0, Respond(IsEmpty, Emptiness(false)))
    ensures Last(Trace(Words(c), threads, CutActions(c, acts))) == (0, Respond(IsEmpty, Emptiness(false)))
  {
    ThreadCount(c, threads, []);
    var before := PushPopRounds(c, threads, [], 1);
    hide Exec, FifoAt, FreshRun, PcAt, Trace;
    acts := CallAlone(c, threads, before, 0, IsEmpty, true);
    assert Last(Trace(c, threads, acts)) == (0, Respond(IsEmpty, Emptiness(false)));
    CallsSnoc(before, Start(0, IsEmpty));
    CallsExtend(before + [Start(0, IsEmpty)], acts, 0, true);
  }

  // ---------- the width of a word ----------

  /** The words a push may find at its index b + N, and a pop at its index b, differ. */
  predicate WordsTellApart(c: Config, b: nat) {
    var n := c.N();
    && Distinct4(Cut(c, 2 * b + 1), Cut(c, 2 * (b + n)), Cut(c, 2 * (b + n) + 1), Cut(c, 2 * (b + 2 * n)))
    && Distinct4(Cut(c, 2 * b), Cut(c, 2 * b + 1), Cut(c, 2 * (b + n)), Cut(c, 2 * (b + n) + 1))
  }

  predicate Distinct4(p: nat, q: nat, x: nat, y: nat) {
    p != q && p != x && p != y && q != x && q != y && x != y
  }

  lemma WideEnough(c: Config, b: nat)
    requires c.Ok()
    ensures WordsTellApart(c, b)
  {
    var n := c.N();
    var laps := Sizes(c);
    CutEqual(c, 2 * b + 1, 2 * (b + n) + 1);
    CutEqual(c, 2 * (b + n), 2 * (b + 2 * n));
    CutEqual(c, 2 * b, 2 * (b + n));
    EvenIsNotOdd(c, b, b);
    EvenIsNotOdd(c, b, b + n);
    EvenIsNotOdd(c, b + n, b);
    EvenIsNotOdd(c, b + n, b + n);
    EvenIsNotOdd(c, b + 2 * n, b);
    EvenIsNotOdd(c, b + 2 * n, b + n);
  }

  lemma TooNarrow(c: Config, b: nat)
    requires c.bits <= c.k + 1
    ensures Cut(c, 2 * (b + c.N())) == Cut(c, 2 * b)
  {
    var turns := Pow2(c.k + 1 - c.bits);
    Pow2Sum(c.bits, c.k + 1 - c.bits);
    assert 2 * c.N() == Pow2(c.k + 1) == c.Range() * turns == turns * c.Range();
    ModTurns(2 * b, turns, c.Range());
  }

  /** A word must be at least two bits wider than the capacity's exponent. */
  lemma TwoBitsAreNeeded(c: Config, b: nat)
    ensures WordsTellApart(c, b) <==> c.Ok()
  {
    if c.Ok() {
      WideEnough(c, b);
    } else {
      TooNarrow(c, b);
    }
  }

  // With fewer bits the queue itself fails, not only the argument: a pop that runs alone on a new
  // queue takes the empty slot for that of the lap ahead, helps the index on, and never answers.

  /** Thread 0 calls pop and makes n steps. */
  function FirstPop(n: nat): (acts: seq<Action>)
    ensures |acts| == n + 1 && acts[0] == Start(0, Pop) && forall i :: 0 < i <= n ==> acts[i] == Go(0, true)
  { if n == 0 then [Start(0, Pop)] else FirstPop(n - 1) + [Go(0, true)] }

  /** The slots are those of a new queue, and thread 0 is somewhere in its loop. */
  predicate Looping(w: Config, s: State) {
    && s.mem.slots == InitMem(w).slots && |s.pcs| > 0
    && match s.pcs[0]
       case Load(op, _) => op == Pop
       case Read(op, _, _) => op == Pop
       case Help(op, _, _) => op == Pop
       case _ => false
  }

  /** Any number of laps ahead the words are the same. */
  lemma {:induction false} NarrowWords(w: Config, i: nat, laps: nat)
    requires w.bits <= w.k + 1
    ensures Cut(w, 2 * (laps * w.N() + i)) == Cut(w, 2 * i)
  {
    if laps == 0 {
    } else {
      NarrowWords(w, i, laps - 1);
      Distribute(laps - 1, 1, w.N());
      TooNarrow(w, (laps - 1) * w.N() + i);
    }
  }

  /** The slot of index h in a new queue has the empty word of h itself. */
  lemma NarrowSlot(w: Config, h: nat)
    requires w.bits <= w.k + 1
    ensures Cut(w, 2 * (h % w.N())) == Cut(w, 2 * h)
  {
    hide Cut, Pow2;
    NarrowWords(w, h % w.N(), h / w.N());
    assert h == h / w.N() * w.N() + h % w.N();
  }

  /** Empty words are even. */
  lemma EvenWord(w: Config, x: nat)
    ensures Cut(w, 2 * x) % 2 == 0
  {
    if w.bits == 0 {
      assert Pow2(0) == 1;
    } else {
      assert w.Range() == 2 * Pow2(w.bits - 1);
      ModMod(2 * x, 2, Pow2(w.bits - 1));
      assert (2 * x) % 2 == 0;
    }
  }

  lemma NarrowRead(w: Config, h: nat)
    requires w.wraps && w.bits <= w.k + 1
    ensures var e := InitMem(w).slots[w.SlotOf(h)];
      e.word != w.FullWord(h) && OrOne(e.word) == w.FullWord(h + w.N())
  {
    hide Pow2;
    NarrowSlot(w, h);
    TooNarrow(w, h);
    EvenWord(w, h);
  }

  lemma {:induction false} NarrowPopLoops(w: Config, threads: nat, n: nat)
    requires w.wraps && w.bits <= w.k + 1 && threads > 0
    ensures Looping(w, Exec(w, threads, FirstPop(n)))
  {
    if n == 0 {
      assert Butlast(FirstPop(0)) == [];
    } else {
      NarrowPopLoops(w, threads, n - 1);
      Snoc(FirstPop(n - 1), Go(0, true));
      var s := Exec(w, threads, FirstPop(n - 1));
      if s.pcs[0].Read? { NarrowRead(w, s.pcs[0].h); }
    }
  }

  /** A pop that runs alone on a new queue ends at some time. */
  ghost predicate NewPopEnds(w: Config, threads: nat) {
    exists n: nat :: PcAt(w, threads, FirstPop(n), 0).Idle?
  }

  lemma {:induction false} FirstPopOnWords(c: Config, n: nat)
    ensures CutActions(c, FirstPop(n)) == FirstPop(n)
  {
    if n == 0 {
      assert CutActions(c, []) == [] && Butlast(FirstPop(0)) == [];
    } else {
      FirstPopOnWords(c, n - 1);
      Snoc(FirstPop(n - 1), Go(0, true));
    }
  }

  /** Two spare bits decide: with them a lone pop on a new queue says within eight steps that
      there is no element; without them it never ends. */
  lemma TwoBitsDecide(c: Config, threads: nat)
    requires !c.wraps && threads > 0
    ensures NewPopEnds(Words(c), threads) <==> c.Ok()
    ensures c.Ok() ==> exists n: nat :: n <= 8 && SaysNone(Words(c), threads, FirstPop(n))
  {
    if c.Ok() {
      ThreadCount(c, threads, []);
      var acts := CallAlone(c, threads, [], 0, Pop, true);
      var n := |acts| - 1;
      assert [] + [Start(0, Pop)] <= acts;
      assert acts == FirstPop(n);
      FirstPopOnWords(c, n);
      PcOnWords(c, threads, acts, 0);
      assert FifoAt(c, threads, []) == Fresh();
      assert SaysNone(Words(c), threads, FirstPop(n));
    } else {
      forall n: nat ensures !PcAt(Words(c), threads, FirstPop(n), 0).Idle? {
        NarrowPopLoops(Words(c), threads, n);
      }
    }
  }

  /** The schedule ends with thread 0's answer that there is no element. */
  predicate SaysNone(w: Config, threads: nat, acts: seq<Action>) {
    acts != [] && Last(Trace(w, threads, acts)) == (0, Respond(Pop, NoElement))
  }

  /** n is 2^k, and 2^k leaves two spare bits or is cut off by the w-bit argument. */
  ghost predicate PassesAs(n: nat, bits: nat, w: nat, k: nat) {
    n == Pow2(k) && (k + 2 <= bits || k >= w)
  }

  /** The constructor's test on a capacity below 2^64; bits_for_value takes 32 bits of it. */
  method AcceptsCapacity(bits: nat, n: nat) returns (ok: bool)
    requires n < Pow2(64) && bits > 0
    ensures ok <==> n == 0 || exists k: nat :: PassesAs(n, bits, 32, k)
  {
    var b := BitsForValue(n % Pow2(32));
    var below := if n == 0 then Pow2(64) - 1 else n - 1;
    ok := BitAnd(n, below) == 0 && bits > b;
    if n == 0 {
      ModUnique(0, 0, 0, Pow2(32));
      ZeroHasNoBits(b);
    } else {
      CapacityTest(bits, n, 32, b);
    }
  }

  lemma PowerCutOff(k: nat, w: nat)
    requires k >= w
    ensures Pow2(k) % Pow2(w) == 0
  {
    Pow2Sum(w, k - w);
    ModMultiple(Pow2(w), Pow2(k - w));
  }

  /** bits_for_value of a power of two: the exponent plus one, or zero once the argument's
      width w cuts the power off. */
  lemma BitsOfPower(k: nat, w: nat, b: nat)
    requires IsBitLength(Pow2(k) % Pow2(w), b)
    ensures b == if k >= w then 0 else k + 1
  {
    if k >= w {
      PowerCutOff(k, w);
      ZeroHasNoBits(b);
    } else {
      Pow2Monotonic(k, w);
      ModUnique(Pow2(k), 0, Pow2(k), Pow2(w));
      BitLengthOfPower(k, b);
    }
  }

  lemma CapacityTest(bits: nat, n: nat, w: nat, b: nat)
    requires n > 0 && bits > 0 && IsBitLength(n % Pow2(w), b)
    ensures BitAnd(n, n - 1) == 0 && bits > b
      <==> exists k: nat :: PassesAs(n, bits, w, k)
  {
    PowerTest(n);
    if k: nat :| PassesAs(n, bits, w, k) {
      BitsOfPower(k, w, b);
    }
    if BitAnd(n, n - 1) == 0 && bits > b {
      var k: nat :| n == Pow2(k);
      BitsOfPower(k, w, b);
      assert PassesAs(n, bits, w, k);
    }
  }

  lemma ZeroHasNoBits(b: nat)
    requires IsBitLength(0, b)
    ensures b == 0
  {
  }

  /** For a capacity between 1 and 2^32 - 1 the constructor's test is right. */
  lemma AcceptedExactly(bits: nat, n: nat)
    requires 0 < n < Pow2(32)
    ensures (exists k: nat :: PassesAs(n, bits, 32, k)) <==> (exists k: nat :: IsExponent(n, bits, k))
  {
    if k: nat :| PassesAs(n, bits, 32, k) {
      PowersBelow(n, 32, k);
      assert IsExponent(n, bits, k);
    }
    if k: nat :| IsExponent(n, bits, k) {
      assert PassesAs(n, bits, 32, k);
    }
  }

  /** n is the capacity of a configuration that leaves two spare bits. */
  ghost predicate IsExponent(n: nat, bits: nat, k: nat) {
    var c := Config(k, bits, false, false, true);
    n == c.N() && c.Ok()
  }

  lemma PowersBelow(n: nat, w: nat, k: nat)
    requires n < Pow2(w) && n == Pow2(k)
    ensures k < w
  {
    if k > w { Pow2Monotonic(w, k); }
  }
}
