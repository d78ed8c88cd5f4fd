/** Progress: every retry is paid for by somebody's success, and a lone producer or consumer
    never waits. */
module Progress {
  import opened Bits
  import opened FifoSpec
  import opened Histories
  import opened Machine
  import opened Simulation
  import opened Linearizability
  import opened WrapAround

  // ---------- lock-freedom ----------

  /** Successful slot changes so far plus the position of the index the operation uses. */
  function Meter(m: Mem, f: Queue, op: Call): nat {
    f.Changes() + Index(m, op)
  }

  /** Nobody's step lowers a meter, and a step that changes a slot or that index raises it. */
  lemma MeterGrows(c: Config, m: Mem, f: Queue, pc: Pc, accept: bool, op: Call)
    requires !c.wraps && MemInv(c, m, f) && PcInv(m, f, pc)
    ensures var (m', pc', ev) := Act(c, m, pc, accept); var f' := After(f, ev);
      && Meter(m, f, op) <= Meter(m', f', op)
      && (m'.slots != m.slots || Index(m', op) != Index(m, op) ==> Meter(m, f, op) < Meter(m', f', op))
  {
    hide TicketAt, Decide, Allowed;
    ActStep(c, m, f, pc, accept);
    if pc.Cas? && m.slots[c.SlotOf(pc.h)] == pc.seen {
      WinnerIsCurrent(c, m, f, pc);
    }
  }

  /** All iterations but the one under way are paid for, counting from `tries` == first
      and meter == start; the one under way is paid for unless what it read still holds. */
  predicate PaidFor(c: Config, m: Mem, f: Queue, start: nat, first: nat, pc: Pc) {
    match pc
    case Load(op, k) => k + start <= first + Meter(m, f, op)
    case Read(op, h, k) =>
      k + start <= first + Meter(m, f, op) + if Index(m, op) == h then 1 else 0
    case Cas(op, h, seen, k) => |m.slots| == c.N() &&
      k + start <= first + Meter(m, f, op) + if m.slots[c.SlotOf(h)] == seen then 1 else 0
    case Help(op, h, k) =>
      k + start <= first + Meter(m, f, op) + if Index(m, op) == h then 1 else 0
    case _ => true
  }

  /** peek and pop_if look past an index whose lap they can recognise. */
  predicate Sighted(c: Config, pc: Pc) {
    pc.Read? && (pc.op.Peek? || pc.op.PopIf?) ==> c.Visible(pc.h + c.N())
  }

  lemma PaidRead(c: Config, m: Mem, f: Queue, pc: Pc, accept: bool, start: nat, first: nat)
    requires !c.wraps && MemInv(c, m, f) && PcInv(m, f, pc) && PaidFor(c, m, f, start, first, pc)
    requires pc.Read? && Sighted(c, pc)
    ensures PaidFor(c, m, f, start, first, Decide(c, pc.op, pc.h, m.slots[c.SlotOf(pc.h)], accept, pc.tries).0)
  {
    match pc.op
    case Push(_) => PushReads(c, m, f, pc.op, pc.h, accept, pc.tries);
    case Pop => PopReads(c, m, f, pc.op, pc.h, accept, pc.tries);
    case IsEmpty => EmptyReads(c, m, f, pc.h, accept, pc.tries);
    case Peek => PaidPeek(c, m, f, pc, accept, start, first);
    case PopIf => PaidPeek(c, m, f, pc, accept, start, first);
    case Exchange(_, _, _) => assert false;
  }

  lemma PaidPeek(c: Config, m: Mem, f: Queue, pc: Pc, accept: bool, start: nat, first: nat)
    requires !c.wraps && MemInv(c, m, f) && PcInv(m, f, pc) && PaidFor(c, m, f, start, first, pc)
    requires pc.Read? && (pc.op.Peek? || pc.op.PopIf?) && Sighted(c, pc)
    ensures PaidFor(c, m, f, start, first, Decide(c, pc.op, pc.h, m.slots[c.SlotOf(pc.h)], accept, pc.tries).0)
  {
    PeekReads(c, m, f, pc.op, pc.h, accept, pc.tries);
    SeenAhead(c, f, pc.h);
  }

  lemma PaidOwnStep(c: Config, m: Mem, f: Queue, pc: Pc, accept: bool, start: nat, first: nat)
    requires !c.wraps && MemInv(c, m, f) && PcInv(m, f, pc) && PaidFor(c, m, f, start, first, pc)
    requires Sighted(c, pc)
    ensures var (m', pc', ev) := Act(c, m, pc, accept);
      PaidFor(c, m', After(f, ev), start, first, pc')
  {
    if pc.Read? {
      PaidRead(c, m, f, pc, accept, start, first);
    }
  }

  lemma PaidOtherStep(c: Config, m: Mem, f: Queue, pc: Pc, accept: bool, start: nat, first: nat, mine: Pc)
    requires !c.wraps && MemInv(c, m, f) && PcInv(m, f, pc) && PaidFor(c, m, f, start, first, mine)
    ensures var (m', pc', ev) := Act(c, m, pc, accept);
      PaidFor(c, m', After(f, ev), start, first, mine)
  {
    if mine.Load? || mine.Read? || mine.Cas? || mine.Help? {
      MeterGrows(c, m, f, pc, accept, mine.op);
    }
  }

  function Tries(pc: Pc): nat {
    match pc
    case Load(_, k) => k
    case Read(_, _, k) => k
    case Cas(_, _, _, k) => k
    case Help(_, _, k) => k
    case _ => 0
  }

  /** From step p on, thread tid stays inside one undecided call of op, and (for peek and
      pop_if) never meets an index whose next lap is invisible. */
  predicate StaysPending(c: Config, threads: nat, acts: seq<Action>, p: nat, tid: nat, op: Call) {
    forall k {:trigger acts[..k]} :: p <= k <= |acts| ==>
      && PhaseOf(PcAt(c, threads, acts[..k], tid)) == Pending(op)
      && Sighted(c, PcAt(c, threads, acts[..k], tid))
  }

  lemma {:induction false} PaidAlong(c: Config, threads: nat, acts: seq<Action>, p: nat, tid: nat, op: Call, first: nat)
    requires !c.wraps && p <= |acts| && tid < threads
    requires PcAt(c, threads, acts[..p], tid) == Load(op, first)
    requires StaysPending(c, threads, acts, p, tid, op)
    ensures var s0, f0 := Exec(c, threads, acts[..p]), FifoAt(c, threads, acts[..p]);
      PaidFor(c, Exec(c, threads, acts).mem, FifoAt(c, threads, acts),
              Meter(s0.mem, f0, op), first, PcAt(c, threads, acts, tid))
    decreases |acts|
  {
    hide Act, Bump, MemInv, Decide;
    var start := Meter(Exec(c, threads, acts[..p]).mem, FifoAt(c, threads, acts[..p]), op);
    if p == |acts| {
      assert acts[..p] == acts;
    } else {
      var pre, a := Butlast(acts), Last(acts);
      assert pre[..p] == acts[..p];
      forall k {:trigger pre[..k]} | p <= k <= |pre|
        ensures PhaseOf(PcAt(c, threads, pre[..k], tid)) == Pending(op) && Sighted(c, PcAt(c, threads, pre[..k], tid))
      {
        assert pre[..k] == acts[..k];
      }
      PaidAlong(c, threads, pre, p, tid, op, first);
      Reachable(c, threads, pre);
      ThreadCount(c, threads, pre);
      ThreadCount(c, threads, acts);
      assert pre[..|pre|] == pre;
      var s, f := Exec(c, threads, pre), FifoAt(c, threads, pre);
      if a.Go? && a.tid < threads {
        if a.tid == tid {
          PaidOwnStep(c, s.mem, f, s.pcs[tid], a.accept, start, first);
        } else {
          PaidOtherStep(c, s.mem, f, s.pcs[a.tid], a.accept, start, first, s.pcs[tid]);
        }
      }
    }
  }

  /** Lock-freedom: between two index loads of one call the meter has grown
      by at least the number of iterations, and over a whole call, if S slots were changed
      (necessarily by others, the caller being undecided), there are at most 2S + 2 loads. */
  lemma RetryBound(c: Config, threads: nat, acts: seq<Action>, p: nat, tid: nat, op: Call, first: nat)
    requires !c.wraps && p <= |acts| && tid < threads
    requires PcAt(c, threads, acts[..p], tid) == Load(op, first)
    requires StaysPending(c, threads, acts, p, tid, op)
    ensures var m0, f0 := Exec(c, threads, acts[..p]).mem, FifoAt(c, threads, acts[..p]);
      var m, f := Exec(c, threads, acts).mem, FifoAt(c, threads, acts);
      var pc := PcAt(c, threads, acts, tid);
      var S := f.Changes() - f0.Changes();
      && (pc.Load? ==> pc.tries - first <= Meter(m, f, op) - Meter(m0, f0, op))
      && Tries(pc) - first <= 2 * S + if pc.Load? then 1 else 2
  {
    PaidAlong(c, threads, acts, p, tid, op, first);
    Reachable(c, threads, acts[..p]);
    Reachable(c, threads, acts);
    CountsGrow(c, threads, acts, p);
    assert acts[..|acts|] == acts;
  }

  lemma {:induction false} CountsGrow(c: Config, threads: nat, acts: seq<Action>, p: nat)
    requires !c.wraps && p <= |acts|
    ensures var f0, f := FifoAt(c, threads, acts[..p]), FifoAt(c, threads, acts);
      f0.pops <= f.pops && f0.Pushes() <= f.Pushes() && f0.swaps <= f.swaps
  {
    if p < |acts| {
      CountsGrow(c, threads, Butlast(acts), p);
      assert Butlast(acts)[..p] == acts[..p];
    } else {
      assert acts[..p] == acts;
    }
  }

  // The same for the real queue, in terms of what its own trace shows.

  /** The successful pushes, pops and exchanges of a history. */
  function Successes(h: seq<Done<Value>>): nat {
    if h == [] then 0
    else
      var res := Last(h).res;
      Successes(Butlast(h)) + if res.Pushed? || res.Popped? || res == Swapped(true) then 1 else 0
  }

  lemma {:induction false} SuccessesAreChanges(n: nat, h: seq<Done<Value>>)
    requires Legal(n, h)
    ensures Successes(h) == Replay(h).Changes()
  {
    if h != [] {
      SuccessesAreChanges(n, Butlast(h));
      assert Replay(h) == Apply(Replay(Butlast(h)), Last(h).op, Last(h).res);
    }
  }

  lemma {:induction false} SuccessesOnWords(c: Config, h: seq<Done<Value>>)
    ensures Successes(CutDones(c, h)) == Successes(h)
  {
    if h != [] {
      SuccessesOnWords(c, Butlast(h));
      Snoc(CutDones(c, Butlast(h)), CutDone(c, Last(h)));
    }
  }

  /** The word machine's trace shows as many successes as the atomic queue has had changes. */
  lemma ChangesOnWords(c: Config, threads: nat, acts: seq<Action>)
    requires c.Ok() && !c.wraps && FreshRun(c, threads, acts)
    ensures Successes(Dones(Trace(Words(c), threads, CutActions(c, acts)))) == FifoAt(c, threads, acts).Changes()
  {
    var tr := Trace(c, threads, acts);
    WordMachineIsLinearizable(c, threads, acts);
    DonesOfCut(c, tr);
    SuccessesOnWords(c, Dones(tr));
    SuccessesAreChanges(c.N(), Dones(tr));
    FifoIsReplay(c, threads, acts);
  }

  lemma PendingOnWords(c: Config, pc: Pc, op: Call)
    requires c.Ok() && !c.wraps && !op.Exchange?
    requires PhaseOf(CutPc(c, pc)) == Pending(op) && Sighted(Words(c), CutPc(c, pc))
    ensures PhaseOf(pc) == Pending(op) && Sighted(c, pc)
  {
    if pc.Read? { ModAdd(pc.h, c.N(), c.Range()); }
  }

  lemma StaysPendingOnWords(c: Config, threads: nat, acts: seq<Action>, p: nat, tid: nat, op: Call)
    requires c.Ok() && !c.wraps && !op.Exchange? && p <= |acts| && FreshRun(c, threads, acts)
    requires StaysPending(Words(c), threads, CutActions(c, acts), p, tid, op)
    ensures StaysPending(c, threads, acts, p, tid, op)
  {
    forall k {:trigger acts[..k]} | p <= k <= |acts|
      ensures PhaseOf(PcAt(c, threads, acts[..k], tid)) == Pending(op) && Sighted(c, PcAt(c, threads, acts[..k], tid))
    {
      CutPrefix(c, acts, k);
      PrefixFresh(c, threads, acts, k);
      PcOnWords(c, threads, acts[..k], tid);
      PendingOnWords(c, PcAt(c, threads, acts[..k], tid), op);
    }
  }

  /** Lock-freedom of the real queue along fresh schedules: a call that stays undecided while S
      pushes, pops and exchanges succeed makes at most 2S + 2 index loads. */
  lemma RealRetryBound(c: Config, threads: nat, acts: seq<Action>, p: nat, tid: nat, op: Call, first: nat)
    requires c.Ok() && !c.wraps && p <= |acts| && tid < threads && FreshRun(c, threads, acts)
    requires PcAt(Words(c), threads, CutActions(c, acts)[..p], tid) == Load(op, first)
    requires StaysPending(Words(c), threads, CutActions(c, acts), p, tid, op)
    ensures var w, acts' := Words(c), CutActions(c, acts);
      var S := Successes(Dones(Trace(w, threads, acts'))) - Successes(Dones(Trace(w, threads, acts'[..p])));
      var pc := PcAt(w, threads, acts', tid);
      Tries(pc) - first <= 2 * S + if pc.Load? then 1 else 2
  {
    hide StaysPending, Trace, Dones, Successes, FreshRun, Exec, CutActions;
    CutPrefix(c, acts, p);
    PrefixFresh(c, threads, acts, p);
    PcOnWords(c, threads, acts[..p], tid);
    PcOnWords(c, threads, acts, tid);
    Reachable(c, threads, acts[..p]);
    StaysPendingOnWords(c, threads, acts, p, tid, op);
    RetryBound(c, threads, acts, p, tid, op, first);
    ChangesOnWords(c, threads, acts[..p]);
    ChangesOnWords(c, threads, acts);
  }

  // ---------- wait-freedom of a lone producer or consumer ----------

  predicate NotProducing(pc: Pc) {
    pc.Idle? || !pc.op.Push?
  }

  /** What a lone consumer must not meet in other threads. */
  predicate NotTaking(pc: Pc) {
    pc.Idle? || !(pc.op.Pop? || pc.op.PopIf? || pc.op.Exchange?)
  }

  /** Only thread p pushes. */
  predicate OnlyProducer(acts: seq<Action>, p: nat) {
    forall i :: 0 <= i < |acts| ==> acts[i].Start? && acts[i].op.Push? ==> acts[i].tid == p
  }

  /** Only thread p pops, and nobody exchanges. */
  predicate OnlyConsumer(acts: seq<Action>, p: nat) {
    forall i :: 0 <= i < |acts| ==> acts[i].Start? ==>
      && (acts[i].op.Pop? || acts[i].op.PopIf? ==> acts[i].tid == p)
      && !acts[i].op.Exchange?
  }

  predicate LoneProducer(c: Config, m: Mem, f: Queue, pc: Pc) {
    if NotProducing(pc) then c.lazyPush || m.w == f.Pushes()
    else match pc
      case Load(_, k) =>
        if k == 0 then c.lazyPush || m.w == f.Pushes() else k == 1 && c.lazyPush && m.w == f.Pushes()
      case Read(_, h, k) =>
        h == m.w && if k == 1 then c.lazyPush || h == f.Pushes() else k == 2 && c.lazyPush && h == f.Pushes()
      case Cas(_, h, seen, k) =>
        h == m.w == f.Pushes() && |f.items| < c.N() && (k == 1 || (k == 2 && c.lazyPush))
      case Help(_, h, k) => c.lazyPush && k == 1 && h == m.w && h + 1 == f.Pushes()
      case Finish(_, h, _) => h == m.w && h + 1 == f.Pushes()
      case _ => c.lazyPush || m.w == f.Pushes()
  }

  lemma LoneProducerRead(c: Config, m: Mem, f: Queue, pc: Pc, accept: bool)
    requires !c.wraps && MemInv(c, m, f) && PcInv(m, f, pc) && LoneProducer(c, m, f, pc)
    requires pc.Read? && pc.op.Push?
    ensures LoneProducer(c, m, f, Decide(c, pc.op, pc.h, m.slots[c.SlotOf(pc.h)], accept, pc.tries).0)
  {
    PushReads(c, m, f, pc.op, pc.h, accept, pc.tries);
  }

  lemma LoneProducerCas(c: Config, m: Mem, f: Queue, pc: Pc, accept: bool)
    requires !c.wraps && MemInv(c, m, f) && PcInv(m, f, pc) && LoneProducer(c, m, f, pc)
    requires pc.Cas? && pc.op.Push?
    ensures var (m', pc', ev) := Act(c, m, pc, accept); LoneProducer(c, m', After(f, ev), pc')
  {
    TicketIn(f.pops, c.N(), pc.h);
    assert m.slots[c.SlotOf(pc.h)] == pc.seen;
  }

  lemma LoneProducerOwnStep(c: Config, m: Mem, f: Queue, pc: Pc, accept: bool)
    requires !c.wraps && MemInv(c, m, f) && PcInv(m, f, pc) && LoneProducer(c, m, f, pc)
    ensures var (m', pc', ev) := Act(c, m, pc, accept); LoneProducer(c, m', After(f, ev), pc')
  {
    if !NotProducing(pc) {
      if pc.Read? {
        LoneProducerRead(c, m, f, pc, accept);
      } else if pc.Cas? {
        LoneProducerCas(c, m, f, pc, accept);
      }
    } else {
      ProducerSideKept(c, m, f, pc, accept);
    }
  }

  /** Steps of operations other than push leave the producers' side alone. */
  lemma ProducerSideKept(c: Config, m: Mem, f: Queue, pc: Pc, accept: bool)
    requires !c.wraps && MemInv(c, m, f) && PcInv(m, f, pc) && NotProducing(pc)
    ensures var (m', pc', ev) := Act(c, m, pc, accept); var f' := After(f, ev);
      m'.w == m.w && f'.Pushes() == f.Pushes() && |f'.items| <= |f.items| && NotProducing(pc')
  {
  }

  predicate LoneConsumer(c: Config, m: Mem, f: Queue, pc: Pc) {
    if pc.Idle? || !(pc.op.Pop? || pc.op.PopIf?) then c.lazyPop || m.r == f.pops
    else match pc
      case Load(op, k) => (c.lazyPop || m.r == f.pops) && (op.Pop? ==> k == 0 || (k == 1 && c.lazyPop && m.r == f.pops))
      case Read(op, h, k) =>
        && h <= m.r && f.pops <= h + 1 && (c.lazyPop || h == f.pops)
        && (op.Pop? ==> k == 1 || (k == 2 && c.lazyPop && h == f.pops))
      case Cas(op, h, seen, k) =>
        && h == m.r == f.pops && f.items != [] && seen == Cell(f, h)
        && (op.Pop? ==> k == 1 || (k == 2 && c.lazyPop))
      case Help(op, h, k) => c.lazyPop && h + 1 == f.pops && (op.Pop? ==> k == 1)
      case Finish(_, h, _) => h + 1 == f.pops
      case _ => c.lazyPop || m.r == f.pops
  }

  lemma LoneConsumerRead(c: Config, m: Mem, f: Queue, pc: Pc, accept: bool)
    requires !c.wraps && MemInv(c, m, f) && PcInv(m, f, pc) && LoneConsumer(c, m, f, pc)
    requires pc.Read? && (pc.op.Pop? || pc.op.PopIf?)
    ensures LoneConsumer(c, m, f, Decide(c, pc.op, pc.h, m.slots[c.SlotOf(pc.h)], accept, pc.tries).0)
  {
    if pc.op.Pop? {
      PopReads(c, m, f, pc.op, pc.h, accept, pc.tries);
    } else {
      PeekReads(c, m, f, pc.op, pc.h, accept, pc.tries);
    }
    if f.items != [] { TicketIn(f.pops, c.N(), f.pops); }
  }

  lemma LoneConsumerCas(c: Config, m: Mem, f: Queue, pc: Pc, accept: bool)
    requires !c.wraps && MemInv(c, m, f) && PcInv(m, f, pc) && LoneConsumer(c, m, f, pc)
    requires pc.Cas? && (pc.op.Pop? || pc.op.PopIf?)
    ensures var (m', pc', ev) := Act(c, m, pc, accept); LoneConsumer(c, m', After(f, ev), pc')
  {
    TicketIn(f.pops, c.N(), pc.h);
    assert m.slots[c.SlotOf(pc.h)] == pc.seen;
  }

  lemma LoneConsumerOwnStep(c: Config, m: Mem, f: Queue, pc: Pc, accept: bool)
    requires !c.wraps && MemInv(c, m, f) && PcInv(m, f, pc) && LoneConsumer(c, m, f, pc)
    requires pc.Idle? || !pc.op.Exchange?
    ensures var (m', pc', ev) := Act(c, m, pc, accept); LoneConsumer(c, m', After(f, ev), pc')
    ensures var (m', pc', ev) := Act(c, m, pc, accept); pc'.Idle? || !pc'.op.Exchange?
  {
    if pc.Idle? || !(pc.op.Pop? || pc.op.PopIf?) {
      ConsumerSideKept(c, m, f, pc, accept);
    } else if pc.Read? {
      LoneConsumerRead(c, m, f, pc, accept);
    } else if pc.Cas? {
      LoneConsumerCas(c, m, f, pc, accept);
    }
  }

  /** Steps of push, peek and empty leave the head, and the count of pops, alone. */
  lemma ConsumerSideKept(c: Config, m: Mem, f: Queue, pc: Pc, accept: bool)
    requires !c.wraps && MemInv(c, m, f) && PcInv(m, f, pc) && NotTaking(pc)
    ensures var (m', pc', ev) := Act(c, m, pc, accept); var f' := After(f, ev);
      && f'.pops == f.pops && f.items <= f'.items && NotTaking(pc')
      && m.r <= m'.r <= f.pops
  {
    hide TicketAt, Cell, OrOne;
  }

  lemma LoneConsumerOtherStep(c: Config, m: Mem, f: Queue, pc: Pc, accept: bool, mine: Pc)
    requires !c.wraps && MemInv(c, m, f) && PcInv(m, f, pc) && LoneConsumer(c, m, f, mine)
    requires NotTaking(pc)
    ensures var (m', pc', ev) := Act(c, m, pc, accept);
      LoneConsumer(c, m', After(f, ev), mine) && NotTaking(pc')
  {
    ConsumerSideKept(c, m, f, pc, accept);
  }

  lemma {:induction false} LoneProducerAlong(c: Config, threads: nat, acts: seq<Action>, p: nat)
    requires !c.wraps && p < threads && OnlyProducer(acts, p)
    ensures LoneProducer(c, Exec(c, threads, acts).mem, FifoAt(c, threads, acts), PcAt(c, threads, acts, p))
    ensures forall t :: 0 <= t < threads && t != p ==> NotProducing(PcAt(c, threads, acts, t))
  {
    if acts != [] {
      var pre, a := Butlast(acts), Last(acts);
      forall t | 0 <= t < threads { PcAfter(c, threads, acts, t); }
      LoneProducerAlong(c, threads, pre, p);
      Reachable(c, threads, pre);
      ThreadCount(c, threads, pre);
      var s, f := Exec(c, threads, pre), FifoAt(c, threads, pre);
      if a.tid < threads {
        assert a.tid != p ==> PcAt(c, threads, pre, a.tid) == s.pcs[a.tid];
        if a.Go? {
          if a.tid == p {
            LoneProducerOwnStep(c, s.mem, f, s.pcs[p], a.accept);
          } else {
            ProducerSideKept(c, s.mem, f, s.pcs[a.tid], a.accept);
          }
        }
      }
    }
  }

  lemma {:induction false} LoneConsumerAlong(c: Config, threads: nat, acts: seq<Action>, p: nat)
    requires !c.wraps && p < threads && OnlyConsumer(acts, p)
    ensures LoneConsumer(c, Exec(c, threads, acts).mem, FifoAt(c, threads, acts), PcAt(c, threads, acts, p))
    ensures var pc := PcAt(c, threads, acts, p); pc.Idle? || !pc.op.Exchange?
    ensures forall t :: 0 <= t < threads && t != p ==> NotTaking(PcAt(c, threads, acts, t))
  {
    if acts != [] {
      var pre, a := Butlast(acts), Last(acts);
      forall t | 0 <= t < threads { PcAfter(c, threads, acts, t); }
      LoneConsumerAlong(c, threads, pre, p);
      Reachable(c, threads, pre);
      ThreadCount(c, threads, pre);
      var s, f := Exec(c, threads, pre), FifoAt(c, threads, pre);
      if a.tid < threads {
        assert a.tid != p ==> PcAt(c, threads, pre, a.tid) == s.pcs[a.tid];
        if a.Go? {
          if a.tid == p {
            LoneConsumerOwnStep(c, s.mem, f, s.pcs[p], a.accept);
          } else {
            LoneConsumerOtherStep(c, s.mem, f, s.pcs[a.tid], a.accept, s.pcs[p]);
          }
        }
      }
    }
  }

  /** With one pushing thread and any other traffic, a push never starts a second iteration,
      or a third when lazy; dually for pops of a lone consumer without exchanges. The real
      queue's threads behave the same along fresh schedules. */
  lemma LoneProducerWaitFree(c: Config, threads: nat, acts: seq<Action>, p: nat)
    requires !c.wraps && p < threads && OnlyProducer(acts, p)
    ensures var pc := PcAt(c, threads, acts, p);
      pc.Load? && pc.op.Push? ==> pc.tries <= if c.lazyPush then 1 else 0
    ensures c.Ok() && FreshRun(c, threads, acts) ==>
      var pc := PcAt(Words(c), threads, CutActions(c, acts), p);
      pc.Load? && pc.op.Push? ==> pc.tries <= if c.lazyPush then 1 else 0
  {
    LoneProducerAlong(c, threads, acts, p);
    if c.Ok() && FreshRun(c, threads, acts) { PcOnWords(c, threads, acts, p); }
  }

  lemma LoneConsumerWaitFree(c: Config, threads: nat, acts: seq<Action>, p: nat)
    requires !c.wraps && p < threads && OnlyConsumer(acts, p)
    ensures var pc := PcAt(c, threads, acts, p);
      pc.Load? && pc.op.Pop? ==> pc.tries <= if c.lazyPop then 1 else 0
    ensures c.Ok() && FreshRun(c, threads, acts) ==>
      var pc := PcAt(Words(c), threads, CutActions(c, acts), p);
      pc.Load? && pc.op.Pop? ==> pc.tries <= if c.lazyPop then 1 else 0
  {
    LoneConsumerAlong(c, threads, acts, p);
    if c.Ok() && FreshRun(c, threads, acts) { PcOnWords(c, threads, acts, p); }
  }
}
