/** One producer and one consumer, which may be the same thread: the real queue's behaviour with
    no assumption on the schedule. */
module Pair {
  import opened FifoSpec
  import opened Histories
  import opened Machine
  import opened Simulation
  import opened Linearizability
  import opened WrapAround
  import opened Solo
  import opened Progress

  /** Only thread p pushes, only thread q makes other calls, and nobody exchanges. */
  predicate Paired(acts: seq<Action>, p: nat, q: nat) {
    forall i :: 0 <= i < |acts| ==> acts[i].Start? ==>
      if acts[i].op.Push? then acts[i].tid == p else acts[i].tid == q && !acts[i].op.Exchange?
  }

  /** Thread t is in the role it has. */
  predicate InRole(pc: Pc, t: nat, p: nat, q: nat) {
    pc.Idle? || if pc.op.Push? then t == p else t == q && !pc.op.Exchange?
  }

  predicate PairInv(c: Config, s: State, f: Queue, p: nat, q: nat)
    requires c.Ok()
  {
    forall t :: 0 <= t < |s.pcs| ==> InRole(s.pcs[t], t, p, q) && Current(c, s.mem, f, s.pcs[t])
  }

  /** A step leaves the other index alone, and the operation what it is. */
  lemma OtherIndexKept(c: Config, m: Mem, pc: Pc, accept: bool)
    requires |m.slots| == c.N() && !pc.Idle? && !pc.op.Exchange?
    ensures var (m', pc', ev) := Act(c, m, pc, accept);
      && (if pc.op.Push? then m'.r == m.r else m'.w == m.w)
      && (pc'.Idle? || pc'.op == pc.op)
  {
  }

  lemma CurrentKept(c: Config, m: Mem, f: Queue, m': Mem, f': Queue, pc: Pc)
    requires c.Ok() && Current(c, m, f, pc) && (pc.Idle? || (!pc.op.Exchange? && Index(m', pc.op) == Index(m, pc.op)))
    ensures Current(c, m', f', pc)
  {
  }

  lemma PairStep(c: Config, s: State, f: Queue, a: Action, p: nat, q: nat)
    requires c.Ok() && !c.wraps && Sim(c, s, f) && PairInv(c, s, f, p, q) && Paired([a], p, q)
    ensures var (s', ev) := Next(c, s, a); PairInv(c, s', After(f, ev), p, q)
    ensures FreshMove(c, s, f, a)
  {
    var (s', ev) := Next(c, s, a);
    assert a == [a][0];
    if a.tid < |s.pcs| && a.Go? {
      var pc := s.pcs[a.tid];
      hide Act, MemInv;
      CurrentIsFresh(c, s.mem, f, pc);
      CurrentStep(c, s.mem, f, pc, a.accept);
      if pc.Idle? {
        IdleStays(c, s.mem, pc, a.accept);
      } else {
        OtherIndexKept(c, s.mem, pc, a.accept);
      }
      forall t | 0 <= t < |s.pcs| && t != a.tid
        ensures Current(c, s'.mem, After(f, ev), s'.pcs[t])
      {
        CurrentKept(c, s.mem, f, s'.mem, After(f, ev), s.pcs[t]);
      }
    }
  }

  lemma IdleStays(c: Config, m: Mem, pc: Pc, accept: bool)
    requires |m.slots| == c.N() && pc.Idle?
    ensures Act(c, m, pc, accept) == (m, pc, Tau)
  {
  }

  lemma {:induction false} PairAlong(c: Config, threads: nat, acts: seq<Action>, p: nat, q: nat)
    requires c.Ok() && !c.wraps && Paired(acts, p, q)
    ensures PairInv(c, Exec(c, threads, acts), FifoAt(c, threads, acts), p, q)
    ensures FreshRun(c, threads, acts)
  {
    if acts != [] {
      var pre := Butlast(acts);
      PairAlong(c, threads, pre, p, q);
      Reachable(c, threads, pre);
      assert Paired([Last(acts)], p, q);
      PairStep(c, Exec(c, threads, pre), FifoAt(c, threads, pre), Last(acts), p, q);
    }
  }

  /** Without exchanges the words of a schedule are the schedule itself. */
  lemma {:induction false} SameActions(c: Config, acts: seq<Action>, p: nat, q: nat)
    requires Paired(acts, p, q)
    ensures CutActions(c, acts) == acts
  {
    if acts != [] {
      SameActions(c, Butlast(acts), p, q);
      assert Butlast(acts) + [Last(acts)] == acts;
    }
  }

  /** No exchange, no successful exchange. */
  lemma NoSwapEvent(c: Config, s: State, f: Queue, a: Action, p: nat, q: nat)
    requires c.Ok() && !c.wraps && Sim(c, s, f) && PairInv(c, s, f, p, q)
    ensures var ev := Next(c, s, a).1; ev.Lin? ==> ev.res != Swapped(true)
  {
    hide Act, MemInv, PcInv, Sim, Current;
    if a.tid < |s.pcs| && a.Go? {
      ForwardSimulation(c, s, f, a);
      PhaseStep(c, s, f, a);
    }
  }

  lemma {:induction false} NothingSwapped(c: Config, threads: nat, acts: seq<Action>, p: nat, q: nat)
    requires c.Ok() && !c.wraps && Paired(acts, p, q)
    ensures NoSwaps(Dones(Trace(c, threads, acts)))
  {
    if acts != [] {
      var pre, a := Butlast(acts), Last(acts);
      assert Paired(pre, p, q);
      NothingSwapped(c, threads, pre, p, q);
      PairAlong(c, threads, pre, p, q);
      Reachable(c, threads, pre);
      DonesStep(c, threads, acts);
      NoSwapEvent(c, Exec(c, threads, pre), FifoAt(c, threads, pre), a, p, q);
      hide Dones, Trace, Exec, Next, FifoAt;
      NoSwapsMore(Dones(Trace(c, threads, pre)), Dones(Trace(c, threads, acts)));
    }
  }

  lemma NoSwapsMore(pre: seq<Done<Value>>, all: seq<Done<Value>>)
    requires NoSwaps(pre)
    requires all == pre || (all != [] && Butlast(all) == pre && Last(all).res != Swapped(true))
    ensures NoSwaps(all)
  {
  }

  lemma {:induction false} NoSwapsOnWords(c: Config, h: seq<Done<Value>>)
    requires NoSwaps(h)
    ensures NoSwaps(CutDones(c, h))
  {
    if h != [] {
      NoSwapsOnWords(c, Butlast(h));
      Snoc(CutDones(c, Butlast(h)), CutDone(c, Last(h)));
      assert Last(h).res != Swapped(true);
    }
  }

  /** With one producer and one consumer every schedule of the real queue is the cut of a
      linearizable one, values leave in the order they were pushed, indexes count modulo 2^B,
      and push and pop return in their first iteration, or by their second when lazy. */
  lemma OneProducerOneConsumer(c: Config, threads: nat, acts: seq<Action>, p: nat, q: nat)
    requires c.Ok() && !c.wraps && p < threads && q < threads && Paired(acts, p, q)
    ensures Trace(Words(c), threads, acts) == CutTrace(c, Trace(c, threads, acts))
    ensures Linearizable(c.N(), Trace(c, threads, acts))
    ensures var seen := Dones(Trace(Words(c), threads, acts));
      && PopLog(seen) <= PushLog(seen)
      && PushTickets(seen) == CutAll(c, UpTo(|PushTickets(seen)|))
      && PopTickets(seen) == CutAll(c, UpTo(|PopLog(seen)|))
    ensures var pc := PcAt(Words(c), threads, acts, p);
      pc.Load? && pc.op.Push? ==> pc.tries <= if c.lazyPush then 1 else 0
    ensures var pc := PcAt(Words(c), threads, acts, q);
      pc.Load? && pc.op.Pop? ==> pc.tries <= if c.lazyPop then 1 else 0
  {
    hide Exec, FifoAt, Trace, Dones, PcAt, FreshRun, Linearizable;
    PairAlong(c, threads, acts, p, q);
    SameActions(c, acts, p, q);
    NothingSwapped(c, threads, acts, p, q);
    NoSwapsOnWords(c, Dones(Trace(c, threads, acts)));
    DonesOfCut(c, Trace(c, threads, acts));
    WordMachineIsLinearizable(c, threads, acts);
    RealQueueIsFifo(c, threads, acts);
    LoneProducerWaitFree(c, threads, acts, p);
    LoneConsumerWaitFree(c, threads, acts, q);
  }
}
