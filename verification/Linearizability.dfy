/** Every schedule of the ticket machine is linearizable to the atomic FIFO. */
module Linearizability {
  import opened FifoSpec
  import opened Histories
  import opened Machine
  import opened Simulation

  /** The atomic queue along a schedule: it changes at the Lin events only. */
  function FifoAt(c: Config, threads: nat, acts: seq<Action>): Queue {
    if acts == [] then Fresh()
    else After(FifoAt(c, threads, Butlast(acts)),
               Next(c, Exec(c, threads, Butlast(acts)), Last(acts)).1)
  }

  /** The completed atomic operations of a trace, in the order of their Lin events. */
  function Dones(tr: seq<(nat, Event)>): seq<Done<Value>> {
    if tr == [] then []
    else Dones(Butlast(tr)) + Effect(Last(tr).1)
  }

  function Effect(ev: Event): seq<Done<Value>> {
    if ev.Lin? then [Done(ev.op, ev.res)] else []
  }

  // ---------- the life of a call ----------

  datatype Phase = Ready | Pending(op: Call) | Decided(op: Call, res: Answer)

  predicate Fits(ph: Phase, ev: Event) {
    match ev
    case Tau => true
    case Invoke(_) => ph.Ready?
    case Lin(op, _) => ph == Pending(op)
    case Respond(op, res) => ph == Decided(op, res)
  }

  function Move(ph: Phase, ev: Event): Phase {
    match ev
    case Tau => ph
    case Invoke(op) => Pending(op)
    case Lin(op, res) => Decided(op, res)
    case Respond(_, _) => Ready
  }

  function PhaseIn(tr: seq<(nat, Event)>, tid: nat): Phase {
    if tr == [] then Ready
    else if Last(tr).0 == tid then Move(PhaseIn(Butlast(tr), tid), Last(tr).1)
    else PhaseIn(Butlast(tr), tid)
  }

  /** Each call of each thread is invoked, takes effect exactly once, and then responds
      with the answer it took effect with. */
  predicate Disciplined(tr: seq<(nat, Event)>) {
    tr == [] || (Disciplined(Butlast(tr)) && Fits(PhaseIn(Butlast(tr), Last(tr).0), Last(tr).1))
  }

  /** Linearizability with explicit linearization points. */
  predicate Linearizable(n: nat, tr: seq<(nat, Event)>) {
    Disciplined(tr) && Legal(n, Dones(tr))
  }

  function PhaseOf(pc: Pc): Phase {
    match pc
    case Idle => Ready
    case Load(op, _) => Pending(op)
    case Read(op, _, _) => Pending(op)
    case Cas(op, _, _, _) => Pending(op)
    case Help(op, _, _) => Pending(op)
    case Swap(op) => Pending(op)
    case Finish(op, _, res) => Decided(op, res)
    case Return(op, res) => Decided(op, res)
  }

  // ---------- reachable states ----------

  lemma {:induction false} Reachable(c: Config, threads: nat, acts: seq<Action>)
    requires !c.wraps
    ensures Sim(c, Exec(c, threads, acts), FifoAt(c, threads, acts))
  {
    if acts == [] {
      InitSim(c, threads);
    } else {
      Reachable(c, threads, Butlast(acts));
      ForwardSimulation(c, Exec(c, threads, Butlast(acts)), FifoAt(c, threads, Butlast(acts)), Last(acts));
    }
  }

  /** The array in every reachable state: with R pops and W pushes done, the slot of ticket t
      holds (2t + 1, its value) for R <= t < W and (2t, zero) for W <= t < R + N, and each
      index lags its count by at most one. */
  lemma SlotsHoldTheirTickets(c: Config, threads: nat, acts: seq<Action>, t: nat)
    requires !c.wraps
    ensures Tabled(c, Exec(c, threads, acts).mem, FifoAt(c, threads, acts), t)
  {
    Reachable(c, threads, acts);
    var m, f := Exec(c, threads, acts).mem, FifoAt(c, threads, acts);
    if f.pops <= t < f.pops + c.N() { TicketsSlot(c, m, f, t); }
  }

  predicate Tabled(c: Config, m: Mem, f: Queue, t: nat) {
    var R, W := f.pops, f.Pushes();
    && |m.slots| == c.N() && R <= W <= R + c.N()
    && m.w <= W <= m.w + 1 && m.r <= R <= m.r + 1
    && (R <= t < W ==> m.slots[c.SlotOf(t)] == Slot(2 * t + 1, f.items[t - R]))
    && (W <= t < R + c.N() ==> m.slots[c.SlotOf(t)] == Slot(2 * t, ZERO))
  }

  lemma {:induction false} FifoIsReplay(c: Config, threads: nat, acts: seq<Action>)
    ensures FifoAt(c, threads, acts) == Replay(Dones(Trace(c, threads, acts)))
  {
    if acts != [] {
      FifoIsReplay(c, threads, Butlast(acts));
      DonesStep(c, threads, acts);
    }
  }

  lemma TraceStep(c: Config, threads: nat, acts: seq<Action>)
    requires acts != []
    ensures Butlast(Trace(c, threads, acts)) == Trace(c, threads, Butlast(acts))
    ensures Last(Trace(c, threads, acts)) ==
      (Last(acts).tid, Next(c, Exec(c, threads, Butlast(acts)), Last(acts)).1)
  {
  }

  lemma DonesStep(c: Config, threads: nat, acts: seq<Action>)
    requires acts != []
    ensures var pre, all := Dones(Trace(c, threads, Butlast(acts))), Dones(Trace(c, threads, acts));
      match Next(c, Exec(c, threads, Butlast(acts)), Last(acts)).1
      case Lin(op, res) => all != [] && Butlast(all) == pre && Last(all) == Done(op, res)
      case _ => all == pre
  {
    TraceStep(c, threads, acts);
    var ev := Next(c, Exec(c, threads, Butlast(acts)), Last(acts)).1;
    if ev.Lin? {
      Snoc(Dones(Trace(c, threads, Butlast(acts))), Done(ev.op, ev.res));
    }
  }

  lemma {:induction false} ThreadCount(c: Config, threads: nat, acts: seq<Action>)
    ensures |Exec(c, threads, acts).pcs| == threads
  {
    if acts != [] {
      ThreadCount(c, threads, Butlast(acts));
    }
  }

  /** Where each thread is after one more action. */
  lemma PcAfter(c: Config, threads: nat, acts: seq<Action>, t: nat)
    requires acts != [] && t < threads
    ensures var s, a, pc := Exec(c, threads, Butlast(acts)), Last(acts), PcAt(c, threads, Butlast(acts), t);
      PcAt(c, threads, acts, t) ==
        if a.tid != t then pc
        else match a
          case Start(_, op) => if pc.Idle? then Entry(op) else pc
          case Go(_, accept) => Act(c, s.mem, pc, accept).1
  {
    ThreadCount(c, threads, Butlast(acts));
    ThreadCount(c, threads, acts);
  }

  lemma ReadPhase(c: Config, op: Call, h: nat, e: Slot, accept: bool, tries: nat)
    requires !op.Exchange?
    ensures var d := Decide(c, op, h, e, accept, tries);
      Fits(Pending(op), d.1) && PhaseOf(d.0) == Move(Pending(op), d.1)
  {
  }

  lemma ActPhase(c: Config, m: Mem, pc: Pc, accept: bool)
    requires |m.slots| == c.N() && (pc.Read? ==> !pc.op.Exchange?) && (pc.Swap? ==> pc.op.Exchange?)
    ensures var (m', pc', ev) := Act(c, m, pc, accept);
      Fits(PhaseOf(pc), ev) && PhaseOf(pc') == Move(PhaseOf(pc), ev)
  {
    hide Decide, Bump, Desired, Won;
    if pc.Read? { ReadPhase(c, pc.op, pc.h, m.slots[c.SlotOf(pc.h)], accept, pc.tries); }
  }

  lemma PhaseStep(c: Config, s: State, f: Queue, a: Action)
    requires !c.wraps && Sim(c, s, f) && a.tid < |s.pcs|
    ensures var (s', ev) := Next(c, s, a);
      && |s'.pcs| == |s.pcs|
      && Fits(PhaseOf(s.pcs[a.tid]), ev)
      && PhaseOf(s'.pcs[a.tid]) == Move(PhaseOf(s.pcs[a.tid]), ev)
      && forall t :: 0 <= t < |s.pcs| && t != a.tid ==> s'.pcs[t] == s.pcs[t]
  {
    hide Act, Cell;
    assert PcInv(s.mem, f, s.pcs[a.tid]);
    if a.Go? { ActPhase(c, s.mem, s.pcs[a.tid], a.accept); }
  }

  lemma {:induction false} PhasesMatch(c: Config, threads: nat, acts: seq<Action>)
    requires !c.wraps
    ensures Disciplined(Trace(c, threads, acts))
    ensures forall t: nat ::
      PhaseIn(Trace(c, threads, acts), t)
      == if t < threads then PhaseOf(PcAt(c, threads, acts, t)) else Ready
  {
    if acts != [] {
      var pre, a := Butlast(acts), Last(acts);
      PhasesMatch(c, threads, pre);
      Reachable(c, threads, pre);
      ThreadCount(c, threads, pre);
      ThreadCount(c, threads, acts);
      TraceStep(c, threads, acts);
      var s, f := Exec(c, threads, pre), FifoAt(c, threads, pre);
      if a.tid < threads {
        PhaseStep(c, s, f, a);
      }
    }
  }

  function PcAt(c: Config, threads: nat, acts: seq<Action>, t: nat): Pc {
    var s := Exec(c, threads, acts);
    if t < |s.pcs| then s.pcs[t] else Idle
  }

  /** Any number of threads, any interleaving, any of the four lazy settings. */
  lemma {:induction false} TicketMachineIsLinearizable(c: Config, threads: nat, acts: seq<Action>)
    requires !c.wraps
    ensures Linearizable(c.N(), Trace(c, threads, acts))
  {
    PhasesMatch(c, threads, acts);
    if acts != [] {
      var pre := Butlast(acts);
      TicketMachineIsLinearizable(c, threads, pre);
      DonesStep(c, threads, acts);
      FifoIsReplay(c, threads, pre);
      Reachable(c, threads, pre);
      ForwardSimulation(c, Exec(c, threads, pre), FifoAt(c, threads, pre), Last(acts));
    }
  }

  // ---------- what linearizability means for one call ----------

  /** Thread tid is silent strictly between steps i and j. */
  predicate Quiet(tr: seq<(nat, Event)>, tid: nat, i: int, j: nat)
    requires -1 <= i < |tr| && j <= |tr|
  {
    forall x :: i < x < j ==> tr[x].0 == tid ==> tr[x].1.Tau?
  }

  lemma {:induction false} PrefixDisciplined(tr: seq<(nat, Event)>, k: nat)
    requires Disciplined(tr) && k <= |tr|
    ensures Disciplined(tr[..k])
  {
    if k < |tr| {
      PrefixDisciplined(Butlast(tr), k);
      assert Butlast(tr)[..k] == tr[..k];
    } else {
      assert tr[..k] == tr;
    }
  }

  /** A thread that is in some phase other than Ready got there by its last visible event. */
  lemma {:induction false} LastEvent(tr: seq<(nat, Event)>, tid: nat) returns (j: nat)
    requires Disciplined(tr) && !PhaseIn(tr, tid).Ready?
    ensures j < |tr| && tr[j].0 == tid && !tr[j].1.Tau? && Quiet(tr, tid, j, |tr|)
    ensures PhaseIn(tr, tid) == Move(PhaseIn(tr[..j], tid), tr[j].1)
    ensures Fits(PhaseIn(tr[..j], tid), tr[j].1)
  {
    if Last(tr).0 == tid && !Last(tr).1.Tau? {
      j := |tr| - 1;
    } else {
      j := LastEvent(Butlast(tr), tid);
      assert Butlast(tr)[..j] == tr[..j];
    }
  }

  /** A response at step k answers what the call's only effect, at a step j between its
      invocation i and k, had produced. Calls that do not overlap thus take effect in
      their real-time order. */
  lemma EffectBetween(tr: seq<(nat, Event)>, k: nat) returns (i: nat, j: nat)
    requires Disciplined(tr) && k < |tr| && tr[k].1.Respond?
    ensures i < j < k
    ensures var (tid, Respond(op, res)) := tr[k];
      && tr[i] == (tid, Invoke(op)) && tr[j] == (tid, Lin(op, res))
      && Quiet(tr, tid, i, j) && Quiet(tr, tid, j, k)
  {
    var tid := tr[k].0;
    PrefixDisciplined(tr, k + 1);
    assert Butlast(tr[..k + 1]) == tr[..k];
    j := LastEvent(tr[..k], tid);
    assert tr[..k][..j] == tr[..j];
    PrefixDisciplined(tr, j);
    i := LastEvent(tr[..j], tid);
    assert tr[..j][..i] == tr[..i];
  }

  /** Real-time order: a call that responded before another was invoked took effect first. */
  lemma RealTimeOrder(tr: seq<(nat, Event)>, k1: nat, k2: nat)
      returns (i1: nat, j1: nat, i2: nat, j2: nat)
    requires Disciplined(tr) && k1 < |tr| && k2 < |tr| && tr[k1].1.Respond? && tr[k2].1.Respond?
    ensures i1 < j1 < k1 && i2 < j2 < k2
    ensures tr[i1] == (tr[k1].0, Invoke(tr[k1].1.op)) && tr[j1] == (tr[k1].0, Lin(tr[k1].1.op, tr[k1].1.res))
    ensures tr[i2] == (tr[k2].0, Invoke(tr[k2].1.op)) && tr[j2] == (tr[k2].0, Lin(tr[k2].1.op, tr[k2].1.res))
    ensures Quiet(tr, tr[k1].0, j1, k1) && Quiet(tr, tr[k2].0, i2, j2)
    ensures k1 < i2 ==> j1 < j2
  {
    i1, j1 := EffectBetween(tr, k1);
    i2, j2 := EffectBetween(tr, k2);
  }
}
