/** The calls of peek and pop_if that never end unless somebody calls pop: exactly which they
    are, and that they need a queue with lazy pops. */
module Hang {
  import opened Bits
  import opened FifoSpec
  import opened Histories
  import opened Machine
  import opened Simulation
  import opened Linearizability
  import opened WrapAround
  import opened Solo

  /** The read index lags, the ticket one lap ahead of it is not visible, and no call under
      way can move it. */
  predicate Stuck(c: Config, m: Mem, f: Queue, pcs: seq<Pc>) {
    && m.r + 1 == f.pops
    && !c.Visible(m.r + c.N())
    && forall i :: 0 <= i < |pcs| ==> StuckPc(m, pcs[i])
  }

  /** No undecided pop, and no swap of the read index from its present value. */
  predicate StuckPc(m: Mem, pc: Pc) {
    match pc
    case Load(op, _) => !op.Pop?
    case Read(op, _, _) => !op.Pop?
    case Cas(op, _, _, _) => !op.Pop?
    case Help(op, h, _) => !op.Pop? && (op.Push? || h != m.r)
    case Finish(op, h, _) => op.Push? || h != m.r
    case _ => true
  }

  /** An undecided call of peek or pop_if. */
  predicate Waiting(pc: Pc) { PhaseOf(pc).Pending? && (pc.op.Peek? || pc.op.PopIf?) }

  /** The state a schedule leads to is stuck. */
  predicate StuckAt(c: Config, threads: nat, acts: seq<Action>) {
    Stuck(c, Exec(c, threads, acts).mem, FifoAt(c, threads, acts), Exec(c, threads, acts).pcs)
  }

  lemma StuckRead(c: Config, m: Mem, f: Queue, pc: Pc, accept: bool)
    requires !c.wraps && MemInv(c, m, f) && PcInv(m, f, pc) && StuckPc(m, pc)
    requires m.r + 1 == f.pops && !c.Visible(m.r + c.N())
    requires pc.Read? && (pc.op.Peek? || pc.op.PopIf?)
    ensures var (m', pc', ev) := Act(c, m, pc, accept);
      && m' == m && ev == Tau
      && (pc' == Load(pc.op, pc.tries) || (pc' == Help(pc.op, pc.h, pc.tries) && pc.h != m.r))
  {
    hide Decide, TicketAt;
    PeekReads(c, m, f, pc.op, pc.h, accept, pc.tries);
  }

  /** Every slot exchange of a taking operation fails: its ticket has gone. */
  lemma StuckCas(c: Config, m: Mem, f: Queue, pc: Pc)
    requires !c.wraps && MemInv(c, m, f) && PcInv(m, f, pc) && m.r + 1 == f.pops && pc.Cas? && !pc.op.Push?
    ensures m.slots[c.SlotOf(pc.h)] != pc.seen
  {
    hide TicketAt;
    SlotShows(c, m, f, pc.h);
  }

  lemma StuckStep(c: Config, m: Mem, f: Queue, pc: Pc, accept: bool)
    requires !c.wraps && MemInv(c, m, f) && PcInv(m, f, pc) && StuckPc(m, pc)
    requires m.r + 1 == f.pops && !c.Visible(m.r + c.N())
    ensures var (m', pc', ev) := Act(c, m, pc, accept);
      && m'.r == m.r && After(f, ev).pops == f.pops && StuckPc(m', pc')
      && (Waiting(pc) ==> PhaseOf(pc') == PhaseOf(pc))
  {
    assert |m.slots| == c.N();
    hide TicketAt, Cell, OrOne, MemInv;
    if pc.Read? && (pc.op.Peek? || pc.op.PopIf?) {
      StuckRead(c, m, f, pc, accept);
    } else if pc.Cas? && !pc.op.Push? {
      StuckCas(c, m, f, pc);
    }
  }

  predicate NoPopStarts(acts: seq<Action>, p: nat) {
    forall i :: p <= i < |acts| ==> acts[i].Start? ==> !acts[i].op.Pop?
  }

  /** No call of peek or pop_if that was undecided in `was` has been decided in `now`. */
  predicate StillWaiting(was: seq<Pc>, now: seq<Pc>) {
    && |was| == |now|
    && forall t :: 0 <= t < |was| ==> Waiting(was[t]) ==> PhaseOf(now[t]) == PhaseOf(was[t])
  }

  lemma StuckNext(c: Config, s: State, f: Queue, a: Action, was: seq<Pc>)
    requires !c.wraps && Sim(c, s, f) && Stuck(c, s.mem, f, s.pcs) && StillWaiting(was, s.pcs)
    requires a.Start? ==> !a.op.Pop?
    ensures var (s', ev) := Next(c, s, a);
      Stuck(c, s'.mem, After(f, ev), s'.pcs) && StillWaiting(was, s'.pcs)
  {
    if a.tid < |s.pcs| && a.Go? {
      StuckStep(c, s.mem, f, s.pcs[a.tid], a.accept);
      var s' := Next(c, s, a).0;
      assert s'.mem.r == s.mem.r;
      forall i | 0 <= i < |s.pcs| ensures StuckPc(s'.mem, s'.pcs[i]) {
        assert StuckPc(s.mem, s.pcs[i]);
      }
    }
  }

  /** Whatever pushes, exchanges, peeks and pop_ifs follow: until some thread calls pop,
      no peek and no pop_if that is under way ever answers. */
  lemma {:induction false} HangsUntilSomebodyPops(c: Config, threads: nat, acts: seq<Action>, p: nat)
    requires !c.wraps && p <= |acts| && NoPopStarts(acts, p)
    requires StuckAt(c, threads, acts[..p])
    ensures StuckAt(c, threads, acts)
    ensures StillWaiting(Exec(c, threads, acts[..p]).pcs, Exec(c, threads, acts).pcs)
    decreases |acts|
  {
    if p == |acts| {
      assert acts[..p] == acts;
    } else {
      var pre := Butlast(acts);
      assert pre[..p] == acts[..p];
      HangsUntilSomebodyPops(c, threads, pre, p);
      Reachable(c, threads, pre);
      StuckNext(c, Exec(c, threads, pre), FifoAt(c, threads, pre), Last(acts), Exec(c, threads, acts[..p]).pcs);
    }
  }

  /** The same for the real queue, along every fresh schedule. */
  lemma RealQueueHangs(c: Config, threads: nat, acts: seq<Action>, p: nat)
    requires c.Ok() && !c.wraps && p <= |acts| && NoPopStarts(acts, p) && FreshRun(c, threads, acts)
    requires StuckAt(c, threads, acts[..p])
    ensures var w, acts' := Words(c), CutActions(c, acts);
      StillWaiting(Exec(w, threads, acts'[..p]).pcs, Exec(w, threads, acts').pcs)
  {
    hide Exec, Stuck, FreshRun, CutActions;
    HangsUntilSomebodyPops(c, threads, acts, p);
    CutPrefix(c, acts, p);
    PrefixFresh(c, threads, acts, p);
    WordsFollowTickets(c, threads, acts[..p]);
    WordsFollowTickets(c, threads, acts);
    WaitingOnWords(c, Exec(c, threads, acts[..p]), Exec(c, threads, acts));
  }

  lemma WaitingOnWords(c: Config, was: State, now: State)
    requires StillWaiting(was.pcs, now.pcs)
    ensures StillWaiting(CutState(c, was).pcs, CutState(c, now).pcs)
  {
    hide CutPc, PhaseOf, CutState;
    forall t | 0 <= t < |was.pcs| { PhaseOnWords(c, was.pcs[t], now.pcs[t]); }
  }

  lemma PhaseOnWords(c: Config, was: Pc, now: Pc)
    ensures PhaseOf(was) == PhaseOf(now) ==> PhaseOf(CutPc(c, was)) == PhaseOf(CutPc(c, now))
    ensures PhaseOf(CutPc(c, was)).Pending? <==> PhaseOf(was).Pending?
    ensures PhaseOf(was).Pending? && (CutPc(c, was).op.Peek? || CutPc(c, was).op.PopIf?)
      ==> was.op.Peek? || was.op.PopIf?
  {
  }

  /** Such a state is reached by every lazily popping queue, by one thread alternating push
      and pop Half - N + 1 times, which leaves the queue empty (and the real queue gets there
      too: the run is fresh). */
  lemma HangIsReachable(c: Config, threads: nat) returns (acts: seq<Action>)
    requires c.Ok() && !c.wraps && c.lazyPop && threads > 0
    ensures FreshRun(c, threads, acts) && AllIdle(c, threads, acts)
    ensures Half(c) >= c.N() && Calls(acts) == Alternation(Half(c) - c.N() + 1)
    ensures FifoAt(c, threads, acts) == Fifo(Half(c) - c.N() + 1, [], 0)
    ensures StuckAt(c, threads, acts)
  {
    var laps := Sizes(c);
    ThreadCount(c, threads, []);
    acts := PushPopRounds(c, threads, [], Half(c) - c.N() + 1);
    ThreadCount(c, threads, acts);
    AllIdleStuck(c, threads, acts);
    HalfIsInvisible(c);
  }

  lemma HalfIsInvisible(c: Config)
    requires c.Ok()
    ensures !c.Visible(Half(c))
  {
    ModUnique(Half(c), 0, Half(c), c.Range());
  }

  lemma AllIdleStuck(c: Config, threads: nat, acts: seq<Action>)
    requires AllIdle(c, threads, acts) && |Exec(c, threads, acts).pcs| == threads
    ensures var s := Exec(c, threads, acts); forall i :: 0 <= i < |s.pcs| ==> StuckPc(s.mem, s.pcs[i])
  {
    var s := Exec(c, threads, acts);
    assert forall t :: 0 <= t < threads ==> s.pcs[t] == PcAt(c, threads, acts, t);
  }

  // ---------- everybody else answers ----------

  /** From `acts` on, no schedule without a new call of pop lets thread t's call take effect. */
  ghost predicate Hanging(c: Config, threads: nat, acts: seq<Action>, t: nat) {
    forall more :: acts <= more && NoPopStarts(more, |acts|)
      ==> PhaseOf(PcAt(c, threads, more, t)) == PhaseOf(PcAt(c, threads, acts, t))
  }

  /** The read index lags and a pop is undecided: it does not decide before the index moves. */
  lemma PopWaits(c: Config, m: Mem, f: Queue, pc: Pc)
    requires !c.wraps && MemInv(c, m, f) && PcInv(m, f, pc) && m.r + 1 == f.pops
    requires PhaseOf(pc) == Pending(Pop)
    ensures var (m', pc', ev) := Act(c, m, pc, true);
      && After(f, ev) == f && |m'.slots| == c.N() && PhaseOf(pc') == Pending(Pop)
      && if pc.Help? && pc.h == m.r then m'.r == f.pops else m' == m && Left(c, m, f, pc') < Left(c, m, f, pc)
  {
    hide TicketAt, Decide, Cell;
    if pc.Read? {
      if pc.h < m.r {
        AlonePopLate(c, m, f, pc.h, true, pc.tries);
      } else {
        AlonePopNow(c, m, f, true, pc.tries);
      }
    } else if pc.Cas? {
      StuckCas(c, m, f, pc);
    }
  }

  /** Thread i makes one step. */
  lemma OneStep(c: Config, threads: nat, acts: seq<Action>, i: nat) returns (next: seq<Action>)
    requires !c.wraps && i < threads
    ensures next == acts + [Go(i, true)] && OnlyMoved(c, threads, acts, next, i)
    ensures var s := Exec(c, threads, acts);
      && |s.pcs| == threads && s.pcs[i] == PcAt(c, threads, acts, i)
      && var (m', pc', ev) := Act(c, s.mem, s.pcs[i], true);
      && Exec(c, threads, next).mem == m' && PcAt(c, threads, next, i) == pc'
      && FifoAt(c, threads, next) == After(FifoAt(c, threads, acts), ev)
  {
    next := acts + [Go(i, true)];
    Snoc(acts, Go(i, true));
    ThreadCount(c, threads, acts);
    forall t | 0 <= t < threads { PcAfter(c, threads, next, t); }
  }

  /** Running the thread of an undecided pop until the read index no longer lags. */
  lemma {:induction false} PopHelps(c: Config, threads: nat, acts: seq<Action>, i: nat) returns (more: seq<Action>)
    requires !c.wraps && i < threads && PhaseOf(PcAt(c, threads, acts, i)) == Pending(Pop)
    requires Exec(c, threads, acts).mem.r + 1 == FifoAt(c, threads, acts).pops
    ensures Extends(acts, more, i, true) && OnlyMoved(c, threads, acts, more, i)
    ensures Exec(c, threads, more).mem.r == FifoAt(c, threads, more).pops
    decreases Remaining(c, threads, acts, i)
  {
    var s, f := Exec(c, threads, acts), FifoAt(c, threads, acts);
    Reachable(c, threads, acts);
    more := OneStep(c, threads, acts, i);
    hide Act, FifoAt, Exec, Left;
    PopWaits(c, s.mem, f, s.pcs[i]);
    if Exec(c, threads, more).mem.r != FifoAt(c, threads, more).pops {
      more := PopHelps(c, threads, more, i);
    }
  }

  /** Some thread's own steps, without a new call, bring the read index up to date. */
  lemma Unstick(c: Config, threads: nat, acts: seq<Action>, i: nat) returns (more: seq<Action>)
    requires !c.wraps && i < threads && !StuckPc(Exec(c, threads, acts).mem, PcAt(c, threads, acts, i))
    requires Exec(c, threads, acts).mem.r + 1 == FifoAt(c, threads, acts).pops
    ensures Extends(acts, more, i, true) && OnlyMoved(c, threads, acts, more, i)
    ensures Exec(c, threads, more).mem.r == FifoAt(c, threads, more).pops
    ensures var pc := PcAt(c, threads, acts, i); Waiting(pc) ==> PhaseOf(PcAt(c, threads, more, i)) == PhaseOf(pc)
  {
    var pc := PcAt(c, threads, acts, i);
    if PhaseOf(pc) == Pending(Pop) {
      more := PopHelps(c, threads, acts, i);
    } else {
      more := OneStep(c, threads, acts, i);
    }
  }

  /** A pending peek or pop_if that can see ends when it runs alone. */
  lemma Answers(c: Config, threads: nat, acts: seq<Action>, t: nat) returns (more: seq<Action>)
    requires !c.wraps && t < threads && Waiting(PcAt(c, threads, acts, t))
    requires CanSee(c, Exec(c, threads, acts).mem, FifoAt(c, threads, acts), PcAt(c, threads, acts, t).op)
    ensures Extends(acts, more, t, true) && PcAt(c, threads, more, t).Idle?
  {
    more := RunAlone(c, threads, acts, t, FifoAt(c, threads, acts), PcAt(c, threads, acts, t).op, true);
  }

  /** Unless the state is stuck, the threads under way can let any pending peek or pop_if answer,
      without a new call of any kind. */
  lemma AnswersUnlessStuck(c: Config, threads: nat, acts: seq<Action>, t: nat) returns (more: seq<Action>)
    requires !c.wraps && t < threads && Waiting(PcAt(c, threads, acts, t)) && !StuckAt(c, threads, acts)
    ensures acts <= more && (forall i :: |acts| <= i < |more| ==> more[i].Go?) && PcAt(c, threads, more, t).Idle?
  {
    var s, f := Exec(c, threads, acts), FifoAt(c, threads, acts);
    Reachable(c, threads, acts);
    ThreadCount(c, threads, acts);
    if s.mem.r == f.pops || c.Visible(s.mem.r + c.N()) {
      more := Answers(c, threads, acts, t);
    } else {
      var i :| 0 <= i < |s.pcs| && !StuckPc(s.mem, s.pcs[i]);
      hide Exec, FifoAt, StuckPc;
      var mid := Unstick(c, threads, acts, i);
      more := Answers(c, threads, mid, t);
    }
  }

  /** A pending peek or pop_if can be kept from answering by the mere absence of new pops exactly
      if the state is stuck. */
  lemma HangsExactly(c: Config, threads: nat, acts: seq<Action>, t: nat)
    requires !c.wraps && t < threads && Waiting(PcAt(c, threads, acts, t))
    ensures Hanging(c, threads, acts, t) <==> StuckAt(c, threads, acts)
  {
    if StuckAt(c, threads, acts) {
      forall more | acts <= more && NoPopStarts(more, |acts|)
        ensures PhaseOf(PcAt(c, threads, more, t)) == PhaseOf(PcAt(c, threads, acts, t))
      {
        assert more[..|acts|] == acts;
        ThreadCount(c, threads, acts);
        HangsUntilSomebodyPops(c, threads, more, |acts|);
      }
    } else {
      var more := AnswersUnlessStuck(c, threads, acts, t);
      assert PhaseOf(PcAt(c, threads, more, t)).Ready?;
    }
  }

  // ---------- only lazy pops get there ----------

  /** Some thread has taken the element at the read index and is about to advance it. */
  predicate Advancing(m: Mem, pcs: seq<Pc>) {
    exists i :: 0 <= i < |pcs| && pcs[i].Finish? && !pcs[i].op.Push? && pcs[i].h == m.r
  }

  /** Without lazy pops the read index lags only between a slot swap and its index swap. */
  predicate LagIsPassing(m: Mem, f: Queue, pcs: seq<Pc>) { m.r == f.pops || Advancing(m, pcs) }

  lemma LagStep(c: Config, s: State, f: Queue, a: Action)
    requires !c.wraps && !c.lazyPop && Sim(c, s, f) && LagIsPassing(s.mem, f, s.pcs)
    ensures var (s', ev) := Next(c, s, a); LagIsPassing(s'.mem, After(f, ev), s'.pcs)
  {
    if a.tid < |s.pcs| && a.Go? {
      var pc := s.pcs[a.tid];
      var (m', pc', ev) := Act(c, s.mem, pc, a.accept);
      var pcs' := s.pcs[a.tid := pc'];
      LagAct(c, s.mem, f, pc, a.accept);
      if m'.r != After(f, ev).pops {
        if pc'.Finish? && !pc'.op.Push? && pc'.h == m'.r {
          assert pcs'[a.tid] == pc';
        } else {
          var i :| 0 <= i < |s.pcs| && s.pcs[i].Finish? && !s.pcs[i].op.Push? && s.pcs[i].h == s.mem.r;
          assert pcs'[i] == s.pcs[i];
        }
      }
    } else if a.tid < |s.pcs| && a.Start? && s.mem.r != f.pops {
      var i :| 0 <= i < |s.pcs| && s.pcs[i].Finish? && !s.pcs[i].op.Push? && s.pcs[i].h == s.mem.r;
      assert Next(c, s, a).0.pcs[i] == s.pcs[i];
    }
  }

  /** A step ends a lag, or starts one by taking the head, or leaves both index and count. */
  lemma LagAct(c: Config, m: Mem, f: Queue, pc: Pc, accept: bool)
    requires !c.wraps && !c.lazyPop && MemInv(c, m, f) && PcInv(m, f, pc)
    ensures var (m', pc', ev) := Act(c, m, pc, accept);
      || m'.r == After(f, ev).pops
      || (pc'.Finish? && !pc'.op.Push? && pc'.h == m'.r)
      || (m'.r == m.r && After(f, ev).pops == f.pops && !(pc.Finish? && !pc.op.Push? && pc.h == m.r))
  {
    hide TicketAt, Cell;
    if pc.Cas? && m.slots[c.SlotOf(pc.h)] == pc.seen { WinnerIsCurrent(c, m, f, pc); }
  }

  lemma {:induction false} LagsPass(c: Config, threads: nat, acts: seq<Action>)
    requires !c.wraps && !c.lazyPop
    ensures LagIsPassing(Exec(c, threads, acts).mem, FifoAt(c, threads, acts), Exec(c, threads, acts).pcs)
  {
    if acts != [] {
      LagsPass(c, threads, Butlast(acts));
      Reachable(c, threads, Butlast(acts));
      LagStep(c, Exec(c, threads, Butlast(acts)), FifoAt(c, threads, Butlast(acts)), Last(acts));
    }
  }

  /** Without lazy pops no schedule leads to a stuck state. */
  lemma EagerPopsNeverStick(c: Config, threads: nat, acts: seq<Action>)
    requires !c.wraps && !c.lazyPop
    ensures !StuckAt(c, threads, acts)
  {
    LagsPass(c, threads, acts);
  }

  /** Some schedule leaves a call of peek or pop_if hanging. */
  ghost predicate CanHang(c: Config, threads: nat) {
    exists acts: seq<Action>, t: nat ::
      t < threads && Waiting(PcAt(c, threads, acts, t)) && Hanging(c, threads, acts, t)
  }

  /** peek and pop_if can come to depend on a new pop exactly in a queue with lazy pops. */
  lemma OnlyLazyPopsHang(c: Config, threads: nat)
    requires c.Ok() && !c.wraps && threads > 0
    ensures CanHang(c, threads) <==> c.lazyPop
  {
    if c.lazyPop {
      var acts := HangingPeek(c, threads);
    } else {
      forall acts: seq<Action>, t: nat | t < threads && Waiting(PcAt(c, threads, acts, t))
        ensures !Hanging(c, threads, acts, t)
      {
        EagerPopsNeverStick(c, threads, acts);
        HangsExactly(c, threads, acts, t);
      }
    }
  }

  /** One thread alternates push and pop and then calls peek on the empty queue. */
  lemma HangingPeek(c: Config, threads: nat) returns (acts: seq<Action>)
    requires c.Ok() && !c.wraps && c.lazyPop && threads > 0
    ensures FreshRun(c, threads, acts)
    ensures Half(c) >= c.N() && Calls(acts) == Alternation(Half(c) - c.N() + 1) + [(0, Peek)]
    ensures PhaseOf(PcAt(c, threads, acts, 0)) == Pending(Peek) && Hanging(c, threads, acts, 0)
  {
    var before := HangIsReachable(c, threads);
    acts := before + [Start(0, Peek)];
    Snoc(before, Start(0, Peek));
    CallsSnoc(before, Start(0, Peek));
    ThreadCount(c, threads, before);
    PcAfter(c, threads, acts, 0);
    Reachable(c, threads, before);
    assert acts[..|before|] == before;
    HangsUntilSomebodyPops(c, threads, acts, |before|);
    HangsExactly(c, threads, acts, 0);
  }
}
