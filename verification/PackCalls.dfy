/** What the calls of the pack do on the step machine: producers push their arguments, and a call
    that runs alone ends as the atomic queues say. */
module PackCalls {
  import opened Bits
  import opened FifoSpec
  import opened Histories
  import opened Machine
  import opened Simulation
  import opened Linearizability
  import opened Solo
  import opened PackMachine
  import P = PackModel

  // ---------- what is pushed are the arguments of the calls ----------

  lemma {:induction false} RunSnoc(z: Shape, turns: seq<Turn>, turn: Turn)
    requires z.Ok()
    ensures Run(z, turns + [turn]) == Moved(z, Run(z, turns), turn)
  {
    Snoc(turns, turn);
  }

  /** Producer p is outside push. */
  predicate Free(z: Shape, s: System, p: nat)
    requires p < |s.writers| && s.writers[p] < |s.acts|
  { InnerPc(z, s, s.writers[p], WriterThread(p)).Idle? }

  /** This turn is a call of push by producer p that finds it outside push. */
  predicate Asks(z: Shape, s: System, turn: Turn, p: nat) {
    turn.CallPush? && turn.p == p && p < |s.writers| && s.writers[p] < |s.acts| && Free(z, s, p)
  }

  /** This turn is the step of producer p that puts its element into the queue. */
  predicate Accepts(z: Shape, s: System, turn: Turn, p: nat) {
    turn == StepPush(p) && p < |s.writers| && s.writers[p] < |s.acts| &&
    var ev := InnerEvent(z, s, s.writers[p], Go(WriterThread(p), true));
    ev.Lin? && ev.res.Pushed?
  }

  /** The argument of producer p's last call. */
  function LastAsked(z: Shape, turns: seq<Turn>, p: nat): Value
    requires z.Ok()
  {
    if turns == [] then ZERO
    else if Asks(z, Run(z, Butlast(turns)), Last(turns), p) then Last(turns).value
    else LastAsked(z, Butlast(turns), p)
  }

  /** The arguments of producer p's accepted calls, in order. */
  function Accepted(z: Shape, turns: seq<Turn>, p: nat): seq<Value>
    requires z.Ok()
  {
    if turns == [] then []
    else if Accepts(z, Run(z, Butlast(turns)), Last(turns), p)
    then Accepted(z, Butlast(turns), p) + [LastAsked(z, Butlast(turns), p)]
    else Accepted(z, Butlast(turns), p)
  }

  /** Inside push, the producer pushes what it was last asked to. */
  predicate AsAsked(z: Shape, s: System, p: nat, v: Value) {
    p < |s.writers| && s.writers[p] < |s.acts| && WriterThread(p) < z.T && !Free(z, s, p) ==>
      InnerPc(z, s, s.writers[p], WriterThread(p)).op == Push(v)
  }

  /** A consumer's return leaves all other threads alone. */
  lemma ReturnedPcs(z: Shape, s: System, r: nat, ev: Event, i: nat, t: nat)
    requires z.Ok() && |s.acts| == z.g.G && r < |s.readers| && s.readers[r].place.At?
    requires i < z.g.G && t < z.T && t != ReaderThread(r)
    ensures InnerPc(z, Returned(z, s, r, ev), i, t) == InnerPc(z, s, i, t)
  {
    var x, s' := s.readers[r], Returned(z, s, r, ev);
    var s1 := s.(readers := s.readers[r := Lost(z.g, x, x.place.k)]);
    var next, a := (x.index + 1) % z.g.G, Start(ReaderThread(r), Pop);
    InnerSnoc(z, s1, next, a);
    SameActs(z, s, s1);
    hide InnerPc, InnerFifo, InnerEvent, ReaderThread, Lost;
    if s'.acts == s.acts {
      SameActs(z, s, s');
    } else {
      assert s' == Inner(s1, next, a);
    }
  }

  lemma OthersPop(z: Shape, s: System, r: nat, i: nat, t: nat)
    requires z.Ok() && |s.acts| == z.g.G && r < |s.readers| && s.readers[r].index < z.g.G && s.readers[r].place.At?
    requires i < z.g.G && t < z.T && t != ReaderThread(r)
    ensures InnerPc(z, Moved(z, s, StepPop(r)), i, t) == InnerPc(z, s, i, t)
  {
    var s1, ev := PopStepped(s, r), PopEvent(z, s, r);
    var s2 := Recorded(s1, 0, ev);
    InnerSnoc(z, s, s.readers[r].index, Go(ReaderThread(r), true));
    SameActs(z, s1, s2);
    hide InnerPc, InnerFifo, InnerEvent, ReaderThread, Returned;
    ReturnedPcs(z, s2, r, ev, i, t);
  }

  lemma OthersInner(z: Shape, s: System, j: nat, a: Action, i: nat, t: nat)
    requires i < |s.acts| && j < |s.acts| && t < z.T && a.tid != t
    ensures InnerPc(z, Inner(s, j, a), i, t) == InnerPc(z, s, i, t)
  {
    InnerSnoc(z, s, j, a);
  }

  lemma WritersDiffer()
    ensures forall p: nat, q: nat :: WriterThread(p) == WriterThread(q) ==> p == q
  {
  }

  /** A turn that is not producer p's leaves its thread alone. */
  lemma OthersTurn(z: Shape, s: System, turn: Turn, p: nat)
    requires z.Ok() && SystemInv(z, s) && p < |s.writers| && WriterThread(p) < z.T
    requires !(turn.CallPush? && turn.p == p) && turn != StepPush(p)
    ensures var s' := Moved(z, s, turn);
      && p < |s'.writers| && s'.writers[p] == s.writers[p] && |s'.acts| == z.g.G
      && InnerPc(z, s', s.writers[p], WriterThread(p)) == InnerPc(z, s, s.writers[p], WriterThread(p))
  {
    var i, t := s.writers[p], WriterThread(p);
    ThreadsDiffer();
    WritersDiffer();
    hide InnerPc, InnerFifo, InnerEvent, WriterThread, ReaderThread, RoleOf, Recorded, Returned;
    match turn
    case NewProducer => SameActs(z, s, Moved(z, s, turn));
    case NewConsumer => SameActs(z, s, Moved(z, s, turn));
    case CallPush(q, v) =>
      if q < |s.writers| { OthersInner(z, s, s.writers[q], Start(WriterThread(q), Push(v)), i, t); }
    case StepPush(q) =>
      if q < |s.writers| {
        OthersInner(z, s, s.writers[q], Go(WriterThread(q), true), i, t);
        var s1 := Inner(s, s.writers[q], Go(WriterThread(q), true));
        SameActs(z, s1, Moved(z, s, turn));
      }
    case CallPop(r) =>
      if r < |s.readers| && s.readers[r].index < z.g.G {
        OthersInner(z, s, s.readers[r].index, Start(ReaderThread(r), Pop), i, t);
        var s1 := Inner(s, s.readers[r].index, Start(ReaderThread(r), Pop));
        if Moved(z, s, turn) != s { SameActs(z, s1, Moved(z, s, turn)); }
      }
    case StepPop(r) =>
      if r < |s.readers| && s.readers[r].index < z.g.G && s.readers[r].place.At? {
        OthersPop(z, s, r, i, t);
      }
  }

  lemma AskedCall(z: Shape, s: System, p: nat, v: Value, w: Value)
    requires z.Ok() && SystemInv(z, s) && AsAsked(z, s, p, v) && p < |s.writers| && WriterThread(p) < z.T
    ensures AsAsked(z, Moved(z, s, CallPush(p, w)), p, if Free(z, s, p) then w else v)
  {
    InnerSnoc(z, s, s.writers[p], Start(WriterThread(p), Push(w)));
  }

  lemma AskedPush(z: Shape, s: System, p: nat, v: Value)
    requires z.Ok() && SystemInv(z, s) && AsAsked(z, s, p, v) && p < |s.writers| && WriterThread(p) < z.T
    ensures AsAsked(z, Moved(z, s, StepPush(p)), p, v)
  {
    var i, t := s.writers[p], WriterThread(p);
    var s1 := Inner(s, i, Go(t, true));
    InnerSnoc(z, s, i, Go(t, true));
    InnerStep(z, s, i, t);
    SameActs(z, s1, Moved(z, s, StepPush(p)));
    PushFits(z, s, p);
    hide InnerPc, InnerEvent;
  }

  lemma AskedStep(z: Shape, s: System, turn: Turn, p: nat, v: Value)
    requires z.Ok() && SystemInv(z, s) && AsAsked(z, s, p, v) && SystemInv(z, Moved(z, s, turn))
    ensures AsAsked(z, Moved(z, s, turn), p, if Asks(z, s, turn, p) then turn.value else v)
  {
    if p < |s.writers| && WriterThread(p) < z.T {
      if turn.CallPush? && turn.p == p {
        AskedCall(z, s, p, v, turn.value);
      } else if turn == StepPush(p) {
        AskedPush(z, s, p, v);
      } else {
        OthersTurn(z, s, turn, p);
        hide Moved, InnerPc;
      }
    } else if turn.NewProducer? && p == |s.writers| && WriterThread(p) < z.T {
      NewcomerFree(z, s, p);
    }
  }

  /** The thread of a producer that has not entered is idle. */
  lemma NewcomerFree(z: Shape, s: System, p: nat)
    requires z.Ok() && SystemInv(z, s) && p == |s.writers| && WriterThread(p) < z.T
    ensures Free(z, Moved(z, s, NewProducer), p)
  {
    var s' := Moved(z, s, NewProducer);
    RoleOfWriter(p);
    assert InUse(s, s'.writers[p], WriterThread(p), InnerPc(z, s, s'.writers[p], WriterThread(p)));
  }

  /** What recording an event of producer q's push adds to producer p's elements. */
  lemma PushLogged(s: System, q: nat, ev: Event, p: nat)
    requires ev.Lin? ==> ev.op.Push?
    ensures Values(P.Of(p, Recorded(s, q, ev).pushed))
      == Values(P.Of(p, s.pushed)) + if q == p && ev.Lin? && ev.res.Pushed? then [ev.op.d] else []
  {
    if ev.Lin? && ev.res.Pushed? { P.OfSnoc(p, s.pushed, P.Item(ev.op.d, q)); }
  }

  /** What a turn adds to producer p's pushed elements. */
  lemma PushedStep(z: Shape, s: System, turn: Turn, p: nat, v: Value)
    requires z.Ok() && SystemInv(z, s) && AsAsked(z, s, p, v)
    ensures Values(P.Of(p, Moved(z, s, turn).pushed))
      == Values(P.Of(p, s.pushed)) + if Accepts(z, s, turn, p) then [v] else []
  {
    match turn
    case StepPush(q) => if q < |s.writers| && s.writers[q] < z.g.G { PushedByStep(z, s, q, p, v); }
    case StepPop(r) =>
      if r < |s.readers| && s.readers[r].index < z.g.G && s.readers[r].place.At? { PopPushesNothing(z, s, r); }
    case _ =>
  }

  lemma PushedByStep(z: Shape, s: System, q: nat, p: nat, v: Value)
    requires z.Ok() && SystemInv(z, s) && AsAsked(z, s, p, v) && q < |s.writers| && s.writers[q] < z.g.G
    ensures Values(P.Of(p, Moved(z, s, StepPush(q)).pushed))
      == Values(P.Of(p, s.pushed)) + if Accepts(z, s, StepPush(q), p) then [v] else []
  {
    var a := Go(WriterThread(q), true);
    var s1, ev := Inner(s, s.writers[q], a), InnerEvent(z, s, s.writers[q], a);
    PushFits(z, s, q);
    if q == p && ev.Lin? { AcceptedValue(z, s, p, v); }
    hide InnerEvent, SystemInv, AsAsked, Recorded, P.Of, Values;
    PushLogged(s1, q, ev, p);
  }

  lemma AcceptedValue(z: Shape, s: System, p: nat, v: Value)
    requires z.Ok() && SystemInv(z, s) && AsAsked(z, s, p, v) && p < |s.writers|
    requires InnerEvent(z, s, s.writers[p], Go(WriterThread(p), true)).Lin?
    ensures InnerEvent(z, s, s.writers[p], Go(WriterThread(p), true)).op == Push(v)
  {
    var i, t := s.writers[p], WriterThread(p);
    InnerSnoc(z, s, i, Go(t, true));
    InnerStep(z, s, i, t);
  }

  lemma PopPushesNothing(z: Shape, s: System, r: nat)
    requires z.Ok() && SystemInv(z, s) && r < |s.readers| && s.readers[r].place.At?
    ensures Moved(z, s, StepPop(r)).pushed == s.pushed
  {
    var i, t, x := s.readers[r].index, ReaderThread(r), s.readers[r];
    assert ReaderInv(z, x, r);
    RoleOfReader(r);
    assert InUse(s, i, t, InnerPc(z, s, i, t));
    InnerSnoc(z, s, i, Go(t, true));
    InnerStep(z, s, i, t);
  }

  /** The values of each producer's pushed elements are, in order, the arguments of its accepted
      calls of push. */
  lemma {:induction false} PushedAsAsked(z: Shape, turns: seq<Turn>, p: nat)
    requires z.Ok()
    ensures Values(P.Of(p, Run(z, turns).pushed)) == Accepted(z, turns, p)
    ensures AsAsked(z, Run(z, turns), p, LastAsked(z, turns, p))
  {
    if turns != [] {
      var pre, turn := Butlast(turns), Last(turns);
      PushedAsAsked(z, pre, p);
      RunsAreSeen(z, pre);
      RunsAreSeen(z, turns);
      AskedStep(z, Run(z, pre), turn, p, LastAsked(z, pre, p));
      PushedStep(z, Run(z, pre), turn, p, LastAsked(z, pre, p));
    }
  }

  lemma ValuesJoin(a: seq<P.Item>, b: seq<P.Item>)
    ensures Values(a + b) == Values(a) + Values(b)
  {
  }

  /** Order and conservation in terms of the calls: the values popped, and those in the queues, can
      be attributed to producers so that the arguments of each producer's accepted calls are, in
      the order of the calls, the popped ones and then those in its queue. */
  lemma {:induction false} ArgumentsInOrder(z: Shape, turns: seq<Turn>)
      returns (popped: seq<P.Item>, queues: seq<Fifo<P.Item>>)
    requires z.Ok()
    ensures var s := Run(z, turns);
      && Values(popped) == s.popped && |queues| == z.g.G
      && (forall i :: 0 <= i < z.g.G ==> SameValues(queues[i], InnerFifo(z, s, i)))
      && (forall p :: 0 <= p < |s.writers| ==> s.writers[p] < z.g.G)
      && (forall p :: 0 <= p < |s.writers| ==>
            Accepted(z, turns, p) == Values(P.Of(p, popped)) + Values(P.Of(p, queues[s.writers[p]].items)))
      && multiset(s.pushed) == multiset(popped) + P.Queued(queues)
  {
    var s := Run(z, turns);
    popped, queues := OrderInSteps(z, turns);
    hide Run, Accepted, Values, P.Of, P.Queued, SameValues;
    forall p | 0 <= p < |s.writers|
      ensures Accepted(z, turns, p) == Values(P.Of(p, popped)) + Values(P.Of(p, queues[s.writers[p]].items))
    {
      PushedAsAsked(z, turns, p);
      ValuesJoin(P.Of(p, popped), P.Of(p, queues[s.writers[p]].items));
    }
  }

  // ---------- calls that run alone ----------

  /** The element a push has put into the queue by now. */
  function Put(pc: Pc, p: nat, v: Value): seq<P.Item> {
    match PhaseOf(pc)
    case Decided(_, Pushed(_)) => [P.Item(v, p)]
    case _ => []
  }

  /** A push of v by producer p runs alone since its queue was f0 and `base` had been pushed. */
  predicate Pushing(z: Shape, s: System, p: nat, v: Value, f0: Queue, base: seq<P.Item>)
    requires p < |s.writers| && s.writers[p] < |s.acts|
  {
    && Underway(z.c, z.T, s.acts[s.writers[p]], WriterThread(p), f0, Push(v), true)
    && s.pushed == base + Put(InnerPc(z, s, s.writers[p], WriterThread(p)), p, v)
  }

  /** That push is over. */
  predicate PushDone(z: Shape, s: System, p: nat, v: Value, f0: Queue, base: seq<P.Item>)
    requires p < |s.writers| && s.writers[p] < |s.acts|
  {
    && Free(z, s, p)
    && InnerFifo(z, s, s.writers[p]).items == (if |f0.items| < z.c.N() then f0.items + [v] else f0.items)
    && s.pushed == base + if |f0.items| < z.c.N() then [P.Item(v, p)] else []
  }

  /** Nothing but queue i's schedule and the pushed elements differ. */
  predicate OnlyQueue(s: System, s': System, i: nat) {
    && s'.writers == s.writers && s'.readers == s.readers && s'.popped == s.popped
    && |s'.acts| == |s.acts| && forall j :: 0 <= j < |s.acts| && j != i ==> s'.acts[j] == s.acts[j]
  }

  function PushLeft(z: Shape, s: System, p: nat): nat
    requires p < |s.writers| && s.writers[p] < |s.acts|
  { Remaining(z.c, z.T, s.acts[s.writers[p]], WriterThread(p)) }

  /** The inner step of a push that runs alone. */
  lemma InnerPush(z: Shape, s: System, p: nat, v: Value, f0: Queue, base: seq<P.Item>)
    requires z.Ok() && |s.acts| == z.g.G && p < |s.writers| && WriterThread(p) < z.T
    requires s.writers[p] < z.g.G && Pushing(z, s, p, v, f0, base)
    ensures var i, t := s.writers[p], WriterThread(p);
      var s1, ev := Inner(s, i, Go(t, true)), InnerEvent(z, s, i, Go(t, true));
      && PushLeft(z, s1, p) < PushLeft(z, s, p)
      && if Free(z, s1, p) then
           && ev.Respond? && ev.op == Push(v)
           && Settled(z.c, Exec(z.c, z.T, s1.acts[i]).mem, InnerFifo(z, s1, i), f0, Push(v), ev.res, true)
           && s.pushed == base + if ev.res.Pushed? then [P.Item(v, p)] else []
         else Pushing(z, Recorded(s1, p, ev), p, v, f0, base)
  {
    var i, t := s.writers[p], WriterThread(p);
    InnerStep(z, s, i, t);
    InnerSnoc(z, s, i, Go(t, true));
    var next := StepAlone(z.c, z.T, s.acts[i], t, f0, Push(v), true);
    TraceStep(z.c, z.T, next);
    Snoc(s.acts[i], Go(t, true));
    hide Remaining, Exec, FifoAt;
    var s1 := Inner(s, i, Go(t, true));
    assert s1.acts[i] == next;
    assert InnerPc(z, s1, i, t) == PcAt(z.c, z.T, next, t);
  }

  lemma PushEnds(z: Shape, m: Mem, s: System, p: nat, v: Value, f0: Queue, base: seq<P.Item>, res: Answer)
    requires p < |s.writers| && s.writers[p] < |s.acts| && Free(z, s, p)
    requires Settled(z.c, m, InnerFifo(z, s, s.writers[p]), f0, Push(v), res, true)
    requires s.pushed == base + if res.Pushed? then [P.Item(v, p)] else []
    ensures PushDone(z, s, p, v, f0, base)
  {
    hide InnerFifo, Free;
  }

  /** Recording a push changes no schedule, producer or consumer. */
  lemma RecordedPush(s: System, p: nat, ev: Event)
    requires ev.Lin? ==> ev.op.Push?
    ensures var s' := Recorded(s, p, ev);
      && s'.acts == s.acts && s'.writers == s.writers && s'.readers == s.readers && s'.popped == s.popped
      && (!ev.Lin? ==> s' == s)
  {
  }

  lemma {:induction false} InvAt(z: Shape, turns: seq<Turn>)
    requires z.Ok()
    ensures SystemInv(z, Run(z, turns))
  {
    RunsAreSeen(z, turns);
  }

  /** Producer p's turn. */
  lemma {:induction false} PushTurnIs(z: Shape, turns: seq<Turn>, p: nat)
    requires z.Ok() && p < |Run(z, turns).writers| && Run(z, turns).writers[p] < z.g.G
    ensures var s, s' := Run(z, turns), Run(z, turns + [StepPush(p)]);
      var a := Go(WriterThread(p), true);
      var s1, ev := Inner(s, s.writers[p], a), InnerEvent(z, s, s.writers[p], a);
      && s' == Recorded(s1, p, ev) && s'.acts == s1.acts && OnlyQueue(s, s', s.writers[p])
      && (ev.Respond? ==> s'.pushed == s.pushed)
  {
    var s := Run(z, turns);
    var a := Go(WriterThread(p), true);
    var s1, ev := Inner(s, s.writers[p], a), InnerEvent(z, s, s.writers[p], a);
    RunSnoc(z, turns, StepPush(p));
    InvAt(z, turns);
    PushFits(z, s, p);
    RecordedPush(s1, p, ev);
    hide Run, InnerEvent, InnerFifo, InnerPc, SystemInv, Recorded;
  }

  lemma SameFree(z: Shape, s: System, s': System, p: nat)
    requires p < |s.writers| && s'.writers == s.writers && s'.acts == s.acts && s.writers[p] < |s.acts|
    ensures Free(z, s', p) == Free(z, s, p)
  {
  }

  lemma SameLeft(z: Shape, s: System, s': System, p: nat)
    requires p < |s.writers| && s'.writers == s.writers && s'.acts == s.acts && s.writers[p] < |s.acts|
    ensures PushLeft(z, s', p) == PushLeft(z, s, p)
  {
  }

  lemma {:induction false} PushStepAlone(z: Shape, turns: seq<Turn>, p: nat, v: Value, f0: Queue, base: seq<P.Item>)
    requires z.Ok() && p < |Run(z, turns).writers| && WriterThread(p) < z.T
    requires Run(z, turns).writers[p] < z.g.G && Pushing(z, Run(z, turns), p, v, f0, base)
    ensures var s, s' := Run(z, turns), Run(z, turns + [StepPush(p)]);
      && OnlyQueue(s, s', s.writers[p]) && PushLeft(z, s', p) < PushLeft(z, s, p)
      && if Free(z, s', p) then PushDone(z, s', p, v, f0, base) else Pushing(z, s', p, v, f0, base)
  {
    var s, s' := Run(z, turns), Run(z, turns + [StepPush(p)]);
    var i, a := s.writers[p], Go(WriterThread(p), true);
    var s1, ev := Inner(s, i, a), InnerEvent(z, s, i, a);
    PushTurnIs(z, turns, p);
    InnerPush(z, s, p, v, f0, base);
    SameActs(z, s1, s');
    hide Run, InnerFifo, InnerEvent, InnerPc, Pushing, Settled, Exec, PushDone, Recorded;
    assert Free(z, s', p) == Free(z, s1, p) by { SameFree(z, s1, s', p); }
    SameLeft(z, s1, s', p);
    if Free(z, s1, p) { PushEnds(z, Exec(z.c, z.T, s1.acts[i]).mem, s', p, v, f0, base, ev.res); }
  }

  /** `more` is `turns` followed by m times this turn. */
  predicate Repeats(turns: seq<Turn>, more: seq<Turn>, turn: Turn) {
    turns <= more && forall i :: |turns| <= i < |more| ==> more[i] == turn
  }

  lemma {:induction false} RunPush(z: Shape, turns: seq<Turn>, p: nat, v: Value, f0: Queue, base: seq<P.Item>)
      returns (more: seq<Turn>)
    requires z.Ok() && p < |Run(z, turns).writers| && WriterThread(p) < z.T
    requires Run(z, turns).writers[p] < z.g.G && Pushing(z, Run(z, turns), p, v, f0, base)
    ensures Repeats(turns, more, StepPush(p)) && |more| <= |turns| + PushLeft(z, Run(z, turns), p)
    ensures var s, s' := Run(z, turns), Run(z, more);
      OnlyQueue(s, s', s.writers[p]) && PushDone(z, s', p, v, f0, base)
    decreases PushLeft(z, Run(z, turns), p)
  {
    hide Run, Pushing, PushDone, PushLeft, Free;
    PushStepAlone(z, turns, p, v, f0, base);
    more := turns + [StepPush(p)];
    if !Free(z, Run(z, more), p) {
      more := RunPush(z, more, p, v, f0, base);
    }
  }

  /** push, called by a producer outside push while all other threads pause wherever they are,
      returns within eight steps: with room, its argument is appended to its own queue, and
      otherwise nothing has changed. */
  lemma {:induction false} PushAlone(z: Shape, turns: seq<Turn>, p: nat, v: Value) returns (more: seq<Turn>)
    requires z.Ok() && p < |Run(z, turns).writers| && WriterThread(p) < z.T
    requires Run(z, turns).writers[p] < z.g.G && Free(z, Run(z, turns), p)
    ensures Repeats(turns + [CallPush(p, v)], more, StepPush(p)) && |more| <= |turns| + 1 + 8
    ensures var s, s' := Run(z, turns), Run(z, more);
      var i := s.writers[p];
      var items := InnerFifo(z, s, i).items;
      && OnlyQueue(s, s', i) && Free(z, s', p)
      && InnerFifo(z, s', i).items == (if |items| < z.g.n then items + [v] else items)
      && s'.pushed == s.pushed + if |items| < z.g.n then [P.Item(v, p)] else []
  {
    var s := Run(z, turns);
    var i, t := s.writers[p], WriterThread(p);
    var asked := turns + [CallPush(p, v)];
    RunSnoc(z, turns, CallPush(p, v));
    var next := StartAlone(z.c, z.T, s.acts[i], t, Push(v), true);
    InnerSnoc(z, s, i, Start(t, Push(v)));
    assert Run(z, asked) == Inner(s, i, Start(t, Push(v)));
    assert Pushing(z, Run(z, asked), p, v, InnerFifo(z, s, i), s.pushed);
    hide Run, Underway, Remaining, Exec, FifoAt;
    more := RunPush(z, asked, p, v, InnerFifo(z, s, i), s.pushed);
  }

  /** The value a pop has taken by now. */
  function Got(pc: Pc): seq<Value> {
    match PhaseOf(pc)
    case Decided(_, Popped(v, _)) => [v]
    case _ => []
  }

  /** Consumer r is in the k-th inner pop of a call that runs alone since its queue was f0 and
      `base` had been popped. */
  predicate Popping(z: Shape, s: System, r: nat, k: nat, f0: Queue, base: seq<Value>)
    requires r < |s.readers| && s.readers[r].index < |s.acts|
  {
    && s.readers[r].place == At(k)
    && Underway(z.c, z.T, s.acts[s.readers[r].index], ReaderThread(r), f0, Pop, true)
    && s.popped == base + Got(InnerPc(z, s, s.readers[r].index, ReaderThread(r)))
  }

  function PopLeft(z: Shape, s: System, r: nat): nat
    requires r < |s.readers| && s.readers[r].index < |s.acts|
  { Remaining(z.c, z.T, s.acts[s.readers[r].index], ReaderThread(r)) }

  /** The contents of queue j are what they were, except that queue i's are now f. */
  predicate OnlyContents(z: Shape, s: System, s': System, i: nat, f: Queue)
    requires i < |s.acts| == |s'.acts|
  {
    && s'.writers == s.writers && s'.pushed == s.pushed && |s'.readers| == |s.readers|
    && InnerFifo(z, s', i) == f
    && forall j :: 0 <= j < |s.acts| && j != i ==> InnerFifo(z, s', j) == InnerFifo(z, s, j)
  }

  /** The k-th inner pop of consumer x, on queue f0, is over: it has taken the head and the call
      ends, or the queue was empty and the call goes on to the next queue, or ends. */
  predicate AttemptDone(z: Shape, s: System, s': System, r: nat, k: nat, f0: Queue, base: seq<Value>)
    requires z.g.Ok() && r < |s.readers| && s.readers[r].index < |s.acts| == |s'.acts| == z.g.G
  {
    var x := s.readers[r];
    if f0.items != [] then
      && OnlyContents(z, s, s', x.index, f0.(pops := f0.pops + 1, items := f0.items[1..]))
      && s'.popped == base + [f0.items[0]]
      && s'.readers == s.readers[r :=
           if k > 0 then Reader(x.index, x.count, Out)
           else if x.count + 1 < z.g.K then Reader(x.index, x.count + 1, Out)
           else Reader((x.index + 1) % z.g.G, 0, Out)]
    else
      && OnlyContents(z, s, s', x.index, f0) && s'.popped == base
      && s'.readers == s.readers[r :=
           if k + 1 < z.g.G then Reader((x.index + 1) % z.g.G, 0, At(k + 1)) else Reader(x.index, 0, Out)]
      && (k + 1 < z.g.G ==> Popping(z, s', r, k + 1, InnerFifo(z, s', (x.index + 1) % z.g.G), base))
  }

  /** The inner step of a pop that runs alone. */
  lemma InnerAlone(z: Shape, s: System, r: nat, k: nat, f0: Queue, base: seq<Value>)
    requires z.Ok() && |s.acts| == z.g.G && r < |s.readers| && ReaderThread(r) < z.T
    requires s.readers[r].index < z.g.G && Popping(z, s, r, k, f0, base)
    ensures var i, t, ev, s1 := s.readers[r].index, ReaderThread(r), PopEvent(z, s, r), PopStepped(s, r);
      var s2 := Recorded(s1, 0, ev);
      && PopLeft(z, s1, r) < PopLeft(z, s, r) && (ev.Lin? ==> ev.op == Pop)
      && s2.pushed == s.pushed && s2.writers == s.writers && s2.readers == s.readers && s2.acts == s1.acts
      && if InnerPc(z, s1, i, t).Idle? then
           && ev.Respond? && ev.op == Pop && s2 == s1
           && Settled(z.c, Exec(z.c, z.T, s1.acts[i]).mem, InnerFifo(z, s1, i), f0, Pop, ev.res, true)
           && s.popped == base + if ev.res.Popped? then [ev.res.d] else []
         else !ev.Respond? && Popping(z, s2, r, k, f0, base)
  {
    var i, t := s.readers[r].index, ReaderThread(r);
    InnerStep(z, s, i, t);
    InnerSnoc(z, s, i, Go(t, true));
    var next := StepAlone(z.c, z.T, s.acts[i], t, f0, Pop, true);
    TraceStep(z.c, z.T, next);
    Snoc(s.acts[i], Go(t, true));
    hide Remaining, Exec, FifoAt;
    assert PopStepped(s, r).acts[i] == next;
    assert InnerPc(z, PopStepped(s, r), i, t) == PcAt(z.c, z.T, next, t);
  }

  /** Consumer r's turn. */
  lemma PopMoved(z: Shape, s: System, r: nat)
    requires z.Ok() && |s.acts| == z.g.G && r < |s.readers|
    requires s.readers[r].index < z.g.G && s.readers[r].place.At?
    ensures var ev := PopEvent(z, s, r);
      Moved(z, s, StepPop(r)) == Returned(z, Recorded(PopStepped(s, r), 0, ev), r, ev)
  {
    hide InnerEvent, Returned, Recorded, Inner;
  }

  lemma {:induction false} PopTurnIs(z: Shape, turns: seq<Turn>, r: nat)
    requires z.Ok() && r < |Run(z, turns).readers| && Run(z, turns).readers[r].index < z.g.G
    requires Run(z, turns).readers[r].place.At?
    ensures var s, ev := Run(z, turns), PopEvent(z, Run(z, turns), r);
      Run(z, turns + [StepPop(r)]) == Returned(z, Recorded(PopStepped(s, r), 0, ev), r, ev)
  {
    hide Run, Moved, InnerEvent, Returned;
    RunSnoc(z, turns, StepPop(r));
    PopMoved(z, Run(z, turns), r);
  }

  /** The attempt goes on. */
  predicate StillPopping(z: Shape, s: System, s': System, r: nat, k: nat, f0: Queue, base: seq<Value>)
    requires r < |s.readers| && s.readers[r].index < |s.acts| == |s'.acts|
  {
    && s'.readers == s.readers && s'.writers == s.writers && s'.pushed == s.pushed
    && (forall j :: 0 <= j < |s.acts| && j != s.readers[r].index ==> InnerFifo(z, s', j) == InnerFifo(z, s, j))
    && Popping(z, s', r, k, f0, base)
  }

  lemma RespondsAlone(z: Shape, s: System, r: nat, k: nat, f0: Queue, base: seq<Value>, ev: Event)
    requires z.Ok() && |s.acts| == z.g.G && r < |s.readers| && ReaderThread(r) < z.T
    requires s.readers[r].index < z.g.G && s.readers[r].place == At(k) && SystemInv(z, s)
    requires ev == PopEvent(z, s, r) && ev.Respond? && ev.op == Pop
    requires InnerPc(z, PopStepped(s, r), s.readers[r].index, ReaderThread(r)).Idle?
    requires var i, s1 := s.readers[r].index, PopStepped(s, r);
      Settled(z.c, Exec(z.c, z.T, s1.acts[i]).mem, InnerFifo(z, s1, i), f0, Pop, ev.res, true)
    requires s.popped == base + if ev.res.Popped? then [ev.res.d] else []
    ensures AttemptDone(z, s, Returned(z, PopStepped(s, r), r, ev), r, k, f0, base)
  {
    var x, i, t, s1 := s.readers[r], s.readers[r].index, ReaderThread(r), PopStepped(s, r);
    InnerSnoc(z, s, i, Go(t, true));
    if ev.res.Popped? {
      SameActs(z, s1, Returned(z, s1, r, ev));
    } else if k + 1 < z.g.G {
      NextAttempt(z, s, r, k, f0, base, ev);
    } else {
      SameActs(z, s1, Returned(z, s1, r, ev));
    }
  }

  /** The inner pop that consumer r starts next. */
  lemma PopBegins(z: Shape, s: System, r: nat, k: nat)
    requires z.Ok() && |s.acts| == z.g.G && r < |s.readers| && ReaderThread(r) < z.T
    requires s.readers[r].index < z.g.G && s.readers[r].place == At(k)
    requires InnerPc(z, s, s.readers[r].index, ReaderThread(r)).Idle?
    ensures var i := s.readers[r].index;
      var s' := Inner(s, i, Start(ReaderThread(r), Pop));
      && s' == s.(acts := s'.acts) && |s'.acts| == z.g.G
      && (forall j :: 0 <= j < z.g.G ==> InnerFifo(z, s', j) == InnerFifo(z, s, j))
      && Popping(z, s', r, k, InnerFifo(z, s, i), s.popped)
  {
    var i, t := s.readers[r].index, ReaderThread(r);
    hide WriterThread, ReaderThread, RoleOf;
    InnerSnoc(z, s, i, Start(t, Pop));
    var next := StartAlone(z.c, z.T, s.acts[i], t, Pop, true);
    assert Inner(s, i, Start(t, Pop)).acts[i] == next;
  }

  /** Consumer r's thread is idle at the queue after its own, which is another one. */
  lemma NextIsIdle(z: Shape, s: System, r: nat, k: nat)
    requires z.Ok() && |s.acts| == z.g.G && r < |s.readers| && ReaderThread(r) < z.T
    requires s.readers[r].index < z.g.G && s.readers[r].place == At(k) && k + 1 < z.g.G && SystemInv(z, s)
    ensures var i, next := s.readers[r].index, (s.readers[r].index + 1) % z.g.G;
      next < z.g.G && next != i && InnerPc(z, PopStepped(s, r), next, ReaderThread(r)).Idle?
  {
    var i, t := s.readers[r].index, ReaderThread(r);
    var next := (i + 1) % z.g.G;
    hide WriterThread, ReaderThread, RoleOf;
    assert ReaderInv(z, s.readers[r], r);
    WonInv(z, s.readers[r], r);
    RoleOfReader(r);
    assert InUse(s, next, t, InnerPc(z, s, next, t));
    InnerSnoc(z, s, i, Go(t, true));
  }

  /** The step of an attempt, and then the turn to the next queue. */
  lemma MovedOn(z: Shape, s: System, r: nat, k: nat)
    requires z.Ok() && |s.acts| == z.g.G && r < |s.readers| && ReaderThread(r) < z.T
    requires s.readers[r].index < z.g.G && s.readers[r].place == At(k) && k + 1 < z.g.G && SystemInv(z, s)
    ensures var i, next, s1 := s.readers[r].index, (s.readers[r].index + 1) % z.g.G, PopStepped(s, r);
      var s2 := s1.(readers := s.readers[r := Reader(next, 0, At(k + 1))]);
      && s1 == s.(acts := s1.acts) && |s1.acts| == z.g.G
      && next < z.g.G && next != i && InnerPc(z, s2, next, ReaderThread(r)).Idle?
      && InnerFifo(z, s2, i) == InnerFifo(z, s1, i)
      && forall j :: 0 <= j < z.g.G && j != i ==> InnerFifo(z, s2, j) == InnerFifo(z, s, j)
  {
    var i, s1 := s.readers[r].index, PopStepped(s, r);
    NextIsIdle(z, s, r, k);
    InnerSnoc(z, s, i, Go(ReaderThread(r), true));
    SameActs(z, s1, s1.(readers := s.readers[r := Reader((i + 1) % z.g.G, 0, At(k + 1))]));
    hide InnerPc, InnerFifo, InnerEvent, SystemInv, ReaderThread;
  }

  /** What an attempt that found its queue empty leads to, if it was not the last. */
  lemma ReturnsEmpty(z: Shape, s: System, r: nat, k: nat, ev: Event)
    requires z.Ok() && |s.acts| == z.g.G && r < |s.readers|
    requires s.readers[r].place == At(k) && k + 1 < z.g.G && ev == Respond(Pop, NoElement)
    ensures var next := (s.readers[r].index + 1) % z.g.G;
      Returned(z, s, r, ev)
      == Inner(s.(readers := s.readers[r := Reader(next, 0, At(k + 1))]), next, Start(ReaderThread(r), Pop))
  {
    hide Inner, ReaderThread;
  }

  lemma EmptyAttempt(z: Shape, s: System, s': System, r: nat, k: nat, next: nat, f0: Queue, base: seq<Value>)
    requires z.g.Ok() && |s.acts| == |s'.acts| == z.g.G && r < |s.readers|
    requires s.readers[r].index < z.g.G && k + 1 < z.g.G && next == (s.readers[r].index + 1) % z.g.G
    requires s'.writers == s.writers && s'.pushed == s.pushed && s'.popped == base && f0.items == []
    requires s'.readers == s.readers[r := Reader(next, 0, At(k + 1))]
    requires InnerFifo(z, s', s.readers[r].index) == f0
    requires forall j :: 0 <= j < z.g.G && j != s.readers[r].index ==> InnerFifo(z, s', j) == InnerFifo(z, s, j)
    requires Popping(z, s', r, k + 1, InnerFifo(z, s', next), base)
    ensures AttemptDone(z, s, s', r, k, f0, base)
  {
    hide InnerFifo, Popping;
  }

  lemma NextAttempt(z: Shape, s: System, r: nat, k: nat, f0: Queue, base: seq<Value>, ev: Event)
    requires z.Ok() && |s.acts| == z.g.G && r < |s.readers| && ReaderThread(r) < z.T
    requires s.readers[r].index < z.g.G && s.readers[r].place == At(k) && k + 1 < z.g.G && SystemInv(z, s)
    requires ev == PopEvent(z, s, r) && ev.Respond? && ev.op == Pop && ev.res == NoElement && s.popped == base
    requires f0.items == [] && InnerFifo(z, PopStepped(s, r), s.readers[r].index) == f0
    ensures AttemptDone(z, s, Returned(z, PopStepped(s, r), r, ev), r, k, f0, base)
  {
    var i, next, t, s1 := s.readers[r].index, (s.readers[r].index + 1) % z.g.G, ReaderThread(r), PopStepped(s, r);
    var s2 := s1.(readers := s.readers[r := Reader(next, 0, At(k + 1))]);
    var s3 := Inner(s2, next, Start(t, Pop));
    hide InnerPc, InnerFifo, InnerEvent, Popping, SystemInv, ReaderThread, Returned, PopStepped, PopEvent, Inner;
    MovedOn(z, s, r, k);
    ReturnsEmpty(z, s1, r, k, ev);
    PopBegins(z, s2, r, k + 1);
    hide AttemptDone;
    EmptyAttempt(z, s, s3, r, k, next, f0, base);
  }

  lemma GoesOn(z: Shape, s: System, r: nat, k: nat, f0: Queue, base: seq<Value>)
    requires z.Ok() && |s.acts| == z.g.G && r < |s.readers| && s.readers[r].index < z.g.G
    requires var s2 := Recorded(PopStepped(s, r), 0, PopEvent(z, s, r));
      && s2.pushed == s.pushed && s2.writers == s.writers && s2.readers == s.readers
      && s2.acts == PopStepped(s, r).acts && Popping(z, s2, r, k, f0, base)
    ensures StillPopping(z, s, Recorded(PopStepped(s, r), 0, PopEvent(z, s, r)), r, k, f0, base)
  {
    var s2 := Recorded(PopStepped(s, r), 0, PopEvent(z, s, r));
    InnerSnoc(z, s, s.readers[r].index, Go(ReaderThread(r), true));
    SameActs(z, PopStepped(s, r), s2);
  }

  lemma {:induction false} PopStepAlone(z: Shape, turns: seq<Turn>, r: nat, k: nat, f0: Queue, base: seq<Value>)
    requires z.Ok() && r < |Run(z, turns).readers| && ReaderThread(r) < z.T
    requires Run(z, turns).readers[r].index < z.g.G && Popping(z, Run(z, turns), r, k, f0, base)
    ensures PopLeft(z, Run(z, turns), r) > 0
    ensures var s, s' := Run(z, turns), Run(z, turns + [StepPop(r)]);
      || AttemptDone(z, s, s', r, k, f0, base)
      || (StillPopping(z, s, s', r, k, f0, base) && PopLeft(z, s', r) < PopLeft(z, s, r))
  {
    var s := Run(z, turns);
    var s1, ev := PopStepped(s, r), PopEvent(z, s, r);
    RunsAreSeen(z, turns);
    PopTurnIs(z, turns, r);
    InnerAlone(z, s, r, k, f0, base);
    PopMoves(z, s1, r, ev);
    var idle := InnerPc(z, s1, s.readers[r].index, ReaderThread(r)).Idle?;
    hide Run, InnerPc, InnerEvent, InnerFifo, Returned, Recorded, Inner, Views, AttemptDone, StillPopping, Underway,
      Remaining, Settled;
    if idle {
      RespondsAlone(z, s, r, k, f0, base, ev);
    } else {
      GoesOn(z, s, r, k, f0, base);
    }
  }

  lemma AttemptSince(z: Shape, s: System, mid: System, s': System, r: nat, k: nat, f0: Queue, base: seq<Value>)
    requires z.Ok() && |s.acts| == |mid.acts| == |s'.acts| == z.g.G
    requires r < |s.readers| && s.readers[r].index < z.g.G
    requires StillPopping(z, s, mid, r, k, f0, base) && AttemptDone(z, mid, s', r, k, f0, base)
    ensures AttemptDone(z, s, s', r, k, f0, base)
  {
    hide InnerFifo, Popping;
  }

  lemma StillReads(z: Shape, s: System, mid: System, r: nat, k: nat, f0: Queue, base: seq<Value>)
    requires z.Ok() && |s.acts| == |mid.acts| == z.g.G && r < |s.readers| && s.readers[r].index < z.g.G
    requires StillPopping(z, s, mid, r, k, f0, base)
    ensures mid.readers == s.readers && Popping(z, mid, r, k, f0, base)
  {
  }

  lemma {:induction false} RunAttempt(z: Shape, turns: seq<Turn>, r: nat, k: nat, f0: Queue, base: seq<Value>)
      returns (more: seq<Turn>)
    requires z.Ok() && r < |Run(z, turns).readers| && ReaderThread(r) < z.T
    requires Run(z, turns).readers[r].index < z.g.G && Popping(z, Run(z, turns), r, k, f0, base)
    ensures Repeats(turns, more, StepPop(r)) && |more| <= |turns| + PopLeft(z, Run(z, turns), r)
    ensures AttemptDone(z, Run(z, turns), Run(z, more), r, k, f0, base)
    decreases PopLeft(z, Run(z, turns), r)
  {
    hide Run, AttemptDone, PopLeft, Popping, StillPopping;
    PopStepAlone(z, turns, r, k, f0, base);
    more := turns + [StepPop(r)];
    var mid := more;
    if !AttemptDone(z, Run(z, turns), Run(z, mid), r, k, f0, base) {
      StillReads(z, Run(z, turns), Run(z, mid), r, k, f0, base);
      more := RunAttempt(z, mid, r, k, f0, base);
      AttemptSince(z, Run(z, turns), Run(z, mid), Run(z, more), r, k, f0, base);
    }
  }

  /** The contents of all queues are what they were. */
  predicate SameContents(z: Shape, s: System, s': System)
    requires |s.acts| == |s'.acts|
  {
    && s'.writers == s.writers && s'.pushed == s.pushed
    && forall j :: 0 <= j < |s.acts| ==> InnerFifo(z, s', j) == InnerFifo(z, s, j)
  }

  /** The queue e places after queue i, cyclically, is empty. */
  predicate EmptyAhead(z: Shape, s: System, i: nat, e: nat)
    requires |s.acts| == z.g.G >= 1
  { InnerFifo(z, s, (i + e) % z.g.G).items == [] }

  /** From its k-th inner pop on, consumer r's call found d queues empty, and then either took the
      head of the next one or had tried all G. */
  predicate ScanDone(z: Shape, s: System, s': System, r: nat, k: nat, d: nat, base: seq<Value>)
    requires z.g.Ok() && r < |s.readers| && |s.acts| == |s'.acts| == z.g.G && k < z.g.G
  {
    var x, G := s.readers[r], z.g.G;
    && d <= G - k
    && (forall e :: 0 <= e < d ==> EmptyAhead(z, s, x.index, e))
    && if d < G - k then
         var q := (x.index + d) % G;
         var f := InnerFifo(z, s, q);
         && f.items != [] && OnlyContents(z, s, s', q, f.(pops := f.pops + 1, items := f.items[1..]))
         && s'.popped == base + [f.items[0]]
         && s'.readers == s.readers[r :=
              if k + d > 0 then Reader(q, 0, Out)
              else if x.count + 1 < z.g.K then Reader(q, x.count + 1, Out)
              else Reader((q + 1) % G, 0, Out)]
       else
         && SameContents(z, s, s') && s'.popped == base
         && s'.readers == s.readers[r := Reader((x.index + (G - k - 1)) % G, 0, Out)]
  }

  lemma OneAttempt(z: Shape, s: System, s': System, r: nat, k: nat, base: seq<Value>)
    requires z.g.Ok() && |s.acts| == |s'.acts| == z.g.G && r < |s.readers| && s.readers[r].index < z.g.G && k < z.g.G
    requires AttemptDone(z, s, s', r, k, InnerFifo(z, s, s.readers[r].index), base)
    requires k > 0 ==> s.readers[r].count == 0
    requires InnerFifo(z, s, s.readers[r].index).items != [] || k + 1 == z.g.G
    ensures ScanDone(z, s, s', r, k, if InnerFifo(z, s, s.readers[r].index).items != [] then 0 else 1, base)
  {
    hide InnerFifo, Popping;
    ModUnique(s.readers[r].index, 0, s.readers[r].index, z.g.G);
  }

  /** One place on from the next queue is two places on. */
  lemma NextPlace(G: nat, i: nat, e: nat)
    requires G > 0
    ensures ((i + 1) % G + e) % G == (i + (e + 1)) % G
  {
    ModAdd(i + 1, e, G);
  }

  lemma EmptyOn(z: Shape, s: System, mid: System, i: nat, next: nat, d: nat)
    requires z.g.Ok() && |s.acts| == |mid.acts| == z.g.G && i < z.g.G && SameContents(z, s, mid)
    requires InnerFifo(z, s, i).items == [] && next == (i + 1) % z.g.G
    requires forall e :: 0 <= e < d ==> EmptyAhead(z, mid, next, e)
    ensures forall e :: 0 <= e < d + 1 ==> EmptyAhead(z, s, i, e)
  {
    hide InnerFifo;
    ModUnique(i, 0, i, z.g.G);
    forall e | 0 <= e < d + 1 ensures EmptyAhead(z, s, i, e) {
      if e > 0 {
        assert EmptyAhead(z, mid, next, e - 1);
        NextPlace(z.g.G, i, e - 1);
      }
    }
  }

  lemma ScanOn(z: Shape, s: System, mid: System, s': System, r: nat, k: nat, d: nat, base: seq<Value>)
    requires z.g.Ok() && |s.acts| == |mid.acts| == |s'.acts| == z.g.G && r < |s.readers| == |mid.readers|
    requires s.readers[r].index < z.g.G && k + 1 < z.g.G && SameContents(z, s, mid)
    requires InnerFifo(z, s, s.readers[r].index).items == []
    requires mid.readers == s.readers[r := Reader((s.readers[r].index + 1) % z.g.G, 0, At(k + 1))]
    requires ScanDone(z, mid, s', r, k + 1, d, base)
    ensures ScanDone(z, s, s', r, k, d + 1, base)
  {
    var i, G, y := s.readers[r].index, z.g.G, s'.readers[r];
    EmptyOn(z, s, mid, i, (i + 1) % G, d);
    NextPlace(G, i, d);
    NextPlace(G, i, G - k - 2);
    hide InnerFifo, EmptyAhead;
    assert mid.readers[r := y] == s.readers[r := y];
  }

  lemma WentOn(z: Shape, s: System, mid: System, r: nat, k: nat, base: seq<Value>)
    requires z.g.Ok() && |s.acts| == |mid.acts| == z.g.G && r < |s.readers| && s.readers[r].index < z.g.G
    requires AttemptDone(z, s, mid, r, k, InnerFifo(z, s, s.readers[r].index), base)
    requires InnerFifo(z, s, s.readers[r].index).items == [] && k + 1 < z.g.G
    ensures SameContents(z, s, mid) && |mid.readers| == |s.readers| && mid.readers[r].index < z.g.G
    ensures mid.readers == s.readers[r := Reader((s.readers[r].index + 1) % z.g.G, 0, At(k + 1))]
    ensures Popping(z, mid, r, k + 1, InnerFifo(z, mid, mid.readers[r].index), base)
  {
    hide InnerFifo, Popping;
  }

  lemma RepeatsOn(turns: seq<Turn>, mid: seq<Turn>, more: seq<Turn>, turn: Turn)
    requires Repeats(turns, mid, turn) && Repeats(mid, more, turn)
    ensures Repeats(turns, more, turn)
  {
  }

  lemma FreshQuota(z: Shape, turns: seq<Turn>, r: nat)
    requires z.Ok() && r < |Run(z, turns).readers|
    ensures var x := Run(z, turns).readers[r]; x.place.At? && x.place.k > 0 ==> x.count == 0
  {
    RunsAreSeen(z, turns);
    assert ReaderInv(z, Run(z, turns).readers[r], r);
  }

  lemma {:induction false} ScanAlone(z: Shape, turns: seq<Turn>, r: nat, k: nat, base: seq<Value>)
      returns (more: seq<Turn>, d: nat)
    requires z.Ok() && r < |Run(z, turns).readers| && ReaderThread(r) < z.T
    requires Run(z, turns).readers[r].index < z.g.G && k < z.g.G
    requires Popping(z, Run(z, turns), r, k, InnerFifo(z, Run(z, turns), Run(z, turns).readers[r].index), base)
    ensures Repeats(turns, more, StepPop(r)) && ScanDone(z, Run(z, turns), Run(z, more), r, k, d, base)
    decreases z.g.G - k
  {
    var s := Run(z, turns);
    var i := s.readers[r].index;
    assert s.readers[r].place == At(k);
    FreshQuota(z, turns, r);
    hide Run, InnerFifo, Popping, ScanDone, AttemptDone, SameContents, PopLeft, Repeats;
    more := RunAttempt(z, turns, r, k, InnerFifo(z, s, i), base);
    if InnerFifo(z, s, i).items != [] {
      d := 0;
      OneAttempt(z, s, Run(z, more), r, k, base);
    } else if k + 1 == z.g.G {
      d := 1;
      OneAttempt(z, s, Run(z, more), r, k, base);
    } else {
      var mid := more;
      WentOn(z, s, Run(z, mid), r, k, base);
      more, d := ScanAlone(z, mid, r, k + 1, base);
      RepeatsOn(turns, mid, more, StepPop(r));
      ScanOn(z, s, Run(z, mid), Run(z, more), r, k, d, base);
      d := d + 1;
    }
  }

  /** The call starts its first inner pop. */
  lemma {:induction false} BeginPop(z: Shape, turns: seq<Turn>, r: nat)
    requires z.Ok() && r < |Run(z, turns).readers| && ReaderThread(r) < z.T
    requires Run(z, turns).readers[r].place.Out?
    ensures Run(z, turns).readers[r].index < z.g.G
    ensures var s, s' := Run(z, turns), Run(z, turns + [CallPop(r)]);
      && s'.readers == s.readers[r := s.readers[r].(place := At(0))]
      && SameContents(z, s, s') && Popping(z, s', r, 0, InnerFifo(z, s', s.readers[r].index), s.popped)
  {
    var s := Run(z, turns);
    var x, t := s.readers[r], ReaderThread(r);
    RunsAreSeen(z, turns);
    assert ReaderInv(z, x, r);
    FreeThread(z, s, P.Exec(z.g, View(z, turns)), r);
    RunSnoc(z, turns, CallPop(r));
    var next := StartAlone(z.c, z.T, s.acts[x.index], t, Pop, true);
    InnerSnoc(z, s, x.index, Start(t, Pop));
    var s1, s' := Inner(s, x.index, Start(t, Pop)), Run(z, turns + [CallPop(r)]);
    assert s' == s1.(readers := s.readers[r := x.(place := At(0))]);
    SameActs(z, s1, s');
    hide Run, InnerPc, InnerFifo, FifoAt, Exec, SystemInv, Views;
    assert s'.acts[x.index] == next;
    assert InnerFifo(z, s', x.index) == InnerFifo(z, s, x.index);
  }

  /** pop, called by a consumer outside pop while all other threads pause wherever they are, returns:
      it takes the head of the first non-empty queue, cyclically from the consumer's own, and moves
      index and quota as the first attempt, or a later one, demands; or every queue is empty and
      nothing has been taken. */
  lemma {:induction false} PopAlone(z: Shape, turns: seq<Turn>, r: nat) returns (more: seq<Turn>, d: nat)
    requires z.Ok() && r < |Run(z, turns).readers| && ReaderThread(r) < z.T
    requires Run(z, turns).readers[r].place.Out?
    ensures Repeats(turns + [CallPop(r)], more, StepPop(r))
    ensures Run(z, turns).readers[r].index < z.g.G
    ensures ScanDone(z, Run(z, turns), Run(z, more), r, 0, d, Run(z, turns).popped)
  {
    hide Run, InnerFifo, Popping, ScanDone, SameContents;
    var s, called := Run(z, turns), turns + [CallPop(r)];
    BeginPop(z, turns, r);
    more, d := ScanAlone(z, called, r, 0, s.popped);
    SameScan(z, s, Run(z, called), Run(z, more), r, d, s.popped);
  }

  /** Starting the call changes no contents. */
  lemma SameScan(z: Shape, s: System, mid: System, s': System, r: nat, d: nat, base: seq<Value>)
    requires z.g.Ok() && |s.acts| == |mid.acts| == |s'.acts| == z.g.G && r < |s.readers|
    requires mid.readers == s.readers[r := s.readers[r].(place := At(0))]
    requires SameContents(z, s, mid) && ScanDone(z, mid, s', r, 0, d, base)
    ensures ScanDone(z, s, s', r, 0, d, base)
  {
    hide InnerFifo;
    var y := s'.readers[r];
    assert mid.readers[r := y] == s.readers[r := y];
    forall e | 0 <= e < d ensures EmptyAhead(z, s, s.readers[r].index, e) {
      assert EmptyAhead(z, mid, s.readers[r].index, e);
    }
  }
}
