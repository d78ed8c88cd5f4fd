/** The pack: G bounded FIFOs, producers bound to one queue each, and consumers that rotate.
    Each inner push and pop is atomic (that is what Linearizability proves of the queue);
    between two inner pops of one consumer anybody else may act. */
module PackModel {
  import opened Bits
  import opened FifoSpec
  import opened Histories

  /** An element with, for the statements below, the producer that pushed it. */
  datatype Item = Item(value: int, producer: nat)

  datatype Params = Params(G: nat, K: nat, n: nat) {
    predicate Ok() { G >= 1 }

    /** Counted pops before a consumer moves on; a K of zero works like one. */
    function Quota(): nat { if K == 0 then 1 else K }
  }

  /** Trying(k, seen): about to pop from queue `index`, the k-th attempt of this call after
      finding the queues `seen` empty. `wins` counts the consumer's successful pops,
      `streak` those since its index last moved or an attempt failed. */
  datatype Phase = Resting | Trying(k: nat, seen: seq<nat>) | Failed(seen: seq<nat>)

  datatype Consumer = Consumer(index: nat, count: nat, phase: Phase, wins: nat, streak: nat)

  datatype Pack = Pack(
    queues: seq<Fifo<Item>>,
    producers: seq<nat>,
    consumers: seq<Consumer>,
    pushed: seq<Item>,
    popped: seq<Item>)

  datatype Action =
    | NewProducer
    | NewConsumer
    | PushBy(p: nat, value: int)
    | CallBy(c: nat)
    | StepBy(c: nat)

  /** The 64-bit counter of producers, or of consumers, after n increments. */
  function Counter(n: nat): nat { n % Pow2(64) }

  function Init(g: Params): Pack {
    Pack(seq(g.G, _ => Fresh()), [], [], [], [])
  }

  /** A consumer after its attempt on queue `index` succeeded, or failed. */
  function Hit(g: Params, c: Consumer): Consumer
    requires g.Ok() && c.phase.Trying?
  {
    var w := c.(phase := Resting, wins := c.wins + 1);
    if c.phase.k > 0 then w.(streak := c.streak + 1)
    else if c.count + 1 >= g.K then w.(count := 0, index := (c.index + 1) % g.G, streak := 0)
    else w.(count := c.count + 1, streak := c.streak + 1)
  }

  function Miss(g: Params, c: Consumer): Consumer
    requires g.Ok() && c.phase.Trying?
  {
    var seen := c.phase.seen + [c.index];
    if c.phase.k + 1 < g.G
    then c.(count := 0, index := (c.index + 1) % g.G, streak := 0, phase := Trying(c.phase.k + 1, seen))
    else c.(count := 0, phase := Failed(seen), streak := 0)
  }

  function Next(g: Params, s: Pack, a: Action): Pack
    requires g.Ok() && |s.queues| == g.G
  {
    match a
    case NewProducer => s.(producers := s.producers + [Counter(|s.producers|) % g.G])
    case NewConsumer =>
      s.(consumers := s.consumers + [Consumer(Counter(|s.consumers|) % g.G, 0, Resting, 0, 0)])
    case PushBy(p, value) =>
      if p < |s.producers| && s.producers[p] < g.G then
        var i, x := s.producers[p], Item(value, p);
        var f := s.queues[i];
        if |f.items| < g.n
        then s.(queues := s.queues[i := Apply(f, Push(x), Pushed(f.Pushes()))], pushed := s.pushed + [x])
        else s
      else s
    case CallBy(c) =>
      if c < |s.consumers| && !s.consumers[c].phase.Trying?
      then s.(consumers := s.consumers[c := s.consumers[c].(phase := Trying(0, []))])
      else s
    case StepBy(c) =>
      if c < |s.consumers| && s.consumers[c].phase.Trying? && s.consumers[c].index < g.G then
        var i := s.consumers[c].index;
        var f := s.queues[i];
        if f.items != [] then
          s.(consumers := s.consumers[c := Hit(g, s.consumers[c])],
             queues := s.queues[i := Apply(f, Pop, Popped(f.items[0], f.pops))],
             popped := s.popped + [f.items[0]])
        else s.(consumers := s.consumers[c := Miss(g, s.consumers[c])])
      else s
  }

  function Exec(g: Params, acts: seq<Action>): (s: Pack)
    requires g.Ok()
    ensures |s.queues| == g.G
  {
    if acts == [] then Init(g) else Next(g, Exec(g, Butlast(acts)), Last(acts))
  }

  // ---------- order and conservation ----------

  /** The elements of producer p, in order. */
  function Of(p: nat, s: seq<Item>): seq<Item> {
    if s == [] then []
    else Of(p, Butlast(s)) + if Last(s).producer == p then [Last(s)] else []
  }

  lemma {:induction false} OfConcat(p: nat, a: seq<Item>, b: seq<Item>)
    ensures Of(p, a + b) == Of(p, a) + Of(p, b)
  {
    if b == [] {
      assert a + b == a;
    } else {
      OfConcat(p, a, Butlast(b));
      assert Butlast(a + b) == a + Butlast(b) && Last(a + b) == Last(b);
    }
  }

  lemma {:induction false} OfNone(p: nat, s: seq<Item>)
    requires forall i :: 0 <= i < |s| ==> s[i].producer != p
    ensures Of(p, s) == []
  {
    if s != [] { OfNone(p, Butlast(s)); }
  }

  /** All queued elements. */
  function Queued(qs: seq<Fifo<Item>>): multiset<Item> {
    if qs == [] then multiset{} else Queued(Butlast(qs)) + multiset(Last(qs).items)
  }

  lemma Shuffle(b: multiset<Item>, x: multiset<Item>, y: multiset<Item>)
    ensures b + x + y == b + y + x
  {
  }

  lemma {:induction false} QueuedUpdate(qs: seq<Fifo<Item>>, i: nat, f: Fifo<Item>)
    requires i < |qs|
    ensures Queued(qs[i := f]) + multiset(qs[i].items) == Queued(qs) + multiset(f.items)
  {
    var qs', front, last := qs[i := f], Butlast(qs), Last(qs);
    var x, y, z := multiset(qs[i].items), multiset(f.items), multiset(last.items);
    if i == |qs| - 1 {
      assert Butlast(qs') == front && Last(qs') == f;
      Shuffle(Queued(front), y, x);
    } else {
      QueuedUpdate(front, i, f);
      assert Butlast(qs') == front[i := f] && Last(qs') == last;
      Shuffle(Queued(front[i := f]), z, x);
      Shuffle(Queued(front), y, z);
    }
  }

  /** One element leaves, or enters, queue i. */
  lemma QueuedLess(qs: seq<Fifo<Item>>, i: nat, f: Fifo<Item>)
    requires i < |qs| && qs[i].items != [] && f.items == qs[i].items[1..]
    ensures Queued(qs) == Queued(qs[i := f]) + multiset{qs[i].items[0]}
  {
    var x, rest, q, q' := qs[i].items[0], multiset(f.items), Queued(qs), Queued(qs[i := f]);
    QueuedUpdate(qs, i, f);
    assert qs[i].items == [x] + f.items;
    assert multiset(qs[i].items) == rest + multiset{x};
    Cancel(q, q', rest, x);
  }

  lemma QueuedMore(qs: seq<Fifo<Item>>, i: nat, f: Fifo<Item>, x: Item)
    requires i < |qs| && f.items == qs[i].items + [x]
    ensures Queued(qs[i := f]) == Queued(qs) + multiset{x}
  {
    QueuedUpdate(qs, i, f);
    assert multiset(f.items) == multiset(qs[i].items) + multiset{x};
    Cancel(Queued(qs[i := f]), Queued(qs), multiset(qs[i].items), x);
  }

  lemma Cancel(q: multiset<Item>, q': multiset<Item>, items: multiset<Item>, x: Item)
    requires q' + (items + multiset{x}) == q + items
    ensures q == q' + multiset{x}
  {
    forall z ensures q[z] == (q' + multiset{x})[z] {
      assert (q' + (items + multiset{x}))[z] == (q + items)[z];
    }
  }

  /** Producers are dealt to the queues in turn, and every element is where its producer
      puts it. */
  predicate PlaceInv(g: Params, s: Pack)
    requires g.Ok()
  {
    && |s.queues| == g.G
    && (forall p :: 0 <= p < |s.producers| ==> s.producers[p] == Counter(p) % g.G)
    && (forall x <- s.popped :: x.producer < |s.producers|)
    && (forall x <- s.pushed :: x.producer < |s.producers|)
    && forall i :: 0 <= i < g.G ==> forall x <- s.queues[i].items :: x.producer < |s.producers|
  }

  /** Producer p's elements are, in the order pushed, the popped ones and then those in its queue. */
  predicate Flow(s: Pack, p: nat)
    requires p < |s.producers| && s.producers[p] < |s.queues|
  {
    Of(p, s.pushed) == Of(p, s.popped) + Of(p, s.queues[s.producers[p]].items)
  }

  predicate OrderInv(g: Params, s: Pack)
    requires g.Ok()
  {
    && PlaceInv(g, s)
    && (forall p :: 0 <= p < |s.producers| ==> Flow(s, p))
    && Conserved(s)
  }

  lemma OfSnoc(p: nat, s: seq<Item>, x: Item)
    ensures Of(p, s + [x]) == Of(p, s) + if x.producer == p then [x] else []
  {
    Snoc(s, x);
  }

  lemma OfCons(p: nat, s: seq<Item>)
    requires s != []
    ensures Of(p, s) == (if s[0].producer == p then [s[0]] else []) + Of(p, s[1..])
  {
    assert s == [s[0]] + s[1..];
    OfConcat(p, [s[0]], s[1..]);
    OfSnoc(p, [], s[0]);
    assert [] + [s[0]] == [s[0]];
  }

  lemma PushPlace(g: Params, s: Pack, p: nat, value: int)
    requires g.Ok() && PlaceInv(g, s)
    ensures PlaceInv(g, Next(g, s, PushBy(p, value)))
  {
  }

  lemma PushFlow(g: Params, s: Pack, p: nat, value: int, r: nat)
    requires g.Ok() && PlaceInv(g, s) && r < |s.producers| && Flow(s, r)
    ensures Flow(Next(g, s, PushBy(p, value)), r)
  {
    if p < |s.producers| && |s.queues[s.producers[p]].items| < g.n {
      var i, x, s' := s.producers[p], Item(value, p), Next(g, s, PushBy(p, value));
      assert s'.pushed == s.pushed + [x] && s'.queues[i].items == s.queues[i].items + [x];
      if s.producers[r] == i {
        TailGrows(r, s.pushed, s.popped, s.queues[i].items, x);
      } else {
        assert r != p;
        Foreign(r, s.pushed, x);
      }
    }
  }

  predicate Conserved(s: Pack) {
    multiset(s.pushed) == multiset(s.popped) + Queued(s.queues)
  }

  lemma PushConserves(g: Params, s: Pack, p: nat, value: int)
    requires g.Ok() && PlaceInv(g, s) && Conserved(s)
    ensures Conserved(Next(g, s, PushBy(p, value)))
  {
    var s', x := Next(g, s, PushBy(p, value)), Item(value, p);
    if p < |s.producers| && |s.queues[s.producers[p]].items| < g.n {
      var i := s.producers[p];
      QueuedMore(s.queues, i, s'.queues[i], x);
      assert multiset(s.pushed + [x]) == multiset(s.pushed) + multiset{x};
    }
  }

  lemma PopPlace(g: Params, s: Pack, c: nat)
    requires g.Ok() && PlaceInv(g, s)
    ensures PlaceInv(g, Next(g, s, StepBy(c)))
  {
  }

  lemma HeadMoves(p: nat, popped: seq<Item>, items: seq<Item>)
    requires items != []
    ensures Of(p, popped + [items[0]]) + Of(p, items[1..]) == Of(p, popped) + Of(p, items)
  {
    var x, t := if items[0].producer == p then [items[0]] else [], Of(p, items[1..]);
    OfSnoc(p, popped, items[0]);
    OfCons(p, items);
    Regroup(Of(p, popped), x, t);
  }

  lemma Regroup(a: seq<Item>, x: seq<Item>, b: seq<Item>)
    ensures a + x + b == a + (x + b)
  {
  }

  lemma Foreign(p: nat, s: seq<Item>, x: Item)
    requires x.producer != p
    ensures Of(p, s + [x]) == Of(p, s)
  {
    OfSnoc(p, s, x);
  }

  lemma TailGrows(p: nat, pushed: seq<Item>, popped: seq<Item>, items: seq<Item>, x: Item)
    requires Of(p, pushed) == Of(p, popped) + Of(p, items)
    ensures Of(p, pushed + [x]) == Of(p, popped) + Of(p, items + [x])
  {
    OfSnoc(p, pushed, x);
    OfSnoc(p, items, x);
    Regroup(Of(p, popped), Of(p, items), if x.producer == p then [x] else []);
  }

  lemma PopFlow(g: Params, s: Pack, c: nat, r: nat)
    requires g.Ok() && PlaceInv(g, s) && r < |s.producers| && Flow(s, r) && OwnQueueOnly(g, s)
    ensures Flow(Next(g, s, StepBy(c)), r)
  {
    if c < |s.consumers| && s.consumers[c].phase.Trying? && s.consumers[c].index < g.G {
      var i, s' := s.consumers[c].index, Next(g, s, StepBy(c));
      var f := s.queues[i];
      if f.items != [] {
        assert s'.popped == s.popped + [f.items[0]] && s'.queues[i].items == f.items[1..];
        if s.producers[r] == i {
          HeadMoves(r, s.popped, f.items);
        } else {
          assert f.items[0].producer != r by { assert s.producers[f.items[0].producer] == i; }
          Foreign(r, s.popped, f.items[0]);
        }
      }
    }
  }

  lemma PoppedSnoc(s: seq<Item>, x: Item, q: multiset<Item>)
    ensures multiset(s + [x]) + q == multiset(s) + (q + multiset{x})
  {
    assert multiset(s + [x]) == multiset(s) + multiset{x};
    Shuffle(multiset(s), q, multiset{x});
  }

  lemma PopConserves(g: Params, s: Pack, c: nat)
    requires g.Ok() && PlaceInv(g, s) && Conserved(s)
    ensures Conserved(Next(g, s, StepBy(c)))
  {
    var s' := Next(g, s, StepBy(c));
    if c < |s.consumers| && s.consumers[c].phase.Trying? && s.consumers[c].index < g.G {
      var i := s.consumers[c].index;
      var items := s.queues[i].items;
      if items != [] {
        QueuedLess(s.queues, i, s'.queues[i]);
        PoppedSnoc(s.popped, items[0], Queued(s'.queues));
      }
    }
  }

  /** Every queued element is in its producer's queue. */
  predicate OwnQueueOnly(g: Params, s: Pack)
    requires g.Ok() && PlaceInv(g, s)
  {
    forall i :: 0 <= i < g.G ==> forall x <- s.queues[i].items :: s.producers[x.producer] == i
  }

  lemma OwnQueueStep(g: Params, s: Pack, a: Action)
    requires g.Ok() && PlaceInv(g, s) && OwnQueueOnly(g, s) && PlaceInv(g, Next(g, s, a))
    ensures OwnQueueOnly(g, Next(g, s, a))
  {
  }

  lemma NewcomerFlow(g: Params, s: Pack, r: nat)
    requires g.Ok() && PlaceInv(g, s) && r <= |s.producers| && (r < |s.producers| ==> Flow(s, r))
    ensures r < |Next(g, s, NewProducer).producers| && Next(g, s, NewProducer).producers[r] < g.G
    ensures Flow(Next(g, s, NewProducer), r)
  {
    if r == |s.producers| {
      OfNone(r, s.pushed);
      OfNone(r, s.popped);
      OfNone(r, s.queues[Counter(r) % g.G].items);
    }
  }

  lemma {:induction false} QueuedNothing(qs: seq<Fifo<Item>>)
    requires forall i :: 0 <= i < |qs| ==> qs[i].items == []
    ensures Queued(qs) == multiset{}
  {
    if qs != [] { QueuedNothing(Butlast(qs)); }
  }

  // The invariant is kept by each kind of step.

  lemma NewcomerOrder(g: Params, s: Pack)
    requires g.Ok() && OrderInv(g, s)
    ensures OrderInv(g, Next(g, s, NewProducer))
  {
    var s' := Next(g, s, NewProducer);
    forall r | 0 <= r < |s'.producers| ensures Flow(s', r) { NewcomerFlow(g, s, r); }
  }

  lemma PushOrder(g: Params, s: Pack, p: nat, value: int)
    requires g.Ok() && OrderInv(g, s)
    ensures OrderInv(g, Next(g, s, PushBy(p, value)))
  {
    var s' := Next(g, s, PushBy(p, value));
    PushPlace(g, s, p, value);
    forall r | 0 <= r < |s'.producers| ensures Flow(s', r) { PushFlow(g, s, p, value, r); }
    PushConserves(g, s, p, value);
  }

  lemma PopOrder(g: Params, s: Pack, c: nat)
    requires g.Ok() && OrderInv(g, s) && OwnQueueOnly(g, s)
    ensures OrderInv(g, Next(g, s, StepBy(c)))
  {
    var s' := Next(g, s, StepBy(c));
    PopPlace(g, s, c);
    forall r | 0 <= r < |s'.producers| ensures Flow(s', r) { PopFlow(g, s, c, r); }
    PopConserves(g, s, c);
  }

  lemma ConsumerOrder(g: Params, s: Pack, a: Action)
    requires g.Ok() && OrderInv(g, s) && (a.NewConsumer? || a.CallBy?)
    ensures OrderInv(g, Next(g, s, a))
  {
    var s' := Next(g, s, a);
    forall r | 0 <= r < |s'.producers| ensures Flow(s', r) { assert Flow(s, r); }
  }

  /** In every interleaving: one producer's elements leave in the order it pushed them, and
      what was pushed is what was popped plus what the G queues hold. */
  lemma {:induction false} OrderAndConservation(g: Params, acts: seq<Action>)
    requires g.Ok()
    ensures OrderInv(g, Exec(g, acts)) && OwnQueueOnly(g, Exec(g, acts))
  {
    if acts == [] {
      QueuedNothing(Init(g).queues);
    } else {
      var s := Exec(g, Butlast(acts));
      OrderAndConservation(g, Butlast(acts));
      match Last(acts) {
        case NewProducer => NewcomerOrder(g, s);
        case PushBy(p, value) => PushOrder(g, s, p, value);
        case StepBy(c) => PopOrder(g, s, c);
        case _ => ConsumerOrder(g, s, Last(acts));
      }
      OwnQueueStep(g, s, Last(acts));
    }
  }

  // ---------- the consumers' own fields ----------

  /** The queue i places after `from` among G, cyclically. */
  function Round(G: nat, from: nat, i: nat): (j: nat)
    requires G >= 1
    ensures j < G
  { (from + i) % G }

  predicate ConsumerInv(g: Params, c: Consumer)
    requires g.Ok()
  {
    && c.index < g.G
    && c.count < g.Quota()
    && c.count <= c.streak <= c.count + 1
    && match c.phase
       case Resting => true
       case Trying(k, seen) =>
         k < g.G && |seen| == k && (k > 0 ==> c.count == c.streak == 0) && Walk(g, seen, c.index)
       case Failed(seen) => |seen| == g.G && Walk(g, seen, Round(g.G, c.index, 1))
  }

  /** `seen` lists consecutive queues, cyclically, the last of them just before `next`. */
  predicate Walk(g: Params, seen: seq<nat>, next: nat)
    requires g.Ok()
  {
    forall i :: 0 <= i < |seen| ==> seen[i] < g.G && Round(g.G, seen[i], |seen| - i) == next
  }

  lemma WalkOn(g: Params, seen: seq<nat>, next: nat)
    requires g.Ok() && Walk(g, seen, next) && next < g.G
    ensures Walk(g, seen + [next], Round(g.G, next, 1))
  {
    var all := seen + [next];
    forall i | 0 <= i < |all|
      ensures all[i] < g.G && Round(g.G, all[i], |all| - i) == Round(g.G, next, 1)
    {
      if i < |seen| {
        var x := seen[i] + (|seen| - i);
        assert Round(g.G, seen[i], |seen| - i) == x % g.G == next;
        ModAdd(x, 1, g.G);
        assert all[i] + (|all| - i) == x + 1;
      }
    }
  }

  lemma ConsumerStep(g: Params, x: Consumer)
    requires g.Ok() && ConsumerInv(g, x) && x.phase.Trying?
    ensures ConsumerInv(g, Hit(g, x)) && ConsumerInv(g, Miss(g, x))
  {
    WalkOn(g, x.phase.seen, x.index);
  }

  lemma ConsumerKept(g: Params, s: Pack, a: Action, c: nat)
    requires g.Ok() && |s.queues| == g.G && c < |Next(g, s, a).consumers|
    requires c < |s.consumers| ==> ConsumerInv(g, s.consumers[c])
    ensures ConsumerInv(g, Next(g, s, a).consumers[c])
  {
    if c < |s.consumers| && a == StepBy(c) && s.consumers[c].phase.Trying? {
      ConsumerStep(g, s.consumers[c]);
    }
  }

  lemma {:induction false} ConsumerFields(g: Params, acts: seq<Action>, c: nat)
    requires g.Ok() && c < |Exec(g, acts).consumers|
    ensures ConsumerInv(g, Exec(g, acts).consumers[c])
  {
    if acts != [] {
      var s := Exec(g, Butlast(acts));
      if c < |s.consumers| { ConsumerFields(g, Butlast(acts), c); }
      ConsumerKept(g, s, Last(acts), c);
    }
  }



  lemma SameTurn(x: nat, y: nat, n: nat)
    requires n > 0
    ensures x / n == y / n ==> y % n - x % n == y - x
  {
    assert x == x / n * n + x % n && y == y / n * n + y % n;
  }

  lemma PlacesDealt(g: Params, acts: seq<Action>)
    requires g.Ok()
    ensures PlaceInv(g, Exec(g, acts))
  {
    OrderAndConservation(g, acts);
  }

  lemma SameRemainder(x: nat, y: nat, n: nat)
    requires n > 0
    ensures x % n == y % n <==> (y - x) % n == 0
  {
    if (y - x) % n == 0 {
      var k := ModApart(y - x, 0, n);
      ModTurns(x, k, n);
    }
    if x % n == y % n {
      var k := ModApart(y, x, n);
      ModUnique(y - x, k, 0, n);
    }
  }

  /** The 64-bit counter values p and q lead to the same queue. */
  lemma SameSeat(p: nat, q: nat, G: nat)
    requires G > 0
    ensures Counter(p) % G == Counter(q) % G <==> (Counter(q) - Counter(p)) % G == 0
    ensures p / Pow2(64) == q / Pow2(64) ==> Counter(q) - Counter(p) == q - p
  {
    hide Pow2;
    SameRemainder(Counter(p), Counter(q), G);
    SameTurn(p, q, Pow2(64));
  }

  /** Consumer c has not tried any queue yet. */
  predicate NoAttempt(g: Params, acts: seq<Action>, c: nat)
    requires g.Ok()
  {
    forall k {:trigger acts[..k]} :: 0 <= k < |acts| ==> !Tries(Exec(g, acts[..k]), acts[k], c)
  }

  predicate Tries(s: Pack, a: Action, c: nat) {
    a == StepBy(c) && c < |s.consumers| && s.consumers[c].phase.Trying?
  }

  predicate AtStart(g: Params, x: Consumer, c: nat)
    requires g.Ok()
  { x.index == (c % Pow2(64)) % g.G && x.count == 0 && x.wins == 0 }

  lemma StartStep(g: Params, s: Pack, a: Action, c: nat)
    requires g.Ok() && |s.queues| == g.G && c < |Next(g, s, a).consumers| && !Tries(s, a, c)
    requires c < |s.consumers| ==> AtStart(g, s.consumers[c], c)
    ensures AtStart(g, Next(g, s, a).consumers[c], c)
  {
    hide Pow2;
  }

  /** A consumer stays at the queue it was dealt, with a fresh quota, until its first attempt. */
  lemma {:induction false} StartsAt(g: Params, acts: seq<Action>, c: nat)
    requires g.Ok() && c < |Exec(g, acts).consumers| && NoAttempt(g, acts, c)
    ensures AtStart(g, Exec(g, acts).consumers[c], c)
  {
    hide Pow2, AtStart, Tries;
    var pre := Butlast(acts);
    var s := Exec(g, pre);
    assert acts[..|pre|] == pre;
    if c < |s.consumers| {
      forall k {:trigger pre[..k]} | 0 <= k < |pre| ensures !Tries(Exec(g, pre[..k]), pre[k], c) {
        assert pre[..k] == acts[..k];
      }
      StartsAt(g, pre, c);
    }
    hide Next;
    StartStep(g, s, Last(acts), c);
  }

  /** Two consumers start at the same queue exactly when the counter values they drew agree modulo
      G; within one turn of the counter, when their numbers do. */
  lemma StartsShared(g: Params, acts: seq<Action>, c: nat, d: nat)
    requires g.Ok() && c < d < |Exec(g, acts).consumers| && NoAttempt(g, acts, c) && NoAttempt(g, acts, d)
    ensures var i, j := Exec(g, acts).consumers[c].index, Exec(g, acts).consumers[d].index;
      && (i == j <==> (Counter(d) - Counter(c)) % g.G == 0)
      && (c / Pow2(64) == d / Pow2(64) ==> (i == j <==> (d - c) % g.G == 0))
  {
    hide Exec, Pow2;
    StartsAt(g, acts, c);
    StartsAt(g, acts, d);
    SameSeat(c, d, g.G);
  }

  // ---------- how many elements in a row ----------

  /** Action a is a successful attempt of consumer c. */
  predicate Takes(s: Pack, a: Action, c: nat) {
    && a == StepBy(c) && c < |s.consumers| && s.consumers[c].phase.Trying?
    && s.consumers[c].index < |s.queues| && s.queues[s.consumers[c].index].items != []
  }

  /** The first pop of consumer c's current streak was made by scanning. */
  predicate ByScan(g: Params, acts: seq<Action>, c: nat)
    requires g.Ok()
  {
    && acts != []
    && var s := Exec(g, Butlast(acts));
    if Takes(s, Last(acts), c) && s.consumers[c].streak == 0 then s.consumers[c].phase.k > 0
    else ByScan(g, Butlast(acts), c)
  }

  /** The pop of a scan that began the current streak is the one pop the quota misses. */
  function Uncounted(g: Params, acts: seq<Action>, c: nat): nat
    requires g.Ok() && c < |Exec(g, acts).consumers|
  { if Exec(g, acts).consumers[c].streak > 0 && ByScan(g, acts, c) then 1 else 0 }

  /** One step; `was` and `now` say whether the streak began by scanning. */
  lemma StreakStep(g: Params, s: Pack, a: Action, c: nat, was: bool)
    requires g.Ok() && |s.queues| == g.G && c < |s.consumers| && ConsumerInv(g, s.consumers[c])
    requires var x := s.consumers[c]; x.streak == x.count + if x.streak > 0 && was then 1 else 0
    ensures c < |Next(g, s, a).consumers|
    ensures var x, x' := s.consumers[c], Next(g, s, a).consumers[c];
      var now := if Takes(s, a, c) && x.streak == 0 then x.phase.k > 0 else was;
      x'.streak == x'.count + if x'.streak > 0 && now then 1 else 0
  {
  }

  lemma {:induction false} StreakCount(g: Params, acts: seq<Action>, c: nat)
    requires g.Ok() && c < |Exec(g, acts).consumers|
    ensures Exec(g, acts).consumers[c].streak == Exec(g, acts).consumers[c].count + Uncounted(g, acts, c)
  {
    if acts != [] {
      var s := Exec(g, Butlast(acts));
      if c < |s.consumers| {
        StreakCount(g, Butlast(acts), c);
        ConsumerFields(g, Butlast(acts), c);
        StreakStep(g, s, Last(acts), c, ByScan(g, Butlast(acts), c));
      }
    }
  }

  /** A consumer takes at most max(K, 1) elements in a row from one queue without trying
      another, or one more exactly when the first of them was found by scanning: that pop is
      not counted. Stated at an attempt: if it succeeds, the streak is one longer, and the
      consumer moves on (k == 0 and the quota met) after exactly that many. */
  lemma StreakBound(g: Params, acts: seq<Action>, c: nat)
    requires g.Ok() && c < |Exec(g, acts).consumers|
    requires Exec(g, acts).consumers[c].phase.Trying?
    ensures var x, extra := Exec(g, acts).consumers[c], Uncounted(g, acts, c);
      && x.streak == x.count + extra
      && x.streak + 1 <= g.Quota() + extra
      && (x.phase.k > 0 ==> x.streak == 0 && Hit(g, x).streak == 1 && Hit(g, x).count == 0)
      && (x.phase.k == 0 && x.count + 1 >= g.K ==> x.streak + 1 == g.Quota() + extra)
  {
    ConsumerFields(g, acts, c);
    StreakCount(g, acts, c);
  }

  // Streaks of K + 1 do occur, in every pack of two queues or more.

  /** A pack with two producers and one consumer, x, that has taken all elements so far, from
      queue 1; that queue now holds `items`, the other ones do not matter except queue 0. */
  predicate Solo(g: Params, s: Pack, x: Consumer, items: seq<Item>)
    requires g.Ok()
  {
    && |s.queues| == g.G >= 2 && s.producers == [0, 1] && s.consumers == [x]
    && s.queues[0].items == [] && s.queues[1].items == items
    && s.queues[1].pops == |s.popped| == x.wins
  }

  lemma SoloPush(g: Params, s: Pack, x: Consumer)
    requires g.Ok() && Solo(g, s, x, []) && g.n >= 1
    ensures Solo(g, Next(g, s, PushBy(1, 0)), x, [Item(0, 1)])
  {
    assert s.producers[1] == 1;
  }

  lemma SoloCall(g: Params, s: Pack, x: Consumer, items: seq<Item>)
    requires g.Ok() && Solo(g, s, x, items) && !x.phase.Trying?
    ensures Solo(g, Next(g, s, CallBy(0)), x.(phase := Trying(0, [])), items)
  {
  }

  lemma SoloTake(g: Params, s: Pack, x: Consumer)
    requires g.Ok() && Solo(g, s, x, [Item(0, 1)]) && x.phase.Trying? && x.index == 1
    ensures Solo(g, Next(g, s, StepBy(0)), Hit(g, x), [])
  {
  }

  lemma SoloMiss(g: Params, s: Pack, x: Consumer, items: seq<Item>)
    requires g.Ok() && Solo(g, s, x, items) && x.phase.Trying? && x.index == 0
    ensures Solo(g, Next(g, s, StepBy(0)), Miss(g, x), items)
  {
  }

  lemma ExecSnoc(g: Params, acts: seq<Action>, a: Action)
    requires g.Ok()
    ensures Exec(g, acts + [a]) == Next(g, Exec(g, acts), a)
  {
    Snoc(acts, a);
  }

  /** Whether the streak began by scanning, after a step that is no attempt. */
  lemma ScanKept(g: Params, acts: seq<Action>, a: Action)
    requires g.Ok() && a != StepBy(0)
    ensures ByScan(g, acts + [a], 0) == ByScan(g, acts, 0)
  {
    Snoc(acts, a);
  }

  /** ... and after an attempt that succeeds. */
  lemma ScanSnoc(g: Params, acts: seq<Action>, x: Consumer)
    requires g.Ok() && Solo(g, Exec(g, acts), x, [Item(0, 1)]) && x.phase.Trying? && x.index == 1
    ensures ByScan(g, acts + [StepBy(0)], 0) == if x.streak == 0 then x.phase.k > 0 else ByScan(g, acts, 0)
  {
    Snoc(acts, StepBy(0));
  }

  /** Producer 1 pushes one element and consumer 0 calls pop. */
  lemma Feed(g: Params, acts: seq<Action>, x: Consumer) returns (more: seq<Action>)
    requires g.Ok() && g.n >= 1 && Solo(g, Exec(g, acts), x, []) && !x.phase.Trying?
    ensures Solo(g, Exec(g, more), x.(phase := Trying(0, [])), [Item(0, 1)])
    ensures ByScan(g, more, 0) == ByScan(g, acts, 0)
  {
    var pushed := acts + [PushBy(1, 0)];
    more := pushed + [CallBy(0)];
    ExecSnoc(g, acts, PushBy(1, 0));
    ScanKept(g, acts, PushBy(1, 0));
    SoloPush(g, Exec(g, acts), x);
    ScanKept(g, pushed, CallBy(0));
    ExecSnoc(g, pushed, CallBy(0));
    SoloCall(g, Exec(g, pushed), x, [Item(0, 1)]);
  }

  /** A consumer and two producers enter. */
  lemma Enter(g: Params) returns (acts: seq<Action>)
    requires g.Ok() && g.G >= 2
    ensures Solo(g, Exec(g, acts), Consumer(0, 0, Resting, 0, 0), [])
  {
    var a1 := [NewConsumer];
    var a2 := a1 + [NewProducer];
    FirstNumbers(g);
    ExecSnoc(g, [], NewConsumer);
    assert [] + [NewConsumer] == a1;
    ExecSnoc(g, a1, NewProducer);
    ExecSnoc(g, a2, NewProducer);
    acts := a2 + [NewProducer];
  }

  lemma FirstNumbers(g: Params)
    requires g.G >= 2
    ensures Counter(0) % g.G == 0 && Counter(1) % g.G == 1
  {
    assert Pow2(64) == 2 * Pow2(63);
    ModUnique(0, 0, 0, Pow2(64));
    ModUnique(1, 0, 1, Pow2(64));
    ModUnique(0, 0, 0, g.G);
    ModUnique(1, 0, 1, g.G);
  }

  /** Consumer 0 after taking i elements in a row from queue 1, the first by scanning. */
  function OnStreak(i: nat): Consumer
    requires i > 0
  { Consumer(1, i - 1, Resting, i, i) }

  lemma MissAtZero(g: Params)
    requires g.Ok() && g.G >= 2
    ensures Miss(g, Consumer(0, 0, Trying(0, []), 0, 0)) == Consumer(1, 0, Trying(1, [0]), 0, 0)
  {
    ModUnique(1, 0, 1, g.G);
    assert (0 + 1) % g.G == 1 && [] + [0] == [0];
  }

  /** Consumer 0 finds queue 0 empty and is about to try queue 1, which is not. */
  lemma FirstMiss(g: Params) returns (acts: seq<Action>)
    requires g.Ok() && g.G >= 2 && g.n >= 1
    ensures Solo(g, Exec(g, acts), Consumer(1, 0, Trying(1, [0]), 0, 0), [Item(0, 1)])
  {
    var x := Consumer(0, 0, Trying(0, []), 0, 0);
    var entered := Enter(g);
    var fed := Feed(g, entered, Consumer(0, 0, Resting, 0, 0));
    ExecSnoc(g, fed, StepBy(0));
    SoloMiss(g, Exec(g, fed), x, [Item(0, 1)]);
    MissAtZero(g);
    acts := fed + [StepBy(0)];
  }

  lemma FirstByScan(g: Params) returns (acts: seq<Action>)
    requires g.Ok() && g.G >= 2 && g.n >= 1
    ensures Solo(g, Exec(g, acts), OnStreak(1), []) && ByScan(g, acts, 0)
  {
    var x := Consumer(1, 0, Trying(1, [0]), 0, 0);
    var missed := FirstMiss(g);
    ExecSnoc(g, missed, StepBy(0));
    SoloTake(g, Exec(g, missed), x);
    ScanSnoc(g, missed, x);
    acts := missed + [StepBy(0)];
  }

  lemma OneMore(g: Params, before: seq<Action>, i: nat) returns (acts: seq<Action>)
    requires g.Ok() && g.n >= 1 && 1 <= i < g.Quota()
    requires Solo(g, Exec(g, before), OnStreak(i), []) && ByScan(g, before, 0)
    ensures Solo(g, Exec(g, acts), OnStreak(i + 1), []) && ByScan(g, acts, 0)
  {
    hide Exec, ByScan, Next;
    var x := OnStreak(i).(phase := Trying(0, []));
    var fed := Feed(g, before, OnStreak(i));
    ExecSnoc(g, fed, StepBy(0));
    SoloTake(g, Exec(g, fed), x);
    ScanSnoc(g, fed, x);
    acts := fed + [StepBy(0)];
  }

  lemma {:induction false} LongStreaks(g: Params, i: nat) returns (acts: seq<Action>)
    requires g.Ok() && g.G >= 2 && g.n >= 1 && 1 <= i <= g.Quota()
    ensures Solo(g, Exec(g, acts), OnStreak(i), []) && ByScan(g, acts, 0)
  {
    hide Exec, ByScan;
    if i == 1 {
      acts := FirstByScan(g);
    } else {
      var before := LongStreaks(g, i - 1);
      acts := OneMore(g, before, i - 1);
    }
  }

  /** Whatever G >= 2, K and the capacity are, some run has a consumer take K + 1 elements in a
      row (its only ones) from queue 1, which it found by scanning. */
  lemma OneMoreThanK(g: Params) returns (before: seq<Action>)
    requires g.Ok() && g.G >= 2 && g.n >= 1
    ensures var s := Exec(g, before);
      && |s.consumers| == 1 && s.consumers[0].index == 1 && s.consumers[0].phase == Trying(0, [])
      && s.consumers[0].streak == g.Quota() && ByScan(g, before, 0) && s.queues[1].items != []
    ensures var s := Exec(g, before + [StepBy(0)]);
      |s.consumers| == 1 && s.consumers[0].wins == s.queues[1].pops == |s.popped| == g.Quota() + 1
  {
    var acts := LongStreaks(g, g.Quota());
    var x := OnStreak(g.Quota());
    before := Feed(g, acts, x);
    ExecSnoc(g, before, StepBy(0));
    SoloTake(g, Exec(g, before), x.(phase := Trying(0, [])));
  }

  // ---------- a failed pop has looked everywhere ----------

  /** An attempt adds a queue to `seen` only when it finds that queue empty. */
  lemma SeenWasEmpty(g: Params, s: Pack, c: nat)
    requires g.Ok() && |s.queues| == g.G && c < |s.consumers|
    requires s.consumers[c].phase.Trying? && s.consumers[c].index < g.G
    ensures var x, x' := s.consumers[c], Next(g, s, StepBy(c)).consumers[c];
      if x'.phase.Resting? then s.queues[x.index].items != []
      else s.queues[x.index].items == [] && x'.phase.seen == x.phase.seen + [x.index]
  {
  }

  lemma WalkDistinct(g: Params, seen: seq<nat>, next: nat, i: nat, j: nat)
    requires g.Ok() && Walk(g, seen, next) && i < j < |seen| <= g.G
    ensures seen[i] != seen[j]
  {
    if seen[i] == seen[j] {
      ModNear(seen[i] + (|seen| - i), seen[j] + (|seen| - j), g.G);
    }
  }

  lemma WalkCovers(g: Params, seen: seq<nat>, next: nat, q: nat)
    requires g.Ok() && Walk(g, seen, next) && |seen| == g.G && next < g.G && q < g.G
    ensures q in seen
  {
    var i := if q >= next then q - next else q - next + g.G;
    if q >= next { ModTurns(next, 1, g.G); }
    ModUnique(next, 0, next, g.G);
    ModNear(seen[i] + (g.G - i), q + (g.G - i), g.G);
    assert seen[i] == q;
  }

  /** Step k of the schedule is an attempt of consumer c that finds queue q empty. */
  predicate TriedEmpty(g: Params, acts: seq<Action>, c: nat, q: nat, k: nat)
    requires g.Ok() && k < |acts|
  {
    var s := Exec(g, acts[..k]);
    && acts[k] == StepBy(c) && c < |s.consumers| && s.consumers[c].phase.Trying?
    && s.consumers[c].index == q < g.G && s.queues[q].items == []
  }

  /** Step k of the schedule starts a call of consumer c. */
  predicate StartsCall(g: Params, acts: seq<Action>, c: nat, k: nat)
    requires g.Ok() && k < |acts|
  {
    var s := Exec(g, acts[..k]);
    acts[k] == CallBy(c) && c < |s.consumers| && !s.consumers[c].phase.Trying?
  }

  /** The call consumer c is in, or has just failed in, started at step `start`. */
  ghost predicate CallSince(g: Params, acts: seq<Action>, c: nat, start: nat)
    requires g.Ok()
  {
    && start < |acts| && StartsCall(g, acts, c, start)
    && forall k: nat :: start < k < |acts| ==> !StartsCall(g, acts, c, k)
  }

  /** `steps` lists exactly the failed attempts between `start` and `end`, those on the queues
      `seen`. */
  ghost predicate Attempts(g: Params, acts: seq<Action>, c: nat, start: nat, end: nat,
                           seen: seq<nat>, steps: seq<nat>)
    requires g.Ok() && end <= |acts|
  {
    && |steps| == |seen|
    && (forall i :: 0 <= i < |steps| ==> start < steps[i] < end && TriedEmpty(g, acts, c, seen[i], steps[i]))
    && forall k: nat, q: nat :: start < k < end && TriedEmpty(g, acts, c, q, k) ==> k in steps
  }

  lemma Prefix(g: Params, acts: seq<Action>, c: nat, k: nat)
    requires g.Ok() && acts != [] && k < |acts| - 1
    ensures StartsCall(g, acts, c, k) == StartsCall(g, Butlast(acts), c, k)
    ensures forall q: nat :: TriedEmpty(g, acts, c, q, k) == TriedEmpty(g, Butlast(acts), c, q, k)
  {
    assert Butlast(acts)[..k] == acts[..k];
  }

  /** A step that keeps consumer c in its call takes nothing, and lengthens `seen` only by
      finding a queue empty. */
  lemma CallStep(g: Params, s: Pack, a: Action, c: nat)
    requires g.Ok() && |s.queues| == g.G && c < |Next(g, s, a).consumers|
    requires !Next(g, s, a).consumers[c].phase.Resting?
    requires c < |s.consumers| ==> s.consumers[c].index < g.G && (a == CallBy(c) ==> s.consumers[c].phase.Trying?)
    ensures c < |s.consumers| && !s.consumers[c].phase.Resting?
    ensures var x, x' := s.consumers[c], Next(g, s, a).consumers[c];
      && x'.wins == x.wins
      && if a == StepBy(c) && x.phase.Trying?
         then s.queues[x.index].items == [] && x'.phase.seen == x.phase.seen + [x.index]
         else x'.phase == x.phase
  {
    if c < |s.consumers| && a == StepBy(c) && s.consumers[c].phase.Trying? {
      SeenWasEmpty(g, s, c);
    }
  }

  lemma AttemptsKept(g: Params, acts: seq<Action>, c: nat, start: nat, seen: seq<nat>, steps: seq<nat>)
    requires g.Ok() && acts != [] && Attempts(g, Butlast(acts), c, start, |acts| - 1, seen, steps)
    ensures Attempts(g, acts, c, start, |acts| - 1, seen, steps)
  {
    var pre := Butlast(acts);
    forall k: nat, q: nat | k < |pre|
      ensures TriedEmpty(g, acts, c, q, k) == TriedEmpty(g, pre, c, q, k)
    {
      Prefix(g, acts, c, k);
    }
  }

  /** The list of attempts after one more step of the same call. */
  lemma AttemptsStep(g: Params, acts: seq<Action>, c: nat, start: nat, end: nat, seen: seq<nat>, steps: seq<nat>)
      returns (seen': seq<nat>, steps': seq<nat>)
    requires g.Ok() && start < end < |acts| && Attempts(g, acts, c, start, end, seen, steps)
    ensures Attempts(g, acts, c, start, end + 1, seen', steps')
    ensures var s := Exec(g, acts[..end]);
      if c < |s.consumers| && TriedEmpty(g, acts, c, s.consumers[c].index, end)
      then seen' == seen + [s.consumers[c].index] else seen' == seen
  {
    var s := Exec(g, acts[..end]);
    if c < |s.consumers| && TriedEmpty(g, acts, c, s.consumers[c].index, end) {
      seen', steps' := seen + [s.consumers[c].index], steps + [end];
    } else {
      seen', steps' := seen, steps;
    }
  }

  lemma CallSinceStep(g: Params, acts: seq<Action>, c: nat, start: nat)
    requires g.Ok() && acts != [] && CallSince(g, Butlast(acts), c, start)
    requires !StartsCall(g, acts, c, |acts| - 1)
    ensures CallSince(g, acts, c, start)
  {
    forall k: nat | k < |acts| - 1
      ensures StartsCall(g, acts, c, k) == StartsCall(g, Butlast(acts), c, k)
    {
      Prefix(g, acts, c, k);
    }
  }

  /** In the middle of a call, what it has seen empty it has seen empty since it started. */
  lemma {:induction false} CallSoFar(g: Params, acts: seq<Action>, c: nat) returns (start: nat, steps: seq<nat>)
    requires g.Ok() && c < |Exec(g, acts).consumers| && !Exec(g, acts).consumers[c].phase.Resting?
    ensures CallSince(g, acts, c, start) && c < |Exec(g, acts[..start]).consumers|
    ensures Attempts(g, acts, c, start, |acts|, Exec(g, acts).consumers[c].phase.seen, steps)
    ensures Exec(g, acts).consumers[c].wins == Exec(g, acts[..start]).consumers[c].wins
  {
    var pre, a := Butlast(acts), Last(acts);
    var s := Exec(g, pre);
    assert acts[..|pre|] == pre;
    if StartsCall(g, acts, c, |pre|) {
      start, steps := |pre|, [];
    } else {
      if c < |s.consumers| { ConsumerFields(g, pre, c); }
      CallStep(g, s, a, c);
      start, steps := CallSoFar(g, pre, c);
      CallSinceStep(g, acts, c, start);
      AttemptsKept(g, acts, c, start, s.consumers[c].phase.seen, steps);
      var seen;
      seen, steps := AttemptsStep(g, acts, c, start, |pre|, s.consumers[c].phase.seen, steps);
      assert pre[..start] == acts[..start];
    }
  }

  /** Since `start`, queue q was tried by consumer c at step k only, and was empty then. */
  ghost predicate EmptyOnlyAt(g: Params, acts: seq<Action>, c: nat, start: nat, q: nat, k: nat)
    requires g.Ok()
  {
    && start < k < |acts| && TriedEmpty(g, acts, c, q, k)
    && forall j: nat :: start < j < |acts| && TriedEmpty(g, acts, c, q, j) ==> j == k
  }

  ghost predicate EmptyOnce(g: Params, acts: seq<Action>, c: nat, start: nat, q: nat)
    requires g.Ok()
  { exists k: nat :: EmptyOnlyAt(g, acts, c, start, q, k) }

  lemma OnceEach(g: Params, acts: seq<Action>, c: nat, start: nat, seen: seq<nat>, steps: seq<nat>, next: nat, q: nat)
    requires g.Ok() && Attempts(g, acts, c, start, |acts|, seen, steps)
    requires Walk(g, seen, next) && |seen| == g.G && next < g.G && q < g.G
    ensures EmptyOnce(g, acts, c, start, q)
  {
    WalkCovers(g, seen, next, q);
    var i: nat :| i < |seen| && seen[i] == q;
    var k := steps[i];
    forall j: nat | start < j < |acts| && TriedEmpty(g, acts, c, q, j)
      ensures j == k
    {
      var i': nat :| i' < |steps| && steps[i'] == j;
      assert TriedEmpty(g, acts, c, seen[i'], j);
      if i' < i { WalkDistinct(g, seen, next, i', i); }
      if i < i' { WalkDistinct(g, seen, next, i, i'); }
    }
    assert EmptyOnlyAt(g, acts, c, start, q, k);
  }

  /** When pop returns false, each of the G queues was tried at exactly one step since the call
      started and was empty at that step, and the call took nothing. */
  lemma FailedPopSawAll(g: Params, acts: seq<Action>, c: nat) returns (start: nat)
    requires g.Ok() && c < |Exec(g, acts).consumers| && Exec(g, acts).consumers[c].phase.Failed?
    ensures CallSince(g, acts, c, start) && c < |Exec(g, acts[..start]).consumers|
    ensures forall q: nat :: q < g.G ==> EmptyOnce(g, acts, c, start, q)
    ensures Exec(g, acts).consumers[c].wins == Exec(g, acts[..start]).consumers[c].wins
  {
    var steps;
    start, steps := CallSoFar(g, acts, c);
    ConsumerFields(g, acts, c);
    var x := Exec(g, acts).consumers[c];
    forall q: nat | q < g.G
      ensures EmptyOnce(g, acts, c, start, q)
    {
      OnceEach(g, acts, c, start, x.phase.seen, steps, Round(g.G, x.index, 1), q);
    }
  }

  // ---------- bounded bypass ----------

  /** Queues between the consumer's index and queue j. */
  function Distance(g: Params, index: nat, j: nat): (d: nat)
    requires g.Ok()
    ensures d < g.G
  { (j - index) % g.G }

  /** Pops the consumer can still make elsewhere before it must take from queue j. */
  function Allowance(g: Params, c: Consumer, j: nat): nat
    requires g.Ok() && c.count < g.Quota()
  {
    var d := Distance(g, c.index, j);
    if d == 0 then 0
    else if c.phase.Trying? && c.phase.k > 0 then 1 + d * g.Quota()
    else (g.Quota() - c.count) + (d - 1) * g.Quota()
  }

  /** The scan under way will still come by queue j. */
  predicate WillReach(g: Params, c: Consumer, j: nat)
    requires g.Ok()
  {
    c.phase.Trying? && c.phase.k > 0 ==> c.phase.k + Distance(g, c.index, j) < g.G
  }

  lemma DistanceStep(g: Params, index: nat, j: nat)
    requires g.Ok() && index < g.G && j < g.G
    ensures Distance(g, index, j) == 0 <==> index == j
    ensures index != j ==> Distance(g, (index + 1) % g.G, j) == Distance(g, index, j) - 1
  {
    var d := Distance(g, index, j);
    if j >= index {
      ModUnique(j - index, 0, j - index, g.G);
    } else {
      ModUnique(j - index, -1, j - index + g.G, g.G);
    }
    if index != j {
      if index + 1 == g.G {
        ModUnique(index + 1, 1, 0, g.G);
        ModUnique(j - 0, 0, j, g.G);
      } else {
        ModUnique(index + 1, 0, index + 1, g.G);
        if j >= index + 1 {
          ModUnique(j - (index + 1), 0, j - (index + 1), g.G);
        } else {
          ModUnique(j - (index + 1), -1, j - (index + 1) + g.G, g.G);
        }
      }
    }
  }

  /** Each attempt away from j is paid for from the allowance. */
  lemma AttemptIsPaid(g: Params, c: Consumer, j: nat)
    requires g.Ok() && ConsumerInv(g, c) && c.phase.Trying? && WillReach(g, c, j) && j < g.G && c.index != j
    ensures var h := Hit(g, c);
      h.count < g.Quota() && WillReach(g, h, j) && Allowance(g, h, j) + 1 <= Allowance(g, c, j)
    ensures var m := Miss(g, c);
      m.count < g.Quota() && WillReach(g, m, j) && Allowance(g, m, j) <= Allowance(g, c, j) && !m.phase.Failed?
  {
    var d := Distance(g, c.index, j);
    DistanceStep(g, c.index, j);
    DistanceStep(g, (c.index + 1) % g.G, j);
    Distribute(d, -1, g.Quota());
    Distribute(d, -2, g.Quota());
  }

  /** Consumer c does not try queue j in this step. */
  predicate Bypasses(s: Pack, a: Action, c: nat, j: nat) {
    a == StepBy(c) && c < |s.consumers| && s.consumers[c].phase.Trying? ==> s.consumers[c].index != j
  }

  /** From step p on, consumer c has not tried queue j. (When it does, it pops from j unless
      j is empty at that moment.) */
  predicate NotYet(g: Params, acts: seq<Action>, p: nat, c: nat, j: nat)
    requires g.Ok()
  {
    forall k {:trigger acts[..k]} :: p <= k < |acts| ==> Bypasses(Exec(g, acts[..k]), acts[k], c, j)
  }

  /** Wins so far plus allowance never grow while j is not tried. */
  predicate WithinAllowance(g: Params, c: Consumer, j: nat, bound: nat)
    requires g.Ok()
  {
    c.count < g.Quota() && WillReach(g, c, j) && c.wins + Allowance(g, c, j) <= bound
  }

  lemma AllowanceStep(g: Params, s: Pack, a: Action, c: nat, j: nat, bound: nat)
    requires g.Ok() && j < g.G && |s.queues| == g.G && c < |s.consumers| && Bypasses(s, a, c, j)
    requires ConsumerInv(g, s.consumers[c]) && WithinAllowance(g, s.consumers[c], j, bound)
    ensures c < |Next(g, s, a).consumers| && WithinAllowance(g, Next(g, s, a).consumers[c], j, bound)
  {
    if a == StepBy(c) && s.consumers[c].phase.Trying? {
      AttemptIsPaid(g, s.consumers[c], j);
    }
  }

  lemma {:induction false} AllowanceAlong(g: Params, acts: seq<Action>, p: nat, c: nat, j: nat)
    requires g.Ok() && j < g.G && p <= |acts| && c < |Exec(g, acts[..p]).consumers|
    requires !Exec(g, acts[..p]).consumers[c].phase.Trying? && NotYet(g, acts, p, c, j)
    ensures Exec(g, acts[..p]).consumers[c].count < g.Quota() && c < |Exec(g, acts).consumers|
    ensures var x0 := Exec(g, acts[..p]).consumers[c];
      WithinAllowance(g, Exec(g, acts).consumers[c], j, x0.wins + Allowance(g, x0, j))
    decreases |acts|
  {
    ConsumerFields(g, acts[..p], c);
    if p == |acts| {
      assert acts[..p] == acts;
    } else {
      var pre := Butlast(acts);
      assert pre[..p] == acts[..p];
      forall k {:trigger pre[..k]} | p <= k < |pre|
        ensures Bypasses(Exec(g, pre[..k]), pre[k], c, j)
      {
        assert pre[..k] == acts[..k];
      }
      AllowanceAlong(g, pre, p, c, j);
      ConsumerFields(g, pre, c);
      assert acts[..|pre|] == pre;
      var x0 := Exec(g, acts[..p]).consumers[c];
      AllowanceStep(g, Exec(g, pre), Last(acts), c, j, x0.wins + Allowance(g, x0, j));
    }
  }

  /** Bounded bypass: whatever producers and other consumers do, a consumer makes at most
      (G - 1) * K pops from other queues before it tries queue j; if j is not empty at that
      moment, its next pop is from j. */
  lemma BoundedBypass(g: Params, acts: seq<Action>, p: nat, c: nat, j: nat)
    requires g.Ok() && j < g.G && p <= |acts| && c < |Exec(g, acts[..p]).consumers|
    requires !Exec(g, acts[..p]).consumers[c].phase.Trying? && NotYet(g, acts, p, c, j)
    ensures c < |Exec(g, acts).consumers|
    ensures Exec(g, acts).consumers[c].wins - Exec(g, acts[..p]).consumers[c].wins <= (g.G - 1) * g.Quota()
  {
    AllowanceAlong(g, acts, p, c, j);
    var x := Exec(g, acts[..p]).consumers[c];
    var d := Distance(g, x.index, j);
    MulAtLeast(g.Quota(), g.G - 1, d);
    Distribute(d, -1, g.Quota());
  }

  /** Two producers share a queue exactly when the counter values they drew agree modulo G.
      Within one turn of the 64-bit counter: when their numbers do, so that any G consecutive
      producers are spread over all G queues. */
  lemma RoundRobin(g: Params, acts: seq<Action>, p: nat, q: nat)
    requires g.Ok() && p < q < |Exec(g, acts).producers|
    ensures var i, j := Exec(g, acts).producers[p], Exec(g, acts).producers[q];
      && i == (p % Pow2(64)) % g.G && j == (q % Pow2(64)) % g.G
      && (i == j <==> (Counter(q) - Counter(p)) % g.G == 0)
      && (p / Pow2(64) == q / Pow2(64) ==> (i == j <==> (q - p) % g.G == 0))
  {
    hide Exec, Pow2;
    PlacesDealt(g, acts);
    SameSeat(p, q, g.G);
  }
}
