/** The pack as a program: G queue objects, producer handles and consumer handles. */
module PackClass {
  import opened Bits
  import opened FifoSpec
  import opened Machine
  import opened QueueClass
  import PackModel

  /** The handle counters wrap at 64 bits. */
  type Count = x: nat | x < Pow2(64)

  class QueuePack {
    const g: PackModel.Params
    const c: Config
    const queues: seq<MpmcQueue>
    var writersCount: Count
    var readersCount: Count

    /** G separate, valid queues. */
    ghost predicate Valid()
      reads this, queues, set q <- queues :: q.slots
    {
      && g.Ok() && |queues| == g.G
      && (forall i, j :: 0 <= i < j < g.G ==> queues[i] != queues[j] && queues[i].slots != queues[j].slots)
      && c.N() == g.n
      && forall q <- queues :: q.Valid() && q.c == c
    }

    ghost function Contents(): (s: seq<Queue>)
      reads this, queues
      ensures |s| == |queues|
    { seq(|queues|, i requires 0 <= i < |queues| reads this, queues => queues[i].fifo) }

    constructor (G: nat, K: nat, c: Config)
      requires G >= 1 && c.wraps && c.Ok()
      ensures Valid() && g == PackModel.Params(G, K, c.N()) && this.c == c
      ensures forall i :: 0 <= i < G ==> queues[i].c == c
      ensures fresh(queues) && fresh(set q <- queues :: q.slots)
      ensures writersCount == readersCount == 0
      ensures forall i :: 0 <= i < G ==> queues[i].fifo == Fresh()
    {
      var qs: seq<MpmcQueue> := [];
      while |qs| < G
        invariant |qs| <= G && fresh(qs) && fresh(set q <- qs :: q.slots)
        invariant forall i, j :: 0 <= i < j < |qs| ==> qs[i] != qs[j] && qs[i].slots != qs[j].slots
        invariant forall q <- qs :: q.Valid() && q.c == c && q.fifo == Fresh()
      {
        var q := new MpmcQueue(c);
        qs := qs + [q];
      }
      g, this.c := PackModel.Params(G, K, c.N()), c;
      queues := qs;
      writersCount, readersCount := 0, 0;
    }
  }

  /** The next queue of a scan. */
  lemma RoundOn(G: nat, from: nat, i: nat)
    requires G >= 1
    ensures PackModel.Round(G, from, i + 1) == (PackModel.Round(G, from, i) + 1) % G
  {
    ModAdd(from + i, 1, G);
  }

  lemma RoundZero(G: nat, from: nat)
    requires from < G
    ensures PackModel.Round(G, from, 0) == from
  {
    ModUnique(from, 0, from, G);
  }

  class Producer {
    const pack: QueuePack
    const queueIndex: nat
    const writeQueue: MpmcQueue

    ghost predicate Valid()
      reads this, pack, pack.queues, set q <- pack.queues :: q.slots
    {
      pack.Valid() && queueIndex < pack.g.G && writeQueue == pack.queues[queueIndex]
    }

    constructor (pack: QueuePack)
      requires pack.Valid()
      modifies pack`writersCount
      ensures pack.Valid() && Valid() && this.pack == pack && queueIndex == old(pack.writersCount) % pack.g.G
      ensures queueIndex < |pack.queues| && writeQueue == pack.queues[queueIndex]
      ensures pack.writersCount == (old(pack.writersCount) + 1) % Pow2(64)
    {
      this.pack := pack;
      queueIndex := pack.writersCount % pack.g.G;
      writeQueue := pack.queues[pack.writersCount % pack.g.G];
      pack.writersCount := (pack.writersCount + 1) % Pow2(64);
    }

    /** push goes to the producer's own queue, and fails exactly when that one is full. */
    method Push(d: Value) returns (ok: bool, i: nat)
      requires Valid()
      modifies writeQueue, writeQueue.slots
      ensures Valid()
      ensures var f := old(pack.Contents()[queueIndex]);
        && ok == (|f.items| < pack.g.n)
        && (ok ==> i == f.Pushes() % pack.c.Range())
        && pack.Contents() == old(pack.Contents())[queueIndex := if ok then f.(items := f.items + [d]) else f]
    {
      ghost var rounds;
      ok, i, rounds := writeQueue.Push(d);
    }
  }

  class Consumer {
    const pack: QueuePack
    var readQueueIndex: nat
    var readQueue: MpmcQueue
    var popCount: nat

    ghost predicate Valid()
      reads this, pack, pack.queues, set q <- pack.queues :: q.slots
    {
      && pack.Valid()
      && readQueueIndex < pack.g.G && readQueue == pack.queues[readQueueIndex]
      && popCount < pack.g.Quota()
    }

    constructor (pack: QueuePack)
      requires pack.Valid()
      modifies pack`readersCount
      ensures pack.Valid() && Valid() && this.pack == pack && popCount == 0
      ensures readQueueIndex < |pack.queues| && readQueue == pack.queues[readQueueIndex]
      ensures readQueueIndex == old(pack.readersCount) % pack.g.G
      ensures pack.readersCount == (old(pack.readersCount) + 1) % Pow2(64)
    {
      this.pack := pack;
      readQueueIndex := pack.readersCount % pack.g.G;
      readQueue := pack.queues[pack.readersCount % pack.g.G];
      popCount := 0;
      pack.readersCount := (pack.readersCount + 1) % Pow2(64);
    }

    /** One inner pop, seen from the pack. */
    method Attempt() returns (ok: bool, d: Value)
      requires Valid()
      modifies pack.queues, set q <- pack.queues :: q.slots
      ensures Valid()
      ensures ok == (old(pack.Contents())[readQueueIndex].items != [])
      ensures ok ==> d == old(pack.Contents())[readQueueIndex].items[0]
      ensures pack.Contents() == Taken(old(pack.Contents()), readQueueIndex)
    {
      hide Represents;
      ghost var rounds;
      ok, d, rounds := readQueue.Pop();
    }

    method MoveOn()
      requires pack.Valid() && readQueueIndex < pack.g.G && popCount == 0
      modifies this`readQueueIndex, this`readQueue
      ensures Valid() && readQueueIndex == (old(readQueueIndex) + 1) % pack.g.G
    {
      readQueueIndex := (readQueueIndex + 1) % pack.g.G;
      readQueue := pack.queues[readQueueIndex];
    }

    /** pop takes the head of the first non-empty queue of the scan (ghost: the steps-th), and
        fails exactly when all G queues are empty. */
    method Pop() returns (ok: bool, d: Value, ghost steps: nat)
      requires Valid()
      modifies this`readQueueIndex, this`readQueue, this`popCount
      modifies pack.queues, set q <- pack.queues :: q.slots
      ensures Valid()
      ensures ok <==> exists j :: 0 <= j < pack.g.G && old(pack.Contents())[j].items != []
      ensures !ok ==> pack.Contents() == old(pack.Contents())
      ensures !ok ==> popCount == 0 && readQueueIndex == PackModel.Round(pack.g.G, old(readQueueIndex), pack.g.G - 1)
      ensures ok ==> steps < pack.g.G && Found(old(pack.Contents()), old(readQueueIndex), d, steps, pack.Contents(),
                                               PackModel.Round(pack.g.G, old(readQueueIndex), steps))
      ensures ok && steps > 0 ==>
        popCount == 0 && readQueueIndex == PackModel.Round(pack.g.G, old(readQueueIndex), steps)
      ensures ok && steps == 0 ==>
        if old(popCount) + 1 < pack.g.K
        then popCount == old(popCount) + 1 && readQueueIndex == old(readQueueIndex)
        else popCount == 0 && readQueueIndex == (old(readQueueIndex) + 1) % pack.g.G
    {
      hide Represents;
      steps := 0;
      RoundZero(pack.g.G, readQueueIndex);
      ok, d := First();
      if !ok {
        popCount := 0;
        ok, d, steps := Scan();
      }
    }

    /** This consumer at the first attempt of a call, in the pack model. */
    ghost function Model(): PackModel.Consumer
      reads this
    { PackModel.Consumer(readQueueIndex, popCount, PackModel.Trying(0, []), 0, 0) }

    /** The attempt on the current queue, counted against the quota K. */
    method First() returns (ok: bool, d: Value)
      requires Valid()
      modifies this`readQueueIndex, this`readQueue, this`popCount
      modifies pack.queues, set q <- pack.queues :: q.slots
      ensures Valid()
      ensures ok == (old(pack.Contents())[old(readQueueIndex)].items != [])
      ensures pack.Contents() == Taken(old(pack.Contents()), old(readQueueIndex))
      ensures ok ==> d == old(pack.Contents())[old(readQueueIndex)].items[0]
      ensures ok ==> var h := PackModel.Hit(pack.g, old(Model())); popCount == h.count && readQueueIndex == h.index
      ensures if !ok || old(popCount) + 1 < pack.g.K
        then popCount == old(popCount) + (if ok then 1 else 0) && readQueueIndex == old(readQueueIndex)
        else popCount == 0 && readQueueIndex == (old(readQueueIndex) + 1) % pack.g.G
    {
      hide Represents;
      ok, d := Attempt();
      if ok {
        popCount := popCount + 1;
        if popCount >= pack.g.K {
          popCount := 0;
          MoveOn();
        }
      }
    }

    /** One turn of the loop of Scan. */
    method TryNext(ghost was: seq<Queue>, ghost from: nat, ghost k: nat) returns (ok: bool, d: Value)
      requires Valid() && popCount == 0 && pack.Contents() == was && from < pack.g.G && k > 0
      requires readQueueIndex == PackModel.Round(pack.g.G, from, k - 1) && EmptyBefore(was, from, k)
      modifies this`readQueueIndex, this`readQueue
      modifies pack.queues, set q <- pack.queues :: q.slots
      ensures Valid() && popCount == 0
      ensures !ok ==> pack.Contents() == was && EmptyBefore(was, from, k + 1)
      ensures !ok ==> readQueueIndex == PackModel.Round(pack.g.G, from, k)
      ensures ok ==> Found(was, from, d, k, pack.Contents(), readQueueIndex)
    {
      RoundOn(pack.g.G, from, k - 1);
      MoveOn();
      ok, d := Attempt();
    }

    /** The loop over the other queues, once the current one was found empty. */
    method Scan() returns (ok: bool, d: Value, ghost steps: nat)
      requires Valid() && popCount == 0 && pack.Contents()[readQueueIndex].items == []
      modifies this`readQueueIndex, this`readQueue
      modifies pack.queues, set q <- pack.queues :: q.slots
      ensures Valid() && popCount == 0
      ensures ok ==> 0 < steps < pack.g.G
      ensures ok ==> Found(old(pack.Contents()), old(readQueueIndex), d, steps, pack.Contents(), readQueueIndex)
      ensures !ok ==> forall j :: 0 <= j < pack.g.G ==> old(pack.Contents())[j].items == []
      ensures !ok ==> pack.Contents() == old(pack.Contents())
      ensures !ok ==> readQueueIndex == PackModel.Round(pack.g.G, old(readQueueIndex), pack.g.G - 1)
    {
      ghost var start, was := readQueueIndex, pack.Contents();
      ok, d, steps := false, ZERO, 0;
      RoundZero(pack.g.G, start);
      var k := 1;
      while k < pack.g.G
        invariant 1 <= k <= pack.g.G
        invariant Valid() && popCount == 0 && pack.Contents() == was
        invariant readQueueIndex == PackModel.Round(pack.g.G, start, k - 1) && EmptyBefore(was, start, k)
      {
        steps := k;
        ok, d := TryNext(was, start, k);
        if ok { return; }
        k := k + 1;
      }
      AllEmpty(was, start);
      return false, d, steps;
    }

    /** The head of queue j is gone, if it had one. */
    static ghost function Taken(s: seq<Queue>, j: nat): (s': seq<Queue>)
      requires j < |s|
      ensures s[j].items == [] ==> s' == s
    {
      s[j := if s[j].items == [] then s[j] else Dequeued(s[j])]
    }

    /** A scan from queue `from` skipped `steps` empty queues and took d from the next one. */
    static ghost predicate Found(was: seq<Queue>, from: nat, d: Value, steps: nat, now: seq<Queue>, index: nat)
      requires from < |was|
    {
      && index == PackModel.Round(|was|, from, steps) && EmptyBefore(was, from, steps)
      && was[index].items != [] && d == was[index].items[0]
      && now == Taken(was, index)
    }
  }

  ghost predicate EmptyBefore(s: seq<Queue>, from: nat, k: nat)
    requires from < |s|
  {
    forall i :: 0 <= i < k ==> s[PackModel.Round(|s|, from, i)].items == []
  }

  /** A scan that finds G queues empty has found all of them empty. */
  lemma AllEmpty(s: seq<Queue>, start: nat)
    requires start < |s| && EmptyBefore(s, start, |s|)
    ensures forall j :: 0 <= j < |s| ==> s[j].items == []
  {
    var G := |s|;
    forall j | 0 <= j < G
      ensures s[j].items == []
    {
      var i := if j >= start then j - start else j - start + G;
      ModUnique(start + i, if j >= start then 0 else 1, j, G);
      assert PackModel.Round(G, start, i) == j;
    }
  }

  /** The queue of the i-th handle after the counter stood at `start`. */
  function Seat(pack: QueuePack, start: Count, i: nat): (j: nat)
    requires pack.g.G >= 1
    ensures j < pack.g.G
  { CountAfter(start, i) % pack.g.G }

  /** The counter after i handles more. */
  function CountAfter(start: Count, i: nat): Count { (start + i) % Pow2(64) }

  lemma CountOn(start: Count, i: nat)
    ensures CountAfter(start, 0) == start
    ensures CountAfter(start, i + 1) == (CountAfter(start, i) + 1) % Pow2(64)
  {
    ModUnique(start, 0, start, Pow2(64));
    ModAdd(start + i, 1, Pow2(64));
  }

  lemma FirstSeats(pack: QueuePack, i: nat)
    requires i < pack.g.G && i < Pow2(64)
    ensures Seat(pack, 0, i) == i
  {
    ModUnique(i, 0, i, Pow2(64));
    ModUnique(i, 0, i, pack.g.G);
  }

  /** A producer of this pack at queue j. */
  ghost predicate Placed(p: Producer, pack: QueuePack, j: nat) {
    p.pack == pack && p.queueIndex == j && j < |pack.queues| && p.writeQueue == pack.queues[j]
  }

  /** m producers in turn: consecutive queues, as far as the counter does not wrap. On a new pack
      the first G of them sit at queues 0, 1, ..., G - 1. */
  method MakeProducers(pack: QueuePack, m: nat) returns (ps: seq<Producer>)
    requires pack.Valid()
    modifies pack`writersCount
    ensures |ps| == m && pack.Valid() && pack.writersCount == CountAfter(old(pack.writersCount), m)
    ensures forall i :: 0 <= i < m ==> Placed(ps[i], pack, Seat(pack, old(pack.writersCount), i)) && ps[i].Valid()
    ensures old(pack.writersCount) == 0 ==>
      forall i :: 0 <= i < m && i < pack.g.G && i < Pow2(64) ==> ps[i].queueIndex == i
  {
    assert pack.g.G >= 1;
    ghost var start := pack.writersCount;
    CountOn(start, 0);
    hide Seat, CountAfter;
    ps := [];
    while |ps| < m
      invariant |ps| <= m && pack.Valid() && pack.writersCount == CountAfter(start, |ps|)
      invariant forall i :: 0 <= i < |ps| ==> Placed(ps[i], pack, Seat(pack, start, i))
    {
      var p := OneProducer(pack, start, |ps|);
      ps := ps + [p];
    }
    forall i | 0 <= i < m && i < pack.g.G && i < Pow2(64) ensures Seat(pack, 0, i) == i { FirstSeats(pack, i); }
  }

  method OneProducer(pack: QueuePack, ghost start: Count, ghost i: nat) returns (p: Producer)
    requires pack.Valid() && pack.writersCount == CountAfter(start, i)
    modifies pack`writersCount
    ensures pack.Valid() && pack.writersCount == CountAfter(start, i + 1) && Placed(p, pack, Seat(pack, start, i))
  {
    hide CountAfter;
    p := new Producer(pack);
    CountOn(start, i);
  }

  /** A new consumer of this pack at queue j. */
  ghost predicate Seated(c: Consumer, pack: QueuePack, j: nat)
    reads c
  {
    && c.pack == pack && c.popCount == 0 && c.readQueueIndex == j
    && j < |pack.queues| && c.readQueue == pack.queues[j]
  }

  lemma SeatedIsValid(c: Consumer, pack: QueuePack, j: nat)
    requires pack.Valid() && Seated(c, pack, j)
    ensures c.Valid()
  {
  }

  /** The same for consumers, which start there with a fresh quota. */
  method MakeConsumers(pack: QueuePack, m: nat) returns (cs: seq<Consumer>)
    requires pack.Valid()
    modifies pack`readersCount
    ensures |cs| == m && pack.Valid() && fresh(cs) && pack.readersCount == CountAfter(old(pack.readersCount), m)
    ensures forall i :: 0 <= i < m ==> Seated(cs[i], pack, Seat(pack, old(pack.readersCount), i)) && cs[i].Valid()
    ensures old(pack.readersCount) == 0 ==>
      forall i :: 0 <= i < m && i < pack.g.G && i < Pow2(64) ==> cs[i].readQueueIndex == i
  {
    assert pack.g.G >= 1;
    ghost var start := pack.readersCount;
    CountOn(start, 0);
    hide QueuePack.Valid, Consumer.Valid, Seat, CountAfter;
    cs := [];
    while |cs| < m
      invariant |cs| <= m && pack.Valid() && fresh(cs) && pack.readersCount == CountAfter(start, |cs|)
      invariant forall i :: 0 <= i < |cs| ==> Seated(cs[i], pack, Seat(pack, start, i))
    {
      var c := OneConsumer(pack, start, |cs|);
      cs := cs + [c];
    }
    forall i | 0 <= i < m ensures cs[i].Valid() { SeatedIsValid(cs[i], pack, Seat(pack, start, i)); }
    forall i | 0 <= i < m && i < pack.g.G && i < Pow2(64) ensures Seat(pack, 0, i) == i { FirstSeats(pack, i); }
  }

  method OneConsumer(pack: QueuePack, ghost start: Count, ghost i: nat) returns (c: Consumer)
    requires pack.Valid() && pack.readersCount == CountAfter(start, i)
    modifies pack`readersCount
    ensures pack.Valid() && pack.readersCount == CountAfter(start, i + 1)
    ensures fresh(c) && Seated(c, pack, Seat(pack, start, i))
  {
    hide CountAfter;
    c := new Consumer(pack);
    CountOn(start, i);
  }
}
