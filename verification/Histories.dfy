/** Sequential histories of the atomic queue and what they say about order and tickets. */
module Histories {
  import opened FifoSpec

  datatype Done<T> = Done(op: Op<T>, res: Result<T>)

  function Butlast<A>(s: seq<A>): (r: seq<A>)
    requires s != []
    ensures |r| + 1 == |s|
  { s[..|s| - 1] }

  lemma Snoc<A>(s: seq<A>, x: A)
    ensures Butlast(s + [x]) == s && Last(s + [x]) == x
  {
  }

  function Last<A>(s: seq<A>): A
    requires s != []
  { s[|s| - 1] }

  /** The queue after a history. */
  function Replay<T>(h: seq<Done<T>>): Fifo<T> {
    if h == [] then Fresh() else Apply(Replay(Butlast(h)), Last(h).op, Last(h).res)
  }

  /** Every answer is one the atomic queue may give at that point. */
  predicate Legal<T(==)>(n: nat, h: seq<Done<T>>) {
    h == [] || (Legal(n, Butlast(h)) && Allowed(n, Replay(Butlast(h)), Last(h).op, Last(h).res))
  }

  /** The values pushed, in order, each as last exchanged. */
  function PushLog<T>(h: seq<Done<T>>): seq<T> {
    if h == [] then []
    else
      var log := PushLog(Butlast(h));
      match Last(h)
      case Done(Push(d), Pushed(_)) => log + [d]
      case Done(Exchange(i, _, d), Swapped(true)) => if i < |log| then log[i := d] else log
      case _ => log
  }

  /** The values popped, in order. */
  function PopLog<T>(h: seq<Done<T>>): seq<T> {
    if h == [] then []
    else PopLog(Butlast(h)) + if Last(h).res.Popped? then [Last(h).res.d] else []
  }

  /** The indexes successful pushes, and successful pops, answered. */
  function PushTickets<T>(h: seq<Done<T>>): seq<nat> {
    if h == [] then []
    else PushTickets(Butlast(h)) + if Last(h).res.Pushed? then [Last(h).res.index] else []
  }

  function PopTickets<T>(h: seq<Done<T>>): seq<nat> {
    if h == [] then []
    else PopTickets(Butlast(h)) + if Last(h).res.Popped? then [Last(h).res.index] else []
  }

  function UpTo(n: nat): (s: seq<nat>)
    ensures |s| == n && forall i :: 0 <= i < n ==> s[i] == i
  { if n == 0 then [] else UpTo(n - 1) + [n - 1] }

  // What push, pop and exchange do to the logs.

  lemma LogPush<T>(popped: seq<T>, items: seq<T>, d: T)
    ensures popped + items + [d] == popped + (items + [d])
  {
  }

  lemma LogPop<T>(popped: seq<T>, items: seq<T>)
    requires items != []
    ensures popped + items == popped + [items[0]] + items[1..]
  {
  }

  lemma LogSwap<T>(popped: seq<T>, items: seq<T>, i: nat, d: T)
    requires |popped| <= i < |popped| + |items|
    ensures (popped + items)[i := d] == popped + items[i - |popped| := d]
  {
  }

  /** First in, first out, nothing lost, nothing twice: what was pushed (as last exchanged)
      is what was popped followed by what is still queued. */
  lemma {:induction false} FirstInFirstOut<T>(n: nat, h: seq<Done<T>>)
    requires Legal(n, h)
    ensures PushLog(h) == PopLog(h) + Replay(h).items
    ensures |PopLog(h)| == Replay(h).pops
    ensures |Replay(h).items| <= n
  {
    if h != [] {
      FirstInFirstOut(n, Butlast(h));
      var f, popped, op := Replay(Butlast(h)), PopLog(Butlast(h)), Last(h).op;
      match Last(h).res {
        case Pushed(_) => LogPush(popped, f.items, op.d);
        case Popped(_, _) => LogPop(popped, f.items);
        case Swapped(true) => LogSwap(popped, f.items, op.index, op.desired);
        case _ => assert Replay(h) == f && PopLog(h) == popped;
      }
    }
  }

  /** What one more operation does to the counts and the tickets. */
  lemma TicketsStep<T>(n: nat, h: seq<Done<T>>)
    requires h != [] && Allowed(n, Replay(Butlast(h)), Last(h).op, Last(h).res)
    ensures var f, f', res := Replay(Butlast(h)), Replay(h), Last(h).res;
      && f'.Pushes() == f.Pushes() + (if res.Pushed? then 1 else 0)
      && f'.pops == f.pops + (if res.Popped? then 1 else 0)
      && (res.Pushed? ==> res.index == f.Pushes())
      && (res.Popped? ==> res.index == f.pops)
  {
  }

  /** Tickets have no gap and no repetition. */
  lemma {:induction false} TicketsAreConsecutive<T>(n: nat, h: seq<Done<T>>)
    requires Legal(n, h)
    ensures PushTickets(h) == UpTo(Replay(h).Pushes())
    ensures PopTickets(h) == UpTo(Replay(h).pops)
  {
    if h != [] {
      TicketsAreConsecutive(n, Butlast(h));
      TicketsStep(n, h);
    }
  }

  /** The pop that answers index i delivers the value pushed at i, as last exchanged before it. */
  lemma PopDeliversItsTicket<T>(n: nat, h: seq<Done<T>>)
    requires h != [] && Legal(n, h) && Last(h).res.Popped?
    ensures var i := Last(h).res.index;
      && i < |PushLog(Butlast(h))| && i + 1 == |PopLog(h)|
      && Last(h).res.d == PushLog(Butlast(h))[i] == PopLog(h)[i]
  {
    FirstInFirstOut(n, Butlast(h));
  }
}
