/** The pointer queue's hand-over of ownership, any number of threads interleaving. A pointer
    is a number, 0 the null pointer; the inner queue is the atomic FIFO. */
module PointerModel {
  import opened FifoSpec
  import opened Histories
  import Machine

  type Ptr = Machine.Value

  /** Where a thread is inside push or pop: Releasing after the inner push succeeded and
      before v.release(); Resetting(p) after the inner pop returned p and before v.reset(p). */
  datatype Local = Rest | Releasing | Resetting(p: Ptr)

  /** A thread with the unique pointer it calls the queue with. */
  datatype Holder = Holder(handle: Ptr, local: Local) {
    /** The pointer this thread is responsible for through its handle. */
    function Owned(): Ptr { if local.Releasing? then 0 else handle }

    function InTransit(): Ptr { if local.Resetting? then local.p else 0 }
  }

  datatype World = World(
    created: nat,               // pointers 1 .. created exist
    queue: Fifo<Ptr>,
    holders: seq<Holder>,
    closing: bool,              // the destructor has begun
    deleted: seq<Ptr>,          // in order
    accepted: seq<Ptr>,         // by successful pushes, in order
    delivered: seq<Ptr>,        // by successful pops, in order
    drained: seq<Ptr>)          // by the destructor, in order

  datatype Action =
    | Make(t: nat)              // the handle is reset to a new object
    | Drop(t: nat)              // the handle's object is destroyed
    | Publish(t: nat)           // _queue.push(v.get())
    | Release(t: nat)           // v.release()
    | Take(t: nat)              // _queue.pop(nv)
    | Reset(t: nat)             // v.reset(nv)
    | Close                     // the destructor starts; no call is under way
    | Drain                     // one turn of its loop

  function Init(threads: nat): World {
    World(0, Fresh(), seq(threads, _ => Holder(0, Rest)), false, [], [], [], [])
  }

  /** Deleting through a unique pointer does nothing for null. */
  function Deleting(log: seq<Ptr>, p: Ptr): seq<Ptr> { if p == 0 then log else log + [p] }

  function Next(n: nat, w: World, a: Action): World {
    match a
    case Close =>
      if forall i :: 0 <= i < |w.holders| ==> w.holders[i].local.Rest? then w.(closing := true) else w
    case Drain =>
      if w.closing && w.queue.items != [] then
        w.(queue := Apply(w.queue, Pop, Popped(w.queue.items[0], w.queue.pops)),
           drained := w.drained + [w.queue.items[0]],
           deleted := Deleting(w.deleted, w.queue.items[0]))
      else w
    case _ =>
      if a.t >= |w.holders| then w else ThreadStep(n, w, a)
  }

  function ThreadStep(n: nat, w: World, a: Action): World
    requires !a.Close? && !a.Drain? && a.t < |w.holders|
  {
    var h := w.holders[a.t];
    match a
    case Make(t) =>
      if h.local.Rest? then
        w.(created := w.created + 1, deleted := Deleting(w.deleted, h.handle),
           holders := w.holders[t := Holder(w.created + 1, Rest)])
      else w
    case Drop(t) =>
      if h.local.Rest? then
        w.(deleted := Deleting(w.deleted, h.handle), holders := w.holders[t := Holder(0, Rest)])
      else w
    case Publish(t) =>
      if h.local.Rest? && !w.closing && |w.queue.items| < n then
        w.(queue := Apply(w.queue, Push(h.handle), Pushed(w.queue.Pushes())),
           accepted := w.accepted + [h.handle],
           holders := w.holders[t := Holder(h.handle, Releasing)])
      else w
    case Release(t) =>
      if h.local.Releasing? then w.(holders := w.holders[t := Holder(0, Rest)]) else w
    case Take(t) =>
      if h.local.Rest? && !w.closing && w.queue.items != [] then
        w.(queue := Apply(w.queue, Pop, Popped(w.queue.items[0], w.queue.pops)),
           delivered := w.delivered + [w.queue.items[0]],
           holders := w.holders[t := Holder(h.handle, Resetting(w.queue.items[0]))])
      else w
    case Reset(t) =>
      if h.local.Resetting? then
        w.(deleted := Deleting(w.deleted, h.handle), holders := w.holders[t := Holder(h.local.p, Rest)])
      else w
  }

  function Exec(n: nat, threads: nat, acts: seq<Action>): World {
    if acts == [] then Init(threads) else Next(n, Exec(n, threads, Butlast(acts)), Last(acts))
  }

  // ---------- counting places ----------

  function Times(p: Ptr, s: seq<Ptr>): nat {
    if s == [] then 0 else Times(p, Butlast(s)) + if Last(s) == p then 1 else 0
  }

  function TimesHeld(p: Ptr, hs: seq<Holder>): nat {
    if hs == [] then 0
    else TimesHeld(p, Butlast(hs)) + At(p, Last(hs))
  }

  function At(p: Ptr, h: Holder): nat {
    (if h.Owned() == p then 1 else 0) + if h.InTransit() == p then 1 else 0
  }

  /** How often p occurs in a queue, a handle, a call under way or the deletion log. */
  function Places(w: World, p: Ptr): nat {
    Times(p, w.queue.items) + TimesHeld(p, w.holders) + Times(p, w.deleted)
  }

  lemma TimesSnoc(p: Ptr, s: seq<Ptr>, x: Ptr)
    ensures Times(p, s + [x]) == Times(p, s) + if x == p then 1 else 0
  {
    Snoc(s, x);
  }

  lemma {:induction false} TimesCons(p: Ptr, s: seq<Ptr>)
    requires s != []
    ensures Times(p, s) == Times(p, s[1..]) + if s[0] == p then 1 else 0
  {
    if |s| > 1 {
      TimesCons(p, Butlast(s));
      assert Butlast(s)[1..] == Butlast(s[1..]);
    }
  }

  lemma {:induction false} HeldUpdate(p: Ptr, hs: seq<Holder>, t: nat, h: Holder)
    requires t < |hs|
    ensures TimesHeld(p, hs[t := h]) + At(p, hs[t]) == TimesHeld(p, hs) + At(p, h)
  {
    if t == |hs| - 1 {
      assert Butlast(hs[t := h]) == Butlast(hs);
    } else {
      HeldUpdate(p, Butlast(hs), t, h);
      assert Butlast(hs[t := h]) == Butlast(hs)[t := h];
    }
  }

  lemma {:induction false} NobodyHolds(p: Ptr, hs: seq<Holder>)
    requires p > 0 && forall i :: 0 <= i < |hs| ==> hs[i] == Holder(0, Rest)
    ensures TimesHeld(p, hs) == 0
  {
    if hs != [] { NobodyHolds(p, Butlast(hs)); }
  }

  lemma TimesDeleting(p: Ptr, log: seq<Ptr>, x: Ptr)
    requires p > 0
    ensures Times(p, Deleting(log, x)) == Times(p, log) + if x == p then 1 else 0
  {
    TimesSnoc(p, log, x);
  }

  function Is(p: Ptr, x: Ptr): nat { if x == p then 1 else 0 }

  /** A push moves p from the handle to the queue. */
  lemma PublishPlaces(n: nat, w: World, t: nat, p: Ptr)
    requires p > 0
    ensures Places(Next(n, w, Publish(t)), p) == Places(w, p) && Next(n, w, Publish(t)).created == w.created
  {
    var w' := Next(n, w, Publish(t));
    if w' != w {
      var h := w.holders[t];
      TimesSnoc(p, w.queue.items, h.handle);
      HeldUpdate(p, w.holders, t, Holder(h.handle, Releasing));
      assert At(p, h) == Is(p, h.handle) && At(p, Holder(h.handle, Releasing)) == 0;
    }
  }

  /** A pop moves p from the queue into the call. */
  lemma TakePlaces(n: nat, w: World, t: nat, p: Ptr)
    requires p > 0
    ensures Places(Next(n, w, Take(t)), p) == Places(w, p) && Next(n, w, Take(t)).created == w.created
  {
    var w' := Next(n, w, Take(t));
    if w' != w {
      var h, x := w.holders[t], w.queue.items[0];
      TimesCons(p, w.queue.items);
      HeldUpdate(p, w.holders, t, Holder(h.handle, Resetting(x)));
      assert At(p, Holder(h.handle, Resetting(x))) == At(p, h) + Is(p, x);
    }
  }

  /** The destructor moves p from the queue to the log. */
  lemma DrainPlaces(n: nat, w: World, p: Ptr)
    requires p > 0
    ensures Places(Next(n, w, Drain), p) == Places(w, p) && Next(n, w, Drain).created == w.created
  {
    if w.queue.items != [] {
      TimesCons(p, w.queue.items);
      TimesDeleting(p, w.deleted, w.queue.items[0]);
    }
  }

  /** A step that leaves the queue alone: thread t's holder becomes h, its handle's pointee
      goes to the log or not. */
  lemma HandlePlaces(w: World, t: nat, h: Holder, log: seq<Ptr>, p: Ptr)
    requires p > 0 && t < |w.holders|
    requires log == w.deleted || log == Deleting(w.deleted, w.holders[t].handle)
    ensures Times(p, w.queue.items) + TimesHeld(p, w.holders[t := h]) + Times(p, log) + At(p, w.holders[t])
      == Places(w, p) + At(p, h) + if log == w.deleted then 0 else Is(p, w.holders[t].handle)
  {
    HeldUpdate(p, w.holders, t, h);
    TimesDeleting(p, w.deleted, w.holders[t].handle);
  }

  /** make, drop, release and reset. */
  lemma LocalPlaces(n: nat, w: World, a: Action, p: Ptr)
    requires p > 0 && (a.Make? || a.Drop? || a.Release? || a.Reset?)
    ensures Places(Next(n, w, a), p)
      == Places(w, p) + if Next(n, w, a).created > w.created && p == w.created + 1 then 1 else 0
  {
    var w' := Next(n, w, a);
    if a.t < |w.holders| && w' != w {
      HandlePlaces(w, a.t, w'.holders[a.t], w'.deleted, p);
      assert w'.holders == w.holders[a.t := w'.holders[a.t]];
    }
  }

  /** One step changes the places of p only when p is created by it. */
  lemma PlacesStep(n: nat, w: World, a: Action, p: Ptr)
    requires p > 0
    ensures Places(Next(n, w, a), p)
      == Places(w, p) + if Next(n, w, a).created > w.created && p == w.created + 1 then 1 else 0
  {
    match a
    case Close =>
    case Drain => DrainPlaces(n, w, p);
    case Publish(t) => PublishPlaces(n, w, t, p);
    case Take(t) => TakePlaces(n, w, t, p);
    case _ => LocalPlaces(n, w, a, p);
  }

  /** In every interleaving each existing pointer is in exactly one place: queued, owned by
      one handle, being handed over by one pop, or deleted once. In particular no pointer is
      deleted twice, or deleted while somebody owns it, even though push publishes the
      pointer before the pusher's handle lets go of it. */
  lemma {:induction false} OnePlace(n: nat, threads: nat, acts: seq<Action>, p: Ptr)
    requires p > 0
    ensures Places(Exec(n, threads, acts), p) == if p <= Exec(n, threads, acts).created then 1 else 0
  {
    if acts == [] {
      NobodyHolds(p, Init(threads).holders);
    } else {
      OnePlace(n, threads, Butlast(acts), p);
      PlacesStep(n, Exec(n, threads, Butlast(acts)), Last(acts), p);
    }
  }

  // ---------- every accepted pointer is handed out once ----------

  predicate HandOver(w: World) {
    && w.accepted == w.delivered + w.drained + w.queue.items
    && (w.drained != [] ==> w.closing)
    && (w.closing ==> forall i :: 0 <= i < |w.holders| ==> w.holders[i].local.Rest?)
  }

  lemma HandOverStep(n: nat, w: World, a: Action)
    requires HandOver(w)
    ensures HandOver(Next(n, w, a))
  {
  }

  /** Acceptances, in order, are the deliveries, then the deletions by the destructor, then
      what is still queued: each accepted pointer goes to exactly one pop or to the
      destructor, once. */
  lemma {:induction false} HandedOutOnce(n: nat, threads: nat, acts: seq<Action>)
    ensures HandOver(Exec(n, threads, acts))
  {
    if acts != [] {
      HandedOutOnce(n, threads, Butlast(acts));
      HandOverStep(n, Exec(n, threads, Butlast(acts)), Last(acts));
    }
  }

  /** Once the destructor's loop is done, nothing accepted is left over, and every pointer
      is owned by one handle or has been deleted once. */
  lemma AfterDestruction(n: nat, threads: nat, acts: seq<Action>, p: Ptr)
    requires p > 0 && Exec(n, threads, acts).closing && Exec(n, threads, acts).queue.items == []
    ensures var w := Exec(n, threads, acts);
      && w.accepted == w.delivered + w.drained
      && (forall i :: 0 <= i < |w.holders| ==> w.holders[i].local.Rest?)
      && (p <= w.created ==> TimesHeld(p, w.holders) + Times(p, w.deleted) == 1)
  {
    HandedOutOnce(n, threads, acts);
    OnePlace(n, threads, acts, p);
  }

  // ---------- a rejected push ----------

  /** Action a is a step of thread t. */
  predicate Moves(a: Action, t: nat) { !a.Close? && !a.Drain? && a.t == t }

  lemma {:induction false} HolderCount(n: nat, threads: nat, acts: seq<Action>)
    ensures |Exec(n, threads, acts).holders| == threads
  {
    if acts != [] { HolderCount(n, threads, Butlast(acts)); }
  }

  /** Nobody but thread t touches its handle. */
  lemma {:induction false} HandleStays(n: nat, threads: nat, acts: seq<Action>, k: nat, t: nat)
    requires k <= |acts| && t < threads && forall i :: k <= i < |acts| ==> !Moves(acts[i], t)
    ensures t < |Exec(n, threads, acts[..k]).holders| && t < |Exec(n, threads, acts).holders|
    ensures Exec(n, threads, acts).holders[t] == Exec(n, threads, acts[..k]).holders[t]
  {
    HolderCount(n, threads, acts[..k]);
    HolderCount(n, threads, acts);
    if k == |acts| {
      assert acts[..k] == acts;
    } else {
      HandleStays(n, threads, Butlast(acts), k, t);
      assert Butlast(acts)[..k] == acts[..k] && !Moves(Last(acts), t);
    }
  }

  lemma {:induction false} TimesIn(p: Ptr, s: seq<Ptr>)
    requires Times(p, s) == 0
    ensures p !in s
  {
    if s != [] {
      TimesIn(p, Butlast(s));
      assert s == Butlast(s) + [Last(s)];
    }
  }

  lemma {:induction false} HeldAtLeast(p: Ptr, hs: seq<Holder>, i: nat)
    requires i < |hs|
    ensures At(p, hs[i]) <= TimesHeld(p, hs)
  {
    if i < |hs| - 1 { HeldAtLeast(p, Butlast(hs), i); }
  }

  lemma {:induction false} HeldByTwo(p: Ptr, hs: seq<Holder>, i: nat, t: nat)
    requires i < |hs| && t < |hs| && i != t
    ensures At(p, hs[i]) + At(p, hs[t]) <= TimesHeld(p, hs)
  {
    var last := |hs| - 1;
    if i == last {
      HeldAtLeast(p, Butlast(hs), t);
    } else if t == last {
      HeldAtLeast(p, Butlast(hs), i);
    } else {
      HeldByTwo(p, Butlast(hs), i, t);
    }
  }

  /** p is in thread t's handle and nowhere else. */
  predicate OnlyWith(w: World, p: Ptr, t: nat) {
    && t < |w.holders| && w.holders[t] == Holder(p, Rest)
    && p !in w.queue.items && p !in w.deleted
    && forall i :: 0 <= i < |w.holders| && i != t ==> w.holders[i].Owned() != p && w.holders[i].InTransit() != p
  }

  lemma OwnedAlone(n: nat, threads: nat, acts: seq<Action>, p: Ptr, t: nat)
    requires p > 0 && t < |Exec(n, threads, acts).holders| && Exec(n, threads, acts).holders[t] == Holder(p, Rest)
    ensures OnlyWith(Exec(n, threads, acts), p, t)
  {
    var w := Exec(n, threads, acts);
    OnePlace(n, threads, acts, p);
    HeldAtLeast(p, w.holders, t);
    TimesIn(p, w.queue.items);
    TimesIn(p, w.deleted);
    forall i | 0 <= i < |w.holders| && i != t
      ensures w.holders[i].Owned() != p && w.holders[i].InTransit() != p
    {
      HeldByTwo(p, w.holders, i, t);
    }
  }

  /** A push by a thread outside any other call is rejected only by a full queue or during
      destruction; and then, for as long as that thread does nothing further, whatever the
      others do, its handle still owns the pointer, which is nowhere else and not deleted. */
  lemma RejectedPushKeeps(n: nat, threads: nat, acts: seq<Action>, k: nat, t: nat)
    requires k < |acts| && acts[k] == Publish(t) && t < |Exec(n, threads, acts[..k]).holders|
    requires Exec(n, threads, acts[..k]).holders[t].local.Rest? && Exec(n, threads, acts[..k]).holders[t].handle > 0
    requires Exec(n, threads, acts[..k + 1]).accepted == Exec(n, threads, acts[..k]).accepted
    requires forall i :: k < i < |acts| ==> !Moves(acts[i], t)
    ensures var w := Exec(n, threads, acts[..k]); w.closing || |w.queue.items| >= n
    ensures OnlyWith(Exec(n, threads, acts), Exec(n, threads, acts[..k]).holders[t].handle, t)
  {
    var w := Exec(n, threads, acts[..k]);
    assert Butlast(acts[..k + 1]) == acts[..k] && Last(acts[..k + 1]) == acts[k];
    HolderCount(n, threads, acts[..k]);
    HandleStays(n, threads, acts, k + 1, t);
    OwnedAlone(n, threads, acts, w.holders[t].handle, t);
  }

  // ---------- what a call does to the handle ----------

  /** Steps i with lo <= i < hi are not thread t's. */
  predicate Pauses(acts: seq<Action>, t: nat, lo: nat, hi: nat)
    requires hi <= |acts|
  { forall i :: lo <= i < hi ==> !Moves(acts[i], t) }

  /** From step k on thread t pauses until its next step, j. */
  lemma NextStep(n: nat, threads: nat, acts: seq<Action>, k: nat, j: nat, t: nat)
    requires k < j < |acts| && t < threads && Pauses(acts, t, k + 1, j)
    ensures t < |Exec(n, threads, acts[..j]).holders| && t < |Exec(n, threads, acts[..k + 1]).holders|
    ensures Exec(n, threads, acts[..j]).holders[t] == Exec(n, threads, acts[..k + 1]).holders[t]
    ensures Exec(n, threads, acts[..j + 1]) == Next(n, Exec(n, threads, acts[..j]), acts[j])
    ensures Exec(n, threads, acts[..k + 1]) == Next(n, Exec(n, threads, acts[..k]), acts[k])
  {
    assert acts[..j][..k + 1] == acts[..k + 1];
    HandleStays(n, threads, acts[..j], k + 1, t);
    Snoc(acts[..j], acts[j]);
    assert acts[..j] + [acts[j]] == acts[..j + 1];
    Snoc(acts[..k], acts[k]);
    assert acts[..k] + [acts[k]] == acts[..k + 1];
  }

  /** A pop by a resting thread on a non-empty queue: whatever the others do meanwhile, after its
      reset the handle owns the element that was the head, which is nowhere else and not deleted,
      and the handle's former object has been deleted once (if there was one). */
  lemma PopArrives(n: nat, threads: nat, acts: seq<Action>, k: nat, j: nat, t: nat)
    requires k < j < |acts| && t < threads && acts[k] == Take(t) && acts[j] == Reset(t) && Pauses(acts, t, k + 1, j)
    requires t < |Exec(n, threads, acts[..k]).holders| && Exec(n, threads, acts[..k]).holders[t].local.Rest?
    requires !Exec(n, threads, acts[..k]).closing && Exec(n, threads, acts[..k]).queue.items != []
    ensures var w, v, w' := Exec(n, threads, acts[..k]), Exec(n, threads, acts[..j]), Exec(n, threads, acts[..j + 1]);
      var x, former := w.queue.items[0], w.holders[t].handle;
      && t < |w'.holders| && w'.holders[t] == Holder(x, Rest)
      && Exec(n, threads, acts[..k + 1]).queue.items == w.queue.items[1..] && w'.queue == v.queue
      && w'.deleted == v.deleted + (if former == 0 then [] else [former])
      && (x > 0 ==> OnlyWith(w', x, t))
      && (former > 0 ==> Times(former, w'.deleted) == 1)
  {
    NextStep(n, threads, acts, k, j, t);
    HolderCount(n, threads, acts[..j + 1]);
    var w, v, w' := Exec(n, threads, acts[..k]), Exec(n, threads, acts[..j]), Exec(n, threads, acts[..j + 1]);
    var x, former := w.queue.items[0], w.holders[t].handle;
    assert v.holders[t] == Holder(former, Resetting(x));
    if x > 0 { OwnedAlone(n, threads, acts[..j + 1], x, t); }
    if former > 0 { DeletedNow(n, threads, acts[..j + 1], former, v.deleted); }
  }

  /** A pointer just appended to the deletions is there once. */
  lemma DeletedNow(n: nat, threads: nat, acts: seq<Action>, p: Ptr, before: seq<Ptr>)
    requires p > 0 && Exec(n, threads, acts).deleted == before + [p]
    ensures Times(p, Exec(n, threads, acts).deleted) == 1
  {
    OnePlace(n, threads, acts, p);
    TimesSnoc(p, before, p);
  }

  /** A push by a resting thread on a queue with room: after its release the handle is null, and
      the pointer was appended to the queue. */
  lemma PushLeaves(n: nat, threads: nat, acts: seq<Action>, k: nat, j: nat, t: nat)
    requires k < j < |acts| && t < threads && acts[k] == Publish(t) && acts[j] == Release(t)
    requires Pauses(acts, t, k + 1, j)
    requires t < |Exec(n, threads, acts[..k]).holders| && Exec(n, threads, acts[..k]).holders[t].local.Rest?
    requires !Exec(n, threads, acts[..k]).closing && |Exec(n, threads, acts[..k]).queue.items| < n
    ensures var w, v, w' := Exec(n, threads, acts[..k]), Exec(n, threads, acts[..j]), Exec(n, threads, acts[..j + 1]);
      && Exec(n, threads, acts[..k + 1]).queue.items == w.queue.items + [w.holders[t].handle]
      && t < |w'.holders| && w'.holders[t] == Holder(0, Rest)
      && w'.queue == v.queue && w'.deleted == v.deleted
  {
    NextStep(n, threads, acts, k, j, t);
    HolderCount(n, threads, acts[..j + 1]);
  }

  /** A resting thread's make gives its handle a new object, alone there; its drop leaves the
      handle null; either deletes the handle's former object, once. */
  lemma HandleChanges(n: nat, threads: nat, acts: seq<Action>, t: nat)
    requires acts != [] && (Last(acts) == Make(t) || Last(acts) == Drop(t)) && t < threads
    requires t < |Exec(n, threads, Butlast(acts)).holders|
    requires Exec(n, threads, Butlast(acts)).holders[t].local.Rest?
    ensures var w, w' := Exec(n, threads, Butlast(acts)), Exec(n, threads, acts);
      var former := w.holders[t].handle;
      && t < |w'.holders| && w'.queue == w.queue
      && (if Last(acts).Make? then w'.created == w.created + 1 && OnlyWith(w', w'.created, t)
          else w'.created == w.created && w'.holders[t] == Holder(0, Rest))
      && w'.deleted == w.deleted + (if former == 0 then [] else [former])
      && (former > 0 ==> Times(former, w'.deleted) == 1)
  {
    var w, w' := Exec(n, threads, Butlast(acts)), Exec(n, threads, acts);
    if Last(acts).Make? { OwnedAlone(n, threads, acts, w'.created, t); }
    if w.holders[t].handle > 0 { DeletedNow(n, threads, acts, w.holders[t].handle, w.deleted); }
  }

  // ---------- the destructor ----------

  /** The destructor begins and makes m turns of its loop. */
  function Destruction(m: nat): seq<Action> { if m == 0 then [Close] else Destruction(m - 1) + [Drain] }

  function NonNull(s: seq<Ptr>): seq<Ptr> {
    if s == [] then [] else NonNull(Butlast(s)) + if Last(s) == 0 then [] else [Last(s)]
  }

  /** Once every thread is at rest, closing and as many turns as there are elements leave the
      queue empty: all elements are drained, and the non-null ones deleted, in order. */
  lemma {:induction false} Destroyed(n: nat, threads: nat, acts: seq<Action>, m: nat)
    requires var w := Exec(n, threads, acts);
      m <= |w.queue.items| && forall i :: 0 <= i < |w.holders| ==> w.holders[i].local.Rest?
    ensures var w, w' := Exec(n, threads, acts), Exec(n, threads, acts + Destruction(m));
      && w'.closing && w'.holders == w.holders && w'.created == w.created
      && w'.queue.items == w.queue.items[m..]
      && w'.drained == w.drained + w.queue.items[..m]
      && w'.deleted == w.deleted + NonNull(w.queue.items[..m])
  {
    var w, items := Exec(n, threads, acts), Exec(n, threads, acts).queue.items;
    if m == 0 {
      Snoc(acts, Close);
      assert items[..0] == [] && items[0..] == items;
    } else {
      Destroyed(n, threads, acts, m - 1);
      var before := acts + Destruction(m - 1);
      assert acts + Destruction(m) == before + [Drain];
      Snoc(before, Drain);
      var x := items[m - 1];
      assert items[m - 1..][0] == x && items[m - 1..][1..] == items[m..];
      assert items[..m] == items[..m - 1] + [x];
      Snoc(items[..m - 1], x);
      DrainLog(w.drained, w.deleted, items[..m - 1], x);
    }
  }

  lemma DrainLog(drained: seq<Ptr>, deleted: seq<Ptr>, s: seq<Ptr>, x: Ptr)
    ensures drained + s + [x] == drained + (s + [x])
    ensures Deleting(deleted + NonNull(s), x) == deleted + (NonNull(s) + if x == 0 then [] else [x])
  {
  }

  /** The whole destructor, and where everything is then. */
  lemma DestructorEmpties(n: nat, threads: nat, acts: seq<Action>, p: Ptr)
    requires p > 0
    requires var w := Exec(n, threads, acts); forall i :: 0 <= i < |w.holders| ==> w.holders[i].local.Rest?
    ensures var w := Exec(n, threads, acts);
      var w' := Exec(n, threads, acts + Destruction(|w.queue.items|));
      && w'.queue.items == [] && w'.holders == w.holders
      && w'.drained == w.drained + w.queue.items && w'.deleted == w.deleted + NonNull(w.queue.items)
      && w'.accepted == w'.delivered + w'.drained
      && (p <= w'.created ==> TimesHeld(p, w'.holders) + Times(p, w'.deleted) == 1)
  {
    var items := Exec(n, threads, acts).queue.items;
    Destroyed(n, threads, acts, |items|);
    assert items[..|items|] == items && items[|items|..] == [];
    AfterDestruction(n, threads, acts + Destruction(|items|), p);
  }
}
