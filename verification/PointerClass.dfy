/** The pointer queue as a program. */
module PointerClass {
  import opened FifoSpec
  import opened Machine
  import opened QueueClass

  const NULL: Value := 0

  class UniquePtr {
    var ptr: Value

    constructor (p: Value)
      ensures ptr == p
    { ptr := p; }

    /** Give up the pointer without deleting it. */
    method Release()
      modifies this
      ensures ptr == NULL
    { ptr := NULL; }

    /** Take p over; the former pointee is deleted. */
    method Reset(p: Value) returns (ghost freed: seq<Value>)
      modifies this
      ensures ptr == p && freed == if old(ptr) == NULL then [] else [old(ptr)]
    {
      freed := if ptr == NULL then [] else [ptr];
      ptr := p;
    }
  }

  function NonNull(s: seq<Value>): seq<Value> {
    if s == [] then [] else NonNull(s[..|s| - 1]) + if s[|s| - 1] == NULL then [] else [s[|s| - 1]]
  }

  // What is left of a list is exactly its non-null elements, in order: these two laws leave no
  // choice, and the third says it by counting.

  lemma NonNullOne(x: Value)
    ensures NonNull([x]) == if x == NULL then [] else [x]
  {
    assert [x][..0] == [];
  }

  lemma {:induction false} NonNullConcat(a: seq<Value>, b: seq<Value>)
    ensures NonNull(a + b) == NonNull(a) + NonNull(b)
  {
    if b == [] {
      assert a + b == a;
    } else {
      var pre, x := b[..|b| - 1], b[|b| - 1];
      NonNullConcat(a, pre);
      assert (a + b)[..|a + b| - 1] == a + pre && (a + b)[|a + b| - 1] == x;
    }
  }

  lemma {:induction false} NonNullCounts(s: seq<Value>, p: Value)
    ensures multiset(NonNull(s))[p] == if p == NULL then 0 else multiset(s)[p]
  {
    if s != [] {
      var pre, x := s[..|s| - 1], s[|s| - 1];
      NonNullCounts(pre, p);
      assert s == pre + [x];
    }
  }

  class PointerQueue {
    const queue: MpmcQueue

    ghost predicate Valid()
      reads this, queue, queue.slots
    { queue.Valid() }

    constructor (c: Config)
      requires c.wraps && c.Ok()
      ensures Valid() && fresh(queue) && fresh(queue.slots) && queue.fifo == Fresh() && queue.c == c
    {
      queue := new MpmcQueue(c);
    }

    /** On success the queue owns the pointer and the handle is null; otherwise nothing changes. */
    method Push(v: UniquePtr) returns (ok: bool, i: nat)
      requires Valid()
      modifies queue, queue.slots, v
      ensures Valid()
      ensures ok == (|old(queue.fifo).items| < queue.c.N())
      ensures ok ==> queue.fifo == Enqueued(old(queue.fifo), old(v.ptr)) && v.ptr == NULL
      ensures ok ==> i == old(queue.fifo).Pushes() % queue.c.Range()
      ensures !ok ==> queue.fifo == old(queue.fifo) && v.ptr == old(v.ptr)
    {
      ghost var rounds;
      ok, i, rounds := queue.Push(v.ptr);
      if ok { v.Release(); }
    }

    /** On success the handle owns the head and its former pointee is deleted. */
    method Pop(v: UniquePtr) returns (ok: bool, i: nat, ghost freed: seq<Value>)
      requires Valid()
      modifies queue, queue.slots, v
      ensures Valid()
      ensures ok == (old(queue.fifo).items != [])
      ensures ok ==> queue.fifo == Dequeued(old(queue.fifo)) && v.ptr == old(queue.fifo).items[0]
      ensures ok ==> freed == if old(v.ptr) == NULL then [] else [old(v.ptr)]
      ensures ok ==> i == old(queue.fifo).pops % queue.c.Range()
      ensures !ok ==> queue.fifo == old(queue.fifo) && v.ptr == old(v.ptr) && freed == []
    {
      ghost var rounds;
      var nv;
      freed := [];
      ok, nv, i, rounds := queue.PopIndexed();
      if ok { freed := v.Reset(nv); }
    }

    /** The destructor: every non-null pointer still queued is deleted, once, in order. */
    method Destroy() returns (ghost freed: seq<Value>)
      requires Valid()
      modifies queue, queue.slots
      ensures Valid() && queue.fifo.items == []
      ensures freed == NonNull(old(queue.fifo).items)
      ensures forall p :: multiset(freed)[p] == if p == NULL then 0 else multiset(old(queue.fifo).items)[p]
    {
      freed := [];
      ghost var all, done := queue.fifo.items, 0;
      assert all[..0] == [];
      while true
        invariant Valid() && done <= |all| && queue.fifo.items == all[done..]
        invariant freed == NonNull(all[..done])
        decreases |queue.fifo.items|
      {
        var ok, nv, rounds := queue.Pop();
        if !ok {
          assert all[..done] == all;
          forall p { NonNullCounts(all, p); }
          return;
        }
        var up := new UniquePtr(nv);
        var gone := up.Reset(NULL);
        freed := freed + gone;
        assert all[..done + 1][..done] == all[..done];
        done := done + 1;
      }
    }
  }
}
