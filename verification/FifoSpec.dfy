/** The atomic object the queue is meant to be: a bounded FIFO whose elements carry
    consecutive tickets. `pops` elements have left, the head has ticket `pops`. */
module FifoSpec {

  datatype Op<T> =
    | Push(d: T)
    | Pop
    | PopIf
    | Peek
    | IsEmpty
    | Exchange(index: nat, expected: T, desired: T)

  datatype Result<T> =
    | Pushed(index: nat)
    | Full
    | Popped(d: T, index: nat)
    | NoElement
    | Refused(d: T, word: nat)    // pop_if: the callback saw (d, word) and said no
    | Peeked(d: T, word: nat)
    | Swapped(ok: bool)
    | Emptiness(yes: bool)

  datatype Fifo<T> = Fifo(pops: nat, items: seq<T>, swaps: nat) {
    function Pushes(): nat { pops + |items| }

    /** Number of successful slot changes so far. */
    function Changes(): nat { Pushes() + pops + swaps }

    predicate Queued(t: nat) { pops <= t < Pushes() }
  }

  function Fresh<T>(): Fifo<T> { Fifo(0, [], 0) }

  /** Which answers the atomic queue of capacity n may give. Only the negative answer of
      IsEmpty is left open, and the callback of PopIf may accept or refuse the head. */
  predicate Allowed<T(==)>(n: nat, f: Fifo<T>, op: Op<T>, r: Result<T>) {
    match op
    case Push(d) => r == if |f.items| < n then Pushed(f.Pushes()) else Full
    case Pop => r == if f.items == [] then NoElement else Popped(f.items[0], f.pops)
    case PopIf =>
      if f.items == [] then r == NoElement
      else r == Popped(f.items[0], f.pops) || r == Refused(f.items[0], 2 * f.pops + 1)
    case Peek => r == if f.items == [] then NoElement else Peeked(f.items[0], 2 * f.pops + 1)
    case IsEmpty => r.Emptiness? && (r.yes ==> f.items == [])
    case Exchange(i, x, y) => r == Swapped(f.Queued(i) && f.items[i - f.pops] == x)
  }

  /** The state after an operation that answered r. */
  function Apply<T>(f: Fifo<T>, op: Op<T>, r: Result<T>): Fifo<T> {
    match r
    case Pushed(_) => if op.Push? then f.(items := f.items + [op.d]) else f
    case Popped(_, _) => if f.items == [] then f else f.(pops := f.pops + 1, items := f.items[1..])
    case Swapped(true) =>
      if op.Exchange? && f.Queued(op.index)
      then f.(items := f.items[op.index - f.pops := op.desired], swaps := f.swaps + 1)
      else f
    case _ => f
  }
}
