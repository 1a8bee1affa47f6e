/** The macro-generated ring buffer: an array with one spare slot, used in place. */
module RingFifo {
  import opened Common

  /** C's remainder, which takes the sign of the dividend. */
  function Rem(a: int, b: int): int
    requires b >= 1
  {
    if a >= 0 then a % b else -((-a) % b)
  }

  class Fifo<T(0)> {
    var head: int
    var tail: int
    const data: array<T>

    /** `Init` of a buffer declared with `n` slots. */
    constructor (n: nat)
      requires n >= 1
      ensures Valid() && data.Length == n && Contents() == [] && fresh(data)
    {
      head, tail := 0, 0;
      data := new T[n];
    }

    ghost predicate Valid()
      reads this
    {
      0 <= head < data.Length && 0 <= tail < data.Length
    }

    /** The queued items, oldest first. */
    ghost function Contents(): seq<T>
      reads this, data
      requires Valid()
    {
      if tail <= head then data[tail..head] else data[tail..] + data[..head]
    }

    method IsEmpty() returns (r: bool)
      requires Valid()
      ensures r <==> Contents() == []
    {
      r := head == tail;
    }

    method Size() returns (r: int)
      requires Valid()
      ensures r == |Contents()|
    {
      WrappedDifference(head, tail, data.Length);
      r := Rem(Rem(head - tail, data.Length) + data.Length, data.Length);
    }

    method Push(x: T) returns (ok: bool)
      requires Valid()
      modifies this`head, data
      ensures Valid()
      ensures ok <==> |old(Contents())| < data.Length - 1
      ensures Contents() == if ok then old(Contents()) + [x] else old(Contents())
    {
      var size := Size();
      if data.Length <= size + 1 {
        return false;
      }
      StepAround(head, data.Length);
      data[head] := x;
      head := Rem(head + 1, data.Length);
      return true;
    }

    method Pop() returns (r: Option<T>)
      requires Valid()
      modifies this`tail
      ensures Valid()
      ensures r == if old(Contents()) == [] then None else Some(old(Contents())[0])
      ensures Contents() == if r.None? then old(Contents()) else old(Contents())[1..]
    {
      var empty := IsEmpty();
      if empty {
        return None;
      }
      StepAround(tail, data.Length);
      r := Some(data[tail]);
      assert tail < head ==> data[tail..head][1..] == data[tail + 1..head];
      assert tail > head ==> (data[tail..] + data[..head])[1..] == data[tail + 1..] + data[..head];
      tail := Rem(tail + 1, data.Length);
    }

    /** Any sequence of operations answers as a bounded queue with one slot less than the array. */
    method Replay(ops: seq<Op<T>>) returns (replies: seq<Reply<T>>)
      requires Valid()
      modifies this`head, this`tail, data
      ensures Valid()
      ensures replies == QueueReplies(old(Contents()), ops, data.Length - 1)
      ensures Contents() == QueueAfter(old(Contents()), ops, data.Length - 1)
    {
      replies := [];
      ghost var capacity := data.Length - 1;
      ghost var all, end := QueueReplies(Contents(), ops, capacity), QueueAfter(Contents(), ops, capacity);
      assert ops[0..] == ops;
      for i := 0 to |ops|
        invariant Valid()
        invariant replies + QueueReplies(Contents(), ops[i..], capacity) == all
        invariant QueueAfter(Contents(), ops[i..], capacity) == end
      {
        FirstReply(Contents(), ops, i, capacity);
        var reply := Perform(ops[i]);
        ghost var later := QueueReplies(Contents(), ops[i + 1..], capacity);
        assert replies + ([reply] + later) == all;
        Regroup(replies, reply, later);
        replies := replies + [reply];
      }
      assert ops[|ops|..] == [] && replies + [] == replies;
    }

    method Perform(op: Op<T>) returns (reply: Reply<T>)
      requires Valid()
      modifies this`head, this`tail, data
      ensures Valid()
      ensures reply == QueueStep(old(Contents()), op, data.Length - 1).0
      ensures Contents() == QueueStep(old(Contents()), op, data.Length - 1).1
    {
      match op {
        case Push(x) =>
          var ok := Push(x);
          reply := Pushed(ok);
        case Pop =>
          var r := Pop();
          reply := Popped(r);
      }
    }
  }

  lemma Regroup<A>(a: seq<A>, x: A, b: seq<A>)
    ensures a + ([x] + b) == (a + [x]) + b
  {
  }

  /** The doubled remainder is the distance from tail to head around the buffer. */
  lemma WrappedDifference(head: int, tail: int, n: int)
    requires 0 <= head < n && 0 <= tail < n
    ensures Rem(Rem(head - tail, n) + n, n) == if tail <= head then head - tail else head - tail + n
  {
    if tail <= head {
      SmallRemainder(head - tail, n);
    } else {
      SmallRemainder(tail - head, n);
      SmallRemainder(head - tail + n, n);
    }
  }

  lemma StepAround(a: int, n: int)
    requires 0 <= a < n
    ensures Rem(a + 1, n) == if a + 1 == n then 0 else a + 1
  {
  }

  lemma SmallRemainder(r: int, n: int)
    requires 0 <= r < n
    ensures r % n == r && (r + n) % n == r
  {
  }

  // ----- the bounded queue that the buffer implements -----

  datatype Op<T> = Push(x: T) | Pop

  datatype Reply<T> = Pushed(ok: bool) | Popped(got: Option<T>)

  function QueueStep<T>(q: seq<T>, op: Op<T>, capacity: nat): (Reply<T>, seq<T>) {
    match op
    case Push(x) => if |q| < capacity then (Pushed(true), q + [x]) else (Pushed(false), q)
    case Pop => if q == [] then (Popped(None), q) else (Popped(Some(q[0])), q[1..])
  }

  function QueueReplies<T>(q: seq<T>, ops: seq<Op<T>>, capacity: nat): seq<Reply<T>>
    decreases |ops|
  {
    if ops == [] then [] else
    [QueueStep(q, ops[0], capacity).0] + QueueReplies(QueueStep(q, ops[0], capacity).1, ops[1..], capacity)
  }

  function QueueAfter<T>(q: seq<T>, ops: seq<Op<T>>, capacity: nat): seq<T>
    decreases |ops|
  {
    if ops == [] then q else QueueAfter(QueueStep(q, ops[0], capacity).1, ops[1..], capacity)
  }

  lemma FirstReply<T>(q: seq<T>, ops: seq<Op<T>>, i: nat, capacity: nat)
    requires i < |ops|
    ensures var step := QueueStep(q, ops[i], capacity);
            && QueueReplies(q, ops[i..], capacity) == [step.0] + QueueReplies(step.1, ops[i + 1..], capacity)
            && QueueAfter(q, ops[i..], capacity) == QueueAfter(step.1, ops[i + 1..], capacity)
  {
    assert ops[i..][0] == ops[i] && ops[i..][1..] == ops[i + 1..];
  }

  /** The item of a push that succeeded. */
  function AcceptedBy<T>(op: Op<T>, reply: Reply<T>): seq<T> {
    if op.Push? && reply == Pushed(true) then [op.x] else []
  }

  /** The item that a pop returned. */
  function TakenBy<T>(reply: Reply<T>): seq<T> {
    if reply.Popped? && reply.got.Some? then [reply.got.value] else []
  }

  function Accepted<T>(ops: seq<Op<T>>, replies: seq<Reply<T>>): seq<T>
    requires |ops| == |replies|
  {
    if ops == [] then [] else AcceptedBy(ops[0], replies[0]) + Accepted(ops[1..], replies[1..])
  }

  function Taken<T>(replies: seq<Reply<T>>): seq<T> {
    if replies == [] then [] else TakenBy(replies[0]) + Taken(replies[1..])
  }

  lemma StepConserves<T>(q: seq<T>, op: Op<T>, capacity: nat)
    ensures var step := QueueStep(q, op, capacity);
            q + AcceptedBy(op, step.0) == TakenBy(step.0) + step.1
  {
  }

  lemma Swap<T>(q: seq<T>, a: seq<T>, b: seq<T>, t: seq<T>, r: seq<T>, u: seq<T>, end: seq<T>)
    requires q + a == t + r && r + b == u + end
    ensures q + (a + b) == (t + u) + end
  {
    assert q + (a + b) == (q + a) + b == t + (r + b);
  }

  /** What was queued and what was accepted is what was taken, in the same order, and what is left. */
  lemma {:induction false} NothingLostOrReordered<T>(q: seq<T>, ops: seq<Op<T>>, capacity: nat)
    ensures var replies := QueueReplies(q, ops, capacity);
            && |replies| == |ops|
            && q + Accepted(ops, replies) == Taken(replies) + QueueAfter(q, ops, capacity)
    decreases |ops|
  {
    if ops != [] {
      var step := QueueStep(q, ops[0], capacity);
      NothingLostOrReordered(step.1, ops[1..], capacity);
      StepConserves(q, ops[0], capacity);
      var later := QueueReplies(step.1, ops[1..], capacity);
      assert QueueReplies(q, ops, capacity)[1..] == later;
      Swap(q, AcceptedBy(ops[0], step.0), Accepted(ops[1..], later), TakenBy(step.0), step.1, Taken(later),
        QueueAfter(step.1, ops[1..], capacity));
    }
  }
}
