/** The four bounded queues of ios_thread_pool.c, one circular array per priority,
    against four first-in first-out sequences.
  */
module WorkQueues {

  datatype Slot = Null | Work(id: nat)

  const LOW: nat := 0
  const URGENT: nat := 3
  const LEVELS: nat := 4

  /** The count slots from head on, around the end of the array. */
  ghost function Queued(a: seq<Slot>, head: nat, count: nat): seq<Slot> {
    if count == 0 || count > |a| || head >= |a| then []
    else if head + count <= |a| then a[head..head + count]
    else a[head..] + a[..head + count - |a|]
  }

  function Next(i: nat, n: nat): nat
    requires n > 0
  {
    (i + 1) % n
  }

  ghost predicate InRing(a: seq<Slot>, head: nat, tail: nat, count: nat) {
    && count <= |a|
    && (|a| > 0 ==> head < |a| && tail == if head + count < |a| then head + count else head + count - |a|)
  }

  lemma NextIs(i: nat, n: nat)
    requires i < n
    ensures Next(i, n) == if i + 1 < n then i + 1 else 0
  {
  }

  lemma AppendedPlace(a: seq<Slot>, head: nat, tail: nat, count: nat)
    requires InRing(a, head, tail, count) && count < |a|
    ensures tail < |a| && InRing(a, head, Next(tail, |a|), count + 1)
  {
    NextIs(tail, |a|);
  }

  lemma AppendedQueue(a: seq<Slot>, head: nat, tail: nat, count: nat, x: Slot)
    requires InRing(a, head, tail, count) && count < |a| && tail < |a|
    ensures Queued(a[tail := x], head, count + 1) == Queued(a, head, count) + [x]
  {
    var b := a[tail := x];
    if head + count + 1 <= |a| {
      assert b[head..head + count] == a[head..head + count];
      assert b[head..head + count + 1] == b[head..head + count] + [x];
    } else if head + count == |a| {
      assert b[head..] == a[head..head + count] && b[..1] == [x];
    } else {
      assert b[head..] == a[head..];
      assert b[..tail] == a[..tail] && b[..tail + 1] == b[..tail] + [x];
    }
  }

  /** Storing at the tail appends. */
  lemma Appended(a: seq<Slot>, head: nat, tail: nat, count: nat, x: Slot)
    requires InRing(a, head, tail, count) && count < |a|
    ensures tail < |a| && InRing(a[tail := x], head, Next(tail, |a|), count + 1)
    ensures Queued(a[tail := x], head, count + 1) == Queued(a, head, count) + [x]
  {
    AppendedPlace(a, head, tail, count);
    AppendedQueue(a, head, tail, count, x);
    hide Queued, Next;
  }

  lemma DroppedPlace(a: seq<Slot>, head: nat, tail: nat, count: nat)
    requires InRing(a, head, tail, count) && 0 < count
    ensures InRing(a, Next(head, |a|), tail, count - 1)
  {
    NextIs(head, |a|);
  }

  lemma DroppedFlat(a: seq<Slot>, head: nat, count: nat)
    requires 0 < count && head + count <= |a|
    ensures a[head..head + count] == [a[head]] + a[head := Null][head + 1..head + count]
  {
  }

  lemma DroppedWrap(a: seq<Slot>, head: nat, n: nat)
    requires n <= head < |a|
    ensures a[head..] + a[..n] == [a[head]] + (a[head := Null][head + 1..] + a[head := Null][..n])
  {
    assert a[head..] == [a[head]] + a[head + 1..];
    assert a[head := Null][head + 1..] == a[head + 1..] && a[head := Null][..n] == a[..n];
  }

  lemma DroppedQueue(a: seq<Slot>, head: nat, next: nat, count: nat)
    requires head < |a| && 0 < count <= |a| && next == if head + 1 < |a| then head + 1 else 0
    ensures Queued(a, head, count) == [a[head]] + Queued(a[head := Null], next, count - 1)
  {
    if head + count <= |a| {
      DroppedFlat(a, head, count);
    } else {
      DroppedWrap(a, head, head + count - |a|);
      assert head + 1 == |a| ==> a[head := Null][head + 1..] == [];
    }
  }

  /** Clearing the head slot and moving the head drops the oldest. */
  lemma Dropped(a: seq<Slot>, head: nat, tail: nat, count: nat)
    requires InRing(a, head, tail, count) && 0 < count
    ensures InRing(a[head := Null], Next(head, |a|), tail, count - 1)
    ensures Queued(a, head, count) == [a[head]] + Queued(a[head := Null], Next(head, |a|), count - 1)
  {
    DroppedPlace(a, head, tail, count);
    NextIs(head, |a|);
    DroppedQueue(a, head, Next(head, |a|), count);
    hide Queued, Next;
  }

  // --------------------------------------------------------- a queue as a value

  /** One priority's array, positions and count. */
  datatype Queue = Queue(slots: seq<Slot>, head: nat, tail: nat, count: nat)

  /** What a queue holds, oldest first. */
  ghost function Contents(q: Queue): seq<Slot> {
    Queued(q.slots, q.head, q.count)
  }

  /** The positions fit, and no slot in use is a null pointer. */
  ghost predicate Sound(q: Queue) {
    InRing(q.slots, q.head, q.tail, q.count) && Null !in Contents(q) && |Contents(q)| == q.count
  }

  /** The part of enqueue_work behind the test for a full queue. */
  ghost function Pushed(q: Queue, x: Slot): Queue {
    if q.tail >= |q.slots| then q
    else Queue(q.slots[q.tail := x], q.head, Next(q.tail, |q.slots|), q.count + 1)
  }

  /** The part of dequeue_work for a queue that is not empty: the queue afterwards, and
      the slot at its head. */
  ghost function Popped(q: Queue): (Queue, Slot) {
    if q.head >= |q.slots| || q.count == 0 then (q, Null)
    else (Queue(q.slots[q.head := Null], Next(q.head, |q.slots|), q.tail, q.count - 1), q.slots[q.head])
  }

  /** The loop of dequeue_work: the highest priority below n whose count is not 0, or -1. */
  ghost function Highest(qs: seq<Queue>, n: nat): (p: int)
    requires n <= |qs|
    ensures -1 <= p < n && (p >= 0 ==> qs[p].count > 0)
    ensures forall q :: p < q < n ==> qs[q].count == 0
    decreases n
  {
    if n == 0 then -1 else if qs[n - 1].count > 0 then n - 1 else Highest(qs, n - 1)
  }

  lemma SoundCount(q: Queue)
    requires Sound(q)
    ensures |Contents(q)| == q.count <= |q.slots|
  {
  }

  lemma NothingIn(slots: seq<Slot>)
    ensures Sound(Queue(slots, 0, 0, 0)) && Contents(Queue(slots, 0, 0, 0)) == []
  {
  }

  /** Pushing appends, wherever the positions are. */
  lemma PushedAppends(q: Queue, x: Slot)
    requires Sound(q) && q.count < |q.slots| && x.Work?
    ensures var q' := Pushed(q, x);
            q.tail < |q.slots| && Sound(q') && |q'.slots| == |q.slots| && Contents(q') == Contents(q) + [x]
  {
    Appended(q.slots, q.head, q.tail, q.count, x);
    hide Queued, Next;
  }

  /** Popping takes the oldest. */
  lemma PoppedOldest(q: Queue)
    requires Sound(q) && q.count > 0
    ensures var (q', x) := Popped(q);
            q.head < |q.slots| && Sound(q') && |q'.slots| == |q.slots| && x.Work? && Contents(q) == [x] + Contents(q')
  {
    Dropped(q.slots, q.head, q.tail, q.count);
    hide Queued, Next;
    assert Contents(q)[0] == q.slots[q.head];
  }

  // ------------------------------------------------------------------- in place

  class WorkQueues {
    const queues: seq<array<Slot>>
    var head: seq<nat>
    var tail: seq<nat>
    var count: seq<nat>

    ghost predicate Shaped()
      reads this
    {
      && |queues| == |head| == |tail| == |count| == LEVELS
      && forall p, q :: 0 <= p < q < LEVELS ==> queues[p] != queues[q]
    }

    /** The queue of priority p. */
    ghost function Value(p: nat): Queue
      reads this, queues
      requires Shaped() && p < LEVELS
    {
      Queue(queues[p][..], head[p], tail[p], count[p])
    }

    ghost function Values(): (qs: seq<Queue>)
      reads this, queues
      requires Shaped()
      ensures |qs| == LEVELS && forall p :: 0 <= p < LEVELS ==> qs[p] == Value(p)
    {
      [Value(0), Value(1), Value(2), Value(3)]
    }

    ghost predicate Valid()
      reads this, queues
    {
      Shaped() && forall p :: 0 <= p < LEVELS ==> Sound(Value(p))
    }

    /** Capacities: an eighth, a half, a quarter and an eighth of the whole. */
    constructor (maxQueueSize: nat)
      ensures Valid() && fresh(queues)
      ensures forall p :: 0 <= p < LEVELS ==> Contents(Value(p)) == []
      ensures queues[0].Length == maxQueueSize / 8 && queues[1].Length == maxQueueSize / 2
      ensures queues[2].Length == maxQueueSize / 4 && queues[3].Length == maxQueueSize / 8
    {
      var low := new Slot[maxQueueSize / 8](_ => Null);
      var normal := new Slot[maxQueueSize / 2](_ => Null);
      var high := new Slot[maxQueueSize / 4](_ => Null);
      var urgent := new Slot[maxQueueSize / 8](_ => Null);
      queues := [low, normal, high, urgent];
      head, tail, count := [0, 0, 0, 0], [0, 0, 0, 0], [0, 0, 0, 0];
      new;
      hide Sound, Contents;
      forall p | 0 <= p < LEVELS ensures Sound(Value(p)) && Contents(Value(p)) == [] {
        NothingIn(queues[p][..]);
      }
    }

    /** The part of enqueue_work behind the test for a full queue. */
    method Push(p: nat, item: Slot)
      requires Valid() && p < LEVELS && item.Work? && count[p] < queues[p].Length
      modifies this, queues[p]
      ensures Shaped() && Values() == old(Values())[p := Pushed(old(Value(p)), item)]
    {
      PushedAppends(Value(p), item);
      hide Contents, Sound, Next;
      ghost var vs := Values();
      ghost var a := queues[p][..];
      var t := tail[p];
      queues[p][t] := item;
      assert queues[p][..] == a[t := item];
      tail := tail[p := Next(t, queues[p].Length)];
      count := count[p := count[p] + 1];
      assert Value(p) == Pushed(vs[p], item);
      assert forall q :: 0 <= q < LEVELS && q != p ==> Value(q) == vs[q];
    }

    /** enqueue_work: refused exactly when that priority's queue is full, and otherwise
        appended to that queue alone. */
    method Enqueue(p: nat, item: Slot) returns (ok: bool)
      requires Valid() && p < LEVELS && item.Work?
      modifies this, queues[p]
      ensures Valid() && (ok <==> |old(Contents(Value(p)))| < queues[p].Length)
      ensures Values() == if ok then old(Values())[p := Pushed(old(Value(p)), item)] else old(Values())
      ensures Contents(Value(p)) == if ok then old(Contents(Value(p))) + [item] else old(Contents(Value(p)))
    {
      SoundCount(Value(p));
      hide Contents, Sound, Pushed;
      ok := count[p] < queues[p].Length;
      if ok {
        PushedAppends(Value(p), item);
        ghost var vs := Values();
        Push(p, item);
        assert forall q :: 0 <= q < LEVELS ==> Value(q) == Values()[q];
        assert forall q :: 0 <= q < LEVELS && q != p ==> Values()[q] == vs[q];
      }
    }

    /** dequeue_work: the oldest item of the highest priority that has one. */
    method Dequeue() returns (item: Slot)
      requires Valid()
      modifies this, queues
      ensures Valid()
      ensures var p := Highest(old(Values()), LEVELS);
              if p < 0 then item == Null && Values() == old(Values())
              else item.Work? && (old(Values())[p := Popped(old(Value(p))).0], Popped(old(Value(p))).1) == (Values(), item)
                   && old(Contents(Value(p))) == [item] + Contents(Value(p))
    {
      hide Contents, Popped;
      var p: int := URGENT;
      while p >= LOW
        invariant -1 <= p < LEVELS
        invariant Valid() && Values() == old(Values())
        invariant Highest(old(Values()), LEVELS) == Highest(old(Values()), p + 1)
      {
        if count[p] > 0 {
          item := TakeOldest(p);
          return;
        }
        p := p - 1;
      }
      item := Null;
    }

    /** The part of dequeue_work for a queue that is not empty. */
    method TakeOldest(p: nat) returns (item: Slot)
      requires Valid() && p < LEVELS && count[p] > 0
      modifies this, queues[p]
      ensures Valid() && item.Work? && (Value(p), item) == Popped(old(Value(p)))
      ensures Values() == old(Values())[p := Value(p)]
      ensures old(Contents(Value(p))) == [item] + Contents(Value(p))
    {
      hide Contents, Sound, Popped;
      PoppedOldest(Value(p));
      ghost var vs := Values();
      item := Pop(p);
      assert forall q :: 0 <= q < LEVELS ==> Value(q) == Values()[q];
      assert forall q :: 0 <= q < LEVELS && q != p ==> Values()[q] == vs[q];
    }

    method Pop(p: nat) returns (item: Slot)
      requires Valid() && p < LEVELS && count[p] > 0
      modifies this, queues[p]
      ensures Shaped() && Values() == old(Values())[p := Popped(old(Value(p))).0] && item == Popped(old(Value(p))).1
    {
      PoppedOldest(Value(p));
      hide Contents, Sound, Next;
      ghost var vs := Values();
      ghost var a := queues[p][..];
      var h := head[p];
      item := queues[p][h];
      queues[p][h] := Null;
      assert queues[p][..] == a[h := Null];
      head := head[p := Next(h, queues[p].Length)];
      count := count[p := count[p] - 1];
      assert (Value(p), item) == Popped(vs[p]);
      assert forall q :: 0 <= q < LEVELS && q != p ==> Value(q) == vs[q];
    }
  }
}
