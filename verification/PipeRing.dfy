/** The ring buffer of ios_buffered_pipe.c: two positions in a fixed array, one
    place always left empty, against the byte sequence it holds.
  */
module PipeRing {

  /** The bytes between head and tail, around the end of the array if need be. */
  ghost function Held(a: seq<int>, head: nat, tail: nat): seq<int>
    requires head < |a| && tail < |a|
  {
    if tail >= head then a[head..tail] else a[head..] + a[..tail]
  }

  /** a with data stored from position at on. */
  ghost function Stored(a: seq<int>, at: nat, data: seq<int>): seq<int>
    requires at + |data| <= |a|
  {
    a[..at] + data + a[at + |data|..]
  }

  // ------------------------------------------------- positions against contents

  lemma Wraps(x: nat, n: nat)
    requires 0 < n && x < 2 * n
    ensures x % n == if x < n then x else x - n
  {
  }

  lemma StoredNext(a: seq<int>, at: nat, data: seq<int>, x: int)
    requires at + |data| < |a|
    ensures Stored(a, at, data + [x]) == Stored(a, at, data)[at + |data| := x]
  {
  }

  lemma StoredNone(a: seq<int>, at: nat)
    requires at <= |a|
    ensures Stored(a, at, []) == a
  {
  }

  lemma StoredFront(a: seq<int>, at: nat, data: seq<int>, from: nat)
    requires from <= at && at + |data| <= |a|
    ensures Stored(a, at, data)[from..at + |data|] == a[from..at] + data
  {
  }

  lemma StoredRest(a: seq<int>, at: nat, data: seq<int>, from: nat)
    requires at + |data| <= from <= |a|
    ensures Stored(a, at, data)[from..] == a[from..]
  {
  }

  lemma WrittenAhead(a: seq<int>, head: nat, tail: nat, data: seq<int>)
    requires head <= tail && tail + |data| < |a|
    ensures Held(Stored(a, tail, data), head, tail + |data|) == Held(a, head, tail) + data
  {
    assert |Stored(a, tail, data)| == |a|;
    hide Stored;
    StoredFront(a, tail, data, head);
  }

  lemma WrittenBehind(a: seq<int>, head: nat, tail: nat, data: seq<int>)
    requires tail + |data| < head < |a|
    ensures Held(Stored(a, tail, data), head, tail + |data|) == Held(a, head, tail) + data
  {
    var b := Stored(a, tail, data);
    assert |b| == |a|;
    hide Stored;
    StoredFront(a, tail, data, 0);
    StoredRest(a, tail, data, head);
    assert b[..tail + |data|] == b[0..tail + |data|] && a[..tail] == a[0..tail];
    assert a[head..] + (a[..tail] + data) == a[head..] + a[..tail] + data;
  }

  /** Short of the end of the array. */
  lemma WrittenFlat(a: seq<int>, head: nat, tail: nat, data: seq<int>)
    requires head < |a| && tail + |data| < |a| && |Held(a, head, tail)| + |data| < |a|
    ensures |Stored(a, tail, data)| == |a|
    ensures Held(Stored(a, tail, data), head, tail + |data|) == Held(a, head, tail) + data
  {
    assert |Stored(a, tail, data)| == |a|;
    HeldBelow(a, head, tail);
    hide Held, Stored;
    if tail >= head {
      WrittenAhead(a, head, tail, data);
    } else {
      WrittenBehind(a, head, tail, data);
    }
  }

  /** Up to the end of the array, and on from its beginning. */
  lemma WrittenWrap(a: seq<int>, head: nat, tail: nat, front: seq<int>, back: seq<int>)
    requires head < |a| && tail < |a| && |Held(a, head, tail)| + |front| + |back| < |a| == tail + |front|
    ensures Held(Stored(Stored(a, tail, front), 0, back), head, |back|) == Held(a, head, tail) + (front + back)
  {
    HeldBelow(a, head, tail);
    assert tail >= head && |back| < head;
    var c := Stored(a, tail, front);
    assert |c| == |a| && |Stored(c, 0, back)| == |a|;
    StoredFront(a, tail, front, head);
    StoredFront(c, 0, back, 0);
    StoredRest(c, 0, back, head);
    hide Stored;
    assert c[head..tail + |front|] == c[head..];
    assert c[0..0] + back == back && Stored(c, 0, back)[0..|back|] == Stored(c, 0, back)[..|back|];
    assert a[head..tail] + (front + back) == a[head..tail] + front + back;
  }

  /** Storing in two parts and moving the tail appends. */
  lemma WrittenHeld(a: seq<int>, head: nat, tail: nat, data: seq<int>, first: nat)
    requires head < |a| && tail < |a| && |Held(a, head, tail)| + |data| < |a| && 0 < |data|
    requires first == if |a| - tail > |data| then |data| else |a| - tail
    ensures var b := Stored(Stored(a, tail, data[..first]), 0, data[first..]);
            |b| == |a| && Held(b, head, (tail + |data|) % |a|) == Held(a, head, tail) + data
  {
    Wraps(tail + |data|, |a|);
    assert |Stored(a, tail, data[..first])| == |a|;
    if tail + |data| < |a| {
      assert data[..first] == data && data[first..] == [];
      StoredNone(Stored(a, tail, data), 0);
      WrittenFlat(a, head, tail, data);
    } else {
      assert data[..first] + data[first..] == data;
      WrittenWrap(a, head, tail, data[..first], data[first..]);
    }
  }

  lemma ReadFlat(a: seq<int>, head: nat, tail: nat, n: nat)
    requires tail < |a| && head + n < |a| && n <= |Held(a, head, tail)|
    ensures Held(a, head, tail) == a[head..head + n] + Held(a, head + n, tail)
  {
    if tail < head {
      assert a[head..] == a[head..head + n] + a[head + n..];
    } else {
      assert a[head..tail] == a[head..head + n] + a[head + n..tail];
    }
  }

  lemma ReadWrap(a: seq<int>, head: nat, tail: nat, m: nat)
    requires head < |a| && tail < |a| && |a| - head + m <= |Held(a, head, tail)|
    ensures m <= tail && Held(a, head, tail) == a[head..] + a[..m] + Held(a, m, tail)
  {
    assert tail < head && a[..tail] == a[..m] + a[m..tail];
  }

  /** What is copied out from head on, and from the beginning of the array. */
  ghost function TwoParts(a: seq<int>, head: nat, first: nat, second: nat): seq<int>
    requires head + first <= |a| && second <= |a|
  {
    a[head..head + first] + a[..second]
  }

  lemma ReadHeldFlat(a: seq<int>, head: nat, tail: nat, n: nat)
    requires tail < |a| && head + n < |a| && n <= |Held(a, head, tail)|
    ensures Held(a, head, tail) == TwoParts(a, head, n, 0) + Held(a, head + n, tail)
  {
    ReadFlat(a, head, tail, n);
    hide Held;
    assert a[head..head + n] + a[..0] == a[head..head + n];
  }

  lemma ReadHeldWrap(a: seq<int>, head: nat, tail: nat, m: nat)
    requires head < |a| && tail < |a| && |a| - head + m <= |Held(a, head, tail)|
    ensures m < |a| && Held(a, head, tail) == TwoParts(a, head, |a| - head, m) + Held(a, m, tail)
  {
    ReadWrap(a, head, tail, m);
    hide Held;
    assert a[head..head + (|a| - head)] == a[head..];
  }

  /** The bytes read are the front of what is held, and moving the head drops them. */
  lemma ReadHeld(a: seq<int>, head: nat, tail: nat, n: nat, first: nat, next: nat)
    requires head < |a| && tail < |a| && 0 < n <= |Held(a, head, tail)|
    requires first == if |a| - head > n then n else |a| - head
    requires next == if head + n < |a| then head + n else head + n - |a|
    ensures n - first <= |a| && next < |a|
    ensures Held(a, head, tail) == TwoParts(a, head, first, n - first) + Held(a, next, tail)
  {
    HeldBelow(a, head, tail);
    hide Held, TwoParts;
    if head + n < |a| {
      ReadHeldFlat(a, head, tail, n);
    } else {
      ReadHeldWrap(a, head, tail, n - first);
    }
  }

  lemma HeldBelow(a: seq<int>, head: nat, tail: nat)
    requires head < |a| && tail < |a|
    ensures |Held(a, head, tail)| == if tail >= head then tail - head else |a| - head + tail
  {
  }

  // ---------------------------------------------------------- the ring as a value

  /** The buffer and the two positions in it. */
  datatype RingValue = RingValue(buffer: seq<int>, head: nat, tail: nat)

  ghost predicate Sound(r: RingValue) {
    r.head < |r.buffer| && r.tail < |r.buffer|
  }

  /** The bytes in a ring, oldest first. */
  ghost function Contents(r: RingValue): seq<int> {
    if Sound(r) then Held(r.buffer, r.head, r.tail) else []
  }

  function Min(x: nat, y: nat): nat {
    if x < y then x else y
  }

  /** ring_buffer_available. */
  ghost function AvailableIn(r: RingValue): nat
    requires Sound(r)
  {
    if r.tail >= r.head then r.tail - r.head else (|r.buffer| - r.head) + r.tail
  }

  /** ring_buffer_space: one place stays empty to tell full from empty. */
  ghost function SpaceIn(r: RingValue): nat
    requires Sound(r)
  {
    |r.buffer| - AvailableIn(r) - 1
  }

  /** The ring after n bytes have been stored at the tail, in two parts around the end
      of the buffer. */
  ghost function Appended(r: RingValue, data: seq<int>): RingValue
    requires Sound(r) && |data| < |r.buffer|
  {
    var first := Min(|r.buffer| - r.tail, |data|);
    var b := Stored(r.buffer, r.tail, data[..first]);
    RingValue(if |data| > first then Stored(b, 0, data[first..]) else b, r.head, (r.tail + |data|) % |r.buffer|)
  }

  /** ring_buffer_write: the ring afterwards, and how much of data went in. */
  ghost function Written(r: RingValue, data: seq<int>): (w: (RingValue, nat))
    ensures w.1 <= |data|
  {
    if !Sound(r) then (r, 0)
    else
      var n := Min(|data|, SpaceIn(r));
      if n == 0 then (r, 0) else (Appended(r, data[..n]), n)
  }

  /** The ring after n bytes have been copied out, in two parts around the end of the
      buffer, and those bytes. */
  ghost function Loaded(r: RingValue, n: nat): (RingValue, seq<int>)
    requires Sound(r) && n < |r.buffer|
  {
    var first := Min(|r.buffer| - r.head, n);
    (RingValue(r.buffer, (r.head + n) % |r.buffer|, r.tail), TwoParts(r.buffer, r.head, first, n - first))
  }

  /** ring_buffer_read: the ring afterwards, and what came out. */
  ghost function Taken(r: RingValue, size: nat): (RingValue, seq<int>) {
    if !Sound(r) then (r, [])
    else
      var n := Min(size, AvailableIn(r));
      if n == 0 then (r, []) else Loaded(r, n)
  }

  lemma ContentsCount(r: RingValue)
    requires Sound(r)
    ensures |Contents(r)| == AvailableIn(r) < |r.buffer| && SpaceIn(r) == |r.buffer| - 1 - |Contents(r)|
  {
  }

  lemma AppendedContents(r: RingValue, data: seq<int>)
    requires Sound(r) && 0 < |data| <= SpaceIn(r)
    ensures var r' := Appended(r, data);
            Sound(r') && |r'.buffer| == |r.buffer| && Contents(r') == Contents(r) + data
  {
    var first := Min(|r.buffer| - r.tail, |data|);
    ContentsCount(r);
    WrittenHeld(r.buffer, r.head, r.tail, data, first);
    var b := Stored(r.buffer, r.tail, data[..first]);
    if |data| == first {
      assert data[first..] == [];
      StoredNone(b, 0);
    }
    hide Stored, Held;
  }

  /** Writing appends as much of data as leaves one place empty, whatever the positions. */
  lemma WrittenAppends(r: RingValue, data: seq<int>)
    requires Sound(r)
    ensures var (r', n) := Written(r, data);
            && Sound(r') && |r'.buffer| == |r.buffer|
            && n == Min(|data|, |r.buffer| - 1 - |Contents(r)|) && Contents(r') == Contents(r) + data[..n]
  {
    ContentsCount(r);
    hide Contents, Appended;
    var n := Min(|data|, SpaceIn(r));
    if n == 0 {
      assert data[..0] == [];
    } else {
      AppendedContents(r, data[..n]);
    }
  }

  lemma PartsCount(buf: seq<int>, head: nat, first: nat, second: nat)
    requires head + first <= |buf| && second <= |buf|
    ensures |TwoParts(buf, head, first, second)| == first + second
  {
  }

  lemma LoadedFront(r: RingValue, n: nat)
    requires Sound(r) && 0 < n <= AvailableIn(r)
    ensures var (r', out) := Loaded(r, n);
            Sound(r') && r'.buffer == r.buffer && |out| == n && Contents(r) == out + Contents(r')
  {
    hide Held;
    ContentsCount(r);
    Wraps(r.head + n, |r.buffer|);
    var first := Min(|r.buffer| - r.head, n);
    PartsCount(r.buffer, r.head, first, n - first);
    hide TwoParts;
    ReadHeld(r.buffer, r.head, r.tail, n, first, (r.head + n) % |r.buffer|);
  }

  /** Reading takes the oldest bytes, as many as asked for or all there are. */
  lemma TakenFront(r: RingValue, size: nat)
    requires Sound(r)
    ensures var (r', out) := Taken(r, size);
            && Sound(r') && r'.buffer == r.buffer
            && |out| == Min(size, |Contents(r)|) && Contents(r) == out + Contents(r')
  {
    ContentsCount(r);
    hide Contents, Loaded;
    var n := Min(size, AvailableIn(r));
    if n > 0 {
      LoadedFront(r, n);
    }
  }

  class Ring {
    const buffer: array<int>
    var head: nat
    var tail: nat

    ghost function Value(): RingValue
      reads this, buffer
    {
      RingValue(buffer[..], head, tail)
    }

    ghost predicate Valid()
      reads this
    {
      head < buffer.Length && tail < buffer.Length
    }

    constructor (capacity: nat)
      requires capacity > 0
      ensures Valid() && fresh(buffer) && buffer.Length == capacity && Contents(Value()) == []
    {
      buffer := new int[capacity];
      head, tail := 0, 0;
    }

    /** ring_buffer_available: the number of bytes held. */
    method Available() returns (n: nat)
      requires Valid()
      ensures n == AvailableIn(Value()) == |Contents(Value())| < buffer.Length
    {
      ContentsCount(Value());
      if tail >= head {
        n := tail - head;
      } else {
        n := (buffer.Length - head) + tail;
      }
    }

    /** memcpy into the buffer. */
    method Store(at: nat, data: seq<int>)
      requires at + |data| <= buffer.Length
      modifies buffer
      ensures buffer[..] == Stored(old(buffer[..]), at, data)
    {
      var i := 0;
      StoredNone(buffer[..], at);
      hide Stored;
      while i < |data|
        invariant 0 <= i <= |data|
        invariant buffer[..] == Stored(old(buffer[..]), at, data[..i])
      {
        ghost var a := buffer[..];
        StoredNext(old(buffer[..]), at, data[..i], data[i]);
        buffer[at + i] := data[i];
        assert buffer[..] == a[at + i := data[i]] && data[..i + 1] == data[..i] + [data[i]];
        i := i + 1;
      }
      assert data[..i] == data;
    }

    /** memcpy into the buffer in two parts, and the new tail. */
    method Append(data: seq<int>)
      requires Valid() && |data| < buffer.Length
      modifies this, buffer
      ensures Valid() && Value() == Appended(old(Value()), data)
    {
      hide Stored;
      var first := buffer.Length - tail;
      if first > |data| {
        first := |data|;
      }
      Store(tail, data[..first]);
      if |data| > first {
        Store(0, data[first..]);
      }
      tail := (tail + |data|) % buffer.Length;
    }

    /** ring_buffer_write: as much of data as fits goes behind what is held. */
    method Write(data: seq<int>) returns (n: nat)
      requires Valid()
      modifies this, buffer
      ensures Valid() && (Value(), n) == Written(old(Value()), data)
      ensures n == Min(|data|, buffer.Length - 1 - |old(Contents(Value()))|)
      ensures Contents(Value()) == old(Contents(Value())) + data[..n]
    {
      WrittenAppends(Value(), data);
      hide Appended, Contents;
      var available := Available();
      var space := buffer.Length - available - 1;
      n := if |data| < space then |data| else space;
      if n > 0 {
        Append(data[..n]);
      }
    }

    /** memcpy out of the buffer in two parts, and the new head. */
    method Load(n: nat) returns (out: seq<int>)
      requires Valid() && n < buffer.Length
      modifies `head
      ensures Valid() && (Value(), out) == Loaded(old(Value()), n)
    {
      var first := buffer.Length - head;
      if first > n {
        first := n;
      }
      ghost var a := buffer[..];
      out := buffer[head..head + first];
      assert out == a[head..head + first];
      if n > first {
        assert a[..n - first] == buffer[..n - first];
        out := out + buffer[..n - first];
      } else {
        assert out + a[..0] == out;
      }
      head := (head + n) % buffer.Length;
    }

    /** ring_buffer_read: the oldest bytes, at most size of them, leave the ring. */
    method Read(size: nat) returns (out: seq<int>)
      requires Valid()
      modifies `head
      ensures Valid() && (Value(), out) == Taken(old(Value()), size)
      ensures |out| == Min(size, |old(Contents(Value()))|) && old(Contents(Value())) == out + Contents(Value())
    {
      TakenFront(Value(), size);
      hide Contents, Loaded;
      var available := Available();
      var n := if size < available then size else available;
      if n == 0 {
        return [];
      }
      out := Load(n);
    }
  }
}
