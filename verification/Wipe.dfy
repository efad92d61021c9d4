/** The zeroing loop of libutil/wipefs.cpp over the extents of an extent manager.

    Offsets are off_t, lengths are size_t: a length that would be negative wraps
    to a value near 2^64.
  */
module Wipe {
  import opened Extents

  /** wipefs_roundup, as used on non-negative values. */
  function RoundUp(x: int, size: nat): int
    requires size > 0
  {
    (x + size - 1) / size * size
  }

  /** The native blocks around [offset, offset + bytes). */
  function HullStart(offset: int, native: nat): int
    requires native > 0
  {
    offset / native * native
  }

  function HullEnd(offset: int, bytes: int, native: nat): int
    requires native > 0
  {
    RoundUp(offset + bytes, native)
  }

  /** What the loop body computes for one extent: where to start writing zeros and
      how many, cut off at the end of the volume. */
  function Span(offset: nat, bytes: nat, native: nat, totalBytes: nat): (int, int)
    requires native > 0
  {
    var aligned := offset % native != 0 || bytes % native != 0;
    var start := if aligned then offset / native * native else offset;
    var length := if aligned then RoundUp(offset + bytes, native) - start else bytes;
    if start + length > totalBytes then
      (start, if start <= totalBytes then totalBytes - start else totalBytes - start + TWO_64)
    else (start, length)
  }

  lemma Multiple(x: int, size: nat)
    requires size > 0
    ensures x % size == 0 ==> x / size * size == x && RoundUp(x, size) == x
    ensures x / size * size <= x <= RoundUp(x, size)
  {
    DivideBounds(x, size);
    DivideBounds(x + size - 1, size);
    var q := (x + size - 1) / size;
    assert (q + 1) * size == q * size + size;
    if x % size == 0 {
      assert x == x / size * size;
      assert (x / size + 1) * size == x / size * size + size;
      QuotientIs(x + size - 1, size, x / size);
    }
  }

  lemma SumMultiple(x: int, y: int, size: nat)
    requires size > 0 && x % size == 0 && y % size == 0
    ensures (x + y) % size == 0
  {
    assert x == x / size * size && y == y / size * size;
    assert x + y == (x / size + y / size) * size;
    MultipleMod(x / size + y / size, size);
  }

  lemma MultipleMod(q: int, size: nat)
    requires size > 0
    ensures q * size % size == 0
  {
    assert (q + 1) * size == q * size + size;
    QuotientIs(q * size, size, q);
  }

  lemma StartNotNegative(offset: nat, native: nat)
    requires native > 0
    ensures 0 <= offset / native * native
  {
    DivideMonotone(0, offset, native);
    ScaleMonotone(0, offset / native, native);
  }

  /** The hull is the smallest stretch of whole native blocks around the bytes. */
  lemma HullIsTight(offset: nat, bytes: nat, native: nat)
    requires native > 0
    ensures HullStart(offset, native) % native == 0 && HullEnd(offset, bytes, native) % native == 0
    ensures HullStart(offset, native) <= offset < HullStart(offset, native) + native
    ensures offset + bytes <= HullEnd(offset, bytes, native) < offset + bytes + native
  {
    var x := offset + bytes + native - 1;
    MultipleMod(offset / native, native);
    MultipleMod(x / native, native);
    DivideBounds(offset, native);
    DivideBounds(x, native);
    assert (offset / native + 1) * native == offset / native * native + native;
    assert (x / native + 1) * native == x / native * native + native;
  }

  /** The bytes written for an extent run from the start of its hull to the end of
      its hull or of the volume, provided the hull starts within the volume. */
  lemma SpanIsHull(offset: nat, bytes: nat, native: nat, totalBytes: nat)
    requires native > 0
    ensures var (start, length) := Span(offset, bytes, native, totalBytes);
            && start == HullStart(offset, native)
            && 0 <= start <= offset && offset + bytes <= HullEnd(offset, bytes, native)
            && (start <= totalBytes ==>
                  var end := HullEnd(offset, bytes, native);
                  start + length == if end > totalBytes then totalBytes else end)
            && (start > totalBytes ==> length == totalBytes - start + TWO_64)
  {
    Multiple(offset, native);
    Multiple(offset + bytes, native);
    StartNotNegative(offset, native);
    if offset % native == 0 && bytes % native == 0 {
      SumMultiple(offset, bytes, native);
    }
    hide RoundUp;
  }

  /** Writing an extent stays below the end of the volume exactly when its hull
      starts there: past the end, the remaining length wraps around. */
  lemma SpanStaysInside(offset: nat, bytes: nat, native: nat, totalBytes: nat)
    requires native > 0 && totalBytes < TWO_63
    ensures var (start, length) := Span(offset, bytes, native, totalBytes);
            start + length <= totalBytes <==> HullStart(offset, native) <= totalBytes
  {
    SpanIsHull(offset, bytes, native, totalBytes);
  }

  /** A volume of 1000 bytes in blocks of 4096: the closing sentry extent, at block
      1, asks for nearly 2^64 bytes of zeros from byte 4096. */
  lemma SentryWraps()
    ensures Span(1 * 4096, 0 * 4096, 512, 1000) == (4096, 1000 - 4096 + TWO_64)
  {
  }

  /** When the block size divides the volume, every extent of a valid list starts
      within it. */
  lemma DivisibleStartsInside(e: Extent, blockSize: nat, native: nat, totalBytes: nat)
    requires blockSize > 0 && native > 0 && totalBytes % blockSize == 0
    requires 0 <= e.addr && 0 <= e.num && e.End() <= (totalBytes + blockSize - 1) / blockSize
    ensures HullStart(e.addr * blockSize, native) <= totalBytes
  {
    Multiple(totalBytes, blockSize);
    ScaleMonotone(e.addr, (totalBytes + blockSize - 1) / blockSize, blockSize);
    Multiple(e.addr * blockSize, native);
  }

  // ---------------------------------------------------------------- the device

  /** Bytes change only in [from, to), and only to zero; a file that grows gets zeros, up
      to `to` at most. */
  ghost predicate Zeroed(was: seq<int>, now: seq<int>, from: int, to: int) {
    && |was| <= |now| && (|was| < |now| ==> from < |now| <= to)
    && (forall x :: 0 <= x < |was| && now[x] != was[x] ==> from <= x < to && now[x] == 0)
    && forall x :: |was| <= x < |now| ==> now[x] == 0
  }

  ghost predicate AllZero(s: seq<int>, from: int, to: int) {
    from < to ==> to <= |s| && forall x :: 0 <= x < |s| && from <= x < to ==> s[x] == 0
  }

  function Zeros(n: nat): (z: seq<int>)
    ensures |z| == n && forall i :: 0 <= i < n ==> z[i] == 0
  {
    seq(n, _ => 0)
  }

  /** What is written to, and how its writes behave: a device has a fixed size, a regular
      file grows; goodWrites of them succeed, and one that fails may still have stored its
      first bytes. */
  class Device {
    var bytes: seq<int>
    var goodWrites: nat
    const partial: nat
    const grows: bool

    constructor (b: seq<int>, good: nat, p: nat, regular: bool)
      ensures bytes == b && goodWrites == good && partial == p && grows == regular
    {
      bytes, goodWrites, partial, grows := b, good, p, regular;
    }

    /** pwrite of n zero bytes: ok only if all of them were stored.  Past the end of a file
        the gap reads as zeros. */
    method WriteZeros(offset: nat, n: nat) returns (ok: bool)
      modifies this
      ensures Zeroed(old(bytes), bytes, offset, offset + n) && (!grows ==> |bytes| == |old(bytes)|)
      ensures ok ==> AllZero(bytes, offset, offset + n)
    {
      ok := goodWrites > 0 && (grows || offset + n <= |bytes|);
      var len := if ok || n < partial then n else partial;
      if grows && len > 0 && |bytes| < offset + len {
        bytes := bytes + Zeros(offset + len - |bytes|);
      }
      if offset < |bytes| {
        var end := if offset + len <= |bytes| then offset + len else |bytes|;
        bytes := bytes[..offset] + Zeros(end - offset) + bytes[end..];
      }
      if goodWrites > 0 {
        goodWrites := goodWrites - 1;
      }
    }

    /** The inner loop: [start, start + length) in pieces of at most bufSize. */
    method ZeroSpan(start: nat, length: nat, bufSize: nat) returns (ok: bool)
      requires bufSize > 0
      modifies this
      ensures Zeroed(old(bytes), bytes, start, start + length) && (!grows ==> |bytes| == |old(bytes)|)
      ensures ok ==> AllZero(bytes, start, start + length)
    {
      var byteOffset, numBytes := start, length;
      ok := true;
      while numBytes > 0
        invariant byteOffset + numBytes == start + length && start <= byteOffset && numBytes >= 0
        invariant Zeroed(old(bytes), bytes, start, byteOffset) && AllZero(bytes, start, byteOffset)
        invariant !grows ==> |bytes| == |old(bytes)|
      {
        var numBytesToWrite := if numBytes < bufSize then numBytes else bufSize;
        ghost var before := bytes;
        ok := WriteZeros(byteOffset, numBytesToWrite);
        ZeroedTwice(old(bytes), before, bytes, start, byteOffset, byteOffset + numBytesToWrite);
        if !ok {
          return;
        }
        numBytes := numBytes - numBytesToWrite;
        byteOffset := byteOffset + numBytesToWrite;
      }
    }
  }

  lemma ZeroedTwice(a: seq<int>, b: seq<int>, c: seq<int>, from: int, mid: int, to: int)
    requires Zeroed(a, b, from, mid) && Zeroed(b, c, mid, to) && from <= mid <= to
    ensures Zeroed(a, c, from, to)
    ensures AllZero(b, from, mid) ==> AllZero(c, from, mid)
  {
  }

  // ------------------------------------------------------------- all the extents

  /** What the outer loop works through. */
  datatype Job = Job(extents: seq<Extent>, blockSize: nat, native: nat, totalBytes: nat) {
    ghost predicate Valid() {
      && 0 < blockSize < TWO_32 && native > 0 && totalBytes < TWO_63
      && InBounds(extents, (totalBytes + blockSize - 1) / blockSize)
    }

    function Offset(i: nat): nat
      requires i < |extents| && extents[i].addr >= 0
    {
      ScaleMonotone(0, extents[i].addr, blockSize);
      extents[i].addr * blockSize
    }

    function Bytes(i: nat): nat
      requires i < |extents| && extents[i].num >= 0
    {
      ScaleMonotone(0, extents[i].num, blockSize);
      extents[i].num * blockSize
    }

    ghost predicate InSpan(i: nat, x: int)
      requires Valid() && i < |extents|
    {
      var (start, length) := Span(Offset(i), Bytes(i), native, totalBytes);
      start <= x < start + length
    }

    ghost predicate InHull(i: nat, x: int)
      requires Valid() && i < |extents|
    {
      HullStart(Offset(i), native) <= x < HullEnd(Offset(i), Bytes(i), native)
    }

    /** Every hull starts within the volume. */
    ghost predicate StartsInside()
      requires Valid()
    {
      forall i :: 0 <= i < |extents| ==> HullStart(Offset(i), native) <= totalBytes
    }
  }

  ghost predicate Spanned(j: Job, n: nat, x: int)
    requires j.Valid() && n <= |j.extents|
  {
    exists i :: 0 <= i < n && j.InSpan(i, x)
  }

  /** Only bytes of the first n spans changed, and only to zero; what was added at the end
      is zero and ends in one of those spans. */
  ghost predicate OnlySpans(was: seq<int>, now: seq<int>, j: Job, n: nat)
    requires j.Valid() && n <= |j.extents|
  {
    && |was| <= |now| && (forall x :: |was| <= x < |now| ==> now[x] == 0)
    && (|was| < |now| ==> Spanned(j, n, |now| - 1))
    && forall x :: 0 <= x < |was| && now[x] != was[x] ==> now[x] == 0 && Spanned(j, n, x)
  }

  /** Every byte of the first n spans is zero. */
  ghost predicate SpansZero(now: seq<int>, j: Job, n: nat)
    requires j.Valid() && n <= |j.extents|
  {
    forall i, x :: 0 <= i < n && j.InSpan(i, x) ==> 0 <= x < |now| && now[x] == 0
  }

  lemma SpannedMore(j: Job, n: nat, m: nat, x: int)
    requires j.Valid() && n <= m <= |j.extents| && Spanned(j, n, x)
    ensures Spanned(j, m, x)
  {
    var i :| 0 <= i < n && j.InSpan(i, x);
    assert 0 <= i < m && j.InSpan(i, x);
  }

  lemma SpannedLast(j: Job, n: nat, x: int, start: int, length: int)
    requires j.Valid() && n < |j.extents| && (start, length) == Span(j.Offset(n), j.Bytes(n), j.native, j.totalBytes)
    requires start <= x < start + length
    ensures Spanned(j, n + 1, x)
  {
    assert j.InSpan(n, x);
  }

  /** One more extent, whether all of its span was written or only part. */
  lemma NextSpan(was: seq<int>, before: seq<int>, now: seq<int>, j: Job, n: nat, start: int, length: int)
    requires j.Valid() && n < |j.extents| && OnlySpans(was, before, j, n)
    requires (start, length) == Span(j.Offset(n), j.Bytes(n), j.native, j.totalBytes)
    requires Zeroed(before, now, start, start + length)
    ensures OnlySpans(was, now, j, n + 1)
  {
    hide Spanned, Span;
    forall x | 0 <= x < |was| && now[x] != was[x] ensures now[x] == 0 && Spanned(j, n + 1, x) {
      if now[x] != before[x] {
        SpannedLast(j, n, x, start, length);
      } else {
        SpannedMore(j, n, n + 1, x);
      }
    }
    if |before| < |now| {
      SpannedLast(j, n, |now| - 1, start, length);
    } else if |was| < |now| {
      SpannedMore(j, n, n + 1, |now| - 1);
    }
  }

  lemma MoreSpans(was: seq<int>, now: seq<int>, j: Job, n: nat)
    requires j.Valid() && n <= |j.extents| && OnlySpans(was, now, j, n)
    ensures OnlySpans(was, now, j, |j.extents|)
  {
    hide Spanned;
    forall x | 0 <= x < |was| && now[x] != was[x] ensures Spanned(j, |j.extents|, x) {
      SpannedMore(j, n, |j.extents|, x);
    }
    if |was| < |now| {
      SpannedMore(j, n, |j.extents|, |now| - 1);
    }
  }

  lemma NextSpanZero(before: seq<int>, now: seq<int>, j: Job, n: nat, start: int, length: int)
    requires j.Valid() && n < |j.extents| && SpansZero(before, j, n)
    requires (start, length) == Span(j.Offset(n), j.Bytes(n), j.native, j.totalBytes) && 0 <= start
    requires Zeroed(before, now, start, start + length) && AllZero(now, start, start + length)
    ensures SpansZero(now, j, n + 1)
  {
    forall i, x | 0 <= i < n + 1 && j.InSpan(i, x) ensures 0 <= x < |now| && now[x] == 0 {
      if i < n {
        assert before[x] == 0;
      }
    }
  }

  /** A span never starts or runs backwards. */
  lemma SpanForward(offset: nat, bytes: nat, native: nat, totalBytes: nat)
    requires native > 0 && offset - totalBytes <= TWO_64
    ensures var (start, length) := Span(offset, bytes, native, totalBytes); 0 <= start && 0 <= length
  {
    SpanIsHull(offset, bytes, native, totalBytes);
  }

  lemma OffsetBound(j: Job, i: nat)
    requires j.Valid() && i < |j.extents|
    ensures j.Offset(i) < j.totalBytes + j.blockSize
  {
    var n := j.totalBytes + j.blockSize - 1;
    DivideBounds(n, j.blockSize);
    ScaleMonotone(j.extents[i].addr, n / j.blockSize, j.blockSize);
  }

  /** The outer loop: the spans of the extents one after the other, until a write
      fails. */
  method WriteExtents(j: Job, d: Device) returns (err: bool)
    requires j.Valid()
    modifies d
    ensures OnlySpans(old(d.bytes), d.bytes, j, |j.extents|)
    ensures !err ==> SpansZero(d.bytes, j, |j.extents|)
    ensures !d.grows ==> |d.bytes| == |old(d.bytes)|
  {
    var bufSize := if j.native > 128 * 1024 then j.native else 128 * 1024;
    var i := 0;
    err := false;
    assert OnlySpans(old(d.bytes), d.bytes, j, 0) && SpansZero(d.bytes, j, 0);
    hide OnlySpans, SpansZero;
    while i < |j.extents|
      invariant 0 <= i <= |j.extents|
      invariant OnlySpans(old(d.bytes), d.bytes, j, i) && SpansZero(d.bytes, j, i)
      invariant !d.grows ==> |d.bytes| == |old(d.bytes)|
    {
      ghost var before := d.bytes;
      OffsetBound(j, i);
      var (start, length) := Span(j.Offset(i), j.Bytes(i), j.native, j.totalBytes);
      SpanForward(j.Offset(i), j.Bytes(i), j.native, j.totalBytes);
      var ok := d.ZeroSpan(start, length, bufSize);
      NextSpan(old(d.bytes), before, d.bytes, j, i, start, length);
      if !ok {
        MoreSpans(old(d.bytes), d.bytes, j, i + 1);
        err := true;
        return;
      }
      NextSpanZero(before, d.bytes, j, i, start, length);
      i := i + 1;
    }
  }

  // ---------------------------------------------------------------- the promises

  /** When all hulls start inside, a span is the part of a hull inside the volume. */
  lemma SpanInHull(j: Job, i: nat, x: int)
    requires j.Valid() && i < |j.extents| && j.StartsInside() && j.InSpan(i, x)
    ensures j.InHull(i, x) && x < j.totalBytes
  {
    SpanIsHull(j.Offset(i), j.Bytes(i), j.native, j.totalBytes);
  }

  /** A listed byte below the end of the volume is in the span of its extent. */
  lemma ListedInSpan(j: Job, i: nat, x: int)
    requires j.Valid() && i < |j.extents|
    requires 0 <= x < j.totalBytes && Covers(j.extents[i], x / j.blockSize)
    ensures j.InSpan(i, x)
  {
    var e, b := j.extents[i], x / j.blockSize;
    DivideBounds(x, j.blockSize);
    ScaleMonotone(e.addr, b, j.blockSize);
    ScaleMonotone(b + 1, e.End(), j.blockSize);
    assert e.End() * j.blockSize == j.Offset(i) + j.Bytes(i);
    SpanIsHull(j.Offset(i), j.Bytes(i), j.native, j.totalBytes);
  }

  ghost predicate InSomeHull(j: Job, x: int)
    requires j.Valid()
  {
    exists i :: 0 <= i < |j.extents| && j.InHull(i, x)
  }

  lemma SpannedInHull(j: Job, x: int)
    requires j.Valid() && j.StartsInside() && Spanned(j, |j.extents|, x)
    ensures x < j.totalBytes && InSomeHull(j, x)
  {
    var i :| 0 <= i < |j.extents| && j.InSpan(i, x);
    SpanInHull(j, i, x);
    assert j.InHull(i, x);
  }

  /** Every changed byte is in the volume and in a hull, and nothing grew past it. */
  ghost predicate StaysInside(was: seq<int>, now: seq<int>, j: Job)
    requires j.Valid()
  {
    && |was| <= |now| && (|was| < |now| ==> |now| <= j.totalBytes)
    && forall x :: 0 <= x < |was| && now[x] != was[x] ==> x < j.totalBytes && InSomeHull(j, x)
  }

  lemma SpansStayInside(was: seq<int>, now: seq<int>, j: Job)
    requires j.Valid() && j.StartsInside() && OnlySpans(was, now, j, |j.extents|)
    ensures StaysInside(was, now, j)
  {
    hide Spanned, InSomeHull;
    forall x | 0 <= x < |was| && now[x] != was[x] ensures x < j.totalBytes && InSomeHull(j, x) {
      SpannedInHull(j, x);
    }
    if |was| < |now| {
      SpannedInHull(j, |now| - 1);
    }
  }

  /** Every byte of every listed block below the end of the volume is zero. */
  ghost predicate ListedZero(now: seq<int>, j: Job)
    requires j.blockSize > 0
  {
    forall x :: 0 <= x < j.totalBytes && x / j.blockSize in Blocks(j.extents) ==> x < |now| && now[x] == 0
  }

  lemma SpansListedZero(now: seq<int>, j: Job)
    requires j.Valid() && SpansZero(now, j, |j.extents|)
    ensures ListedZero(now, j)
  {
    forall x | 0 <= x < j.totalBytes && x / j.blockSize in Blocks(j.extents) ensures x < |now| && now[x] == 0 {
      var i :| 0 <= i < |j.extents| && Covers(j.extents[i], x / j.blockSize);
      ListedInSpan(j, i, x);
    }
  }

  lemma DivisibleInside(j: Job)
    requires j.Valid() && j.totalBytes % j.blockSize == 0
    ensures j.StartsInside()
  {
    forall i | 0 <= i < |j.extents| ensures HullStart(j.Offset(i), j.native) <= j.totalBytes {
      DivisibleStartsInside(j.extents[i], j.blockSize, j.native, j.totalBytes);
    }
  }

  /** wipefs_wipe.  Whatever the writes do, a byte changes only to zero, what a file grows
      by is zero, and a device keeps its size; if every hull starts within the volume, as it
      does when the block size divides the volume, only bytes of the volume in the
      native-block hull of an extent change, and nothing grows past the volume.  When all
      writes succeed every byte of every listed block is zero. */
  method WipeVolume(m: ExtentManager, d: Device) returns (err: bool)
    requires m.Valid()
    modifies d
    ensures |old(d.bytes)| <= |d.bytes| && (!d.grows ==> |d.bytes| == |old(d.bytes)|)
    ensures forall x :: 0 <= x < |d.bytes| && (x < |old(d.bytes)| ==> d.bytes[x] != old(d.bytes)[x]) ==> d.bytes[x] == 0
    ensures var j := Job(m.extents, m.blockSize, m.nativeBlockSize, m.totalBytes);
            && (j.StartsInside() ==> StaysInside(old(d.bytes), d.bytes, j))
            && (m.totalBytes % m.blockSize == 0 ==> j.StartsInside())
            && (!err ==> ListedZero(d.bytes, j))
  {
    var j := Job(m.extents, m.blockSize, m.nativeBlockSize, m.totalBytes);
    err := WriteExtents(j, d);
    if j.StartsInside() {
      SpansStayInside(old(d.bytes), d.bytes, j);
    }
    if m.totalBytes % m.blockSize == 0 {
      DivisibleInside(j);
    }
    if !err {
      SpansListedZero(d.bytes, j);
    }
    hide StaysInside, ListedZero, SpansZero, Spanned;
  }

  // ------------------------------------------------------------- the closing sentry

  lemma HullStartMonotone(x: int, y: int, native: nat)
    requires x <= y && native > 0
    ensures HullStart(x, native) <= HullStart(y, native)
  {
    DivideMonotone(x, y, native);
    ScaleMonotone(x / native, y / native, native);
  }

  /** With the sentry extent of a new list still in it, everything stays inside exactly
      when the hull of that sentry starts within the volume. */
  lemma SentryDecides(j: Job)
    requires j.Valid() && Extent((j.totalBytes + j.blockSize - 1) / j.blockSize, 0) in j.extents
    ensures j.StartsInside() <==>
              HullStart((j.totalBytes + j.blockSize - 1) / j.blockSize * j.blockSize, j.native) <= j.totalBytes
  {
    var total := (j.totalBytes + j.blockSize - 1) / j.blockSize;
    var k :| 0 <= k < |j.extents| && j.extents[k] == Extent(total, 0);
    assert HullStart(j.Offset(k), j.native) == HullStart(total * j.blockSize, j.native);
    forall i | 0 <= i < |j.extents| ensures HullStart(j.Offset(i), j.native) <= HullStart(total * j.blockSize, j.native) {
      ScaleMonotone(j.extents[i].addr, total, j.blockSize);
      HullStartMonotone(j.Offset(i), total * j.blockSize, j.native);
    }
  }

  /** A new list over 1000 bytes in blocks of 4096 does not stay inside: its closing sentry
      asks for nearly 2^64 bytes of zeros from byte 4096 on. */
  method NewListWraps() returns (m: ExtentManager)
    ensures fresh(m) && m.Valid() && m.totalBytes == 1000
    ensures !Job(m.extents, m.blockSize, m.nativeBlockSize, m.totalBytes).StartsInside()
    ensures Extent(1, 0) in m.extents && Span(1 * m.blockSize, 0, m.nativeBlockSize, m.totalBytes) == (4096, 1000 - 4096 + TWO_64)
  {
    m := new ExtentManager(4096, 512, 1000);
    SentryDecides(Job(m.extents, m.blockSize, m.nativeBlockSize, m.totalBytes));
    SentryWraps();
  }
}
