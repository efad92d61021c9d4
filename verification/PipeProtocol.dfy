/** The calls of ios_buffered_pipe.c as interleaved steps: one writer thread, one
    reader thread, and any number of threads closing either end.

    The two closed flags are stored without the mutex, so they may change between
    any two steps of a call that holds it; the ring may not.  The ring is the buffer
    with its two positions, and a call changes it as PipeRing.Ring does.

    The history is every byte accepted and every byte delivered so far.
  */
module PipeProtocol {
  import opened PipeRing

  datatype Mutex = Free | ByWriter | ByReader

  /** Where a write call stands.  base is the number of bytes accepted before it,
      done how many of its own have been. */
  datatype Writer =
    | WIdle
    | WTestWrite(data: seq<int>, base: nat)                // about to read write_closed
    | WTestRead(data: seq<int>, base: nat)                 // about to read read_closed
    | WLock(data: seq<int>, base: nat)                     // about to lock
    | WLoop(data: seq<int>, base: nat, done: nat)          // top of the loop, mutex held
    | WPut(data: seq<int>, base: nat, done: nat)           // saw the read end open
    | WWaiting(data: seq<int>, base: nat, done: nat, signalled: bool)
    | WDone(data: seq<int>, base: nat, result: int)        // about to return result

  /** Where a read call stands.  base is the number of bytes delivered before it. */
  datatype Reader =
    | RIdle
    | RTest(size: nat, base: nat)                          // about to read read_closed
    | RLock(size: nat, base: nat)
    | RLoop(size: nat, base: nat)                          // top of the loop, mutex held
    | RCheck(size: nat, base: nat)                         // found the ring empty
    | RWaiting(size: nat, base: nat, signalled: bool)
    | RDone(size: nat, base: nat, result: int)

  /** closingWrite and closingRead count the close calls that have stored the flag
      and not yet broadcast. */
  datatype State = State(
    ring: RingValue, mutex: Mutex,
    writeClosed: bool, readClosed: bool, closingWrite: nat, closingRead: nat,
    writer: Writer, reader: Reader,
    totalWritten: nat, totalRead: nat,
    accepted: seq<int>, delivered: seq<int>)

  datatype Wake = Signalled | Spurious | TimedOut

  datatype Step =
    | BeginWrite(data: seq<int>)
    | TestWriteClosed
    | TestReadClosed
    | LockWriter
    | CheckReadClosed                  // the loop test and the check for a closed read end
    | Put(nowait: bool)                // ring write, signal, and done, wait or give up
    | WakeWriter(how: Wake)
    | ReturnWrite
    | BeginRead(size: nat)
    | TestRead
    | LockReader
    | Get                              // ring read and signal, or nothing there
    | CheckWriteClosed(nowait: bool)   // end of file, wait or give up
    | WakeReader(how: Wake)
    | ReturnRead
    | StoreWriteClosed
    | BroadcastData
    | StoreReadClosed
    | BroadcastSpace

  ghost predicate Init(s: State, capacity: nat) {
    && |s.ring.buffer| == capacity > 0 && s.ring.head == s.ring.tail == 0
    && s == State(s.ring, Free, false, false, 0, 0, WIdle, RIdle, 0, 0, [], [])
  }

  /** The bytes in the ring. */
  ghost function Bytes(s: State): seq<int> {
    Contents(s.ring)
  }

  /** pthread_cond_signal or broadcast on a condition with at most one waiter. */
  ghost function SignalReader(r: Reader): Reader {
    if r.RWaiting? then RWaiting(r.size, r.base, true) else r
  }

  ghost function SignalWriter(w: Writer): Writer {
    if w.WWaiting? then WWaiting(w.data, w.base, w.done, true) else w
  }

  /** What a write returns that stops early. */
  ghost function Partial(done: nat): int {
    if done > 0 then done else -1
  }

  ghost predicate Wakes(signalled: bool, how: Wake) {
    how == Signalled ==> signalled
  }

  ghost predicate Enabled(s: State, t: Step) {
    match t
    case BeginWrite(_) => s.writer.WIdle?
    case TestWriteClosed => s.writer.WTestWrite?
    case TestReadClosed => s.writer.WTestRead?
    case LockWriter => s.writer.WLock? && s.mutex.Free?
    case CheckReadClosed => s.writer.WLoop?
    case Put(_) => s.writer.WPut?
    case WakeWriter(how) => s.writer.WWaiting? && s.mutex.Free? && Wakes(s.writer.signalled, how)
    case ReturnWrite => s.writer.WDone?
    case BeginRead(_) => s.reader.RIdle?
    case TestRead => s.reader.RTest?
    case LockReader => s.reader.RLock? && s.mutex.Free?
    case Get => s.reader.RLoop?
    case CheckWriteClosed(_) => s.reader.RCheck?
    case WakeReader(how) => s.reader.RWaiting? && s.mutex.Free? && Wakes(s.reader.signalled, how)
    case ReturnRead => s.reader.RDone?
    case StoreWriteClosed => true
    case BroadcastData => s.closingWrite > 0 && s.mutex.Free?
    case StoreReadClosed => true
    case BroadcastSpace => s.closingRead > 0 && s.mutex.Free?
  }

  /** ring_buffer_write, the counter, the signal, and then: return, wait, or give up. */
  ghost function PutBytes(s: State, nowait: bool): State
    requires s.writer.WPut?
  {
    var w := s.writer;
    var rest := w.data[Min(w.done, |w.data|)..];
    var (ring, n) := Written(s.ring, rest);
    var done := w.done + n;
    s.(ring := ring, accepted := s.accepted + rest[..n], totalWritten := s.totalWritten + n, mutex := Free,
       reader := if n > 0 then SignalReader(s.reader) else s.reader,
       writer := if done == |w.data| then WDone(w.data, w.base, done)
                 else if nowait then WDone(w.data, w.base, Partial(done))
                 else WWaiting(w.data, w.base, done, false))
  }

  /** ring_buffer_read, the counter and the signal; or on to the end-of-file check. */
  ghost function GetBytes(s: State): State
    requires s.reader.RLoop?
  {
    var r := s.reader;
    var (ring, out) := Taken(s.ring, r.size);
    if r.size == 0 then s.(reader := RDone(r.size, r.base, 0), mutex := Free)
    else if out == [] then s.(reader := RCheck(r.size, r.base))
    else s.(ring := ring, delivered := s.delivered + out, totalRead := s.totalRead + |out|, mutex := Free,
            writer := SignalWriter(s.writer), reader := RDone(r.size, r.base, |out|))
  }

  ghost function Apply(s: State, t: Step): State
    requires Enabled(s, t)
  {
    var w, r := s.writer, s.reader;
    match t
    case BeginWrite(data) => s.(writer := WTestWrite(data, |s.accepted|))
    case TestWriteClosed => s.(writer := if s.writeClosed then WDone(w.data, w.base, -1) else WTestRead(w.data, w.base))
    case TestReadClosed => s.(writer := if s.readClosed then WDone(w.data, w.base, 0) else WLock(w.data, w.base))
    case LockWriter => s.(writer := WLoop(w.data, w.base, 0), mutex := ByWriter)
    case CheckReadClosed =>
      if w.done >= |w.data| then s.(writer := WDone(w.data, w.base, w.done), mutex := Free)
      else if s.readClosed then s.(writer := WDone(w.data, w.base, Partial(w.done)), mutex := Free)
      else s.(writer := WPut(w.data, w.base, w.done))
    case Put(nowait) => PutBytes(s, nowait)
    case WakeWriter(how) =>
      if how.TimedOut? then s.(writer := WDone(w.data, w.base, Partial(w.done)))
      else s.(writer := WLoop(w.data, w.base, w.done), mutex := ByWriter)
    case ReturnWrite => s.(writer := WIdle)
    case BeginRead(size) => s.(reader := RTest(size, |s.delivered|))
    case TestRead => s.(reader := if s.readClosed then RDone(r.size, r.base, 0) else RLock(r.size, r.base))
    case LockReader => s.(reader := RLoop(r.size, r.base), mutex := ByReader)
    case Get => GetBytes(s)
    case CheckWriteClosed(nowait) =>
      s.(reader := if s.writeClosed then RDone(r.size, r.base, 0)
                   else if nowait then RDone(r.size, r.base, -1)
                   else RWaiting(r.size, r.base, false), mutex := Free)
    case WakeReader(how) =>
      if how.TimedOut? then s.(reader := RDone(r.size, r.base, -1))
      else s.(reader := RLoop(r.size, r.base), mutex := ByReader)
    case ReturnRead => s.(reader := RIdle)
    case StoreWriteClosed => s.(writeClosed := true, closingWrite := s.closingWrite + 1)
    case BroadcastData => s.(closingWrite := s.closingWrite - 1, reader := SignalReader(r))
    case StoreReadClosed => s.(readClosed := true, closingRead := s.closingRead + 1)
    case BroadcastSpace => s.(closingRead := s.closingRead - 1, writer := SignalWriter(w))
  }

  // ---------------------------------------------------------------- invariants

  /** What has been accepted is what has been delivered and then what is in the ring. */
  ghost predicate Fifo(s: State) {
    && Sound(s.ring)
    && s.accepted == s.delivered + Bytes(s)
    && s.totalWritten == |s.accepted| && s.totalRead == |s.delivered|
  }

  /** The mutex is held exactly by the thread in its critical section. */
  ghost predicate Exclusive(s: State) {
    && (s.mutex.ByWriter? <==> s.writer.WLoop? || s.writer.WPut?)
    && (s.mutex.ByReader? <==> s.reader.RLoop? || s.reader.RCheck?)
  }

  ghost function Done(w: Writer): nat {
    match w
    case WLoop(_, _, done) => done
    case WPut(_, _, done) => done
    case WWaiting(_, _, done, _) => done
    case WDone(_, _, result) => if result > 0 then result else 0
    case _ => 0
  }

  /** The bytes accepted since the write call began are the front of its data. */
  ghost predicate WriteCall(s: State) {
    var w := s.writer;
    !w.WIdle? ==>
      && w.base <= |s.accepted| && Done(w) <= |w.data|
      && s.accepted[w.base..] == w.data[..Done(w)]
  }

  /** The bytes delivered since the read call began are those it reports. */
  ghost predicate ReadCall(s: State) {
    var r := s.reader;
    !r.RIdle? ==>
      && r.base <= |s.delivered|
      && |s.delivered| - r.base == (if r.RDone? && r.result > 0 then r.result else 0) <= r.size
  }

  /** No wake-up is lost: a writer waiting without a signal faces a full ring, and a
      reader an empty one; and if the other end is closed, a broadcast is to come. */
  ghost predicate NoLostWakeUp(s: State) {
    && (s.writer.WWaiting? && !s.writer.signalled ==>
          |Bytes(s)| == |s.ring.buffer| - 1 && (s.readClosed ==> s.closingRead > 0))
    && (s.reader.RWaiting? && !s.reader.signalled ==>
          |Bytes(s)| == 0 && (s.writeClosed ==> s.closingWrite > 0))
    && (s.writer.WPut? ==> s.writer.done < |s.writer.data| && (s.readClosed ==> s.closingRead > 0))
    && (s.reader.RCheck? ==> |Bytes(s)| == 0 && s.reader.size > 0)
  }

  ghost predicate Inv(s: State) {
    Fifo(s) && Exclusive(s) && WriteCall(s) && ReadCall(s) && NoLostWakeUp(s)
  }

  /** A run: any interleaving of enabled steps. */
  ghost predicate Follows(s: State, s': State) {
    exists t :: Enabled(s, t) && s' == Apply(s, t)
  }

  ghost predicate Run(ss: seq<State>, capacity: nat) {
    ss != [] && Init(ss[0], capacity) && forall i :: 0 <= i < |ss| - 1 ==> Follows(ss[i], ss[i + 1])
  }

  // ------------------------------------------------------- every step keeps Inv

  /** What Get does, on contents. */
  lemma GetContents(s: State)
    requires Sound(s.ring) && s.reader.RLoop?
    ensures var (s', out) := (GetBytes(s), Taken(s.ring, s.reader.size).1);
            && Sound(s'.ring) && |s'.ring.buffer| == |s.ring.buffer|
            && |out| == Min(s.reader.size, |Bytes(s)|) && Bytes(s) == out + Bytes(s')
            && s'.delivered == s.delivered + out
  {
    TakenFront(s.ring, s.reader.size);
    hide Taken, Contents;
    if Taken(s.ring, s.reader.size).1 == [] {
      assert s.delivered + [] == s.delivered && [] + Bytes(s) == Bytes(s);
    }
  }

  /** What Put does, on contents. */
  lemma PutContents(s: State, nowait: bool)
    requires Sound(s.ring) && s.writer.WPut? && s.writer.done <= |s.writer.data|
    ensures var rest := s.writer.data[s.writer.done..];
            var (s', n) := (PutBytes(s, nowait), Written(s.ring, rest).1);
            && Sound(s'.ring) && |s'.ring.buffer| == |s.ring.buffer|
            && n == Min(|rest|, |s.ring.buffer| - 1 - |Bytes(s)|) && Bytes(s') == Bytes(s) + rest[..n]
            && s'.accepted == s.accepted + rest[..n]
  {
    WrittenAppends(s.ring, s.writer.data[s.writer.done..]);
    hide Written, Contents;
  }

  lemma GetFifo(s: State)
    requires Fifo(s) && s.reader.RLoop?
    ensures Fifo(GetBytes(s)) && |GetBytes(s).ring.buffer| == |s.ring.buffer|
  {
    hide Taken, Bytes, Sound;
    GetContents(s);
    var out := Taken(s.ring, s.reader.size).1;
    assert s.delivered + (out + Bytes(GetBytes(s))) == s.delivered + out + Bytes(GetBytes(s));
  }

  lemma PutFifo(s: State, nowait: bool)
    requires Fifo(s) && s.writer.WPut? && s.writer.done <= |s.writer.data|
    ensures Fifo(PutBytes(s, nowait)) && |PutBytes(s, nowait).ring.buffer| == |s.ring.buffer|
  {
    PutContents(s, nowait);
    hide Written, Bytes;
    var rest := s.writer.data[s.writer.done..];
    var n := Written(s.ring, rest).1;
    assert s.delivered + (Bytes(s) + rest[..n]) == s.delivered + Bytes(s) + rest[..n];
  }

  lemma StepFifo(s: State, t: Step)
    requires Inv(s) && Enabled(s, t)
    ensures Fifo(Apply(s, t)) && |Apply(s, t).ring.buffer| == |s.ring.buffer|
  {
    hide Exclusive, WriteCall, ReadCall;
    if t.Get? {
      GetFifo(s);
    } else if t.Put? {
      PutFifo(s, t.nowait);
    } else {
      hide Bytes;
    }
    hide PutBytes, GetBytes;
  }

  lemma StepExclusive(s: State, t: Step)
    requires Inv(s) && Enabled(s, t)
    ensures Exclusive(Apply(s, t))
  {
    hide Fifo, WriteCall, ReadCall, NoLostWakeUp, Written, Taken;
  }

  lemma PutExtends(s: State, nowait: bool)
    requires Inv(s) && s.writer.WPut?
    ensures WriteCall(PutBytes(s, nowait))
  {
    hide Exclusive, ReadCall, NoLostWakeUp, PutBytes, Written, Bytes, Sound;
    var w := s.writer;
    var n := Written(s.ring, w.data[w.done..]).1;
    PutContents(s, nowait);
    PutWriter(s, nowait);
    MoreOf(w.data, w.done, n, s.accepted, w.base);
  }

  /** Where the call stands after it. */
  lemma PutWriter(s: State, nowait: bool)
    requires Sound(s.ring) && s.writer.WPut? && s.writer.done <= |s.writer.data|
    ensures var (w, w') := (s.writer, PutBytes(s, nowait).writer);
            var n := Written(s.ring, w.data[w.done..]).1;
            && n <= |w.data| - w.done && !w'.WIdle? && w'.data == w.data && w'.base == w.base && Done(w') == w.done + n
  {
    PutContents(s, nowait);
    hide Written, Bytes, Sound;
  }

  lemma MoreOf(data: seq<int>, done: nat, n: nat, accepted: seq<int>, base: nat)
    requires done + n <= |data| && base <= |accepted| && accepted[base..] == data[..done]
    ensures base <= |accepted + data[done..][..n]| && (accepted + data[done..][..n])[base..] == data[..done + n]
  {
    var more := data[done..][..n];
    assert data[..done + n] == data[..done] + more;
    assert (accepted + more)[base..] == accepted[base..] + more;
  }

  lemma StepWriteCall(s: State, t: Step)
    requires Inv(s) && Enabled(s, t)
    ensures WriteCall(Apply(s, t))
  {
    hide Fifo, Exclusive, ReadCall, NoLostWakeUp, PutBytes, Taken;
    if t.Put? {
      PutExtends(s, t.nowait);
    }
  }

  lemma StepReadCall(s: State, t: Step)
    requires Inv(s) && Enabled(s, t)
    ensures ReadCall(Apply(s, t))
  {
    hide Exclusive, WriteCall, NoLostWakeUp;
    if t.Get? {
      GetReports(s);
    }
    hide Fifo, GetBytes, Written;
  }

  lemma GetReports(s: State)
    requires Inv(s) && s.reader.RLoop?
    ensures ReadCall(GetBytes(s))
  {
    GetContents(s);
    hide Taken, Bytes, Exclusive, WriteCall, NoLostWakeUp;
  }

  lemma StepNoLostWakeUp(s: State, t: Step)
    requires Inv(s) && Enabled(s, t)
    ensures NoLostWakeUp(Apply(s, t))
  {
    hide WriteCall, ReadCall, PutBytes, GetBytes, Bytes, Fifo;
    if t.Put? {
      PutWakes(s, t.nowait);
    } else if t.Get? {
      GetWakes(s);
    } else {
      SameBytes(s, Apply(s, t));
    }
  }

  lemma SameBytes(s: State, s': State)
    ensures s'.ring == s.ring ==> Bytes(s') == Bytes(s)
  {
  }

  /** A write that has to wait has filled the ring, and one that put anything in has
      signalled the reader. */
  lemma PutWakes(s: State, nowait: bool)
    requires Inv(s) && s.writer.WPut?
    ensures NoLostWakeUp(PutBytes(s, nowait))
  {
    PutContents(s, nowait);
    hide Written, Bytes, WriteCall, ReadCall;
  }

  /** A read that took anything out has signalled the writer, and one that took nothing
      faces an empty ring. */
  lemma GetWakes(s: State)
    requires Inv(s) && s.reader.RLoop?
    ensures NoLostWakeUp(GetBytes(s))
  {
    GetContents(s);
    hide Taken, Bytes, WriteCall, ReadCall;
  }

  /** Every step of every thread keeps the invariant. */
  lemma StepKeepsInv(s: State, t: Step)
    requires Inv(s) && Enabled(s, t)
    ensures Inv(Apply(s, t)) && |Apply(s, t).ring.buffer| == |s.ring.buffer|
  {
    StepFifo(s, t);
    StepExclusive(s, t);
    StepWriteCall(s, t);
    StepReadCall(s, t);
    StepNoLostWakeUp(s, t);
  }

  lemma {:induction false} RunKeepsInv(ss: seq<State>, capacity: nat, i: nat)
    requires Run(ss, capacity) && i < |ss|
    ensures Inv(ss[i]) && |ss[i].ring.buffer| == capacity > 0
  {
    if i > 0 {
      RunKeepsInv(ss, capacity, i - 1);
      assert Follows(ss[i - 1], ss[i - 1 + 1]);
      var t :| Enabled(ss[i - 1], t) && ss[i] == Apply(ss[i - 1], t);
      StepKeepsInv(ss[i - 1], t);
    }
  }

  // ------------------------------------------------------------------- results

  /** In every reachable state, however often the positions have wrapped around, the
      bytes delivered and then the bytes between head and tail are the bytes accepted, in
      order; the two counters differ by what the ring holds, at most capacity - 1. */
  lemma BytesConserved(ss: seq<State>, capacity: nat, i: nat)
    requires Run(ss, capacity) && i < |ss|
    ensures var r := ss[i].ring;
            && r.head < |r.buffer| == capacity && r.tail < capacity
            && ss[i].delivered + Held(r.buffer, r.head, r.tail) == ss[i].accepted
            && ss[i].totalWritten - ss[i].totalRead == |Held(r.buffer, r.head, r.tail)| == AvailableIn(r) <= capacity - 1
  {
    RunKeepsInv(ss, capacity, i);
  }

  lemma StepGrows(s: State, t: Step)
    requires Enabled(s, t)
    ensures s.accepted <= Apply(s, t).accepted && s.delivered <= Apply(s, t).delivered
  {
  }

  lemma {:induction false} HistoriesGrow(ss: seq<State>, capacity: nat, i: nat, j: nat)
    requires Run(ss, capacity) && i <= j < |ss|
    ensures ss[i].accepted <= ss[j].accepted && ss[i].delivered <= ss[j].delivered
    decreases j
  {
    if i < j {
      HistoriesGrow(ss, capacity, i, j - 1);
      assert Follows(ss[j - 1], ss[j - 1 + 1]);
      var t :| Enabled(ss[j - 1], t) && ss[j] == Apply(ss[j - 1], t);
      StepGrows(ss[j - 1], t);
    }
  }

  /** A write call that began in state i and is about to return in state j put
      exactly the front of its data, as long as it reports, behind everything
      accepted before; 0 and -1 mean nothing was accepted. */
  lemma WriteReports(ss: seq<State>, capacity: nat, i: nat, j: nat)
    requires Run(ss, capacity) && i <= j < |ss| && ss[j].writer.WDone? && ss[j].writer.base == |ss[i].accepted|
    ensures var w := ss[j].writer;
            && w.result <= |w.data|
            && ss[j].accepted == ss[i].accepted + w.data[..if w.result > 0 then w.result else 0]
  {
    RunKeepsInv(ss, capacity, j);
    HistoriesGrow(ss, capacity, i, j);
    assert ss[j].accepted == ss[i].accepted + ss[j].accepted[|ss[i].accepted|..];
  }

  /** A read call likewise delivered as many bytes as it reports, at most what was
      asked for: those that follow in the order of acceptance. */
  lemma ReadReports(ss: seq<State>, capacity: nat, i: nat, j: nat)
    requires Run(ss, capacity) && i <= j < |ss| && ss[j].reader.RDone? && ss[j].reader.base == |ss[i].delivered|
    ensures var r := ss[j].reader;
            var n := if r.result > 0 then r.result else 0;
            && n <= r.size && |ss[i].delivered| + n <= |ss[j].accepted|
            && ss[j].delivered == ss[i].delivered + ss[j].accepted[|ss[i].delivered|..|ss[i].delivered| + n]
  {
    RunKeepsInv(ss, capacity, j);
    HistoriesGrow(ss, capacity, i, j);
    var b := |ss[i].delivered|;
    assert ss[j].delivered == ss[j].accepted[..|ss[j].delivered|];
    assert ss[j].delivered == ss[i].delivered + ss[j].delivered[b..];
  }

  /** A read of one byte or more comes back with 0 only when it found the read end
      closed, or the write end closed with every accepted byte delivered. */
  lemma ZeroMeansEnd(ss: seq<State>, capacity: nat, i: nat)
    requires Run(ss, capacity) && i + 1 < |ss|
    requires ss[i + 1].reader.RDone? && ss[i].reader != ss[i + 1].reader
    requires ss[i + 1].reader.size > 0 && ss[i + 1].reader.result == 0
    ensures ss[i].readClosed || (ss[i].writeClosed && ss[i].delivered == ss[i].accepted)
  {
    RunKeepsInv(ss, capacity, i);
    assert Follows(ss[i], ss[i + 1]);
    var t :| Enabled(ss[i], t) && ss[i + 1] == Apply(ss[i], t);
    StepZeroMeansEnd(ss[i], t);
  }

  lemma StepZeroMeansEnd(s: State, t: Step)
    requires Inv(s) && Enabled(s, t) && Apply(s, t).reader.RDone? && Apply(s, t).reader != s.reader
    requires Apply(s, t).reader.size > 0 && Apply(s, t).reader.result == 0
    ensures s.readClosed || (s.writeClosed && s.delivered == s.accepted)
  {
    if t.Get? {
      StepReadOutcome(s, t);
      hide GetBytes, PutBytes, Exclusive, WriteCall, ReadCall;
    } else {
      hide GetBytes, PutBytes, Exclusive, WriteCall, ReadCall;
      assert s.delivered + [] == s.delivered;
    }
  }

  ghost predicate GivesUp(t: Step) {
    (t.WakeWriter? && t.how.TimedOut?) || (t.WakeReader? && t.how.TimedOut?)
    || (t.Put? && t.nowait) || (t.CheckWriteClosed? && t.nowait)
  }

  lemma StepWriteOutcome(s: State, t: Step)
    requires Inv(s) && Enabled(s, t) && !s.writer.WDone? && Apply(s, t).writer.WDone?
    ensures var w := Apply(s, t).writer;
            && (w.result == |w.data| || s.writeClosed || s.readClosed || GivesUp(t))
            && (w.result == 0 && w.data != [] ==> s.readClosed && t == TestReadClosed)
            && -1 <= w.result
  {
    if t.Put? {
      PutContents(s, t.nowait);
      hide Written, Bytes, Exclusive, WriteCall, ReadCall;
    } else {
      hide PutBytes, GetBytes, Exclusive, ReadCall, Fifo;
    }
  }

  /** A write comes back short only if an end is closed or it gives up waiting; it
      reports 0 for data only if it found the read end closed on entry, and -1 only
      if nothing of it was accepted. */
  lemma WriteOutcome(ss: seq<State>, capacity: nat, i: nat, t: Step)
    requires Run(ss, capacity) && i + 1 < |ss| && Enabled(ss[i], t) && ss[i + 1] == Apply(ss[i], t)
    requires ss[i + 1].writer.WDone? && !ss[i].writer.WDone?
    ensures var w := ss[i + 1].writer;
            && (w.result == |w.data| || ss[i].writeClosed || ss[i].readClosed || GivesUp(t))
            && (w.result == 0 && w.data != [] ==> ss[i].readClosed && t == TestReadClosed)
            && -1 <= w.result <= |w.data| && (w.result <= 0 ==> |ss[i + 1].accepted| == w.base)
  {
    hide Run, Apply, Enabled, Exclusive, ReadCall, Fifo, NoLostWakeUp;
    RunKeepsInv(ss, capacity, i + 1);
    RunKeepsInv(ss, capacity, i);
    StepWriteOutcome(ss[i], t);
  }

  lemma StepReadOutcome(s: State, t: Step)
    requires Inv(s) && Enabled(s, t) && !s.reader.RDone? && Apply(s, t).reader.RDone?
    ensures var (s', r) := (Apply(s, t), Apply(s, t).reader);
            && (r.result > 0 || r.size == 0 || s.writeClosed || s.readClosed || GivesUp(t))
            && (r.result == -1 ==> GivesUp(t)) && -1 <= r.result && (t.CheckWriteClosed? && s.writeClosed ==> r.result == 0)
            && (r.result > 0 ==> r.result == Min(r.size, |Bytes(s)|) && s'.delivered == s.delivered + Bytes(s)[..r.result])
            && (t == Get && r.size > 0 ==> r.result > 0)
  {
    if t.Get? {
      hide Taken, Bytes, Exclusive, WriteCall, ReadCall, PutBytes, Sound;
      GetContents(s);
    } else {
      hide PutBytes, GetBytes, Exclusive, ReadCall, WriteCall, Fifo, Bytes;
      OthersReport(s, t);
    }
  }

  lemma OthersReport(s: State, t: Step)
    requires Inv(s) && Enabled(s, t) && !t.Get? && !s.reader.RDone? && Apply(s, t).reader.RDone?
    ensures var r := Apply(s, t).reader;
            && -1 <= r.result <= 0 && (r.result == -1 ==> GivesUp(t)) && (t.CheckWriteClosed? && s.writeClosed ==> r.result == 0)
            && (r.size == 0 || s.writeClosed || s.readClosed || GivesUp(t))
  {
    hide GetBytes, Exclusive, ReadCall, WriteCall, Fifo, Bytes, Written;
  }

  /** A read that comes back from the ring delivers its oldest bytes, as many as were
      asked for or all there are.  One of a byte or more comes back without any only at
      an end of the pipe, with 0, or if it gives up waiting, with -1; one that finds nothing
      to read and the write end closed ends with 0 even if it may not wait. */
  lemma ReadOutcome(ss: seq<State>, capacity: nat, i: nat, t: Step)
    requires Run(ss, capacity) && i + 1 < |ss| && Enabled(ss[i], t) && ss[i + 1] == Apply(ss[i], t)
    requires ss[i + 1].reader.RDone? && !ss[i].reader.RDone?
    ensures var (r, held) := (ss[i + 1].reader, Bytes(ss[i]));
            && (r.result > 0 || r.size == 0 || ss[i].writeClosed || ss[i].readClosed || GivesUp(t))
            && (r.result > 0 ==> r.result == Min(r.size, |held|) && ss[i + 1].delivered == ss[i].delivered + held[..r.result])
            && (r.result == -1 ==> GivesUp(t)) && -1 <= r.result
            && (t.CheckWriteClosed? && ss[i].writeClosed ==> r.result == 0)
  {
    hide Run, Inv, Apply, Enabled, Bytes;
    RunKeepsInv(ss, capacity, i);
    StepReadOutcome(ss[i], t);
  }

  /** A closed end wakes the other side: once no broadcast is outstanding, a thread
      that still waits has been signalled. */
  lemma CloseWakes(ss: seq<State>, capacity: nat, i: nat)
    requires Run(ss, capacity) && i < |ss|
    ensures ss[i].readClosed && ss[i].closingRead == 0 && ss[i].writer.WWaiting? ==> ss[i].writer.signalled
    ensures ss[i].writeClosed && ss[i].closingWrite == 0 && ss[i].reader.RWaiting? ==> ss[i].reader.signalled
  {
    RunKeepsInv(ss, capacity, i);
  }

  ghost predicate WriterStuck(s: State) {
    s.writer.WWaiting? && !s.writer.signalled
  }

  ghost predicate ReaderStuck(s: State) {
    s.reader.RWaiting? && !s.reader.signalled
  }

  /** The run in which both sides wait: it exists for capacity 1 only. */
  ghost predicate CanBothBeStuck(capacity: nat) {
    exists ss, i: nat :: Run(ss, capacity) && i < |ss| && WriterStuck(ss[i]) && ReaderStuck(ss[i])
  }

  lemma NeverBothStuck(ss: seq<State>, capacity: nat, i: nat)
    requires Run(ss, capacity) && i < |ss| && capacity >= 2
    ensures !(WriterStuck(ss[i]) && ReaderStuck(ss[i]))
  {
    RunKeepsInv(ss, capacity, i);
  }

  /** Steps that make headway: not a new call, not a spurious or timed-out wake-up,
      not a new close. */
  ghost predicate Headway(t: Step) {
    match t
    case BeginWrite(_) => false
    case BeginRead(_) => false
    case StoreWriteClosed => false
    case StoreReadClosed => false
    case WakeWriter(how) => how == Signalled
    case WakeReader(how) => how == Signalled
    case _ => true
  }

  /** Deadlock freedom: with room for a byte, headway stops only with both threads
      between calls, or with one of them rightly waiting for a call of the other: a
      writer on a full open pipe, a reader on an empty open one. */
  lemma HeadwayOrRightlyWaiting(ss: seq<State>, capacity: nat, i: nat)
    requires Run(ss, capacity) && i < |ss| && capacity >= 2
    ensures var s := ss[i];
            || (exists t :: Headway(t) && Enabled(s, t))
            || (s.writer.WIdle? && s.reader.RIdle?)
            || (WriterStuck(s) && s.reader.RIdle? && |Bytes(s)| == capacity - 1 && !s.readClosed)
            || (ReaderStuck(s) && s.writer.WIdle? && Bytes(s) == [] && !s.writeClosed)
  {
    RunKeepsInv(ss, capacity, i);
    NeverBothStuck(ss, capacity, i);
    var s := ss[i];
    if s.mutex.ByWriter? {
      assert Headway(CheckReadClosed) && Headway(Put(false));
      assert Enabled(s, CheckReadClosed) || Enabled(s, Put(false));
    } else if s.mutex.ByReader? {
      assert Headway(Get) && Headway(CheckWriteClosed(false));
      assert Enabled(s, Get) || Enabled(s, CheckWriteClosed(false));
    } else if s.closingRead > 0 {
      assert Headway(BroadcastSpace) && Enabled(s, BroadcastSpace);
    } else if s.closingWrite > 0 {
      assert Headway(BroadcastData) && Enabled(s, BroadcastData);
    } else if !s.writer.WIdle? && !WriterStuck(s) {
      WriterMoves(s);
    } else if !s.reader.RIdle? && !ReaderStuck(s) {
      ReaderMoves(s);
    }
  }

  lemma WriterMoves(s: State)
    requires s.mutex.Free? && !s.writer.WIdle? && !WriterStuck(s) && Exclusive(s)
    ensures exists t :: Headway(t) && Enabled(s, t)
  {
    var t := match s.writer
      case WTestWrite(_, _) => TestWriteClosed
      case WTestRead(_, _) => TestReadClosed
      case WLock(_, _) => LockWriter
      case WDone(_, _, _) => ReturnWrite
      case _ => WakeWriter(Signalled);
    assert Headway(t) && Enabled(s, t);
  }

  lemma ReaderMoves(s: State)
    requires s.mutex.Free? && !s.reader.RIdle? && !ReaderStuck(s) && Exclusive(s)
    ensures exists t :: Headway(t) && Enabled(s, t)
  {
    var t := match s.reader
      case RTest(_, _) => TestRead
      case RLock(_, _) => LockReader
      case RDone(_, _, _) => ReturnRead
      case _ => WakeReader(Signalled);
    assert Headway(t) && Enabled(s, t);
  }

  // ---------------------------------------------------------- a pipe of capacity 1

  /** Twelve states of a pipe of capacity 1: a one-byte write, then a one-byte read. */
  ghost function At(w: Writer, r: Reader, m: Mutex): State {
    State(RingValue([0], 0, 0), m, false, false, 0, 0, w, r, 0, 0, [], [])
  }

  lemma StepTo(s: State, t: Step, s': State)
    requires Enabled(s, t) && s' == Apply(s, t)
    ensures Follows(s, s')
  {
  }

  lemma WriterWaits()
    ensures Follows(At(WIdle, RIdle, Free), At(WTestWrite([7], 0), RIdle, Free))
    ensures Follows(At(WTestWrite([7], 0), RIdle, Free), At(WTestRead([7], 0), RIdle, Free))
    ensures Follows(At(WTestRead([7], 0), RIdle, Free), At(WLock([7], 0), RIdle, Free))
    ensures Follows(At(WLock([7], 0), RIdle, Free), At(WLoop([7], 0, 0), RIdle, ByWriter))
    ensures Follows(At(WLoop([7], 0, 0), RIdle, ByWriter), At(WPut([7], 0, 0), RIdle, ByWriter))
    ensures Follows(At(WPut([7], 0, 0), RIdle, ByWriter), At(WWaiting([7], 0, 0, false), RIdle, Free))
  {
    StepTo(At(WIdle, RIdle, Free), BeginWrite([7]), At(WTestWrite([7], 0), RIdle, Free));
    StepTo(At(WTestWrite([7], 0), RIdle, Free), TestWriteClosed, At(WTestRead([7], 0), RIdle, Free));
    StepTo(At(WTestRead([7], 0), RIdle, Free), TestReadClosed, At(WLock([7], 0), RIdle, Free));
    StepTo(At(WLock([7], 0), RIdle, Free), LockWriter, At(WLoop([7], 0, 0), RIdle, ByWriter));
    StepTo(At(WLoop([7], 0, 0), RIdle, ByWriter), CheckReadClosed, At(WPut([7], 0, 0), RIdle, ByWriter));
    StepTo(At(WPut([7], 0, 0), RIdle, ByWriter), Put(false), At(WWaiting([7], 0, 0, false), RIdle, Free));
  }

  lemma ReaderWaits(w: Writer)
    ensures Follows(At(w, RIdle, Free), At(w, RTest(1, 0), Free))
    ensures Follows(At(w, RTest(1, 0), Free), At(w, RLock(1, 0), Free))
    ensures Follows(At(w, RLock(1, 0), Free), At(w, RLoop(1, 0), ByReader))
    ensures Follows(At(w, RLoop(1, 0), ByReader), At(w, RCheck(1, 0), ByReader))
    ensures Follows(At(w, RCheck(1, 0), ByReader), At(w, RWaiting(1, 0, false), Free))
  {
    StepTo(At(w, RIdle, Free), BeginRead(1), At(w, RTest(1, 0), Free));
    StepTo(At(w, RTest(1, 0), Free), TestRead, At(w, RLock(1, 0), Free));
    StepTo(At(w, RLock(1, 0), Free), LockReader, At(w, RLoop(1, 0), ByReader));
    StepTo(At(w, RLoop(1, 0), ByReader), Get, At(w, RCheck(1, 0), ByReader));
    StepTo(At(w, RCheck(1, 0), ByReader), CheckWriteClosed(false), At(w, RWaiting(1, 0, false), Free));
  }

  /** With capacity 1 the ring is full and empty at once, and both sides can wait for
      each other; with any other capacity they cannot. */
  lemma BothStuckExactlyAtOne(capacity: nat)
    ensures CanBothBeStuck(capacity) <==> capacity == 1
  {
    if capacity == 1 {
      var w := WWaiting([7], 0, 0, false);
      WriterWaits();
      ReaderWaits(w);
      hide Follows;
      var ss := [At(WIdle, RIdle, Free), At(WTestWrite([7], 0), RIdle, Free), At(WTestRead([7], 0), RIdle, Free),
                 At(WLock([7], 0), RIdle, Free), At(WLoop([7], 0, 0), RIdle, ByWriter), At(WPut([7], 0, 0), RIdle, ByWriter),
                 At(w, RIdle, Free), At(w, RTest(1, 0), Free), At(w, RLock(1, 0), Free), At(w, RLoop(1, 0), ByReader),
                 At(w, RCheck(1, 0), ByReader), At(w, RWaiting(1, 0, false), Free)];
      assert Run(ss, 1);
      assert WriterStuck(ss[11]) && ReaderStuck(ss[11]);
    } else if CanBothBeStuck(capacity) {
      var ss, i: nat :| Run(ss, capacity) && i < |ss| && WriterStuck(ss[i]) && ReaderStuck(ss[i]);
      NeverBothStuck(ss, capacity, i);
      assert false;
    }
  }
}
