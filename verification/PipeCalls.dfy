/** What one call of ios_buffered_pipe.c does from its beginning to its end: it is about the
    data it was given, and a pipe that is closed when it begins decides its result.
  */
module PipeCalls {
  import opened PipeProtocol
  import opened PipeRing

  /** A write call begins between states j and j + 1 and is in progress up to state i. */
  ghost predicate Writing(ss: seq<State>, data: seq<int>, j: nat, i: nat) {
    && j < i < |ss| && Enabled(ss[j], BeginWrite(data)) && ss[j + 1] == Apply(ss[j], BeginWrite(data))
    && forall m :: j < m <= i ==> !ss[m].writer.WIdle?
  }

  ghost predicate Reading(ss: seq<State>, size: nat, j: nat, i: nat) {
    && j < i < |ss| && Enabled(ss[j], BeginRead(size)) && ss[j + 1] == Apply(ss[j], BeginRead(size))
    && forall m :: j < m <= i ==> !ss[m].reader.RIdle?
  }

  lemma NextStep(ss: seq<State>, capacity: nat, i: nat) returns (t: Step)
    requires Run(ss, capacity) && i + 1 < |ss|
    ensures Enabled(ss[i], t) && ss[i + 1] == Apply(ss[i], t)
  {
    hide Enabled, Apply;
    assert Follows(ss[i], ss[i + 1]);
    t :| Enabled(ss[i], t) && ss[i + 1] == Apply(ss[i], t);
  }

  // ------------------------------------------------------------ the call's own data

  lemma WriterKeeps(s: State, t: Step)
    requires Enabled(s, t) && !s.writer.WIdle? && !Apply(s, t).writer.WIdle?
    ensures Apply(s, t).writer.data == s.writer.data && Apply(s, t).writer.base == s.writer.base
  {
    hide Written, Taken;
  }

  lemma ReaderKeeps(s: State, t: Step)
    requires Enabled(s, t) && !s.reader.RIdle? && !Apply(s, t).reader.RIdle?
    ensures Apply(s, t).reader.size == s.reader.size && Apply(s, t).reader.base == s.reader.base
  {
    hide Written, Taken;
  }

  lemma WriteBegins(ss: seq<State>, data: seq<int>, j: nat)
    requires Writing(ss, data, j, j + 1)
    ensures ss[j + 1].writer == WTestWrite(data, |ss[j].accepted|) && ss[j + 1].accepted == ss[j].accepted
    ensures Rejected(ss[j + 1].writer) && Unheard(ss[j + 1].writer)
  {
  }

  lemma ReadBegins(ss: seq<State>, size: nat, j: nat)
    requires Reading(ss, size, j, j + 1)
    ensures ss[j + 1].reader == RTest(size, |ss[j].delivered|) && ss[j + 1].delivered == ss[j].delivered
    ensures AtEnd(ss[j + 1].reader)
  {
  }

  lemma {:induction false} WriteKeepsData(ss: seq<State>, capacity: nat, data: seq<int>, j: nat, i: nat)
    requires Run(ss, capacity) && Writing(ss, data, j, i)
    ensures ss[i].writer.data == data && ss[i].writer.base == |ss[j].accepted|
    decreases i
  {
    hide Run, Enabled, Apply;
    if i == j + 1 {
      WriteBegins(ss, data, j);
    } else {
      WriteKeepsData(ss, capacity, data, j, i - 1);
      var t := NextStep(ss, capacity, i - 1);
      WriterKeeps(ss[i - 1], t);
    }
  }

  lemma {:induction false} ReadKeepsSize(ss: seq<State>, capacity: nat, size: nat, j: nat, i: nat)
    requires Run(ss, capacity) && Reading(ss, size, j, i)
    ensures ss[i].reader.size == size && ss[i].reader.base == |ss[j].delivered|
    decreases i
  {
    hide Run, Enabled, Apply;
    if i == j + 1 {
      ReadBegins(ss, size, j);
    } else {
      ReadKeepsSize(ss, capacity, size, j, i - 1);
      var t := NextStep(ss, capacity, i - 1);
      ReaderKeeps(ss[i - 1], t);
    }
  }

  /** A write call given data puts the front of that data, as long as it reports, behind
      everything accepted when it began. */
  lemma WriteAccepts(ss: seq<State>, capacity: nat, data: seq<int>, j: nat, i: nat)
    requires Run(ss, capacity) && Writing(ss, data, j, i) && ss[i].writer.WDone?
    ensures var n := ss[i].writer.result;
            -1 <= n <= |data| && ss[i].accepted == ss[j].accepted + data[..if n > 0 then n else 0]
  {
    WriteKeepsData(ss, capacity, data, j, i);
    WriteReports(ss, capacity, j, i);
    ResultAtLeast(ss, capacity, i);
  }

  /** A read call asked for size bytes delivers as many as it reports, the next in the
      order in which they were accepted. */
  lemma ReadDelivers(ss: seq<State>, capacity: nat, size: nat, j: nat, i: nat)
    requires Run(ss, capacity) && Reading(ss, size, j, i) && ss[i].reader.RDone?
    ensures var (r, b) := (ss[i].reader.result, |ss[j].delivered|);
            var n := if r > 0 then r else 0;
            && n <= size && b + n <= |ss[i].accepted|
            && ss[i].delivered == ss[j].delivered + ss[i].accepted[b..b + n]
  {
    ReadKeepsSize(ss, capacity, size, j, i);
    ReadReports(ss, capacity, j, i);
  }

  lemma {:induction false} ResultAtLeast(ss: seq<State>, capacity: nat, i: nat)
    requires Run(ss, capacity) && i < |ss| && ss[i].writer.WDone?
    ensures ss[i].writer.result >= -1
  {
    hide Run, Enabled, Apply, Inv;
    if i == 0 {
      NotDoneAtFirst(ss, capacity);
    } else {
      RunKeepsInv(ss, capacity, i - 1);
      var t := NextStep(ss, capacity, i - 1);
      if ss[i - 1].writer.WDone? {
        ResultAtLeast(ss, capacity, i - 1);
        DoneStays(ss[i - 1], t);
      } else {
        StepWriteOutcome(ss[i - 1], t);
      }
    }
  }

  lemma NotDoneAtFirst(ss: seq<State>, capacity: nat)
    requires Run(ss, capacity)
    ensures !ss[0].writer.WDone?
  {
  }

  lemma DoneStays(s: State, t: Step)
    requires Enabled(s, t) && s.writer.WDone? && Apply(s, t).writer.WDone?
    ensures Apply(s, t).writer == s.writer
  {
    hide Written, Taken;
  }

  // ------------------------------------------------------------------- closed ends

  lemma ClosedStays(s: State, t: Step)
    requires Enabled(s, t)
    ensures s.writeClosed ==> Apply(s, t).writeClosed
    ensures s.readClosed ==> Apply(s, t).readClosed
  {
    hide Written, Taken;
  }

  /** A closed end stays closed. */
  lemma {:induction false} StaysClosed(ss: seq<State>, capacity: nat, j: nat, i: nat)
    requires Run(ss, capacity) && j <= i < |ss|
    ensures ss[j].writeClosed ==> ss[i].writeClosed
    ensures ss[j].readClosed ==> ss[i].readClosed
    decreases i
  {
    hide Run, Enabled, Apply, Inv;
    if j < i {
      StaysClosed(ss, capacity, j, i - 1);
      var t := NextStep(ss, capacity, i - 1);
      ClosedStays(ss[i - 1], t);
    }
  }

  /** Where a write call stands that began with the write end closed. */
  ghost predicate Rejected(w: Writer) {
    w.WTestWrite? || (w.WDone? && w.result == -1)
  }

  /** Where one stands that began with the read end closed. */
  ghost predicate Unheard(w: Writer) {
    w.WTestWrite? || w.WTestRead? || (w.WDone? && -1 <= w.result <= 0)
  }

  /** Where a read call stands that began with the read end closed. */
  ghost predicate AtEnd(r: Reader) {
    r.RTest? || (r.RDone? && r.result == 0)
  }

  lemma RejectedStep(s: State, t: Step)
    requires Enabled(s, t) && s.writeClosed && Rejected(s.writer) && !Apply(s, t).writer.WIdle?
    ensures Rejected(Apply(s, t).writer) && Apply(s, t).accepted == s.accepted
  {
    hide Written, Taken;
  }

  lemma UnheardStep(s: State, t: Step)
    requires Enabled(s, t) && s.readClosed && Unheard(s.writer) && !Apply(s, t).writer.WIdle?
    ensures Unheard(Apply(s, t).writer) && Apply(s, t).accepted == s.accepted
    ensures !s.writeClosed && (s.writer.WDone? ==> s.writer.result == 0) && Apply(s, t).writer.WDone? ==> Apply(s, t).writer.result == 0
  {
    hide Written, Taken;
  }

  lemma AtEndStep(s: State, t: Step)
    requires Enabled(s, t) && s.readClosed && AtEnd(s.reader) && !Apply(s, t).reader.RIdle?
    ensures AtEnd(Apply(s, t).reader) && Apply(s, t).delivered == s.delivered
  {
    hide Written, Taken;
  }

  /** A write call that begins when the write end is closed accepts nothing, and the only
      result it can have is -1. */
  lemma {:induction false} WriteAfterClose(ss: seq<State>, capacity: nat, data: seq<int>, j: nat, i: nat)
    requires Run(ss, capacity) && Writing(ss, data, j, i) && ss[j].writeClosed
    ensures Rejected(ss[i].writer) && ss[i].accepted == ss[j].accepted
    decreases i
  {
    hide Run, Enabled, Apply, Rejected;
    if i == j + 1 {
      WriteBegins(ss, data, j);
    } else {
      WriteAfterClose(ss, capacity, data, j, i - 1);
      StaysClosed(ss, capacity, j, i - 1);
      var t := NextStep(ss, capacity, i - 1);
      RejectedStep(ss[i - 1], t);
    }
  }

  /** One that begins when the read end is closed accepts nothing either; its result is 0, or
      -1 if the write end is closed as well by the time it ends. */
  lemma {:induction false} WriteToNobody(ss: seq<State>, capacity: nat, data: seq<int>, j: nat, i: nat)
    requires Run(ss, capacity) && Writing(ss, data, j, i) && ss[j].readClosed
    ensures Unheard(ss[i].writer) && ss[i].accepted == ss[j].accepted
    ensures ss[i].writer.WDone? && !ss[i].writeClosed ==> ss[i].writer.result == 0
    decreases i
  {
    hide Run, Enabled, Apply, Unheard;
    if i == j + 1 {
      WriteBegins(ss, data, j);
    } else {
      WriteToNobody(ss, capacity, data, j, i - 1);
      StaysClosed(ss, capacity, j, i - 1);
      StaysClosed(ss, capacity, i - 1, i);
      var t := NextStep(ss, capacity, i - 1);
      UnheardStep(ss[i - 1], t);
    }
  }

  /** A read call that begins when the read end is closed delivers nothing and ends with 0. */
  lemma {:induction false} ReadAfterClose(ss: seq<State>, capacity: nat, size: nat, j: nat, i: nat)
    requires Run(ss, capacity) && Reading(ss, size, j, i) && ss[j].readClosed
    ensures AtEnd(ss[i].reader) && ss[i].delivered == ss[j].delivered
    decreases i
  {
    hide Run, Enabled, Apply, AtEnd;
    if i == j + 1 {
      ReadBegins(ss, size, j);
    } else {
      ReadAfterClose(ss, capacity, size, j, i - 1);
      StaysClosed(ss, capacity, j, i - 1);
      var t := NextStep(ss, capacity, i - 1);
      AtEndStep(ss[i - 1], t);
    }
  }
}
