/** The interpreter slot pool of ios_interpreter_pool.c, one pool, as atomic
    steps of any number of calls in progress.

    A counting semaphore admits calls; an atomic bitmap says which slots are
    taken.  The bitmap is the set of its one bits.  Every load, every
    compare-and-swap and every semaphore operation is a step of its own, so a
    run is an arbitrary interleaving of them.
  */
module InterpPool {

  /** Where a call in progress stands. */
  datatype Pc =
    | Waiting                               // ios_interp_acquire, before the semaphore
    | Load                                  // past the semaphore, about to read the bitmap
    | Scan(bitmap: set<nat>, slot: nat)     // about to test a bit of the copy it read
    | Cas(bitmap: set<nat>, slot: nat)      // about to compare-and-swap that bit in
    | NoSlot                                // "should never happen": no free bit found
    | TryWaiting(want: int)                 // ios_interp_try_acquire_slot, before the semaphore
    | TryLoad(want: int)                    // past the semaphore
    | TryCas(bitmap: set<nat>, slot: nat)   // about to test and set the wanted bit
    | TryFailed                             // must give the semaphore back
    | Got(slot: nat)                        // owns the bit, handle not made yet
    | RelLoad(slot: nat)                    // ios_interp_release, about to read the bitmap
    | RelCas(bitmap: set<nat>, slot: nat)   // about to compare-and-swap the bit out
    | Cleared                               // bit is out, semaphore not yet signalled

  /** calls in progress, and the handles callers hold with their slots. */
  datatype State = State(max: nat, sem: nat, bits: set<nat>, calls: map<nat, Pc>, handles: map<nat, nat>)

  datatype Step =
    | BeginAcquire(c: nat)
    | BeginTry(c: nat, want: int)
    | BeginRelease(c: nat, h: nat)
    | Pass(c: nat)                          // dispatch_semaphore_wait succeeds
    | TimeOut(c: nat)                       // dispatch_semaphore_wait gives up; at once if it may not wait
    | Read(c: nat)                          // atomic_load
    | Test(c: nat)                          // one round of the slot loop
    | Swap(c: nat, spurious: bool)          // compare-and-swap; the weak form may fail for no reason
    | MakeHandle(c: nat, h: nat)
    | Signal(c: nat)                        // dispatch_semaphore_signal, and return

  ghost predicate Init(s: State, max: nat) {
    s == State(max, max, {}, map[], map[])
  }

  /** The call c moves to pc. */
  ghost function Move(s: State, c: nat, pc: Pc): State {
    s.(calls := s.calls[c := pc])
  }

  /** The call c returns. */
  ghost function Return(s: State, c: nat): State {
    s.(calls := s.calls - {c})
  }

  ghost predicate Enabled(s: State, t: Step) {
    match t
    case BeginAcquire(c) => c !in s.calls
    case BeginTry(c, _) => c !in s.calls
    case BeginRelease(c, h) => c !in s.calls && h in s.handles
    case Pass(c) => c in s.calls && (s.calls[c].Waiting? || s.calls[c].TryWaiting?) && s.sem > 0
    case TimeOut(c) => c in s.calls && (s.calls[c].Waiting? || (s.calls[c].TryWaiting? && s.sem == 0))
    case Read(c) => c in s.calls && (s.calls[c].Load? || s.calls[c].TryLoad? || s.calls[c].RelLoad?)
    case Test(c) => c in s.calls && s.calls[c].Scan?
    case Swap(c, spurious) =>
      c in s.calls && (s.calls[c].TryCas? || s.calls[c].RelCas? || (s.calls[c].Cas? && !spurious))
    case MakeHandle(c, h) => c in s.calls && s.calls[c].Got? && h !in s.handles
    case Signal(c) => c in s.calls && (s.calls[c].Cleared? || s.calls[c].TryFailed? || s.calls[c].NoSlot?)
  }

  ghost function Apply(s: State, t: Step): State
    requires Enabled(s, t)
  {
    match t
    case BeginAcquire(c) => Move(s, c, Waiting)
    case BeginTry(c, want) => Move(s, c, TryWaiting(want))
    case BeginRelease(c, h) => Move(s, c, RelLoad(s.handles[h])).(handles := s.handles - {h})
    case Pass(c) =>
      Move(s, c, if s.calls[c].Waiting? then Load else TryLoad(s.calls[c].want)).(sem := s.sem - 1)
    case TimeOut(c) => Return(s, c)
    case Read(c) =>
      (match s.calls[c]
       case TryLoad(want) =>
         Move(s, c, if 0 <= want < s.max then TryCas(s.bits, want) else TryFailed)
       case RelLoad(slot) => Move(s, c, RelCas(s.bits, slot))
       case _ => Move(s, c, Scan(s.bits, 0)))
    case Test(c) =>
      var pc := s.calls[c];
      Move(s, c, if pc.slot >= s.max then NoSlot
                 else if pc.slot in pc.bitmap then Scan(pc.bitmap, pc.slot + 1)
                 else Cas(pc.bitmap, pc.slot))
    case Swap(c, spurious) =>
      var pc := s.calls[c];
      (match pc
       case TryCas(bitmap, slot) =>
         if slot in bitmap then Move(s, c, TryFailed)
         else if bitmap == s.bits && !spurious then Move(s, c, Got(slot)).(bits := bitmap + {slot})
         else Move(s, c, TryCas(s.bits, slot))
       case RelCas(bitmap, slot) =>
         if bitmap == s.bits && !spurious then Move(s, c, Cleared).(bits := bitmap - {slot})
         else Move(s, c, RelCas(s.bits, slot))
       case _ =>
         if pc.bitmap == s.bits then Move(s, c, Got(pc.slot)).(bits := pc.bitmap + {pc.slot})
         else Move(s, c, Load))
    case MakeHandle(c, h) => Return(s, c).(handles := s.handles[h := s.calls[c].slot])
    case Signal(c) => Return(s, c).(sem := s.sem + 1)
  }

  ghost predicate Follows(s: State, s': State) {
    exists t :: Enabled(s, t) && s' == Apply(s, t)
  }

  /** A run: any interleaving of enabled steps. */
  ghost predicate Run(ss: seq<State>, max: nat) {
    ss != [] && Init(ss[0], max) && forall i :: 0 <= i < |ss| - 1 ==> Follows(ss[i], ss[i + 1])
  }

  // --------------------------------------------------------------- accounting

  /** Past the semaphore, without a bit of its own. */
  ghost predicate HoldsPermit(pc: Pc) {
    pc.Load? || pc.Scan? || pc.Cas? || pc.NoSlot? || pc.TryLoad? || pc.TryCas? || pc.TryFailed?
  }

  ghost predicate OwnsBit(pc: Pc) {
    pc.Got? || pc.RelLoad? || pc.RelCas?
  }

  ghost function Permits(calls: map<nat, Pc>): set<nat> {
    set c | c in calls && HoldsPermit(calls[c])
  }

  ghost function Clearing(calls: map<nat, Pc>): set<nat> {
    set c | c in calls && calls[c].Cleared?
  }

  /** Semaphore value, permits without a bit, bits, and cleared bits whose signal
      is still to come always add up to the number of slots. */
  ghost predicate Accounts(s: State) {
    s.sem + |Permits(s.calls)| + |s.bits| + |Clearing(s.calls)| == s.max
  }

  // ---------------------------------------------------------------- ownership

  /** Who owns a bit: a call (acquiring or releasing) or a handle. */
  datatype Owner = ByCall(c: nat) | ByHandle(h: nat)

  ghost predicate Owns(s: State, o: Owner, slot: nat) {
    match o
    case ByCall(c) => c in s.calls && OwnsBit(s.calls[c]) && s.calls[c].slot == slot
    case ByHandle(h) => h in s.handles && s.handles[h] == slot
  }

  /** A bit is set exactly while it has an owner, and never has two. */
  ghost predicate Ownership(s: State) {
    && (forall o, x :: Owns(s, o, x) ==> x in s.bits)
    && (forall o, o', x :: Owns(s, o, x) && Owns(s, o', x) ==> o == o')
    && (forall x :: x in s.bits ==> Owned(s, x))
  }

  ghost predicate Owned(s: State, x: nat) {
    exists o :: Owns(s, o, x)
  }

  // ---------------------------------------------------------------- snapshots

  /** The copy of the bitmap that a scan works on shows a free slot, at or after
      the place reached. */
  ghost predicate Searching(max: nat, pc: Pc) {
    match pc
    case Scan(bitmap, slot) => (forall x :: 0 <= x < slot ==> x in bitmap) && exists x :: slot <= x < max && x !in bitmap
    case Cas(bitmap, slot) => slot < max && slot !in bitmap && forall x :: 0 <= x < slot ==> x in bitmap
    case TryCas(_, slot) => slot < max
    case NoSlot => false
    case _ => true
  }

  ghost predicate Inv(s: State) {
    && Accounts(s) && Ownership(s)
    && (forall x :: x in s.bits ==> x < s.max)
    && (forall c :: c in s.calls ==> Searching(s.max, s.calls[c]))
  }

  // ------------------------------------------------------------ counting calls

  /** Moving one call changes the two counts by that call alone. */
  lemma CountsMove(calls: map<nat, Pc>, c: nat, pc: Pc)
    ensures |Permits(calls[c := pc])| == |Permits(calls)|
              - (if c in calls && HoldsPermit(calls[c]) then 1 else 0) + (if HoldsPermit(pc) then 1 else 0)
    ensures |Clearing(calls[c := pc])| == |Clearing(calls)|
              - (if c in calls && calls[c].Cleared? then 1 else 0) + (if pc.Cleared? then 1 else 0)
  {
    hide HoldsPermit;
    PermitsMove(calls, c, pc);
    ClearingMove(calls, c, pc);
  }

  lemma PermitsMove(calls: map<nat, Pc>, c: nat, pc: Pc)
    ensures |Permits(calls[c := pc])| == |Permits(calls)|
              - (if c in calls && HoldsPermit(calls[c]) then 1 else 0) + (if HoldsPermit(pc) then 1 else 0)
  {
    hide HoldsPermit;
    var p := Permits(calls) - {c};
    PermitsAfter(calls, c, pc);
    hide Permits;
  }

  lemma PermitsAfter(calls: map<nat, Pc>, c: nat, pc: Pc)
    ensures Permits(calls[c := pc]) == Permits(calls) - {c} + if HoldsPermit(pc) then {c} else {}
    ensures c in Permits(calls) <==> c in calls && HoldsPermit(calls[c])
  {
    hide HoldsPermit;
  }

  lemma ClearingMove(calls: map<nat, Pc>, c: nat, pc: Pc)
    ensures |Clearing(calls[c := pc])| == |Clearing(calls)|
              - (if c in calls && calls[c].Cleared? then 1 else 0) + (if pc.Cleared? then 1 else 0)
  {
    var q := Clearing(calls) - {c};
    if pc.Cleared? {
      assert Clearing(calls[c := pc]) == q + {c};
    } else {
      assert Clearing(calls[c := pc]) == q;
    }
  }

  lemma CountsReturn(calls: map<nat, Pc>, c: nat)
    requires c in calls
    ensures |Permits(calls - {c})| == |Permits(calls)| - (if HoldsPermit(calls[c]) then 1 else 0)
    ensures |Clearing(calls - {c})| == |Clearing(calls)| - (if calls[c].Cleared? then 1 else 0)
  {
    assert Permits(calls - {c}) == Permits(calls) - {c};
    assert Clearing(calls - {c}) == Clearing(calls) - {c};
  }

  /** A set of fewer than max slots below max leaves one out. */
  lemma {:induction false} FreeSlot(max: nat, bits: set<nat>)
    requires (forall x :: x in bits ==> x < max) && |bits| < max
    ensures exists x :: 0 <= x < max && x !in bits
  {
    var last := max - 1;
    if last in bits {
      FreeSlot(last, bits - {last});
    }
  }

  /** Distinct slots below max are at most max many. */
  lemma {:induction false} AtMost(max: nat, bits: set<nat>)
    requires forall x :: x in bits ==> x < max
    ensures |bits| <= max
  {
    if max == 0 {
      assert bits == {};
    } else {
      AtMost(max - 1, bits - {max - 1});
    }
  }

  // ------------------------------------------------------- the steps keep Inv

  lemma StepAccounts(s: State, t: Step)
    requires Inv(s) && Enabled(s, t)
    ensures Accounts(Apply(s, t))
  {
    hide Ownership, Permits, Clearing, Searching;
    match t
    case BeginAcquire(c) => CountsMove(s.calls, c, Waiting);
    case BeginTry(c, want) => CountsMove(s.calls, c, TryWaiting(want));
    case BeginRelease(c, h) => CountsMove(s.calls, c, RelLoad(s.handles[h]));
    case Pass(c) => CountsMove(s.calls, c, Apply(s, t).calls[c]);
    case TimeOut(c) => CountsReturn(s.calls, c);
    case Read(c) => CountsMove(s.calls, c, Apply(s, t).calls[c]);
    case Test(c) => CountsMove(s.calls, c, Apply(s, t).calls[c]);
    case Swap(c, spurious) => SwapAccounts(s, c, spurious);
    case MakeHandle(c, _) => CountsReturn(s.calls, c);
    case Signal(c) => CountsReturn(s.calls, c);
  }

  lemma SwapAccounts(s: State, c: nat, spurious: bool)
    requires Inv(s) && Enabled(s, Swap(c, spurious))
    ensures Accounts(Apply(s, Swap(c, spurious)))
  {
    SwapBits(s, c, spurious);
    hide Apply, Permits, Clearing, Ownership, Searching;
    CountsMove(s.calls, c, Apply(s, Swap(c, spurious)).calls[c]);
  }

  /** A compare-and-swap adds the bit of a call that gets it and takes out the bit of
      one that releases it. */
  lemma SwapBits(s: State, c: nat, spurious: bool)
    requires Inv(s) && Enabled(s, Swap(c, spurious))
    ensures var s' := Apply(s, Swap(c, spurious));
            && c in s'.calls && s'.calls == s.calls[c := s'.calls[c]] && s'.sem == s.sem && s'.max == s.max
            && HoldsPermit(s.calls[c]) == !s.calls[c].RelCas? && !s.calls[c].Cleared?
            && (s'.calls[c].Got? ==> !s.calls[c].RelCas? && |s'.bits| == |s.bits| + 1)
            && (s'.calls[c].Cleared? ==> s.calls[c].RelCas? && |s'.bits| == |s.bits| - 1)
            && (!s'.calls[c].Got? && !s'.calls[c].Cleared? ==>
                  s'.bits == s.bits && HoldsPermit(s'.calls[c]) == HoldsPermit(s.calls[c]))
  {
    hide Accounts, Ownership, Searching;
    OwnsIsSet(s, c);
    if s.calls[c].Cas? {
      SwapsFreeBit(s, c);
    }
  }

  lemma SwapsFreeBit(s: State, c: nat)
    requires Inv(s) && c in s.calls && s.calls[c].Cas?
    ensures s.calls[c].slot !in s.calls[c].bitmap
  {
    assert Searching(s.max, s.calls[c]);
  }

  lemma OwnsIsSet(s: State, c: nat)
    requires Ownership(s) && c in s.calls
    ensures OwnsBit(s.calls[c]) ==> s.calls[c].slot in s.bits
  {
    if OwnsBit(s.calls[c]) {
      assert Owns(s, ByCall(c), s.calls[c].slot);
    }
  }

  /** No change of owners, no change of bits. */
  lemma OwnersKept(s: State, s': State)
    requires Ownership(s) && s'.bits == s.bits
    requires forall o, x :: Owns(s', o, x) <==> Owns(s, o, x)
    ensures Ownership(s')
  {
    hide Owns;
  }

  /** One new owner, of a bit that was free. */
  lemma OwnerGained(s: State, s': State, n: Owner, slot: nat)
    requires Ownership(s) && slot !in s.bits && s'.bits == s.bits + {slot}
    requires forall o, x :: Owns(s', o, x) <==> Owns(s, o, x) || (o == n && x == slot)
    ensures Ownership(s')
  {
    hide Owns;
    assert Owns(s', n, slot);
    forall x | x in s'.bits ensures Owned(s', x) {
      if x != slot {
        var o :| Owns(s, o, x);
        assert Owns(s', o, x);
      }
    }
  }

  /** An owner gives its bit up. */
  lemma OwnerLost(s: State, s': State, n: Owner, slot: nat)
    requires Ownership(s) && Owns(s, n, slot) && s'.bits == s.bits - {slot}
    requires forall o, x :: Owns(s', o, x) <==> Owns(s, o, x) && o != n
    ensures Ownership(s')
  {
    hide Owns;
    forall o, x | Owns(s', o, x) ensures x in s'.bits {
      assert Owns(s, o, x);
    }
    forall x | x in s'.bits ensures Owned(s', x) {
      var o :| Owns(s, o, x);
      assert o == n ==> x == slot by { OneSlot(s, n, slot, x); }
      assert Owns(s', o, x);
    }
  }

  lemma OneSlot(s: State, o: Owner, x: nat, y: nat)
    requires Owns(s, o, x)
    ensures Owns(s, o, y) ==> x == y
  {
  }

  /** An owner hands its bit to another. */
  lemma OwnerChanged(s: State, s': State, was: Owner, now: Owner, slot: nat)
    requires Ownership(s) && Owns(s, was, slot) && s'.bits == s.bits
    requires forall o, x :: Owns(s', o, x) <==> (o == now && x == slot) || (o != was && Owns(s, o, x))
    ensures Ownership(s')
  {
    hide Owns;
    assert Owns(s', now, slot);
    forall x | x in s'.bits ensures Owned(s', x) {
      var o :| Owns(s, o, x);
      assert o == was ==> x == slot by { OneSlot(s, was, slot, x); }
      assert o != was ==> Owns(s', o, x);
    }
  }

  lemma StepOwnership(s: State, t: Step)
    requires Inv(s) && Enabled(s, t)
    ensures Ownership(Apply(s, t))
  {
    hide Ownership, Accounts, Searching;
    var s' := Apply(s, t);
    match t
    case BeginRelease(c, h) => OwnerChanged(s, s', ByHandle(h), ByCall(c), s.handles[h]);
    case MakeHandle(c, h) => OwnerChanged(s, s', ByCall(c), ByHandle(h), s.calls[c].slot);
    case Swap(c, spurious) => SwapOwnership(s, c, spurious);
    case _ => OwnersKept(s, s');
  }

  lemma SwapOwnership(s: State, c: nat, spurious: bool)
    requires Inv(s) && Enabled(s, Swap(c, spurious))
    ensures Ownership(Apply(s, Swap(c, spurious)))
  {
    hide Ownership, Accounts;
    var s' := Apply(s, Swap(c, spurious));
    var pc := s.calls[c];
    assert Searching(s.max, pc);
    if s'.calls[c].Got? {
      OwnerGained(s, s', ByCall(c), pc.slot);
    } else if s'.calls[c].Cleared? {
      OwnerLost(s, s', ByCall(c), pc.slot);
    } else {
      OwnersKept(s, s');
    }
  }

  /** Past the semaphore there is always a free slot: the bitmap read by a permit
      holder has a zero bit, whatever the other calls did in between. */
  lemma PermitMeansFree(s: State, c: nat)
    requires Inv(s) && c in s.calls && HoldsPermit(s.calls[c])
    ensures |s.bits| < s.max
    ensures exists x :: 0 <= x < s.max && x !in s.bits
  {
    assert c in Permits(s.calls);
    FreeSlot(s.max, s.bits);
  }

  lemma StepSearching(s: State, t: Step, c: nat)
    requires Inv(s) && Enabled(s, t) && c in Apply(s, t).calls
    ensures Searching(s.max, Apply(s, t).calls[c])
  {
    hide Ownership, Accounts;
    if c in s.calls {
      assert Searching(s.max, s.calls[c]);
      if t == Read(c) && s.calls[c].Load? {
        PermitMeansFree(s, c);
      }
    }
  }

  lemma StepBits(s: State, t: Step)
    requires Inv(s) && Enabled(s, t)
    ensures forall x :: x in Apply(s, t).bits ==> x < s.max
  {
    hide Ownership, Accounts;
    if t.Swap? {
      assert Searching(s.max, s.calls[t.c]);
    }
  }

  /** Every step, taken by any call at any moment, keeps the invariant. */
  lemma StepKeepsInv(s: State, t: Step)
    requires Inv(s) && Enabled(s, t)
    ensures Inv(Apply(s, t)) && Apply(s, t).max == s.max
  {
    StepAccounts(s, t);
    StepOwnership(s, t);
    StepBits(s, t);
    hide Ownership, Accounts, Searching;
    var s' := Apply(s, t);
    forall c | c in s'.calls ensures Searching(s'.max, s'.calls[c]) {
      StepSearching(s, t, c);
    }
  }

  lemma {:induction false} RunKeepsInv(ss: seq<State>, max: nat, i: nat)
    requires Run(ss, max) && i < |ss|
    ensures Inv(ss[i]) && ss[i].max == max
  {
    if i == 0 {
      assert Permits(ss[0].calls) == {} && Clearing(ss[0].calls) == {};
    } else {
      RunKeepsInv(ss, max, i - 1);
      assert Follows(ss[i - 1], ss[i - 1 + 1]);
      var t :| Enabled(ss[i - 1], t) && ss[i] == Apply(ss[i - 1], t);
      StepKeepsInv(ss[i - 1], t);
    }
  }

  // ------------------------------------------------------------------ results

  /** In every reachable state no two handles share a slot, no handle shares one
      with a call that is acquiring or releasing, and every handle's bit is set. */
  lemma HandlesExclusive(ss: seq<State>, max: nat, i: nat)
    requires Run(ss, max) && i < |ss|
    ensures forall h, k :: h in ss[i].handles && k in ss[i].handles && ss[i].handles[h] == ss[i].handles[k] ==> h == k
    ensures forall h :: h in ss[i].handles ==> ss[i].handles[h] in ss[i].bits && ss[i].handles[h] < max
    ensures forall h, c :: h in ss[i].handles && c in ss[i].calls && OwnsBit(ss[i].calls[c]) ==>
                             ss[i].handles[h] != ss[i].calls[c].slot
  {
    RunKeepsInv(ss, max, i);
    var s := ss[i];
    forall h | h in s.handles ensures Owns(s, ByHandle(h), s.handles[h]) {
    }
    forall c | c in s.calls && OwnsBit(s.calls[c]) ensures Owns(s, ByCall(c), s.calls[c].slot) {
    }
  }

  /** The branch for a semaphore that passed with no slot free is never taken. */
  lemma NeverNoSlot(ss: seq<State>, max: nat, i: nat, c: nat)
    requires Run(ss, max) && i < |ss| && c in ss[i].calls
    ensures ss[i].calls[c] != NoSlot
    ensures HoldsPermit(ss[i].calls[c]) ==> exists x :: 0 <= x < max && x !in ss[i].bits
  {
    RunKeepsInv(ss, max, i);
    assert Searching(max, ss[i].calls[c]);
    if HoldsPermit(ss[i].calls[c]) {
      PermitMeansFree(ss[i], c);
    }
  }

  /** With no call in progress the semaphore is worth exactly the free slots, and
      the bits set are exactly the slots of the handles. */
  lemma QuiescentAccounts(ss: seq<State>, max: nat, i: nat)
    requires Run(ss, max) && i < |ss| && ss[i].calls == map[]
    ensures ss[i].sem + |ss[i].handles| == max
    ensures ss[i].bits == ss[i].handles.Values
  {
    RunKeepsInv(ss, max, i);
    HandlesExclusive(ss, max, i);
    var s := ss[i];
    assert Permits(s.calls) == {} && Clearing(s.calls) == {};
    var slots := s.handles.Values;
    forall x | x in s.bits ensures x in slots {
      var o :| Owns(s, o, x);
      assert o.h in s.handles.Keys;
    }
    assert s.bits == slots;
    Images(s.handles);
  }

  /** A one-to-one map has as many values as keys. */
  lemma {:induction false} Images(m: map<nat, nat>)
    requires forall h, k :: h in m && k in m && m[h] == m[k] ==> h == k
    ensures |m.Values| == |m|
    decreases |m|
  {
    if m == map[] {
      assert m.Values == {};
    } else {
      var h :| h in m.Keys;
      var n := m - {h};
      assert m.Keys == n.Keys + {h};
      assert |m| == |m.Keys| && |n| == |n.Keys|;
      Images(n);
      ValuesWithout(m, h);
    }
  }

  lemma ValuesWithout(m: map<nat, nat>, h: nat)
    requires h in m && forall k :: k in m && m[k] == m[h] ==> k == h
    ensures m[h] in m.Values && (m - {h}).Values == m.Values - {m[h]}
  {
    assert h in m.Keys;
    forall v | v in m.Values - {m[h]} ensures v in (m - {h}).Values {
      var k :| k in m && m[k] == v;
      assert k in (m - {h}).Keys;
    }
  }

  /** At most max handles are out at a time. */
  lemma HandlesBounded(ss: seq<State>, max: nat, i: nat)
    requires Run(ss, max) && i < |ss|
    ensures |ss[i].handles| <= |ss[i].bits| <= max
  {
    HandlesExclusive(ss, max, i);
    RunKeepsInv(ss, max, i);
    hide Run, Accounts, Ownership, Searching;
    Images(ss[i].handles);
    SubsetCount(ss[i].handles.Values, ss[i].bits);
    AtMost(max, ss[i].bits);
  }

  lemma SubsetCount(x: set<nat>, y: set<nat>)
    requires x <= y
    ensures |x| <= |y|
  {
    assert y == x + (y - x);
  }

  // --------------------------------------------------------- what a call gets

  /** The call c is begun by step t between states j and j + 1, and is in progress up to
      state i. */
  ghost predicate Spans(ss: seq<State>, t: Step, j: nat, i: nat) {
    && j < i < |ss| && Enabled(ss[j], t) && ss[j + 1] == Apply(ss[j], t)
    && forall m :: j < m <= i ==> t.c in ss[m].calls
  }

  /** The slot's bit was set at some moment of the call. */
  ghost predicate SetDuring(ss: seq<State>, want: int, j: nat, i: nat) {
    exists m :: j < m <= i < |ss| && want >= 0 && want as nat in ss[m].bits
  }

  /** Where a call for slot `want` can stand: it is never about any other slot, and it has
      failed only if there is no such slot or it was seen taken. */
  ghost predicate Wants(ss: seq<State>, max: nat, pc: Pc, want: int, j: nat, i: nat) {
    match pc
    case TryWaiting(x) => x == want
    case TryLoad(x) => x == want
    case TryCas(bitmap, slot) => slot == want && (slot in bitmap ==> SetDuring(ss, want, j, i))
    case TryFailed => want < 0 || max <= want || SetDuring(ss, want, j, i)
    case Got(slot) => slot == want
    case _ => false
  }

  lemma NextStep(ss: seq<State>, max: nat, i: nat) returns (t: Step)
    requires Run(ss, max) && i + 1 < |ss|
    ensures Enabled(ss[i], t) && ss[i + 1] == Apply(ss[i], t)
  {
    hide Enabled, Apply;
    assert Follows(ss[i], ss[i + 1]);
    t :| Enabled(ss[i], t) && ss[i + 1] == Apply(ss[i], t);
  }

  /** A step leaves the other calls where they are. */
  lemma OthersStay(s: State, t: Step, c: nat)
    requires Enabled(s, t) && c in s.calls && c in Apply(s, t).calls
    ensures t.c == c || Apply(s, t).calls[c] == s.calls[c]
  {
  }

  lemma StillSet(ss: seq<State>, want: int, j: nat, i: nat)
    requires SetDuring(ss, want, j, i) && i + 1 < |ss|
    ensures SetDuring(ss, want, j, i + 1)
  {
  }

  lemma WantsStep(ss: seq<State>, max: nat, t: Step, c: nat, want: int, j: nat, i: nat)
    requires j < i && i + 1 < |ss| && ss[i].max == max && Enabled(ss[i], t) && ss[i + 1] == Apply(ss[i], t)
    requires c in ss[i].calls && c in ss[i + 1].calls && Wants(ss, max, ss[i].calls[c], want, j, i)
    ensures Wants(ss, max, ss[i + 1].calls[c], want, j, i + 1)
  {
    OthersStay(ss[i], t, c);
    if SetDuring(ss, want, j, i) {
      StillSet(ss, want, j, i);
    }
    if want >= 0 && want as nat in ss[i].bits {
      assert SetDuring(ss, want, j, i + 1);
    }
  }

  lemma TryBegins(ss: seq<State>, max: nat, c: nat, want: int, j: nat)
    requires Spans(ss, BeginTry(c, want), j, j + 1)
    ensures Wants(ss, max, ss[j + 1].calls[c], want, j, j + 1)
  {
  }

  /** A call of ios_interp_try_acquire_slot is about the slot it was asked for, from its
      beginning to its end. */
  lemma {:induction false} TryKeepsSlot(ss: seq<State>, max: nat, c: nat, want: int, j: nat, i: nat)
    requires Run(ss, max) && Spans(ss, BeginTry(c, want), j, i)
    ensures Wants(ss, max, ss[i].calls[c], want, j, i)
    decreases i
  {
    hide Run, Enabled, Apply, Wants, Inv, SetDuring;
    if i == j + 1 {
      TryBegins(ss, max, c, want, j);
    } else {
      TryKeepsSlot(ss, max, c, want, j, i - 1);
      RunKeepsInv(ss, max, i - 1);
      var t := NextStep(ss, max, i - 1);
      WantsStep(ss, max, t, c, want, j, i - 1);
    }
  }

  lemma OwnsBelow(s: State, c: nat)
    requires Inv(s) && c in s.calls && OwnsBit(s.calls[c])
    ensures s.calls[c].slot < s.max
  {
    assert Owns(s, ByCall(c), s.calls[c].slot);
  }

  /** The handle such a call makes is for that slot. */
  lemma TryGetsSlot(ss: seq<State>, max: nat, c: nat, want: int, h: nat, j: nat, i: nat)
    requires Run(ss, max) && Spans(ss, BeginTry(c, want), j, i)
    requires Enabled(ss[i], MakeHandle(c, h))
    ensures 0 <= want < max && Apply(ss[i], MakeHandle(c, h)).handles == ss[i].handles[h := want as nat]
  {
    TryKeepsSlot(ss, max, c, want, j, i);
    RunKeepsInv(ss, max, i);
    OwnsBelow(ss[i], c);
    hide Run, Inv, Spans, SetDuring;
  }

  /** It gives the semaphore back only if there is no such slot, or its bit was set at some
      moment of the call. */
  lemma TryFailsRightly(ss: seq<State>, max: nat, c: nat, want: int, j: nat, i: nat)
    requires Run(ss, max) && Spans(ss, BeginTry(c, want), j, i)
    requires Enabled(ss[i], Signal(c))
    ensures want < 0 || max <= want || SetDuring(ss, want, j, i)
  {
    TryKeepsSlot(ss, max, c, want, j, i);
  }

  /** It is turned away at the semaphore only when as many slots are taken, or in the hands
      of other calls, as there are. */
  lemma TryTurnedAway(ss: seq<State>, max: nat, c: nat, i: nat)
    requires Run(ss, max) && i < |ss| && c in ss[i].calls && ss[i].calls[c].TryWaiting? && Enabled(ss[i], TimeOut(c))
    ensures |ss[i].bits| + |Permits(ss[i].calls)| + |Clearing(ss[i].calls)| == max
  {
    RunKeepsInv(ss, max, i);
  }

  /** A call of ios_interp_acquire that sets a bit sets the lowest one that is free. */
  lemma AcquiresLowest(ss: seq<State>, max: nat, c: nat, i: nat, spurious: bool)
    requires Run(ss, max) && i < |ss| && Enabled(ss[i], Swap(c, spurious)) && ss[i].calls[c].Cas?
    requires Apply(ss[i], Swap(c, spurious)).bits != ss[i].bits
    ensures var (s, s') := (ss[i], Apply(ss[i], Swap(c, spurious)));
            exists x :: 0 <= x < max && x !in s.bits && (forall y :: 0 <= y < x ==> y in s.bits)
              && s'.bits == s.bits + {x} && c in s'.calls && s'.calls[c] == Got(x)
  {
    RunKeepsInv(ss, max, i);
    assert Searching(max, ss[i].calls[c]);
  }

  /** A call of ios_interp_release takes out the bit of the handle it was given, and
      signals only after that. */
  ghost predicate Frees(pc: Pc, slot: nat) {
    pc == RelLoad(slot) || (pc.RelCas? && pc.slot == slot) || pc.Cleared?
  }

  lemma ReleaseBegins(s: State, c: nat, h: nat)
    requires Enabled(s, BeginRelease(c, h))
    ensures c in Apply(s, BeginRelease(c, h)).calls && Frees(Apply(s, BeginRelease(c, h)).calls[c], s.handles[h])
  {
  }

  /** And while it lasts it changes the bitmap only by taking that bit out. */
  lemma FreesStep(s: State, t: Step, c: nat, slot: nat)
    requires Enabled(s, t) && c in s.calls && c in Apply(s, t).calls && Frees(s.calls[c], slot)
    ensures Frees(Apply(s, t).calls[c], slot)
    ensures t.c == c && !s.calls[c].Cleared? && Apply(s, t).calls[c].Cleared? ==> Apply(s, t).bits == s.bits - {slot}
    ensures t.c == c && !(!s.calls[c].Cleared? && Apply(s, t).calls[c].Cleared?) ==> Apply(s, t).bits == s.bits
  {
    OthersStay(s, t, c);
  }

  lemma {:induction false} ReleaseFrees(ss: seq<State>, max: nat, c: nat, h: nat, j: nat, i: nat)
    requires Run(ss, max) && Spans(ss, BeginRelease(c, h), j, i)
    ensures Frees(ss[i].calls[c], ss[j].handles[h])
    decreases i
  {
    hide Run, Apply, Frees;
    if i == j + 1 {
      ReleaseBegins(ss[j], c, h);
    } else {
      ReleaseFrees(ss, max, c, h, j, i - 1);
      var t := NextStep(ss, max, i - 1);
      FreesStep(ss[i - 1], t, c, ss[j].handles[h]);
    }
  }
}
