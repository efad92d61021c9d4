/** What one submit call of ios_thread_pool.c does from its beginning to its end, and what a
    shutdown stops.
  */
module PoolCalls {
  import opened PoolWaits
  import opened ThreadPool
  import opened WorkQueues

  /** A submit call begins between states j and j + 1 and is in progress up to state i. */
  ghost predicate Submitting(ss: seq<State>, t: Step, j: nat, i: nat) {
    && j < i < |ss| && t.BeginSubmit? && Enabled(ss[j], t) && ss[j + 1] == Apply(ss[j], t)
    && forall m :: j < m <= i ==> t.c in ss[m].calls
  }

  // -------------------------------------------------------------- items keep their place

  /** What has entered the queue of a priority are items of that priority. */
  ghost predicate RightQueues(s: State) {
    |s.entered| == LEVELS && forall p, x :: 0 <= p < LEVELS && x in s.entered[p] ==> RightItem(s, p, x)
  }

  ghost predicate RightItem(s: State, p: nat, x: Slot) {
    x.Work? && x.id in s.items && s.items[x.id].priority == p
  }

  lemma EnteredMoves(s: State, t: Step, p: nat, x: Slot)
    requires Enabled(s, t) && p < |s.entered| == |Apply(s, t).entered| && x in Apply(s, t).entered[p]
    ensures x in s.entered[p] || (t.Submit? && x == Work(s.calls[t.c].item) && s.items[s.calls[t.c].item].priority == p)
  {
    hide Pushed, Popped, Woken, CallWoken, Highest, Oldest, Ref, Unref;
  }

  lemma EnteredLevels(s: State, t: Step)
    requires Enabled(s, t)
    ensures |Apply(s, t).entered| == |s.entered|
  {
  }

  lemma StepRightQueues(s: State, t: Step)
    requires Enabled(s, t) && RightQueues(s)
    ensures RightQueues(Apply(s, t))
  {
    hide Enabled, Apply;
    EnteredLevels(s, t);
    var s' := Apply(s, t);
    forall p, x | 0 <= p < LEVELS && x in s'.entered[p] ensures RightItem(s', p, x) {
      EnteredMoves(s, t, p, x);
      if x in s.entered[p] {
        assert RightItem(s, p, x);
      } else {
        SubmitsPresent(s, t);
      }
      ItemsKept(s, t, x.id);
    }
  }

  lemma SubmitsPresent(s: State, t: Step)
    requires Enabled(s, t) && t.Submit?
    ensures t.c in s.calls && s.calls[t.c].item in s.items
  {
  }

  lemma InitRightQueues(s: State, capacity: seq<nat>, workers: set<nat>)
    requires Init(s, capacity, workers)
    ensures RightQueues(s)
  {
  }

  lemma {:induction false} RunRightQueues(ss: seq<State>, capacity: seq<nat>, workers: set<nat>, i: nat)
    requires Run(ss, capacity, workers) && i < |ss|
    ensures RightQueues(ss[i])
  {
    hide Run, Init, Enabled, Apply, RightQueues;
    if i == 0 {
      FirstState(ss, capacity, workers);
      InitRightQueues(ss[0], capacity, workers);
    } else {
      RunRightQueues(ss, capacity, workers, i - 1);
      var t := NextStep(ss, capacity, workers, i - 1);
      StepRightQueues(ss[i - 1], t);
    }
  }

  lemma BeginsItem(s: State, t: Step)
    requires Enabled(s, t) && t.BeginSubmit?
    ensures var s' := Apply(s, t);
            && t.item in s'.items && s'.items[t.item].priority == t.priority < LEVELS
            && t.c in s'.calls && s'.calls[t.c] == ToQueue(t.item, t.blocking, false)
  {
  }

  /** An item keeps the priority it was submitted with. */
  lemma {:induction false} KeepsPriority(ss: seq<State>, capacity: seq<nat>, workers: set<nat>, t: Step, j: nat, i: nat)
    requires Run(ss, capacity, workers) && j < i < |ss|
    requires t.BeginSubmit? && Enabled(ss[j], t) && ss[j + 1] == Apply(ss[j], t)
    ensures t.item in ss[i].items && ss[i].items[t.item].priority == t.priority < LEVELS
    decreases i
  {
    hide Run, Enabled, Apply;
    if i == j + 1 {
      BeginsItem(ss[j], t);
    } else {
      KeepsPriority(ss, capacity, workers, t, j, i - 1);
      var u := NextStep(ss, capacity, workers, i - 1);
      ItemsKept(ss[i - 1], u, t.item);
    }
  }

  /** An item submitted with a priority only ever enters the queue of that priority. */
  lemma EntersItsQueue(ss: seq<State>, capacity: seq<nat>, workers: set<nat>, t: Step, j: nat, i: nat, p: nat)
    requires Run(ss, capacity, workers) && j < i < |ss| && p < LEVELS
    requires t.BeginSubmit? && Enabled(ss[j], t) && ss[j + 1] == Apply(ss[j], t)
    ensures |ss[i].entered| == LEVELS && (Work(t.item) in ss[i].entered[p] ==> p == t.priority)
  {
    hide Run, Enabled, Apply;
    KeepsPriority(ss, capacity, workers, t, j, i);
    RunRightQueues(ss, capacity, workers, i);
    if Work(t.item) in ss[i].entered[p] {
      assert RightItem(ss[i], p, Work(t.item));
    }
  }

  // ------------------------------------------------------------------- how calls end

  /** Where a call can stand that was begun with an item: it is about that item, only one
      that may block ever sleeps, and one that may block is never counted as dropped. */
  ghost predicate About(c: Call, item: nat, blocking: bool) {
    && c.item == item
    && (c.ToQueue? ==> c.blocking == blocking && (c.asleep ==> blocking))
    && (c.ToCount? ==> !blocking)
  }

  lemma AboutStep(s: State, t: Step, c: nat, item: nat, blocking: bool)
    requires Enabled(s, t) && c in s.calls && c in Apply(s, t).calls && About(s.calls[c], item, blocking)
    ensures About(Apply(s, t).calls[c], item, blocking)
  {
    hide Pushed, Popped, Highest, Oldest, Ref, Unref;
  }

  lemma {:induction false} SubmitKeepsItem(ss: seq<State>, capacity: seq<nat>, workers: set<nat>, t: Step, j: nat, i: nat)
    requires Run(ss, capacity, workers) && Submitting(ss, t, j, i)
    ensures About(ss[i].calls[t.c], t.item, t.blocking)
    decreases i
  {
    hide Run, Enabled, Apply, About;
    if i == j + 1 {
      BeginsItem(ss[j], t);
      BeginsAbout(t);
    } else {
      SubmitKeepsItem(ss, capacity, workers, t, j, i - 1);
      var u := NextStep(ss, capacity, workers, i - 1);
      AboutStep(ss[i - 1], u, t.c, t.item, t.blocking);
    }
  }

  lemma BeginsAbout(t: Step)
    requires t.BeginSubmit?
    ensures About(ToQueue(t.item, t.blocking, false), t.item, t.blocking)
  {
  }

  /** What the section under the mutex decides for a call: accepted into the queue of the
      priority it asked for, or refused because of a shutdown if it may block, or to be
      counted as dropped because that queue is full if it may not. */
  ghost predicate Decides(s: State, s': State, t: Step)
    requires t.BeginSubmit? && t.priority < LEVELS && |s.queues| == |s.entered| == LEVELS
  {
    var (full, p) := (s.queues[t.priority].count >= |s.queues[t.priority].slots|, t.priority);
    if t.blocking && s.shutdown then
      t.c in s'.calls && s'.calls[t.c] == ToDrop(t.item) && s'.refused == s.refused + 1 && s'.entered == s.entered
    else if full then
      !t.blocking && t.c in s'.calls && s'.calls[t.c] == ToCount(t.item) && s'.entered == s.entered
    else
      && t.c !in s'.calls && t.item in s'.handles && s'.submitted == s.submitted + 1
      && s'.entered == s.entered[p := s.entered[p] + [Work(t.item)]]
  }

  lemma DecidesStep(s: State, t: Step, wake: nat)
    requires t.BeginSubmit? && t.priority < LEVELS && |s.queues| == |s.entered| == LEVELS
    requires Enabled(s, Submit(t.c, wake)) && About(s.calls[t.c], t.item, t.blocking)
    requires t.item in s.items && s.items[t.item].priority == t.priority
    ensures Decides(s, Apply(s, Submit(t.c, wake)), t)
  {
    hide Pushed, Woken, Ref;
  }

  /** Every submit call is decided by what it asked for. */
  lemma SubmitDecides(ss: seq<State>, capacity: seq<nat>, workers: set<nat>, t: Step, j: nat, i: nat, wake: nat)
    requires Run(ss, capacity, workers) && Submitting(ss, t, j, i) && Enabled(ss[i], Submit(t.c, wake))
    ensures t.priority < LEVELS && |ss[i].queues| == |ss[i].entered| == LEVELS
    ensures Decides(ss[i], Apply(ss[i], Submit(t.c, wake)), t)
  {
    hide Run, Enabled, Apply, Decides, About;
    KeepsPriority(ss, capacity, workers, t, j, i);
    SubmitKeepsItem(ss, capacity, workers, t, j, i);
    RunKeepsInv(ss, capacity, workers, i);
    QueuesOf(ss[i]);
    DecidesStep(ss[i], t, wake);
  }

  lemma DropCounts(s: State, c: nat)
    requires Enabled(s, CountDropped(c))
    ensures var s' := Apply(s, CountDropped(c));
            s'.dropped == s.dropped + 1 && s'.refused == s.refused && s'.submitted == s.submitted && s'.entered == s.entered
  {
  }

  /** What total_dropped counts are calls that may not block. */
  lemma DroppedMayNotBlock(ss: seq<State>, capacity: seq<nat>, workers: set<nat>, t: Step, j: nat, i: nat)
    requires Run(ss, capacity, workers) && Submitting(ss, t, j, i) && Enabled(ss[i], CountDropped(t.c))
    ensures !t.blocking && Apply(ss[i], CountDropped(t.c)).dropped == ss[i].dropped + 1
    ensures Apply(ss[i], CountDropped(t.c)).refused == ss[i].refused
  {
    SubmitKeepsItem(ss, capacity, workers, t, j, i);
    DropCounts(ss[i], t.c);
    hide Run, Apply;
  }

  /** Every drop that is counted is counted by such a step. */
  lemma OnlyDropsCount(s: State, t: Step)
    requires Enabled(s, t)
    ensures Apply(s, t).dropped != s.dropped ==> t.CountDropped?
    ensures Apply(s, t).refused != s.refused ==> t.Submit? && s.shutdown && s.calls[t.c].blocking
  {
    hide Pushed, Popped, Highest, Oldest, Ref, Unref, Woken, CallWoken;
  }

  /** ios_thread_pool_try_submit never sleeps. */
  lemma TryNeverSleeps(ss: seq<State>, capacity: seq<nat>, workers: set<nat>, t: Step, j: nat, i: nat)
    requires Run(ss, capacity, workers) && Submitting(ss, t, j, i) && !t.blocking
    ensures !CallAsleep(ss[i].calls, t.c) && !Enabled(ss[i], Block(t.c))
  {
    SubmitKeepsItem(ss, capacity, workers, t, j, i);
    hide Run;
  }

  // ------------------------------------------------------------------------ shutdown

  lemma ShutStep(s: State, t: Step)
    requires Enabled(s, t) && s.shutdown
    ensures Apply(s, t).shutdown && Apply(s, t).left == s.left && !t.BeginSubmit?
    ensures t.Fetch? ==> t.w in Apply(s, t).workers && Apply(s, t).workers[t.w] == Exited
  {
    hide Pushed, Popped, Highest;
  }

  /** After a shutdown nothing is taken from the queues any more: a worker that looks for
      work leaves. */
  lemma {:induction false} NothingTaken(ss: seq<State>, capacity: seq<nat>, workers: set<nat>, j: nat, i: nat)
    requires Run(ss, capacity, workers) && j <= i < |ss| && ss[j].shutdown
    ensures ss[i].shutdown && ss[i].left == ss[j].left
    decreases i
  {
    hide Run, Enabled, Apply;
    if j < i {
      NothingTaken(ss, capacity, workers, j, i - 1);
      var t := NextStep(ss, capacity, workers, i - 1);
      ShutStep(ss[i - 1], t);
    }
  }
}
