/** The two conditions of ios_thread_pool.c: what waiting workers and blocked submitters
    can rely on.
  */
module PoolWaits {
  import opened ThreadPool
  import opened WorkQueues

  ghost predicate SomeWorkerAsleep(s: State) {
    exists w :: WorkerAsleep(s.workers, w)
  }

  ghost predicate SomeCallAsleep(s: State) {
    exists c :: CallAsleep(s.calls, c)
  }

  /** The workers on their way to the mutex: signalled, or never asleep. */
  ghost function Heading(workers: map<nat, Worker>): set<nat> {
    set w | w in workers && workers[w] == Idle(false)
  }

  /** While any worker sleeps, there is a worker on its way for each queued item. */
  ghost predicate KeepUp(s: State) {
    |s.queues| == LEVELS && (!s.shutdown && SomeWorkerAsleep(s) ==> Total(s.queues) <= |Heading(s.workers)|)
  }

  /** Once a shutdown has been broadcast nobody sleeps. */
  ghost predicate Told(s: State) {
    s.told ==> s.shutdown && !SomeWorkerAsleep(s) && !SomeCallAsleep(s)
  }

  /** Workers leave only at a shutdown. */
  ghost predicate Crew(s: State, workers: set<nat>) {
    s.workers.Keys == workers && (!s.shutdown ==> forall w :: w in s.workers ==> s.workers[w] != Exited)
  }

  /** A blocked call that may look again for room. */
  ghost predicate Trying(calls: map<nat, Call>, c: nat) {
    c in calls && Looks(calls[c])
  }

  ghost predicate Looks(c: Call) {
    c.ToQueue? && c.blocking && !c.asleep
  }

  ghost predicate SomeTrying(s: State) {
    exists c :: Trying(s.calls, c)
  }

  ghost predicate SleepersBlock(s: State) {
    forall c :: CallAsleep(s.calls, c) ==> s.calls[c].blocking
  }

  /** While a call is blocked there is an item to take, or a call that looks for room. */
  ghost predicate Cared(s: State) {
    |s.queues| == LEVELS && (!s.shutdown && SomeCallAsleep(s) ==> Total(s.queues) > 0 || SomeTrying(s))
  }

  ghost predicate Roomy(capacity: seq<nat>) {
    |capacity| == LEVELS && forall p :: 0 <= p < LEVELS ==> capacity[p] > 0
  }

  // --------------------------------------------------------------- how the counts move

  lemma HeadingMove(workers: map<nat, Worker>, w: nat, to: Worker)
    requires w in workers
    ensures |Heading(workers[w := to])| == |Heading(workers)|
              - (if workers[w] == Idle(false) then 1 else 0) + (if to == Idle(false) then 1 else 0)
  {
    var rest := Heading(workers) - {w};
    if to == Idle(false) {
      assert Heading(workers[w := to]) == rest + {w};
    } else {
      assert Heading(workers[w := to]) == rest;
    }
  }

  /** A worker sleeps only when nothing is queued. */
  lemma NothingToTake(s: State, w: nat)
    requires AtWork(s, w) && !Fetching(s, w)
    ensures Total(s.queues) == 0
  {
    var h := Highest(s.queues, LEVELS);
    assert s.queues[0].count == 0 && s.queues[1].count == 0 && s.queues[2].count == 0 && s.queues[3].count == 0;
  }

  // ------------------------------------------------------------------ every step keeps

  lemma SubmitKeepsUp(s: State, t: Step)
    requires Queues(s) && KeepUp(s) && Enabled(s, t) && t.Submit?
    ensures KeepUp(Apply(s, t))
  {
    if Accepts(s, t.c) {
      TotalSubmit(s, t.c);
      hide Queues, Total, Heading;
      if WorkerAsleep(s.workers, t.wake) {
        HeadingMove(s.workers, t.wake, Idle(false));
      }
    }
  }

  lemma StepKeepsUp(s: State, t: Step)
    requires Queues(s) && KeepUp(s) && Enabled(s, t)
    ensures KeepUp(Apply(s, t))
  {
    hide Queues, Total, Heading, Highest;
    var s' := Apply(s, t);
    if t.Submit? {
      SubmitKeepsUp(s, t);
    } else if t.Fetch? && !s.shutdown {
      TotalFetch(s, t.w);
      HeadingMove(s.workers, t.w, s'.workers[t.w]);
      SleptBefore(s, t);
    } else if t.Sleep? {
      NothingToTake(s, t.w);
    } else if t.Rouse? || t.Start? || t.Finish? || t.Count? || t.Release? {
      HeadingMove(s.workers, t.w, s'.workers[t.w]);
      SleptBefore(s, t);
    }
  }

  lemma SleptBefore(s: State, t: Step)
    requires Enabled(s, t) && !t.Sleep?
    ensures SomeWorkerAsleep(Apply(s, t)) ==> SomeWorkerAsleep(s)
  {
    if w :| WorkerAsleep(Apply(s, t).workers, w) {
      assert WorkerAsleep(s.workers, w);
    }
  }

  lemma StepTold(s: State, t: Step)
    requires Told(s) && Enabled(s, t)
    ensures Told(Apply(s, t))
  {
    var s' := Apply(s, t);
    if s'.told && !t.Broadcast? {
      if w :| WorkerAsleep(s'.workers, w) {
        assert WorkerAsleep(s.workers, w);
      }
      if c :| CallAsleep(s'.calls, c) {
        assert CallAsleep(s.calls, c);
      }
    }
  }

  lemma StepCrew(s: State, t: Step, workers: set<nat>)
    requires Crew(s, workers) && Enabled(s, t)
    ensures Crew(Apply(s, t), workers)
  {
  }

  lemma StepSleepersBlock(s: State, t: Step)
    requires SleepersBlock(s) && Enabled(s, t)
    ensures SleepersBlock(Apply(s, t))
  {
    var s' := Apply(s, t);
    forall c | CallAsleep(s'.calls, c) ensures s'.calls[c].blocking {
      assert t == Block(c) || CallAsleep(s.calls, c);
    }
  }

  /** A full queue that has room for anything at all is not empty. */
  lemma FullMeansQueued(s: State, c: nat, capacity: seq<nat>)
    requires Queues(s) && Capacities(s, capacity) && Roomy(capacity) && AtMutex(s, c) && MustWait(s, c)
    ensures Total(s.queues) > 0
  {
    var p := s.items[s.calls[c].item].priority;
    assert |s.queues[p].slots| == capacity[p];
  }

  lemma TryingKept(s: State, t: Step)
    requires Enabled(s, t) && !t.Block? && SomeTrying(s) && !Apply(s, t).shutdown
    requires !(t.Submit? && Accepts(s, t.c))
    ensures SomeTrying(Apply(s, t))
  {
    var c :| Trying(s.calls, c);
    assert Trying(Apply(s, t).calls, c);
  }

  lemma BlockedBefore(s: State, t: Step)
    requires Enabled(s, t) && !t.Block?
    ensures SomeCallAsleep(Apply(s, t)) ==> SomeCallAsleep(s)
  {
    if c :| CallAsleep(Apply(s, t).calls, c) {
      assert CallAsleep(s.calls, c);
    }
  }

  lemma StepCared(s: State, t: Step, capacity: seq<nat>)
    requires Queues(s) && Capacities(s, capacity) && Roomy(capacity) && SleepersBlock(s) && Cared(s) && Enabled(s, t)
    ensures Cared(Apply(s, t))
  {
    var s' := Apply(s, t);
    if !s'.shutdown && SomeCallAsleep(s') {
      if t.Block? {
        FullMeansQueued(s, t.c, capacity);
      } else if t.Submit? && Accepts(s, t.c) {
        TotalSubmit(s, t.c);
      } else {
        BlockedBefore(s, t);
        if t.Fetch? {
          assert Trying(s'.calls, t.wake);
        } else if t.RouseCall? {
          assert Trying(s'.calls, t.c);
        } else if SomeTrying(s) {
          TryingKept(s, t);
        }
      }
    }
  }

  lemma InitWaits(s: State, capacity: seq<nat>, workers: set<nat>)
    requires Init(s, capacity, workers)
    ensures KeepUp(s) && Told(s) && Crew(s, workers) && SleepersBlock(s) && Cared(s)
  {
    assert forall w :: !WorkerAsleep(s.workers, w);
    assert forall c :: !CallAsleep(s.calls, c);
  }

  lemma FirstState(ss: seq<State>, capacity: seq<nat>, workers: set<nat>)
    requires Run(ss, capacity, workers)
    ensures ss != [] && Init(ss[0], capacity, workers)
  {
  }

  lemma NextStep(ss: seq<State>, capacity: seq<nat>, workers: set<nat>, i: nat) returns (t: Step)
    requires Run(ss, capacity, workers) && i + 1 < |ss|
    ensures Enabled(ss[i], t) && ss[i + 1] == Apply(ss[i], t)
  {
    assert Follows(ss[i], ss[i + 1]);
    hide Enabled, Apply;
    t :| Enabled(ss[i], t) && ss[i + 1] == Apply(ss[i], t);
  }

  lemma {:induction false} RunWaits(ss: seq<State>, capacity: seq<nat>, workers: set<nat>, i: nat)
    requires Run(ss, capacity, workers) && i < |ss|
    ensures KeepUp(ss[i]) && Told(ss[i]) && Crew(ss[i], workers) && SleepersBlock(ss[i])
    ensures Roomy(capacity) ==> Cared(ss[i])
  {
    hide Run, Init, Inv, Enabled, Apply, KeepUp, Told, Crew, SleepersBlock, Cared, Capacities, Queues, Roomy;
    if i == 0 {
      FirstState(ss, capacity, workers);
      InitWaits(ss[0], capacity, workers);
    } else {
      var s := ss[i - 1];
      RunWaits(ss, capacity, workers, i - 1);
      RunKeepsInv(ss, capacity, workers, i - 1);
      var t := NextStep(ss, capacity, workers, i - 1);
      QueuesOf(s);
      StepKeepsUp(s, t);
      StepTold(s, t);
      StepCrew(s, t, workers);
      StepSleepersBlock(s, t);
      if Roomy(capacity) {
        StepCared(s, t, capacity);
      }
    }
  }

  // ------------------------------------------------------------------------- results

  /** No wake-up of a worker is lost: as long as one sleeps, no more items are queued than
      workers are on their way to the mutex. */
  lemma WorkersKeepUp(ss: seq<State>, capacity: seq<nat>, workers: set<nat>, i: nat)
    requires Run(ss, capacity, workers) && i < |ss| && !ss[i].shutdown
    ensures |ss[i].queues| == LEVELS
    ensures SomeWorkerAsleep(ss[i]) ==> Total(ss[i].queues) <= |Heading(ss[i].workers)|
  {
    RunWaits(ss, capacity, workers, i);
  }

  ghost predicate Awake(s: State, w: nat) {
    w in s.workers && s.workers[w] != Idle(true) && s.workers[w] != Exited
  }

  /** So while anything is queued, some worker of the pool is awake. */
  lemma QueuedMeansAwake(ss: seq<State>, capacity: seq<nat>, workers: set<nat>, i: nat) returns (w: nat)
    requires Run(ss, capacity, workers) && i < |ss| && !ss[i].shutdown && workers != {}
    requires |ss[i].queues| == LEVELS && Total(ss[i].queues) > 0
    ensures Awake(ss[i], w)
  {
    RunWaits(ss, capacity, workers, i);
    var s := ss[i];
    w :| w in workers;
    if !Awake(s, w) {
      assert WorkerAsleep(s.workers, w);
      assert Heading(s.workers) != {};
      w :| w in Heading(s.workers);
    }
  }

  /** After the broadcast of a shutdown no worker and no submitter sleeps, then or later. */
  lemma ShutdownWakesAll(ss: seq<State>, capacity: seq<nat>, workers: set<nat>, i: nat)
    requires Run(ss, capacity, workers) && i < |ss| && ss[i].told
    ensures !SomeWorkerAsleep(ss[i]) && !SomeCallAsleep(ss[i])
  {
    RunWaits(ss, capacity, workers, i);
  }

  /** A submitter is blocked, and everyone sleeps. */
  ghost predicate Stuck(s: State) {
    && !s.shutdown && SomeCallAsleep(s)
    && (forall c :: c in s.calls ==> CallAsleep(s.calls, c))
    && (forall w :: w in s.workers ==> WorkerAsleep(s.workers, w))
  }

  lemma NotStuck(ss: seq<State>, capacity: seq<nat>, workers: set<nat>, i: nat)
    requires Run(ss, capacity, workers) && i < |ss| && workers != {} && Roomy(capacity)
    ensures !Stuck(ss[i])
  {
    RunWaits(ss, capacity, workers, i);
    if Stuck(ss[i]) {
      StuckSleeps(ss[i]);
      var w := QueuedMeansAwake(ss, capacity, workers, i);
      assert false;
    }
  }

  lemma StuckSleeps(s: State)
    requires Stuck(s)
    ensures !SomeTrying(s) && forall w :: !Awake(s, w)
  {
    forall c ensures !Trying(s.calls, c) {
      assert c in s.calls ==> CallAsleep(s.calls, c);
    }
    forall w ensures !Awake(s, w) {
      assert w in s.workers ==> WorkerAsleep(s.workers, w);
    }
  }

  ghost predicate StuckRun(ss: seq<State>, capacity: seq<nat>, workers: set<nat>) {
    Run(ss, capacity, workers) && Stuck(ss[|ss| - 1])
  }

  lemma Extended(ss: seq<State>, capacity: seq<nat>, workers: set<nat>, t: Step) returns (ss': seq<State>)
    requires Run(ss, capacity, workers) && Enabled(ss[|ss| - 1], t)
    ensures ss' == ss + [Apply(ss[|ss| - 1], t)] && Run(ss', capacity, workers)
  {
    hide Enabled, Apply, Init;
    var s := ss[|ss| - 1];
    ss' := ss + [Apply(s, t)];
    forall i | 0 <= i < |ss'| - 1 ensures Follows(ss'[i], ss'[i + 1]) {
      if i == |ss| - 1 {
        assert Enabled(s, t) && ss'[i + 1] == Apply(s, t);
      } else {
        assert Follows(ss[i], ss[i + 1]);
      }
    }
  }

  /** A blocked call, nothing queued, and some workers that still have to find that out. */
  ghost predicate Nearly(s: State, todo: set<nat>) {
    && !s.shutdown && |s.queues| == |s.left| == LEVELS && Highest(s.queues, LEVELS) < 0 && SomeCallAsleep(s)
    && (forall c :: c in s.calls ==> CallAsleep(s.calls, c))
    && (forall w :: w in s.workers ==> s.workers[w] == if w in todo then Idle(false) else Idle(true))
    && todo <= s.workers.Keys
  }

  lemma {:induction false} AllSleep(ss: seq<State>, capacity: seq<nat>, workers: set<nat>, todo: set<nat>)
    returns (ss': seq<State>)
    requires Run(ss, capacity, workers) && Nearly(ss[|ss| - 1], todo)
    ensures StuckRun(ss', capacity, workers)
    decreases todo
  {
    ss' := ss;
    if todo != {} {
      var w :| w in todo;
      var s := ss[|ss| - 1];
      ss' := Extended(ss, capacity, workers, Sleep(w));
      hide Run;
      assert SomeCallAsleep(Apply(s, Sleep(w)));
      ss' := AllSleep(ss', capacity, workers, todo - {w});
    }
  }

  ghost function Start(capacity: seq<nat>, workers: set<nat>): State
    requires |capacity| == LEVELS
  {
    State([Empty(capacity[0]), Empty(capacity[1]), Empty(capacity[2]), Empty(capacity[3])], false,
          map[], map[], map w | w in workers :: Idle(false), {}, 0, 0, 0, [[], [], [], []], [[], [], [], []], 0, false)
  }

  /** Priority p has no room for anything: a submit call blocks for ever. */
  lemma NoRoomBlocks(capacity: seq<nat>, workers: set<nat>, p: nat) returns (ss: seq<State>)
    requires |capacity| == LEVELS && p < LEVELS && capacity[p] == 0
    ensures StuckRun(ss, capacity, workers)
  {
    ss := [Start(capacity, workers)];
    ss := Extended(ss, capacity, workers, BeginSubmit(0, 0, p, true));
    ss := Extended(ss, capacity, workers, Block(0));
    var s' := ss[|ss| - 1];
    hide Run;
    assert CallAsleep(s'.calls, 0);
    ss := AllSleep(ss, capacity, workers, workers);
  }

  /** The pool can come to rest with a submitter blocked exactly when the share of some
      priority of the queue size is 0. */
  lemma StuckExactly(capacity: seq<nat>, workers: set<nat>)
    requires |capacity| == LEVELS && workers != {}
    ensures (exists ss :: StuckRun(ss, capacity, workers)) <==> !Roomy(capacity)
  {
    if Roomy(capacity) {
      forall ss | Run(ss, capacity, workers) ensures !StuckRun(ss, capacity, workers) {
        NotStuck(ss, capacity, workers, |ss| - 1);
      }
    } else {
      var p :| 0 <= p < LEVELS && capacity[p] == 0;
      var ss := NoRoomBlocks(capacity, workers, p);
    }
  }

  /** With the shares that WorkQueues.WorkQueues makes, that is a queue size below 8. */
  lemma SmallPoolsBlock(maxQueueSize: nat, workers: set<nat>)
    requires workers != {}
    ensures var n := maxQueueSize;
            (exists ss :: StuckRun(ss, [n / 8, n / 2, n / 4, n / 8], workers)) <==> n < 8
  {
    var n := maxQueueSize;
    var capacity := [n / 8, n / 2, n / 4, n / 8];
    assert capacity[0] > 0 <==> n >= 8;
    StuckExactly(capacity, workers);
  }

  // ------------------------------------------------------- signals that go astray

  /** A submitter sleeps although its queue has room, and none is on its way to find out. */
  ghost predicate Forgotten(s: State) {
    !s.shutdown && !SomeTrying(s) && exists c :: SleepsWithRoom(s, c)
  }

  ghost predicate SleepsWithRoom(s: State, c: nat) {
    CallAsleep(s.calls, c) && Present(s, s.calls[c].item) && !Full(s, s.calls[c].item)
  }

  /** Every blocking submission is of priority p. */
  ghost predicate OnePriority(s: State, p: nat) {
    forall c :: c in s.calls && s.calls[c].ToQueue? && s.calls[c].blocking ==>
      s.calls[c].item in s.items && s.items[s.calls[c].item].priority == p
  }

  ghost function Tries(calls: map<nat, Call>): set<nat> {
    set c | c in calls && Trying(calls, c)
  }

  ghost function Room(q: Queue): int {
    |q.slots| - q.count
  }

  /** While a submitter sleeps, there is one on its way for each free place. */
  ghost predicate Served(s: State, p: nat) {
    |s.queues| == LEVELS && p < LEVELS && (!s.shutdown && SomeCallAsleep(s) ==> Room(s.queues[p]) <= |Tries(s.calls)|)
  }

  lemma TriesMove(calls: map<nat, Call>, c: nat, to: Call)
    ensures |Tries(calls[c := to])| == |Tries(calls)| - (if Trying(calls, c) then 1 else 0) + (if Looks(to) then 1 else 0)
  {
    hide Looks;
    TriesAfter(calls, c, to);
    hide Tries;
  }

  lemma TriesAfter(calls: map<nat, Call>, c: nat, to: Call)
    ensures Tries(calls[c := to]) == Tries(calls) - {c} + if Looks(to) then {c} else {}
    ensures c in Tries(calls) <==> Trying(calls, c)
  {
    hide Looks;
  }

  lemma TriesReturn(calls: map<nat, Call>, c: nat)
    ensures |Tries(calls - {c})| == |Tries(calls)| - (if Trying(calls, c) then 1 else 0)
  {
    assert Tries(calls - {c}) == Tries(calls) - {c};
  }

  lemma RoomSubmit(s: State, c: nat, p: nat)
    requires Queues(s) && AtMutex(s, c) && Accepts(s, c) && p < LEVELS
    ensures var (i, s') := (s.calls[c].item, Enqueued(s, c, s.calls[c].item));
            |s'.queues| == LEVELS && Room(s'.queues[p]) == Room(s.queues[p]) - if s.items[i].priority == p then 1 else 0
  {
    var x := s.calls[c].item;
    var q := s.items[x].priority;
    EnqueueAppends(s, c);
    assert QueueOk(s.queues[q], s.entered[q], s.left[q]);
    SoundCount(s.queues[q]);
    SoundCount(Pushed(s.queues[q], Work(x)));
    hide Queues, Sound, Contents;
  }

  lemma RoomFetch(s: State, w: nat, p: nat)
    requires Queues(s) && Fetching(s, w) && !s.shutdown && p < LEVELS
    ensures var h := Highest(s.queues, LEVELS);
            0 <= h && var s' := Dequeued(s, w, h);
            |s'.queues| == LEVELS && Room(s'.queues[p]) == Room(s.queues[p]) + if h == p then 1 else 0
  {
    var h := Highest(s.queues, LEVELS);
    assert QueueOk(s.queues[h], s.entered[h], s.left[h]);
    PoppedOldest(s.queues[h]);
    DequeueTakes(s, w);
    hide Queues, Sound, Contents;
  }

  lemma SubmitServes(s: State, t: Step, p: nat)
    requires Queues(s) && Served(s, p) && OnePriority(s, p) && Enabled(s, t) && t.Submit?
    ensures Served(Apply(s, t), p)
  {
    BlockedBefore(s, t);
    if Accepts(s, t.c) {
      RoomSubmit(s, t.c, p);
      TriesReturn(s.calls, t.c);
    } else {
      TriesMove(s.calls, t.c, Apply(s, t).calls[t.c]);
    }
    hide Queues, Tries, Room, Highest, Pushed;
  }

  lemma FetchServes(s: State, t: Step, p: nat)
    requires Queues(s) && Served(s, p) && SleepersBlock(s) && Enabled(s, t) && t.Fetch? && !s.shutdown
    ensures Served(Apply(s, t), p)
  {
    BlockedBefore(s, t);
    RoomFetch(s, t.w, p);
    if CallAsleep(s.calls, t.wake) {
      TriesMove(s.calls, t.wake, ToQueue(s.calls[t.wake].item, s.calls[t.wake].blocking, false));
    }
    hide Queues, Tries, Room, Highest, Popped, Oldest;
  }

  lemma BlockServes(s: State, t: Step, p: nat)
    requires Queues(s) && p < LEVELS && OnePriority(s, p) && Enabled(s, t) && t.Block?
    ensures Served(Apply(s, t), p)
  {
    hide Tries;
  }

  lemma StepServes(s: State, t: Step, p: nat)
    requires Queues(s) && Served(s, p) && SleepersBlock(s) && OnePriority(s, p) && Enabled(s, t)
    ensures Served(Apply(s, t), p)
  {
    hide Tries, Room, Queues, Highest;
    var s' := Apply(s, t);
    if t.Submit? {
      SubmitServes(s, t, p);
    } else if t.Fetch? {
      if !s.shutdown {
        FetchServes(s, t, p);
      }
    } else if t.Block? {
      BlockServes(s, t, p);
    } else if !t.Broadcast? {
      BlockedBefore(s, t);
      if t.BeginSubmit? || t.RouseCall? || t.CountDropped? {
        TriesMove(s.calls, t.c, s'.calls[t.c]);
      } else if t.Drop? {
        TriesReturn(s.calls, t.c);
      }
    }
  }

  lemma InitServes(s: State, capacity: seq<nat>, workers: set<nat>, p: nat)
    requires Init(s, capacity, workers) && p < LEVELS
    ensures Served(s, p)
  {
    assert forall c :: !CallAsleep(s.calls, c);
  }

  lemma {:induction false} RunServes(ss: seq<State>, capacity: seq<nat>, workers: set<nat>, p: nat, i: nat)
    requires Run(ss, capacity, workers) && i < |ss| && p < LEVELS
    requires forall j :: 0 <= j < |ss| ==> OnePriority(ss[j], p)
    ensures Served(ss[i], p)
  {
    hide Run, Init, Inv, Enabled, Apply, KeepUp, Told, Crew, SleepersBlock, Cared, Capacities, Queues, Served;
    hide OnePriority, Roomy;
    if i == 0 {
      FirstState(ss, capacity, workers);
      InitServes(ss[0], capacity, workers, p);
    } else {
      RunServes(ss, capacity, workers, p, i - 1);
      RunWaits(ss, capacity, workers, i - 1);
      RunKeepsInv(ss, capacity, workers, i - 1);
      var t := NextStep(ss, capacity, workers, i - 1);
      QueuesOf(ss[i - 1]);
      StepServes(ss[i - 1], t, p);
    }
  }

  lemma QueuesOf(s: State)
    requires Inv(s)
    ensures Queues(s)
  {
  }

  /** Blocking submissions are of the priorities P only. */
  ghost predicate BlockingIn(s: State, P: set<nat>) {
    forall c :: c in s.calls && s.calls[c].ToQueue? && s.calls[c].blocking ==>
      s.calls[c].item in s.items && s.items[s.calls[c].item].priority in P
  }

  ghost predicate RunIn(ss: seq<State>, capacity: seq<nat>, workers: set<nat>, P: set<nat>) {
    Run(ss, capacity, workers) && forall j :: 0 <= j < |ss| ==> BlockingIn(ss[j], P)
  }

  lemma ServedMeansNot(s: State, p: nat)
    requires Served(s, p) && OnePriority(s, p) && SleepersBlock(s)
    ensures !Forgotten(s)
  {
    if !s.shutdown && !SomeTrying(s) {
      assert Tries(s.calls) == {};
      forall c ensures !SleepsWithRoom(s, c) {
        assert CallAsleep(s.calls, c) ==> SomeCallAsleep(s) && s.calls[c].blocking;
      }
    }
  }

  /** If all blocking submissions of a run are of one priority, no signal goes astray. */
  lemma OnePriorityServed(ss: seq<State>, capacity: seq<nat>, workers: set<nat>, p: nat, i: nat)
    requires RunIn(ss, capacity, workers, {p}) && i < |ss| && p < LEVELS
    ensures !Forgotten(ss[i])
  {
    forall j | 0 <= j < |ss| ensures OnePriority(ss[j], p) {
      assert BlockingIn(ss[j], {p});
    }
    RunServes(ss, capacity, workers, p, i);
    RunWaits(ss, capacity, workers, i);
    ServedMeansNot(ss[i], p);
  }

  lemma NoRoomIn(s: State, capacity: seq<nat>, P: set<nat>)
    requires Capacities(s, capacity) && SleepersBlock(s) && BlockingIn(s, P)
    requires forall p :: p in P && p < LEVELS ==> capacity[p] == 0
    ensures !Forgotten(s)
  {
    forall c ensures !SleepsWithRoom(s, c) {
      if CallAsleep(s.calls, c) && Present(s, s.calls[c].item) {
        assert s.calls[c].blocking;
      }
    }
  }

  // ----------------------------------------------------------- a signal that does

  lemma ExtendedIn(ss: seq<State>, capacity: seq<nat>, workers: set<nat>, P: set<nat>, t: Step) returns (ss': seq<State>)
    requires RunIn(ss, capacity, workers, P) && Enabled(ss[|ss| - 1], t) && BlockingIn(Apply(ss[|ss| - 1], t), P)
    ensures ss' == ss + [Apply(ss[|ss| - 1], t)] && RunIn(ss', capacity, workers, P)
  {
    ss' := Extended(ss, capacity, workers, t);
    hide Enabled, Apply, Init, BlockingIn, Run;
    forall j | 0 <= j < |ss'| ensures BlockingIn(ss'[j], P) {
      assert j < |ss| ==> ss'[j] == ss[j];
    }
  }

  /** Nothing is going on, and item numbers from k on are free. */
  ghost predicate Calm(s: State, k: nat) {
    && !s.shutdown && s.calls == map[] && (forall w :: w in s.workers ==> s.workers[w] == Idle(false))
    && (forall i :: i in s.items ==> i < k)
  }

  ghost predicate Shaped(s: State) {
    |s.queues| == |s.entered| == |s.left| == LEVELS
  }

  /** One submission that does not have to wait. */
  lemma AddOne(ss: seq<State>, capacity: seq<nat>, workers: set<nat>, P: set<nat>, p: nat, k: nat)
    returns (ss': seq<State>)
    requires RunIn(ss, capacity, workers, P) && p < LEVELS
    requires var s := ss[|ss| - 1]; Shaped(s) && Calm(s, k) && s.queues[p].count < |s.queues[p].slots|
    ensures RunIn(ss', capacity, workers, P)
    ensures var (s, s') := (ss[|ss| - 1], ss'[|ss'| - 1]);
            && Calm(s', k + 1) && s'.workers == s.workers
            && s'.queues == s.queues[p := Pushed(s.queues[p], Work(k))]
  {
    var s := ss[|ss| - 1];
    hide RunIn, Pushed;
    ss' := ExtendedIn(ss, capacity, workers, P, BeginSubmit(0, k, p, false));
    var s1 := ss'[|ss'| - 1];
    assert forall w :: !WorkerAsleep(s1.workers, w);
    assert s1.calls - {0} == map[];
    ss' := ExtendedIn(ss', capacity, workers, P, Submit(0, 0));
  }

  lemma RunShaped(ss: seq<State>, capacity: seq<nat>, workers: set<nat>)
    requires Run(ss, capacity, workers)
    ensures var s := ss[|ss| - 1];
            && Shaped(s) && s.workers.Keys == workers && |capacity| == LEVELS
            && forall p :: 0 <= p < LEVELS ==> s.queues[p].count <= |s.queues[p].slots| == capacity[p]
  {
    var s := ss[|ss| - 1];
    RunKeepsInv(ss, capacity, workers, |ss| - 1);
    RunWaits(ss, capacity, workers, |ss| - 1);
    hide Run;
    QueuesOf(s);
    forall p | 0 <= p < LEVELS ensures s.queues[p].count <= |s.queues[p].slots| {
      assert QueueOk(s.queues[p], s.entered[p], s.left[p]);
      SoundCount(s.queues[p]);
    }
  }

  lemma PushedCount(ss: seq<State>, capacity: seq<nat>, workers: set<nat>, p: nat)
    requires Run(ss, capacity, workers) && p < LEVELS
    ensures var s := ss[|ss| - 1];
            Shaped(s) && (s.queues[p].count < |s.queues[p].slots| ==>
              forall k :: Pushed(s.queues[p], Work(k)).count == s.queues[p].count + 1)
  {
    var s := ss[|ss| - 1];
    RunKeepsInv(ss, capacity, workers, |ss| - 1);
    hide Run;
    QueuesOf(s);
    assert QueueOk(s.queues[p], s.entered[p], s.left[p]);
    if s.queues[p].count < |s.queues[p].slots| {
      PushedAppends(s.queues[p], Work(0));
    }
  }

  lemma RunOf(ss: seq<State>, capacity: seq<nat>, workers: set<nat>, P: set<nat>)
    requires RunIn(ss, capacity, workers, P)
    ensures Run(ss, capacity, workers) && ss != []
  {
  }

  /** As many as fit. */
  lemma {:induction false} Fill(ss: seq<State>, capacity: seq<nat>, workers: set<nat>, P: set<nat>, p: nat, k: nat, room: nat)
    returns (ss': seq<State>, k': nat)
    requires RunIn(ss, capacity, workers, P) && p < LEVELS && Calm(ss[|ss| - 1], k)
    requires Shaped(ss[|ss| - 1]) && room == |ss[|ss| - 1].queues[p].slots| - ss[|ss| - 1].queues[p].count
    ensures RunIn(ss', capacity, workers, P) && Calm(ss'[|ss'| - 1], k') && Shaped(ss'[|ss'| - 1])
    ensures var (s, s') := (ss[|ss| - 1], ss'[|ss'| - 1]);
            && s'.workers == s.workers && s'.queues[p].count == |s'.queues[p].slots|
            && (forall q :: 0 <= q < LEVELS && q != p ==> s'.queues[q] == s.queues[q])
    decreases room
  {
    hide Run, RunIn, Calm, Pushed;
    ss', k' := ss, k;
    if room > 0 {
      RunOf(ss, capacity, workers, P);
      RunShaped(ss, capacity, workers);
      PushedCount(ss, capacity, workers, p);
      ss' := AddOne(ss, capacity, workers, P, p, k);
      RunOf(ss', capacity, workers, P);
      RunShaped(ss', capacity, workers);
      ss', k' := Fill(ss', capacity, workers, P, p, k + 1, room - 1);
    }
  }

  /** A submission that has to wait. */
  lemma AddBlocked(ss: seq<State>, capacity: seq<nat>, workers: set<nat>, P: set<nat>, c: nat, i: nat, p: nat)
    returns (ss': seq<State>)
    requires RunIn(ss, capacity, workers, P) && p in P && p < LEVELS
    requires var s := ss[|ss| - 1];
             !s.shutdown && Shaped(s) && c !in s.calls && i !in s.items && s.queues[p].count >= |s.queues[p].slots|
    ensures RunIn(ss', capacity, workers, P)
    ensures var s := ss[|ss| - 1];
            ss'[|ss'| - 1] == s.(items := s.items[i := Item(p, 1, false, 0)], calls := s.calls[c := ToQueue(i, true, true)])
  {
    var s := ss[|ss| - 1];
    assert BlockingIn(s, P);
    hide RunIn;
    ss' := ExtendedIn(ss, capacity, workers, P, BeginSubmit(c, i, p, true));
    assert s.calls[c := ToQueue(i, true, false)][c := ToQueue(i, true, true)] == s.calls[c := ToQueue(i, true, true)];
    ss' := ExtendedIn(ss', capacity, workers, P, Block(c));
  }

  /** Submitters of two priorities sleep, both queues are full, and items are taken from
      the first. */
  ghost predicate BothBlocked(s: State, a: nat, b: nat, x: nat, y: nat) {
    && !s.shutdown && Shaped(s) && a != b && a in s.items && b in s.items
    && s.items[a].priority == x < LEVELS && s.items[b].priority == y < LEVELS && x != y
    && s.calls == map[0 := ToQueue(a, true, true), 1 := ToQueue(b, true, true)]
    && s.queues[x].count == |s.queues[x].slots| && s.queues[y].count == |s.queues[y].slots|
    && Highest(s.queues, LEVELS) == x
  }

  lemma TakenCount(ss: seq<State>, capacity: seq<nat>, workers: set<nat>, x: nat)
    requires Run(ss, capacity, workers) && x < LEVELS
    ensures var s := ss[|ss| - 1];
            Shaped(s) && (s.queues[x].count > 0 ==>
              var (q, q') := (s.queues[x], Popped(s.queues[x]).0);
              q'.count == q.count - 1 && |q'.slots| == |q.slots|)
  {
    var s := ss[|ss| - 1];
    RunKeepsInv(ss, capacity, workers, |ss| - 1);
    hide Run;
    QueuesOf(s);
    assert QueueOk(s.queues[x], s.entered[x], s.left[x]);
    if s.queues[x].count > 0 {
      PoppedOldest(s.queues[x]);
    }
  }

  /** The place that becomes free is announced to the wrong one, which goes to sleep again. */
  lemma Astray(ss: seq<State>, capacity: seq<nat>, workers: set<nat>, P: set<nat>, a: nat, b: nat, x: nat, y: nat, w: nat)
    returns (ss': seq<State>)
    requires RunIn(ss, capacity, workers, P) && ss != [] && BothBlocked(ss[|ss| - 1], a, b, x, y) && x in P && y in P
    requires w in ss[|ss| - 1].workers && ss[|ss| - 1].workers[w] == Idle(false)
    ensures RunIn(ss', capacity, workers, P) && Forgotten(ss'[|ss'| - 1])
  {
    var s := ss[|ss| - 1];
    RunOf(ss, capacity, workers, P);
    TakenCount(ss, capacity, workers, x);
    hide Run, RunIn, Highest, Popped;
    assert CallAsleep(s.calls, 1);
    ss' := ExtendedIn(ss, capacity, workers, P, Fetch(w, 1));
    var s1 := ss'[|ss'| - 1];
    assert s1.queues[y] == s.queues[y] && s1.queues[x] == Popped(s.queues[x]).0;
    assert s1.calls == map[0 := ToQueue(a, true, true), 1 := ToQueue(b, true, false)];
    ss' := ExtendedIn(ss', capacity, workers, P, Block(1));
    var s2 := ss'[|ss'| - 1];
    assert s2.calls == map[0 := ToQueue(a, true, true), 1 := ToQueue(b, true, true)];
    assert SleepsWithRoom(s2, 0);
  }

  ghost predicate StrayRun(ss: seq<State>, capacity: seq<nat>, workers: set<nat>, P: set<nat>) {
    RunIn(ss, capacity, workers, P) && Forgotten(ss[|ss| - 1])
  }

  /** Only queue x and, below it, queue y have anything in them. */
  lemma TakesFrom(queues: seq<Queue>, x: nat, y: nat)
    requires |queues| == LEVELS && x < LEVELS && y < LEVELS && queues[x].count > 0
    requires y < x || queues[y].count == 0
    requires forall q :: 0 <= q < LEVELS && q != x && q != y ==> queues[q].count == 0
    ensures Highest(queues, LEVELS) == x
  {
  }

  lemma Starts(capacity: seq<nat>, workers: set<nat>, P: set<nat>)
    requires |capacity| == LEVELS
    ensures var s := Start(capacity, workers);
            && RunIn([s], capacity, workers, P) && Calm(s, 0) && Shaped(s)
            && (forall w :: w in s.workers ==> s.workers[w] == Idle(false))
            && forall q :: 0 <= q < LEVELS ==> s.queues[q].count == 0 && |s.queues[q].slots| == capacity[q]
  {
    assert Init(Start(capacity, workers), capacity, workers);
  }

  /** Nothing is queued but as much as fits at x and at y. */
  ghost predicate TwoFull(s: State, capacity: seq<nat>, x: nat, y: nat, k: nat) {
    && x < LEVELS && y < LEVELS && Shaped(s) && |capacity| == LEVELS && Calm(s, k)
    && s.queues[x].count == |s.queues[x].slots| == capacity[x] && s.queues[y].count == |s.queues[y].slots| == capacity[y]
    && forall q :: 0 <= q < LEVELS && q != x && q != y ==> s.queues[q].count == 0
  }

  lemma Filled(capacity: seq<nat>, workers: set<nat>, P: set<nat>, x: nat, y: nat) returns (ss: seq<State>, k: nat)
    requires |capacity| == LEVELS && x < LEVELS && y < LEVELS && x != y
    ensures RunIn(ss, capacity, workers, P) && ss != [] && TwoFull(ss[|ss| - 1], capacity, x, y, k)
  {
    hide Run, RunIn, Calm, Start;
    Starts(capacity, workers, P);
    ss, k := Fill([Start(capacity, workers)], capacity, workers, P, x, 0, capacity[x]);
    RunOf(ss, capacity, workers, P);
    RunShaped(ss, capacity, workers);
    ss, k := Fill(ss, capacity, workers, P, y, k, capacity[y]);
    RunOf(ss, capacity, workers, P);
    RunShaped(ss, capacity, workers);
  }

  /** Both queues full, and a submitter asleep at each. */
  lemma Prepared(capacity: seq<nat>, workers: set<nat>, P: set<nat>, x: nat, y: nat) returns (ss: seq<State>, k: nat)
    requires |capacity| == LEVELS && x in P && y in P && x < LEVELS && y < LEVELS && x != y
    requires capacity[x] > 0 && (y < x || capacity[y] == 0)
    ensures RunIn(ss, capacity, workers, P) && ss != [] && BothBlocked(ss[|ss| - 1], k, k + 1, x, y)
    ensures forall w :: w in workers ==> w in ss[|ss| - 1].workers && ss[|ss| - 1].workers[w] == Idle(false)
  {
    hide Run, RunIn, Highest;
    ss, k := Filled(capacity, workers, P, x, y);
    RunOf(ss, capacity, workers, P);
    RunShaped(ss, capacity, workers);
    var s := ss[|ss| - 1];
    TakesFrom(s.queues, x, y);
    ss := AddBlocked(ss, capacity, workers, P, 0, k, x);
    RunOf(ss, capacity, workers, P);
    ss := AddBlocked(ss, capacity, workers, P, 1, k + 1, y);
    RunOf(ss, capacity, workers, P);
    assert s.calls[0 := ToQueue(k, true, true)][1 := ToQueue(k + 1, true, true)]
        == map[0 := ToQueue(k, true, true), 1 := ToQueue(k + 1, true, true)];
  }

  /** One condition announces room in any queue to one submitter, who may be of another
      priority and go back to sleep. */
  lemma SignalsGoAstray(capacity: seq<nat>, workers: set<nat>, P: set<nat>, x: nat, y: nat) returns (ss: seq<State>)
    requires |capacity| == LEVELS && workers != {} && x in P && y in P && x < LEVELS && y < LEVELS && x != y
    requires capacity[x] > 0 && (y < x || capacity[y] == 0)
    ensures StrayRun(ss, capacity, workers, P)
  {
    hide RunIn, Forgotten, BothBlocked;
    var k;
    ss, k := Prepared(capacity, workers, P, x, y);
    var w :| w in workers;
    ss := Astray(ss, capacity, workers, P, k, k + 1, x, y, w);
  }

  /** Two priorities, one of them with room. */
  ghost predicate Competing(capacity: seq<nat>, P: set<nat>) {
    |capacity| == LEVELS && exists x, y :: x in P && y in P && x != y && x < LEVELS && y < LEVELS && capacity[x] > 0
  }

  lemma NotCompeting(ss: seq<State>, capacity: seq<nat>, workers: set<nat>, P: set<nat>)
    requires (forall p :: p in P ==> p < LEVELS) && |capacity| == LEVELS && !Competing(capacity, P)
    requires RunIn(ss, capacity, workers, P)
    ensures !Forgotten(ss[|ss| - 1])
  {
    if p :| p in P && capacity[p] > 0 {
      assert P == {p};
      OnePriorityServed(ss, capacity, workers, p, |ss| - 1);
    } else {
      RunWaits(ss, capacity, workers, |ss| - 1);
      RunKeepsInv(ss, capacity, workers, |ss| - 1);
      hide Run;
      NoRoomIn(ss[|ss| - 1], capacity, P);
    }
  }

  /** With blocking submissions of the priorities P a submitter can be left asleep although
      there is room exactly when P has two priorities and one of them has any room. */
  lemma StraysExactly(capacity: seq<nat>, workers: set<nat>, P: set<nat>)
    requires |capacity| == LEVELS && workers != {} && forall p :: p in P ==> p < LEVELS
    ensures (exists ss :: StrayRun(ss, capacity, workers, P)) <==> Competing(capacity, P)
  {
    hide RunIn, Forgotten;
    if Competing(capacity, P) {
      var x, y :| x in P && y in P && x != y && x < LEVELS && y < LEVELS && capacity[x] > 0;
      var ss;
      if y < x || capacity[y] == 0 {
        ss := SignalsGoAstray(capacity, workers, P, x, y);
      } else {
        ss := SignalsGoAstray(capacity, workers, P, y, x);
      }
    } else {
      forall ss | RunIn(ss, capacity, workers, P) ensures !StrayRun(ss, capacity, workers, P) {
        NotCompeting(ss, capacity, workers, P);
      }
    }
  }
}
