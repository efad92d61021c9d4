/** The thread pool of ios_thread_pool.c as interleaved steps: any number of submit
    calls, workers and holders of work items.

    A section that holds the queue mutex is one step, up to the wait that gives it up;
    everything outside it is a step per shared access.  A signal wakes one sleeper if there
    is one, any of them, and sleepers may also wake by themselves.  The four queues are
    arrays with positions and counts, changed as WorkQueues.WorkQueues changes them.

    The history is the items that entered and left each queue, how often each item's
    function was called, how many submissions a shutdown refused, and whether it has been
    broadcast.
  */
module ThreadPool {
  import opened WorkQueues

  datatype Item = Item(priority: nat, refs: int, freed: bool, runs: nat)

  /** A submit call in progress, with the item it made. */
  datatype Call =
    | ToQueue(item: nat, blocking: bool, asleep: bool) // about to take the queue mutex, or waiting
    | ToCount(item: nat)                      // refused for a full queue: not counted yet
    | ToDrop(item: nat)                       // refused: about to release the item

  datatype Worker =
    | Idle(asleep: bool)                      // about to take the queue mutex, or waiting
    | Fetched(item: nat)                      // has an item, has not started it
    | Running(item: nat)                      // in its function
    | Finished(item: nat)                     // result stored, not counted yet
    | Counted(item: nat)                      // about to release the item
    | Exited

  datatype State = State(
    queues: seq<Queue>, shutdown: bool,
    items: map<nat, Item>, calls: map<nat, Call>, workers: map<nat, Worker>, handles: set<nat>,
    submitted: nat, completed: nat, dropped: nat,
    entered: seq<seq<Slot>>, left: seq<seq<Slot>>, refused: nat, told: bool)

  datatype Step =
    | BeginSubmit(c: nat, item: nat, priority: nat, blocking: bool)
    | Submit(c: nat, wake: nat)               // the section under the mutex
    | Block(c: nat)                           // the same, where it waits
    | RouseCall(c: nat)                       // the wait ends by itself
    | CountDropped(c: nat)                    // total_dropped, after the unlock
    | Drop(c: nat)
    | Fetch(w: nat, wake: nat)                // the section under the mutex
    | Sleep(w: nat)                           // the same, where it waits
    | Rouse(w: nat)                           // the wait ends by itself
    | Start(w: nat)
    | Finish(w: nat)
    | Count(w: nat)
    | Release(w: nat)
    | ReleaseHandle(item: nat)                // ios_work_release by the submitter
    | Shutdown
    | Broadcast                               // of both conditions, after it

  /** calloc: every slot null, every position and count 0. */
  ghost function Empty(n: nat): Queue {
    Queue(seq(n, _ => Null), 0, 0, 0)
  }

  ghost predicate Init(s: State, capacity: seq<nat>, workers: set<nat>) {
    && |capacity| == LEVELS
    && s == State([Empty(capacity[0]), Empty(capacity[1]), Empty(capacity[2]), Empty(capacity[3])], false,
                  map[], map[], map w | w in workers :: Idle(false), {}, 0, 0, 0, [[], [], [], []], [[], [], [], []], 0, false)
  }

  ghost predicate WorkerAsleep(workers: map<nat, Worker>, w: nat) {
    w in workers && workers[w] == Idle(true)
  }

  ghost predicate CallAsleep(calls: map<nat, Call>, c: nat) {
    c in calls && calls[c].ToQueue? && calls[c].asleep
  }

  /** A submit call that may take the mutex. */
  ghost predicate AtMutex(s: State, c: nat) {
    c in s.calls && s.calls[c].ToQueue? && !s.calls[c].asleep && Present(s, s.calls[c].item)
  }

  /** A worker that may take the mutex. */
  ghost predicate AtWork(s: State, w: nat) {
    w in s.workers && s.workers[w] == Idle(false) && |s.queues| == |s.left| == LEVELS
  }

  /** A worker that does not have to wait once it has the mutex. */
  ghost predicate Fetching(s: State, w: nat) {
    AtWork(s, w) && (s.shutdown || Highest(s.queues, LEVELS) >= 0)
  }

  /** A submit call that has to wait for room. */
  ghost predicate MustWait(s: State, c: nat)
    requires AtMutex(s, c)
  {
    s.calls[c].blocking && Full(s, s.calls[c].item) && !s.shutdown
  }

  ghost predicate Enabled(s: State, t: Step) {
    match t
    case BeginSubmit(c, item, priority, _) => c !in s.calls && item !in s.items && priority < LEVELS && !s.shutdown
    case Submit(c, wake) =>
      AtMutex(s, c) && !MustWait(s, c)
      && ((exists w :: WorkerAsleep(s.workers, w)) ==> WorkerAsleep(s.workers, wake))
    case Block(c) => AtMutex(s, c) && MustWait(s, c)
    case RouseCall(c) => CallAsleep(s.calls, c)
    case CountDropped(c) => c in s.calls && s.calls[c].ToCount?
    case Drop(c) => c in s.calls && s.calls[c].ToDrop? && Present(s, s.calls[c].item)
    case Fetch(w, wake) =>
      Fetching(s, w) && ((exists c :: CallAsleep(s.calls, c)) ==> CallAsleep(s.calls, wake))
    case Sleep(w) => AtWork(s, w) && !Fetching(s, w)
    case Rouse(w) => WorkerAsleep(s.workers, w)
    case Start(w) => w in s.workers && s.workers[w].Fetched? && Present(s, s.workers[w].item)
    case Finish(w) => w in s.workers && s.workers[w].Running?
    case Count(w) => w in s.workers && s.workers[w].Finished?
    case Release(w) => w in s.workers && s.workers[w].Counted? && Present(s, s.workers[w].item)
    case ReleaseHandle(item) => item in s.handles && Present(s, item)
    case Shutdown => true
    case Broadcast => s.shutdown
  }

  ghost predicate Present(s: State, i: nat) {
    i in s.items && s.items[i].priority < |s.queues| == |s.entered|
  }

  ghost predicate Full(s: State, i: nat)
    requires Present(s, i)
  {
    var q := s.queues[s.items[i].priority];
    q.count >= |q.slots|
  }

  /** work_item_release_internal: one reference fewer, and the memory with the last. */
  ghost function Unref(items: map<nat, Item>, i: nat): map<nat, Item>
    requires i in items
  {
    var it := items[i];
    items[i := Item(it.priority, it.refs - 1, it.freed || it.refs == 1, it.runs)]
  }

  ghost function Ref(items: map<nat, Item>, i: nat): map<nat, Item>
    requires i in items
  {
    var it := items[i];
    items[i := Item(it.priority, it.refs + 1, it.freed, it.runs)]
  }

  /** enqueue_work and the rest of a successful submit: the call's own reference goes
      to the handle it returns. */
  ghost function Enqueued(s: State, c: nat, i: nat): State
    requires Present(s, i)
  {
    var p := s.items[i].priority;
    s.(queues := s.queues[p := Pushed(s.queues[p], Work(i))], entered := s.entered[p := s.entered[p] + [Work(i)]],
       items := Ref(s.items, i), submitted := s.submitted + 1, calls := s.calls - {c}, handles := s.handles + {i})
  }

  /** The item in the slot that is taken. */
  ghost function Oldest(q: Queue): nat {
    if Popped(q).1.Work? then Popped(q).1.id else 0
  }

  ghost function Dequeued(s: State, w: nat, p: nat): State
    requires p < |s.queues| == |s.left|
  {
    s.(queues := s.queues[p := Popped(s.queues[p]).0], left := s.left[p := s.left[p] + [Popped(s.queues[p]).1]],
       workers := s.workers[w := Fetched(Oldest(s.queues[p]))])
  }

  /** pthread_cond_signal, where w is the sleeper it reaches, if there is one. */
  ghost function Woken(workers: map<nat, Worker>, w: nat): map<nat, Worker> {
    if WorkerAsleep(workers, w) then workers[w := Idle(false)] else workers
  }

  ghost function CallWoken(calls: map<nat, Call>, c: nat): map<nat, Call> {
    if CallAsleep(calls, c) then calls[c := ToQueue(calls[c].item, calls[c].blocking, false)] else calls
  }

  /** pthread_cond_broadcast. */
  ghost function AllWoken(workers: map<nat, Worker>): map<nat, Worker> {
    map w | w in workers :: if workers[w].Idle? then Idle(false) else workers[w]
  }

  ghost function AllCallsWoken(calls: map<nat, Call>): map<nat, Call> {
    map c | c in calls ::
      if calls[c].ToQueue? then ToQueue(calls[c].item, calls[c].blocking, false) else calls[c]
  }

  ghost function Apply(s: State, t: Step): State
    requires Enabled(s, t)
  {
    match t
    case BeginSubmit(c, item, priority, blocking) =>
      s.(items := s.items[item := Item(priority, 1, false, 0)], calls := s.calls[c := ToQueue(item, blocking, false)])
    case Submit(c, wake) =>
      var i := s.calls[c].item;
      if s.calls[c].blocking && s.shutdown then s.(calls := s.calls[c := ToDrop(i)], refused := s.refused + 1)
      else if Full(s, i) then s.(calls := s.calls[c := ToCount(i)])
      else Enqueued(s, c, i).(workers := Woken(s.workers, wake))
    case Block(c) => s.(calls := s.calls[c := ToQueue(s.calls[c].item, s.calls[c].blocking, true)])
    case RouseCall(c) => s.(calls := CallWoken(s.calls, c))
    case CountDropped(c) => s.(calls := s.calls[c := ToDrop(s.calls[c].item)], dropped := s.dropped + 1)
    case Drop(c) => s.(items := Unref(s.items, s.calls[c].item), calls := s.calls - {c})
    case Fetch(w, wake) =>
      if s.shutdown then s.(workers := s.workers[w := Exited])
      else Dequeued(s, w, Highest(s.queues, LEVELS)).(calls := CallWoken(s.calls, wake))
    case Sleep(w) => s.(workers := s.workers[w := Idle(true)])
    case Rouse(w) => s.(workers := Woken(s.workers, w))
    case Start(w) =>
      var i := s.workers[w].item;
      var it := s.items[i];
      s.(workers := s.workers[w := Running(i)], items := s.items[i := Item(it.priority, it.refs, it.freed, it.runs + 1)])
    case Finish(w) => s.(workers := s.workers[w := Finished(s.workers[w].item)])
    case Count(w) => s.(workers := s.workers[w := Counted(s.workers[w].item)], completed := s.completed + 1)
    case Release(w) => s.(workers := s.workers[w := Idle(false)], items := Unref(s.items, s.workers[w].item))
    case ReleaseHandle(item) => s.(handles := s.handles - {item}, items := Unref(s.items, item))
    case Shutdown => s.(shutdown := true)
    case Broadcast => s.(workers := AllWoken(s.workers), calls := AllCallsWoken(s.calls), told := true)
  }

  ghost predicate Follows(s: State, s': State) {
    exists t :: Enabled(s, t) && s' == Apply(s, t)
  }

  ghost predicate Run(ss: seq<State>, capacity: seq<nat>, workers: set<nat>) {
    ss != [] && Init(ss[0], capacity, workers) && forall i :: 0 <= i < |ss| - 1 ==> Follows(ss[i], ss[i + 1])
  }

  // ------------------------------------------------------------ who holds an item

  datatype Holder = ByCall(c: nat) | ByQueue(p: nat) | ByWorker(w: nat) | ByHandle

  ghost predicate HasItem(w: Worker) {
    !w.Idle? && !w.Exited?
  }

  ghost predicate Holds(s: State, h: Holder, i: nat) {
    match h
    case ByCall(c) => c in s.calls && s.calls[c].item == i
    case ByQueue(p) => p < |s.queues| && Work(i) in Contents(s.queues[p])
    case ByWorker(w) => w in s.workers && HasItem(s.workers[w]) && s.workers[w].item == i
    case ByHandle => i in s.handles
  }

  /** Everyone who could hold an item. */
  ghost function Places(s: State): set<Holder> {
    (set c | c in s.calls :: ByCall(c)) + (set p | 0 <= p < |s.queues| :: ByQueue(p))
    + (set w | w in s.workers :: ByWorker(w)) + {ByHandle}
  }

  lemma HolderIsPlace(s: State, i: nat)
    ensures forall h :: Holds(s, h, i) ==> h in Places(s)
  {
  }

  ghost function Holders(s: State, i: nat): (hs: set<Holder>)
    ensures forall h :: h in hs <==> Holds(s, h, i)
  {
    HolderIsPlace(s, i);
    set h | h in Places(s) && Holds(s, h, i)
  }

  /** From one state to another an item loses the holders gone and gains those come. */
  ghost predicate Passes(s: State, s': State, i: nat, gone: set<Holder>, come: set<Holder>) {
    && (forall h :: h in gone ==> Holds(s, h, i))
    && (forall h :: h in come ==> !Holds(s, h, i))
    && (forall h :: Holds(s', h, i) <==> (Holds(s, h, i) && h !in gone) || h in come)
  }

  lemma PassesCount(s: State, s': State, i: nat, gone: set<Holder>, come: set<Holder>)
    requires Passes(s, s', i, gone, come)
    ensures |Holders(s', i)| == |Holders(s, i)| - |gone| + |come|
  {
    hide Holds;
    assert Holders(s', i) == Holders(s, i) - gone + come;
    assert Holders(s, i) == (Holders(s, i) - gone) + gone;
  }

  // ---------------------------------------------------------------- invariants

  ghost predicate Distinct(q: seq<Slot>) {
    forall k, l :: 0 <= k < l < |q| ==> q[k] != q[l]
  }

  /** Each ring is sound, holds no item twice, and is what entered it without what left. */
  ghost predicate Queues(s: State) {
    && |s.queues| == |s.entered| == |s.left| == LEVELS
    && forall p :: 0 <= p < LEVELS ==> QueueOk(s.queues[p], s.entered[p], s.left[p])
  }

  ghost predicate QueueOk(q: Queue, entered: seq<Slot>, left: seq<Slot>) {
    Sound(q) && Distinct(Contents(q)) && entered == left + Contents(q)
  }

  /** Every held item exists, and queued items are in the queue of their priority. */
  ghost predicate Known(s: State, h: Holder, i: nat) {
    i in s.items && s.items[i].priority < LEVELS && (h.ByQueue? ==> h.p == s.items[i].priority)
  }

  /** Besides a handle, an item has at most one holder; while a call has it there is
      no handle yet. */
  ghost predicate Exclusive(s: State) {
    && (forall i, h, h' :: Holds(s, h, i) && Holds(s, h', i) && !h.ByHandle? && !h'.ByHandle? ==> h == h')
    && (forall i, h :: Holds(s, h, i) && h.ByCall? ==> i !in s.handles)
  }

  ghost predicate HeldKnown(s: State) {
    forall i, h :: Holds(s, h, i) ==> Known(s, h, i)
  }

  /** The reference count is the number of holders, and the memory is given back
      exactly when there is none. */
  ghost predicate RefsCount(s: State) {
    forall i :: i in s.items ==> s.items[i].refs == |Holders(s, i)| && (s.items[i].freed <==> s.items[i].refs == 0)
  }

  ghost predicate NotStarted(s: State, h: Holder) {
    h.ByCall? || h.ByQueue? || (h.ByWorker? && h.w in s.workers && s.workers[h.w].Fetched?)
  }

  ghost predicate Started(w: Worker) {
    w.Running? || w.Finished? || w.Counted?
  }

  /** No function is called twice: until it is started an item has not been run, and
      from then on it has been run once. */
  ghost predicate RunsOnce(s: State) {
    && (forall i :: i in s.items ==> s.items[i].runs <= 1)
    && (forall w :: w in s.workers && Started(s.workers[w]) && s.workers[w].item in s.items ==>
                      s.items[s.workers[w].item].runs == 1)
    && (forall i, h :: Holds(s, h, i) && NotStarted(s, h) && i in s.items ==> s.items[i].runs == 0)
  }

  ghost predicate Busy(w: Worker) {
    w.Fetched? || w.Running? || w.Finished?
  }

  ghost function InFlight(workers: map<nat, Worker>): set<nat> {
    set w | w in workers && Busy(workers[w])
  }

  /** What the four counts add up to. */
  ghost function Total(queues: seq<Queue>): nat
    requires |queues| == LEVELS
  {
    queues[0].count + queues[1].count + queues[2].count + queues[3].count
  }

  ghost function Sum(entered: seq<seq<Slot>>): nat
    requires |entered| == LEVELS
  {
    |entered[0]| + |entered[1]| + |entered[2]| + |entered[3]|
  }

  /** Accepted items are queued, in flight or completed. */
  ghost predicate Accounts(s: State) {
    && |s.queues| == |s.entered| == LEVELS
    && s.submitted == Total(s.queues) + |InFlight(s.workers)| + s.completed
    && s.submitted == Sum(s.entered)
  }

  ghost predicate Undecided(c: Call) {
    c.ToQueue? || c.ToCount?
  }

  ghost function Pending(calls: map<nat, Call>): set<nat> {
    set c | c in calls && Undecided(calls[c])
  }

  /** Every item ever made was accepted, counted as dropped, refused at shutdown, or its
      call has not got that far. */
  ghost predicate Submissions(s: State) {
    |s.items| == s.submitted + s.dropped + s.refused + |Pending(s.calls)|
  }

  ghost predicate Inv(s: State) {
    Submissions(s) && Queues(s) && Exclusive(s) && HeldKnown(s) && RefsCount(s) && RunsOnce(s) && Accounts(s)
  }

  // ----------------------------------------------------- how each step moves items

  /** Which holders of item i a step replaces by which. */
  ghost function Gone(s: State, t: Step, i: nat): set<Holder>
    requires Enabled(s, t)
  {
    match t
    case Submit(c, _) => if i == s.calls[c].item && Accepts(s, c) then {ByCall(c)} else {}
    case Drop(c) => if i == s.calls[c].item then {ByCall(c)} else {}
    case Fetch(w, _) =>
      var p := Highest(s.queues, LEVELS);
      if !s.shutdown && i == Oldest(s.queues[p]) then {ByQueue(p)} else {}
    case Release(w) => if i == s.workers[w].item then {ByWorker(w)} else {}
    case ReleaseHandle(item) => if i == item then {ByHandle} else {}
    case _ => {}
  }

  ghost function Come(s: State, t: Step, i: nat): set<Holder>
    requires Enabled(s, t)
  {
    match t
    case BeginSubmit(c, item, _, _) => if i == item then {ByCall(c)} else {}
    case Submit(c, _) =>
      if i == s.calls[c].item && Accepts(s, c) then {ByQueue(s.items[i].priority), ByHandle} else {}
    case Fetch(w, _) =>
      if !s.shutdown && i == Oldest(s.queues[Highest(s.queues, LEVELS)]) then {ByWorker(w)} else {}
    case _ => {}
  }

  ghost predicate Accepts(s: State, c: nat)
    requires AtMutex(s, c)
  {
    !(s.calls[c].blocking && s.shutdown) && !Full(s, s.calls[c].item)
  }

  lemma BeginPasses(s: State, t: Step, i: nat)
    requires HeldKnown(s) && Enabled(s, t) && t.BeginSubmit?
    ensures Passes(s, Apply(s, t), i, Gone(s, t, i), Come(s, t, i))
  {
    forall h | Holds(s, h, i) ensures Known(s, h, i) {
    }
  }

  /** Where an accepted item goes, on contents. */
  lemma EnqueueAppends(s: State, c: nat)
    requires Queues(s) && AtMutex(s, c) && Accepts(s, c)
    ensures var (i, p) := (s.calls[c].item, s.items[s.calls[c].item].priority);
            var q, q' := s.queues[p], Pushed(s.queues[p], Work(i));
            p < LEVELS && Sound(q') && Contents(q') == Contents(q) + [Work(i)]
  {
    var p := s.items[s.calls[c].item].priority;
    assert QueueOk(s.queues[p], s.entered[p], s.left[p]);
    PushedAppends(s.queues[p], Work(s.calls[c].item));
  }

  /** What a worker takes is the front of the queue it takes it from. */
  lemma DequeueTakes(s: State, w: nat)
    requires Queues(s) && Fetching(s, w) && !s.shutdown
    ensures var p := Highest(s.queues, LEVELS);
            0 <= p && var (q, q') := (s.queues[p], Popped(s.queues[p]).0);
            Sound(q) && Sound(q') && Popped(q).1 == Work(Oldest(q)) && Contents(q) == [Work(Oldest(q))] + Contents(q')
            && Distinct(Contents(q)) && q'.count == q.count - 1
  {
    var p := Highest(s.queues, LEVELS);
    assert QueueOk(s.queues[p], s.entered[p], s.left[p]);
    PoppedOldest(s.queues[p]);
  }

  /** Which items the queues hold after an item was accepted. */
  lemma EnqueueHolds(s: State, c: nat, h: Holder, x: nat)
    requires Queues(s) && AtMutex(s, c) && Accepts(s, c) && h.ByQueue?
    ensures var i := s.calls[c].item;
            Holds(Enqueued(s, c, i), h, x) <==> Holds(s, h, x) || (h.p == s.items[i].priority && x == i)
  {
    EnqueueAppends(s, c);
    hide Queues, Pushed, Contents, Sound;
  }

  lemma SubmitHolds(s: State, c: nat, h: Holder, x: nat)
    requires Queues(s) && AtMutex(s, c) && Accepts(s, c)
    ensures var i := s.calls[c].item;
            Holds(Enqueued(s, c, i), h, x)
            <==> (Holds(s, h, x) && h != ByCall(c)) || (x == i && (h == ByQueue(s.items[i].priority) || h == ByHandle))
  {
    if h.ByQueue? {
      EnqueueHolds(s, c, h, x);
    }
    hide Queues, Pushed, Contents;
  }

  lemma CallsItem(s: State, c: nat, p: nat)
    requires Exclusive(s) && c in s.calls
    ensures Holds(s, ByCall(c), s.calls[c].item)
    ensures !Holds(s, ByQueue(p), s.calls[c].item) && !Holds(s, ByHandle, s.calls[c].item)
  {
    assert Holds(s, ByCall(c), s.calls[c].item);
    assert Holds(s, ByQueue(p), s.calls[c].item) ==> ByQueue(p) == ByCall(c);
  }

  lemma OtherCall(s: State, c: nat, x: nat)
    requires c in s.calls && Holds(s, ByCall(c), x)
    ensures x == s.calls[c].item
  {
  }

  /** An accepted item passes from its call to its queue and a handle. */
  lemma AcceptPasses(s: State, c: nat, x: nat)
    requires Queues(s) && Exclusive(s) && AtMutex(s, c) && Accepts(s, c)
    ensures var (i, p) := (s.calls[c].item, s.items[s.calls[c].item].priority);
            Passes(s, Enqueued(s, c, i), x, if x == i then {ByCall(c)} else {}, if x == i then {ByQueue(p), ByHandle} else {})
  {
    var i := s.calls[c].item;
    var p := s.items[i].priority;
    CallsItem(s, c, p);
    hide Exclusive, Queues, Holds, Enqueued;
    forall h ensures Holds(Enqueued(s, c, i), h, x)
                     <==> (Holds(s, h, x) && !(x == i && h == ByCall(c))) || (x == i && (h == ByQueue(p) || h == ByHandle))
    {
      SubmitHolds(s, c, h, x);
      if h == ByCall(c) && Holds(s, h, x) {
        OtherCall(s, c, x);
      }
    }
  }

  /** Waking a sleeper moves no item. */
  lemma WokenHolds(s: State, x: nat, h: Holder, i: nat)
    ensures Holds(s.(workers := Woken(s.workers, x)), h, i) <==> Holds(s, h, i)
    ensures Holds(s.(calls := CallWoken(s.calls, x)), h, i) <==> Holds(s, h, i)
  {
  }

  lemma PassesWoken(s: State, s': State, i: nat, gone: set<Holder>, come: set<Holder>, x: nat)
    requires Passes(s, s', i, gone, come)
    ensures Passes(s, s'.(workers := Woken(s'.workers, x)), i, gone, come)
    ensures Passes(s, s'.(calls := CallWoken(s'.calls, x)), i, gone, come)
  {
    forall h ensures Holds(s'.(workers := Woken(s'.workers, x)), h, i) <==> Holds(s', h, i) {
      WokenHolds(s', x, h, i);
    }
    forall h ensures Holds(s'.(calls := CallWoken(s'.calls, x)), h, i) <==> Holds(s', h, i) {
      WokenHolds(s', x, h, i);
    }
    hide Holds;
  }

  lemma RefusedPasses(s: State, t: Step, i: nat)
    requires Enabled(s, t) && t.Submit? && !Accepts(s, t.c)
    ensures Passes(s, Apply(s, t), i, Gone(s, t, i), Come(s, t, i))
  {
  }

  lemma AcceptedMoves(s: State, t: Step, i: nat)
    requires Enabled(s, t) && t.Submit? && Accepts(s, t.c)
    ensures var (x, p, s') := (s.calls[t.c].item, s.items[s.calls[t.c].item].priority, Enqueued(s, t.c, s.calls[t.c].item));
            && Apply(s, t) == s'.(workers := Woken(s'.workers, t.wake))
            && Gone(s, t, i) == (if i == x then {ByCall(t.c)} else {})
            && Come(s, t, i) == (if i == x then {ByQueue(p), ByHandle} else {})
  {
    hide Pushed, Woken, Ref;
  }

  lemma SubmitPasses(s: State, t: Step, i: nat)
    requires Queues(s) && Exclusive(s) && Enabled(s, t) && t.Submit?
    ensures Passes(s, Apply(s, t), i, Gone(s, t, i), Come(s, t, i))
  {
    if Accepts(s, t.c) {
      var s' := Enqueued(s, t.c, s.calls[t.c].item);
      AcceptPasses(s, t.c, i);
      AcceptedMoves(s, t, i);
      hide Passes, Enqueued, Queues, Exclusive, Apply, Gone, Come;
      PassesWoken(s, s', i, Gone(s, t, i), Come(s, t, i), t.wake);
    } else {
      hide Queues, Exclusive;
      RefusedPasses(s, t, i);
    }
  }

  /** Without its first element a sequence of distinct slots has lost just that. */
  lemma WithoutFirst(x: Slot, q: seq<Slot>, y: Slot)
    requires Distinct([x] + q)
    ensures y in q <==> y in [x] + q && y != x
  {
    if k :| 0 <= k < |q| && q[k] == y {
      assert ([x] + q)[k + 1] == y && ([x] + q)[0] == x;
    }
  }

  /** Which items the queues hold after the oldest of one was taken. */
  lemma DequeueHolds(s: State, w: nat, h: Holder, x: nat)
    requires Queues(s) && Fetching(s, w) && !s.shutdown && h.ByQueue?
    ensures var p := Highest(s.queues, LEVELS);
            0 <= p && (Holds(Dequeued(s, w, p), h, x) <==> Holds(s, h, x) && !(h.p == p && x == Oldest(s.queues[p])))
  {
    DequeueTakes(s, w);
    var q := s.queues[Highest(s.queues, LEVELS)];
    WithoutFirst(Work(Oldest(q)), Contents(Popped(q).0), Work(x));
    hide Queues, Popped, Contents, Sound, Oldest;
  }

  lemma FetchHolds(s: State, w: nat, h: Holder, x: nat)
    requires Queues(s) && Fetching(s, w) && !s.shutdown
    ensures var p := Highest(s.queues, LEVELS);
            0 <= p && (Holds(Dequeued(s, w, p), h, x)
            <==> (Holds(s, h, x) && !(h == ByQueue(p) && x == Oldest(s.queues[p]))) || (x == Oldest(s.queues[p]) && h == ByWorker(w)))
  {
    if h.ByQueue? {
      DequeueHolds(s, w, h, x);
    }
    hide Queues, Popped, Contents, Oldest;
  }

  lemma FetchedMoves(s: State, t: Step, i: nat)
    requires Enabled(s, t) && t.Fetch? && !s.shutdown
    ensures var (p, s') := (Highest(s.queues, LEVELS), Dequeued(s, t.w, Highest(s.queues, LEVELS)));
            && Apply(s, t) == s'.(calls := CallWoken(s'.calls, t.wake))
            && Gone(s, t, i) == (if i == Oldest(s.queues[p]) then {ByQueue(p)} else {})
            && Come(s, t, i) == (if i == Oldest(s.queues[p]) then {ByWorker(t.w)} else {})
  {
    hide Popped, CallWoken, Oldest;
  }

  /** What a worker takes passes to it from the queue. */
  lemma TakePasses(s: State, w: nat, i: nat)
    requires Queues(s) && Fetching(s, w) && !s.shutdown
    ensures var p := Highest(s.queues, LEVELS);
            0 <= p && var x := Oldest(s.queues[p]);
            Passes(s, Dequeued(s, w, p), i, if i == x then {ByQueue(p)} else {}, if i == x then {ByWorker(w)} else {})
  {
    var p := Highest(s.queues, LEVELS);
    FetchHeld(s, w);
    assert !Holds(s, ByWorker(w), i);
    hide Queues, Oldest, Holds, Dequeued;
    forall h ensures Holds(Dequeued(s, w, p), h, i)
                     <==> (Holds(s, h, i) && !(h == ByQueue(p) && i == Oldest(s.queues[p]))) || (i == Oldest(s.queues[p]) && h == ByWorker(w))
    {
      FetchHolds(s, w, h, i);
    }
  }

  lemma ExitPasses(s: State, t: Step, i: nat)
    requires Enabled(s, t) && t.Fetch? && s.shutdown
    ensures Passes(s, Apply(s, t), i, Gone(s, t, i), Come(s, t, i))
  {
  }

  lemma FetchPasses(s: State, t: Step, i: nat)
    requires Queues(s) && Enabled(s, t) && t.Fetch?
    ensures Passes(s, Apply(s, t), i, Gone(s, t, i), Come(s, t, i))
  {
    if s.shutdown {
      hide Queues;
      ExitPasses(s, t, i);
    } else {
      TakePasses(s, t.w, i);
      FetchedMoves(s, t, i);
      hide Passes, Dequeued, Queues, Apply, Gone, Come, Oldest;
      PassesWoken(s, Dequeued(s, t.w, Highest(s.queues, LEVELS)), i, Gone(s, t, i), Come(s, t, i), t.wake);
    }
  }

  ghost predicate Releases(t: Step) {
    t.Drop? || t.Release? || t.ReleaseHandle?
  }

  lemma ReleasePasses(s: State, t: Step, i: nat)
    requires Enabled(s, t) && Releases(t)
    ensures Passes(s, Apply(s, t), i, Gone(s, t, i), Come(s, t, i))
  {
    hide Unref;
  }

  /** All other steps leave every item where it is. */
  lemma QuietHolds(s: State, t: Step, h: Holder, i: nat)
    requires Enabled(s, t) && !t.BeginSubmit? && !t.Submit? && !t.Fetch? && !Releases(t)
    ensures Holds(Apply(s, t), h, i) <==> Holds(s, h, i)
    ensures Gone(s, t, i) == Come(s, t, i) == {}
  {
  }

  lemma StepPasses(s: State, t: Step, i: nat)
    requires Inv(s) && Enabled(s, t)
    ensures Passes(s, Apply(s, t), i, Gone(s, t, i), Come(s, t, i))
  {
    hide Queues, Exclusive, HeldKnown, RefsCount, RunsOnce, Accounts, Submissions, Enabled, Apply, Gone, Come, Holds;
    if t.BeginSubmit? {
      BeginPasses(s, t, i);
    } else if t.Submit? {
      SubmitPasses(s, t, i);
    } else if t.Fetch? {
      FetchPasses(s, t, i);
    } else if Releases(t) {
      ReleasePasses(s, t, i);
    } else {
      forall h ensures Holds(Apply(s, t), h, i) <==> Holds(s, h, i) {
        QuietHolds(s, t, h, i);
      }
      QuietHolds(s, t, ByHandle, i);
    }
  }

  // ------------------------------------------------------- every step keeps Inv

  lemma AppendDistinct(q: seq<Slot>, x: Slot)
    requires Distinct(q) && x !in q
    ensures Distinct(q + [x])
  {
  }

  lemma PushedOk(q: Queue, entered: seq<Slot>, left: seq<Slot>, x: Slot)
    requires QueueOk(q, entered, left) && q.count < |q.slots| && x.Work? && x !in Contents(q)
    ensures QueueOk(Pushed(q, x), entered + [x], left)
  {
    PushedAppends(q, x);
    hide Contents, Sound, Pushed;
    AppendDistinct(Contents(q), x);
    assert left + (Contents(q) + [x]) == left + Contents(q) + [x];
  }

  lemma SubmitQueues(s: State, c: nat, wake: nat)
    requires Queues(s) && Exclusive(s) && Enabled(s, Submit(c, wake))
    ensures Queues(Apply(s, Submit(c, wake)))
  {
    if Accepts(s, c) {
      var i := s.calls[c].item;
      var p := s.items[i].priority;
      CallsItem(s, c, p);
      hide Exclusive, QueueOk, Contents, Pushed;
      PushedOk(s.queues[p], s.entered[p], s.left[p], Work(i));
    }
  }

  lemma DropDistinct(x: Slot, q: seq<Slot>)
    requires Distinct([x] + q)
    ensures Distinct(q)
  {
    forall k, l | 0 <= k < l < |q| ensures q[k] != q[l] {
      assert ([x] + q)[k + 1] == q[k] && ([x] + q)[l + 1] == q[l];
    }
  }

  lemma PoppedOk(q: Queue, entered: seq<Slot>, left: seq<Slot>)
    requires QueueOk(q, entered, left) && q.count > 0
    ensures QueueOk(Popped(q).0, entered, left + [Popped(q).1])
  {
    PoppedOldest(q);
    hide Contents, Sound, Popped;
    var (q', x) := Popped(q);
    DropDistinct(x, Contents(q'));
    assert left + ([x] + Contents(q')) == left + [x] + Contents(q');
  }

  lemma FetchQueues(s: State, w: nat, wake: nat)
    requires Queues(s) && Enabled(s, Fetch(w, wake))
    ensures Queues(Apply(s, Fetch(w, wake)))
  {
    if !s.shutdown {
      var p := Highest(s.queues, LEVELS);
      hide QueueOk, Contents, Popped, CallWoken;
      PoppedOk(s.queues[p], s.entered[p], s.left[p]);
    }
  }

  lemma StepQueues(s: State, t: Step)
    requires Inv(s) && Enabled(s, t)
    ensures Queues(Apply(s, t))
  {
    hide Exclusive, HeldKnown, RefsCount, RunsOnce, Accounts;
    if t.Submit? {
      SubmitQueues(s, t.c, t.wake);
    } else if t.Fetch? {
      FetchQueues(s, t.w, t.wake);
    }
  }

  /** An item that gains a holder other than a handle has just lost its only other
      one, or is new. */
  lemma ComeReplaces(s: State, t: Step, i: nat, h: Holder, x: Holder)
    requires Inv(s) && Enabled(s, t) && x in Come(s, t, i) && !x.ByHandle?
    ensures Holds(s, h, i) && !h.ByHandle? ==> h in Gone(s, t, i)
    ensures forall y :: y in Come(s, t, i) && !y.ByHandle? ==> y == x
  {
    hide Queues, RefsCount, RunsOnce, Accounts;
    StepPasses(s, t, i);
    if Holds(s, h, i) && !h.ByHandle? {
      assert Known(s, h, i);
      assert !t.BeginSubmit?;
      assert exists g :: g in Gone(s, t, i) && !g.ByHandle?;
    }
  }

  lemma OneHolder(s: State, t: Step, i: nat, h: Holder, h': Holder)
    requires Inv(s) && Enabled(s, t) && !h.ByHandle? && !h'.ByHandle?
    requires Holds(Apply(s, t), h, i) && Holds(Apply(s, t), h', i)
    ensures h == h'
  {
    StepPasses(s, t, i);
    hide Queues, HeldKnown, RefsCount, RunsOnce, Accounts, Holds, Gone, Come, Apply;
    if h in Come(s, t, i) {
      ComeReplaces(s, t, i, h', h);
    } else if h' in Come(s, t, i) {
      ComeReplaces(s, t, i, h, h');
    }
  }

  lemma StepExclusive(s: State, t: Step)
    requires Inv(s) && Enabled(s, t)
    ensures Exclusive(Apply(s, t))
  {
    hide Inv, Enabled, Holds, Apply;
    var s' := Apply(s, t);
    forall i, h, h' | Holds(s', h, i) && Holds(s', h', i) && !h.ByHandle? && !h'.ByHandle? ensures h == h' {
      OneHolder(s, t, i, h, h');
    }
    forall i, h | Holds(s', h, i) && h.ByCall? ensures i !in s'.handles {
      CallHasNoHandle(s, t, i, h);
    }
  }

  /** A step gives an item a handle only when it takes it from its call. */
  lemma HandleComes(s: State, t: Step, i: nat)
    requires Enabled(s, t) && ByHandle in Come(s, t, i)
    ensures t.Submit? && Gone(s, t, i) == {ByCall(t.c)} && t.c in s.calls && s.calls[t.c].item == i
  {
  }

  lemma CallComes(s: State, t: Step, i: nat, h: Holder)
    requires HeldKnown(s) && Enabled(s, t) && h in Come(s, t, i) && h.ByCall?
    ensures t.BeginSubmit? && !Holds(s, ByHandle, i) && ByHandle !in Come(s, t, i)
  {
    assert Holds(s, ByHandle, i) ==> Known(s, ByHandle, i);
  }

  lemma HandleHolds(s: State, i: nat)
    ensures Holds(s, ByHandle, i) <==> i in s.handles
  {
  }

  lemma NoHandleYet(s: State, h: Holder, i: nat)
    requires Exclusive(s) && Holds(s, h, i) && h.ByCall?
    ensures !Holds(s, ByHandle, i)
  {
  }

  lemma OneCall(s: State, h: Holder, c: nat, i: nat)
    requires Exclusive(s) && Holds(s, h, i) && h.ByCall? && c in s.calls && s.calls[c].item == i
    ensures h == ByCall(c)
  {
    assert Holds(s, ByCall(c), i);
  }

  lemma CallHasNoHandle(s: State, t: Step, i: nat, h: Holder)
    requires Inv(s) && Enabled(s, t) && Holds(Apply(s, t), h, i) && h.ByCall?
    ensures i !in Apply(s, t).handles
  {
    hide Queues, RefsCount, RunsOnce, Accounts, Submissions, Exclusive, HeldKnown, Holds, Enabled, Apply, Gone, Come;
    StepPasses(s, t, i);
    HandleHolds(Apply(s, t), i);
    if h in Come(s, t, i) {
      CallComes(s, t, i, h);
    } else {
      NoHandleYet(s, h, i);
      if ByHandle in Come(s, t, i) {
        HandleComes(s, t, i);
        OneCall(s, h, t.c, i);
      }
    }
  }

  lemma ItemsKept(s: State, t: Step, i: nat)
    requires Enabled(s, t) && i in s.items
    ensures i in Apply(s, t).items && Apply(s, t).items[i].priority == s.items[i].priority
  {
  }

  /** The item a worker takes was held by the queue it came from. */
  lemma FetchHeld(s: State, w: nat)
    requires Queues(s) && Fetching(s, w) && !s.shutdown
    ensures var p := Highest(s.queues, LEVELS); 0 <= p && Holds(s, ByQueue(p), Oldest(s.queues[p]))
  {
    DequeueTakes(s, w);
    var q := s.queues[Highest(s.queues, LEVELS)];
    assert Contents(q)[0] == Work(Oldest(q));
  }

  lemma ComeKnown(s: State, t: Step, i: nat, h: Holder)
    requires Inv(s) && Enabled(s, t) && h in Come(s, t, i)
    ensures Known(Apply(s, t), h, i)
  {
    hide Exclusive, RefsCount, RunsOnce, Accounts;
    if t.Submit? {
      assert Holds(s, ByCall(t.c), i);
      assert Known(s, ByCall(t.c), i);
    } else if t.Fetch? {
      FetchHeld(s, t.w);
      assert Known(s, ByQueue(Highest(s.queues, LEVELS)), i);
    }
  }

  lemma KnownAfter(s: State, t: Step, i: nat, h: Holder)
    requires Inv(s) && Enabled(s, t) && Holds(Apply(s, t), h, i)
    ensures Known(Apply(s, t), h, i)
  {
    StepPasses(s, t, i);
    hide Holds, Gone, Come, Apply, Enabled, Queues, Exclusive, RefsCount, RunsOnce, Accounts;
    if h in Come(s, t, i) {
      ComeKnown(s, t, i, h);
    } else {
      assert Known(s, h, i);
      ItemsKept(s, t, i);
    }
  }

  lemma StepHeldKnown(s: State, t: Step)
    requires Inv(s) && Enabled(s, t)
    ensures HeldKnown(Apply(s, t))
  {
    hide Inv, Enabled, Holds, Known, Apply;
    forall i, h | Holds(Apply(s, t), h, i) ensures Known(Apply(s, t), h, i) {
      KnownAfter(s, t, i, h);
    }
  }

  /** The counter moves with the holders, and the memory goes with the last one. */
  ghost predicate RefsFollow(s: State, t: Step, i: nat)
    requires Enabled(s, t) && i in s.items
  {
    var it, items' := s.items[i], Apply(s, t).items;
    && i in items'
    && items'[i].refs == it.refs - |Gone(s, t, i)| + |Come(s, t, i)|
    && items'[i].freed == (it.freed || (items'[i].refs == it.refs - 1 && it.refs == 1))
  }

  lemma SubmitRefs(s: State, t: Step, i: nat)
    requires Enabled(s, t) && i in s.items && t.Submit?
    ensures RefsFollow(s, t, i)
  {
    hide Pushed, Woken;
  }

  lemma FetchRefs(s: State, t: Step, i: nat)
    requires Enabled(s, t) && i in s.items && t.Fetch?
    ensures RefsFollow(s, t, i)
  {
    hide Popped, CallWoken, Oldest, Highest;
  }

  lemma ReleaseRefs(s: State, t: Step, i: nat)
    requires Enabled(s, t) && i in s.items && Releases(t)
    ensures RefsFollow(s, t, i)
  {
  }

  lemma RefsMove(s: State, t: Step, i: nat)
    requires Enabled(s, t) && i in s.items
    ensures RefsFollow(s, t, i)
  {
    if t.Submit? {
      SubmitRefs(s, t, i);
    } else if t.Fetch? {
      FetchRefs(s, t, i);
    } else if Releases(t) {
      ReleaseRefs(s, t, i);
    }
  }

  lemma NewItem(s: State, t: Step, i: nat)
    requires Inv(s) && Enabled(s, t) && i !in s.items && i in Apply(s, t).items
    ensures Holders(s, i) == {} && Gone(s, t, i) == {} && |Come(s, t, i)| == 1
    ensures Apply(s, t).items[i].refs == 1 && !Apply(s, t).items[i].freed
  {
    hide Queues, Exclusive, RefsCount, RunsOnce, Accounts, Holds;
    assert t.BeginSubmit? && t.item == i;
    forall h ensures !Holds(s, h, i) {
      assert Holds(s, h, i) ==> Known(s, h, i);
    }
  }

  /** A step takes at most one holder from an item, and gives it one only then. */
  lemma GoneShape(s: State, t: Step, i: nat)
    requires Enabled(s, t) && i in s.items
    ensures |Gone(s, t, i)| <= 1 && (Come(s, t, i) != {} ==> |Gone(s, t, i)| == 1) && |Come(s, t, i)| >= 0
  {
    hide Highest, Oldest;
  }

  lemma RefsAt(s: State, i: nat)
    requires Inv(s) && i in s.items
    ensures s.items[i].refs == |Holders(s, i)| && (s.items[i].freed <==> s.items[i].refs == 0)
  {
  }

  lemma ItemRefs(s: State, t: Step, i: nat)
    requires Inv(s) && Enabled(s, t) && i in Apply(s, t).items
    ensures var it := Apply(s, t).items[i];
            it.refs == |Holders(Apply(s, t), i)| && (it.freed <==> it.refs == 0)
  {
    hide Inv, Passes, Holds, Gone, Come, Apply, Enabled;
    var s' := Apply(s, t);
    var gone, come := Gone(s, t, i), Come(s, t, i);
    StepPasses(s, t, i);
    PassesCount(s, s', i, gone, come);
    if i in s.items {
      RefsAt(s, i);
      RefsMove(s, t, i);
      GoneShape(s, t, i);
      GoneIsHeld(s, s', i, gone, come);
    } else {
      NewItem(s, t, i);
    }
  }

  lemma GoneIsHeld(s: State, s': State, i: nat, gone: set<Holder>, come: set<Holder>)
    requires Passes(s, s', i, gone, come)
    ensures gone <= Holders(s, i) && |gone| <= |Holders(s, i)|
  {
    hide Holds;
    assert Holders(s, i) == gone + (Holders(s, i) - gone);
  }

  lemma StepRefs(s: State, t: Step)
    requires Inv(s) && Enabled(s, t)
    ensures RefsCount(Apply(s, t))
  {
    hide Inv, Enabled, Apply;
    var s' := Apply(s, t);
    forall i | i in s'.items ensures s'.items[i].refs == |Holders(s', i)| && (s'.items[i].freed <==> s'.items[i].refs == 0) {
      ItemRefs(s, t, i);
    }
  }

  ghost predicate Starts(s: State, t: Step, i: nat) {
    t.Start? && t.w in s.workers && HasItem(s.workers[t.w]) && s.workers[t.w].item == i
  }

  lemma ComeUnstarted(s: State, t: Step, i: nat, h: Holder)
    requires Inv(s) && Enabled(s, t) && i in s.items && h in Come(s, t, i)
    ensures s.items[i].runs == 0 && !t.Start?
  {
    hide Exclusive, HeldKnown, RefsCount, Accounts, Submissions;
    if t.Submit? {
      assert Holds(s, ByCall(t.c), i) && NotStarted(s, ByCall(t.c));
    } else if t.Fetch? {
      FetchHeld(s, t.w);
      assert NotStarted(s, ByQueue(Highest(s.queues, LEVELS)));
    }
  }

  lemma UnstartedKept(s: State, t: Step, i: nat, h: Holder)
    requires Enabled(s, t) && Holds(s, h, i) && NotStarted(Apply(s, t), h)
    ensures NotStarted(s, h)
  {
  }

  lemma NotRunYet(s: State, i: nat, h: Holder)
    requires Inv(s) && Holds(s, h, i) && NotStarted(s, h) && i in s.items
    ensures s.items[i].runs == 0
  {
  }

  lemma StartedIsStarted(s: State, w: nat)
    requires Enabled(s, Start(w))
    ensures Holds(s, ByWorker(w), s.workers[w].item) && !NotStarted(Apply(s, Start(w)), ByWorker(w))
  {
  }

  lemma StartIsOther(s: State, t: Step, i: nat, h: Holder)
    requires Inv(s) && Enabled(s, t) && Holds(s, h, i) && NotStarted(Apply(s, t), h)
    ensures !Starts(s, t, i)
  {
    if t.Start? {
      StartedIsStarted(s, t.w);
      hide Apply, Enabled, Queues, HeldKnown, RefsCount, RunsOnce, Accounts, Submissions, NotStarted;
      NotAHandle(s, t, h);
    }
  }

  lemma NotAHandle(s: State, t: Step, h: Holder)
    requires Enabled(s, t) && NotStarted(Apply(s, t), h)
    ensures !h.ByHandle?
  {
  }

  /** Who gets an unstarted item had it, or has it from one who had it, unstarted. */
  lemma UnstartedBefore(s: State, t: Step, i: nat, h: Holder)
    requires Inv(s) && Enabled(s, t) && i in s.items
    requires Holds(Apply(s, t), h, i) && NotStarted(Apply(s, t), h)
    ensures s.items[i].runs == 0 && !Starts(s, t, i)
  {
    hide Inv, Enabled, Holds, NotStarted, Come, Gone, Apply;
    StepPasses(s, t, i);
    if h in Come(s, t, i) {
      ComeUnstarted(s, t, i, h);
    } else {
      UnstartedKept(s, t, i, h);
      NotRunYet(s, i, h);
      StartIsOther(s, t, i, h);
    }
  }

  lemma StartRuns(s: State, w: nat)
    requires RunsOnce(s) && Enabled(s, Start(w))
    ensures s.items[s.workers[w].item].runs == 0
  {
    assert Holds(s, ByWorker(w), s.workers[w].item) && NotStarted(s, ByWorker(w));
  }

  lemma RunsMove(s: State, t: Step, i: nat)
    requires Enabled(s, t) && i in Apply(s, t).items
    ensures Apply(s, t).items[i].runs == if i !in s.items then 0
                                         else s.items[i].runs + if Starts(s, t, i) then 1 else 0
  {
  }

  lemma RunsAtMostOnce(s: State, t: Step, i: nat)
    requires Inv(s) && Enabled(s, t) && i in Apply(s, t).items
    ensures Apply(s, t).items[i].runs <= 1
  {
    hide Apply, Queues, Exclusive, HeldKnown, RefsCount, Accounts;
    RunsMove(s, t, i);
    if t.Start? {
      StartRuns(s, t.w);
    }
  }

  lemma StartedRan(s: State, t: Step, w: nat)
    requires Inv(s) && Enabled(s, t) && w in Apply(s, t).workers && Started(Apply(s, t).workers[w])
    ensures Apply(s, t).workers[w].item in Apply(s, t).items
    ensures Apply(s, t).items[Apply(s, t).workers[w].item].runs == 1
  {
    hide Apply, Enabled, Queues, Exclusive, RefsCount, Accounts;
    StartedBefore(s, t, w);
    var i := s.workers[w].item;
    assert Holds(s, ByWorker(w), i);
    assert Known(s, ByWorker(w), i);
    ItemsKept(s, t, i);
    RunsMove(s, t, i);
    if t.Start? {
      StartFetched(s, t.w);
      StartRuns(s, t.w);
    }
  }

  lemma StartFetched(s: State, w: nat)
    requires Enabled(s, Start(w))
    ensures w in s.workers && s.workers[w].Fetched?
  {
  }

  /** The step that puts worker w where it is, if it is not there already. */
  ghost predicate MovesWorker(t: Step, w: nat) {
    (t.Start? || t.Finish? || t.Count?) && t.w == w
  }

  lemma OthersNotStarted(s: State, t: Step, w: nat)
    requires Enabled(s, t) && w in Apply(s, t).workers && Started(Apply(s, t).workers[w]) && !MovesWorker(t, w)
    ensures w in s.workers && s.workers[w] == Apply(s, t).workers[w]
  {
    hide Popped, CallWoken, Pushed, Oldest, Unref, Ref, AllCallsWoken;
  }

  lemma StartedBefore(s: State, t: Step, w: nat)
    requires Enabled(s, t) && w in Apply(s, t).workers && Started(Apply(s, t).workers[w])
    ensures w in s.workers && HasItem(s.workers[w]) && s.workers[w].item == Apply(s, t).workers[w].item
    ensures t == Start(w) || Started(s.workers[w])
  {
    if !MovesWorker(t, w) {
      OthersNotStarted(s, t, w);
      hide Apply, Enabled;
    }
  }

  lemma StepRuns(s: State, t: Step)
    requires Inv(s) && Enabled(s, t)
    ensures RunsOnce(Apply(s, t))
  {
    hide Inv, Enabled, Holds, Apply, NotStarted;
    var s' := Apply(s, t);
    forall i | i in s'.items ensures s'.items[i].runs <= 1 {
      RunsAtMostOnce(s, t, i);
    }
    forall w | w in s'.workers && Started(s'.workers[w]) && s'.workers[w].item in s'.items
      ensures s'.items[s'.workers[w].item].runs == 1
    {
      StartedRan(s, t, w);
    }
    forall i, h | Holds(s', h, i) && NotStarted(s', h) && i in s'.items ensures s'.items[i].runs == 0 {
      RunsMove(s, t, i);
      if i in s.items {
        UnstartedBefore(s, t, i, h);
      }
    }
  }

  lemma InFlightMove(workers: map<nat, Worker>, w: nat, to: Worker)
    requires w in workers
    ensures |InFlight(workers[w := to])| == |InFlight(workers)|
              - (if Busy(workers[w]) then 1 else 0) + (if Busy(to) then 1 else 0)
  {
    hide Busy;
    var rest := InFlight(workers) - {w};
    if Busy(to) {
      assert InFlight(workers[w := to]) == rest + {w};
    } else {
      assert InFlight(workers[w := to]) == rest;
    }
  }

  /** Waking workers does not change what is in flight. */
  lemma InFlightWoken(workers: map<nat, Worker>, w: nat)
    ensures InFlight(Woken(workers, w)) == InFlight(workers) == InFlight(AllWoken(workers))
  {
    assert forall x :: x in InFlight(AllWoken(workers)) <==> x in InFlight(workers);
    assert forall x :: x in InFlight(Woken(workers, w)) <==> x in InFlight(workers);
  }

  lemma TotalMove(queues: seq<Queue>, p: nat, q: Queue)
    requires |queues| == LEVELS && p < LEVELS
    ensures Total(queues[p := q]) == Total(queues) - queues[p].count + q.count
  {
  }

  lemma SumMove(entered: seq<seq<Slot>>, p: nat, q: seq<Slot>)
    requires |entered| == LEVELS && p < LEVELS
    ensures Sum(entered[p := q]) == Sum(entered) - |entered[p]| + |q|
  {
  }

  lemma TotalSubmit(s: State, c: nat)
    requires Queues(s) && AtMutex(s, c) && Accepts(s, c)
    ensures var s' := Enqueued(s, c, s.calls[c].item);
            |s.queues| == |s'.queues| == LEVELS && Total(s'.queues) == Total(s.queues) + 1
  {
    var i := s.calls[c].item;
    var p := s.items[i].priority;
    EnqueueAppends(s, c);
    assert QueueOk(s.queues[p], s.entered[p], s.left[p]);
    TotalMove(s.queues, p, Pushed(s.queues[p], Work(i)));
    SoundCount(s.queues[p]);
    SoundCount(Pushed(s.queues[p], Work(i)));
    hide Queues, Sound, Contents, Pushed, Total;
  }

  lemma TotalFetch(s: State, w: nat)
    requires Queues(s) && Fetching(s, w) && !s.shutdown
    ensures var p := Highest(s.queues, LEVELS);
            0 <= p && var s' := Dequeued(s, w, p);
            |s.queues| == |s'.queues| == LEVELS && Total(s'.queues) == Total(s.queues) - 1
  {
    DequeueTakes(s, w);
    var p := Highest(s.queues, LEVELS);
    TotalMove(s.queues, p, Popped(s.queues[p]).0);
    hide Queues, Sound, Contents, Popped, Total;
  }

  lemma AcceptedAccounts(s: State, c: nat)
    requires Queues(s) && Accounts(s) && AtMutex(s, c) && Accepts(s, c)
    ensures Accounts(Enqueued(s, c, s.calls[c].item))
  {
    hide Queues, InFlight, Total, Sum, Pushed, Ref;
    var i := s.calls[c].item;
    TotalSubmit(s, c);
    SumMove(s.entered, s.items[i].priority, s.entered[s.items[i].priority] + [Work(i)]);
  }

  lemma SubmitAccounts(s: State, t: Step)
    requires Queues(s) && Accounts(s) && Enabled(s, t) && t.Submit?
    ensures Accounts(Apply(s, t))
  {
    if Accepts(s, t.c) {
      var s' := Enqueued(s, t.c, s.calls[t.c].item);
      AcceptedAccounts(s, t.c);
      AcceptedMoves(s, t, 0);
      hide Queues, Accounts, Apply, Enqueued, Gone, Come;
      AccountsAwake(s', t.wake);
    } else {
      hide Queues, Total, Sum, InFlight;
    }
  }

  lemma TakenAccounts(s: State, w: nat)
    requires Queues(s) && Accounts(s) && Fetching(s, w) && !s.shutdown
    ensures 0 <= Highest(s.queues, LEVELS) && Accounts(Dequeued(s, w, Highest(s.queues, LEVELS)))
  {
    var p := Highest(s.queues, LEVELS);
    TotalFetch(s, w);
    InFlightMove(s.workers, w, Fetched(Oldest(s.queues[p])));
    hide Queues, InFlight, Total, Sum, Popped, Oldest;
  }

  lemma AccountsAwake(s: State, x: nat)
    requires Accounts(s)
    ensures Accounts(s.(calls := CallWoken(s.calls, x))) && Accounts(s.(workers := Woken(s.workers, x)))
  {
    hide Total, Sum;
    InFlightWoken(s.workers, x);
  }

  lemma FetchAccounts(s: State, w: nat, wake: nat)
    requires Queues(s) && Accounts(s) && Enabled(s, Fetch(w, wake)) && !s.shutdown
    ensures Accounts(Apply(s, Fetch(w, wake)))
  {
    TakenAccounts(s, w);
    FetchedMoves(s, Fetch(w, wake), 0);
    hide Queues, Accounts, Apply, Dequeued, Oldest;
    AccountsAwake(Dequeued(s, w, Highest(s.queues, LEVELS)), wake);
  }

  lemma WorkerAccounts(s: State, t: Step)
    requires Inv(s) && Enabled(s, t) && (t.Sleep? || t.Start? || t.Finish? || t.Count? || t.Release?)
    ensures Accounts(Apply(s, t))
  {
    hide Exclusive, HeldKnown, RefsCount, RunsOnce, Submissions, Queues, InFlight, Total, Sum;
    InFlightMove(s.workers, t.w, Apply(s, t).workers[t.w]);
  }

  lemma ExitAccounts(s: State, w: nat, wake: nat)
    requires Inv(s) && Enabled(s, Fetch(w, wake)) && s.shutdown
    ensures Accounts(Apply(s, Fetch(w, wake)))
  {
    hide Exclusive, HeldKnown, RefsCount, RunsOnce, Submissions, Queues, InFlight, Total, Sum;
    InFlightMove(s.workers, w, Exited);
  }

  lemma StepAccounts(s: State, t: Step)
    requires Inv(s) && Enabled(s, t)
    ensures Accounts(Apply(s, t))
  {
    hide Queues, Exclusive, HeldKnown, RefsCount, RunsOnce, Submissions, InFlight, Total, Sum;
    if t.Submit? {
      SubmitAccounts(s, t);
    } else if t.Fetch? {
      if s.shutdown {
        ExitAccounts(s, t.w, t.wake);
      } else {
        FetchAccounts(s, t.w, t.wake);
      }
    } else if t.Sleep? || t.Start? || t.Finish? || t.Count? || t.Release? {
      WorkerAccounts(s, t);
    } else if t.Rouse? || t.Broadcast? {
      InFlightWoken(s.workers, if t.Rouse? then t.w else 0);
    }
  }

  lemma PendingMove(calls: map<nat, Call>, c: nat, to: Call)
    ensures |Pending(calls[c := to])| == |Pending(calls)|
              - (if c in calls && Undecided(calls[c]) then 1 else 0) + (if Undecided(to) then 1 else 0)
  {
    hide Undecided;
    PendingAfter(calls, c, to);
    hide Pending;
  }

  lemma PendingAfter(calls: map<nat, Call>, c: nat, to: Call)
    ensures Pending(calls[c := to]) == Pending(calls) - {c} + if Undecided(to) then {c} else {}
    ensures c in Pending(calls) <==> c in calls && Undecided(calls[c])
  {
    hide Undecided;
  }

  /** Nor does waking calls change which of them are undecided. */
  lemma PendingWoken(calls: map<nat, Call>, c: nat)
    ensures Pending(CallWoken(calls, c)) == Pending(calls) == Pending(AllCallsWoken(calls))
  {
    assert forall x :: x in Pending(AllCallsWoken(calls)) <==> x in Pending(calls);
    assert forall x :: x in Pending(CallWoken(calls, c)) <==> x in Pending(calls);
  }

  lemma PendingReturn(calls: map<nat, Call>, c: nat)
    requires c in calls
    ensures |Pending(calls - {c})| == |Pending(calls)| - (if Undecided(calls[c]) then 1 else 0)
  {
    assert Pending(calls - {c}) == Pending(calls) - {c};
  }

  lemma ItemsKeys(s: State, t: Step)
    requires Enabled(s, t)
    ensures t.BeginSubmit? ==> t.item !in s.items.Keys && Apply(s, t).items.Keys == s.items.Keys + {t.item}
    ensures !t.BeginSubmit? ==> Apply(s, t).items.Keys == s.items.Keys
  {
  }

  lemma ItemsCount(s: State, t: Step)
    requires Enabled(s, t)
    ensures |Apply(s, t).items| == |s.items| + if t.BeginSubmit? then 1 else 0
  {
    var s' := Apply(s, t);
    ItemsKeys(s, t);
    hide Apply, Enabled;
    assert |s'.items| == |s'.items.Keys| && |s.items| == |s.items.Keys|;
  }

  /** What a step decides about a submission. */
  ghost function Decided(s: State, t: Step): int
    requires Enabled(s, t)
  {
    if t.CountDropped? || (t.Submit? && ((s.calls[t.c].blocking && s.shutdown) || !Full(s, s.calls[t.c].item))) then 1 else 0
  }

  lemma DecisionsMove(s: State, t: Step)
    requires Enabled(s, t)
    ensures var s' := Apply(s, t);
            s'.submitted + s'.dropped + s'.refused == s.submitted + s.dropped + s.refused + Decided(s, t)
  {
  }

  lemma StepPending(s: State, t: Step)
    requires Enabled(s, t)
    ensures |Pending(Apply(s, t).calls)| == |Pending(s.calls)| + (if t.BeginSubmit? then 1 else 0) - Decided(s, t)
  {
    hide Pending;
    if t.BeginSubmit? {
      PendingMove(s.calls, t.c, ToQueue(t.item, t.blocking, false));
    } else if t.Submit? {
      PendingMove(s.calls, t.c, ToDrop(s.calls[t.c].item));
      PendingMove(s.calls, t.c, ToCount(s.calls[t.c].item));
      PendingReturn(s.calls, t.c);
    } else if t.CountDropped? {
      PendingMove(s.calls, t.c, ToDrop(s.calls[t.c].item));
    } else if t.Drop? {
      PendingReturn(s.calls, t.c);
    } else if t.Block? {
      PendingMove(s.calls, t.c, ToQueue(s.calls[t.c].item, s.calls[t.c].blocking, true));
    } else if t.RouseCall? || t.Fetch? || t.Broadcast? {
      PendingWoken(s.calls, if t.RouseCall? then t.c else if t.Fetch? then t.wake else 0);
    }
  }

  lemma StepSubmissions(s: State, t: Step)
    requires Inv(s) && Enabled(s, t)
    ensures Submissions(Apply(s, t))
  {
    hide Enabled, Apply, Decided, Queues, Exclusive, HeldKnown, RefsCount, RunsOnce, Accounts, Pending;
    ItemsCount(s, t);
    DecisionsMove(s, t);
    StepPending(s, t);
  }

  /** The arrays of the queues keep their lengths. */
  ghost predicate Capacities(s: State, capacity: seq<nat>) {
    |s.queues| == |capacity| == LEVELS && forall p :: 0 <= p < LEVELS ==> |s.queues[p].slots| == capacity[p]
  }

  lemma StepCapacities(s: State, t: Step, capacity: seq<nat>)
    requires Enabled(s, t) && Capacities(s, capacity)
    ensures Capacities(Apply(s, t), capacity)
  {
  }

  /** Every step of every thread keeps the invariant. */
  lemma StepKeepsInv(s: State, t: Step)
    requires Inv(s) && Enabled(s, t)
    ensures Inv(Apply(s, t))
  {
    hide Enabled, Apply, Submissions, Queues, Exclusive, HeldKnown, RefsCount, RunsOnce, Accounts;
    StepSubmissions(s, t);
    StepQueues(s, t);
    StepExclusive(s, t);
    StepHeldKnown(s, t);
    StepRefs(s, t);
    StepRuns(s, t);
    StepAccounts(s, t);
  }

  lemma EmptyQueue(n: nat)
    ensures QueueOk(Empty(n), [], []) && Contents(Empty(n)) == []
  {
  }

  lemma InitHoldsNothing(s: State, capacity: seq<nat>, workers: set<nat>, h: Holder, i: nat)
    requires Init(s, capacity, workers)
    ensures !Holds(s, h, i)
  {
    if h.ByQueue? && h.p < LEVELS {
      EmptyQueue(capacity[h.p]);
    }
  }

  lemma InitCounts(s: State, capacity: seq<nat>, workers: set<nat>)
    requires Init(s, capacity, workers)
    ensures Submissions(s) && Queues(s) && Accounts(s) && Capacities(s, capacity)
  {
    forall p | 0 <= p < LEVELS ensures QueueOk(s.queues[p], s.entered[p], s.left[p]) {
      EmptyQueue(capacity[p]);
    }
    assert InFlight(s.workers) == {} && Pending(s.calls) == {};
  }

  lemma InitInv(s: State, capacity: seq<nat>, workers: set<nat>)
    requires Init(s, capacity, workers)
    ensures Inv(s) && Capacities(s, capacity)
  {
    InitCounts(s, capacity, workers);
    hide Holds, Submissions, Queues, Accounts, Capacities;
    forall h, i ensures !Holds(s, h, i) {
      InitHoldsNothing(s, capacity, workers, h, i);
    }
    assert RunsOnce(s) && Exclusive(s) && HeldKnown(s) && RefsCount(s);
  }

  lemma {:induction false} RunKeepsInv(ss: seq<State>, capacity: seq<nat>, workers: set<nat>, i: nat)
    requires Run(ss, capacity, workers) && i < |ss|
    ensures Inv(ss[i]) && Capacities(ss[i], capacity)
  {
    if i == 0 {
      InitInv(ss[0], capacity, workers);
    } else {
      RunKeepsInv(ss, capacity, workers, i - 1);
      assert Follows(ss[i - 1], ss[i - 1 + 1]);
      var t :| Enabled(ss[i - 1], t) && ss[i] == Apply(ss[i - 1], t);
      StepKeepsInv(ss[i - 1], t);
      StepCapacities(ss[i - 1], t, capacity);
    }
  }

  // ------------------------------------------------------------------- results

  /** In every reachable state, however often the positions have wrapped around, each
      priority is a first-in first-out queue: what has entered is what has left and then
      the slots in use, from head on; the count is their number, and none is null. */
  lemma QueuesAreFifo(ss: seq<State>, capacity: seq<nat>, workers: set<nat>, i: nat, p: nat)
    requires Run(ss, capacity, workers) && i < |ss| && p < LEVELS
    ensures |ss[i].entered| == |ss[i].left| == |ss[i].queues| == |capacity| == LEVELS
    ensures var q := ss[i].queues[p];
            && ss[i].entered[p] == ss[i].left[p] + Queued(q.slots, q.head, q.count)
            && q.count == |Queued(q.slots, q.head, q.count)| <= |q.slots| == capacity[p]
            && Null !in Queued(q.slots, q.head, q.count)
  {
    RunKeepsInv(ss, capacity, workers, i);
    assert QueueOk(ss[i].queues[p], ss[i].entered[p], ss[i].left[p]);
  }

  /** The worker has the first item that entered queue p and has not left it, and every
      item that entered a higher one has. */
  ghost predicate TookNext(s: State, w: Worker, p: int) {
    && |s.entered| == |s.left| == LEVELS && 0 <= p < LEVELS
    && |s.left[p]| < |s.entered[p]| && s.entered[p][|s.left[p]|].Work? && w == Fetched(s.entered[p][|s.left[p]|].id)
    && forall q :: p < q < LEVELS ==> s.entered[q] == s.left[q]
  }

  lemma FetchTakesNext(s: State, w: nat, p: int)
    requires Queues(s) && Fetching(s, w) && !s.shutdown && p == Highest(s.queues, LEVELS)
    ensures 0 <= p && TookNext(s, Fetched(Oldest(s.queues[p])), p)
  {
    DequeueTakes(s, w);
    assert QueueOk(s.queues[p], s.entered[p], s.left[p]);
    assert Contents(s.queues[p])[0] == s.entered[p][|s.left[p]|];
    forall q | p < q < LEVELS ensures s.entered[q] == s.left[q] {
      NothingQueued(s, q);
    }
    hide Queues, Sound, Contents, Popped, Oldest;
  }

  lemma NothingQueued(s: State, p: nat)
    requires Queues(s) && p < LEVELS && s.queues[p].count == 0
    ensures s.entered[p] == s.left[p]
  {
    assert QueueOk(s.queues[p], s.entered[p], s.left[p]);
    assert s.left[p] + [] == s.left[p];
  }

  lemma FetchedWorker(s: State, w: nat, wake: nat)
    requires Inv(s) && Enabled(s, Fetch(w, wake)) && !s.shutdown
    ensures Queues(s) && Fetching(s, w) && 0 <= Highest(s.queues, LEVELS)
    ensures w in Apply(s, Fetch(w, wake)).workers
    ensures Apply(s, Fetch(w, wake)).workers[w] == Fetched(Oldest(s.queues[Highest(s.queues, LEVELS)]))
  {
    hide Queues, Exclusive, HeldKnown, RefsCount, RunsOnce, Accounts, Submissions, Oldest, Popped;
  }

  /** In every run a worker that takes from the arrays gets what entered first, of what
      is still queued, at the highest priority that has anything queued. */
  lemma FetchesOldestHighest(ss: seq<State>, capacity: seq<nat>, workers: set<nat>, i: nat, w: nat, wake: nat)
    returns (p: int)
    requires Run(ss, capacity, workers) && i + 1 < |ss| && Enabled(ss[i], Fetch(w, wake)) && !ss[i].shutdown
    requires ss[i + 1] == Apply(ss[i], Fetch(w, wake))
    ensures w in ss[i + 1].workers && TookNext(ss[i], ss[i + 1].workers[w], p)
  {
    RunKeepsInv(ss, capacity, workers, i);
    hide Run, Inv, Queues, Capacities, Enabled, Apply, TookNext, Oldest;
    FetchedWorker(ss[i], w, wake);
    p := Highest(ss[i].queues, LEVELS);
    FetchTakesNext(ss[i], w, p);
  }

  /** Every accepted item is queued, in flight or completed, each counted once. */
  lemma ItemsConserved(ss: seq<State>, capacity: seq<nat>, workers: set<nat>, i: nat)
    requires Run(ss, capacity, workers) && i < |ss|
    ensures |ss[i].queues| == LEVELS
    ensures ss[i].submitted == Total(ss[i].queues) + |InFlight(ss[i].workers)| + ss[i].completed
  {
    RunKeepsInv(ss, capacity, workers, i);
  }

  /** Every item made for a submission was accepted, counted as dropped because its
      queue was full, refused at shutdown, or its call has not yet got that far. */
  lemma SubmissionsDecided(ss: seq<State>, capacity: seq<nat>, workers: set<nat>, i: nat)
    requires Run(ss, capacity, workers) && i < |ss|
    ensures |ss[i].items| == ss[i].submitted + ss[i].dropped + ss[i].refused + |Pending(ss[i].calls)|
  {
    RunKeepsInv(ss, capacity, workers, i);
  }

  /** An item's function is called at most once, and once by the time a worker has
      stored its result. */
  lemma RunAtMostOnce(ss: seq<State>, capacity: seq<nat>, workers: set<nat>, i: nat, x: nat)
    requires Run(ss, capacity, workers) && i < |ss| && x in ss[i].items
    ensures ss[i].items[x].runs <= 1
    ensures forall w :: w in ss[i].workers && Started(ss[i].workers[w]) && ss[i].workers[w].item == x ==> ss[i].items[x].runs == 1
  {
    RunKeepsInv(ss, capacity, workers, i);
  }

  /** An item is freed exactly when no call, queue, worker or handle holds it, and its
      counter is the number of those that do. */
  lemma FreedExactlyWhenUnheld(ss: seq<State>, capacity: seq<nat>, workers: set<nat>, i: nat, x: nat)
    requires Run(ss, capacity, workers) && i < |ss| && x in ss[i].items
    ensures ss[i].items[x].refs == |Holders(ss[i], x)|
    ensures ss[i].items[x].freed <==> forall h :: !Holds(ss[i], h, x)
  {
    RunKeepsInv(ss, capacity, workers, i);
    hide Holds;
    var hs := Holders(ss[i], x);
    if h :| Holds(ss[i], h, x) {
      assert h in hs;
    } else {
      assert hs == {};
    }
  }

  /** Whatever a thread has in hand is there: the item of a call, worker, queue or
      handle exists and is not freed, so every step that reaches for it may. */
  lemma HeldItemsAreLive(ss: seq<State>, capacity: seq<nat>, workers: set<nat>, i: nat, h: Holder, x: nat)
    requires Run(ss, capacity, workers) && i < |ss| && Holds(ss[i], h, x)
    ensures Present(ss[i], x) && !ss[i].items[x].freed
  {
    RunKeepsInv(ss, capacity, workers, i);
    assert Known(ss[i], h, x);
    FreedExactlyWhenUnheld(ss, capacity, workers, i, x);
  }
}
