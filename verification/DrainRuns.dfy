/** Every interleaving of injecting, polling, handling, failing, acknowledging, serving and crashing. */
module DrainRuns {
  import opened Wrappers
  import opened Drain

  /** The poll loop: between polls, with what the relay answered on its way, or waiting for its own acknowledgment. */
  datatype Loop = Idle | Fetched(inbound: seq<Msg>) | AckingBatch(done: seq<Id>)

  /** The relay's mailbox outlives the reader. The last four fields are history: what was injected, what a handler
      took cleanly (with repetitions), what was handed to a waiter or dropped, and whether an acknowledgment was
      ever lost, by a failure or a crash. Each message has a number of times that its handler will still throw. */
  datatype State = State(
    box: seq<Msg>, reader: Reader, loop: Loop, throws: map<Id, nat>,
    injected: set<Id>, handled: seq<Id>, consumed: set<Id>, ackLost: bool)

  // ---------- steps ----------

  ghost predicate Inject(s: State, t: State, m: Msg, n: nat) {
    m.id !in s.injected
    && t == s.(box := s.box + [m], injected := s.injected + {m.id}, throws := s.throws[m.id := n])
  }

  ghost predicate Fetch(s: State, t: State) {
    s.loop.Idle? && t == s.(loop := Fetched(s.box))
  }

  ghost predicate FetchFails(s: State, t: State) {
    s.loop.Idle? && t == s.(loop := Fetched([]))
  }

  ghost predicate Process(s: State, t: State) {
    s.loop.Fetched?
    && var (r, done) := Pass(s.reader, s.loop.inbound);
       t == s.(reader := r, loop := AckingBatch(done), consumed := s.consumed + IdSet(done))
  }

  ghost predicate AckBatch(s: State, t: State) {
    s.loop.AckingBatch? && t == s.(box := Without(s.box, IdSet(s.loop.done)), loop := Idle)
  }

  ghost predicate AckBatchFails(s: State, t: State) {
    s.loop.AckingBatch? && t == s.(loop := Idle, ackLost := s.ackLost || s.loop.done != [])
  }

  function SetStage(s: State, i: nat, stage: Stage): State
    requires i < |s.reader.tasks|
  {
    s.(reader := s.reader.(tasks := s.reader.tasks[i := Task(s.reader.tasks[i].id, stage)]))
  }

  predicate TaskAt(s: State, i: nat, stage: Stage) {
    i < |s.reader.tasks| && s.reader.tasks[i].stage == stage
  }

  /** A handler returns: that is handling, whatever it returns. The acknowledgment goes out. */
  ghost predicate Return(s: State, t: State, i: nat) {
    TaskAt(s, i, Handling) && t == SetStage(s, i, Acking).(handled := s.handled + [s.reader.tasks[i].id])
  }

  ghost predicate Throw(s: State, t: State, i: nat) {
    TaskAt(s, i, Handling)
    && var id := s.reader.tasks[i].id;
       id in s.throws && s.throws[id] > 0
       && t == SetStage(s, i, Ending).(throws := s.throws[id := s.throws[id] - 1])
  }

  ghost predicate AckLands(s: State, t: State, i: nat) {
    TaskAt(s, i, Acking) && t == SetStage(s, i, Ending).(box := Without(s.box, {s.reader.tasks[i].id}))
  }

  ghost predicate AckFails(s: State, t: State, i: nat) {
    TaskAt(s, i, Acking) && t == SetStage(s, i, Ending).(ackLost := true)
  }

  function Released(r: Reader, i: nat): Reader
    requires i < |r.tasks|
  {
    r.(inFlight := r.inFlight - {r.tasks[i].id}, tasks := r.tasks[..i] + r.tasks[i + 1..])
  }

  ghost predicate Release(s: State, t: State, i: nat) {
    TaskAt(s, i, Ending) && t == s.(reader := Released(s.reader, i))
  }

  ghost predicate Serving(s: State, t: State, on: bool) {
    t == s.(reader := s.reader.(serving := on))
  }

  ghost predicate Request(s: State, t: State, thid: string) {
    t == s.(reader := s.reader.(pending := s.reader.pending + {thid}))
  }

  ghost predicate Timeout(s: State, t: State, thid: string) {
    t == s.(reader := s.reader.(pending := s.reader.pending - {thid}))
  }

  /** The process is lost with all that it remembers, the acknowledgments on their way included. */
  ghost predicate Crash(s: State, t: State) {
    t == s.(reader := Reader({}, [], {}, [], false), loop := Idle, ackLost := true)
  }

  ghost predicate TaskStep(s: State, t: State, i: nat) {
    Return(s, t, i) || Throw(s, t, i) || AckLands(s, t, i) || AckFails(s, t, i) || Release(s, t, i)
  }

  ghost predicate LoopStep(s: State, t: State) {
    Fetch(s, t) || FetchFails(s, t) || Process(s, t) || AckBatch(s, t) || AckBatchFails(s, t)
  }

  ghost predicate Next(s: State, t: State) {
    || (exists m, n: nat :: Inject(s, t, m, n))
    || LoopStep(s, t)
    || (exists i: nat :: TaskStep(s, t, i))
    || (exists on :: Serving(s, t, on))
    || (exists thid :: Request(s, t, thid) || Timeout(s, t, thid))
    || Crash(s, t)
  }

  ghost predicate Initial(s: State) {
    s == State([], Reader({}, [], {}, [], false), Idle, map[], {}, [], {}, false)
  }

  ghost predicate Run(trace: seq<State>) {
    trace != [] && Initial(trace[0]) && Steps(trace)
  }

  ghost predicate Steps(trace: seq<State>) {
    forall i, j | 0 <= i && i + 1 == j < |trace| :: Next(trace[i], trace[j])
  }

  // ---------- nothing is lost, and no message has two handlers ----------

  predicate Settled(s: State, id: Id) {
    id in Ids(s.box) || id in s.handled || id in s.consumed
  }

  ghost predicate Safe(s: State) {
    && OneTaskEach(s.reader)
    && DistinctIds(s.box) && Ids(s.box) <= s.injected
    && (forall id | id in s.injected :: Settled(s, id))
    && (forall t | t in s.reader.tasks && t.stage == Acking :: t.id in s.handled)
    && (s.loop.AckingBatch? ==> IdSet(s.loop.done) <= s.consumed)
    && KnownIds(s)
  }

  /** Only what was injected is ever received, in flight or handled. */
  ghost predicate KnownIds(s: State) {
    && s.reader.inFlight <= s.injected
    && (s.loop.Fetched? ==> Ids(s.loop.inbound) <= s.injected)
    && forall id | id in s.handled :: id in s.injected
  }

  lemma {:induction false} WithoutIds(box: seq<Msg>, gone: set<Id>)
    ensures Ids(Without(box, gone)) == Ids(box) - gone
  {
    forall m ensures m in Without(box, gone) <==> m in box && m.id !in gone { WithoutMembers(box, gone, m); }
    forall id | id in Ids(box) - gone ensures id in Ids(Without(box, gone)) {
      var m :| m in box && m.id == id;
      assert m in Without(box, gone);
    }
  }

  lemma {:induction false} StagedOneTaskEach(r: Reader, i: nat, stage: Stage)
    requires OneTaskEach(r) && i < |r.tasks|
    ensures OneTaskEach(r.(tasks := r.tasks[i := Task(r.tasks[i].id, stage)]))
  {
    var ts := r.tasks[i := Task(r.tasks[i].id, stage)];
    forall id | id in r.inFlight ensures exists k :: k in ts && k.id == id {
      var k :| k in r.tasks && k.id == id;
      var j :| 0 <= j < |r.tasks| && r.tasks[j] == k;
      assert ts[j] in ts && ts[j].id == id;
    }
  }

  lemma {:induction false} ReleasedTasks(ts: seq<Task>, i: nat, k: Task)
    requires DistinctTasks(ts) && i < |ts|
    ensures k in ts[..i] + ts[i + 1..] <==> k in ts && k.id != ts[i].id
  {
    var us := ts[..i] + ts[i + 1..];
    if k in us {
      var j :| 0 <= j < |us| && us[j] == k;
      assert k == ts[if j < i then j else j + 1];
    }
    if k in ts && k.id != ts[i].id {
      var j :| 0 <= j < |ts| && ts[j] == k;
      assert us[if j < i then j else j - 1] == k;
    }
  }

  lemma {:induction false} ReleasedDistinct(ts: seq<Task>, i: nat)
    requires i < |ts| && DistinctTasks(ts)
    ensures DistinctTasks(ts[..i] + ts[i + 1..])
  {
    var us := ts[..i] + ts[i + 1..];
    forall j, k | 0 <= j < k < |us| ensures us[j].id != us[k].id {
      assert us[j] == ts[if j < i then j else j + 1] && us[k] == ts[if k < i then k else k + 1];
    }
  }

  lemma {:induction false} ReleasedOneTaskEach(r: Reader, i: nat)
    requires OneTaskEach(r) && i < |r.tasks|
    ensures OneTaskEach(Released(r, i))
  {
    var t := Released(r, i);
    ReleasedDistinct(r.tasks, i);
    forall k | k in t.tasks ensures k.id in t.inFlight { ReleasedTasks(r.tasks, i, k); }
    forall id | id in t.inFlight ensures exists k :: k in t.tasks && k.id == id {
      var k :| k in r.tasks && k.id == id;
      ReleasedTasks(r.tasks, i, k);
    }
  }

  /** A task that moves to another stage, while the relay loses at most a message that was handled. */
  ghost predicate StageMoves(s: State, t: State, i: nat) {
    && i < |s.reader.tasks| && i < |t.reader.tasks|
    && t == SetStage(s, i, t.reader.tasks[i].stage).(box := t.box, handled := t.handled, throws := t.throws, ackLost := t.ackLost)
    && DistinctIds(t.box) && Ids(t.box) <= Ids(s.box)
    && (forall id | id in Ids(s.box) :: id in Ids(t.box) || id in t.handled)
    && (t.handled == s.handled || t.handled == s.handled + [s.reader.tasks[i].id])
    && (t.reader.tasks[i].stage == Acking ==> s.reader.tasks[i].id in t.handled)
  }

  lemma {:induction false} TaskStepMovesStage(s: State, t: State, i: nat)
    requires TaskStep(s, t, i) && !Release(s, t, i) && Safe(s)
    ensures StageMoves(s, t, i)
  {
    hide OneTaskEach, DistinctIds, Without;
    var id := s.reader.tasks[i].id;
    assert s.reader.tasks[i] in s.reader.tasks;
    WithoutIds(s.box, {id});
    WithoutDistinct(s.box, {id});
  }

  lemma {:induction false} SafeByStage(s: State, t: State, i: nat)
    requires StageMoves(s, t, i) && Safe(s)
    ensures Safe(t)
  {
    hide OneTaskEach, DistinctIds;
    var stage := t.reader.tasks[i].stage;
    StagedOneTaskEach(s.reader, i, stage);
    assert s.reader.tasks[i] in s.reader.tasks;
    OwnTaskInFlight(s, i);
    forall k | k in t.reader.tasks && k.stage == Acking ensures k.id in t.handled {
      var j :| 0 <= j < |t.reader.tasks| && t.reader.tasks[j] == k;
      if j != i { assert s.reader.tasks[j] in s.reader.tasks; }
    }
    forall id | id in t.injected ensures Settled(t, id) {
      assert Settled(s, id);
    }
  }

  lemma {:induction false} OwnTaskInFlight(s: State, i: nat)
    requires OneTaskEach(s.reader) && i < |s.reader.tasks|
    ensures s.reader.tasks[i].id in s.reader.inFlight
  {
  }

  lemma {:induction false} SafeByRelease(s: State, t: State, i: nat)
    requires Release(s, t, i) && Safe(s)
    ensures Safe(t)
  {
    hide OneTaskEach, DistinctIds;
    ReleasedOneTaskEach(s.reader, i);
  }

  lemma {:induction false} SafeByTask(s: State, t: State, i: nat)
    requires TaskStep(s, t, i) && Safe(s)
    ensures Safe(t)
  {
    hide Safe, TaskStep, Release, StageMoves;
    if Release(s, t, i) {
      SafeByRelease(s, t, i);
    } else {
      TaskStepMovesStage(s, t, i);
      SafeByStage(s, t, i);
    }
  }

  lemma {:induction false} SafeByLoop(s: State, t: State)
    requires LoopStep(s, t) && Safe(s)
    ensures Safe(t)
  {
    if Process(s, t) {
      PassKeepsOneTaskEach(s.reader, s.loop.inbound);
      PassStartsHandling(s.reader, s.loop.inbound);
      forall id | id in t.reader.inFlight ensures id in t.injected { StartedIsReceived(s.reader, s.loop.inbound, id); }
    } else if AckBatch(s, t) {
      WithoutIds(s.box, IdSet(s.loop.done));
      WithoutDistinct(s.box, IdSet(s.loop.done));
    }
  }

  lemma {:induction false} PassStartsHandling(r: Reader, inbound: seq<Msg>)
    ensures forall t | t in Pass(r, inbound).0.tasks && t.stage != Handling :: t in r.tasks
  {
    if inbound != [] {
      PassStartsHandling(r, inbound[..|inbound| - 1]);
    }
  }

  lemma {:induction false} SafeByInject(s: State, t: State, m: Msg, n: nat)
    requires Inject(s, t, m, n) && Safe(s)
    ensures Safe(t)
  {
    assert t.box[|s.box|] == m;
    forall id | id in t.injected ensures Settled(t, id) {
      if id != m.id {
        assert Settled(s, id);
        if id in Ids(s.box) {
          var k :| k in s.box && k.id == id;
          assert k in t.box;
        }
      }
    }
  }

  lemma {:induction false} SafeByReader(s: State, t: State)
    requires (exists on :: Serving(s, t, on)) || (exists thid :: Request(s, t, thid) || Timeout(s, t, thid)) || Crash(s, t)
    requires Safe(s)
    ensures Safe(t)
  {
  }

  lemma {:induction false} SafeKept(s: State, t: State)
    requires Next(s, t) && Safe(s)
    ensures Safe(t)
  {
    hide Safe, TaskStep, LoopStep, Inject, Serving, Request, Timeout, Crash;
    if i: nat :| TaskStep(s, t, i) {
      SafeByTask(s, t, i);
    } else if LoopStep(s, t) {
      SafeByLoop(s, t);
    } else if m, n: nat :| Inject(s, t, m, n) {
      SafeByInject(s, t, m, n);
    } else {
      SafeByReader(s, t);
    }
  }

  /** In every run, every message that was injected is on the relay, or a handler took it cleanly, or it was handed
      to its waiter or dropped; and no message has two handlers at once. */
  lemma {:induction false} SafeAlways(trace: seq<State>, i: nat)
    requires Run(trace) && i < |trace|
    ensures Safe(trace[i])
  {
    if i > 0 {
      SafeAlways(trace, i - 1);
      assert Next(trace[i - 1], trace[i]);
      SafeKept(trace[i - 1], trace[i]);
    }
  }

  /** What a pass consumes is a reply for a waiter, or a message that this reader can never dispatch; and a reader
      that does not serve starts no handler. */
  lemma {:induction false} PassConsumesRightly(s: State, t: State)
    requires Process(s, t)
    ensures forall id | id in t.consumed - s.consumed ::
              exists m :: m in s.loop.inbound && m.id == id && RightlyDone(s.reader, m)
    ensures !s.reader.serving ==> t.reader.tasks == s.reader.tasks && t.reader.inFlight == s.reader.inFlight
  {
    PassShrinksPending(s.reader, s.loop.inbound);
    forall id | id in t.consumed - s.consumed
      ensures exists m :: m in s.loop.inbound && m.id == id && RightlyDone(s.reader, m)
    {
      DoneIsRight(s.reader, s.loop.inbound, id);
    }
  }

  // ---------- handled once, while answers are fresh ----------

  /** Everything that the relay answered is still on the relay when the answer is processed. */
  predicate FreshAnswer(s: State) {
    s.loop.Fetched? ==> Ids(s.loop.inbound) <= Ids(s.box)
  }

  predicate InStage(s: State, id: Id, stage: Stage) {
    Task(id, stage) in s.reader.tasks
  }

  ghost predicate HandledOnce(s: State) {
    && (forall i, j | 0 <= i < j < |s.handled| :: s.handled[i] != s.handled[j])
    && (forall id | id in s.handled && id in Ids(s.box) :: InStage(s, id, Acking))
    && (forall id | InStage(s, id, Handling) :: id !in s.handled)
  }

  lemma {:induction false} OtherTasksStay(s: State, i: nat, stage: Stage, id: Id, k: Stage)
    requires i < |s.reader.tasks| && id != s.reader.tasks[i].id
    ensures InStage(SetStage(s, i, stage), id, k) <==> InStage(s, id, k)
  {
    var ts, us := s.reader.tasks, SetStage(s, i, stage).reader.tasks;
    if Task(id, k) in ts {
      var j :| 0 <= j < |ts| && ts[j] == Task(id, k);
      assert us[j] == Task(id, k);
    }
  }

  lemma {:induction false} OnlyStage(s: State, i: nat, k: Stage)
    requires OneTaskEach(s.reader) && i < |s.reader.tasks| && InStage(s, s.reader.tasks[i].id, k)
    ensures k == s.reader.tasks[i].stage
  {
    var j :| 0 <= j < |s.reader.tasks| && s.reader.tasks[j] == Task(s.reader.tasks[i].id, k);
    assert j == i;
  }

  lemma {:induction false} HandledOnceByRelease(s: State, t: State, i: nat)
    requires Release(s, t, i) && Safe(s) && HandledOnce(s)
    ensures HandledOnce(t)
  {
    forall id, k ensures InStage(t, id, k) <==> InStage(s, id, k) && id != s.reader.tasks[i].id {
      ReleasedTasks(s.reader.tasks, i, Task(id, k));
    }
    forall id | id in t.handled && id in Ids(t.box) ensures InStage(t, id, Acking) {
      if id == s.reader.tasks[i].id { OnlyStage(s, i, Acking); }
    }
  }

  /** The stages after the stage of task i was set. */
  lemma {:induction false} StagesAfter(s: State, i: nat, stage: Stage, id: Id, k: Stage)
    requires OneTaskEach(s.reader) && i < |s.reader.tasks|
    ensures InStage(SetStage(s, i, stage), id, k) <==> if id == s.reader.tasks[i].id then k == stage else InStage(s, id, k)
  {
    var t := SetStage(s, i, stage);
    if id != s.reader.tasks[i].id {
      OtherTasksStay(s, i, stage, id, k);
    } else {
      StagedOneTaskEach(s.reader, i, stage);
      assert t.reader.tasks[i] == Task(id, stage);
      if InStage(t, id, k) { OnlyStage(t, i, k); }
    }
  }

  lemma {:induction false} HandledOnceByTask(s: State, t: State, i: nat)
    requires (Return(s, t, i) || Throw(s, t, i) || AckLands(s, t, i)) && Safe(s) && HandledOnce(s)
    ensures HandledOnce(t)
  {
    var id, stage := s.reader.tasks[i].id, t.reader.tasks[i].stage;
    assert InStage(s, id, s.reader.tasks[i].stage);
    forall other, k
      ensures InStage(t, other, k) <==> if other == id then k == stage else InStage(s, other, k)
    {
      StagesAfter(s, i, stage, other, k);
    }
    WithoutIds(s.box, {id});
    if id in s.handled && id in Ids(s.box) { OnlyStage(s, i, Acking); }
  }

  lemma {:induction false} HandledOnceByLoop(s: State, t: State)
    requires LoopStep(s, t) && Safe(s) && HandledOnce(s) && FreshAnswer(s) && !t.ackLost
    ensures HandledOnce(t)
  {
    if Process(s, t) {
      PassKeepsOneTaskEach(s.reader, s.loop.inbound);
      forall id | InStage(t, id, Handling) ensures id !in t.handled {
        if !InStage(s, id, Handling) {
          PassStarts(s.reader, s.loop.inbound, id);
          if id in s.handled {
            assert false;
          }
        }
      }
    } else if AckBatch(s, t) {
      WithoutIds(s.box, IdSet(s.loop.done));
    }
  }

  lemma {:induction false} PassStarts(r: Reader, inbound: seq<Msg>, id: Id)
    requires OneTaskEach(r) && Task(id, Handling) in Pass(r, inbound).0.tasks && Task(id, Handling) !in r.tasks
    ensures id in Ids(inbound) && forall k :: Task(id, k) !in r.tasks
  {
    var n := |inbound| - 1;
    PassKeepsOneTaskEach(r, inbound[..n]);
    PassShrinksPending(r, inbound[..n]);
    if Task(id, Handling) in Pass(r, inbound[..n]).0.tasks {
      PassStarts(r, inbound[..n], id);
      var m :| m in inbound[..n] && m.id == id;
      assert m in inbound;
    } else {
      assert inbound[n] in inbound && inbound[n].id == id;
    }
  }

  lemma {:induction false} HandledOnceByTaskStep(s: State, t: State, i: nat)
    requires TaskStep(s, t, i) && Safe(s) && HandledOnce(s) && !t.ackLost
    ensures HandledOnce(t)
  {
    hide Safe, HandledOnce, Return, Throw, AckLands, Release;
    if Release(s, t, i) {
      HandledOnceByRelease(s, t, i);
    } else {
      HandledOnceByTask(s, t, i);
    }
  }

  lemma {:induction false} HandledOnceByInject(s: State, t: State, m: Msg, n: nat)
    requires Inject(s, t, m, n) && Safe(s) && HandledOnce(s)
    ensures HandledOnce(t)
  {
  }

  lemma {:induction false} HandledOnceByReader(s: State, t: State)
    requires (exists on :: Serving(s, t, on)) || (exists thid :: Request(s, t, thid) || Timeout(s, t, thid))
    requires HandledOnce(s)
    ensures HandledOnce(t)
  {
  }

  lemma {:induction false} HandledOnceKept(s: State, t: State)
    requires Next(s, t) && Safe(s) && HandledOnce(s) && FreshAnswer(s) && !t.ackLost
    ensures HandledOnce(t)
  {
    hide Safe, HandledOnce, TaskStep, LoopStep, Inject, Serving, Request, Timeout;
    if i: nat :| TaskStep(s, t, i) {
      HandledOnceByTaskStep(s, t, i);
    } else if LoopStep(s, t) {
      HandledOnceByLoop(s, t);
    } else if m, n: nat :| Inject(s, t, m, n) {
      HandledOnceByInject(s, t, m, n);
    } else {
      HandledOnceByReader(s, t);
    }
  }

  /** In every run in which no acknowledgment is lost and every answer of the relay is fresh when it is processed,
      no message is handled cleanly twice. */
  lemma {:induction false} HandledOnceAlways(trace: seq<State>, i: nat)
    requires Run(trace) && i < |trace|
    requires !trace[i].ackLost && forall j | 0 <= j < i :: FreshAnswer(trace[j])
    ensures HandledOnce(trace[i])
  {
    hide Next, FreshAnswer;
    if i == 0 {
      NothingHandled(trace[0]);
    } else {
      hide HandledOnce, Safe;
      assert Next(trace[i - 1], trace[i]);
      if trace[i - 1].ackLost { LostStaysLost(trace[i - 1], trace[i]); }
      HandledOnceAlways(trace, i - 1);
      SafeAlways(trace, i - 1);
      HandledOnceKept(trace[i - 1], trace[i]);
    }
  }

  lemma {:induction false} NothingHandled(s: State)
    requires Initial(s)
    ensures HandledOnce(s)
  {
  }

  lemma {:induction false} LostStaysLost(s: State, t: State)
    requires Next(s, t) && s.ackLost
    ensures t.ackLost
  {
  }

  /** While no acknowledgment was lost, a pass that starts a handler again for a message that was handled works on
      a stale answer: the relay no longer has the message. */
  lemma {:induction false} RedispatchIsStale(s: State, t: State, id: Id)
    requires Process(s, t) && Safe(s) && HandledOnce(s) && id in s.handled
    requires InStage(t, id, Handling) && !InStage(s, id, Handling)
    ensures id in Ids(s.loop.inbound) && id !in Ids(s.box)
  {
    PassStarts(s.reader, s.loop.inbound, id);
    if id in Ids(s.box) {
      assert false;
    }
  }

  /** And it does happen: an answer that was on its way while the handler's acknowledgment landed starts the handler
      again, for every task, every answer with its message, and every message that asks for a handler. */
  lemma {:induction false} StaleAnswerRedispatches(s: State, i: nat, m: Msg) returns (s1: State, s2: State, s3: State)
    requires Safe(s) && TaskAt(s, i, Acking) && s.reader.tasks[i].id == m.id
    requires s.loop.Fetched? && m in s.loop.inbound && DistinctIds(s.loop.inbound)
    requires s.reader.serving && !RightlyDone(s.reader, m)
    ensures AckLands(s, s1, i) && Release(s1, s2, i) && Process(s2, s3)
    ensures m.id in s3.handled && InStage(s3, m.id, Handling) && m.id !in Ids(s3.box)
  {
    hide Pass;
    assert s.reader.tasks[i] in s.reader.tasks;
    s1 := SetStage(s, i, Ending).(box := Without(s.box, {m.id}));
    s2 := s1.(reader := Released(s1.reader, i));
    var (r, done) := Pass(s2.reader, s2.loop.inbound);
    s3 := s2.(reader := r, loop := AckingBatch(done), consumed := s2.consumed + IdSet(done));
    SafeByTask(s, s1, i);
    SafeByTask(s1, s2, i);
    WithoutIds(s.box, {m.id});
    TakenUpAgain(s2.reader, s2.loop.inbound, m);
  }

  lemma {:induction false} TakenUpAgain(r: Reader, inbound: seq<Msg>, m: Msg)
    requires OneTaskEach(r) && r.serving && m.id !in r.inFlight && m in inbound && DistinctIds(inbound)
    requires !RightlyDone(r, m)
    ensures Task(m.id, Handling) in Pass(r, inbound).0.tasks
  {
    hide Pass;
    ServedPassTakesAll(r, inbound, m);
    forall k | k in inbound && k.id == m.id ensures !RightlyDone(r, k) {
      assert k == m;
    }
    if m.id in Pass(r, inbound).1 {
      DoneIsRight(r, inbound, m.id);
      assert false;
    }
    PassKeepsOneTaskEach(r, inbound);
    PassStartsHandling(r, inbound);
    var t :| t in Pass(r, inbound).0.tasks && t.id == m.id;
    assert t !in r.tasks;
  }

  lemma {:induction false} Append(trace: seq<State>, t: State)
    requires Run(trace) && Next(trace[|trace| - 1], t)
    ensures Run(trace + [t])
  {
    hide Next;
    var longer := trace + [t];
    forall i, j | 0 <= i && i + 1 == j < |longer| ensures Next(longer[i], longer[j]) {
      if j < |trace| { assert Next(trace[i], trace[j]); }
    }
  }

  function FirstState(): State {
    State([], Reader({}, [], {}, [], false), Idle, map[], {}, [], {}, false)
  }

  lemma {:induction false} Goes(trace: seq<State>, t: State) returns (longer: seq<State>)
    requires trace != [] && Run(trace) && Next(trace[|trace| - 1], t)
    ensures longer != [] && Run(longer) && longer[|longer| - 1] == t
  {
    hide Run, Next;
    Append(trace, t);
    longer := trace + [t];
  }

  lemma {:induction false} LoopGoes(trace: seq<State>, t: State) returns (longer: seq<State>)
    requires trace != [] && Run(trace) && LoopStep(trace[|trace| - 1], t)
    ensures longer != [] && Run(longer) && longer[|longer| - 1] == t
  {
    hide Run, LoopStep;
    longer := Goes(trace, t);
  }

  /** A served reader that has started the handler of one message, and is done with the poll that brought it. */
  function Started(m: Msg): State {
    State([m], Reader({m.id}, [Task(m.id, Handling)], {}, [], true), Idle, map[m.id := 0], {m.id}, [], {}, false)
  }

  lemma {:induction false} StartsHandling(m: Msg) returns (trace: seq<State>)
    requires m.hasBody && m.thid.GetOr("") == "" && m.sender.GetOr("") != ""
    ensures trace != [] && Run(trace) && trace[|trace| - 1] == Started(m)
  {
    hide Run, Next, Pass, Without;
    var s0 := FirstState();
    FirstRun();
    var s1 := s0.(reader := s0.reader.(serving := true));
    assert Next(s0, s1) by { ServingIsNext(s0, s1); }
    trace := Goes([s0], s1);
    var s2 := s1.(box := [m], injected := {m.id}, throws := map[m.id := 0]);
    assert Next(s1, s2) by { assert s1.box + [m] == [m] && s1.injected + {m.id} == {m.id}; InjectIsNext(s1, s2, m, 0); }
    trace := Goes(trace, s2);
    var s3 := s2.(loop := Fetched([m]));
    trace := LoopGoes(trace, s3);
    var s4 := s3.(reader := s3.reader.(inFlight := {m.id}, tasks := [Task(m.id, Handling)]), loop := AckingBatch([]));
    PassOfOne(s3.reader, m);
    trace := LoopGoes(trace, s4);
    WithoutNone([m]);
    trace := LoopGoes(trace, Started(m));
  }

  lemma {:induction false} ServingIsNext(s: State, t: State)
    requires Serving(s, t, true)
    ensures Next(s, t)
  {
  }

  lemma {:induction false} InjectIsNext(s: State, t: State, m: Msg, n: nat)
    requires Inject(s, t, m, n)
    ensures Next(s, t)
  {
  }

  lemma {:induction false} TaskIsNext(s: State, t: State, i: nat)
    requires TaskStep(s, t, i)
    ensures Next(s, t)
  {
  }

  /** It is received again, and then its handler returns. */
  lemma {:induction false} ReceivedTwice(m: Msg) returns (trace: seq<State>)
    requires m.hasBody && m.thid.GetOr("") == "" && m.sender.GetOr("") != ""
    ensures trace != [] && Run(trace)
    ensures var s := Started(m); var u := s.(loop := Fetched([m]));
            trace[|trace| - 1] == SetStage(u, 0, Acking).(handled := [m.id])
  {
    hide Run, Next;
    trace := StartsHandling(m);
    var s := Started(m);
    var u := s.(loop := Fetched([m]));
    trace := LoopGoes(trace, u);
    var t := SetStage(u, 0, Acking).(handled := [m.id]);
    assert Return(u, t, 0);
    TaskIsNext(u, t, 0);
    trace := Goes(trace, t);
  }

  lemma {:induction false} FirstRun()
    ensures Run([FirstState()])
  {
  }

  lemma {:induction false} PassOfOne(r: Reader, m: Msg)
    requires r == Reader({}, [], {}, [], true) && m.hasBody && m.thid.GetOr("") == "" && m.sender.GetOr("") != ""
    ensures Pass(r, [m]) == (Reader({m.id}, [Task(m.id, Handling)], {}, [], true), [])
  {
    assert [m][..0] == [];
    assert Pass(r, [m][..0]) == (r, []);
    assert Classify(r, m) == Dispatch;
    assert After(r, m) == Reader({m.id}, [Task(m.id, Handling)], {}, [], true);
  }

  /** From the start of the reader on, without any failure, crash or throw: every request can be handled twice. */
  lemma {:induction false} HandledTwice(m: Msg) returns (trace: seq<State>)
    requires m.hasBody && m.thid.GetOr("") == "" && m.sender.GetOr("") != ""
    ensures trace != [] && Run(trace)
    ensures var s := trace[|trace| - 1]; s.handled == [m.id, m.id] && !s.ackLost && s.box == []
  {
    hide Run, Next, Safe, Pass, Without;
    trace := ReceivedTwice(m);
    SafeAlways(trace, |trace| - 1);
    var s := trace[|trace| - 1];
    var s1, s2, s3 := StaleAnswerRedispatches(s, 0, m);
    TaskIsNext(s, s1, 0);
    trace := Goes(trace, s1);
    TaskIsNext(s1, s2, 0);
    trace := Goes(trace, s2);
    trace := LoopGoes(trace, s3);
    var i: nat :| i < |s3.reader.tasks| && s3.reader.tasks[i] == Task(m.id, Handling);
    var s4 := SetStage(s3, i, Acking).(handled := s3.handled + [m.id]);
    assert Return(s3, s4, i);
    TaskIsNext(s3, s4, i);
    trace := Goes(trace, s4);
    assert s4.box == Without([m], {m.id});
    WithoutOneOfDistinct([m], m.id);
  }
  // ---------- waiters get their replies ----------

  /** Nobody stops waiting but by a timeout of its own thread, a crash, or a pass. */
  lemma {:induction false} KeepsWaiting(s: State, t: State, thread: string)
    requires Next(s, t) && thread in s.reader.pending
    requires !Process(s, t) && !Timeout(s, t, thread) && !Crash(s, t)
    ensures thread in t.reader.pending
  {
    hide Process;
  }

  lemma {:induction false} WaitsUntil(trace: seq<State>, f: nat, p: nat, thread: string)
    requires Run(trace) && f <= p < |trace| && thread in trace[f].reader.pending
    requires forall i, j | f <= i && i + 1 == j <= p ::
               !Process(trace[i], trace[j]) && !Timeout(trace[i], trace[j], thread) && !Crash(trace[i], trace[j])
    ensures thread in trace[p].reader.pending
  {
    hide Next, Process, Timeout, Crash;
    if f < p {
      WaitsUntil(trace, f, p - 1, thread);
      assert Next(trace[p - 1], trace[p]);
      KeepsWaiting(trace[p - 1], trace[p], thread);
    }
  }

  /** In every run, served or not: whoever waits when a poll begins, and neither times out nor is lost in a crash, has a
      reply when the poll is processed, if a message of its thread was there to receive and is not in flight. It is the
      reply that the poll received first, and it leaves the relay with the acknowledgment of the poll. */
  lemma {:induction false} WaiterGetsReply(trace: seq<State>, f: nat, p: nat, m: Msg, thread: string) returns (reply: Msg)
    requires Run(trace) && f < p && p + 1 < |trace| && Fetch(trace[f], trace[f + 1]) && Process(trace[p], trace[p + 1])
    requires forall i, j | f <= i && i + 1 == j <= p ::
               !Process(trace[i], trace[j]) && !Timeout(trace[i], trace[j], thread) && !Crash(trace[i], trace[j])
    requires trace[p].loop == Fetched(trace[f].box)
    requires thread != "" && thread in trace[f].reader.pending
    requires m in trace[f].box && m.hasBody && m.thid == Some(thread) && m.id !in trace[p].reader.inFlight
    ensures reply in trace[f].box && reply.thid == Some(thread)
    ensures var s := trace[p + 1];
            && (thread, reply.id) in s.reader.resolved && thread !in s.reader.pending
            && s.loop.AckingBatch? && reply.id in s.loop.done
            && forall u: State, v: State | u.loop == s.loop && AckBatch(u, v) :: reply.id !in Ids(v.box)
  {
    hide Next, Pass, Run, Safe, Timeout, Crash;
    SafeAlways(trace, f);
    WaitsUntil(trace, f, p, thread);
    var inbound := trace[f].box;
    assert DistinctIds(inbound) by { SafeIsDistinct(trace[f]); }
    var k := ReplyIsHandedOver(trace[p].reader, inbound, m, thread);
    reply := inbound[k];
    forall u: State, v: State | u.loop == trace[p + 1].loop && AckBatch(u, v) ensures reply.id !in Ids(v.box) {
      WithoutIds(u.box, IdSet(u.loop.done));
    }
  }

  lemma {:induction false} SafeIsDistinct(s: State)
    requires Safe(s)
    ensures DistinctIds(s.box)
  {
  }
}
