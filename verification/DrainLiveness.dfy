/** Draining makes progress: a measure that every useful step lowers and no other step raises, as long as the reader
    serves, nothing new arrives and no acknowledgment is lost; and so every fair run empties the relay. */
module DrainLiveness {
  import opened Wrappers
  import opened Drain
  import opened DrainRuns

  /** The steps of a reader that keeps polling and serving: a poll may fail, waiters come and go, and handlers throw
      as often as they will. */
  ghost predicate Quiet(s: State, t: State) {
    || Polls(s, t) || Process(s, t) || AckBatch(s, t) || Waits(s, t)
    || exists i: nat :: QuietTask(s, t, i)
  }

  ghost predicate Polls(s: State, t: State) {
    Fetch(s, t) || FetchFails(s, t)
  }

  ghost predicate Waits(s: State, t: State) {
    exists thid :: Request(s, t, thid) || Timeout(s, t, thid)
  }

  ghost predicate QuietTask(s: State, t: State, i: nat) {
    Return(s, t, i) || Throw(s, t, i) || AckLands(s, t, i) || Release(s, t, i)
  }

  lemma {:induction false} QuietIsNext(s: State, t: State)
    requires Quiet(s, t)
    ensures Next(s, t)
  {
    if i: nat :| QuietTask(s, t, i) {
      assert TaskStep(s, t, i);
    } else if !Waits(s, t) {
      assert LoopStep(s, t);
    }
  }

  function Budget(s: State, id: Id): nat {
    if id in s.throws then s.throws[id] else 0
  }

  predicate BeingAcked(s: State, id: Id) {
    s.loop.AckingBatch? && id in s.loop.done
  }

  /** How far one message is from leaving the relay. */
  function Weight(s: State, id: Id): (n: nat)
    ensures n > 0
  {
    if BeingAcked(s, id) || InStage(s, id, Acking) then 1
    else if InStage(s, id, Handling) then 4 * Budget(s, id) + 3
    else if InStage(s, id, Ending) then 4 * Budget(s, id) + 5
    else 4 * Budget(s, id) + 4
  }

  function Total(s: State, box: seq<Msg>): nat {
    if box == [] then 0 else Total(s, box[..|box| - 1]) + Weight(s, box[|box| - 1].id)
  }

  /** The measure: the distance of all messages on the relay. */
  function Measure(s: State): nat {
    Total(s, s.box)
  }

  lemma {:induction false} TotalFalls(s: State, t: State, box: seq<Msg>, m: Msg)
    requires forall k | k in box :: Weight(t, k.id) <= Weight(s, k.id)
    ensures Total(t, box) <= Total(s, box)
    ensures m in box && Weight(t, m.id) < Weight(s, m.id) ==> Total(t, box) < Total(s, box)
  {
    hide Weight;
    if box != [] {
      var n := |box| - 1;
      assert box == box[..n] + [box[n]];
      TotalFalls(s, t, box[..n], m);
    }
  }

  lemma {:induction false} TotalWithout(s: State, box: seq<Msg>, gone: set<Id>, m: Msg)
    ensures Total(s, Without(box, gone)) <= Total(s, box)
    ensures m in box && m.id in gone ==> Total(s, Without(box, gone)) < Total(s, box)
  {
    hide Weight;
    if box != [] {
      var n := |box| - 1;
      assert box == box[..n] + [box[n]];
      TotalWithout(s, box[..n], gone, m);
      var w := Without(box[..n], gone);
      assert (w + [box[n]])[..|w|] == w;
      WeightIsPositive(s, box[n].id);
    }
  }

  lemma {:induction false} WeightIsPositive(s: State, id: Id)
    ensures Weight(s, id) > 0
  {
  }

  // ---------- each step ----------

  lemma {:induction false} ReturnWeights(s: State, t: State, i: nat, id: Id)
    requires (Return(s, t, i) || Throw(s, t, i)) && Safe(s)
    ensures Weight(t, id) <= Weight(s, id)
    ensures id == s.reader.tasks[i].id && !BeingAcked(s, id) ==> Weight(t, id) < Weight(s, id)
  {
    var own, stage := s.reader.tasks[i].id, t.reader.tasks[i].stage;
    assert InStage(s, own, Handling);
    StagesAfter(s, i, stage, id, Acking);
    StagesAfter(s, i, stage, id, Handling);
    StagesAfter(s, i, stage, id, Ending);
    if id == own && InStage(s, id, Acking) { OnlyStage(s, i, Acking); }
  }

  lemma {:induction false} AckLandsWeights(s: State, t: State, i: nat, id: Id)
    requires AckLands(s, t, i) && Safe(s) && id != s.reader.tasks[i].id
    ensures Weight(t, id) == Weight(s, id)
  {
    var stage := t.reader.tasks[i].stage;
    StagesAfter(s, i, stage, id, Acking);
    StagesAfter(s, i, stage, id, Handling);
    StagesAfter(s, i, stage, id, Ending);
  }

  lemma {:induction false} ReleaseWeights(s: State, t: State, i: nat, id: Id)
    requires Release(s, t, i) && Safe(s)
    ensures Weight(t, id) <= Weight(s, id)
    ensures id == s.reader.tasks[i].id && !BeingAcked(s, id) ==> Weight(t, id) < Weight(s, id)
  {
    var own := s.reader.tasks[i].id;
    assert InStage(s, own, Ending);
    forall k ensures InStage(t, id, k) <==> InStage(s, id, k) && id != own {
      ReleasedTasks(s.reader.tasks, i, Task(id, k));
    }
    if id == own {
      if InStage(s, id, Acking) { OnlyStage(s, i, Acking); }
      if InStage(s, id, Handling) { OnlyStage(s, i, Handling); }
    }
  }

  /** A message that is done is not in flight; so no handler's message is among those being acknowledged. */
  lemma {:induction false} ProcessWeights(s: State, t: State, id: Id)
    requires Process(s, t) && Safe(s)
    ensures Weight(t, id) <= Weight(s, id)
    ensures id !in s.reader.inFlight && (id in t.reader.inFlight || BeingAcked(t, id)) ==> Weight(t, id) < Weight(s, id)
  {
    PassKeepsOneTaskEach(s.reader, s.loop.inbound);
    PassStartsHandling(s.reader, s.loop.inbound);
    PassShrinksPending(s.reader, s.loop.inbound);
    if id in s.reader.inFlight {
      var k :| k in s.reader.tasks && k.id == id;
      assert k in t.reader.tasks;
      SameStages(s.reader, t.reader, id);
    } else if id in t.reader.inFlight {
      var k :| k in t.reader.tasks && k.id == id;
      assert k !in s.reader.tasks;
      assert k == Task(id, Handling);
      forall stage | InStage(t, id, stage) ensures stage == Handling {
        assert Task(id, stage) !in s.reader.tasks;
        TwoOfOneId(t.reader.tasks, k, Task(id, stage));
      }
    }
  }

  lemma {:induction false} TwoOfOneId(ts: seq<Task>, k: Task, l: Task)
    requires DistinctTasks(ts) && k in ts && l in ts && k.id == l.id
    ensures k == l
  {
    var i :| 0 <= i < |ts| && ts[i] == k;
    var j :| 0 <= j < |ts| && ts[j] == l;
  }

  lemma {:induction false} SameStages(r: Reader, u: Reader, id: Id)
    requires OneTaskEach(r) && OneTaskEach(u) && r.tasks <= u.tasks && id in r.inFlight
    ensures forall stage :: Task(id, stage) in u.tasks <==> Task(id, stage) in r.tasks
  {
    var k :| k in r.tasks && k.id == id;
    assert k in u.tasks;
    forall stage ensures Task(id, stage) in u.tasks <==> Task(id, stage) in r.tasks {
      if Task(id, stage) in u.tasks { TwoOfOneId(u.tasks, k, Task(id, stage)); }
      if Task(id, stage) in r.tasks { TwoOfOneId(r.tasks, k, Task(id, stage)); }
    }
  }

  // ---------- the measure ----------

  lemma {:induction false} ProcessKeepsBox(s: State, t: State)
    requires Process(s, t)
    ensures t.box == s.box
  {
  }

  lemma {:induction false} IdleWeights(s: State, t: State, id: Id)
    requires Polls(s, t) || Waits(s, t)
    ensures Weight(t, id) == Weight(s, id) && t.box == s.box
  {
    assert forall k :: InStage(t, id, k) == InStage(s, id, k);
  }

  lemma {:induction false} AckBatchWeights(s: State, t: State, id: Id)
    requires AckBatch(s, t) && id !in s.loop.done
    ensures Weight(t, id) == Weight(s, id)
  {
    assert forall k :: InStage(t, id, k) == InStage(s, id, k);
  }

  lemma {:induction false} AckBatchMeasure(s: State, t: State, m: Msg)
    requires AckBatch(s, t)
    ensures Measure(t) <= Measure(s)
    ensures m in s.box && m.id in s.loop.done ==> Measure(t) < Measure(s)
  {
    hide Weight;
    var gone := IdSet(s.loop.done);
    forall k | k in t.box ensures Weight(t, k.id) <= Weight(s, k.id) {
      WithoutMembers(s.box, gone, k);
      AckBatchWeights(s, t, k.id);
    }
    TotalFalls(s, t, t.box, m);
    TotalWithout(s, s.box, gone, m);
  }

  lemma {:induction false} TaskMeasure(s: State, t: State, i: nat, m: Msg)
    requires QuietTask(s, t, i) && Safe(s)
    ensures Measure(t) <= Measure(s)
    ensures m in s.box && m.id == s.reader.tasks[i].id && !BeingAcked(s, m.id) ==> Measure(t) < Measure(s)
  {
    hide Weight, Safe;
    var own := s.reader.tasks[i].id;
    if AckLands(s, t, i) {
      forall k | k in t.box ensures Weight(t, k.id) <= Weight(s, k.id) {
        WithoutMembers(s.box, {own}, k);
        AckLandsWeights(s, t, i, k.id);
      }
      TotalFalls(s, t, t.box, m);
      TotalWithout(s, s.box, {own}, m);
    } else {
      forall k | k in s.box
        ensures Weight(t, k.id) <= Weight(s, k.id)
        ensures k.id == own && !BeingAcked(s, k.id) ==> Weight(t, k.id) < Weight(s, k.id)
      {
        if Release(s, t, i) { ReleaseWeights(s, t, i, k.id); } else { ReturnWeights(s, t, i, k.id); }
      }
      TotalFalls(s, t, s.box, m);
    }
  }

  lemma {:induction false} ProcessMeasure(s: State, t: State, m: Msg)
    requires Process(s, t) && Safe(s)
    ensures Measure(t) <= Measure(s)
    ensures m in s.box && m.id !in s.reader.inFlight && (m.id in t.reader.inFlight || BeingAcked(t, m.id)) ==>
              Measure(t) < Measure(s)
  {
    hide Weight, Safe, Process;
    forall k | k in s.box
      ensures Weight(t, k.id) <= Weight(s, k.id)
      ensures k.id !in s.reader.inFlight && (k.id in t.reader.inFlight || BeingAcked(t, k.id)) ==>
                Weight(t, k.id) < Weight(s, k.id)
    {
      ProcessWeights(s, t, k.id);
    }
    ProcessKeepsBox(s, t);
    TotalFalls(s, t, s.box, m);
  }

  lemma {:induction false} IdleMeasure(s: State, t: State)
    requires Polls(s, t) || Waits(s, t)
    ensures Measure(t) <= Measure(s)
  {
    hide Weight;
    var any := Msg("", None, false, None);
    IdleWeights(s, t, any.id);
    forall k | k in s.box ensures Weight(t, k.id) <= Weight(s, k.id) { IdleWeights(s, t, k.id); }
    TotalFalls(s, t, s.box, any);
  }

  /** No step of a serving reader raises the measure; each step of a handler whose message is on the relay lowers it. */
  lemma {:induction false} MeasureNeverRises(s: State, t: State)
    requires Quiet(s, t) && Safe(s)
    ensures Measure(t) <= Measure(s)
  {
    hide Measure, Safe, QuietTask, Process, AckBatch, Polls, Waits;
    var any := Msg("", None, false, None);
    if i: nat :| QuietTask(s, t, i) {
      TaskMeasure(s, t, i, any);
    } else if Process(s, t) {
      ProcessMeasure(s, t, any);
    } else if AckBatch(s, t) {
      AckBatchMeasure(s, t, any);
    } else {
      IdleMeasure(s, t);
    }
  }

  // ---------- draining ----------

  ghost predicate Good(s: State) {
    Safe(s) && s.reader.serving
  }

  lemma {:induction false} QuietStaysGood(s: State, t: State)
    requires Quiet(s, t) && Good(s)
    ensures Good(t)
  {
    hide Safe;
    QuietIsNext(s, t);
    SafeKept(s, t);
    if Process(s, t) { PassShrinksPending(s.reader, s.loop.inbound); }
  }

  ghost predicate QuietRun(trace: seq<State>) {
    trace != [] && forall i, j | 0 <= i && i + 1 == j < |trace| :: Quiet(trace[i], trace[j])
  }

  lemma {:induction false} QuietAppend(trace: seq<State>, t: State)
    requires QuietRun(trace) && Quiet(trace[|trace| - 1], t)
    ensures QuietRun(trace + [t])
  {
    hide Quiet;
    var longer := trace + [t];
    forall i, j | 0 <= i && i + 1 == j < |longer| ensures Quiet(longer[i], longer[j]) {
      if j < |trace| { assert Quiet(trace[i], trace[j]); }
    }
  }

  // ---------- every fair run drains ----------

  /** A message on the relay is being acknowledged by the loop, in the hands of a task, or not yet taken up. */
  datatype Place = InBatch | InTask | Waiting

  predicate At(s: State, m: Msg, place: Place) {
    m in s.box
    && match place
       case InBatch => BeingAcked(s, m.id)
       case InTask => m.id in s.reader.inFlight && !BeingAcked(s, m.id)
       case Waiting => m.id !in s.reader.inFlight && !BeingAcked(s, m.id)
  }

  lemma {:induction false} StaysByTask(s: State, t: State, i: nat, m: Msg, place: Place)
    requires QuietTask(s, t, i) && Good(s) && At(s, m, place) && Measure(t) >= Measure(s)
    ensures At(t, m, place) && (place.InTask? ==> s.reader.tasks[i].id != m.id)
  {
    hide Measure;
    TaskMeasure(s, t, i, m);
    assert s.reader.tasks[i] in s.reader.tasks;
    if AckLands(s, t, i) {
      WithoutMembers(s.box, {s.reader.tasks[i].id}, m);
      if s.reader.tasks[i].id == m.id { LandedIsLower(s, t, i, m); }
    }
  }

  /** An acknowledgment that lands lowers the measure, whatever else is said of its message. */
  lemma {:induction false} LandedIsLower(s: State, t: State, i: nat, m: Msg)
    requires AckLands(s, t, i) && Good(s) && m in s.box && s.reader.tasks[i].id == m.id
    ensures Measure(t) < Measure(s)
  {
    hide Weight, Safe;
    forall k | k in t.box ensures Weight(t, k.id) <= Weight(s, k.id) {
      WithoutMembers(s.box, {m.id}, k);
      AckLandsWeights(s, t, i, k.id);
    }
    TotalFalls(s, t, t.box, m);
    TotalWithout(s, s.box, {m.id}, m);
  }

  lemma {:induction false} StaysByProcess(s: State, t: State, m: Msg, place: Place)
    requires Process(s, t) && Good(s) && At(s, m, place) && Measure(t) >= Measure(s)
    ensures At(t, m, place) && (place.Waiting? ==> m !in s.loop.inbound)
  {
    hide Measure;
    ProcessMeasure(s, t, m);
    PassShrinksPending(s.reader, s.loop.inbound);
    if place.InTask? && m.id in Pass(s.reader, s.loop.inbound).1 {
      DoneIsRight(s.reader, s.loop.inbound, m.id);
    }
    if place.Waiting? && m in s.loop.inbound {
      ServedPassTakesAll(s.reader, s.loop.inbound, m);
    }
  }

  lemma {:induction false} StaysByAck(s: State, t: State, m: Msg, place: Place)
    requires AckBatch(s, t) && Good(s) && At(s, m, place) && Measure(t) >= Measure(s)
    ensures At(t, m, place)
  {
    hide Measure;
    AckBatchMeasure(s, t, m);
    WithoutMembers(s.box, IdSet(s.loop.done), m);
  }

  /** A step that does not lower the measure leaves each message where it is. It is then not a step of the task of
      the message, not a pass over an answer with a message that waits, and not a poll while one is acknowledged. */
  lemma {:induction false} StaysInPlace(s: State, t: State, m: Msg, place: Place)
    requires Quiet(s, t) && Good(s) && At(s, m, place) && Measure(t) >= Measure(s)
    ensures At(t, m, place)
    ensures place.InTask? ==> forall i: nat | QuietTask(s, t, i) :: s.reader.tasks[i].id != m.id
    ensures place.Waiting? && Process(s, t) ==> m !in s.loop.inbound
    ensures place.InBatch? ==> !Fetch(s, t)
  {
    hide Measure, Good, Process, AckBatch;
    forall i: nat | QuietTask(s, t, i) ensures At(t, m, place) && (place.InTask? ==> s.reader.tasks[i].id != m.id) {
      StaysByTask(s, t, i, m, place);
    }
    if Process(s, t) {
      StaysByProcess(s, t, m, place);
    } else if AckBatch(s, t) {
      StaysByAck(s, t, m, place);
    }
  }

  /** The steps of a run between two of its states. */
  ghost predicate Between(trace: seq<State>, a: nat, b: nat) {
    a <= b < |trace| && Good(trace[a]) && forall i, j | a <= i && i + 1 == j <= b :: Quiet(trace[i], trace[j])
  }

  lemma {:induction false} MeasureFalls(trace: seq<State>, a: nat, b: nat, k: nat)
    requires Between(trace, a, b) && a <= k <= b
    ensures Good(trace[k]) && Measure(trace[k]) <= Measure(trace[a])
    ensures Measure(trace[b]) <= Measure(trace[k])
    decreases b - a
  {
    hide Quiet, Measure, Good;
    if a < b {
      assert Quiet(trace[a], trace[a + 1]);
      QuietStaysGood(trace[a], trace[a + 1]);
      MeasureNeverRises(trace[a], trace[a + 1]) by { GoodIsSafe(trace[a]); }
      MeasureFalls(trace, a + 1, b, if k == a then a + 1 else k);
    }
  }

  lemma {:induction false} GoodIsSafe(s: State)
    requires Good(s)
    ensures Safe(s)
  {
  }

  lemma {:induction false} StaysThroughout(trace: seq<State>, a: nat, b: nat, m: Msg, place: Place, k: nat)
    requires Between(trace, a, b) && Measure(trace[b]) >= Measure(trace[a]) && At(trace[a], m, place) && a <= k <= b
    ensures At(trace[k], m, place) && Good(trace[k]) && Measure(trace[k]) == Measure(trace[a])
  {
    hide Quiet, Measure, Good, At;
    MeasureFalls(trace, a, b, k);
    if a < k {
      StaysThroughout(trace, a, b, m, place, k - 1);
      assert Quiet(trace[k - 1], trace[k]);
      StaysInPlace(trace[k - 1], trace[k], m, place);
    }
  }

  /** The task with this id takes a step: its handler returns or throws, its acknowledgment lands, or it ends. */
  ghost predicate TaskMoves(s: State, t: State, id: Id) {
    exists i: nat :: QuietTask(s, t, i) && s.reader.tasks[i].id == id
  }

  ghost predicate MovesWithin(trace: seq<State>, a: nat, b: nat, id: Id) {
    exists i, j :: a <= i && i + 1 == j <= b < |trace| && TaskMoves(trace[i], trace[j], id)
  }

  /** A poll that was begun at f is still on its way at p, and is processed there. */
  ghost predicate PollWithin(trace: seq<State>, a: nat, b: nat, f: nat, p: nat) {
    && a <= f < p < b < |trace| && Fetch(trace[f], trace[f + 1]) && Process(trace[p], trace[p + 1])
    && forall k | f < k <= p :: trace[k].loop == trace[f + 1].loop
  }

  /** A round: some poll succeeds and is processed, and every task that is there at the start takes a step, which may
      well be a throw. */
  ghost predicate Round(trace: seq<State>, a: nat, b: nat) {
    && Between(trace, a, b) && (exists f, p: nat :: PollWithin(trace, a, b, f, p))
    && forall k | k in trace[a].reader.tasks :: MovesWithin(trace, a, b, k.id)
  }

  /** Every round that starts with something on the relay lowers the measure, whatever the handlers do. */
  lemma {:induction false} RoundLowers(trace: seq<State>, a: nat, b: nat)
    requires Round(trace, a, b) && trace[a].box != []
    ensures Measure(trace[b]) < Measure(trace[a])
  {
    hide Quiet, Measure, Good, QuietTask;
    var m := trace[a].box[0];
    if Measure(trace[b]) >= Measure(trace[a]) {
      var f, p: nat :| PollWithin(trace, a, b, f, p);
      if At(trace[a], m, InBatch) {
        StaysOneStep(trace, a, b, m, InBatch, f, trace[f + 1]);
        assert false;
      } else if At(trace[a], m, InTask) {
        var k := TaskWith(trace[a], m.id);
        assert MovesWithin(trace, a, b, k.id);
        var i, j :| a <= i && i + 1 == j <= b < |trace| && TaskMoves(trace[i], trace[j], k.id);
        StaysOneStep(trace, a, b, m, InTask, i, trace[j]);
        assert false;
      } else {
        assert At(trace[a], m, Waiting);
        StaysOneStep(trace, a, b, m, Waiting, f, trace[f + 1]);
        StaysOneStep(trace, a, b, m, Waiting, p, trace[p + 1]);
        assert false;
      }
    }
  }

  lemma {:induction false} TaskWith(s: State, id: Id) returns (k: Task)
    requires Good(s) && id in s.reader.inFlight
    ensures k in s.reader.tasks && k.id == id
  {
    k :| k in s.reader.tasks && k.id == id;
  }

  lemma {:induction false} StaysOneStep(trace: seq<State>, a: nat, b: nat, m: Msg, place: Place, k: nat, t: State)
    requires Between(trace, a, b) && Measure(trace[b]) >= Measure(trace[a]) && At(trace[a], m, place)
    requires a <= k < b && t == trace[k + 1]
    ensures At(trace[k], m, place)
    ensures place.InTask? ==> !TaskMoves(trace[k], t, m.id)
    ensures place.Waiting? && Process(trace[k], t) ==> m !in trace[k].loop.inbound
    ensures place.InBatch? ==> !Fetch(trace[k], t)
  {
    hide Quiet, Measure, Good, At, Process, Fetch, QuietTask;
    StaysThroughout(trace, a, b, m, place, k);
    StaysThroughout(trace, a, b, m, place, k + 1);
    assert Quiet(trace[k], trace[k + 1]);
    StaysInPlace(trace[k], t, m, place);
  }

  /** Rounds that follow each other, from one cut to the next. */
  ghost predicate Rounds(trace: seq<State>, cuts: seq<nat>) {
    && (forall i | 0 <= i < |cuts| :: cuts[i] < |trace|)
    && forall i, j | 0 <= i && i + 1 == j < |cuts| :: Round(trace, cuts[i], cuts[j])
  }

  lemma {:induction false} MeasureAfter(trace: seq<State>, cuts: seq<nat>, n: nat)
    requires Rounds(trace, cuts) && n < |cuts| && 0 < n
    ensures Good(trace[cuts[n]])
    ensures trace[cuts[n]].box == [] || Measure(trace[cuts[n]]) + n <= Measure(trace[cuts[0]])
  {
    hide Measure, Good, PollWithin, MovesWithin, Quiet;
    assert Round(trace, cuts[n - 1], cuts[n]);
    MeasureFalls(trace, cuts[n - 1], cuts[n], cuts[n]);
    if trace[cuts[n - 1]].box == [] {
      EmptyIsZero(trace[cuts[n - 1]]);
      EmptyIsZero(trace[cuts[n]]);
    } else {
      RoundLowers(trace, cuts[n - 1], cuts[n]);
    }
    if n > 1 { MeasureAfter(trace, cuts, n - 1); }
  }

  lemma {:induction false} EmptyIsZero(s: State)
    ensures Measure(s) == 0 <==> s.box == []
  {
    hide Weight;
    if s.box != [] { WeightIsPositive(s, s.box[|s.box| - 1].id); }
  }

  ghost predicate AllTaken(s: State) {
    forall id | id in s.injected :: id in s.handled || id in s.consumed
  }

  /** Every run of a serving reader in which polls succeed again and again and tasks go on, whatever is stale, in
      flight or on its way at the start and however the steps interleave: after as many rounds as the measure was at
      the start the relay is empty, and every message that was ever injected was handled, handed to its waiter or
      dropped. The measure contains what the handlers will throw, so each may throw as often as it will, finitely. */
  lemma {:induction false} Drains(trace: seq<State>, cuts: seq<nat>)
    requires Rounds(trace, cuts) && |cuts| > 1 && |cuts| > Measure(trace[cuts[0]])
    ensures trace[cuts[|cuts| - 1]].box == [] && AllTaken(trace[cuts[|cuts| - 1]])
  {
    hide Measure, Round;
    var n := |cuts| - 1;
    MeasureAfter(trace, cuts, n);
    var s := trace[cuts[n]];
    EmptyIsZero(s);
    assert forall id | id in s.injected :: Settled(s, id);
  }

  // ---------- and a serving reader can always go on ----------

  /** The next step of a task: a handler that returns, an acknowledgment that lands, or a release. */
  ghost function NextOf(s: State, i: nat): State
    requires i < |s.reader.tasks|
  {
    match s.reader.tasks[i].stage
    case Handling => SetStage(s, i, Acking).(handled := s.handled + [s.reader.tasks[i].id])
    case Acking => SetStage(s, i, Ending).(box := Without(s.box, {s.reader.tasks[i].id}))
    case Ending => s.(reader := Released(s.reader, i))
  }

  lemma {:induction false} NextOfIsQuiet(s: State, i: nat)
    requires i < |s.reader.tasks|
    ensures QuietTask(s, NextOf(s, i), i) && Quiet(s, NextOf(s, i))
  {
    var t := NextOf(s, i);
    assert QuietTask(s, t, i);
  }

  ghost function Processed(s: State): State
    requires s.loop.Fetched?
  {
    var (r, done) := Pass(s.reader, s.loop.inbound);
    s.(reader := r, loop := AckingBatch(done), consumed := s.consumed + IdSet(done))
  }

  ghost function Acked(s: State): State
    requires s.loop.AckingBatch?
  {
    s.(box := Without(s.box, IdSet(s.loop.done)), loop := Idle)
  }

  lemma {:induction false} AckedIsQuiet(s: State)
    requires s.loop.AckingBatch?
    ensures AckBatch(s, Acked(s)) && Quiet(s, Acked(s))
  {
  }

  lemma {:induction false} ProcessedIsQuiet(s: State)
    requires s.loop.Fetched?
    ensures Process(s, Processed(s)) && Quiet(s, Processed(s))
  {
  }

  lemma {:induction false} NextOfKeepsRest(s: State, i: nat)
    requires i < |s.reader.tasks|
    ensures NextOf(s, i).loop == s.loop && |NextOf(s, i).reader.tasks| >= i
    ensures NextOf(s, i).reader.tasks[..i] == s.reader.tasks[..i]
  {
  }

  /** The first n tasks take a step each, the last of them first. */
  lemma {:induction false} TasksMove(trace: seq<State>, n: nat) returns (longer: seq<State>)
    requires trace != [] && QuietRun(trace) && Good(trace[|trace| - 1])
    requires n <= |trace[0].reader.tasks| && n <= |trace[|trace| - 1].reader.tasks|
    requires trace[|trace| - 1].reader.tasks[..n] == trace[0].reader.tasks[..n]
    ensures trace <= longer && QuietRun(longer) && Good(longer[|longer| - 1])
    ensures forall i | 0 <= i < n :: MovesWithin(longer, 0, |longer| - 1, trace[0].reader.tasks[i].id)
    decreases n
  {
    hide Good, QuietRun, NextOf, Quiet, QuietTask;
    longer := trace;
    if n > 0 {
      var s, k := trace[|trace| - 1], trace[0].reader.tasks[n - 1];
      var t := NextOf(s, n - 1);
      assert s.reader.tasks[n - 1] == s.reader.tasks[..n][n - 1] == k;
      NextOfIsQuiet(s, n - 1);
      QuietStaysGood(s, t);
      QuietAppend(trace, t);
      NextOfKeepsRest(s, n - 1);
      assert s.reader.tasks[..n - 1] == s.reader.tasks[..n][..n - 1];
      longer := TasksMove(trace + [t], n - 1);
      assert longer[..|trace|] == trace;
      assert longer[|trace| - 1] == s && longer[|trace|] == t by { assert longer[..|trace| + 1] == trace + [t]; }
      assert TaskMoves(longer[|trace| - 1], longer[|trace|], k.id);
      assert MovesWithin(longer, 0, |longer| - 1, k.id);
    }
  }

  lemma {:induction false} Goes(trace: seq<State>, t: State) returns (longer: seq<State>)
    requires trace != [] && QuietRun(trace) && Good(trace[|trace| - 1]) && Quiet(trace[|trace| - 1], t)
    ensures trace <= longer && QuietRun(longer) && longer[|longer| - 1] == t && Good(t) && |longer| == |trace| + 1
  {
    hide Good, QuietRun, Quiet;
    QuietStaysGood(trace[|trace| - 1], t);
    QuietAppend(trace, t);
    longer := trace + [t];
    assert longer[..|trace|] == trace;
  }

  /** The loop comes to rest, whatever it was at. */
  lemma {:induction false} LoopRests(trace: seq<State>) returns (longer: seq<State>)
    requires trace != [] && QuietRun(trace) && Good(trace[|trace| - 1])
    ensures trace <= longer && QuietRun(longer) && Good(longer[|longer| - 1]) && longer[|longer| - 1].loop.Idle?
  {
    hide Good, QuietRun, Quiet;
    longer := trace;
    if longer[|longer| - 1].loop.Fetched? {
      ProcessedIsQuiet(longer[|longer| - 1]);
      longer := Goes(longer, Processed(longer[|longer| - 1]));
    }
    if longer[|longer| - 1].loop.AckingBatch? {
      AckedIsQuiet(longer[|longer| - 1]);
      longer := Goes(longer, Acked(longer[|longer| - 1]));
    }
  }

  lemma {:induction false} LongerMoves(trace: seq<State>, longer: seq<State>, id: Id)
    requires trace <= longer && trace != [] && MovesWithin(trace, 0, |trace| - 1, id)
    ensures MovesWithin(longer, 0, |longer| - 1, id)
  {
    var i, j :| 0 <= i && i + 1 == j <= |trace| - 1 && TaskMoves(trace[i], trace[j], id);
    assert longer[i] == trace[i] && longer[j] == trace[j];
  }

  /** From every safe state of a serving reader a round can be made. */
  lemma {:induction false} RoundExists(s: State) returns (trace: seq<State>)
    requires Good(s)
    ensures trace != [] && trace[0] == s && QuietRun(trace) && Round(trace, 0, |trace| - 1)
  {
    hide Good, QuietRun, Quiet, MovesWithin;
    assert QuietRun([s]) by { OneStateRun(s); }
    var first := TasksMove([s], |s.reader.tasks|);
    trace := LoopRests(first);
    var u := trace[|trace| - 1];
    var f := |trace| - 1;
    var u1 := u.(loop := Fetched(u.box));
    assert Quiet(u, u1) by { assert Fetch(u, u1); FetchIsQuiet(u, u1); }
    trace := Goes(trace, u1);
    ProcessedIsQuiet(u1);
    trace := Goes(trace, Processed(u1));
    assert PollWithin(trace, 0, |trace| - 1, f, f + 1);
    assert Between(trace, 0, |trace| - 1) by { QuietIsBetween(trace); }
    forall k | k in s.reader.tasks ensures MovesWithin(trace, 0, |trace| - 1, k.id) {
      var i :| 0 <= i < |s.reader.tasks| && s.reader.tasks[i] == k;
      LongerMoves(first, trace, k.id);
    }
  }

  lemma {:induction false} OneStateRun(s: State)
    ensures QuietRun([s])
  {
  }

  lemma {:induction false} FetchIsQuiet(s: State, t: State)
    requires Fetch(s, t)
    ensures Quiet(s, t)
  {
  }

  lemma {:induction false} QuietIsBetween(trace: seq<State>)
    requires QuietRun(trace) && Good(trace[0])
    ensures Between(trace, 0, |trace| - 1)
  {
  }
  lemma {:induction false} Joined(trace: seq<State>, rest: seq<State>)
    requires QuietRun(trace) && QuietRun(rest) && trace[|trace| - 1] == rest[0]
    ensures QuietRun(trace + rest[1..]) && (trace + rest[1..])[|trace + rest[1..]| - 1] == rest[|rest| - 1]
  {
    hide Quiet;
    var longer := trace + rest[1..];
    forall i, j | 0 <= i && i + 1 == j < |longer| ensures Quiet(longer[i], longer[j]) {
      if j < |trace| {
        assert Quiet(trace[i], trace[j]);
      } else {
        assert Quiet(rest[i - |trace| + 1], rest[j - |trace| + 1]);
      }
    }
  }

  /** And round after round the relay can be emptied, whatever is stale, in flight or on its way. */
  lemma {:induction false} CanDrain(s: State) returns (trace: seq<State>)
    requires Good(s)
    ensures trace != [] && QuietRun(trace) && trace[0] == s && trace[|trace| - 1].box == []
    decreases Measure(s)
  {
    hide Good, QuietRun, Measure, MovesWithin, PollWithin, Quiet;
    if s.box == [] {
      trace := [s];
      OneStateRun(s);
    } else {
      var first := RoundExists(s);
      RoundLowers(first, 0, |first| - 1);
      MeasureFalls(first, 0, |first| - 1, |first| - 1);
      var rest := CanDrain(first[|first| - 1]);
      Joined(first, rest);
      trace := first + rest[1..];
    }
  }
}
