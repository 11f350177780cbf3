/** Status-list indices: one sealed record from recognition ids to indices, versioned on the ledger, and any number
    of allocators, in any number of processes, that read it, check that it did not move, and write it back. */
module Allocation {
  import opened Wrappers

  type Record = map<string, int>

  /** Every index below n. */
  function Slots(n: nat): set<int> {
    if n == 0 then {} else Slots(n - 1) + {n - 1}
  }

  lemma {:induction false} SlotsCount(n: nat)
    ensures |Slots(n)| == n && forall i :: i in Slots(n) <==> 0 <= i < n
  {
    if n > 0 {
      SlotsCount(n - 1);
    }
  }

  predicate AllTaken(used: set<int>, space: nat) {
    forall i | 0 <= i < space :: i in used
  }

  lemma {:induction false} SmallerSet<T>(a: set<T>, b: set<T>)
    requires a <= b
    ensures |a| <= |b| && (|a| == |b| ==> a == b)
  {
    assert b == a + (b - a);
  }

  lemma {:induction false} TakenIsFull(used: set<int>, space: nat)
    requires AllTaken(used, space)
    ensures |used| >= space
  {
    SlotsCount(space);
    forall i | i in Slots(space) ensures i in used {}
    SmallerSet(Slots(space), used);
  }

  function Free(used: set<int>, space: nat): set<int> {
    Slots(space) - used
  }

  function Outside(used: set<int>, space: nat): set<int> {
    used - Slots(space)
  }

  lemma {:induction false} NothingFree(used: set<int>, space: nat)
    ensures AllTaken(used, space) <==> |Free(used, space)| == 0
  {
    SlotsCount(space);
    if AllTaken(used, space) {
      forall i ensures i !in Free(used, space) {}
      assert Free(used, space) == {};
    } else {
      var i: int :| 0 <= i < space && i !in used;
      assert i in Free(used, space);
    }
    forall i | 0 <= i < space && |Free(used, space)| == 0 ensures i in used { assert i in Slots(space); }
  }

  /** The count that the allocator looks at: it reports a full space while slots are free exactly when there are free
      slots, and no more of them than indices that were counted though they lie outside the space. */
  lemma {:induction false} CountMeansTaken(used: set<int>, space: nat)
    ensures |used| >= space && !AllTaken(used, space) <==> 0 < |Free(used, space)| <= |Outside(used, space)|
    ensures Outside(used, space) == {} ==> (|used| >= space <==> AllTaken(used, space))
  {
    SlotsCount(space);
    var common := used * Slots(space);
    assert used == common + Outside(used, space) && Slots(space) == common + Free(used, space);
    NothingFree(used, space);
  }

  /** pickFree: random tries first, then the first free slot. It fails exactly when the count is full. */
  method PickFree(used: set<int>, space: nat) returns (r: Option<int>)
    ensures r.None? <==> |used| >= space
    ensures r.Some? ==> 0 <= r.value < space && r.value !in used
  {
    if |used| >= space {
      return None;
    }
    assert space > 0 by {
      if space == 0 { assert |used| >= 0; }
    }
    for t := 0 to 100_000 {
      var i: int :| 0 <= i < space;
      if i !in used {
        return Some(i);
      }
    }
    for i := 0 to space
      invariant forall j | 0 <= j < i :: j in used
    {
      if i !in used {
        return Some(i);
      }
    }
    TakenIsFull(used, space);
    assert false;
  }

  // ---------- allocators ----------

  datatype Outcome = Exhausted | TooManyConflicts

  /** One call of allocateIndex. The attempt counts from 1; a version is known by its number, counted from 1. */
  datatype Phase =
    | Ready(attempt: nat)
    | Holding(attempt: nat, rec: Record, version: nat)
    | Picked(attempt: nat, rec: Record, version: nat, index: int)
    | Checked(attempt: nat, rec: Record, version: nat, index: int)
    | Wrote(attempt: nat, index: int)
    | Returned(index: int)
    | Failed(why: Outcome)

  /** The space is an argument of each call, and one record may serve calls with different spaces. */
  datatype Job = Job(id: string, space: nat, phase: Phase)

  /** The last field is history: how many writes were refused though the record had not moved. */
  datatype State = State(versions: seq<Record>, jobs: seq<Job>, refusals: nat)

  function Head(s: State): Record
    requires s.versions != []
  {
    s.versions[|s.versions| - 1]
  }

  function To(s: State, p: nat, phase: Phase): State
    requires p < |s.jobs|
  {
    s.(jobs := s.jobs[p := s.jobs[p].(phase := phase)])
  }

  function Retry(attempt: nat, maxRetries: nat): Phase {
    if attempt > maxRetries then Failed(TooManyConflicts) else Ready(attempt + 1)
  }

  predicate Confirmed(rec: Record, id: string, index: int) {
    id in rec && rec[id] == index && forall k | k in rec && rec[k] == index :: k == id
  }

  predicate In(s: State, p: nat) {
    p < |s.jobs| && s.versions != []
  }

  ghost predicate Start(s: State, t: State, id: string, space: nat) {
    t == s.(jobs := s.jobs + [Job(id, space, Ready(1))])
  }

  ghost predicate Read(s: State, t: State, p: nat) {
    && In(s, p) && s.jobs[p].phase.Ready?
    && var id := s.jobs[p].id;
       t == To(s, p, if id in Head(s) then Returned(Head(s)[id])
                     else Holding(s.jobs[p].phase.attempt, Head(s), |s.versions|))
  }

  ghost predicate Pick(s: State, t: State, p: nat, index: int) {
    && In(s, p) && s.jobs[p].phase.Holding?
    && var h := s.jobs[p].phase;
       if |h.rec.Values| >= s.jobs[p].space then t == To(s, p, Failed(Exhausted))
       else 0 <= index < s.jobs[p].space && index !in h.rec.Values && t == To(s, p, Picked(h.attempt, h.rec, h.version, index))
  }

  ghost predicate CheckHead(s: State, t: State, p: nat, maxRetries: nat) {
    && In(s, p) && s.jobs[p].phase.Picked?
    && var h := s.jobs[p].phase;
       t == To(s, p, if |s.versions| != h.version then Retry(h.attempt, maxRetries)
                     else Checked(h.attempt, h.rec, h.version, h.index))
  }

  function Written(h: Phase, id: string): Record
    requires h.Checked?
  {
    h.rec[id := h.index]
  }

  ghost predicate Write(s: State, t: State, p: nat) {
    && In(s, p) && s.jobs[p].phase.Checked?
    && var h := s.jobs[p].phase;
       t == To(s, p, Wrote(h.attempt, h.index)).(versions := s.versions + [Written(h, s.jobs[p].id)])
  }

  /** An update may be refused, because the version moved or for any other reason: each is answered by a retry. */
  ghost predicate WriteRejected(s: State, t: State, p: nat, maxRetries: nat) {
    && In(s, p) && s.jobs[p].phase.Checked?
    && t == To(s, p, Retry(s.jobs[p].phase.attempt, maxRetries)).(
         refusals := s.refusals + if |s.versions| == s.jobs[p].phase.version then 1 else 0)
  }

  ghost predicate Verify(s: State, t: State, p: nat, maxRetries: nat) {
    && In(s, p) && s.jobs[p].phase.Wrote?
    && var h := s.jobs[p].phase;
       t == To(s, p, if Confirmed(Head(s), s.jobs[p].id, h.index) then Returned(h.index) else Retry(h.attempt, maxRetries))
  }

  ghost predicate JobStep(s: State, t: State, p: nat, maxRetries: nat) {
    || Read(s, t, p) || (exists i :: Pick(s, t, p, i)) || CheckHead(s, t, p, maxRetries)
    || Write(s, t, p) || WriteRejected(s, t, p, maxRetries) || Verify(s, t, p, maxRetries)
  }

  /** All calls are for spaces of at most the given size. */
  ghost predicate Next(s: State, t: State, space: nat, maxRetries: nat) {
    (exists id, n: nat :: n <= space && Start(s, t, id, n)) || (exists p: nat :: JobStep(s, t, p, maxRetries))
  }

  ghost predicate Run(trace: seq<State>, space: nat, maxRetries: nat) {
    && trace != [] && trace[0] == State([map[]], [], 0)
    && forall i, j | 0 <= i && i + 1 == j < |trace| :: Next(trace[i], trace[j], space, maxRetries)
  }

  // ---------- in every interleaving ----------

  predicate Injective(rec: Record) {
    forall a, b | a in rec && b in rec && rec[a] == rec[b] :: a == b
  }

  predicate Proper(rec: Record, space: nat) {
    Injective(rec) && forall id | id in rec :: 0 <= rec[id] < space
  }

  /** The record was version v. */
  predicate ReadAt(s: State, rec: Record, v: nat) {
    1 <= v <= |s.versions| && rec == s.versions[v - 1]
  }

  predicate PhaseProper(h: Phase, id: string, s: State, space: nat) {
    match h
    case Ready(a) => 1 <= a <= |s.versions| + s.refusals
    case Holding(a, rec, v) => 1 <= a <= v + s.refusals && ReadAt(s, rec, v) && id !in rec
    case Picked(a, rec, v, i) =>
      1 <= a <= v + s.refusals && ReadAt(s, rec, v) && id !in rec && 0 <= i < space && i !in rec.Values
    case Checked(a, rec, v, i) =>
      1 <= a <= v + s.refusals && ReadAt(s, rec, v) && id !in rec && 0 <= i < space && i !in rec.Values
    case Wrote(a, i) => 1 <= a < |s.versions| + s.refusals
    case _ => true
  }

  ghost predicate Sound(s: State, space: nat) {
    && s.versions != []
    && (forall v | 0 <= v < |s.versions| :: Proper(s.versions[v], space))
    && forall p: nat | p < |s.jobs| :: s.jobs[p].space <= space && PhaseProper(s.jobs[p].phase, s.jobs[p].id, s, space)
  }

  lemma {:induction false} WrittenIsProper(h: Phase, id: string, space: nat)
    requires h.Checked? && Proper(h.rec, space) && id !in h.rec && 0 <= h.index < space && h.index !in h.rec.Values
    ensures Proper(Written(h, id), space)
  {
    var w := Written(h, id);
    forall a, b | a in w && b in w && w[a] == w[b] ensures a == b {
      NotThere(h.rec, h.index, a);
      NotThere(h.rec, h.index, b);
    }
  }

  lemma {:induction false} NotThere(rec: Record, index: int, k: string)
    requires index !in rec.Values
    ensures k in rec ==> rec[k] != index
  {
  }

  lemma {:induction false} PhaseStaysProper(h: Phase, id: string, s: State, t: State, space: nat)
    requires PhaseProper(h, id, s, space) && s.versions <= t.versions && s.refusals <= t.refusals
    ensures PhaseProper(h, id, t, space)
  {
  }

  /** The phase that a job moves to. */
  lemma {:induction false} MovedIsProper(s: State, t: State, p: nat, space: nat, maxRetries: nat)
    requires JobStep(s, t, p, maxRetries) && s.jobs[p].space <= space
    requires PhaseProper(s.jobs[p].phase, s.jobs[p].id, s, space)
    ensures p < |s.jobs| && s.versions != [] && s.versions <= t.versions && |t.jobs| == |s.jobs|
    ensures s.refusals <= t.refusals && t.jobs[p].space == s.jobs[p].space
    ensures PhaseProper(t.jobs[p].phase, t.jobs[p].id, t, space)
    ensures forall q: nat | q < |t.jobs| && q != p :: t.jobs[q] == s.jobs[q]
  {
  }

  lemma {:induction false} JobKeepsSound(s: State, t: State, p: nat, space: nat, maxRetries: nat)
    requires JobStep(s, t, p, maxRetries) && Sound(s, space)
    ensures Sound(t, space)
  {
    hide Proper, PhaseProper;
    assert PhaseProper(s.jobs[p].phase, s.jobs[p].id, s, space);
    MovedIsProper(s, t, p, space, maxRetries);
    forall q: nat | q < |t.jobs|
      ensures t.jobs[q].space <= space && PhaseProper(t.jobs[q].phase, t.jobs[q].id, t, space)
    {
      if q != p {
        assert PhaseProper(s.jobs[q].phase, s.jobs[q].id, s, space);
        PhaseStaysProper(s.jobs[q].phase, s.jobs[q].id, s, t, space);
      }
    }
    if Write(s, t, p) {
      CheckedIsProper(s, p, space);
      WrittenIsProper(s.jobs[p].phase, s.jobs[p].id, space);
    }
  }

  lemma {:induction false} CheckedIsProper(s: State, p: nat, space: nat)
    requires Sound(s, space) && p < |s.jobs| && s.jobs[p].phase.Checked?
    ensures var h := s.jobs[p].phase;
            Proper(h.rec, space) && s.jobs[p].id !in h.rec && 0 <= h.index < space && h.index !in h.rec.Values
  {
    assert PhaseProper(s.jobs[p].phase, s.jobs[p].id, s, space);
  }

  /** In every interleaving each version of the record gives different ids different indices, all below the space,
      and no allocator makes more attempts than versions were written and writes refused without one: each retry
      answers a write of somebody, or such a refusal. */
  lemma {:induction false} SoundAlways(trace: seq<State>, space: nat, maxRetries: nat, i: nat)
    requires Run(trace, space, maxRetries) && i < |trace|
    ensures Sound(trace[i], space)
  {
    if i > 0 {
      SoundAlways(trace, space, maxRetries, i - 1);
      var s, t := trace[i - 1], trace[i];
      assert Next(s, t, space, maxRetries);
      if p: nat :| JobStep(s, t, p, maxRetries) {
        JobKeepsSound(s, t, p, space, maxRetries);
      } else {
        var id, n: nat :| n <= space && Start(s, t, id, n);
        forall q: nat | q < |t.jobs|
          ensures t.jobs[q].space <= space && PhaseProper(t.jobs[q].phase, t.jobs[q].id, t, space)
        {
          if q < |s.jobs| { assert PhaseProper(s.jobs[q].phase, s.jobs[q].id, s, space); }
        }
      }
    }
  }

  // ---------- what a call relies on ----------

  /** An index that the record already has for the id is returned as it is, and nothing is written. */
  lemma {:induction false} ExistingIsReturned(s: State, t: State, p: nat)
    requires Read(s, t, p)
    ensures t.versions == s.versions
    ensures var rec := s.versions[|s.versions| - 1]; var id := s.jobs[p].id;
            if id in rec then t.jobs[p].phase == Returned(rec[id])
            else t.jobs[p].phase == Holding(s.jobs[p].phase.attempt, rec, |s.versions|)
  {
  }

  /** A call goes on to write only if no version was added since it read the record. */
  lemma {:induction false} CheckedIsUnmoved(s: State, t: State, p: nat, maxRetries: nat)
    requires CheckHead(s, t, p, maxRetries)
    ensures t.jobs[p].phase.Checked? <==> |s.versions| == s.jobs[p].phase.version
    ensures t.jobs[p].phase.Checked? ==> t.jobs[p].phase.index == s.jobs[p].phase.index
  {
  }

  /** After its write it returns only if the record then has its index for its id, and for no other. */
  lemma {:induction false} VerifiedIsUnique(s: State, t: State, p: nat, maxRetries: nat)
    requires Verify(s, t, p, maxRetries)
    ensures var rec := s.versions[|s.versions| - 1]; var id := s.jobs[p].id; var index := s.jobs[p].phase.index;
            t.jobs[p].phase == Returned(index) <==>
              (id in rec && rec[id] == index && forall k :: k in rec && k != id ==> rec[k] != index)
  {
  }

  predicate AttemptsWithin(h: Phase, maxRetries: nat) {
    match h
    case Ready(a) => a <= maxRetries + 1
    case Holding(a, _, _) => a <= maxRetries + 1
    case Picked(a, _, _, _) => a <= maxRetries + 1
    case Checked(a, _, _, _) => a <= maxRetries + 1
    case Wrote(a, _) => a <= maxRetries + 1
    case _ => true
  }

  lemma {:induction false} StepWithin(s: State, t: State, space: nat, maxRetries: nat, p: nat)
    requires Next(s, t, space, maxRetries) && p < |t.jobs|
    requires p < |s.jobs| ==> AttemptsWithin(s.jobs[p].phase, maxRetries)
    ensures AttemptsWithin(t.jobs[p].phase, maxRetries)
    ensures t.jobs[p].phase == Failed(TooManyConflicts) ==>
              p < |s.jobs| && (t.jobs[p] == s.jobs[p] || LastAttempt(s.jobs[p].phase, maxRetries))
  {
  }

  /** The attempt after which a conflict is an error. */
  predicate LastAttempt(h: Phase, maxRetries: nat) {
    (h.Picked? || h.Checked? || h.Wrote?) && h.attempt == maxRetries + 1
  }

  /** No call makes more attempts than one and its retries, and none gives up before the last of them. */
  lemma {:induction false} AttemptsAlways(trace: seq<State>, space: nat, maxRetries: nat, i: nat, p: nat)
    requires Run(trace, space, maxRetries) && i < |trace| && p < |trace[i].jobs|
    ensures AttemptsWithin(trace[i].jobs[p].phase, maxRetries)
    ensures trace[i].jobs[p].phase == Failed(TooManyConflicts) ==>
              exists j :: 0 <= j < i && p < |trace[j].jobs| && LastAttempt(trace[j].jobs[p].phase, maxRetries)
  {
    hide Next;
    if i > 0 {
      assert Next(trace[i - 1], trace[i], space, maxRetries);
      if p < |trace[i - 1].jobs| { AttemptsAlways(trace, space, maxRetries, i - 1, p); }
      StepWithin(trace[i - 1], trace[i], space, maxRetries, p);
    }
  }

  /** While a call was on, the record had the index for its id and for no other. */
  ghost predicate RecordedAt(s: State, p: nat, id: string, index: int) {
    && p < |s.jobs| && s.versions != []
    && var rec := s.versions[|s.versions| - 1];
       id in rec && rec[id] == index && forall k | k in rec && k != id :: rec[k] != index
  }

  lemma {:induction false} StepReturns(s: State, t: State, space: nat, maxRetries: nat, p: nat)
    requires Next(s, t, space, maxRetries) && Sound(s, space) && p < |t.jobs|
    ensures p < |s.jobs| ==> t.jobs[p].id == s.jobs[p].id
    ensures t.jobs[p].phase.Returned? ==>
              p < |s.jobs| && (t.jobs[p] == s.jobs[p] || RecordedAt(s, p, t.jobs[p].id, t.jobs[p].phase.index))
    ensures t.jobs[p].phase.Checked? ==>
              p < |s.jobs| && (t.jobs[p] == s.jobs[p]
                               || (s.jobs[p].phase.Picked? && |s.versions| == t.jobs[p].phase.version))
  {
    hide Sound;
    if p < |s.jobs| {
      assert Proper(Head(s), space) by { HeadIsProper(s, space); }
    }
  }

  lemma {:induction false} HeadIsProper(s: State, space: nat)
    requires Sound(s, space)
    ensures s.versions != [] && Proper(Head(s), space)
  {
  }

  /** In every run, whether or not its writes land on what they read: an index that was returned was at some time during
      the call the one of its id, and of no other, in the record; and whoever goes on to write has found the record at
      the very version that it had read. */
  lemma {:induction false} ReturnedWasRecorded(trace: seq<State>, space: nat, maxRetries: nat, i: nat, p: nat)
    requires Run(trace, space, maxRetries) && i < |trace| && p < |trace[i].jobs|
    ensures var job := trace[i].jobs[p];
            && (job.phase.Returned? ==> exists j :: 0 <= j < i && RecordedAt(trace[j], p, job.id, job.phase.index))
            && (job.phase.Checked? ==>
                  exists j :: 0 <= j < i && p < |trace[j].jobs| && trace[j].jobs[p].phase.Picked?
                              && |trace[j].versions| == job.phase.version)
  {
    hide Next, Sound, RecordedAt;
    if i > 0 {
      assert Next(trace[i - 1], trace[i], space, maxRetries);
      SoundAlways(trace, space, maxRetries, i - 1);
      StepReturns(trace[i - 1], trace[i], space, maxRetries, p);
      if p < |trace[i - 1].jobs| { ReturnedWasRecorded(trace, space, maxRetries, i - 1, p); }
    }
  }

  // ---------- exhaustion ----------

  lemma {:induction false} ProperIsInside(rec: Record, space: nat)
    requires Proper(rec, space)
    ensures Outside(rec.Values, space) == {}
  {
    SlotsCount(space);
    forall i ensures i !in Outside(rec.Values, space) {
      if i in rec.Values {
        var id :| id in rec && rec[id] == i;
      }
    }
  }

  /** In every interleaving of calls for one space, an allocator reports exhaustion exactly when every slot is taken
      in the version of the record that it read. */
  lemma {:induction false} ExhaustedIffFull(
      trace: seq<State>, space: nat, maxRetries: nat, i: nat, p: nat, index: int, t: State)
    requires Run(trace, space, maxRetries) && i < |trace| && Pick(trace[i], t, p, index)
    requires trace[i].jobs[p].space == space
    ensures var h := trace[i].jobs[p].phase;
            && 1 <= h.version <= |trace[i].versions| && h.rec == trace[i].versions[h.version - 1]
            && (t.jobs[p].phase == Failed(Exhausted) <==> AllTaken(h.rec.Values, space))
  {
    SoundAlways(trace, space, maxRetries, i);
    var s := trace[i];
    var h := s.jobs[p].phase;
    assert PhaseProper(h, s.jobs[p].id, s, space);
    ProperIsInside(h.rec, space);
    CountMeansTaken(h.rec.Values, space);
  }

  lemma {:induction false} StartedFresh(s: State, t: State, p: nat, space: nat, maxRetries: nat)
    requires Next(s, t, space, maxRetries) && p < |t.jobs| && t.jobs[p].phase == Failed(Exhausted)
    ensures p < |s.jobs| && t.jobs[p].space == s.jobs[p].space
    ensures s.jobs[p].phase == Failed(Exhausted)
            || (s.jobs[p].phase.Holding? && exists index :: Pick(s, t, p, index))
  {
    if q: nat :| JobStep(s, t, q, maxRetries) {
      if q == p && s.jobs[p].phase.Holding? {
        var index :| Pick(s, t, p, index);
      }
    }
  }

  /** Whoever has failed as exhausted read a version in which every slot of its space was taken. */
  lemma {:induction false} FailedWasFull(trace: seq<State>, space: nat, maxRetries: nat, i: nat, p: nat)
    returns (j: nat, v: nat)
    requires Run(trace, space, maxRetries) && i < |trace| && p < |trace[i].jobs|
    requires trace[i].jobs[p].phase == Failed(Exhausted) && trace[i].jobs[p].space == space
    ensures j < i && v < |trace[j].versions| && AllTaken(trace[j].versions[v].Values, space)
  {
    hide Next, Pick;
    assert i > 0;
    var s, t := trace[i - 1], trace[i];
    assert Next(s, t, space, maxRetries);
    StartedFresh(s, t, p, space, maxRetries);
    if s.jobs[p].phase == Failed(Exhausted) {
      j, v := FailedWasFull(trace, space, maxRetries, i - 1, p);
    } else {
      var index :| Pick(s, t, p, index);
      ExhaustedIffFull(trace, space, maxRetries, i - 1, p, index, t);
      j, v := i - 1, s.jobs[p].phase.version - 1;
    }
  }

  // ---------- runs, one step at a time ----------

  lemma {:induction false} Append(trace: seq<State>, space: nat, maxRetries: nat, t: State)
    requires Run(trace, space, maxRetries) && Next(trace[|trace| - 1], t, space, maxRetries)
    ensures Run(trace + [t], space, maxRetries)
  {
    hide Next;
    var longer := trace + [t];
    forall i, j | 0 <= i && i + 1 == j < |longer| ensures Next(longer[i], longer[j], space, maxRetries) {
      if j < |trace| { assert Next(trace[i], trace[j], space, maxRetries); }
    }
  }

  lemma {:induction false} InitialRun(space: nat, maxRetries: nat)
    ensures Run([State([map[]], [], 0)], space, maxRetries)
  {
  }

  lemma {:induction false} Starts(trace: seq<State>, space: nat, maxRetries: nat, id: string, n: nat)
    returns (longer: seq<State>)
    requires Run(trace, space, maxRetries) && n <= space
    ensures Run(longer, space, maxRetries)
    ensures var s, t := trace[|trace| - 1], longer[|longer| - 1]; t == s.(jobs := s.jobs + [Job(id, n, Ready(1))])
  {
    var s := trace[|trace| - 1];
    var t := s.(jobs := s.jobs + [Job(id, n, Ready(1))]);
    assert Start(s, t, id, n);
    Append(trace, space, maxRetries, t);
    longer := trace + [t];
  }

  lemma {:induction false} Steps(trace: seq<State>, space: nat, maxRetries: nat, p: nat, t: State)
    returns (longer: seq<State>)
    requires Run(trace, space, maxRetries) && JobStep(trace[|trace| - 1], t, p, maxRetries)
    ensures Run(longer, space, maxRetries) && longer[|longer| - 1] == t
  {
    Append(trace, space, maxRetries, t);
    longer := trace + [t];
  }

  lemma {:induction false} Picks(trace: seq<State>, space: nat, maxRetries: nat, p: nat, index: int)
    returns (longer: seq<State>)
    requires Run(trace, space, maxRetries)
    requires var s := trace[|trace| - 1];
             && In(s, p) && s.jobs[p].phase.Ready? && s.jobs[p].id !in Head(s)
             && |Head(s).Values| < s.jobs[p].space && 0 <= index < s.jobs[p].space && index !in Head(s).Values
    ensures Run(longer, space, maxRetries)
    ensures var s, t := trace[|trace| - 1], longer[|longer| - 1];
            t == To(s, p, Picked(s.jobs[p].phase.attempt, Head(s), |s.versions|, index))
  {
    var s := trace[|trace| - 1];
    var a := s.jobs[p].phase.attempt;
    var s1 := To(s, p, Holding(a, Head(s), |s.versions|));
    var s2 := To(s1, p, Picked(a, Head(s), |s.versions|, index));
    assert Read(s, s1, p);
    longer := Steps(trace, space, maxRetries, p, s1);
    assert Pick(s1, s2, p, index);
    longer := Steps(longer, space, maxRetries, p, s2);
    assert s1.jobs[p := s1.jobs[p].(phase := s2.jobs[p].phase)] == s.jobs[p := s.jobs[p].(phase := s2.jobs[p].phase)];
  }

  lemma {:induction false} Checks(trace: seq<State>, space: nat, maxRetries: nat, p: nat) returns (longer: seq<State>)
    requires Run(trace, space, maxRetries)
    requires var s := trace[|trace| - 1]; In(s, p) && s.jobs[p].phase.Picked? && s.jobs[p].phase.version == |s.versions|
    ensures Run(longer, space, maxRetries)
    ensures var s, t := trace[|trace| - 1], longer[|longer| - 1]; var h := s.jobs[p].phase;
            t == To(s, p, Checked(h.attempt, h.rec, h.version, h.index))
  {
    var s := trace[|trace| - 1];
    var h := s.jobs[p].phase;
    var t := To(s, p, Checked(h.attempt, h.rec, h.version, h.index));
    assert CheckHead(s, t, p, maxRetries);
    longer := Steps(trace, space, maxRetries, p, t);
  }

  /** A call for a larger space has put an index above 0 on the record; a call for a space of one slot then reports
      that all indices are allocated, though its slot is free. */
  lemma {:induction false} SharedRecordExhaustsEarly(a: string, b: string, index: nat, maxRetries: nat)
    returns (trace: seq<State>)
    requires a != b && index > 0
    ensures Run(trace, index + 1, maxRetries)
    ensures var t := trace[|trace| - 1];
            && |t.jobs| == 2 && t.jobs[0].phase == Returned(index) && t.versions != [] && Head(t) == map[a := index]
            && t.jobs[1] == Job(b, 1, Failed(Exhausted)) && !AllTaken(Head(t).Values, 1)
  {
    trace := Starts([State([map[]], [], 0)], index + 1, maxRetries, a, index + 1);
    trace := Picks(trace, index + 1, maxRetries, 0, index);
    trace := Checks(trace, index + 1, maxRetries, 0);
    var s := trace[|trace| - 1];
    var rec: Record := map[a := index];
    var s1 := To(s, 0, Wrote(1, index)).(versions := s.versions + [rec]);
    assert Write(s, s1, 0);
    trace := Steps(trace, index + 1, maxRetries, 0, s1);
    var s2 := To(s1, 0, Returned(index));
    assert Verify(s1, s2, 0, maxRetries);
    trace := Steps(trace, index + 1, maxRetries, 0, s2);
    trace := Starts(trace, index + 1, maxRetries, b, 1);
    var s3 := trace[|trace| - 1];
    var s4 := To(s3, 1, Holding(1, rec, 2));
    assert Read(s3, s4, 1);
    trace := Steps(trace, index + 1, maxRetries, 1, s4);
    var s5 := To(s4, 1, Failed(Exhausted));
    assert rec.Values == {index};
    assert Pick(s4, s5, 1, 0);
    trace := Steps(trace, index + 1, maxRetries, 1, s5);
    assert 0 !in rec.Values;
  }

  // ---------- while every write lands on the version that was read ----------

  predicate Extends(later: Record, rec: Record) {
    forall id | id in rec :: id in later && later[id] == rec[id]
  }

  ghost predicate Growing(s: State) {
    forall v, w | 0 <= v < w < |s.versions| :: Extends(s.versions[w], s.versions[v]) && s.versions[v] != s.versions[w]
  }

  predicate PhaseKept(h: Phase, id: string, s: State)
    requires s.versions != []
  {
    match h
    case Wrote(_, i) => id in Head(s) && Head(s)[id] == i
    case Returned(i) => id in Head(s) && Head(s)[id] == i
    case _ => true
  }

  /** Committed entries are still there, and every index that was written or returned is the one in the record. */
  ghost predicate Durable(s: State) {
    s.versions != [] && Growing(s) && forall p: nat | p < |s.jobs| :: PhaseKept(s.jobs[p].phase, s.jobs[p].id, s)
  }

  /** Nobody wrote since p read, if p is about to write. */
  predicate OnHead(s: State, p: nat) {
    p < |s.jobs| && s.jobs[p].phase.Checked? ==> s.jobs[p].phase.version == |s.versions|
  }

  ghost predicate WritesOnHead(s: State, t: State) {
    forall p: nat | Write(s, t, p) :: OnHead(s, p)
  }

  lemma {:induction false} WriteKeepsDurable(s: State, t: State, p: nat, space: nat)
    requires Write(s, t, p) && OnHead(s, p) && Sound(s, space) && Durable(s)
    ensures Durable(t)
  {
    var h, id := s.jobs[p].phase, s.jobs[p].id;
    assert PhaseProper(h, id, s, space);
    assert h.rec == Head(s) && Extends(Head(t), Head(s));
    var n := |s.versions|;
    forall v, w | 0 <= v < w < |t.versions| ensures Extends(t.versions[w], t.versions[v]) && t.versions[v] != t.versions[w] {
      if w == n {
        assert v < n - 1 ==> Extends(s.versions[n - 1], s.versions[v]);
        assert id !in s.versions[v] && id in t.versions[w];
      }
    }
    forall q: nat | q < |t.jobs| ensures PhaseKept(t.jobs[q].phase, t.jobs[q].id, t) {
      assert PhaseKept(s.jobs[q].phase, s.jobs[q].id, s);
    }
  }

  lemma {:induction false} NoWriteKeepsVersions(s: State, t: State, space: nat, maxRetries: nat)
    requires Next(s, t, space, maxRetries) && s.versions != [] && !exists p: nat :: Write(s, t, p)
    ensures t.versions == s.versions && |t.jobs| >= |s.jobs|
    ensures forall q: nat | q < |t.jobs| && (q >= |s.jobs| || t.jobs[q] != s.jobs[q]) :: NewPhaseKept(s, t, q)
  {
  }

  /** A job that moved without writing: what it knows now is in the head, if it knew it before. */
  predicate NewPhaseKept(s: State, t: State, q: nat)
    requires q < |t.jobs| && s.versions != []
  {
    t.jobs[q].phase.Wrote? || t.jobs[q].phase.Returned? ==> PhaseKept(t.jobs[q].phase, t.jobs[q].id, s)
  }

  lemma {:induction false} StepKeepsDurable(s: State, t: State, space: nat, maxRetries: nat)
    requires Next(s, t, space, maxRetries) && Sound(s, space) && Durable(s) && WritesOnHead(s, t)
    ensures Durable(t)
  {
    hide Next, Sound, Write, OnHead;
    if p: nat :| Write(s, t, p) {
      assert OnHead(s, p);
      WriteKeepsDurable(s, t, p, space);
    } else {
      NoWriteKeepsVersions(s, t, space, maxRetries);
      forall q: nat | q < |t.jobs| ensures PhaseKept(t.jobs[q].phase, t.jobs[q].id, t) {
        if q < |s.jobs| && t.jobs[q] == s.jobs[q] {
          assert PhaseKept(s.jobs[q].phase, s.jobs[q].id, s);
        } else {
          assert NewPhaseKept(s, t, q);
        }
      }
    }
  }

  lemma {:induction false} DurableAlways(trace: seq<State>, space: nat, maxRetries: nat, i: nat)
    requires Run(trace, space, maxRetries) && i < |trace|
    requires forall j, k | 0 <= j && j + 1 == k <= i :: WritesOnHead(trace[j], trace[k])
    ensures Durable(trace[i])
  {
    hide Next, WritesOnHead;
    if i > 0 {
      hide Durable;
      DurableAlways(trace, space, maxRetries, i - 1);
      SoundAlways(trace, space, maxRetries, i - 1);
      assert Next(trace[i - 1], trace[i], space, maxRetries) && WritesOnHead(trace[i - 1], trace[i]);
      StepKeepsDurable(trace[i - 1], trace[i], space, maxRetries);
    }
  }

  /** In every run whose writes land on the versions they read, allocators with different ids return different
      indices, and what was returned stays in the record for good. */
  lemma {:induction false} ReturnedIndices(trace: seq<State>, space: nat, maxRetries: nat, i: nat, p: nat, q: nat)
    requires Run(trace, space, maxRetries) && i < |trace|
    requires forall j, k | 0 <= j && j + 1 == k <= i :: WritesOnHead(trace[j], trace[k])
    requires p < |trace[i].jobs| && q < |trace[i].jobs|
    requires trace[i].jobs[p].phase.Returned? && trace[i].jobs[q].phase.Returned?
    ensures trace[i].jobs[p].phase.index == trace[i].jobs[q].phase.index <==> trace[i].jobs[p].id == trace[i].jobs[q].id
    ensures trace[i].versions != [] && trace[i].jobs[p].id in Head(trace[i])
            && Head(trace[i])[trace[i].jobs[p].id] == trace[i].jobs[p].phase.index
  {
    DurableAlways(trace, space, maxRetries, i);
    SoundAlways(trace, space, maxRetries, i);
    assert PhaseKept(trace[i].jobs[p].phase, trace[i].jobs[p].id, trace[i]);
    assert PhaseKept(trace[i].jobs[q].phase, trace[i].jobs[q].id, trace[i]);
    assert Proper(Head(trace[i]), space);
  }

  // ---------- when a write lands on a version that moved ----------

  lemma {:induction false} SameKeys(a: Record, b: Record)
    requires Extends(b, a) && forall id | id in b :: id in a
    ensures a == b
  {
    assert a.Keys == b.Keys;
  }

  /** The head is checked before the write and not with it. As long as the versions grew, a write keeps the entries
      of the head exactly when nothing was committed since the read, or only the very entry that it writes. */
  lemma {:induction false} WriteKeepsEntries(s: State, t: State, p: nat, space: nat)
    requires Write(s, t, p) && Sound(s, space) && Growing(s)
    ensures Extends(Head(t), Head(s)) <==> OnHead(s, p) || Head(s) == Head(t)
  {
    var h, id, n := s.jobs[p].phase, s.jobs[p].id, |s.versions|;
    assert PhaseProper(h, id, s, space);
    assert Head(t) == Written(h, id);
    if h.version < n {
      assert Extends(s.versions[n - 1], s.versions[h.version - 1]) && s.versions[h.version - 1] != s.versions[n - 1];
      if Extends(Head(t), Head(s)) {
        if id !in Head(s) {
          SameKeys(h.rec, Head(s));
          assert false;
        }
        SameKeys(Head(s), Head(t));
      }
    }
  }

  /** Two allocators that passed the check at the same version with the same pick both return that index, and the
      entry of the first is gone: from every such state, whatever else is going on. */
  lemma {:induction false} CheckedCollide(s: State, p: nat, q: nat, space: nat, maxRetries: nat)
    returns (trace: seq<State>)
    requires Sound(s, space) && p < |s.jobs| && q < |s.jobs| && p != q && s.jobs[p].id != s.jobs[q].id
    requires s.jobs[p].phase.Checked? && s.jobs[q].phase.Checked? && s.jobs[p].phase.index == s.jobs[q].phase.index
    requires s.jobs[p].phase.version == |s.versions| == s.jobs[q].phase.version
    ensures |trace| == 5 && trace[0] == s
    ensures forall i, j | 0 <= i && i + 1 == j < |trace| :: Next(trace[i], trace[j], space, maxRetries)
    ensures var t := trace[4];
            && |t.jobs| == |s.jobs| && t.versions != []
            && t.jobs == s.jobs[p := s.jobs[p].(phase := Returned(s.jobs[p].phase.index))]
                               [q := s.jobs[q].(phase := Returned(s.jobs[p].phase.index))]
            && s.jobs[p].id !in Head(t)
  {
    var i := s.jobs[p].phase.index;
    var h, k := s.jobs[p].phase, s.jobs[q].phase;
    var s1 := To(s, p, Wrote(h.attempt, i)).(versions := s.versions + [Written(h, s.jobs[p].id)]);
    var s2 := To(s1, p, Returned(i));
    var s3 := To(s2, q, Wrote(k.attempt, i)).(versions := s2.versions + [Written(k, s.jobs[q].id)]);
    var s4 := To(s3, q, Returned(i));
    OverlapConfirms(s, p, space);
    OverlapConfirms(s, q, space);
    assert Write(s, s1, p) && Verify(s1, s2, p, maxRetries) && Write(s2, s3, q) && Verify(s3, s4, q, maxRetries);
    assert JobStep(s, s1, p, maxRetries) && JobStep(s1, s2, p, maxRetries);
    assert JobStep(s2, s3, q, maxRetries) && JobStep(s3, s4, q, maxRetries);
    trace := [s, s1, s2, s3, s4];
  }

  lemma {:induction false} OverlapConfirms(s: State, p: nat, space: nat)
    requires Sound(s, space) && p < |s.jobs| && s.jobs[p].phase.Checked?
    ensures Confirmed(Written(s.jobs[p].phase, s.jobs[p].id), s.jobs[p].id, s.jobs[p].phase.index)
    ensures forall id | id in Written(s.jobs[p].phase, s.jobs[p].id) :: id == s.jobs[p].id || id in s.jobs[p].phase.rec
    ensures s.jobs[p].id !in s.jobs[p].phase.rec && s.jobs[p].phase.version <= |s.versions|
    ensures s.jobs[p].phase.version > 0 && s.jobs[p].phase.rec == s.versions[s.jobs[p].phase.version - 1]
  {
    var h, id := s.jobs[p].phase, s.jobs[p].id;
    assert PhaseProper(h, id, s, space);
    forall k | k in Written(h, id) && Written(h, id)[k] == h.index ensures k == id {
      NotThere(h.rec, h.index, k);
    }
  }
  /** Two allocators, from the creation of the record on: both return the same index, whatever index it is, and the
      record then holds it for one of them only. */
  lemma {:induction false} OverlapCollides(a: string, b: string, index: nat, space: nat, maxRetries: nat)
    returns (trace: seq<State>)
    requires a != b && index < space
    ensures Run(trace, space, maxRetries)
    ensures var t := trace[|trace| - 1];
            && t.jobs == [Job(a, space, Returned(index)), Job(b, space, Returned(index))]
            && t.versions != [] && a !in Head(t)
  {
    hide Run, Sound;
    trace := BothChecked(a, b, index, space, maxRetries);
    SoundAlways(trace, space, maxRetries, |trace| - 1);
    var rest := CheckedCollide(trace[|trace| - 1], 0, 1, space, maxRetries);
    trace := Follow(trace, rest, space, maxRetries);
  }

  lemma {:induction false} Follow(trace: seq<State>, rest: seq<State>, space: nat, maxRetries: nat)
    returns (longer: seq<State>)
    requires Run(trace, space, maxRetries) && rest != [] && rest[0] == trace[|trace| - 1]
    requires forall i, j | 0 <= i && i + 1 == j < |rest| :: Next(rest[i], rest[j], space, maxRetries)
    ensures Run(longer, space, maxRetries) && longer[|longer| - 1] == rest[|rest| - 1]
    decreases |rest|
  {
    hide Next;
    longer := trace;
    if |rest| > 1 {
      Append(trace, space, maxRetries, rest[1]);
      forall i, j | 0 <= i && i + 1 == j < |rest[1..]| ensures Next(rest[1..][i], rest[1..][j], space, maxRetries) {
        assert Next(rest[i + 1], rest[j + 1], space, maxRetries);
      }
      longer := Follow(trace + [rest[1]], rest[1..], space, maxRetries);
    }
  }

  lemma {:induction false} BothChecked(a: string, b: string, index: nat, space: nat, maxRetries: nat)
    returns (trace: seq<State>)
    requires a != b && index < space
    ensures trace != [] && Run(trace, space, maxRetries)
    ensures var checked := Checked(1, map[], 1, index);
            trace[|trace| - 1] == State([map[]], [Job(a, space, checked), Job(b, space, checked)], 0)
  {
    hide Run;
    assert Run([State([map[]], [], 0)], space, maxRetries) by { InitialRun(space, maxRetries); }
    trace := Starts([State([map[]], [], 0)], space, maxRetries, a, space);
    trace := Starts(trace, space, maxRetries, b, space);
    trace := Picks(trace, space, maxRetries, 0, index);
    trace := Picks(trace, space, maxRetries, 1, index);
    trace := Checks(trace, space, maxRetries, 0);
    trace := Checks(trace, space, maxRetries, 1);
  }
}
