/** The durable drain of the transport: messages are read without removing them and acknowledged once they are
    handled. The relay's mailbox, one pass of the poll loop, and every interleaving of the two with handlers,
    acknowledgments, failures and crashes. */
module Drain {
  import opened Wrappers

  type Id = string

  /** A message without a usable body is poison; a sender is known only from an authenticated envelope. */
  datatype Msg = Msg(id: Id, thid: Option<string>, hasBody: bool, sender: Option<string>)

  // ---------- the relay's mailbox ----------

  function Without(box: seq<Msg>, gone: set<Id>): seq<Msg> {
    if box == [] then []
    else
      var before, last := Without(box[..|box| - 1], gone), box[|box| - 1];
      if last.id in gone then before else before + [last]
  }

  lemma {:induction false} WithoutMembers(box: seq<Msg>, gone: set<Id>, m: Msg)
    ensures m in Without(box, gone) <==> m in box && m.id !in gone
  {
    if box != [] {
      WithoutMembers(box[..|box| - 1], gone, m);
      assert box == box[..|box| - 1] + [box[|box| - 1]];
    }
  }

  function Ids(box: seq<Msg>): set<Id> {
    set m | m in box :: m.id
  }

  predicate DistinctIds(box: seq<Msg>) {
    forall i, j | 0 <= i < j < |box| :: box[i].id != box[j].id
  }

  lemma {:induction false} WithoutDistinct(box: seq<Msg>, gone: set<Id>)
    requires DistinctIds(box)
    ensures DistinctIds(Without(box, gone))
  {
    if box != [] {
      var n := |box| - 1;
      WithoutDistinct(box[..n], gone);
      forall m | m in Without(box[..n], gone) ensures m.id != box[n].id { WithoutMembers(box[..n], gone, m); }
    }
  }

  lemma {:induction false} WithoutOneByOne(box: seq<Msg>, gone: set<Id>, id: Id)
    ensures Without(Without(box, gone), {id}) == Without(box, gone + {id})
  {
    if box != [] {
      WithoutOneByOne(box[..|box| - 1], gone, id);
      var w, last := Without(box[..|box| - 1], gone), box[|box| - 1];
      assert (w + [last])[..|w|] == w;
    }
  }

  lemma {:induction false} WithoutNone(box: seq<Msg>)
    ensures Without(box, {}) == box
  {
    if box != [] {
      WithoutNone(box[..|box| - 1]);
      assert box == box[..|box| - 1] + [box[|box| - 1]];
    }
  }

  lemma {:induction false} WithoutIsShorter(box: seq<Msg>, gone: set<Id>)
    ensures |Without(box, gone)| <= |box|
    ensures (exists m :: m in box && m.id in gone) ==> |Without(box, gone)| < |box|
  {
    if box != [] {
      WithoutIsShorter(box[..|box| - 1], gone);
      assert box == box[..|box| - 1] + [box[|box| - 1]];
    }
  }

  lemma {:induction false} WithoutOneOfDistinct(box: seq<Msg>, id: Id)
    requires DistinctIds(box)
    ensures |Without(box, {id})| == if id in Ids(box) then |box| - 1 else |box|
    ensures id !in Ids(box) ==> Without(box, {id}) == box
  {
    if box != [] {
      var n := |box| - 1;
      assert box == box[..n] + [box[n]];
      WithoutOneOfDistinct(box[..n], id);
      if box[n].id == id {
        assert id !in Ids(box[..n]);
      }
    }
  }

  function IdSet(ids: seq<Id>): set<Id> {
    set id | id in ids
  }

  lemma {:induction false} IdSetGrows(ids: seq<Id>, i: nat)
    requires i < |ids|
    ensures IdSet(ids[..i + 1]) == IdSet(ids[..i]) + {ids[i]}
  {
    assert ids[..i + 1] == ids[..i] + [ids[i]];
  }

  class Mailbox {
    var entries: seq<Msg>

    ghost predicate Valid()
      reads this
    {
      DistinctIds(entries)
    }

    constructor ()
      ensures Valid() && entries == []
    {
      entries := [];
    }

    /** What is put under an id that is there already takes its place. */
    method Inject(m: Msg)
      requires Valid()
      modifies this
      ensures Valid() && m in entries
      ensures forall e :: e in entries && e.id != m.id <==> e in old(entries) && e.id != m.id
      ensures m.id !in Ids(old(entries)) ==> entries == old(entries) + [m]
      ensures forall j | 0 <= j < |old(entries)| && old(entries)[j].id == m.id :: entries == old(entries)[j := m]
    {
      var i := 0;
      while i < |entries|
        invariant 0 <= i <= |entries|
        invariant forall j | 0 <= j < i :: entries[j].id != m.id
      {
        if entries[i].id == m.id {
          assert forall e | e in entries[i := m] && e.id != m.id :: e in entries;
          forall e | e in entries && e.id != m.id ensures e in entries[i := m] {
            var j :| 0 <= j < |entries| && entries[j] == e;
            assert entries[i := m][j] == e;
          }
          entries := entries[i := m];
          assert entries[i] == m;
          return;
        }
        i := i + 1;
      }
      entries := entries + [m];
      assert entries[|entries| - 1] == m;
    }

    method ReceiveDidComm(ack: bool) returns (out: seq<Msg>)
      requires Valid()
      modifies this
      ensures Valid() && out == old(entries) && entries == if ack then [] else old(entries)
    {
      out := entries;
      if ack {
        entries := [];
      }
    }

    method AckDidComm(ids: seq<Id>) returns (removed: nat)
      requires Valid()
      modifies this
      ensures Valid() && entries == Without(old(entries), IdSet(ids))
      ensures removed == |old(entries)| - |entries|
    {
      removed := 0;
      WithoutNone(entries);
      assert IdSet(ids[..0]) == {};
      for i := 0 to |ids|
        invariant Valid() && entries == Without(old(entries), IdSet(ids[..i]))
        invariant removed == |old(entries)| - |entries|
      {
        WithoutOneOfDistinct(entries, ids[i]);
        WithoutOneByOne(old(entries), IdSet(ids[..i]), ids[i]);
        WithoutDistinct(entries, {ids[i]});
        IdSetGrows(ids, i);
        if exists m :: m in entries && m.id == ids[i] {
          removed := removed + 1;
        }
        entries := Without(entries, {ids[i]});
      }
      assert ids[..|ids|] == ids;
    }
  }

  // ---------- one pass over what was received ----------

  /** A handler that runs, one that returned and sent its acknowledgment, and one that is about to be released. */
  datatype Stage = Handling | Acking | Ending

  datatype Task = Task(id: Id, stage: Stage)

  /** The reader's own memory, which a crash loses: tasks in the order in which they were started, threads whose
      waiter has no reply yet, and the replies that were handed to waiters. */
  datatype Reader = Reader(
    inFlight: set<Id>, tasks: seq<Task>, pending: set<string>, resolved: seq<(string, Id)>, serving: bool)

  datatype Verdict = Skip | Poison | Reply | Defer | NoSender | Dispatch

  function Classify(r: Reader, m: Msg): Verdict {
    if m.id in r.inFlight then Skip
    else if !m.hasBody then Poison
    else if m.thid.Some? && m.thid.value != "" && m.thid.value in r.pending then Reply
    else if !r.serving then Defer
    else if m.sender.None? || m.sender.value == "" then NoSender
    else Dispatch
  }

  function After(r: Reader, m: Msg): Reader {
    match Classify(r, m)
    case Reply => r.(pending := r.pending - {m.thid.value}, resolved := r.resolved + [(m.thid.value, m.id)])
    case Dispatch => r.(inFlight := r.inFlight + {m.id}, tasks := r.tasks + [Task(m.id, Handling)])
    case _ => r
  }

  predicate Consumes(v: Verdict) {
    v == Poison || v == Reply || v == NoSender
  }

  /** The reader and the ids to acknowledge after a pass over what was received. */
  function Pass(r: Reader, inbound: seq<Msg>): (Reader, seq<Id>) {
    if inbound == [] then (r, [])
    else
      var (s, done) := Pass(r, inbound[..|inbound| - 1]);
      var m := inbound[|inbound| - 1];
      (After(s, m), if Consumes(Classify(s, m)) then done + [m.id] else done)
  }

  class Transport {
    var inFlight: set<Id>
    var tasks: seq<Task>
    var pending: set<string>
    var resolved: seq<(string, Id)>
    var serving: bool

    constructor ()
      ensures Memory() == Reader({}, [], {}, [], false)
    {
      inFlight, tasks, pending, resolved, serving := {}, [], {}, [], false;
    }

    function Memory(): Reader
      reads this
    {
      Reader(inFlight, tasks, pending, resolved, serving)
    }

    /** The body of the poll loop, between receiving and acknowledging. It runs without an await. */
    method Poll(inbound: seq<Msg>) returns (doneNow: seq<Id>)
      modifies this
      ensures (Memory(), doneNow) == Pass(old(Memory()), inbound)
    {
      doneNow := [];
      for i := 0 to |inbound|
        invariant (Memory(), doneNow) == Pass(old(Memory()), inbound[..i])
      {
        var m := inbound[i];
        assert inbound[..i + 1][..i] == inbound[..i];
        if m.id in inFlight {
          continue;
        }
        if !m.hasBody {
          doneNow := doneNow + [m.id];
          continue;
        }
        if m.thid.Some? && m.thid.value != "" && m.thid.value in pending {
          pending := pending - {m.thid.value};
          resolved := resolved + [(m.thid.value, m.id)];
          doneNow := doneNow + [m.id];
          continue;
        }
        if !serving {
          continue;
        }
        if m.sender.GetOr("") == "" {
          doneNow := doneNow + [m.id];
          continue;
        }
        inFlight := inFlight + {m.id};
        tasks := tasks + [Task(m.id, Handling)];
      }
      assert inbound[..|inbound|] == inbound;
    }
  }

  // ---------- what a pass does ----------

  predicate DistinctTasks(ts: seq<Task>) {
    forall i, j | 0 <= i < j < |ts| :: ts[i].id != ts[j].id
  }

  predicate OneTaskEach(r: Reader) {
    && DistinctTasks(r.tasks)
    && (forall t | t in r.tasks :: t.id in r.inFlight)
    && forall id | id in r.inFlight :: exists t :: t in r.tasks && t.id == id
  }

  lemma {:induction false} PassKeepsOneTaskEach(r: Reader, inbound: seq<Msg>)
    requires OneTaskEach(r)
    ensures OneTaskEach(Pass(r, inbound).0) && r.tasks <= Pass(r, inbound).0.tasks
  {
    hide OneTaskEach, After;
    if inbound != [] {
      PassKeepsOneTaskEach(r, inbound[..|inbound| - 1]);
      AfterKeepsOneTaskEach(Pass(r, inbound[..|inbound| - 1]).0, inbound[|inbound| - 1]);
    }
  }

  lemma {:induction false} AfterKeepsOneTaskEach(s: Reader, m: Msg)
    requires OneTaskEach(s)
    ensures OneTaskEach(After(s, m)) && s.tasks <= After(s, m).tasks
  {
    var t := After(s, m);
    if Classify(s, m) == Dispatch {
      forall id | id in t.inFlight ensures exists k :: k in t.tasks && k.id == id {
        if id == m.id {
          assert Task(m.id, Handling) in t.tasks;
        } else {
          var k :| k in s.tasks && k.id == id;
          assert k in t.tasks;
        }
      }
    }
  }

  /** Of what was received, an id is acknowledged only for a reply that has a waiter, or for a message that this
      reader can never dispatch; the other way round, an unserved reader dispatches nothing and consumes no request. */
  predicate RightlyDone(r: Reader, m: Msg) {
    !m.hasBody || (m.thid.Some? && m.thid.value in r.pending) || (r.serving && m.sender.GetOr("") == "")
  }

  lemma {:induction false} PassShrinksPending(r: Reader, inbound: seq<Msg>)
    ensures Pass(r, inbound).0.pending <= r.pending && Pass(r, inbound).0.serving == r.serving
    ensures r.inFlight <= Pass(r, inbound).0.inFlight
    ensures !r.serving ==> Pass(r, inbound).0.tasks == r.tasks && Pass(r, inbound).0.inFlight == r.inFlight
  {
    if inbound != [] {
      PassShrinksPending(r, inbound[..|inbound| - 1]);
    }
  }

  lemma {:induction false} DoneIsRight(r: Reader, inbound: seq<Msg>, id: Id)
    requires id in Pass(r, inbound).1
    ensures id !in r.inFlight && exists m :: m in inbound && m.id == id && RightlyDone(r, m)
  {
    var n := |inbound| - 1;
    var (s, done) := Pass(r, inbound[..n]);
    PassShrinksPending(r, inbound[..n]);
    if id in done {
      DoneIsRight(r, inbound[..n], id);
      var m :| m in inbound[..n] && m.id == id && RightlyDone(r, m);
      assert m in inbound;
    } else {
      assert inbound[n] in inbound && RightlyDone(r, inbound[n]);
    }
  }

  lemma {:induction false} StartedIsReceived(r: Reader, inbound: seq<Msg>, id: Id)
    requires id in Pass(r, inbound).0.inFlight
    ensures id in r.inFlight || id in Ids(inbound)
  {
    if inbound != [] {
      var n := |inbound| - 1;
      if id in Pass(r, inbound[..n]).0.inFlight {
        StartedIsReceived(r, inbound[..n], id);
        if id !in r.inFlight {
          var m :| m in inbound[..n] && m.id == id;
          assert m in inbound;
        }
      } else {
        assert inbound[n] in inbound;
      }
    }
  }

  lemma {:induction false} ServedTakesOne(r: Reader, m: Msg)
    ensures r.serving ==> m.id in After(r, m).inFlight || Consumes(Classify(r, m))
    ensures r.inFlight <= After(r, m).inFlight && After(r, m).serving == r.serving
  {
  }

  /** A serving reader leaves nothing: whatever was received is in flight or done after the pass. */
  lemma {:induction false} ServedPassTakesAll(r: Reader, inbound: seq<Msg>, m: Msg)
    requires r.serving && m in inbound
    ensures m.id in Pass(r, inbound).0.inFlight || m.id in Pass(r, inbound).1
  {
    hide After, Classify, Consumes;
    var n := |inbound| - 1;
    PassShrinksPending(r, inbound[..n]);
    ServedTakesOne(Pass(r, inbound[..n]).0, inbound[n]);
    if m in inbound[..n] {
      ServedPassTakesAll(r, inbound[..n], m);
    } else {
      assert inbound == inbound[..n] + [inbound[n]];
    }
  }

  function Threads(resolved: seq<(string, Id)>): set<string> {
    set p | p in resolved :: p.0
  }

  predicate OncePerThread(resolved: seq<(string, Id)>) {
    forall i, j | 0 <= i < j < |resolved| :: resolved[i].0 != resolved[j].0
  }

  /** What a pass hands to waiters: a message that was received, to the waiter of its own thread, one for each waiter,
      who then waits no longer; all other waiters still wait. */
  lemma {:induction false} WaitersResolvedOnce(r: Reader, inbound: seq<Msg>) returns (handed: seq<(string, Id)>)
    ensures Pass(r, inbound).0.resolved == r.resolved + handed && OncePerThread(handed)
    ensures Threads(handed) <= r.pending && Pass(r, inbound).0.pending == r.pending - Threads(handed)
    ensures forall p | p in handed :: exists m :: m in inbound && m.id == p.1 && m.thid == Some(p.0)
  {
    if inbound == [] {
      handed := [];
    } else {
      var n := |inbound| - 1;
      var s, m := Pass(r, inbound[..n]).0, inbound[n];
      var before := WaitersResolvedOnce(r, inbound[..n]);
      assert inbound == inbound[..n] + [m];
      handed := before;
      if Classify(s, m) == Reply {
        handed := before + [(m.thid.value, m.id)];
        assert m.thid.value !in Threads(before);
        assert Threads(handed) == Threads(before) + {m.thid.value};
        assert forall i | 0 <= i < |before| :: before[i] in before;
      }
      forall p | p in handed ensures exists k :: k in inbound && k.id == p.1 && k.thid == Some(p.0) {
        if p in before {
          var k :| k in inbound[..n] && k.id == p.1 && k.thid == Some(p.0);
          assert k in inbound;
        } else {
          assert m in inbound;
        }
      }
    }
  }

  /** A pass over two batches is a pass over the one and then over the other: ids to acknowledge come in the order in
      which the messages came. */
  lemma {:induction false} PassComposes(r: Reader, a: seq<Msg>, b: seq<Msg>)
    ensures var (s, done) := Pass(r, a); var (t, more) := Pass(s, b); Pass(r, a + b) == (t, done + more)
  {
    hide After, Classify, Consumes;
    if b == [] {
      assert a + b == a;
      assert Pass(r, a).1 + [] == Pass(r, a).1;
    } else {
      var n := |b| - 1;
      PassComposes(r, a, b[..n]);
      assert (a + b)[..|a + b| - 1] == a + b[..n];
      var (s, done) := Pass(r, a);
      assert (done + Pass(s, b[..n]).1) + [b[n].id] == done + (Pass(s, b[..n]).1 + [b[n].id]);
    }
  }

  // ---------- what becomes of each message, without the order of the checks ----------

  /** A message that a waiter waits for: it has a body, it is not in flight, and its thread has a waiter. */
  predicate ReplyTo(r: Reader, m: Msg, thread: string) {
    m.hasBody && m.thid == Some(thread) && thread != "" && thread in r.pending && m.id !in r.inFlight
  }

  /** The first of its thread. */
  predicate FirstReply(r: Reader, inbound: seq<Msg>, k: nat)
    requires k < |inbound|
  {
    inbound[k].thid.Some? && ReplyTo(r, inbound[k], inbound[k].thid.value)
    && forall j | 0 <= j < k :: !ReplyTo(r, inbound[j], inbound[k].thid.value)
  }

  function Handed(r: Reader, inbound: seq<Msg>): seq<(string, Id)> {
    var all := Pass(r, inbound).0.resolved;
    if |r.resolved| <= |all| then all[|r.resolved|..] else []
  }

  lemma {:induction false} HandedGrows(r: Reader, inbound: seq<Msg>)
    ensures r.resolved <= Pass(r, inbound).0.resolved
    ensures inbound != [] ==>
              var n := |inbound| - 1; var s := Pass(r, inbound[..n]).0;
              Handed(r, inbound) == Handed(r, inbound[..n])
                + if Classify(s, inbound[n]) == Reply then [(inbound[n].thid.value, inbound[n].id)] else []
  {
    if inbound != [] {
      HandedGrows(r, inbound[..|inbound| - 1]);
    }
  }

  lemma {:induction false} InFlightBefore(r: Reader, inbound: seq<Msg>, n: nat)
    requires DistinctIds(inbound) && n < |inbound|
    ensures inbound[n].id in Pass(r, inbound[..n]).0.inFlight <==> inbound[n].id in r.inFlight
  {
    PassShrinksPending(r, inbound[..n]);
    if inbound[n].id in Pass(r, inbound[..n]).0.inFlight {
      StartedIsReceived(r, inbound[..n], inbound[n].id);
      forall m | m in inbound[..n] ensures m.id != inbound[n].id {
        var j :| 0 <= j < n && inbound[j] == m;
      }
    }
  }

  lemma {:induction false} StillWaits(r: Reader, inbound: seq<Msg>, thread: string)
    requires DistinctIds(inbound)
    ensures thread in Pass(r, inbound).0.pending
       <==> thread in r.pending && forall j | 0 <= j < |inbound| :: !ReplyTo(r, inbound[j], thread)
  {
    if inbound != [] {
      var n := |inbound| - 1;
      StillWaits(r, inbound[..n], thread);
      InFlightBefore(r, inbound, n);
      forall j | 0 <= j < n ensures inbound[..n][j] == inbound[j] {}
    }
  }

  lemma {:induction false} LastIsReply(r: Reader, inbound: seq<Msg>)
    requires DistinctIds(inbound) && inbound != []
    ensures var n := |inbound| - 1;
            Classify(Pass(r, inbound[..n]).0, inbound[n]) == Reply <==> FirstReply(r, inbound, n)
    ensures FirstReply(r, inbound, |inbound| - 1) ==> inbound[|inbound| - 1].id !in r.inFlight
  {
    hide Pass;
    var n := |inbound| - 1;
    InFlightBefore(r, inbound, n);
    if inbound[n].thid.Some? {
      StillWaits(r, inbound[..n], inbound[n].thid.value);
      forall j | 0 <= j < n ensures inbound[..n][j] == inbound[j] {}
    }
  }

  /** A pass over messages with different ids. To a waiter goes exactly the first message of its thread. Acknowledged are
      exactly those, what has no body, and what a serving reader cannot dispatch for want of a sender. In flight are
      exactly what was before and what a serving reader dispatches: everything else that has a sender. */
  lemma {:induction false} PassDecides(r: Reader, inbound: seq<Msg>, k: nat)
    requires DistinctIds(inbound) && k < |inbound|
    ensures var m := inbound[k]; var (s, done) := Pass(r, inbound);
            && (FirstReply(r, inbound, k) <==> m.thid.Some? && (m.thid.value, m.id) in Handed(r, inbound))
            && (m.id in done <==>
                  m.id !in r.inFlight
                  && (!m.hasBody || FirstReply(r, inbound, k) || (r.serving && (m.sender.None? || m.sender.value == ""))))
            && (m.id in s.inFlight <==>
                  m.id in r.inFlight
                  || (r.serving && m.hasBody && !FirstReply(r, inbound, k) && m.sender.Some? && m.sender.value != ""))
  {
    hide Classify, FirstReply, After, Consumes;
    var n := |inbound| - 1;
    var s := Pass(r, inbound[..n]).0;
    HandedGrows(r, inbound);
    LastIsReply(r, inbound);
    StepDecides(s, inbound[n]);
    PassShrinksPending(r, inbound[..n]);
    InFlightBefore(r, inbound, n);
    if k < n {
      PassDecides(r, inbound[..n], k);
      FirstReplyOfPrefix(r, inbound, n, k);
    } else {
      NothingYet(r, inbound, n);
    }
  }

  lemma {:induction false} FirstReplyOfPrefix(r: Reader, inbound: seq<Msg>, n: nat, k: nat)
    requires k < n < |inbound|
    ensures FirstReply(r, inbound[..n], k) <==> FirstReply(r, inbound, k)
  {
    forall j | 0 <= j < n ensures inbound[..n][j] == inbound[j] {}
  }

  /** What one message does to the memory, by its class. */
  lemma {:induction false} StepDecides(s: Reader, m: Msg)
    ensures Classify(s, m) == Reply ==> m.thid.Some? && m.hasBody
    ensures Consumes(Classify(s, m)) <==>
              Classify(s, m) == Reply
              || (m.id !in s.inFlight && (!m.hasBody || (s.serving && (m.sender.None? || m.sender.value == ""))))
    ensures After(s, m).inFlight
         == s.inFlight
            + if s.serving && m.hasBody && Classify(s, m) != Reply && m.sender.Some? && m.sender.value != ""
              then {m.id} else {}
  {
  }

  lemma {:induction false} NothingYet(r: Reader, inbound: seq<Msg>, n: nat)
    requires DistinctIds(inbound) && n < |inbound|
    ensures inbound[n].id !in Pass(r, inbound[..n]).1
    ensures forall t :: (t, inbound[n].id) !in Handed(r, inbound[..n])
  {
    var id := inbound[n].id;
    forall m | m in inbound[..n] ensures m.id != id { var j :| 0 <= j < n && inbound[j] == m; }
    if id in Pass(r, inbound[..n]).1 { DoneIsRight(r, inbound[..n], id); }
    var handed := WaitersResolvedOnce(r, inbound[..n]);
    assert Handed(r, inbound[..n]) == handed;
    forall p | p in handed ensures p.1 != id {
      var m :| m in inbound[..n] && m.id == p.1 && m.thid == Some(p.0);
    }
  }

  /** Whoever waited for a thread of which a message was received, served or not, has been handed the first of them; it
      is acknowledged, and nobody waits for the thread any more. */
  lemma {:induction false} ReplyIsHandedOver(r: Reader, inbound: seq<Msg>, m: Msg, thread: string) returns (k: nat)
    requires DistinctIds(inbound) && m in inbound && ReplyTo(r, m, thread)
    ensures k < |inbound| && inbound[k].thid == Some(thread) && FirstReply(r, inbound, k)
    ensures var (s, done) := Pass(r, inbound);
            (thread, inbound[k].id) in s.resolved && inbound[k].id in done && thread !in s.pending
  {
    hide Pass, Classify;
    k := 0;
    while !ReplyTo(r, inbound[k], thread)
      invariant k < |inbound| && forall j | 0 <= j < k :: !ReplyTo(r, inbound[j], thread)
      decreases |inbound| - k
    {
      assert exists j :: 0 <= j < |inbound| && inbound[j] == m;
      k := k + 1;
    }
    PassDecides(r, inbound, k);
    HandedGrows(r, inbound);
    StillWaits(r, inbound, thread);
  }
}
