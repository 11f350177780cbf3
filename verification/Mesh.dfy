/** The trusted-knowledge mesh: which rungs of a ladder a presenter may read, how a query is forwarded from friend to
    friend, and what the origin accepts of an answer that comes back. */
module Mesh {
  import opened Wrappers
  import opened Text

  // ---------- the ladder ----------

  datatype Fact = Fact(ref: string, confidence: real, narrative: string, keywords: seq<string>)

  datatype Access = Access(minTier: string, maxArrivalDepth: int, minPathConfidence: Option<real>)

  datatype Rung = Rung(name: string, domain: string, facts: seq<Fact>, access: Access)

  function IndexOf(order: seq<string>, tier: string): (i: int)
    ensures -1 <= i < |order|
    ensures i >= 0 ==> order[i] == tier
    ensures i < 0 <==> tier !in order
  {
    if order == [] then -1
    else if order[0] == tier then 0
    else
      var i := IndexOf(order[1..], tier);
      if i < 0 then -1 else i + 1
  }

  predicate Reaches(p: Rung, order: seq<string>, tier: string, depth: int, confidence: real) {
    && IndexOf(order, tier) >= 0
    && IndexOf(order, p.access.minTier) >= 0
    && IndexOf(order, tier) >= IndexOf(order, p.access.minTier)
    && depth <= p.access.maxArrivalDepth
    && (p.access.minPathConfidence.Some? ==> confidence >= p.access.minPathConfidence.value)
  }

  function Permitted(ladder: seq<Rung>, order: seq<string>, tier: string, depth: int, confidence: real): seq<Rung> {
    if ladder == [] then []
    else
      var rest := Permitted(ladder[1..], order, tier, depth, confidence);
      if Reaches(ladder[0], order, tier, depth, confidence) then [ladder[0]] + rest else rest
  }

  predicate FirstAt(order: seq<string>, tier: string, i: nat) {
    i < |order| && order[i] == tier && forall k | 0 <= k < i :: order[k] != tier
  }

  lemma {:induction false} IndexIsFirst(order: seq<string>, tier: string)
    ensures IndexOf(order, tier) >= 0 ==> FirstAt(order, tier, IndexOf(order, tier))
  {
    if order != [] {
      IndexIsFirst(order[1..], tier);
    }
  }

  /** The three gates of a rung, each on its own: the tier of the presenter is ranked at least as high as the one that
      is asked for, the way is not too long, and the confidence not too low. */
  ghost predicate MayRead(a: Access, order: seq<string>, tier: string, depth: int, confidence: real) {
    && (exists need: nat, rank: nat :: FirstAt(order, a.minTier, need) && FirstAt(order, tier, rank) && need <= rank)
    && depth <= a.maxArrivalDepth
    && (a.minPathConfidence.Some? ==> a.minPathConfidence.value <= confidence)
  }

  lemma {:induction false} ReachesIff(p: Rung, order: seq<string>, tier: string, depth: int, confidence: real)
    ensures Reaches(p, order, tier, depth, confidence) <==> MayRead(p.access, order, tier, depth, confidence)
  {
    IndexIsFirst(order, tier);
    IndexIsFirst(order, p.access.minTier);
    if Reaches(p, order, tier, depth, confidence) {
      var need: nat, rank: nat := IndexOf(order, p.access.minTier), IndexOf(order, tier);
      assert FirstAt(order, p.access.minTier, need) && FirstAt(order, tier, rank);
    }
  }

  lemma {:induction false} PermittedAre(
      ladder: seq<Rung>, order: seq<string>, tier: string, depth: int, confidence: real, p: Rung)
    ensures p in Permitted(ladder, order, tier, depth, confidence)
       <==> p in ladder && MayRead(p.access, order, tier, depth, confidence)
  {
    hide Reaches, MayRead;
    if ladder != [] { ReachesIff(ladder[0], order, tier, depth, confidence); }
    if ladder != [] {
      PermittedAre(ladder[1..], order, tier, depth, confidence, p);
      assert ladder == [ladder[0]] + ladder[1..];
    }
  }

  /** The rungs keep the order of the ladder. */
  lemma {:induction false} PermittedInOrder(
      a: seq<Rung>, b: seq<Rung>, order: seq<string>, tier: string, depth: int, confidence: real)
    ensures Permitted(a + b, order, tier, depth, confidence)
         == Permitted(a, order, tier, depth, confidence) + Permitted(b, order, tier, depth, confidence)
  {
    if a == [] {
      assert a + b == b;
    } else {
      PermittedInOrder(a[1..], b, order, tier, depth, confidence);
      assert (a + b)[1..] == a[1..] + b;
    }
  }

  /** s is t with some elements left out. */
  predicate Within<T(==)>(s: seq<T>, t: seq<T>)
    decreases |t|
  {
    s == [] || (t != [] && (if s[0] == t[0] then Within(s[1..], t[1..]) else Within(s, t[1..])))
  }

  lemma {:induction false} WithinSkips<T>(s: seq<T>, x: T, t: seq<T>)
    requires Within(s, t)
    ensures Within(s, [x] + t)
    decreases |t|, 1
  {
    assert ([x] + t)[1..] == t;
    if s != [] && s[0] == x {
      WithinTail(s, t);
    }
  }

  lemma {:induction false} WithinTail<T>(s: seq<T>, t: seq<T>)
    requires Within(s, t) && s != []
    ensures Within(s[1..], t)
    decreases |t|, 0
  {
    assert t == [t[0]] + t[1..];
    if s[0] == t[0] {
      WithinSkips(s[1..], t[0], t[1..]);
    } else {
      WithinTail(s, t[1..]);
      WithinSkips(s[1..], t[0], t[1..]);
    }
  }

  /** A higher tier, a higher confidence and a shorter way only add rungs, in the ladder's order. */
  lemma {:induction false} PermittedIsMonotone(
      ladder: seq<Rung>, order: seq<string>, low: string, high: string, far: int, near: int, less: real, more: real)
    requires IndexOf(order, low) <= IndexOf(order, high) && near <= far && less <= more
    ensures Within(Permitted(ladder, order, low, far, less), Permitted(ladder, order, high, near, more))
  {
    if ladder != [] {
      var a := Permitted(ladder[1..], order, low, far, less);
      var b := Permitted(ladder[1..], order, high, near, more);
      PermittedIsMonotone(ladder[1..], order, low, high, far, near, less, more);
      var p := ladder[0];
      if Reaches(p, order, low, far, less) {
        assert ([p] + a)[1..] == a && ([p] + b)[1..] == b;
      } else if Reaches(p, order, high, near, more) {
        WithinSkips(a, p, b);
      }
    }
  }

  lemma {:induction false} UnrankedReachesNothing(
      ladder: seq<Rung>, order: seq<string>, tier: string, depth: int, confidence: real)
    requires tier !in order
    ensures Permitted(ladder, order, tier, depth, confidence) == []
  {
    if ladder != [] {
      UnrankedReachesNothing(ladder[1..], order, tier, depth, confidence);
    }
  }

  lemma {:induction false} IndexAfterInsertion(order: seq<string>, k: nat, added: string, tier: string)
    requires k <= |order| && added !in order
    ensures var i := IndexOf(order, tier);
            IndexOf(order[..k] + [added] + order[k..], tier)
            == if tier == added then k else if i < 0 then -1 else if i < k then i else i + 1
  {
    var longer := order[..k] + [added] + order[k..];
    if k == 0 {
      assert longer[1..] == order;
    } else {
      assert longer[0] == order[0] && longer[1..] == order[1..][..k - 1] + [added] + order[1..][k - 1..];
      IndexAfterInsertion(order[1..], k - 1, added, tier);
    }
  }

  /** Inserting a tier changes what an existing tier reaches only by rungs that already ask for the new tier. */
  lemma {:induction false} InsertedTier(
      p: Rung, order: seq<string>, k: nat, added: string, tier: string, depth: int, confidence: real)
    requires k <= |order| && added !in order && tier in order
    ensures Reaches(p, order[..k] + [added] + order[k..], tier, depth, confidence)
       <==> Reaches(p, order, tier, depth, confidence)
            || (p.access.minTier == added && IndexOf(order, tier) >= k && depth <= p.access.maxArrivalDepth
                && (p.access.minPathConfidence.Some? ==> confidence >= p.access.minPathConfidence.value))
  {
    IndexAfterInsertion(order, k, added, tier);
    IndexAfterInsertion(order, k, added, p.access.minTier);
  }

  lemma {:induction false} InsertionKeepsPermitted(
      ladder: seq<Rung>, order: seq<string>, k: nat, added: string, tier: string, depth: int, confidence: real)
    requires k <= |order| && added !in order && tier in order
    requires forall p | p in ladder :: p.access.minTier != added
    ensures Permitted(ladder, order[..k] + [added] + order[k..], tier, depth, confidence)
         == Permitted(ladder, order, tier, depth, confidence)
  {
    if ladder != [] {
      InsertionKeepsPermitted(ladder[1..], order, k, added, tier, depth, confidence);
      InsertedTier(ladder[0], order, k, added, tier, depth, confidence);
    }
  }

  // ---------- the query ----------

  datatype Budget = Budget(maxNodes: int, rate: int)

  /** The text is in lower case already; absent numbers have their defaults, 1, 1.0 and 0. */
  datatype Query = Query(
    text: string, mode: string, domain: string, budget: Budget, arrivalDepth: int, pathConfidence: real,
    depthRemaining: int, visited: seq<Did>)

  /** What a recognition discloses. */
  datatype Recognition = Recognition(issuer: Did, subject: Did, tier: string, confidence: real, maxDepth: int, index: int)

  datatype Envelope = Envelope(query: Query, recognition: Recognition, presenter: Did)

  predicate WordAt(text: string, word: string, i: nat) {
    i <= |text| - |word| && text[i..i + |word|] == word
  }

  predicate Contains(text: string, word: string) {
    exists i: nat | i <= |text| :: WordAt(text, word, i)
  }

  predicate Matches(text: string, f: Fact) {
    exists w | w in f.keywords :: Contains(text, w)
  }

  function FirstFact(text: string, facts: seq<Fact>): Option<Fact> {
    if facts == [] then None
    else if Matches(text, facts[0]) then Some(facts[0])
    else FirstFact(text, facts[1..])
  }

  function ReasonOver(q: Query, rungs: seq<Rung>): Option<Fact> {
    if rungs == [] then None
    else if rungs[0].domain == q.domain && FirstFact(q.text, rungs[0].facts).Some? then FirstFact(q.text, rungs[0].facts)
    else ReasonOver(q, rungs[1..])
  }

  predicate BudgetSubset(child: Query, parent: Query) {
    && child.domain == parent.domain && child.mode == parent.mode
    && child.budget.maxNodes <= parent.budget.maxNodes && child.budget.rate <= parent.budget.rate
    && child.depthRemaining <= parent.depthRemaining - 1
  }

  // ---------- one node ----------

  datatype Status = Live | Revoked | Unavailable

  datatype Friend = Friend(recognition: Recognition, confidence: real, warden: Did, domain: string)

  datatype Forwarding = Forwarding(emissary: Did, friends: seq<Friend>)

  datatype Node = Node(
    issuer: Did, order: seq<string>, maxRelayDepth: int, status: int -> Status, ladder: seq<Rung>,
    forwarding: Option<Forwarding>)

  datatype Check = RecognitionCheck | BindingCheck | RevocationCheck | DepthCheck | CycleCheck | BudgetCheck

  datatype Answer = Answer(fact: Fact, recognitionConfidence: real, domain: string, answeredBy: Did)

  datatype Relay = Relay(relayedBy: Did, answerer: Did, edgeConfidence: real)

  /** What comes back, sealed to whoever presented: an answer with its proof, or anything that a relay wrapped. */
  datatype Payload =
    | Plain(answer: Answer, proof: Option<string>)
    | Wrapped(inner: Payload, relay: Relay, relayProof: Option<string>)

  datatype Result = Granted(payload: Payload) | Rejected(check: Check) | NoAnswer

  function Min(a: int, b: int): int {
    if a <= b then a else b
  }

  function Refusal(n: Node, e: Envelope): Option<Check> {
    if e.recognition.issuer != n.issuer then Some(RecognitionCheck)
    else if e.recognition.subject != e.presenter then Some(BindingCheck)
    else if n.status(e.recognition.index) != Live then Some(RevocationCheck)
    else if e.query.depthRemaining > Min(e.recognition.maxDepth - 1, n.maxRelayDepth) then Some(DepthCheck)
    else None
  }

  function Times(a: real, b: real): real {
    a * b
  }

  function PathConfidence(e: Envelope): real {
    Times(e.query.pathConfidence, e.recognition.confidence)
  }

  function PermittedTo(n: Node, e: Envelope): seq<Rung> {
    Permitted(n.ladder, n.order, e.recognition.tier, e.query.arrivalDepth, PathConfidence(e))
  }

  function FindFriend(friends: seq<Friend>, domain: string): Option<Friend> {
    if friends == [] then None
    else if friends[0].domain == domain then Some(friends[0])
    else FindFriend(friends[1..], domain)
  }

  function ForwardQuery(me: Did, e: Envelope): Query {
    e.query.(arrivalDepth := e.query.arrivalDepth + 1, pathConfidence := PathConfidence(e),
             depthRemaining := e.query.depthRemaining - 1, visited := e.query.visited + [me])
  }

  /** What a node does with a query: reply, or cross to a friend with an attenuated query. */
  datatype Action = Reply(result: Result) | Cross(friend: Friend, envelope: Envelope)

  function ProofOf(signer: Did): Option<string> {
    Some(signer + "#key-1")
  }

  function Act(n: Node, me: Did, e: Envelope): Action {
    if Refusal(n, e).Some? then Reply(Rejected(Refusal(n, e).value))
    else
      var hit := ReasonOver(e.query, PermittedTo(n, e));
      if hit.Some? then Reply(Granted(Plain(Answer(hit.value, e.recognition.confidence, e.query.domain, me), ProofOf(me))))
      else if n.forwarding.None? then Reply(NoAnswer)
      else Forward(n.forwarding.value, me, e)
  }

  function Forward(f: Forwarding, me: Did, e: Envelope): Action {
    if e.query.depthRemaining < 1 then Reply(Rejected(DepthCheck))
    else
      var friend := FindFriend(f.friends, e.query.domain);
      if friend.None? then Reply(NoAnswer)
      else if friend.value.warden in e.query.visited then Reply(Rejected(CycleCheck))
      else if !BudgetSubset(ForwardQuery(me, e), e.query) then Reply(Rejected(BudgetCheck))
      else Cross(friend.value, Envelope(ForwardQuery(me, e), friend.value.recognition, f.emissary))
  }

  /** The answerer that a relay names: what it decrypted has the field only if it is an answer and not a wrapping. */
  function NamedAnswerer(p: Payload): Did {
    if p.Plain? then p.answer.answeredBy else ""
  }

  function Repackage(me: Did, f: Friend, r: Result): Result {
    if r.Granted? then Granted(Wrapped(r.payload, Relay(me, NamedAnswerer(r.payload), f.confidence), ProofOf(me)))
    else NoAnswer
  }

  /** The reply of a node, the crossing being an arbitrary function as in the source. */
  function Handle(n: Node, me: Did, e: Envelope, reach: (Did, Envelope) -> Result): Result {
    match Act(n, me, e)
    case Reply(r) => r
    case Cross(friend, forward) => Repackage(me, friend, reach(friend.warden, forward))
  }

  /** Non-interference: ladders that agree on the rungs permitted to this presenter give the same reply, whatever the
      friends answer; what is on the other rungs cannot be told from the reply. */
  lemma {:induction false} GatedRungsDoNotShow(
      n: Node, ladder: seq<Rung>, me: Did, e: Envelope, reach: (Did, Envelope) -> Result)
    requires PermittedTo(n, e) == PermittedTo(n.(ladder := ladder), e)
    ensures Handle(n, me, e, reach) == Handle(n.(ladder := ladder), me, e, reach)
  {
  }

  lemma {:induction false} AnswerIsPermitted(q: Query, rungs: seq<Rung>)
    ensures ReasonOver(q, rungs).Some? <==>
              exists p, f :: p in rungs && p.domain == q.domain && f in p.facts && Matches(q.text, f)
    ensures ReasonOver(q, rungs).Some? ==>
              exists p :: p in rungs && p.domain == q.domain && ReasonOver(q, rungs).value in p.facts
    ensures ReasonOver(q, rungs).Some? ==> Matches(q.text, ReasonOver(q, rungs).value)
  {
    if rungs != [] {
      assert rungs == [rungs[0]] + rungs[1..];
      AnswerIsPermitted(q, rungs[1..]);
      FirstFactIs(q.text, rungs[0].facts);
    }
  }

  /** A fact is about a text in which one of its keywords stands somewhere. */
  lemma {:induction false} MatchesIff(text: string, f: Fact)
    ensures Matches(text, f) <==> exists w, before, after :: w in f.keywords && text == before + w + after
  {
    if Matches(text, f) {
      var w :| w in f.keywords && Contains(text, w);
      var i: nat :| i <= |text| && WordAt(text, w, i);
      assert text == text[..i] + w + text[i + |w|..];
    }
    if w, before, after :| w in f.keywords && text == before + w + after {
      assert text[|before|..|before| + |w|] == w;
      assert WordAt(text, w, |before|);
      assert Contains(text, w);
    }
  }

  /** The answer is the first matching fact of the first rung of the domain that has one. */
  lemma {:induction false} AnswerIsFirst(q: Query, rungs: seq<Rung>) returns (i: nat, j: nat)
    requires ReasonOver(q, rungs).Some?
    ensures i < |rungs| && rungs[i].domain == q.domain && j < |rungs[i].facts|
    ensures ReasonOver(q, rungs).value == rungs[i].facts[j]
    ensures forall f | f in rungs[i].facts[..j] :: !Matches(q.text, f)
    ensures forall k, f | 0 <= k < i && rungs[k].domain == q.domain && f in rungs[k].facts :: !Matches(q.text, f)
  {
    hide Matches;
    FirstFactIs(q.text, rungs[0].facts);
    if rungs[0].domain == q.domain && FirstFact(q.text, rungs[0].facts).Some? {
      i := 0;
      j := FirstFactAt(q.text, rungs[0].facts);
    } else {
      i, j := AnswerIsFirst(q, rungs[1..]);
      forall k, f | 0 <= k < i + 1 && rungs[k].domain == q.domain && f in rungs[k].facts ensures !Matches(q.text, f) {
        if k > 0 { assert rungs[k] == rungs[1..][k - 1]; }
      }
      i := i + 1;
    }
  }

  lemma {:induction false} FirstFactAt(text: string, facts: seq<Fact>) returns (j: nat)
    requires FirstFact(text, facts).Some?
    ensures j < |facts| && FirstFact(text, facts).value == facts[j] && Matches(text, facts[j])
    ensures forall f | f in facts[..j] :: !Matches(text, f)
  {
    hide Matches;
    j := 0;
    if !Matches(text, facts[0]) {
      j := FirstFactAt(text, facts[1..]);
      j := j + 1;
      assert facts[..j] == [facts[0]] + facts[1..][..j - 1];
    }
  }

  lemma {:induction false} FirstFactIs(text: string, facts: seq<Fact>)
    ensures FirstFact(text, facts).Some? <==> exists f :: f in facts && Matches(text, f)
    ensures FirstFact(text, facts).Some? ==>
              FirstFact(text, facts).value in facts && Matches(text, FirstFact(text, facts).value)
  {
    if facts != [] {
      assert facts == [facts[0]] + facts[1..];
      FirstFactIs(text, facts[1..]);
    }
  }

  // ---------- one node, in plain terms ----------

  /** The friend of a domain is the first that covers it. */
  lemma {:induction false} FriendCovers(friends: seq<Friend>, domain: string)
    ensures FindFriend(friends, domain).None? <==> forall f :: f in friends ==> f.domain != domain
    ensures FindFriend(friends, domain).Some? ==>
              exists i: nat :: i < |friends| && friends[i] == FindFriend(friends, domain).value
                && friends[i].domain == domain && forall k :: 0 <= k < i ==> friends[k].domain != domain
  {
    if friends != [] {
      FriendCovers(friends[1..], domain);
      assert friends == [friends[0]] + friends[1..];
      if friends[0].domain == domain {
        assert friends[0] == FindFriend(friends, domain).value;
      } else if FindFriend(friends[1..], domain).Some? {
        var i: nat :| i < |friends[1..]| && friends[1..][i] == FindFriend(friends[1..], domain).value
                      && friends[1..][i].domain == domain && forall k :: 0 <= k < i ==> friends[1..][k].domain != domain;
        assert friends[i + 1] == FindFriend(friends, domain).value;
        forall k | 0 <= k < i + 1 ensures friends[k].domain != domain {
          if k > 0 { assert friends[k] == friends[1..][k - 1]; }
        }
      }
    }
  }

  /** How far a query may still be sent on: what the recognition allows and what the node relays, whichever is less. */
  predicate DepthAllowed(n: Node, e: Envelope) {
    e.query.depthRemaining <= e.recognition.maxDepth - 1 && e.query.depthRemaining <= n.maxRelayDepth
  }

  predicate Admitted(n: Node, e: Envelope) {
    e.recognition.issuer == n.issuer && e.recognition.subject == e.presenter && n.status(e.recognition.index) == Live
    && DepthAllowed(n, e)
  }

  /** Some rung that this presenter may read has a fact about the text in the domain that was asked for. */
  ghost predicate Knows(n: Node, e: Envelope, confidence: real) {
    exists p, f :: p in n.ladder && p.domain == e.query.domain && f in p.facts && Matches(e.query.text, f)
      && MayRead(p.access, n.order, e.recognition.tier, e.query.arrivalDepth, confidence)
  }

  lemma {:induction false} HitIff(n: Node, e: Envelope)
    ensures ReasonOver(e.query, PermittedTo(n, e)).Some?
       <==> Knows(n, e, e.query.pathConfidence * e.recognition.confidence)
  {
    hide Permitted, MayRead, Matches, ReasonOver;
    AnswerIsPermitted(e.query, PermittedTo(n, e));
    var rungs, confidence := PermittedTo(n, e), e.query.pathConfidence * e.recognition.confidence;
    assert PathConfidence(e) == confidence;
    forall p
      ensures p in rungs <==>
                p in n.ladder && MayRead(p.access, n.order, e.recognition.tier, e.query.arrivalDepth, confidence)
    {
      PermittedAre(n.ladder, n.order, e.recognition.tier, e.query.arrivalDepth, PathConfidence(e), p);
    }
    if p, f :| p in rungs && p.domain == e.query.domain && f in p.facts && Matches(e.query.text, f) {
      assert p in n.ladder && f in p.facts;
    }
    if Knows(n, e, confidence) {
      var p, f :| p in n.ladder && p.domain == e.query.domain && f in p.facts && Matches(e.query.text, f)
                  && MayRead(p.access, n.order, e.recognition.tier, e.query.arrivalDepth, confidence);
      assert p in rungs && f in p.facts;
    }
  }

  predicate Covers(n: Node, domain: string) {
    n.forwarding.Some? && exists f :: f in n.forwarding.value.friends && f.domain == domain
  }

  /** What a node does with a query: the refusals in their order, the answer if it knows one, and otherwise a crossing
      to the first friend that covers the domain, unless the depth is used up or the friend was on the way. */
  lemma {:induction false} ActIs(n: Node, me: Did, e: Envelope)
    ensures var a := Act(n, me, e); var q := e.query;
            var knows := Knows(n, e, q.pathConfidence * e.recognition.confidence);
            && (a == Reply(Rejected(RecognitionCheck)) <==> e.recognition.issuer != n.issuer)
            && (a == Reply(Rejected(BindingCheck)) <==>
                  e.recognition.issuer == n.issuer && e.recognition.subject != e.presenter)
            && (a == Reply(Rejected(RevocationCheck)) <==>
                  e.recognition.issuer == n.issuer && e.recognition.subject == e.presenter
                  && n.status(e.recognition.index) != Live)
            && ((a.Reply? && a.result.Granted?) <==> Admitted(n, e) && knows)
            && (a.Reply? && a.result.Granted? ==>
                  && a.result.payload.Plain? && NamedBy(a.result.payload.proof, me) == ('#' !in me)
                  && a.result.payload.answer.answeredBy == me && a.result.payload.answer.domain == q.domain
                  && a.result.payload.answer.recognitionConfidence == e.recognition.confidence)
            && (a == Reply(NoAnswer) <==>
                  Admitted(n, e) && !knows
                  && (n.forwarding.None? || (q.depthRemaining >= 1 && !Covers(n, q.domain))))
            && (a.Cross? ==>
                  && Admitted(n, e) && !knows && n.forwarding.Some? && q.depthRemaining >= 1
                  && a.friend in n.forwarding.value.friends && a.friend.domain == q.domain
                  && a.friend.warden !in q.visited)
            && (a == Reply(Rejected(CycleCheck)) || a.Cross? <==>
                  Admitted(n, e) && !knows && q.depthRemaining >= 1 && Covers(n, q.domain))
            && a != Reply(Rejected(BudgetCheck))
  {
    hide Knows, ReasonOver, PermittedTo, FindFriend;
    HitIff(n, e);
    assert (me + "#key-1")[..|me| + 1] == me + "#";
    if n.forwarding.Some? { FriendCovers(n.forwarding.value.friends, e.query.domain); }
  }

  /** Whatever comes back from a friend is wrapped in the node's own assertion about that friend: who relayed, with what
      confidence in the friend of the domain, signed by the relay. */
  lemma {:induction false} RelayAssertsEdge(n: Node, me: Did, e: Envelope, reach: (Did, Envelope) -> Result)
    requires Act(n, me, e).Cross?
    ensures var a := Act(n, me, e); var back := reach(a.friend.warden, a.envelope);
            var r := Handle(n, me, e, reach);
            && (r.Granted? <==> back.Granted?) && (!back.Granted? ==> r == NoAnswer)
            && (back.Granted? ==>
                  && r.payload.Wrapped? && r.payload.inner == back.payload
                  && r.payload.relay.relayedBy == me && NamedBy(r.payload.relayProof, me) == ('#' !in me)
                  && r.payload.relay.answerer == (if back.payload.Plain? then back.payload.answer.answeredBy else "")
                  && exists f :: f in n.forwarding.value.friends && f.domain == e.query.domain
                       && f.warden == a.friend.warden && r.payload.relay.edgeConfidence == f.confidence)
  {
    hide FindFriend, ReasonOver, PermittedTo;
    ActIs(n, me, e);
    assert (me + "#key-1")[..|me| + 1] == me + "#";
  }

  // ---------- the network ----------

  type Network = map<Did, Node>

  /** The nodes that a query comes to, each with the envelope that it is handed. */
  function Path(net: Network, me: Did, e: Envelope): (path: seq<(Did, Envelope)>)
    decreases if e.query.depthRemaining > 0 then e.query.depthRemaining else 0
  {
    if me !in net then []
    else
      match Act(net[me], me, e)
      case Reply(_) => [(me, e)]
      case Cross(friend, forward) => [(me, e)] + Path(net, friend.warden, forward)
  }

  /** The reply of a network of nodes: forwarding ends, because the remaining depth falls. */
  function Respond(net: Network, me: Did, e: Envelope): Result
    decreases if e.query.depthRemaining > 0 then e.query.depthRemaining else 0
  {
    if me !in net then NoAnswer
    else
      match Act(net[me], me, e)
      case Reply(r) => r
      case Cross(friend, forward) => Repackage(me, friend, Respond(net, friend.warden, forward))
  }

  function Max0(a: int): nat {
    if a > 0 then a else 0
  }

  lemma {:induction false} CrossAttenuates(n: Node, me: Did, e: Envelope)
    requires Act(n, me, e).Cross?
    ensures var q := Act(n, me, e).envelope.query;
            && q.depthRemaining == e.query.depthRemaining - 1 && e.query.depthRemaining >= 1
            && q.arrivalDepth == e.query.arrivalDepth + 1
            && q.domain == e.query.domain && q.mode == e.query.mode && q.budget == e.query.budget && q.text == e.query.text
            && q.pathConfidence == PathConfidence(e) && q.visited == e.query.visited + [me]
            && Act(n, me, e).friend.warden !in e.query.visited
            && Act(n, me, e).envelope.recognition == Act(n, me, e).friend.recognition
            && Act(n, me, e).envelope.presenter == n.forwarding.value.emissary
  {
  }

  /** Along a path the sum of the two depths stays, the scope and the budget stay, and the nodes passed are recorded;
      the path has at most as many forwards as the remaining depth of the query. */
  lemma {:induction false} PathAttenuates(net: Network, me: Did, e: Envelope, k: nat)
    requires k < |Path(net, me, e)|
    ensures var q := Path(net, me, e)[k].1.query;
            && |Path(net, me, e)| <= 1 + Max0(e.query.depthRemaining)
            && q.depthRemaining == e.query.depthRemaining - k && q.arrivalDepth == e.query.arrivalDepth + k
            && q.domain == e.query.domain && q.mode == e.query.mode && q.budget == e.query.budget && q.text == e.query.text
            && |q.visited| == |e.query.visited| + k && q.visited[..|e.query.visited|] == e.query.visited
            && forall j | 0 <= j < k :: q.visited[|e.query.visited| + j] == Path(net, me, e)[j].0
    decreases Max0(e.query.depthRemaining)
  {
    hide Act;
    var act := Act(net[me], me, e);
    if act.Cross? {
      CrossAttenuates(net[me], me, e);
      var rest := Path(net, act.friend.warden, act.envelope);
      assert Path(net, me, e) == [(me, e)] + rest;
      if k > 0 {
        PathAttenuates(net, act.friend.warden, act.envelope, k - 1);
        var v, w := Path(net, me, e)[k].1.query.visited, act.envelope.query.visited;
        assert v[..|e.query.visited|] == v[..|w|][..|e.query.visited|] == w[..|e.query.visited|];
        forall j | 0 <= j < k ensures v[|e.query.visited| + j] == Path(net, me, e)[j].0 {
          if j == 0 { assert v[..|w|][|e.query.visited|] == w[|e.query.visited|] == me; }
        }
      } else if rest != [] {
        PathAttenuates(net, act.friend.warden, act.envelope, 0);
      }
    }
  }

  lemma {:induction false} PathStep(net: Network, me: Did, e: Envelope, k: nat)
    requires k + 1 < |Path(net, me, e)|
    ensures var (n, f) := Path(net, me, e)[k];
            && n in net && Act(net[n], n, f).Cross?
            && Path(net, me, e)[k + 1] == (Act(net[n], n, f).friend.warden, Act(net[n], n, f).envelope)
    decreases Max0(e.query.depthRemaining)
  {
    hide Act;
    var act := Act(net[me], me, e);
    CrossAttenuates(net[me], me, e);
    assert Path(net, me, e) == [(me, e)] + Path(net, act.friend.warden, act.envelope);
    if k > 0 {
      PathStep(net, act.friend.warden, act.envelope, k - 1);
    }
  }

  /** No node comes twice on a path, but for a node that is its own friend, which comes twice in a row: the guard
      looks at the nodes before this one, and this one is added afterwards. */
  lemma {:induction false} PathRepeatsOnlySelf(net: Network, me: Did, e: Envelope, i: nat, j: nat)
    requires i < j < |Path(net, me, e)| && Path(net, me, e)[i].0 == Path(net, me, e)[j].0
    ensures j == i + 1
    ensures var (n, f) := Path(net, me, e)[i]; n in net && Act(net[n], n, f).Cross? && Act(net[n], n, f).friend.warden == n
  {
    hide Act;
    PathStep(net, me, e, j - 1);
    PathAttenuates(net, me, e, j - 1);
    var (n, f) := Path(net, me, e)[j - 1];
    CrossAttenuates(net[n], n, f);
    if i < j - 1 {
      assert false;
    }
  }

  /** A node that is its own friend: a query of any positive remaining depth comes to it twice, and ends there. */
  lemma {:induction false} SelfFriendRepeats(me: Did, depth: int) returns (net: Network, e: Envelope)
    requires depth >= 1
    ensures e.query.depthRemaining == depth && e.query.visited == []
    ensures |Path(net, me, e)| == 2 && Path(net, me, e)[0].0 == me && Path(net, me, e)[1].0 == me
  {
    var own := Recognition("issuer", "emissary", "friend", 1.0, depth + 1, 0);
    var friends := [Friend(own, 1.0, me, "food")];
    var n := Node("issuer", [], depth, _ => Live, [], Some(Forwarding("emissary", friends)));
    net := map[me := n];
    e := Envelope(Query("", "reason", "food", Budget(1, 1), 1, 1.0, depth, []), own, "emissary");
    assert FindFriend(friends, "food") == Some(friends[0]);
    assert Act(n, me, e) == Cross(friends[0], Envelope(ForwardQuery(me, e), own, "emissary"));
    var f := Envelope(ForwardQuery(me, e), own, "emissary");
    assert me in f.query.visited;
    assert Act(n, me, f).Reply?;
    assert Path(net, me, f) == [(me, f)];
    assert Path(net, me, e) == [(me, e)] + Path(net, me, f);
  }

  /** The recognition that is presented to a node is one that the node honours, for its presenter, and live. */
  predicate Honoured(n: Node, e: Envelope) {
    e.recognition.issuer == n.issuer && e.recognition.subject == e.presenter && n.status(e.recognition.index) == Live
  }

  lemma {:induction false} CrossIsHonoured(n: Node, me: Did, e: Envelope)
    requires Act(n, me, e).Cross? || (Act(n, me, e).Reply? && Act(n, me, e).result.Granted?)
    ensures Honoured(n, e) && e.query.depthRemaining <= Min(e.recognition.maxDepth - 1, n.maxRelayDepth)
  {
  }

  /** Depth authority: from a node that forwards, the query comes to no more nodes than the recognition that was
      presented there allows, nor than that node is willing to relay, counting itself. */
  lemma {:induction false} DepthAuthority(net: Network, me: Did, e: Envelope, k: nat)
    requires k + 1 < |Path(net, me, e)|
    ensures var (n, f) := Path(net, me, e)[k];
            n in net && Honoured(net[n], f) && |Path(net, me, e)| - k <= Min(f.recognition.maxDepth, net[n].maxRelayDepth + 1)
  {
    hide Act, Honoured;
    PathStep(net, me, e, k);
    PathAttenuates(net, me, e, k);
    var (n, f) := Path(net, me, e)[k];
    CrossIsHonoured(net[n], n, f);
  }

  /** The answer inside whatever was wrapped around it. */
  function Innermost(p: Payload): Answer {
    match p
    case Plain(answer, _) => answer
    case Wrapped(inner, _, _) => Innermost(inner)
  }

  lemma {:induction false} OwnAnswerIsPermitted(n: Node, me: Did, e: Envelope)
    requires Act(n, me, e).Reply? && Act(n, me, e).result.Granted?
    ensures var a := Innermost(Act(n, me, e).result.payload);
            a.answeredBy == me && Matches(e.query.text, a.fact)
            && exists p :: p in n.ladder && p.domain == e.query.domain && a.fact in p.facts
                 && MayRead(p.access, n.order, e.recognition.tier, e.query.arrivalDepth, PathConfidence(e))
  {
    hide Reaches, MayRead, Matches;
    var rungs := PermittedTo(n, e);
    AnswerIsPermitted(e.query, rungs);
    var a := Innermost(Act(n, me, e).result.payload);
    var p :| p in rungs && p.domain == e.query.domain && a.fact in p.facts;
    PermittedAre(n.ladder, n.order, e.recognition.tier, e.query.arrivalDepth, PathConfidence(e), p);
  }

  /** Whatever a network grants was asserted by the last node of the path, from a rung that the last presenter may
      read at that depth and confidence, and matches the text of the query as it was asked. */
  lemma {:induction false} AnswerComesFromLast(net: Network, me: Did, e: Envelope)
    requires Respond(net, me, e).Granted?
    ensures Path(net, me, e) != []
    ensures var (n, f) := Path(net, me, e)[|Path(net, me, e)| - 1]; var a := Innermost(Respond(net, me, e).payload);
            n in net && Honoured(net[n], f) && a.answeredBy == n && Matches(e.query.text, a.fact)
            && a.domain == e.query.domain && a.recognitionConfidence == f.recognition.confidence
            && exists p :: p in net[n].ladder && p.domain == e.query.domain && a.fact in p.facts
                 && MayRead(p.access, net[n].order, f.recognition.tier, f.query.arrivalDepth, PathConfidence(f))
    decreases Max0(e.query.depthRemaining)
  {
    hide Act, Honoured, MayRead, Matches;
    var act := Act(net[me], me, e);
    if act.Cross? {
      CrossAttenuates(net[me], me, e);
      var rest := Path(net, act.friend.warden, act.envelope);
      assert Path(net, me, e) == [(me, e)] + rest;
      AnswerComesFromLast(net, act.friend.warden, act.envelope);
    } else {
      CrossIsHonoured(net[me], me, e);
      OwnAnswerIsPermitted(net[me], me, e);
      ActIs(net[me], me, e);
    }
  }

  function Product(path: seq<(Did, Envelope)>): real {
    if path == [] then 1.0 else Times(Product(path[..|path| - 1]), path[|path| - 1].1.recognition.confidence)
  }

  predicate InUnit(c: real) {
    0.0 <= c <= 1.0
  }

  lemma {:induction false} ProductOfUnit(a: real, b: real)
    requires InUnit(a) && InUnit(b)
    ensures InUnit(Times(a, b)) && Times(a, b) <= a && Times(a, b) <= b
  {
    NotNegative(a, b);
    NotNegative(a, 1.0 - b);
    NotNegative(1.0 - a, b);
    assert a * (1.0 - b) == a - a * b && (1.0 - a) * b == b - a * b;
  }

  lemma {:induction false} NotNegative(a: real, b: real)
    requires a >= 0.0 && b >= 0.0
    ensures a * b >= 0.0
  {
  }

  /** The confidence that a node gates on is the origin's, times that of every recognition on the way. */
  lemma {:induction false} ConfidenceIsProduct(net: Network, me: Did, e: Envelope, k: nat)
    requires k < |Path(net, me, e)|
    ensures PathConfidence(Path(net, me, e)[k].1) == Times(e.query.pathConfidence, Product(Path(net, me, e)[..k + 1]))
    decreases k
  {
    hide Act;
    var path := Path(net, me, e);
    assert path[..k + 1][..k] == path[..k];
    if k == 0 {
      assert path[0].1 == e;
      assert Product(path[..0]) == 1.0;
      Associate(e.query.pathConfidence, 1.0, e.recognition.confidence);
    } else {
      ConfidenceIsProduct(net, me, e, k - 1);
      PathStep(net, me, e, k - 1);
      var (n, f) := path[k - 1];
      CrossAttenuates(net[n], n, f);
      assert path[k].1.query.pathConfidence == PathConfidence(f);
      Associate(e.query.pathConfidence, Product(path[..k]), path[k].1.recognition.confidence);
    }
  }

  lemma {:induction false} Associate(a: real, b: real, c: real)
    ensures Times(Times(a, b), c) == Times(a, Times(b, c))
  {
  }

  /** With confidences that are probabilities, it never exceeds that of any recognition on the way. */
  lemma {:induction false} ProductIsAtMostEach(path: seq<(Did, Envelope)>, i: nat)
    requires i < |path| && forall p | p in path :: InUnit(p.1.recognition.confidence)
    ensures InUnit(Product(path)) && Product(path) <= path[i].1.recognition.confidence
  {
    hide Times;
    var n := |path| - 1;
    assert path[n] in path && forall p | p in path[..n] :: p in path;
    if n == 0 {
      assert path[..0] == [];
      ProductOfUnit(1.0, path[0].1.recognition.confidence);
    } else if i < n {
      ProductIsAtMostEach(path[..n], i);
      ProductOfUnit(Product(path[..n]), path[n].1.recognition.confidence);
    } else {
      ProductIsAtMostEach(path[..n], 0);
      ProductOfUnit(Product(path[..n]), path[n].1.recognition.confidence);
    }
  }

  // ---------- the origin receives ----------

  /** Who signed which answer and which relay assertion. */
  datatype Signatures = Signatures(answers: set<(Did, Answer)>, relays: set<(Did, Relay)>)

  datatype Received = Refused | Accepted(answer: Answer, signer: Did, relay: Did, pathConfidence: real)

  function SignerOf(proof: Option<string>): Did {
    UpToHash(proof.GetOr(""))
  }

  predicate SignedRelay(sigs: Signatures, p: Payload) {
    p.Wrapped? && p.relayProof.Some? && (SignerOf(p.relayProof), p.relay) in sigs.relays
  }

  predicate SignedAnswer(sigs: Signatures, p: Payload) {
    p.Plain? && p.proof.Some? && (SignerOf(p.proof), p.answer) in sigs.answers
  }

  /** receiveForwardedAnswer, on whatever the payload may be. */
  function Receive(sigs: Signatures, p: Payload, expectedRelay: Did, relayEdge: real): Received {
    if !SignedRelay(sigs, p) || SignerOf(p.relayProof) != expectedRelay then Refused
    else if !SignedAnswer(sigs, p.inner) || SignerOf(p.inner.proof) != p.relay.answerer then Refused
    else if !InUnit(relayEdge) || !InUnit(p.relay.edgeConfidence) then Refused
    else Accepted(p.inner.answer, SignerOf(p.inner.proof), expectedRelay, Times(relayEdge, p.relay.edgeConfidence))
  }

  /** Whatever a relay or a stranger sends, an accepted answer was signed by the answerer that the recognized relay
      named, and its confidence is the product of the two edges and at most each of them. */
  lemma {:induction false} AcceptedIsBound(sigs: Signatures, p: Payload, expectedRelay: Did, relayEdge: real)
    requires Receive(sigs, p, expectedRelay, relayEdge).Accepted?
    ensures var r := Receive(sigs, p, expectedRelay, relayEdge);
            && p.Wrapped? && p.inner.Plain? && (expectedRelay, p.relay) in sigs.relays && (r.signer, r.answer) in sigs.answers
            && r.signer == p.relay.answerer && r.answer == p.inner.answer
            && r.pathConfidence == Times(relayEdge, p.relay.edgeConfidence)
            && InUnit(r.pathConfidence) && r.pathConfidence <= relayEdge && r.pathConfidence <= p.relay.edgeConfidence
  {
    hide Times;
    ProductOfUnit(relayEdge, p.relay.edgeConfidence);
  }

  /** Accepted is exactly an answer, signed by the answerer that the relay names, inside a relay's assertion that the
      recognized relay signed, with two edges that are probabilities. */
  lemma {:induction false} AcceptedIff(sigs: Signatures, p: Payload, expectedRelay: Did, relayEdge: real)
    ensures Receive(sigs, p, expectedRelay, relayEdge).Accepted?
       <==> && p.Wrapped? && NamedBy(p.relayProof, expectedRelay) && (expectedRelay, p.relay) in sigs.relays
            && p.inner.Plain? && NamedBy(p.inner.proof, p.relay.answerer)
            && (p.relay.answerer, p.inner.answer) in sigs.answers
            && 0.0 <= relayEdge <= 1.0 && 0.0 <= p.relay.edgeConfidence <= 1.0
  {
    hide UpToHash;
    if p.Wrapped? {
      if p.relayProof.Some? { UpToHashIs(p.relayProof.value, expectedRelay); }
      if p.inner.Plain? && p.inner.proof.Some? { UpToHashIs(p.inner.proof.value, p.relay.answerer); }
    }
  }

  /** Every signature that the nodes of a network make on the way of a query. */
  ghost predicate Signs(sigs: Signatures, p: Payload) {
    match p
    case Plain(answer, _) => (answer.answeredBy, answer) in sigs.answers
    case Wrapped(inner, relay, _) => (relay.relayedBy, relay) in sigs.relays && Signs(sigs, inner)
  }

  function Relays(p: Payload): nat {
    match p
    case Plain(_, _) => 0
    case Wrapped(inner, _, _) => 1 + Relays(inner)
  }

  lemma {:induction false} SignerOfProof(signer: Did)
    requires '#' !in signer
    ensures SignerOf(ProofOf(signer)) == signer
  {
    if signer != "" {
      assert (signer + "#key-1")[1..] == signer[1..] + "#key-1";
      SignerOfProof(signer[1..]);
    }
  }

  lemma {:induction false} ReplyIsOwn(n: Node, me: Did, e: Envelope)
    ensures var a := Act(n, me, e);
            a.Reply? && a.result.Granted? ==>
              a.result.payload.Plain? && a.result.payload.answer.answeredBy == me && a.result.payload.proof == ProofOf(me)
  {
  }

  /** An answer is wrapped once by every node that passed it on. */
  lemma {:induction false} WrappedByEachRelay(net: Network, me: Did, e: Envelope)
    requires Respond(net, me, e).Granted?
    ensures Relays(Respond(net, me, e).payload) == |Path(net, me, e)| - 1
    ensures var p := Respond(net, me, e).payload;
            if p.Plain? then p.answer.answeredBy == me && p.proof == ProofOf(me)
            else p.relay.relayedBy == me && p.relayProof == ProofOf(me) && p.relay.answerer == NamedAnswerer(p.inner)
    decreases Max0(e.query.depthRemaining)
  {
    hide Act;
    var act := Act(net[me], me, e);
    ReplyIsOwn(net[me], me, e);
    if act.Cross? {
      CrossAttenuates(net[me], me, e);
      WrappedByEachRelay(net, act.friend.warden, act.envelope);
    }
  }

  lemma {:induction false} PlainIsByLast(net: Network, me: Did, e: Envelope)
    requires Respond(net, me, e).Granted? && Respond(net, me, e).payload.Wrapped? && Respond(net, me, e).payload.inner.Plain?
    ensures var p := Respond(net, me, e).payload; p.inner.proof == ProofOf(p.relay.answerer) && p.relay.answerer in net
  {
    hide Act;
    var act := Act(net[me], me, e);
    ReplyIsOwn(net[me], me, e);
    CrossAttenuates(net[me], me, e);
    WrappedByEachRelay(net, act.friend.warden, act.envelope);
  }

  function Edge(p: Payload): real {
    if p.Wrapped? then p.relay.edgeConfidence else 1.0
  }

  /** Of the answers of a network, the origin accepts exactly those that passed through one relay, the one it
      recognizes, over edges whose confidences are probabilities: an answer from farther away is never accepted. */
  lemma {:induction false} AcceptsOneRelay(net: Network, me: Did, e: Envelope, sigs: Signatures, relayEdge: real)
    requires Respond(net, me, e).Granted? && Signs(sigs, Respond(net, me, e).payload)
    requires '#' !in me && forall d | d in net :: '#' !in d
    ensures Receive(sigs, Respond(net, me, e).payload, me, relayEdge).Accepted?
       <==> |Path(net, me, e)| == 2 && InUnit(relayEdge) && InUnit(Edge(Respond(net, me, e).payload))
  {
    var p := Respond(net, me, e).payload;
    WrappedByEachRelay(net, me, e);
    SignerOfProof(me);
    if p.Wrapped? && p.inner.Plain? {
      PlainIsByLast(net, me, e);
      SignerOfProof(p.relay.answerer);
    }
  }
}
