/** Invocations that run concurrently against one challenge store and one ledger file. Every await of the source is
    a point where other invocations may go on: between the check of a transaction and its marking, and inside the
    marking, between reading the ledger file and replacing it. */
module MonitorRuns {
  import opened Wrappers
  import opened Text
  import opened Capability
  import opened Attenuation
  import opened Monitor

  /** An invocation that has been cleared to disclose: for what, when, and on which discharges. */
  datatype Clear = Clear(inv: Invocation, leaf: Leaf, matter: Matter, now: int, done: set<(Did, string)>)

  datatype Phase =
    | Waiting
    | Admitted(inv: Invocation, leaf: Leaf)
    | TxnChecked(inv: Invocation, leaf: Leaf)
    | CapChecked(inv: Invocation, leaf: Leaf)
    | Cleared(c: Clear)
    | MarkingTxn(c: Clear, seen: set<string>)
    | TxnMarked(c: Clear)
    | MarkingCap(c: Clear, seen: set<string>)
    | Disclosed(c: Clear)
    | Failed

  datatype State = State(
    live: map<string, Entry>, minted: set<string>, spent: set<string>,
    phases: seq<Phase>, net: Network, approved: set<Request>)

  function To(s: State, p: nat, phase: Phase): State
    requires p < |s.phases|
  {
    s.(phases := s.phases[p := phase])
  }

  function TxnOf(c: Clear): string {
    c.inv.act.txn
  }

  /** The key of a capability that may be used once, if it is one. */
  function CapOf(c: Clear): Option<string> {
    if c.leaf.caveats.singleUse then Some(CapKey(c.leaf)) else None
  }

  // ---------- steps ----------

  ghost predicate Arrive(s: State, t: State) {
    t == s.(phases := s.phases + [Waiting])
  }

  ghost predicate MintChallenge(s: State, t: State, challenge: string, e: Entry) {
    challenge !in s.minted
    && t == s.(live := s.live[challenge := e], minted := s.minted + {challenge})
  }

  function AfterAdmit(s: State, p: nat, inv: Invocation, leaf: Leaf, now: int): State
    requires p < |s.phases| && inv.chain.bound.challenge in s.live
  {
    To(s, p, Admitted(inv, leaf)).(live := Burned(s.live, inv.chain.bound.challenge, ForInvocation, now))
  }

  ghost predicate Admit(cfg: Config, s: State, t: State, p: nat, inv: Invocation, from: Did, leaf: Leaf, now: int) {
    && p < |s.phases| && s.phases[p].Waiting?
    && Answers(s.live, inv.chain.bound.challenge, ForInvocation, now)
    && Resolves(s.net, cfg, inv, from, leaf)
    && t == AfterAdmit(s, p, inv, leaf, now)
  }

  /** A challenge that is answered and burned by an invocation that is then refused. */
  ghost predicate BurnOnly(s: State, t: State, challenge: string, now: int) {
    t == s.(live := Burned(s.live, challenge, ForInvocation, now))
  }

  ghost predicate CheckTxn(s: State, t: State, p: nat) {
    && p < |s.phases| && s.phases[p].Admitted? && s.phases[p].inv.act.txn !in s.spent
    && t == To(s, p, TxnChecked(s.phases[p].inv, s.phases[p].leaf))
  }

  ghost predicate CheckCap(s: State, t: State, p: nat) {
    && p < |s.phases| && s.phases[p].TxnChecked?
    && (s.phases[p].leaf.caveats.singleUse ==> CapKey(s.phases[p].leaf) !in s.spent)
    && t == To(s, p, CapChecked(s.phases[p].inv, s.phases[p].leaf))
  }

  /** Every check but those of the ledger: the kind of the evidence, which its service looks at, and the rest. */
  predicate Passes(net: Network, cfg: Config, inv: Invocation, leaf: Leaf, m: Matter, now: int) {
    && leaf.caveats.ceiling.Some? && AllowsKind(leaf.caveats, inv.act.args.kind)
    && Authorizes(net, cfg, inv, leaf, m, now)
  }

  function ClearOf(net: Network, inv: Invocation, leaf: Leaf, m: Matter, now: int): Clear {
    Clear(inv, leaf, m, now, Done(net, inv, leaf, m))
  }

  ghost predicate ClearIt(cfg: Config, s: State, t: State, p: nat, m: Matter, now: int) {
    && p < |s.phases| && s.phases[p].CapChecked? && Passes(s.net, cfg, s.phases[p].inv, s.phases[p].leaf, m, now)
    && t == To(s, p, Cleared(ClearOf(s.net, s.phases[p].inv, s.phases[p].leaf, m, now)))
  }

  /** Consent was missing: the discharges are collected and the whole decision is made again. */
  ghost predicate Retry(s: State, t: State, p: nat, more: seq<Discharge>) {
    && p < |s.phases| && s.phases[p].CapChecked?
    && t == To(s, p, Admitted(WithDischarges(s.phases[p].inv, more), s.phases[p].leaf))
  }

  ghost predicate ReadForTxn(s: State, t: State, p: nat) {
    p < |s.phases| && s.phases[p].Cleared? && t == To(s, p, MarkingTxn(s.phases[p].c, s.spent))
  }

  /** The file is replaced by what was read with the key added, unless the key was already there. */
  function Written(spent: set<string>, seen: set<string>, key: string): set<string> {
    if key in seen then spent else seen + {key}
  }

  /** A mark that is made on what was read keeps the marks of others if and only if it was there already, and nothing is
      written, or nothing but itself was marked since the read. */
  lemma {:induction false} WriteKeepsMarks(spent: set<string>, seen: set<string>, key: string)
    ensures spent <= Written(spent, seen, key) <==> key in seen || spent - seen <= {key}
    ensures key in Written(spent, seen, key) <==> key !in seen || key in spent
  {
    if key !in seen && spent - seen <= {key} {
      forall k | k in spent ensures k in seen + {key} {
        if k !in seen { assert k in spent - seen; }
      }
    }
    if spent <= seen + {key} {
      assert spent - seen <= {key};
    }
  }

  ghost predicate WriteTxn(s: State, t: State, p: nat) {
    && p < |s.phases| && s.phases[p].MarkingTxn?
    && t == To(s, p, TxnMarked(s.phases[p].c)).(spent := Written(s.spent, s.phases[p].seen, TxnOf(s.phases[p].c)))
  }

  ghost predicate ReadForCap(s: State, t: State, p: nat) {
    && p < |s.phases| && s.phases[p].TxnMarked? && CapOf(s.phases[p].c).Some?
    && t == To(s, p, MarkingCap(s.phases[p].c, s.spent))
  }

  ghost predicate WriteCap(s: State, t: State, p: nat) {
    && p < |s.phases| && s.phases[p].MarkingCap? && CapOf(s.phases[p].c).Some?
    && t == To(s, p, Disclosed(s.phases[p].c)).(spent := Written(s.spent, s.phases[p].seen, CapOf(s.phases[p].c).value))
  }

  ghost predicate Disclose(s: State, t: State, p: nat) {
    && p < |s.phases| && s.phases[p].TxnMarked? && CapOf(s.phases[p].c).None?
    && t == To(s, p, Disclosed(s.phases[p].c))
  }

  ghost predicate Fail(s: State, t: State, p: nat) {
    p < |s.phases| && !s.phases[p].Disclosed? && t == To(s, p, Failed)
  }

  /** A human approves a request and the Signet signs; everything else on the network changes as it likes, but for
      the signatures of the owners in honest. */
  ghost predicate Elsewhere(honest: set<Did>, s: State, t: State) {
    && t == s.(net := t.net, approved := t.approved) && s.approved <= t.approved
    && forall d, b | (d, b) in t.net.discharges && d in honest ::
         (d, b) in s.net.discharges || exists r, level :: r in t.approved && b == SignedBody(r, level)
  }

  ghost predicate Next(cfg: Config, honest: set<Did>, s: State, t: State) {
    || Arrive(s, t) || Elsewhere(honest, s, t)
    || (exists ch, e :: MintChallenge(s, t, ch, e))
    || (exists ch, now :: BurnOnly(s, t, ch, now))
    || (exists p, inv, from, leaf, now :: Admit(cfg, s, t, p, inv, from, leaf, now))
    || (exists p :: Moves(cfg, s, t, p))
  }

  ghost predicate Moves(cfg: Config, s: State, t: State, p: nat) {
    || CheckTxn(s, t, p) || CheckCap(s, t, p) || (exists m, now :: ClearIt(cfg, s, t, p, m, now))
    || (exists more :: Retry(s, t, p, more))
    || ReadForTxn(s, t, p) || WriteTxn(s, t, p) || ReadForCap(s, t, p) || WriteCap(s, t, p) || Disclose(s, t, p)
    || Fail(s, t, p)
  }

  ghost predicate Initial(s: State) {
    s.live == map[] && s.minted == {} && s.spent == {} && s.phases == [] && s.net.discharges == {}
  }

  ghost predicate Run(cfg: Config, honest: set<Did>, trace: seq<State>) {
    trace != [] && Initial(trace[0]) && Steps(cfg, honest, trace)
  }

  ghost predicate Steps(cfg: Config, honest: set<Did>, trace: seq<State>) {
    forall i, j | 0 <= i && i + 1 == j < |trace| :: Next(cfg, honest, trace[i], trace[j])
  }

  // ---------- challenges, in any interleaving ----------

  predicate Known(s: State) {
    forall ch | ch in s.live :: ch in s.minted
  }

  /** A challenge that was minted and is no longer there. */
  predicate Gone(s: State, challenge: string) {
    challenge in s.minted && challenge !in s.live
  }

  lemma {:induction false} GoneKept(cfg: Config, honest: set<Did>, s: State, t: State, challenge: string)
    requires Next(cfg, honest, s, t)
    ensures Known(s) ==> Known(t)
    ensures Gone(s, challenge) ==> Gone(t, challenge)
  {
    hide Passes, Done, Resolves;
  }

  lemma {:induction false} KnownAlways(cfg: Config, honest: set<Did>, trace: seq<State>, i: nat)
    requires Run(cfg, honest, trace) && i < |trace|
    ensures Known(trace[i])
  {
    hide Next;
    if i > 0 {
      KnownAlways(cfg, honest, trace, i - 1);
      assert Next(cfg, honest, trace[i - 1], trace[i]);
      GoneKept(cfg, honest, trace[i - 1], trace[i], "");
    }
  }

  lemma {:induction false} StaysGone(cfg: Config, honest: set<Did>, trace: seq<State>, i: nat, j: nat, challenge: string)
    requires Run(cfg, honest, trace) && i <= j < |trace| && Gone(trace[i], challenge)
    ensures Gone(trace[j], challenge)
  {
    hide Next, Gone;
    if i < j {
      StaysGone(cfg, honest, trace, i, j - 1, challenge);
      assert Next(cfg, honest, trace[j - 1], trace[j]);
      GoneKept(cfg, honest, trace[j - 1], trace[j], challenge);
    }
  }

  lemma {:induction false} AdmitBurns(
      cfg: Config, s: State, t: State, p: nat, inv: Invocation, from: Did, leaf: Leaf, now: int)
    requires Admit(cfg, s, t, p, inv, from, leaf, now) && Known(s)
    requires !s.live[inv.chain.bound.challenge].reusable
    ensures Gone(t, inv.chain.bound.challenge)
  {
    hide Resolves;
  }

  lemma {:induction false} AdmitAnswers(
      cfg: Config, s: State, t: State, p: nat, inv: Invocation, from: Did, leaf: Leaf, now: int)
    requires Admit(cfg, s, t, p, inv, from, leaf, now)
    ensures inv.chain.bound.challenge in s.live
  {
    hide Resolves;
  }

  /** In every interleaving no two admissions answer one single-use challenge. */
  lemma {:induction false} OnceAlways(
      cfg: Config, honest: set<Did>, trace: seq<State>, i: nat, p: nat, a: Invocation, from: Did, leaf: Leaf, now: int,
      j: nat, q: nat, b: Invocation, from': Did, leaf': Leaf, now': int)
    requires Run(cfg, honest, trace) && i < j && j + 1 < |trace|
    requires Admit(cfg, trace[i], trace[i + 1], p, a, from, leaf, now)
    requires Admit(cfg, trace[j], trace[j + 1], q, b, from', leaf', now')
    requires a.chain.bound.challenge in trace[i].live && !trace[i].live[a.chain.bound.challenge].reusable
    ensures a.chain.bound.challenge != b.chain.bound.challenge
  {
    hide Run, Admit, Gone;
    KnownAlways(cfg, honest, trace, i);
    AdmitBurns(cfg, trace[i], trace[i + 1], p, a, from, leaf, now);
    StaysGone(cfg, honest, trace, i + 1, j, a.chain.bound.challenge);
    AdmitAnswers(cfg, trace[j], trace[j + 1], q, b, from', leaf', now');
    GoneIsNotLive(trace[j], a.chain.bound.challenge);
  }

  lemma {:induction false} GoneIsNotLive(s: State, challenge: string)
    requires Gone(s, challenge)
    ensures challenge !in s.live
  {
  }

  // ---------- consent, in any interleaving ----------

  predicate HasClear(ph: Phase) {
    ph.Cleared? || ph.MarkingTxn? || ph.TxnMarked? || ph.MarkingCap? || ph.Disclosed?
  }

  predicate Backed(s: State, c: Clear) {
    exists r | r in s.approved :: RequestFor(r, c.inv, c.leaf, c.matter)
  }

  ghost predicate Consented(cfg: Config, honest: set<Did>, s: State) {
    && (forall d | d in honest :: ConsentsOnly(s.net, d, s.approved))
    && forall p: nat | p < |s.phases| && HasClear(s.phases[p]) :: BackedIfNeeded(cfg, honest, s, s.phases[p].c)
  }

  predicate BackedIfNeeded(cfg: Config, honest: set<Did>, s: State, c: Clear) {
    (cfg.requiresHumanAt.Some? && c.matter.sensitivity >= cfg.requiresHumanAt.value
     && c.leaf.caveats.owner.GetOr(c.matter.owner) in honest) ==> Backed(s, c)
  }

  lemma {:induction false} ConsentedByMove(cfg: Config, honest: set<Did>, s: State, t: State, p: nat)
    requires Moves(cfg, s, t, p) && Consented(cfg, honest, s)
    ensures Consented(cfg, honest, t)
  {
    hide RequestFor, ConsentsOnly, Passes, Done;
    assert t.approved == s.approved && t.net == s.net;
    forall q: nat | q < |t.phases| && HasClear(t.phases[q]) ensures BackedIfNeeded(cfg, honest, t, t.phases[q].c) {
      if q != p {
        assert t.phases[q] == s.phases[q];
        assert BackedIfNeeded(cfg, honest, s, s.phases[q].c);
      } else if m, now :| ClearIt(cfg, s, t, p, m, now) {
        ClearedIsBacked(cfg, honest, s, ClearOf(s.net, s.phases[p].inv, s.phases[p].leaf, m, now), now);
      } else {
        assert HasClear(s.phases[p]) && t.phases[p].c == s.phases[p].c;
        assert BackedIfNeeded(cfg, honest, s, s.phases[p].c);
      }
    }
  }

  lemma {:induction false} ClearedIsBacked(cfg: Config, honest: set<Did>, s: State, c: Clear, now: int)
    requires forall d | d in honest :: ConsentsOnly(s.net, d, s.approved)
    requires Passes(s.net, cfg, c.inv, c.leaf, c.matter, now)
    ensures BackedIfNeeded(cfg, honest, s, c)
  {
    if AtThreshold(cfg, c.matter) && OwnerFor(c.leaf, c.matter) in honest {
      ConsentIsForThisAct(s.net, cfg, c.inv, c.leaf, c.matter, now, s.approved);
    }
  }

  lemma {:induction false} ConsentedKept(cfg: Config, honest: set<Did>, s: State, t: State)
    requires Next(cfg, honest, s, t) && Consented(cfg, honest, s)
    ensures Consented(cfg, honest, t)
  {
    hide Passes, Done, Resolves, RequestFor, Burned;
    if p: nat :| Moves(cfg, s, t, p) {
      ConsentedByMove(cfg, honest, s, t, p);
    } else {
      assert s.approved <= t.approved;
      forall q: nat | q < |t.phases| && HasClear(t.phases[q]) ensures BackedIfNeeded(cfg, honest, t, t.phases[q].c) {
        assert q < |s.phases| && t.phases[q] == s.phases[q];
        assert BackedIfNeeded(cfg, honest, s, s.phases[q].c);
      }
    }
  }

  /** In every run, whatever is disclosed at or above the human threshold was approved by its owner: for exactly
      that transaction, claim, kind, owner, recipient, sensitivity and set of leaves. */
  lemma {:induction false} ConsentedAlways(cfg: Config, honest: set<Did>, trace: seq<State>, i: nat)
    requires Run(cfg, honest, trace) && i < |trace|
    ensures Consented(cfg, honest, trace[i])
  {
    if i > 0 {
      ConsentedAlways(cfg, honest, trace, i - 1);
      assert Next(cfg, honest, trace[i - 1], trace[i]);
      ConsentedKept(cfg, honest, trace[i - 1], trace[i]);
    }
  }

  // ---------- what is disclosed, in any interleaving ----------

  /** The use of the capability that a cleared invocation makes. */
  function UseOf(c: Clear): Use {
    Use(c.matter.sensitivity, c.inv.act.args.kind, OwnerFor(c.leaf, c.matter), c.leaf.caveats.audience.GetOr(c.leaf.holder),
        c.now, c.done)
  }

  predicate WithinLeaf(cfg: Config, c: Clear) {
    Admits(c.leaf.caveats, UseOf(c), c.matter.owner, cfg.clock)
  }

  lemma {:induction false} PassesIsWithin(net: Network, cfg: Config, inv: Invocation, leaf: Leaf, m: Matter, now: int)
    requires Passes(net, cfg, inv, leaf, m, now)
    ensures WithinLeaf(cfg, ClearOf(net, inv, leaf, m, now))
  {
    forall d | d in leaf.caveats.requiresDischarge ensures (d.party, d.attests) in Done(net, inv, leaf, m) {}
  }

  lemma {:induction false} WithinByMove(cfg: Config, s: State, t: State, p: nat, q: nat)
    requires Moves(cfg, s, t, p) && q < |t.phases| && HasClear(t.phases[q])
    requires q < |s.phases| && HasClear(s.phases[q]) ==> WithinLeaf(cfg, s.phases[q].c)
    ensures WithinLeaf(cfg, t.phases[q].c)
  {
    hide WithinLeaf, Passes, Done;
    if m, now :| ClearIt(cfg, s, t, p, m, now) {
      PassesIsWithin(s.net, cfg, s.phases[p].inv, s.phases[p].leaf, m, now);
    }
  }

  /** In every run, whatever is disclosed is of a sensitivity and kind, at a time, about an owner, to a recipient and on
      discharges that the caveats of the leaf admit. */
  lemma {:induction false} WithinAlways(cfg: Config, honest: set<Did>, trace: seq<State>, i: nat, p: nat)
    requires Run(cfg, honest, trace) && i < |trace| && p < |trace[i].phases| && HasClear(trace[i].phases[p])
    ensures WithinLeaf(cfg, trace[i].phases[p].c)
  {
    hide WithinLeaf, Moves, Resolves, Burned, Answers;
    var s, t := trace[i - 1], trace[i];
    assert Next(cfg, honest, s, t);
    if p < |s.phases| && HasClear(s.phases[p]) { WithinAlways(cfg, honest, trace, i - 1, p); }
    if q: nat :| Moves(cfg, s, t, q) {
      WithinByMove(cfg, s, t, q, p);
    }
  }

  // ---------- transactions, when decisions do not overlap ----------

  /** Between its first check and its last mark. */
  predicate Busy(ph: Phase) {
    ph.TxnChecked? || ph.CapChecked? || ph.Cleared? || ph.MarkingTxn? || ph.TxnMarked? || ph.MarkingCap?
  }

  ghost predicate Serial(s: State) {
    forall p: nat, q: nat | p < q < |s.phases| :: !(Busy(s.phases[p]) && Busy(s.phases[q]))
  }

  predicate Distinct(c: Clear, d: Clear) {
    TxnOf(c) != TxnOf(d) && (CapOf(c).None? || CapOf(c) != CapOf(d))
  }

  /** What one invocation knows of the ledger as long as nobody else decides. */
  predicate Knows(s: State, ph: Phase) {
    match ph
    case TxnChecked(inv, _) => inv.act.txn !in s.spent
    case CapChecked(inv, leaf) => inv.act.txn !in s.spent && (leaf.caveats.singleUse ==> CapKey(leaf) !in s.spent)
    case Cleared(c) => Unmarked(s, c)
    case MarkingTxn(c, seen) => Unmarked(s, c) && seen == s.spent
    case TxnMarked(c) => TxnOf(c) in s.spent
    case MarkingCap(c, seen) => TxnOf(c) in s.spent && CapOf(c).Some? && seen == s.spent
    case Disclosed(c) => TxnOf(c) in s.spent && (CapOf(c).Some? ==> CapOf(c).value in s.spent)
    case _ => true
  }

  predicate Unmarked(s: State, c: Clear) {
    TxnOf(c) !in s.spent && (CapOf(c).Some? ==> CapOf(c).value !in s.spent)
  }

  predicate Marked(ph: Phase) {
    ph.TxnMarked? || ph.MarkingCap? || ph.Disclosed?
  }

  ghost predicate SpentOnce(s: State) {
    && (forall p: nat | p < |s.phases| :: Knows(s, s.phases[p]))
    && (forall p: nat, q: nat | p < |s.phases| && q < |s.phases| && p != q && Marked(s.phases[p]) && s.phases[q].Disclosed? ::
          Distinct(s.phases[p].c, s.phases[q].c))
  }

  /** Outside the moves of invocations, the ledger and the phases stay, but for arrivals and admissions. */
  lemma {:induction false} QuietStep(cfg: Config, honest: set<Did>, s: State, t: State)
    requires Next(cfg, honest, s, t) && !(exists p :: Moves(cfg, s, t, p))
    ensures t.spent == s.spent && |t.phases| >= |s.phases|
    ensures forall p: nat | p < |t.phases| ::
              (p < |s.phases| && t.phases[p] == s.phases[p]) || t.phases[p].Waiting? || t.phases[p].Admitted?
  {
    hide Resolves, Burned, Answers;
  }

  lemma {:induction false} SpentOnceQuiet(cfg: Config, honest: set<Did>, s: State, t: State)
    requires Next(cfg, honest, s, t) && !(exists p :: Moves(cfg, s, t, p)) && SpentOnce(s)
    ensures SpentOnce(t)
  {
    hide Next, Distinct;
    QuietStep(cfg, honest, s, t);
    forall p: nat | p < |t.phases| ensures Knows(t, t.phases[p]) {
      if p < |s.phases| { assert Knows(s, s.phases[p]); }
    }
  }

  lemma {:induction false} OthersIdle(s: State, p: nat, q: nat)
    requires Serial(s) && p < |s.phases| && q < |s.phases| && p != q && Busy(s.phases[p])
    ensures !Busy(s.phases[q])
  {
  }

  lemma {:induction false} DistinctBothWays(c: Clear, d: Clear)
    requires Distinct(c, d)
    ensures Distinct(d, c)
  {
  }

  lemma {:induction false} NoWriteKeepsMarks(cfg: Config, s: State, t: State, p: nat, q: nat)
    requires Moves(cfg, s, t, p) && !WriteTxn(s, t, p) && !WriteCap(s, t, p) && q < |t.phases| && Marked(t.phases[q])
    ensures q < |s.phases| && Marked(s.phases[q]) && s.phases[q].c == t.phases[q].c
    ensures t.phases[q].Disclosed? && !s.phases[q].Disclosed? ==> q == p && Busy(s.phases[q])
  {
    hide Passes, Done;
  }

  /** A move that does not write leaves the knowledge of all the others alone. */
  lemma {:induction false} KnowsNoWrite(cfg: Config, s: State, t: State, p: nat)
    requires Moves(cfg, s, t, p) && SpentOnce(s) && !WriteTxn(s, t, p) && !WriteCap(s, t, p)
    ensures t.spent == s.spent && forall q: nat | q < |t.phases| :: Knows(t, t.phases[q])
  {
    hide Passes, Done, Distinct;
    assert Knows(s, s.phases[p]);
    forall q: nat | q < |t.phases| ensures Knows(t, t.phases[q]) {
      if q != p { assert t.phases[q] == s.phases[q] && Knows(s, s.phases[q]); }
    }
  }

  lemma {:induction false} SpentOnceNoWrite(cfg: Config, s: State, t: State, p: nat)
    requires Moves(cfg, s, t, p) && SpentOnce(s) && Serial(s) && !WriteTxn(s, t, p) && !WriteCap(s, t, p)
    ensures SpentOnce(t)
  {
    hide Moves, Distinct, Knows;
    KnowsNoWrite(cfg, s, t, p);
    forall q: nat, r: nat | q < |t.phases| && r < |t.phases| && q != r && Marked(t.phases[q]) && t.phases[r].Disclosed?
      ensures Distinct(t.phases[q].c, t.phases[r].c)
    {
      NoWriteKeepsMarks(cfg, s, t, p, q);
      NoWriteKeepsMarks(cfg, s, t, p, r);
      if !s.phases[r].Disclosed? {
        OthersIdle(s, r, q);
        DistinctBothWays(s.phases[r].c, s.phases[q].c);
      }
    }
  }

  lemma {:induction false} SpentOnceWrite(s: State, t: State, p: nat)
    requires (WriteTxn(s, t, p) || WriteCap(s, t, p)) && SpentOnce(s) && Serial(s)
    ensures SpentOnce(t)
  {
    assert Knows(s, s.phases[p]);
    var c := s.phases[p].c;
    assert s.spent <= t.spent && |t.phases| == |s.phases|;
    forall q: nat | q < |t.phases| ensures Knows(t, t.phases[q]) {
      if q != p {
        OthersIdle(s, p, q);
        assert t.phases[q] == s.phases[q] && Knows(s, s.phases[q]);
      }
    }
    forall q: nat, r: nat | q < |t.phases| && r < |t.phases| && q != r && Marked(t.phases[q]) && t.phases[r].Disclosed?
      ensures Distinct(t.phases[q].c, t.phases[r].c)
    {
      var other := if q == p then r else q;
      if q == p || r == p {
        OthersIdle(s, p, other);
        WrittenIsDistinct(s, t, p, other);
        DistinctBothWays(c, s.phases[other].c);
      } else {
        assert t.phases[q] == s.phases[q] && t.phases[r] == s.phases[r];
      }
    }
  }

  lemma {:induction false} WrittenIsDistinct(s: State, t: State, p: nat, other: nat)
    requires (WriteTxn(s, t, p) || WriteCap(s, t, p)) && SpentOnce(s)
    requires p != other && other < |s.phases| && s.phases[other].Disclosed?
    ensures Distinct(s.phases[p].c, s.phases[other].c)
  {
    assert Knows(s, s.phases[p]) && Knows(s, s.phases[other]);
  }

  lemma {:induction false} SpentOnceKept(cfg: Config, honest: set<Did>, s: State, t: State)
    requires Next(cfg, honest, s, t) && SpentOnce(s) && Serial(s)
    ensures SpentOnce(t)
  {
    hide Next, SpentOnce, Moves, WriteTxn, WriteCap;
    if p: nat :| Moves(cfg, s, t, p) {
      if WriteTxn(s, t, p) || WriteCap(s, t, p) {
        SpentOnceWrite(s, t, p);
      } else {
        SpentOnceNoWrite(cfg, s, t, p);
      }
    } else {
      SpentOnceQuiet(cfg, honest, s, t);
    }
  }

  lemma {:induction false} SpentOnceAlways(cfg: Config, honest: set<Did>, trace: seq<State>, i: nat)
    requires Run(cfg, honest, trace) && i < |trace|
    requires forall j | 0 <= j < i :: Serial(trace[j])
    ensures SpentOnce(trace[i])
  {
    if i > 0 {
      SpentOnceAlways(cfg, honest, trace, i - 1);
      assert Next(cfg, honest, trace[i - 1], trace[i]);
      SpentOnceKept(cfg, honest, trace[i - 1], trace[i]);
    }
  }

  /** In every run whose decisions do not overlap, no transaction and no single-use capability is granted twice. */
  lemma {:induction false} GrantedOnce(cfg: Config, honest: set<Did>, trace: seq<State>, i: nat, p: nat, q: nat)
    requires Run(cfg, honest, trace) && i < |trace| && forall j | 0 <= j < i :: Serial(trace[j])
    requires p < |trace[i].phases| && q < |trace[i].phases| && p != q
    requires trace[i].phases[p].Disclosed? && trace[i].phases[q].Disclosed?
    ensures TxnOf(trace[i].phases[p].c) != TxnOf(trace[i].phases[q].c)
    ensures CapOf(trace[i].phases[p].c).Some? ==> CapOf(trace[i].phases[p].c) != CapOf(trace[i].phases[q].c)
  {
    SpentOnceAlways(cfg, honest, trace, i);
    assert Distinct(trace[i].phases[p].c, trace[i].phases[q].c);
  }

  // ---------- transactions, when decisions overlap ----------

  lemma {:induction false} Append(cfg: Config, honest: set<Did>, trace: seq<State>, t: State)
    requires trace != [] && Steps(cfg, honest, trace) && Next(cfg, honest, trace[|trace| - 1], t)
    ensures Steps(cfg, honest, trace + [t])
  {
    hide Next;
    var longer := trace + [t];
    forall i, j | 0 <= i && i + 1 == j < |longer| ensures Next(cfg, honest, longer[i], longer[j]) {
      if j < |trace| { assert Next(cfg, honest, trace[i], trace[j]); }
    }
  }

  ghost function FinishStep(s: State, p: nat): State
    requires p < |s.phases| && (s.phases[p].MarkingTxn? || s.phases[p].TxnMarked? || s.phases[p].MarkingCap? || s.phases[p].Cleared?)
  {
    match s.phases[p]
    case Cleared(c) => To(s, p, MarkingTxn(c, s.spent))
    case MarkingTxn(c, seen) => To(s, p, TxnMarked(c)).(spent := Written(s.spent, seen, TxnOf(c)))
    case TxnMarked(c) => if CapOf(c).Some? then To(s, p, MarkingCap(c, s.spent)) else To(s, p, Disclosed(c))
    case MarkingCap(c, seen) =>
      To(s, p, Disclosed(c)).(spent := if CapOf(c).Some? then Written(s.spent, seen, CapOf(c).value) else s.spent)
  }

  lemma {:induction false} FinishStepIsNext(cfg: Config, honest: set<Did>, s: State, p: nat)
    requires p < |s.phases|
    requires s.phases[p].Cleared? || s.phases[p].MarkingTxn? || s.phases[p].TxnMarked?
             || (s.phases[p].MarkingCap? && CapOf(s.phases[p].c).Some?)
    ensures Next(cfg, honest, s, FinishStep(s, p))
  {
    assert Moves(cfg, s, FinishStep(s, p), p);
  }

  function Distance(ph: Phase): nat {
    match ph
    case Cleared(_) => 4
    case MarkingTxn(_, _) => 3
    case TxnMarked(_) => 2
    case MarkingCap(_, _) => 1
    case _ => 0
  }

  // ---------- runs, from the empty ledger on ----------

  lemma {:induction false} AppendRun(cfg: Config, honest: set<Did>, trace: seq<State>, t: State)
    requires trace != [] && Run(cfg, honest, trace) && Next(cfg, honest, trace[|trace| - 1], t)
    ensures Run(cfg, honest, trace + [t])
  {
    hide Next;
    Append(cfg, honest, trace, t);
  }

  /** Any network whose honest owners signed what they approved can come about. */
  lemma {:induction false} Setup(cfg: Config, honest: set<Did>, net: Network, approved: set<Request>)
    returns (trace: seq<State>)
    requires forall d | d in honest :: ConsentsOnly(net, d, approved)
    ensures trace != [] && Run(cfg, honest, trace) && trace[|trace| - 1] == State(map[], {}, {}, [], net, approved)
  {
    hide Next;
    var init := State(map[], {}, {}, [], net.(discharges := {}), {});
    var t := init.(net := net, approved := approved);
    ElsewhereIsNext(cfg, honest, init, t);
    SingleState(cfg, honest, init);
    AppendRun(cfg, honest, [init], t);
    trace := [init] + [t];
  }

  lemma {:induction false} ElsewhereIsNext(cfg: Config, honest: set<Did>, s: State, t: State)
    requires t == s.(net := t.net, approved := t.approved) && s.approved <= t.approved
    requires forall d | d in honest :: ConsentsOnly(t.net, d, t.approved)
    ensures Next(cfg, honest, s, t)
  {
    hide SignedBody;
    forall d, b | (d, b) in t.net.discharges && d in honest
      ensures (d, b) in s.net.discharges || exists r, level :: r in t.approved && b == SignedBody(r, level)
    {
      assert ConsentsOnly(t.net, d, t.approved);
    }
    assert Elsewhere(honest, s, t);
  }

  /** One invocation with everything that it meets: its sender, its leaf, the evidence, and the time. */
  datatype Attempt = Attempt(inv: Invocation, sender: Did, leaf: Leaf, matter: Matter, now: int)

  function ChallengeOf(a: Attempt): string {
    a.inv.chain.bound.challenge
  }

  lemma {:induction false} AdmitsNext(cfg: Config, honest: set<Did>, trace: seq<State>, a: Attempt)
    returns (longer: seq<State>)
    requires trace != [] && Run(cfg, honest, trace)
    requires var s := trace[|trace| - 1]; ChallengeOf(a) !in s.minted && Resolves(s.net, cfg, a.inv, a.sender, a.leaf)
    ensures trace <= longer && Run(cfg, honest, longer)
    ensures var s, t := trace[|trace| - 1], longer[|longer| - 1];
            && t.phases == s.phases + [Admitted(a.inv, a.leaf)] && t.minted == s.minted + {ChallengeOf(a)}
            && t.spent == s.spent && t.net == s.net && t.approved == s.approved
  {
    hide Next, Run, Resolves;
    var s, ch := trace[|trace| - 1], ChallengeOf(a);
    var s1 := s.(live := s.live[ch := Entry(ForInvocation, a.now, false)], minted := s.minted + {ch});
    var s2 := s1.(phases := s1.phases + [Waiting]);
    var s3 := AfterAdmit(s2, |s.phases|, a.inv, a.leaf, a.now);
    assert Next(cfg, honest, s, s1) by { MintIsNext(cfg, honest, s, s1, ch, Entry(ForInvocation, a.now, false)); }
    AppendRun(cfg, honest, trace, s1);
    assert Next(cfg, honest, s1, s2) by { ArriveIsNext(cfg, honest, s1, s2); }
    AppendRun(cfg, honest, trace + [s1], s2);
    assert Next(cfg, honest, s2, s3) by { AdmitIsNext(cfg, honest, s2, s3, |s.phases|, a); }
    AppendRun(cfg, honest, trace + [s1] + [s2], s3);
    longer := trace + [s1] + [s2] + [s3];
    assert longer[..|trace|] == trace;
  }

  lemma {:induction false} MintIsNext(cfg: Config, honest: set<Did>, s: State, t: State, ch: string, e: Entry)
    requires MintChallenge(s, t, ch, e)
    ensures Next(cfg, honest, s, t)
  {
  }

  lemma {:induction false} ArriveIsNext(cfg: Config, honest: set<Did>, s: State, t: State)
    requires Arrive(s, t)
    ensures Next(cfg, honest, s, t)
  {
  }

  lemma {:induction false} AdmitIsNext(cfg: Config, honest: set<Did>, s: State, t: State, p: nat, a: Attempt)
    requires Admit(cfg, s, t, p, a.inv, a.sender, a.leaf, a.now)
    ensures Next(cfg, honest, s, t)
  {
    hide Resolves;
  }

  predicate NotSpent(spent: set<string>, a: Attempt) {
    Unspent(spent, a.inv, a.leaf)
  }

  lemma {:induction false} ClearsNext(cfg: Config, honest: set<Did>, trace: seq<State>, p: nat, a: Attempt)
    returns (longer: seq<State>)
    requires trace != [] && Run(cfg, honest, trace)
    requires var s := trace[|trace| - 1];
             && p < |s.phases| && s.phases[p] == Admitted(a.inv, a.leaf) && NotSpent(s.spent, a)
             && Passes(s.net, cfg, a.inv, a.leaf, a.matter, a.now)
    ensures trace <= longer && Run(cfg, honest, longer)
    ensures var s := trace[|trace| - 1];
            longer[|longer| - 1] == To(s, p, Cleared(ClearOf(s.net, a.inv, a.leaf, a.matter, a.now)))
  {
    hide Next, Run, Passes, Done;
    var s := trace[|trace| - 1];
    var s1 := To(s, p, TxnChecked(a.inv, a.leaf));
    var s2 := To(s1, p, CapChecked(a.inv, a.leaf));
    var s3 := To(s2, p, Cleared(ClearOf(s.net, a.inv, a.leaf, a.matter, a.now)));
    assert CheckTxn(s, s1, p) && CheckCap(s1, s2, p) && ClearIt(cfg, s2, s3, p, a.matter, a.now);
    MoveIsNext(cfg, honest, s, s1, p);
    AppendRun(cfg, honest, trace, s1);
    MoveIsNext(cfg, honest, s1, s2, p);
    AppendRun(cfg, honest, trace + [s1], s2);
    MoveIsNext(cfg, honest, s2, s3, p);
    AppendRun(cfg, honest, trace + [s1] + [s2], s3);
    longer := trace + [s1] + [s2] + [s3];
    assert longer[..|trace|] == trace;
    assert s3.phases == s.phases[p := s3.phases[p]];
  }

  lemma {:induction false} MoveIsNext(cfg: Config, honest: set<Did>, s: State, t: State, p: nat)
    requires Moves(cfg, s, t, p)
    ensures Next(cfg, honest, s, t)
  {
    hide Moves;
  }

  /** Whoever is cleared can finish, whatever the ledger says by then: nothing is checked again. */
  lemma {:induction false} Finishes(cfg: Config, honest: set<Did>, trace: seq<State>, p: nat)
    returns (longer: seq<State>)
    requires trace != [] && Run(cfg, honest, trace) && p < |trace[|trace| - 1].phases|
    requires var ph := trace[|trace| - 1].phases[p];
             ph.Cleared? || ph.MarkingTxn? || ph.TxnMarked? || (ph.MarkingCap? && CapOf(ph.c).Some?)
    ensures trace <= longer && Run(cfg, honest, longer)
    ensures var s, t := trace[|trace| - 1], longer[|longer| - 1];
            && t.phases == s.phases[p := Disclosed(s.phases[p].c)] && t.net == s.net && t.approved == s.approved
            && t.minted == s.minted && (s.phases[p].TxnMarked? && CapOf(s.phases[p].c).None? ==> t.spent == s.spent)
    decreases Distance(trace[|trace| - 1].phases[p])
  {
    hide Next, Run;
    var s := trace[|trace| - 1];
    var t := FinishStep(s, p);
    FinishStepIsNext(cfg, honest, s, p);
    AppendRun(cfg, honest, trace, t);
    longer := trace + [t];
    if !t.phases[p].Disclosed? {
      longer := Finishes(cfg, honest, trace + [t], p);
    }
    assert longer[..|trace|] == trace;
  }

  /** An attempt that this network admits and clears. */
  predicate Fit(net: Network, cfg: Config, a: Attempt) {
    Resolves(net, cfg, a.inv, a.sender, a.leaf) && Passes(net, cfg, a.inv, a.leaf, a.matter, a.now)
  }

  function ClearedAs(net: Network, a: Attempt): Clear {
    ClearOf(net, a.inv, a.leaf, a.matter, a.now)
  }

  /** From a ledger in which nothing is marked, two attempts can both be past all checks. */
  lemma {:induction false} BothCleared(
      cfg: Config, honest: set<Did>, net: Network, approved: set<Request>, a: Attempt, b: Attempt)
    returns (trace: seq<State>)
    requires forall d | d in honest :: ConsentsOnly(net, d, approved)
    requires Fit(net, cfg, a) && Fit(net, cfg, b) && ChallengeOf(a) != ChallengeOf(b)
    ensures trace != [] && Run(cfg, honest, trace)
    ensures var s := trace[|trace| - 1];
            && s.phases == [Cleared(ClearedAs(net, a)), Cleared(ClearedAs(net, b))] && s.spent == {}
            && s.minted == {ChallengeOf(a), ChallengeOf(b)} && s.net == net && s.approved == approved
  {
    hide Run, Resolves, Passes, ClearOf;
    trace := Setup(cfg, honest, net, approved);
    trace := AdmitsNext(cfg, honest, trace, a);
    trace := ClearsNext(cfg, honest, trace, 0, a);
    trace := AdmitsNext(cfg, honest, trace, b);
    trace := ClearsNext(cfg, honest, trace, 1, b);
  }

  /** Decisions that overlap: any two invocations of one transaction that answer different challenges can both be
      granted, in a run from the empty ledger on. The same goes for two uses of one single-use capability. */
  lemma {:induction false} OverlapGrantsBoth(
      cfg: Config, honest: set<Did>, net: Network, approved: set<Request>, a: Attempt, b: Attempt)
    returns (trace: seq<State>)
    requires forall d | d in honest :: ConsentsOnly(net, d, approved)
    requires Fit(net, cfg, a) && Fit(net, cfg, b) && ChallengeOf(a) != ChallengeOf(b)
    requires a.inv.act.txn == b.inv.act.txn || (a.leaf == b.leaf && a.leaf.caveats.singleUse)
    ensures trace != [] && Run(cfg, honest, trace)
    ensures trace[|trace| - 1].phases == [Disclosed(ClearedAs(net, a)), Disclosed(ClearedAs(net, b))]
    ensures TxnOf(ClearedAs(net, a)) == TxnOf(ClearedAs(net, b))
            || (CapOf(ClearedAs(net, a)).Some? && CapOf(ClearedAs(net, a)) == CapOf(ClearedAs(net, b)))
  {
    hide Run, Fit;
    trace := BothCleared(cfg, honest, net, approved, a, b);
    trace := Finishes(cfg, honest, trace, 0);
    trace := Finishes(cfg, honest, trace, 1);
  }

  /** Two marks that overlap: the ledger file is rewritten from what was read, and the first mark is lost. */
  lemma {:induction false} OverlapLosesMark(
      cfg: Config, honest: set<Did>, net: Network, approved: set<Request>, a: Attempt, b: Attempt)
    returns (trace: seq<State>)
    requires forall d | d in honest :: ConsentsOnly(net, d, approved)
    requires Fit(net, cfg, a) && Fit(net, cfg, b) && ChallengeOf(a) != ChallengeOf(b) && a.inv.act.txn != b.inv.act.txn
    ensures trace != [] && Run(cfg, honest, trace)
    ensures var s := trace[|trace| - 1];
            && s.phases == [TxnMarked(ClearedAs(net, a)), TxnMarked(ClearedAs(net, b))] && s.spent == {b.inv.act.txn}
            && s.minted == {ChallengeOf(a), ChallengeOf(b)} && s.net == net && s.approved == approved
  {
    hide Run, Fit, Next, Done;
    trace := BothCleared(cfg, honest, net, approved, a, b);
    var s := trace[|trace| - 1];
    var s1 := FinishStep(s, 0);
    var s2 := FinishStep(s1, 1);
    var s3 := FinishStep(s2, 0);
    var s4 := FinishStep(s3, 1);
    FinishStepIsNext(cfg, honest, s, 0);
    AppendRun(cfg, honest, trace, s1);
    FinishStepIsNext(cfg, honest, s1, 1);
    AppendRun(cfg, honest, trace + [s1], s2);
    FinishStepIsNext(cfg, honest, s2, 0);
    AppendRun(cfg, honest, trace + [s1] + [s2], s3);
    FinishStepIsNext(cfg, honest, s3, 1);
    AppendRun(cfg, honest, trace + [s1] + [s2] + [s3], s4);
    trace := trace + [s1] + [s2] + [s3] + [s4];
    assert s4.spent == {b.inv.act.txn};
  }

  /** A transaction whose mark was lost is granted again, long after it was granted: at k both overlapping invocations
      are over, and the third one has not arrived. */
  lemma {:induction false} LostMarkReplays(
      cfg: Config, honest: set<Did>, net: Network, approved: set<Request>, a: Attempt, b: Attempt, c: Attempt)
    returns (trace: seq<State>, k: nat)
    requires forall d | d in honest :: ConsentsOnly(net, d, approved)
    requires Fit(net, cfg, a) && Fit(net, cfg, b) && Fit(net, cfg, c)
    requires ChallengeOf(a) != ChallengeOf(b) && ChallengeOf(c) !in {ChallengeOf(a), ChallengeOf(b)}
    requires a.inv.act.txn == c.inv.act.txn && a.inv.act.txn != b.inv.act.txn
    requires !a.leaf.caveats.singleUse && !b.leaf.caveats.singleUse && !c.leaf.caveats.singleUse
    ensures trace != [] && Run(cfg, honest, trace) && k < |trace|
    ensures trace[k].phases == [Disclosed(ClearedAs(net, a)), Disclosed(ClearedAs(net, b))]
    ensures trace[|trace| - 1].phases
            == [Disclosed(ClearedAs(net, a)), Disclosed(ClearedAs(net, b)), Disclosed(ClearedAs(net, c))]
  {
    hide Run, Resolves, Passes, Done;
    var first := OverlapLosesMark(cfg, honest, net, approved, a, b);
    first := Finishes(cfg, honest, first, 0);
    first := Finishes(cfg, honest, first, 1);
    k := |first| - 1;
    var second := AdmitsNext(cfg, honest, first, c);
    var third := ClearsNext(cfg, honest, second, 2, c);
    trace := Finishes(cfg, honest, third, 2);
    assert trace[k] == first[k];
  }

  /** The checks of the chain are made at the admission and not again: an invocation that has been admitted is still
      granted, whatever the network says of its chain by then, as long as its discharges stand. */
  lemma {:induction false} AdmittedStillDiscloses(
      cfg: Config, honest: set<Did>, net: Network, after: Network, approved: set<Request>, a: Attempt)
    returns (trace: seq<State>, k: nat)
    requires forall d | d in honest :: ConsentsOnly(net, d, approved) && ConsentsOnly(after, d, approved)
    requires Resolves(net, cfg, a.inv, a.sender, a.leaf) && Passes(after, cfg, a.inv, a.leaf, a.matter, a.now)
    ensures trace != [] && Run(cfg, honest, trace) && k + 1 < |trace|
    ensures trace[k].net == net && trace[k].phases == [Admitted(a.inv, a.leaf)]
    ensures trace[k + 1].net == after && trace[k + 1].phases == [Admitted(a.inv, a.leaf)]
    ensures trace[|trace| - 1].net == after && trace[|trace| - 1].phases == [Disclosed(ClearedAs(after, a))]
  {
    hide Run, Resolves, Passes, Done, Next;
    var first := Setup(cfg, honest, net, approved);
    first := AdmitsNext(cfg, honest, first, a);
    k := |first| - 1;
    var s := first[k];
    var t := s.(net := after);
    ElsewhereIsNext(cfg, honest, s, t);
    AppendRun(cfg, honest, first, t);
    var second := ClearsNext(cfg, honest, first + [t], 0, a);
    trace := Finishes(cfg, honest, second, 0);
    assert trace[k] == (first + [t])[k] && trace[k + 1] == (first + [t])[k + 1];
  }

  lemma {:induction false} SingleState(cfg: Config, honest: set<Did>, s: State)
    ensures Steps(cfg, honest, [s])
  {
  }
}
