/** A network that exists: the Sovereign grants one capability, its holder signs for any number of challenges. The
    runs that break a guarantee are instantiated with it, so that each of them is a run the monitor can be led into. */
module Witnesses {
  import opened Wrappers
  import opened Text
  import opened Capability
  import opened Attenuation
  import opened AttenuationTheory
  import opened Monitor
  import opened MonitorRuns

  const SOVEREIGN := "s"
  const HOLDER := "h"
  const GRANT := "v"
  const GRANTED := AuthoritySet({"read"}, {"diary"})

  function GrantCaveats(pointer: Option<StatusPointer>): Caveats {
    Caveats(Some(1.0), None, None, None, None, false, [], pointer)
  }

  function Shown(pointer: Option<StatusPointer>): Disclosure {
    Disclosure(GRANTED, "salt", Some(GrantCaveats(pointer)))
  }

  function RootBody(pointer: Option<StatusPointer>): Body {
    Body(SOVEREIGN, HOLDER, STATEMENT, "lineage", 0, CommitOf(Shown(pointer)), None)
  }

  function RootVersion(pointer: Option<StatusPointer>): Version {
    Version("1", SOVEREIGN,
            Some(Pic("lineage", 0, None, CommitOf(Shown(pointer)), None, Some(Assertion(RootBody(pointer), Some("s#key"))))))
  }

  function WorldWith(pointer: Option<StatusPointer>): World {
    World(map[GRANT := [RootVersion(pointer)]], {(SOVEREIGN, RootBody(pointer))})
  }

  function ProofFor(challenge: string, txn: string): HolderProof {
    HolderProof(challenge, GRANT, txn)
  }

  /** The holder has signed for these pairs of a challenge and a transaction. */
  function NetworkWith(
      pointer: Option<StatusPointer>, status: (Option<Caveats>, Did) -> HopStatus, asked: set<(string, string)>): Network
  {
    Network(WorldWith(pointer), status, set k | k in asked :: (HOLDER, ProofFor(k.0, k.1)), {})
  }

  function Setting(): Config {
    Config(SOVEREIGN, false, None, _ => None)
  }

  function AttemptOf(pointer: Option<StatusPointer>, challenge: string, txn: string): Attempt {
    var act := Act("read", "diary", Args("claim", "kind", []), txn);
    var shown := Presentation(GRANT, map[GRANT := Shown(pointer)], ProofFor(challenge, txn), Some("h#key"));
    Attempt(Invocation(shown, act, []), HOLDER, Leaf(GRANT, HOLDER, GRANTED, GrantCaveats(pointer)), Matter(SOVEREIGN, 0.5), 0)
  }

  lemma {:induction false} Names()
    ensures UpToHash("s#key") == SOVEREIGN && UpToHash("h#key") == HOLDER
  {
    assert UpToHash("#key") == "";
    assert "s#key"[1..] == "#key" && "h#key"[1..] == "#key";
  }

  /** The chain of one hop is accepted as long as its status is not revoked and not unavailable. */
  lemma {:induction false} ChainIsAccepted(
      pointer: Option<StatusPointer>, status: (Option<Caveats>, Did) -> HopStatus, asked: set<(string, string)>)
    requires status(Some(GrantCaveats(pointer)), SOVEREIGN) in {Live, NoStatus}
    ensures var p := PolicyOf(NetworkWith(pointer, status, asked), Setting(), map[GRANT := Shown(pointer)]);
            Verdict(WorldWith(pointer), p, GRANT) == Accept(1, HOLDER, Some(Shown(pointer)))
  {
    hide Verdict;
    var w, p := WorldWith(pointer), PolicyOf(NetworkWith(pointer, status, asked), Setting(), map[GRANT := Shown(pointer)]);
    var h := Hop(GRANT, RootVersion(pointer));
    assert Walk(w.ledger, GRANT, None, MAX_HOPS) == [h];
    Names();
    assert HopSound(w, p, h) && OriginSound(p, h);
    AcceptIffSound(w, p, GRANT);
  }

  lemma {:induction false} AttemptResolves(
      pointer: Option<StatusPointer>, status: (Option<Caveats>, Did) -> HopStatus, asked: set<(string, string)>,
      challenge: string, txn: string)
    requires status(Some(GrantCaveats(pointer)), SOVEREIGN) in {Live, NoStatus} && (challenge, txn) in asked
    ensures var a := AttemptOf(pointer, challenge, txn);
            Resolves(NetworkWith(pointer, status, asked), Setting(), a.inv, a.sender, a.leaf)
  {
    hide Verdict;
    ChainIsAccepted(pointer, status, asked);
    Names();
    var net, a := NetworkWith(pointer, status, asked), AttemptOf(pointer, challenge, txn);
    assert (HOLDER, ProofFor(challenge, txn)) in net.holderProofs;
    assert "diary" in GRANTED.resources && TargetWithin("diary", "diary");
  }

  lemma {:induction false} AttemptPasses(
      pointer: Option<StatusPointer>, status: (Option<Caveats>, Did) -> HopStatus, asked: set<(string, string)>,
      challenge: string, txn: string)
    ensures var a := AttemptOf(pointer, challenge, txn);
            Passes(NetworkWith(pointer, status, asked), Setting(), a.inv, a.leaf, a.matter, a.now)
  {
  }

  lemma {:induction false} NobodyConsented(
      honest: set<Did>, pointer: Option<StatusPointer>, status: (Option<Caveats>, Did) -> HopStatus, asked: set<(string, string)>)
    ensures forall d | d in honest :: ConsentsOnly(NetworkWith(pointer, status, asked), d, {})
  {
  }

  function AlwaysLive(): (Option<Caveats>, Did) -> HopStatus {
    (c, d) => Live
  }

  /** Any one transaction can be granted twice, over any two challenges. */
  lemma {:induction false} OneTransactionTwice(honest: set<Did>, txn: string, ch: string, ch': string)
    returns (trace: seq<State>)
    requires ch != ch'
    ensures trace != [] && Run(Setting(), honest, trace)
    ensures var s := trace[|trace| - 1];
            && |s.phases| == 2 && s.phases[0].Disclosed? && s.phases[1].Disclosed?
            && TxnOf(s.phases[0].c) == txn == TxnOf(s.phases[1].c)
  {
    hide Run, Resolves, Passes, NetworkWith;
    var net := NetworkWith(None, AlwaysLive(), {(ch, txn), (ch', txn)});
    var a, b := AttemptOf(None, ch, txn), AttemptOf(None, ch', txn);
    AttemptResolves(None, AlwaysLive(), {(ch, txn), (ch', txn)}, ch, txn);
    AttemptResolves(None, AlwaysLive(), {(ch, txn), (ch', txn)}, ch', txn);
    AttemptPasses(None, AlwaysLive(), {(ch, txn), (ch', txn)}, ch, txn);
    AttemptPasses(None, AlwaysLive(), {(ch, txn), (ch', txn)}, ch', txn);
    NobodyConsented(honest, None, AlwaysLive(), {(ch, txn), (ch', txn)});
    trace := OverlapGrantsBoth(Setting(), honest, net, {}, a, b);
  }

  /** The mark of any transaction can be lost, and the transaction granted again after everybody was done. */
  lemma {:induction false} MarkLostForGood(
      honest: set<Did>, txn: string, other: string, ch: string, ch': string, ch'': string)
    returns (trace: seq<State>, k: nat)
    requires txn != other && ch != ch' && ch != ch'' && ch' != ch''
    ensures trace != [] && Run(Setting(), honest, trace) && k < |trace|
    ensures |trace[k].phases| == 2 && trace[k].phases[0].Disclosed? && trace[k].phases[1].Disclosed?
    ensures var s := trace[|trace| - 1];
            && |s.phases| == 3 && s.phases[0].Disclosed? && s.phases[2].Disclosed?
            && TxnOf(s.phases[0].c) == txn == TxnOf(s.phases[2].c)
  {
    hide Run, Resolves, Passes, NetworkWith;
    var asked := {(ch, txn), (ch', other), (ch'', txn)};
    var net := NetworkWith(None, AlwaysLive(), asked);
    AttemptResolves(None, AlwaysLive(), asked, ch, txn);
    AttemptResolves(None, AlwaysLive(), asked, ch', other);
    AttemptResolves(None, AlwaysLive(), asked, ch'', txn);
    AttemptPasses(None, AlwaysLive(), asked, ch, txn);
    AttemptPasses(None, AlwaysLive(), asked, ch', other);
    AttemptPasses(None, AlwaysLive(), asked, ch'', txn);
    NobodyConsented(honest, None, AlwaysLive(), asked);
    trace, k := LostMarkReplays(
      Setting(), honest, net, {}, AttemptOf(None, ch, txn), AttemptOf(None, ch', other), AttemptOf(None, ch'', txn));
  }
}
