/** The invocation reference monitor: challenges that are burned, transactions that are spent, and consent that is
    bound to a digest of the act. */
module Monitor {
  import opened Wrappers
  import opened Text
  import opened Capability
  import opened Attenuation

  // ---------- challenges ----------

  datatype Purpose = ForInvocation | ForDelegation

  datatype Entry = Entry(purpose: Purpose, exp: int, reusable: bool)

  predicate Answers(live: map<string, Entry>, challenge: string, purpose: Purpose, now: int) {
    challenge in live && live[challenge].purpose == purpose && now <= live[challenge].exp
  }

  /** What is left after a challenge was answered: a single-use one is gone, and so is a stale one. */
  function Burned(live: map<string, Entry>, challenge: string, purpose: Purpose, now: int): map<string, Entry> {
    if challenge in live && !(live[challenge].reusable && Answers(live, challenge, purpose, now)) then live - {challenge}
    else live
  }

  class ChallengeStore {
    var live: map<string, Entry>

    constructor ()
      ensures live == map[]
    {
      live := map[];
    }

    method Mint(challenge: string, purpose: Purpose, now: int, ttl: int, reusable: bool)
      modifies this
      ensures live == old(live)[challenge := Entry(purpose, now + ttl, reusable)]
    {
      live := live[challenge := Entry(purpose, now + ttl, reusable)];
    }

    method Consume(challenge: string, purpose: Purpose, now: int) returns (ok: bool)
      modifies this
      ensures ok <==> challenge in old(live) && old(live)[challenge].purpose == purpose
                      && now <= old(live)[challenge].exp
      ensures challenge in live <==> challenge in old(live) && old(live)[challenge].reusable && ok
      ensures live - {challenge} == old(live) - {challenge}
      ensures challenge in live ==> live[challenge] == old(live)[challenge]
      ensures ok == Answers(old(live), challenge, purpose, now)
      ensures live == Burned(old(live), challenge, purpose, now)
    {
      if challenge !in live {
        return false;
      }
      var e := live[challenge];
      ok := e.purpose == purpose && now <= e.exp;
      if !e.reusable || !ok {
        live := live - {challenge};
      }
    }
  }

  // ---------- the invocation ----------

  datatype Args = Args(claim: string, kind: string, leaves: seq<int>)

  datatype Act = Act(action: string, target: string, args: Args, txn: string)

  /** A hash of exactly these fields; the leaf indices are sorted first, so only their multiset matters. */
  datatype Digest = Digest(
    txn: string, attests: string, claim: string, kind: string, owner: Did, audience: Did, sensitivity: real,
    leaves: multiset<int>)

  datatype DischargeBody = DischargeBody(party: Did, txn: string, attests: string, digest: Digest, level: int)

  datatype Discharge = Discharge(body: DischargeBody, proof: Option<string>)

  datatype HolderProof = HolderProof(challenge: string, leafVcDid: Did, txn: string)

  datatype Presentation = Presentation(
    leafVcDid: Did, disclosed: map<Did, Disclosure>, bound: HolderProof, proof: Option<string>)

  datatype Invocation = Invocation(chain: Presentation, act: Act, discharges: seq<Discharge>)

  /** The part of the world that verifies signatures and resolves documents and status lists. */
  datatype Network = Network(
    world: World, status: (Option<Caveats>, Did) -> HopStatus,
    holderProofs: set<(Did, HolderProof)>, discharges: set<(Did, DischargeBody)>)

  datatype Config = Config(sovereign: Did, requireStatus: bool, requiresHumanAt: Option<real>, clock: string -> Option<int>)

  datatype Leaf = Leaf(id: Did, holder: Did, authority: AuthoritySet, caveats: Caveats)

  const MAX_HOPS := 64
  const POLICY_CONSENT := "human-consent"

  function PolicyOf(net: Network, cfg: Config, disclosed: map<Did, Disclosure>): Policy {
    Policy(Some(cfg.sovereign), disclosed, MAX_HOPS, true, true, cfg.requireStatus, Some(net.status), true)
  }

  /** The operation is granted, and the target is a resource that is granted or extends one. */
  predicate InAuthority(act: Act, a: AuthoritySet) {
    act.action in a.operations && exists r :: r in a.resources && TargetExtends(act.target, r)
  }

  predicate WithinAuthority(act: Act, a: AuthoritySet) {
    act.action in a.operations && exists r | r in a.resources :: TargetWithin(act.target, r)
  }

  function SignerOfProof(proof: Option<string>): Did {
    UpToHash(proof.GetOr(""))
  }

  predicate ProofBound(inv: Invocation) {
    inv.chain.proof.Some? && inv.chain.bound.leafVcDid == inv.chain.leafVcDid && inv.chain.bound.txn == inv.act.txn
  }

  predicate ProofBy(net: Network, inv: Invocation, holder: Did) {
    NamedBy(inv.chain.proof, holder) && (holder, inv.chain.bound) in net.holderProofs
  }

  /** The chain is accepted and its leaf is well formed: what is asked before the challenge is burned. */
  function BoundLeaf(net: Network, cfg: Config, inv: Invocation): Option<Leaf> {
    var r := Verdict(net.world, PolicyOf(net, cfg, inv.chain.disclosed), inv.chain.leafVcDid);
    if cfg.sovereign == "" || !r.Accept? || r.holder == "" || r.leaf.None? || r.leaf.value.caveats.None?
       || r.leaf.value.caveats.value.ceiling.None?
    then None
    else Some(Leaf(inv.chain.leafVcDid, r.holder, r.leaf.value.authority, r.leaf.value.caveats.value))
  }

  /** Everything that a resolved invocation has, besides the challenge. */
  predicate Resolves(net: Network, cfg: Config, inv: Invocation, fromDid: Did, leaf: Leaf) {
    && BoundLeaf(net, cfg, inv) == Some(leaf) && ProofBound(inv) && ProofBy(net, inv, leaf.holder)
    && (fromDid != "" ==> fromDid == leaf.holder)
    && InAuthority(inv.act, leaf.authority)
  }

  lemma {:induction false} WithinIsInAuthority(act: Act, a: AuthoritySet)
    ensures WithinAuthority(act, a) <==> InAuthority(act, a)
  {
    forall r ensures TargetWithin(act.target, r) <==> TargetExtends(act.target, r) { TargetIsWithin(act.target, r); }
  }

  lemma {:induction false} TargetIsExtension(target: string, r: string)
    ensures TargetExtends(target, r)
       <==> target == r || r + "/" <= target || r + "?" <= target || r + ":" <= target
  {
    TargetIsWithin(target, r);
  }

  /** resolveChainInvocation. The challenge is burned once the chain has been accepted and the proof is bound to
      this invocation, whatever becomes of the invocation then. */
  method ResolveChainInvocation(
      net: Network, cfg: Config, inv: Invocation, fromDid: Did, now: int, store: ChallengeStore)
    returns (leaf: Option<Leaf>)
    modifies store
    ensures leaf.Some? <==> Answers(old(store.live), inv.chain.bound.challenge, ForInvocation, now)
                            && exists l :: Resolves(net, cfg, inv, fromDid, l)
    ensures leaf.Some? ==> Resolves(net, cfg, inv, fromDid, leaf.value)
    ensures store.live == if BoundLeaf(net, cfg, inv).Some? && inv.chain.proof.Some?
                             && inv.chain.bound.leafVcDid == inv.chain.leafVcDid && inv.chain.bound.txn == inv.act.txn
                          then Burned(old(store.live), inv.chain.bound.challenge, ForInvocation, now) else old(store.live)
  {
    if cfg.sovereign == "" {
      return None;
    }
    var result := VerifyAttenuationChain(net.world, PolicyOf(net, cfg, inv.chain.disclosed), inv.chain.leafVcDid);
    if !result.Accept? {
      return None;
    }
    if result.holder == "" || result.leaf.None? || result.leaf.value.caveats.None? {
      return None;
    }
    var holder, caveats := result.holder, result.leaf.value.caveats.value;
    if caveats.ceiling.None? {
      return None;
    }
    if inv.chain.proof.None? {
      return None;
    }
    if inv.chain.bound.leafVcDid != inv.chain.leafVcDid || inv.chain.bound.txn != inv.act.txn {
      return None;
    }
    var ok := store.Consume(inv.chain.bound.challenge, ForInvocation, now);
    if !ok {
      return None;
    }
    var signer := SignerOfProof(inv.chain.proof);
    UpToHashIs(inv.chain.proof.value, holder);
    if (signer, inv.chain.bound) !in net.holderProofs {
      return None;
    }
    if signer != holder {
      return None;
    }
    if fromDid != "" && fromDid != holder {
      return None;
    }
    var l := Leaf(inv.chain.leafVcDid, holder, result.leaf.value.authority, caveats);
    WithinIsInAuthority(inv.act, l.authority);
    if !WithinAuthority(inv.act, l.authority) {
      return None;
    }
    assert Resolves(net, cfg, inv, fromDid, l);
    return Some(l);
  }

  // ---------- consent ----------

  /** What the Warden discloses if it grants: computed by the Warden, not taken from the wire. */
  datatype Matter = Matter(owner: Did, sensitivity: real)

  function OwnerFor(leaf: Leaf, m: Matter): Did {
    leaf.caveats.owner.GetOr(m.owner)
  }

  function ExpectedDigest(inv: Invocation, attests: string, leaf: Leaf, m: Matter): Digest {
    Digest(inv.act.txn, attests, inv.act.args.claim, inv.act.args.kind, OwnerFor(leaf, m),
           leaf.caveats.audience.GetOr(leaf.holder), m.sensitivity, multiset(inv.act.args.leaves))
  }

  predicate Satisfies(net: Network, d: Discharge, inv: Invocation, party: Did, attests: string, leaf: Leaf, m: Matter) {
    && d.body.party == party && d.body.txn == inv.act.txn && d.body.attests == attests
    && d.body.digest == Digest(inv.act.txn, attests, inv.act.args.claim, inv.act.args.kind,
                               leaf.caveats.owner.GetOr(m.owner), leaf.caveats.audience.GetOr(leaf.holder),
                               m.sensitivity, multiset(inv.act.args.leaves))
    && NamedBy(d.proof, party) && (party, d.body) in net.discharges
  }

  predicate DischargedBy(net: Network, inv: Invocation, party: Did, attests: string, leaf: Leaf, m: Matter) {
    exists d | d in inv.discharges :: Satisfies(net, d, inv, party, attests, leaf, m)
  }

  method HasValidDischarge(net: Network, inv: Invocation, party: Did, attests: string, leaf: Leaf, m: Matter)
    returns (ok: bool)
    ensures ok == DischargedBy(net, inv, party, attests, leaf, m)
  {
    var expected := ExpectedDigest(inv, attests, leaf, m);
    for i := 0 to |inv.discharges|
      invariant forall d | d in inv.discharges[..i] :: !Satisfies(net, d, inv, party, attests, leaf, m)
    {
      var d := inv.discharges[i];
      if d.body.party != party || d.body.txn != inv.act.txn || d.body.attests != attests || d.body.digest != expected
         || d.proof.None? {
        continue;
      }
      var signer := SignerOfProof(d.proof);
      UpToHashIs(d.proof.value, party);
      if (signer, d.body) !in net.discharges {
        continue;
      }
      if signer == party {
        assert Satisfies(net, d, inv, party, attests, leaf, m);
        return true;
      }
    }
    return false;
  }

  datatype Denial = Replay | Expired | CapabilitySpent | OverCeiling | NoOwner

  datatype Need = Need(party: Did, attests: string)

  datatype Decision = Allow | Deny(why: Denial) | Wants(needs: seq<Need>)

  function UnmetCaveats(net: Network, inv: Invocation, ds: seq<ThirdPartyCaveat>, leaf: Leaf, m: Matter): seq<Need> {
    if ds == [] then []
    else
      var d, before := ds[|ds| - 1], UnmetCaveats(net, inv, ds[..|ds| - 1], leaf, m);
      if DischargedBy(net, inv, d.party, d.attests, leaf, m) then before else before + [Need(d.party, d.attests)]
  }

  predicate NeedsHuman(cfg: Config, m: Matter) {
    cfg.requiresHumanAt.Some? && m.sensitivity >= cfg.requiresHumanAt.value
  }

  function Unmet(net: Network, cfg: Config, inv: Invocation, leaf: Leaf, m: Matter): seq<Need> {
    var needs := UnmetCaveats(net, inv, leaf.caveats.requiresDischarge, leaf, m);
    var consent := Need(OwnerFor(leaf, m), POLICY_CONSENT);
    if NeedsHuman(cfg, m) && consent !in needs && !DischargedBy(net, inv, consent.party, POLICY_CONSENT, leaf, m)
    then needs + [consent] else needs
  }

  function CapKey(leaf: Leaf): string {
    "cap:" + leaf.id
  }

  function Decide(
      spent: set<string>, net: Network, cfg: Config, inv: Invocation, leaf: Leaf, m: Matter, now: int): Decision
    requires leaf.caveats.ceiling.Some?
  {
    if inv.act.txn in spent then Deny(Replay)
    else if !Alive(leaf.caveats.expires, now, cfg.clock) then Deny(Expired)
    else if leaf.caveats.singleUse && CapKey(leaf) in spent then Deny(CapabilitySpent)
    else if m.sensitivity > leaf.caveats.ceiling.value then Deny(OverCeiling)
    else if NeedsHuman(cfg, m) && OwnerFor(leaf, m) == "" then Deny(NoOwner)
    else if Unmet(net, cfg, inv, leaf, m) != [] then Wants(Unmet(net, cfg, inv, leaf, m))
    else Allow
  }

  /** The single-use ledger of one verifier process, and the decision against it. */
  class Ledger {
    var spent: set<string>

    constructor ()
      ensures spent == {}
    {
      spent := {};
    }

    method MarkSpent(key: string)
      modifies this
      ensures spent == old(spent) + {key}
    {
      if key in spent {
        return;
      }
      spent := spent + {key};
    }

    method AuthorizeInvocation(net: Network, cfg: Config, inv: Invocation, leaf: Leaf, m: Matter, now: int)
      returns (r: Decision)
      requires leaf.caveats.ceiling.Some?
      modifies this
      ensures r == Decide(old(spent), net, cfg, inv, leaf, m, now)
      ensures r != Allow ==> spent == old(spent)
      ensures r == Allow ==>
                spent == old(spent) + {inv.act.txn} + if leaf.caveats.singleUse then {"cap:" + leaf.id} else {}
    {
      if inv.act.txn in spent {
        return Deny(Replay);
      }
      if leaf.caveats.expires.Some? && leaf.caveats.expires.value != "" {
        var exp := cfg.clock(leaf.caveats.expires.value);
        if exp.None? || exp.value <= now {
          return Deny(Expired);
        }
      }
      if leaf.caveats.singleUse && CapKey(leaf) in spent {
        return Deny(CapabilitySpent);
      }
      if m.sensitivity > leaf.caveats.ceiling.value {
        return Deny(OverCeiling);
      }
      var ds := leaf.caveats.requiresDischarge;
      var unmet: seq<Need> := [];
      for i := 0 to |ds|
        invariant unmet == UnmetCaveats(net, inv, ds[..i], leaf, m)
        invariant spent == old(spent)
      {
        var ok := HasValidDischarge(net, inv, ds[i].party, ds[i].attests, leaf, m);
        assert ds[..i + 1][..i] == ds[..i];
        if !ok {
          unmet := unmet + [Need(ds[i].party, ds[i].attests)];
        }
      }
      assert ds[..|ds|] == ds;
      if cfg.requiresHumanAt.Some? && m.sensitivity >= cfg.requiresHumanAt.value {
        var owner := OwnerFor(leaf, m);
        if owner == "" {
          return Deny(NoOwner);
        }
        if Need(owner, POLICY_CONSENT) !in unmet {
          var ok := HasValidDischarge(net, inv, owner, POLICY_CONSENT, leaf, m);
          if !ok {
            unmet := unmet + [Need(owner, POLICY_CONSENT)];
          }
        }
      }
      if unmet != [] {
        return Wants(unmet);
      }
      MarkSpent(inv.act.txn);
      if leaf.caveats.singleUse {
        MarkSpent(CapKey(leaf));
      }
      return Allow;
    }
  }

  // ---------- what an allowed invocation has ----------

  lemma {:induction false} AllCaveatsMet(
      net: Network, inv: Invocation, ds: seq<ThirdPartyCaveat>, leaf: Leaf, m: Matter)
    ensures UnmetCaveats(net, inv, ds, leaf, m) == []
       <==> forall d | d in ds :: DischargedBy(net, inv, d.party, d.attests, leaf, m)
  {
    if ds != [] {
      AllCaveatsMet(net, inv, ds[..|ds| - 1], leaf, m);
      assert ds == ds[..|ds| - 1] + [ds[|ds| - 1]];
    }
  }

  /** The capability says no expiry, or one that can be read and is still to come. */
  predicate InTime(c: Caveats, now: int, clock: string -> Option<int>) {
    c.expires.Some? && c.expires.value != "" ==> clock(c.expires.value).Some? && now < clock(c.expires.value).value
  }

  /** The disclosure is at or above the threshold from which a human is asked. */
  predicate AtThreshold(cfg: Config, m: Matter) {
    cfg.requiresHumanAt.Some? && m.sensitivity >= cfg.requiresHumanAt.value
  }

  /** Neither the transaction nor a capability that may be used once is marked. */
  predicate Unspent(spent: set<string>, inv: Invocation, leaf: Leaf) {
    inv.act.txn !in spent && (leaf.caveats.singleUse ==> "cap:" + leaf.id !in spent)
  }

  /** The pure part of the decision, without its order: alive, within the ceiling, every required discharge there, and
      the consent of a named owner for what is at or above the threshold. */
  predicate Authorizes(net: Network, cfg: Config, inv: Invocation, leaf: Leaf, m: Matter, now: int)
    requires leaf.caveats.ceiling.Some?
  {
    && InTime(leaf.caveats, now, cfg.clock) && m.sensitivity <= leaf.caveats.ceiling.value
    && (forall d | d in leaf.caveats.requiresDischarge :: DischargedBy(net, inv, d.party, d.attests, leaf, m))
    && (cfg.requiresHumanAt.Some? && m.sensitivity >= cfg.requiresHumanAt.value ==>
          var owner := leaf.caveats.owner.GetOr(m.owner);
          owner != "" && DischargedBy(net, inv, owner, "human-consent", leaf, m))
  }

  lemma {:induction false} AllowedIff(
      spent: set<string>, net: Network, cfg: Config, inv: Invocation, leaf: Leaf, m: Matter, now: int)
    requires leaf.caveats.ceiling.Some?
    ensures Decide(spent, net, cfg, inv, leaf, m, now) == Allow
       <==> Unspent(spent, inv, leaf) && Authorizes(net, cfg, inv, leaf, m, now)
  {
    hide DischargedBy;
    AllCaveatsMet(net, inv, leaf.caveats.requiresDischarge, leaf, m);
  }

  /** Each refusal, and in which order they come. */
  lemma {:induction false} DeniedIff(
      spent: set<string>, net: Network, cfg: Config, inv: Invocation, leaf: Leaf, m: Matter, now: int)
    requires leaf.caveats.ceiling.Some?
    ensures var d := Decide(spent, net, cfg, inv, leaf, m, now);
            var used := leaf.caveats.singleUse && "cap:" + leaf.id in spent;
            var live := InTime(leaf.caveats, now, cfg.clock);
            var within := m.sensitivity <= leaf.caveats.ceiling.value;
            && (d == Deny(Replay) <==> inv.act.txn in spent)
            && (d == Deny(Expired) <==> inv.act.txn !in spent && !live)
            && (d == Deny(CapabilitySpent) <==> inv.act.txn !in spent && live && used)
            && (d == Deny(OverCeiling) <==> inv.act.txn !in spent && live && !used && !within)
            && (d == Deny(NoOwner) <==>
                  inv.act.txn !in spent && live && !used && within && AtThreshold(cfg, m)
                  && leaf.caveats.owner.GetOr(m.owner) == "")
  {
    hide DischargedBy, UnmetCaveats;
  }

  /** What is asked for when consent is missing: exactly the required discharges that are not there, and the consent
      of the owner if it is required and not there. */
  lemma {:induction false} WantedIff(
      spent: set<string>, net: Network, cfg: Config, inv: Invocation, leaf: Leaf, m: Matter, now: int, need: Need)
    requires leaf.caveats.ceiling.Some? && Decide(spent, net, cfg, inv, leaf, m, now).Wants?
    ensures need in Decide(spent, net, cfg, inv, leaf, m, now).needs
       <==> !DischargedBy(net, inv, need.party, need.attests, leaf, m)
            && ((exists d :: d in leaf.caveats.requiresDischarge && d.party == need.party && d.attests == need.attests)
                || (AtThreshold(cfg, m) && need == Need(leaf.caveats.owner.GetOr(m.owner), "human-consent")))
  {
    hide DischargedBy;
    UnmetAre(net, inv, leaf.caveats.requiresDischarge, leaf, m, need);
    UnmetAre(net, inv, leaf.caveats.requiresDischarge, leaf, m, Need(leaf.caveats.owner.GetOr(m.owner), "human-consent"));
  }

  lemma {:induction false} UnmetAre(net: Network, inv: Invocation, ds: seq<ThirdPartyCaveat>, leaf: Leaf, m: Matter, need: Need)
    ensures need in UnmetCaveats(net, inv, ds, leaf, m)
       <==> !DischargedBy(net, inv, need.party, need.attests, leaf, m)
            && exists d :: d in ds && d.party == need.party && d.attests == need.attests
  {
    hide DischargedBy;
    if ds != [] {
      UnmetAre(net, inv, ds[..|ds| - 1], leaf, m, need);
      assert ds == ds[..|ds| - 1] + [ds[|ds| - 1]];
    }
  }

  /** The needs come in the order of the caveats. */
  lemma {:induction false} UnmetInOrder(
      net: Network, inv: Invocation, a: seq<ThirdPartyCaveat>, b: seq<ThirdPartyCaveat>, leaf: Leaf, m: Matter)
    ensures UnmetCaveats(net, inv, a + b, leaf, m)
         == UnmetCaveats(net, inv, a, leaf, m) + UnmetCaveats(net, inv, b, leaf, m)
  {
    hide DischargedBy;
    if b == [] {
      assert a + b == a;
    } else {
      var n := |b| - 1;
      UnmetInOrder(net, inv, a, b[..n], leaf, m);
      assert (a + b)[..|a + b| - 1] == a + b[..n];
    }
  }

  /** And the consent of the owner, if it is asked for besides, comes last, and only once. */
  lemma {:induction false} ConsentComesLast(
      spent: set<string>, net: Network, cfg: Config, inv: Invocation, leaf: Leaf, m: Matter, now: int)
    requires leaf.caveats.ceiling.Some? && Decide(spent, net, cfg, inv, leaf, m, now).Wants?
    ensures var asked := Decide(spent, net, cfg, inv, leaf, m, now).needs;
            var missing := UnmetCaveats(net, inv, leaf.caveats.requiresDischarge, leaf, m);
            var consent := Need(leaf.caveats.owner.GetOr(m.owner), "human-consent");
            asked == missing || (asked == missing + [consent] && consent !in missing)
  {
    hide DischargedBy, UnmetCaveats;
  }

  /** Below the threshold, and when the caveats require nothing, no discharge is needed. */
  lemma {:induction false} BelowThresholdAllowed(
      spent: set<string>, net: Network, cfg: Config, inv: Invocation, leaf: Leaf, m: Matter, now: int)
    requires leaf.caveats.ceiling.Some? && m.sensitivity <= leaf.caveats.ceiling.value
    requires leaf.caveats.requiresDischarge == [] && Unspent(spent, inv, leaf) && InTime(leaf.caveats, now, cfg.clock)
    requires cfg.requiresHumanAt.Some? ==> m.sensitivity < cfg.requiresHumanAt.value
    ensures Decide(spent, net, cfg, inv.(discharges := []), leaf, m, now) == Allow
  {
    AllowedIff(spent, net, cfg, inv.(discharges := []), leaf, m, now);
  }

  // ---------- the owner's Signet ----------

  /** What the Signet shows to the human and signs a digest of. */
  datatype Request = Request(
    txn: string, party: Did, attests: string, claim: string, kind: string, owner: Did, audience: Did, sensitivity: real,
    leaves: seq<int>)

  function DigestOf(r: Request): Digest {
    Digest(r.txn, r.attests, r.claim, r.kind, r.owner, r.audience, r.sensitivity, multiset(r.leaves))
  }

  function SignedBody(r: Request, level: int): DischargeBody {
    DischargeBody(r.party, r.txn, r.attests, DigestOf(r), level)
  }

  /** Every discharge that the owner's key signed is one that its Signet signed for a request the human approved. */
  ghost predicate ConsentsOnly(net: Network, owner: Did, approved: set<Request>) {
    forall b | (owner, b) in net.discharges :: exists r, level :: r in approved && b == SignedBody(r, level)
  }

  /** The request is about exactly this act. */
  predicate RequestFor(r: Request, inv: Invocation, leaf: Leaf, m: Matter) {
    && r.txn == inv.act.txn && r.party == OwnerFor(leaf, m) && r.attests == POLICY_CONSENT
    && r.claim == inv.act.args.claim && r.kind == inv.act.args.kind && r.owner == OwnerFor(leaf, m)
    && r.audience == leaf.caveats.audience.GetOr(leaf.holder) && r.sensitivity == m.sensitivity
    && multiset(r.leaves) == multiset(inv.act.args.leaves)
  }

  /** A disclosure at or above the human threshold rests on a consent for exactly that disclosure. */
  lemma {:induction false} ConsentIsForThisAct(
      net: Network, cfg: Config, inv: Invocation, leaf: Leaf, m: Matter, now: int, approved: set<Request>)
    requires leaf.caveats.ceiling.Some? && Authorizes(net, cfg, inv, leaf, m, now)
    requires cfg.requiresHumanAt.Some? && m.sensitivity >= cfg.requiresHumanAt.value
    requires ConsentsOnly(net, OwnerFor(leaf, m), approved)
    ensures exists r | r in approved :: RequestFor(r, inv, leaf, m)
  {
    var owner := OwnerFor(leaf, m);
    var d :| d in inv.discharges && Satisfies(net, d, inv, owner, POLICY_CONSENT, leaf, m);
    var r, level :| r in approved && d.body == SignedBody(r, level);
    assert DigestOf(r) == ExpectedDigest(inv, POLICY_CONSENT, leaf, m);
    assert RequestFor(r, inv, leaf, m);
  }

  /** The discharge that answers a request of the Warden satisfies the monitor for that act and for no other. */
  lemma {:induction false} DischargeFitsOneAct(
      net: Network, r: Request, level: int, proof: string, inv: Invocation, leaf: Leaf, m: Matter)
    requires UpToHash(proof) == r.party && (r.party, SignedBody(r, level)) in net.discharges
    requires r.attests == POLICY_CONSENT && r.party == r.owner
    ensures Satisfies(net, Discharge(SignedBody(r, level), Some(proof)), inv, OwnerFor(leaf, m), POLICY_CONSENT, leaf, m)
       <==> RequestFor(r, inv, leaf, m)
  {
    UpToHashIs(proof, r.party);
  }

  // ---------- the response of the evidence service ----------

  datatype Response = NotAuthorized | Refused(why: Denial) | NoChannel | Declined | StillWants | Granted(recipient: Did)

  function ResponseTo(d: Decision, leaf: Leaf): Response {
    match d
    case Allow => Granted(leaf.caveats.audience.GetOr(leaf.holder))
    case Deny(why) => if why == OverCeiling || why == NoOwner then NotAuthorized else Refused(why)
    case Wants(_) => StillWants
  }

  /** The discharges that the designated Signets return, as long as none declines. */
  function Collect(needs: seq<Need>, ask: Need -> Option<Discharge>): Option<seq<Discharge>> {
    if needs == [] then Some([])
    else
      var before, d := Collect(needs[..|needs| - 1], ask), ask(needs[|needs| - 1]);
      if before.None? || d.None? then None else Some(before.value + [d.value])
  }

  function WithDischarges(inv: Invocation, more: seq<Discharge>): Invocation {
    inv.(discharges := inv.discharges + more)
  }

  /** The answer to a resolved invocation, the assembled evidence being absent or of some sensitivity; then, in
      the consent step, asked of the Signets through the channel if there is one. By the time they have answered it is
      later, and the network may have changed. */
  function Respond(
      spent: set<string>, net: Network, cfg: Config, inv: Invocation, leaf: Leaf, assembled: Option<Matter>, now: int,
      channel: Option<Need -> Option<Discharge>>, after: Network, later: int): Response
    requires leaf.caveats.ceiling.Some?
  {
    if !AllowsKind(leaf.caveats, inv.act.args.kind) || assembled.None? then NotAuthorized
    else
      var d := Decide(spent, net, cfg, inv, leaf, assembled.value, now);
      if !d.Wants? then ResponseTo(d, leaf)
      else if channel.None? then NoChannel
      else
        match Collect(d.needs, channel.value)
        case None => Declined
        case Some(more) =>
          ResponseTo(Decide(spent, after, cfg, WithDischarges(inv, more), leaf, assembled.value, later), leaf)
  }

  /** Evidence above the holder's ceiling looks the same as no evidence exactly when the checks that come before
      the ceiling pass: a spent transaction, an expired or a spent capability answers differently. */
  lemma {:induction false} CeilingIsHidden(
      spent: set<string>, net: Network, cfg: Config, inv: Invocation, leaf: Leaf, m: Matter, now: int,
      channel: Option<Need -> Option<Discharge>>, after: Network, later: int)
    requires leaf.caveats.ceiling.Some? && m.sensitivity > leaf.caveats.ceiling.value
    ensures Respond(spent, net, cfg, inv, leaf, Some(m), now, channel, after, later)
         == Respond(spent, net, cfg, inv, leaf, None, now, channel, after, later)
       <==> !AllowsKind(leaf.caveats, inv.act.args.kind)
            || (Unspent(spent, inv, leaf) && InTime(leaf.caveats, now, cfg.clock))
  {
    DeniedIff(spent, net, cfg, inv, leaf, m, now);
  }

  /** The discharges that a grant rested on: the ones presented, or those with the ones the channel returned. */
  function Done(net: Network, inv: Invocation, leaf: Leaf, m: Matter): (r: set<(Did, string)>)
    ensures forall p | p in r :: DischargedBy(net, inv, p.0, p.1, leaf, m)
  {
    set d | d in leaf.caveats.requiresDischarge && DischargedBy(net, inv, d.party, d.attests, leaf, m) :: (d.party, d.attests)
  }

  /** What is granted names the capability's own recipient, and is within what the leaf's caveats admit. */
  lemma {:induction false} GrantedIsAdmitted(
      spent: set<string>, net: Network, cfg: Config, inv: Invocation, leaf: Leaf, m: Matter, now: int,
      channel: Option<Need -> Option<Discharge>>, after: Network, later: int)
    returns (settled: Network, full: Invocation, at: int)
    requires leaf.caveats.ceiling.Some?
    requires Respond(spent, net, cfg, inv, leaf, Some(m), now, channel, after, later).Granted?
    ensures full.act == inv.act && full.chain == inv.chain
    ensures (settled == net && at == now) || (settled == after && at == later)
    ensures var recipient := Respond(spent, net, cfg, inv, leaf, Some(m), now, channel, after, later).recipient;
            Admits(leaf.caveats,
                   Use(m.sensitivity, inv.act.args.kind, OwnerFor(leaf, m), recipient, at, Done(settled, full, leaf, m)),
                   m.owner, cfg.clock)
            && recipient == if leaf.caveats.audience.Some? then leaf.caveats.audience.value else leaf.holder
    ensures Unspent(spent, inv, leaf) && Authorizes(settled, cfg, full, leaf, m, at)
  {
    var d := Decide(spent, net, cfg, inv, leaf, m, now);
    if d == Allow {
      settled, full, at := net, inv, now;
    } else {
      settled, full, at := after, WithDischarges(inv, Collect(d.needs, channel.value).value), later;
    }
    AllowedIff(spent, settled, cfg, full, leaf, m, at);
    forall c | c in leaf.caveats.requiresDischarge ensures (c.party, c.attests) in Done(settled, full, leaf, m) {}
  }

  /** Every Signet that is asked must answer; their discharges are taken in the order of the needs. */
  lemma {:induction false} CollectIs(needs: seq<Need>, ask: Need -> Option<Discharge>)
    ensures Collect(needs, ask).Some? <==> forall i: nat | i < |needs| :: ask(needs[i]).Some?
    ensures Collect(needs, ask).Some? ==>
              |Collect(needs, ask).value| == |needs|
              && forall i: nat | i < |needs| :: Collect(needs, ask).value[i] == ask(needs[i]).value
  {
    if needs != [] {
      var n := |needs| - 1;
      CollectIs(needs[..n], ask);
      forall i: nat | i < n ensures needs[..n][i] == needs[i] {}
    }
  }

  /** What the answer tells of a decision: nothing about what is not there, above the ceiling or without an owner. */
  predicate Tells(r: Response, d: Decision) {
    match d
    case Allow => r.Granted?
    case Deny(OverCeiling) => r == NotAuthorized
    case Deny(NoOwner) => r == NotAuthorized
    case Deny(why) => r == Refused(why)
    case Wants(_) => r == StillWants
  }

  /** The answers, each with what it takes: not authorized for a kind that is not granted, evidence that is not there or
      above the ceiling, or consent without an owner; refused for a spent or expired capability or a spent transaction;
      without a channel or with a Signet that declines, consent is not there; and granted if either decision allows. */
  lemma {:induction false} RespondIs(
      spent: set<string>, net: Network, cfg: Config, inv: Invocation, leaf: Leaf, m: Matter, now: int,
      channel: Option<Need -> Option<Discharge>>, after: Network, later: int)
    requires leaf.caveats.ceiling.Some?
    requires leaf.caveats.kinds.Some? ==> inv.act.args.kind in leaf.caveats.kinds.value
    ensures var r := Respond(spent, net, cfg, inv, leaf, Some(m), now, channel, after, later);
            match Decide(spent, net, cfg, inv, leaf, m, now)
            case Wants(needs) =>
              (channel.None? ==> r == NoChannel)
              && (channel.Some? && (exists i: nat :: i < |needs| && channel.value(needs[i]).None?) ==> r == Declined)
              && (channel.Some? && (forall i: nat :: i < |needs| ==> channel.value(needs[i]).Some?) ==>
                    exists more ::
                      |more| == |needs|
                      && (forall i: nat :: i < |needs| ==> Some(more[i]) == channel.value(needs[i]))
                      && Tells(r, Decide(spent, after, cfg, inv.(discharges := inv.discharges + more), leaf, m, later)))
            case d => Tells(r, d)
  {
    hide Decide;
    var d := Decide(spent, net, cfg, inv, leaf, m, now);
    if d.Wants? && channel.Some? {
      CollectIs(d.needs, channel.value);
      if Collect(d.needs, channel.value).Some? {
        var more := Collect(d.needs, channel.value).value;
        assert |more| == |d.needs| && forall i: nat :: i < |d.needs| ==> Some(more[i]) == channel.value(d.needs[i]);
      }
    }
  }

  lemma {:induction false} CollectStops(needs: seq<Need>, i: nat, ask: Need -> Option<Discharge>)
    requires i < |needs| && ask(needs[i]).None?
    ensures Collect(needs, ask).None?
  {
    if i < |needs| - 1 {
      CollectStops(needs[..|needs| - 1], i, ask);
    }
  }

  /** The part of handleInvocation that follows the resolution: decide, ask the Signets, and decide again. */
  method HandleResolved(
      ledger: Ledger, net: Network, cfg: Config, inv: Invocation, leaf: Leaf, assembled: Option<Matter>, now: int,
      channel: Option<Need -> Option<Discharge>>, after: Network, later: int)
    returns (r: Response)
    requires leaf.caveats.ceiling.Some?
    modifies ledger
    ensures r == Respond(old(ledger.spent), net, cfg, inv, leaf, assembled, now, channel, after, later)
    ensures !r.Granted? ==> ledger.spent == old(ledger.spent)
    ensures r.Granted? ==>
              ledger.spent
              == old(ledger.spent) + {inv.act.txn} + if leaf.caveats.singleUse then {"cap:" + leaf.id} else {}
  {
    if leaf.caveats.kinds.Some? && inv.act.args.kind !in leaf.caveats.kinds.value {
      return NotAuthorized;
    }
    if assembled.None? {
      return NotAuthorized;
    }
    var decision := ledger.AuthorizeInvocation(net, cfg, inv, leaf, assembled.value, now);
    if decision.Wants? {
      if channel.None? {
        return NoChannel;
      }
      var discharges: seq<Discharge> := [];
      for i := 0 to |decision.needs|
        invariant Collect(decision.needs[..i], channel.value) == Some(discharges)
        invariant ledger.spent == old(ledger.spent)
      {
        var d := channel.value(decision.needs[i]);
        if d.None? {
          CollectStops(decision.needs, i, channel.value);
          return Declined;
        }
        assert decision.needs[..i + 1][..i] == decision.needs[..i];
        discharges := discharges + [d.value];
      }
      assert decision.needs[..|decision.needs|] == decision.needs;
      var full := WithDischarges(inv, discharges);
      decision := ledger.AuthorizeInvocation(after, cfg, full, leaf, assembled.value, later);
    }
    return ResponseTo(decision, leaf);
  }
}
