/** Runs that mix honest mints with an attacker who writes any document, signs for any party that is not honest,
    and builds hops with any of the knobs: what the verifier still guarantees about an accepted chain. */
module Confinement {
  import opened Wrappers
  import opened Text
  import opened Capability
  import opened Attenuation
  import opened AttenuationTheory
  import opened Issuance
  import opened IssuanceTheory

  /** A mint that an honest party decided on: a root, or a delegation of a handle that it holds. */
  datatype Grant =
    | RootGrant(issuer: Did, holder: Did, spec: Spec, made: Fresh)
    | ChildGrant(issuer: Did, holder: Did, spec: Spec, made: Fresh, parent: Handle)

  function ArgsOf(g: Grant): IssueArgs {
    match g
    case RootGrant(issuer, holder, spec, _) => RootArgs(issuer, holder, spec)
    case ChildGrant(issuer, holder, spec, _, parent) => ChildArgs(issuer, holder, parent, spec)
  }

  function BodyOf(g: Grant): Body {
    BodyFor(ArgsOf(g), g.made)
  }

  predicate Permitted(g: Grant) {
    g.ChildGrant? ==> MayDelegate(g.issuer, g.holder, g.parent, g.spec)
  }

  /** The world, and what the honest parties have granted so far. */
  datatype State = State(world: World, grants: set<Grant>)

  ghost predicate HonestStep(honest: set<Did>, s: State, t: State, g: Grant) {
    && g.issuer in honest && Permitted(g)
    && t == State(AfterIssue(s.world, ArgsOf(g), g.made), s.grants + {g})
  }

  /** A hop that anyone mints with any of the knobs, signed by a party whose key the attacker may use. */
  ghost predicate RawStep(honest: set<Did>, s: State, t: State, a: IssueArgs, f: Fresh) {
    SignerFor(a) !in honest && t == State(AfterIssue(s.world, a, f), s.grants)
  }

  /** Documents rewritten in any way at all. */
  ghost predicate RewriteStep(s: State, t: State) {
    t.grants == s.grants && t.world.signed == s.world.signed
  }

  ghost predicate Next(honest: set<Did>, s: State, t: State) {
    || (exists g :: HonestStep(honest, s, t, g))
    || (exists a, f :: RawStep(honest, s, t, a, f))
    || RewriteStep(s, t)
  }

  ghost predicate Run(honest: set<Did>, trace: seq<State>) {
    && trace != [] && trace[0] == State(World(map[], {}), {})
    && forall i, j | 0 <= i && i + 1 == j < |trace| :: Next(honest, trace[i], trace[j])
  }

  /** No signature of an honest party exists but by a grant of that party. */
  ghost predicate Accounted(honest: set<Did>, s: State) {
    forall d, b | (d, b) in s.world.signed && d in honest :: GrantedBy(s, d, b)
  }

  predicate GrantedBy(s: State, d: Did, b: Body) {
    exists g | g in s.grants :: g.issuer == d && BodyOf(g) == b && Permitted(g)
  }

  lemma {:induction false} SignedAfter(w: World, a: IssueArgs, f: Fresh, d: Did, b: Body)
    requires (d, b) in AfterIssue(w, a, f).signed
    ensures (d, b) in w.signed || (d == SignerFor(a) && b == BodyFor(a, f))
  {
  }

  lemma {:induction false} StepAccounted(honest: set<Did>, s: State, t: State)
    requires Next(honest, s, t) && Accounted(honest, s)
    ensures Accounted(honest, t)
  {
    hide AfterIssue, BodyFor, Permitted;
    forall d, b | (d, b) in t.world.signed && d in honest ensures GrantedBy(t, d, b) {
      if (d, b) in s.world.signed {
        var g :| g in s.grants && g.issuer == d && BodyOf(g) == b && Permitted(g);
        assert g in t.grants;
      } else if exists g :: HonestStep(honest, s, t, g) {
        var g :| HonestStep(honest, s, t, g);
        SignedAfter(s.world, ArgsOf(g), g.made, d, b);
        assert g in t.grants;
      } else {
        var a, f :| RawStep(honest, s, t, a, f);
        SignedAfter(s.world, a, f, d, b);
      }
    }
  }

  lemma {:induction false} RunAccounted(honest: set<Did>, trace: seq<State>, i: nat)
    requires Run(honest, trace) && i < |trace|
    ensures Accounted(honest, trace[i])
  {
    if i > 0 {
      RunAccounted(honest, trace, i - 1);
      assert Next(honest, trace[i - 1], trace[i]);
      StepAccounted(honest, trace[i - 1], trace[i]);
    }
  }

  /** The policy of an enforced invocation that trusts one honest root. */
  predicate Trusts(p: Policy, root: Did) {
    p.requireDisclosure && p.narrowing && p.bindDelegator && root != "" && p.expectedRoot == Some(root)
  }

  function Hops(s: State, p: Policy, leaf: Did): seq<Hop> {
    Walk(s.world.ledger, leaf, None, p.maxHops)
  }

  /** A hop that an honest party controls carries the holder, the authority and the caveats of a grant of that party. */
  predicate Designated(s: State, p: Policy, h: Hop) {
    HasPic(h) && h.did in p.disclosed
    && exists g | g in s.grants ::
         g.issuer == h.doc.controller && Permitted(g) && g.holder == HolderOf(h)
         && g.spec.authority == p.disclosed[h.did].authority
         && p.disclosed[h.did].caveats == Some(NormalizeCaveats(g.spec.caveats))
         && (g.RootGrant? <==> AssertionOf(h).body.parentAuthorityCommitment.None?)
  }

  lemma {:induction false} BodyCommits(g: Grant)
    ensures BodyOf(g).authorityCommitment
         == Commit(g.spec.authority, g.made.salt, Some(NormalizeCaveats(g.spec.caveats)))
    ensures BodyOf(g).holder == g.holder
    ensures g.RootGrant? <==> BodyOf(g).parentAuthorityCommitment.None?
  {
  }

  lemma {:induction false} HonestHopDesignated(honest: set<Did>, s: State, p: Policy, h: Hop)
    requires Accounted(honest, s) && HopSound(s.world, p, h) && p.requireDisclosure && h.doc.controller in honest
    ensures Designated(s, p, h)
  {
    hide BodyOf, Permitted, NormalizeCaveats;
    var b := AssertionOf(h).body;
    assert GrantedBy(s, h.doc.controller, b);
    var g :| g in s.grants && g.issuer == h.doc.controller && BodyOf(g) == b && Permitted(g);
    BodyCommits(g);
  }

  /** In every run, each hop of an accepted chain that has an honest controller was granted by that controller, to
      the holder that the next hop was issued by, with the very authority and caveats that are enforced. */
  lemma {:induction false} AcceptedIsDesignated(
      honest: set<Did>, trace: seq<State>, i: nat, p: Policy, leaf: Did, k: nat)
    requires Run(honest, trace) && i < |trace| && Verdict(trace[i].world, p, leaf).Accept? && p.requireDisclosure
    requires k < |Hops(trace[i], p, leaf)| && Hops(trace[i], p, leaf)[k].doc.controller in honest
    ensures Designated(trace[i], p, Hops(trace[i], p, leaf)[k])
  {
    RunAccounted(honest, trace, i);
    AcceptIffSound(trace[i].world, p, leaf);
    assert HopSound(trace[i].world, p, Hops(trace[i], p, leaf)[k]);
    HonestHopDesignated(honest, trace[i], p, Hops(trace[i], p, leaf)[k]);
  }

  /** The leaf is within a root that the trusted party granted: nothing that the attacker mints, forges, replays or
      rewrites reaches further. */
  predicate Confined(s: State, p: Policy, root: Did, leaf: Did) {
    leaf in p.disclosed && p.disclosed[leaf].caveats.Some?
    && exists g | g in s.grants ::
         g.RootGrant? && g.issuer == root
         && Within(p.disclosed[leaf].authority, g.spec.authority)
         && (p.disclosed[leaf].caveats == Some(NormalizeCaveats(g.spec.caveats))
             || CaveatsNarrow(p.disclosed[leaf].caveats.value, NormalizeCaveats(g.spec.caveats)))
  }

  lemma {:induction false} AcceptedIsConfined(
      honest: set<Did>, trace: seq<State>, i: nat, p: Policy, root: Did, leaf: Did)
    requires Run(honest, trace) && i < |trace| && Trusts(p, root) && root in honest
    requires Verdict(trace[i].world, p, leaf).Accept?
    ensures Confined(trace[i], p, root, leaf)
  {
    hide HopSound, Verdict, CaveatsNarrow, NormalizeCaveats, Permitted, Run;
    var s := trace[i];
    var hops := Hops(s, p, leaf);
    var last := |hops| - 1;
    AcceptIffSound(s.world, p, leaf);
    OriginOfAccepted(s, p, root, hops);
    AcceptedIsDesignated(honest, trace, i, p, leaf, last);
    var g :| g in s.grants && g.issuer == root && g.RootGrant?
             && g.spec.authority == p.disclosed[hops[last].did].authority
             && p.disclosed[hops[last].did].caveats == Some(NormalizeCaveats(g.spec.caveats));
    if last > 0 {
      AcceptedAttenuates(s.world, p, leaf, 0, last);
      SubsetIsWithin(p.disclosed[leaf].authority, p.disclosed[hops[last].did].authority);
    }
  }

  lemma {:induction false} OriginOfAccepted(s: State, p: Policy, root: Did, hops: seq<Hop>)
    requires Trusts(p, root) && ChainSound(s.world, p, hops)
    ensures var h := hops[|hops| - 1];
            h.doc.controller == root && HasPic(h) && AssertionOf(h).body.parentAuthorityCommitment.None?
  {
    assert HopSound(s.world, p, hops[|hops| - 1]);
  }
}
