/** The chain of custody of a disclosure, from the root grant of the Sovereign to the single disclosure of one act:
    what the chain verifier, the monitor and the mints guarantee together, in every interleaving. */
module EndToEnd {
  import opened Wrappers
  import opened Text
  import opened Capability
  import opened Attenuation
  import opened Admission
  import opened AttenuationTheory
  import opened Monitor
  import opened MonitorRuns
  import C = Confinement

  /** The world of some run of honest mints and arbitrary forgeries, with the grants that were made in it. */
  ghost predicate WorldOf(honest: set<Did>, w: World, grants: set<C.Grant>) {
    exists trace: seq<C.State>, i: nat :: C.Run(honest, trace) && i < |trace| && trace[i] == C.State(w, grants)
  }

  /** An act of a holder that a root grant of the Sovereign covers. */
  predicate Covered(g: C.Grant, sovereign: Did, act: Act, leaf: Leaf) {
    && g.RootGrant? && g.issuer == sovereign
    && Within(leaf.authority, g.spec.authority) && act.action in g.spec.authority.operations
    && (exists r :: r in g.spec.authority.resources
                    && (act.target == r || r + "/" <= act.target || r + "?" <= act.target || r + ":" <= act.target))
    && (leaf.caveats == NormalizeCaveats(g.spec.caveats) || CaveatsNarrow(leaf.caveats, NormalizeCaveats(g.spec.caveats)))
  }

  /** A resolved invocation stays within a root that the Sovereign granted, and its holder signed for this very act
      over this very challenge. */
  lemma {:induction false} ResolvedIsCovered(
      honest: set<Did>, grants: set<C.Grant>, net: Network, cfg: Config, inv: Invocation, from: Did, leaf: Leaf)
    requires WorldOf(honest, net.world, grants) && cfg.sovereign in honest && Resolves(net, cfg, inv, from, leaf)
    ensures exists g | g in grants :: Covered(g, cfg.sovereign, inv.act, leaf)
    ensures HolderSigned(net, inv, leaf.holder) && leaf.id == inv.chain.leafVcDid
  {
    hide Verdict, C.Run, CaveatsNarrow, NormalizeCaveats, HopSound;
    var trace, i: nat :| C.Run(honest, trace) && i < |trace| && trace[i] == C.State(net.world, grants);
    var p := PolicyOf(net, cfg, inv.chain.disclosed);
    C.AcceptedIsConfined(honest, trace, i, p, cfg.sovereign, inv.chain.leafVcDid);
    AcceptIffSound(net.world, p, inv.chain.leafVcDid);
    var g :| g in grants && g.RootGrant? && g.issuer == cfg.sovereign
             && Within(p.disclosed[inv.chain.leafVcDid].authority, g.spec.authority)
             && (p.disclosed[inv.chain.leafVcDid].caveats == Some(NormalizeCaveats(g.spec.caveats))
                 || CaveatsNarrow(p.disclosed[inv.chain.leafVcDid].caveats.value, NormalizeCaveats(g.spec.caveats)));
    assert Covered(g, cfg.sovereign, inv.act, leaf);
    ResolvesIff(net, cfg, inv, from, leaf);
  }

  // ---------- runs ----------

  /** The invocation of a phase, and the leaf that it was resolved to. */
  function Resolved(ph: Phase): Option<(Invocation, Leaf)> {
    if ph.Admitted? || ph.TxnChecked? || ph.CapChecked? then Some((ph.inv, ph.leaf))
    else if HasClear(ph) then Some((ph.c.inv, ph.c.leaf))
    else None
  }

  /** The step from s to t admitted p, for this act over this chain, with this leaf. */
  ghost predicate AdmittedAt(cfg: Config, s: State, t: State, p: nat, inv: Invocation, leaf: Leaf) {
    exists first, from, now ::
      Admit(cfg, s, t, p, first, from, leaf, now) && first.act == inv.act && first.chain == inv.chain
  }

  lemma {:induction false} ResolvedByMove(cfg: Config, s: State, t: State, p: nat)
    requires Moves(cfg, s, t, p) && p < |t.phases| && Resolved(t.phases[p]).Some?
    ensures p < |s.phases| && Resolved(s.phases[p]).Some?
    ensures var (inv, leaf) := Resolved(t.phases[p]).value; var (before, leaf') := Resolved(s.phases[p]).value;
            leaf' == leaf && before.act == inv.act && before.chain == inv.chain
  {
    hide Passes, Done, Written, CapOf, TxnOf, CapKey;
  }

  lemma {:induction false} MoveOfAnother(cfg: Config, s: State, t: State, p: nat, q: nat)
    requires Moves(cfg, s, t, p) && p != q
    ensures |t.phases| == |s.phases| && (q < |s.phases| ==> t.phases[q] == s.phases[q])
  {
    hide Passes, Done;
  }

  /** Every invocation that got anywhere was admitted, once, by a step of the run. */
  lemma {:induction false} WasAdmitted(cfg: Config, honest: set<Did>, trace: seq<State>, i: nat, p: nat)
    returns (j: nat)
    requires Run(cfg, honest, trace) && i < |trace| && p < |trace[i].phases| && Resolved(trace[i].phases[p]).Some?
    ensures var (inv, leaf) := Resolved(trace[i].phases[p]).value; j < i && AdmittedAt(cfg, trace[j], trace[j + 1], p, inv, leaf)
  {
    hide Moves, Admit, Arrive, MintChallenge, BurnOnly, Elsewhere;
    InitialHasNone(trace);
    var s, t := trace[i - 1], trace[i];
    assert Next(cfg, honest, s, t);
    if q: nat :| Moves(cfg, s, t, q) {
      if q == p { ResolvedByMove(cfg, s, t, p); } else { MoveOfAnother(cfg, s, t, q, p); }
      j := WasAdmitted(cfg, honest, trace, i - 1, p);
    } else if q, inv, from, leaf, now :| Admit(cfg, s, t, q, inv, from, leaf, now) {
      if q == p {
        AdmitSets(cfg, s, t, p, inv, from, leaf, now);
        j := i - 1;
      } else {
        AdmitOfAnother(cfg, s, t, q, p, inv, from, leaf, now);
        j := WasAdmitted(cfg, honest, trace, i - 1, p);
      }
    } else {
      QuietKeepsPhase(s, t, honest, p);
      j := WasAdmitted(cfg, honest, trace, i - 1, p);
    }
  }

  lemma {:induction false} InitialHasNone(trace: seq<State>)
    requires trace != [] && Initial(trace[0])
    ensures |trace[0].phases| == 0
  {
  }

  lemma {:induction false} AdmitSets(
      cfg: Config, s: State, t: State, p: nat, inv: Invocation, from: Did, leaf: Leaf, now: int)
    requires Admit(cfg, s, t, p, inv, from, leaf, now)
    ensures p < |t.phases| && t.phases[p] == Admitted(inv, leaf)
  {
    hide Resolves, Burned;
  }

  lemma {:induction false} AdmitOfAnother(
      cfg: Config, s: State, t: State, q: nat, p: nat, inv: Invocation, from: Did, leaf: Leaf, now: int)
    requires Admit(cfg, s, t, q, inv, from, leaf, now) && p != q
    ensures |t.phases| == |s.phases| && (p < |s.phases| ==> t.phases[p] == s.phases[p])
  {
    hide Resolves, Burned;
  }

  lemma {:induction false} QuietKeepsPhase(s: State, t: State, honest: set<Did>, p: nat)
    requires Arrive(s, t) || Elsewhere(honest, s, t) || (exists ch, e :: MintChallenge(s, t, ch, e))
             || (exists ch, now :: BurnOnly(s, t, ch, now))
    requires p < |t.phases| && Resolved(t.phases[p]).Some?
    ensures p < |s.phases| && s.phases[p] == t.phases[p]
  {
    hide Burned;
  }

  /** The root grant itself admits the use, as far as owner, instant of expiry and required discharges are kept by
      the leaf. */
  predicate GrantAdmits(g: C.Grant, cfg: Config, c: Clear) {
    var root := NormalizeCaveats(g.spec.caveats);
    Kept(c.leaf.caveats, root, c.matter.owner, cfg.clock) ==> Admits(root, UseOf(c), c.matter.owner, cfg.clock)
  }

  /** A challenge that was minted for invocations, was not burned, and is not stale. */
  predicate LiveAt(live: map<string, Entry>, challenge: string, now: int) {
    challenge in live && live[challenge].purpose == ForInvocation && now <= live[challenge].exp
  }

  lemma {:induction false} CoveredUse(g: C.Grant, cfg: Config, c: Clear)
    requires Covered(g, cfg.sovereign, c.inv.act, c.leaf) && WithinLeaf(cfg, c)
    ensures GrantAdmits(g, cfg, c)
  {
    hide NormalizeCaveats, CaveatsNarrow, Admits, Kept;
    var root := NormalizeCaveats(g.spec.caveats);
    if Kept(c.leaf.caveats, root, c.matter.owner, cfg.clock) && CaveatsNarrow(c.leaf.caveats, root) {
      NarrowerAdmitsThis(c.leaf.caveats, root, UseOf(c), c.matter.owner, cfg.clock);
    }
  }

  /** In every interleaving of invocations with honest mints and forgeries, whatever is disclosed was asked for by
      the holder that the chain attests, over a challenge of the Warden that was live when it was answered, and is
      covered by a root grant of the Sovereign: the act by its authority, and the sensitivity, kind, owner, recipient,
      time and discharges by its caveats. */
  lemma {:induction false} DisclosedIsCovered(cfg: Config, honest: set<Did>, trace: seq<State>, i: nat, p: nat)
    returns (j: nat)
    requires Run(cfg, honest, trace) && i < |trace| && p < |trace[i].phases| && trace[i].phases[p].Disclosed?
    requires cfg.sovereign in honest && forall k | 0 <= k < |trace| :: exists grants :: WorldOf(honest, trace[k].net.world, grants)
    ensures j < i
    ensures var c := trace[i].phases[p].c; var s := trace[j];
            && (exists now :: LiveAt(s.live, c.inv.chain.bound.challenge, now))
            && HolderSigned(s.net, c.inv, c.leaf.holder) && c.leaf.id == c.inv.chain.leafVcDid
            && exists grants, g :: WorldOf(honest, s.net.world, grants) && g in grants
                                   && Covered(g, cfg.sovereign, c.inv.act, c.leaf) && GrantAdmits(g, cfg, c)
    ensures WithinLeaf(cfg, trace[i].phases[p].c)
  {
    hide Run, WorldOf, Covered, Resolves, GrantAdmits, WithinLeaf;
    j := WasAdmitted(cfg, honest, trace, i, p);
    var c, s := trace[i].phases[p].c, trace[j];
    var first, from, now :|
      Admit(cfg, s, trace[j + 1], p, first, from, c.leaf, now) && first.act == c.inv.act && first.chain == c.inv.chain;
    var grants :| WorldOf(honest, s.net.world, grants);
    ResolvedIsCovered(honest, grants, s.net, cfg, first, from, c.leaf);
    var g :| g in grants && Covered(g, cfg.sovereign, first.act, c.leaf);
    WithinAlways(cfg, honest, trace, i, p);
    CoveredUse(g, cfg, c);
    assert LiveAt(s.live, c.inv.chain.bound.challenge, now);
  }
}
