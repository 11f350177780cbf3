/** When an invocation is admitted, in terms of what is on the ledger, what was signed and what is disclosed. */
module Admission {
  import opened Wrappers
  import opened Text
  import opened Capability
  import opened Attenuation
  import opened AttenuationTheory
  import opened Monitor

  /** The holder that the leaf hop attests has signed for this leaf and this transaction. */
  predicate HolderSigned(net: Network, inv: Invocation, holder: Did) {
    && NamedBy(inv.chain.proof, holder) && (holder, inv.chain.bound) in net.holderProofs
    && inv.chain.bound.leafVcDid == inv.chain.leafVcDid && inv.chain.bound.txn == inv.act.txn
  }

  /** Every hop is disclosed, narrows, is issued by the holder above it and is live; a hop without a status pointer is as
      good only if the configuration does not require one. The origin is the sovereign's, at most 64 hops away. */
  ghost predicate GoodChain(net: Network, cfg: Config, inv: Invocation, hops: seq<Hop>) {
    && hops == Walk(net.world.ledger, inv.chain.leafVcDid, None, 64)
    && ChainSound(net.world,
                  Policy(Some(cfg.sovereign), inv.chain.disclosed, 64, true, true, cfg.requireStatus, Some(net.status), true),
                  hops)
    && inv.chain.leafVcDid in inv.chain.disclosed
  }

  /** The leaf that an admitted invocation is bound to: the disclosed one of the leaf hop, with a ceiling. */
  predicate LeafOf(inv: Invocation, hop: Hop, leaf: Leaf) {
    && inv.chain.leafVcDid in inv.chain.disclosed && HasPic(hop)
    && leaf.id == inv.chain.leafVcDid && leaf.holder == AssertionOf(hop).body.holder && leaf.holder != ""
    && leaf.authority == inv.chain.disclosed[leaf.id].authority
    && inv.chain.disclosed[leaf.id].caveats == Some(leaf.caveats) && leaf.caveats.ceiling.Some?
  }

  lemma {:induction false} BoundLeafIff(net: Network, cfg: Config, inv: Invocation, leaf: Leaf)
    ensures BoundLeaf(net, cfg, inv) == Some(leaf)
       <==> cfg.sovereign != "" && exists hops :: GoodChain(net, cfg, inv, hops) && LeafOf(inv, hops[0], leaf)
  {
    hide Verdict, Walk, ChainSound;
    var p := PolicyOf(net, cfg, inv.chain.disclosed);
    var hops := Walk(net.world.ledger, inv.chain.leafVcDid, None, 64);
    AcceptIffSound(net.world, p, inv.chain.leafVcDid);
    if ChainSound(net.world, p, hops) { LeafIsDisclosed(net.world, p, hops); }
    if BoundLeaf(net, cfg, inv) == Some(leaf) {
      assert GoodChain(net, cfg, inv, hops) && LeafOf(inv, hops[0], leaf);
    }
  }

  lemma {:induction false} LeafIsDisclosed(w: World, p: Policy, hops: seq<Hop>)
    requires ChainSound(w, p, hops) && p.requireDisclosure
    ensures hops != [] && hops[0].did in p.disclosed && HasPic(hops[0])
  {
    assert HopSound(w, p, hops[0]);
  }

  /** Everything that an invocation needs to be admitted, besides a live challenge: a chain that is good, a leaf that is
      its own, the signature of the holder, the holder as the sender if the transport knows one, and an operation of the
      leaf on a target that equals one of its resources or extends one. Nothing else is asked. */
  lemma {:induction false} ResolvesIff(net: Network, cfg: Config, inv: Invocation, fromDid: Did, leaf: Leaf)
    ensures Resolves(net, cfg, inv, fromDid, leaf)
       <==> && cfg.sovereign != ""
            && (exists hops :: GoodChain(net, cfg, inv, hops) && LeafOf(inv, hops[0], leaf))
            && HolderSigned(net, inv, leaf.holder) && (fromDid == "" || fromDid == leaf.holder)
            && inv.act.action in leaf.authority.operations
            && exists r :: r in leaf.authority.resources
                           && (inv.act.target == r || r + "/" <= inv.act.target || r + "?" <= inv.act.target
                               || r + ":" <= inv.act.target)
  {
    hide BoundLeaf, GoodChain, LeafOf, TargetExtends;
    BoundLeafIff(net, cfg, inv, leaf);
    forall r
      ensures TargetExtends(inv.act.target, r)
         <==> inv.act.target == r || r + "/" <= inv.act.target || r + "?" <= inv.act.target || r + ":" <= inv.act.target
    {
      TargetIsExtension(inv.act.target, r);
    }
  }
}
