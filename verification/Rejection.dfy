/** What a refusal of the chain verifier says: which hop failed, which check it failed, and that everything the
    verifier looked at before was in order. The order of the checks is a rank; each check is written out. */
module Rejection {
  import opened Wrappers
  import opened Text
  import opened Capability
  import opened Attenuation
  import opened AttenuationTheory

  /** The place of a check among those of one hop, or of one link. */
  function Rank(c: Check): nat {
    match c
    case PinCheck => 0
    case ControllerCheck => 1
    case SignatureCheck => 2
    case DisclosureCheck => 3
    case CommitCheck => 4
    case RevokedCheck => 5
    case StatusCheck => 6
    case RevocableCheck => 7
    case CounterCheck => 8
    case CommitmentChainCheck => 9
    case LineageCheck => 10
    case DelegatorCheck => 11
    case SubsetCheck => 12
    case CaveatsCheck => 13
    case RootCheck => 14
    case DepthCheck => 15
  }

  predicate WellSigned(w: World, h: Hop) {
    && HasPic(h) && NamedBy(AssertionOf(h).proof, h.doc.controller)
    && (h.doc.controller, AssertionOf(h).body) in w.signed
    && SaysTheSame(AssertionOf(h).body, h.doc.pic.value)
  }

  /** What a hop has done that is answered with a check. */
  predicate HopFails(w: World, p: Policy, h: Hop, c: Check) {
    match c
    case ControllerCheck => h.doc.controller == "" || h.doc.pic.None?
    case SignatureCheck => !WellSigned(w, h)
    case DisclosureCheck => p.requireDisclosure && h.did !in p.disclosed
    case CommitCheck =>
      h.did in p.disclosed && h.doc.pic.Some?
      && var r := p.disclosed[h.did]; h.doc.pic.value.authorityCommitment != Commit(r.authority, r.salt, r.caveats)
    case RevokedCheck =>
      h.did in p.disclosed && p.status.Some? && p.status.value(p.disclosed[h.did].caveats, h.doc.controller) == Revoked
    case StatusCheck =>
      h.did in p.disclosed && p.status.Some? && p.status.value(p.disclosed[h.did].caveats, h.doc.controller) == Unavailable
    case RevocableCheck =>
      h.did in p.disclosed && p.requireStatus
      && (p.status.Some? ==> p.status.value(p.disclosed[h.did].caveats, h.doc.controller) == NoStatus)
    case _ => false
  }

  /** What a hop and the one above it have between them. */
  predicate LinkFails(p: Policy, child: Hop, parent: Hop, c: Check)
    requires HasPic(child) && HasPic(parent)
  {
    var low, high := child.doc.pic.value, parent.doc.pic.value;
    var shown := child.did in p.disclosed && parent.did in p.disclosed;
    match c
    case CounterCheck => low.counter != high.counter + 1
    case CommitmentChainCheck => low.parentAuthorityCommitment != Some(high.authorityCommitment)
    case LineageCheck => low.lineageId != high.lineageId
    case DelegatorCheck => p.bindDelegator && SignerOf(AssertionOf(child)) != AssertionOf(parent).body.holder
    case SubsetCheck => shown && !Within(p.disclosed[child.did].authority, p.disclosed[parent.did].authority)
    case CaveatsCheck =>
      shown && p.narrowing
      && var cl, ch := p.disclosed[child.did].caveats, p.disclosed[parent.did].caveats;
         !(cl.Some? && ch.Some? && Restricts(cl.value, ch.value))
    case _ => false
  }

  /** What is wrong with a hop that names none above it. */
  predicate OriginFails(p: Policy, h: Hop, c: Check)
    requires HasPic(h)
  {
    match c
    case CounterCheck => h.doc.pic.value.counter != 0
    case CommitmentChainCheck => h.doc.pic.value.parentAuthorityCommitment.Some?
    case RootCheck => p.expectedRoot.Some? && p.expectedRoot.value != "" && h.doc.controller != p.expectedRoot.value
    case _ => false
  }

  lemma {:induction false} WellSignedIff(w: World, h: Hop)
    requires h.doc.pic.Some? && h.doc.pic.value.assertion.Some?
    ensures WellSigned(w, h)
       <==> AssertionOf(h).proof.Some? && VerifyProof(w, AssertionOf(h)) && SignerOf(AssertionOf(h)) == h.doc.controller
            && !SplitBrain(AssertionOf(h).body, h.doc.pic.value)
  {
    hide UpToHash;
    if AssertionOf(h).proof.Some? { UpToHashIs(AssertionOf(h).proof.value, h.doc.controller); }
  }

  /** A hop is refused with the first of its checks that fails. */
  lemma {:induction false} HopFaultIs(w: World, p: Policy, h: Hop, c: Check)
    ensures HopFault(w, p, h) == Some(c)
       <==> HopFails(w, p, h, c) && forall e | HopFails(w, p, h, e) :: Rank(c) <= Rank(e)
  {
    hide UpToHash, NamedBy, SplitBrain, SaysTheSame, VerifyProof, SignerOf;
    if HasPic(h) { WellSignedIff(w, h); }
    var f := HopFault(w, p, h);
    if f.Some? {
      assert HopFails(w, p, h, f.value) && forall e | HopFails(w, p, h, e) :: Rank(f.value) <= Rank(e);
    }
  }

  lemma {:induction false} LinkFaultIs(p: Policy, child: Hop, parent: Hop, c: Check)
    requires HasPic(child) && HasPic(parent)
    ensures LinkFault(p, child, parent) == Some(c)
       <==> LinkFails(p, child, parent, c) && forall e | LinkFails(p, child, parent, e) :: Rank(c) <= Rank(e)
  {
    hide IsSubset, Within, CaveatsNarrow, Restricts, UpToHash;
    if child.did in p.disclosed && parent.did in p.disclosed {
      var low, high := p.disclosed[child.did], p.disclosed[parent.did];
      SubsetIsWithin(low.authority, high.authority);
      if low.caveats.Some? && high.caveats.Some? { NarrowIffRestricts(low.caveats.value, high.caveats.value); }
    }
    var f := LinkFault(p, child, parent);
    if f.Some? {
      assert LinkFails(p, child, parent, f.value) && forall e | LinkFails(p, child, parent, e) :: Rank(f.value) <= Rank(e);
    }
  }

  lemma {:induction false} OriginFaultIs(p: Policy, h: Hop, c: Check)
    requires HasPic(h)
    ensures OriginFault(p, h) == Some(c)
       <==> OriginFails(p, h, c) && forall e | OriginFails(p, h, e) :: Rank(c) <= Rank(e)
  {
    var f := OriginFault(p, h);
    if f.Some? {
      assert OriginFails(p, h, f.value) && forall e | OriginFails(p, h, e) :: Rank(f.value) <= Rank(e);
    }
  }

  /** The hop h, with the hop below it, is what a refusal names: the hop itself for another version than was pinned, for
      a check of its own or as the origin, and the hop below for what is between the two. */
  ghost predicate Blamed(w: World, p: Policy, child: Option<Hop>, h: Hop, c: Check, did: Did) {
    || (did == h.did && child.Some? && c == PinCheck && child.value.doc.pic.Some? && child.value.doc.pic.value.prev.Some?
        && h.doc.versionId != child.value.doc.pic.value.prev.value.versionId)
    || (did == h.did && HopFails(w, p, h, c) && forall e | HopFails(w, p, h, e) :: Rank(c) <= Rank(e))
    || (HopSound(w, p, h) && child.Some? && did == child.value.did && HasPic(child.value) && HasPic(h)
        && LinkFails(p, child.value, h, c) && forall e | LinkFails(p, child.value, h, e) :: Rank(c) <= Rank(e))
    || (HopSound(w, p, h) && did == h.did && HasPic(h) && h.doc.pic.value.prev.None?
        && OriginFails(p, h, c) && forall e | OriginFails(p, h, e) :: Rank(c) <= Rank(e))
  }

  function Below(child: Option<Hop>, hops: seq<Hop>, k: nat): Option<Hop>
    requires k <= |hops|
  {
    if k == 0 then child else Some(hops[k - 1])
  }

  /** The first k hops are in order, and each belongs to the one below it. */
  ghost predicate InOrder(w: World, p: Policy, child: Option<Hop>, hops: seq<Hop>, k: nat)
    requires k <= |hops|
  {
    && (forall i: nat | i < k :: HopSound(w, p, hops[i]))
    && forall i: nat | i < k && Below(child, hops, i).Some? :: LinkSound(p, Below(child, hops, i).value, hops[i])
  }

  ghost predicate RefusedAt(w: World, p: Policy, child: Option<Hop>, hops: seq<Hop>, k: nat, c: Check, did: Did) {
    k < |hops| && InOrder(w, p, child, hops, k) && Blamed(w, p, Below(child, hops, k), hops[k], c, did)
  }

  /** At each hop: the refusal is about it, or it is in order and the verdict is the one from the next hop on. */
  lemma {:induction false} BlamedOrPassed(
      w: World, p: Policy, did: Did, at: Option<nat>, child: Option<Hop>, leaf: Option<Hop>, n: nat)
    requires n < p.maxHops && Resolve(w.ledger, did, at).Some?
    requires child.Some? ==> HasPic(child.value) && child.value.doc.pic.value.prev.Some?
    requires leaf.Some? ==> HasPic(leaf.value)
    requires child.Some? <==> leaf.Some?
    ensures var h := Hop(did, Resolve(w.ledger, did, at).value); var r := VerdictFrom(w, p, did, at, child, leaf, n);
            r.Reject? && !Blamed(w, p, child, h, r.check, r.vc) ==>
              && HopSound(w, p, h) && HasPic(h) && (child.Some? ==> LinkSound(p, child.value, h))
              && h.doc.pic.value.prev.Some?
              && var pin := h.doc.pic.value.prev.value;
                 r == VerdictFrom(w, p, pin.did, Some(pin.versionSequence), Some(h), Some(leaf.GetOr(h)), n + 1)
  {
    hide HopFault, HopFails, HopSound, LinkFault, LinkFails, LinkSound, OriginFault, OriginFails, Resolve, Disclosed;
    var h := Hop(did, Resolve(w.ledger, did, at).value);
    HopFaultless(w, p, h);
    if HopFault(w, p, h).Some? {
      HopFaultIs(w, p, h, HopFault(w, p, h).value);
    } else {
      SoundHasPic(w, p, h);
      if child.Some? {
        LinkFaultless(p, child.value, h);
        if LinkFault(p, child.value, h).Some? { LinkFaultIs(p, child.value, h, LinkFault(p, child.value, h).value); }
      }
      if OriginFault(p, h).Some? { OriginFaultIs(p, h, OriginFault(p, h).value); }
    }
  }

  lemma {:induction false} AtTheEnd(
      w: World, p: Policy, did: Did, at: Option<nat>, child: Option<Hop>, leaf: Option<Hop>, n: nat)
    requires n == p.maxHops || (n < p.maxHops && Resolve(w.ledger, did, at).None?)
    requires child.Some? ==> HasPic(child.value)
    requires leaf.Some? ==> HasPic(leaf.value)
    requires child.Some? <==> leaf.Some?
    ensures var r := VerdictFrom(w, p, did, at, child, leaf, n);
            r.Reject? ==> r.check == DepthCheck && n == p.maxHops && InOrder(w, p, child, [], 0)
  {
    hide HopFault, LinkFault, HopSound, LinkSound, OriginFault;
  }

  lemma {:induction false} AtOnce(w: World, p: Policy, child: Option<Hop>, hops: seq<Hop>, c: Check, did: Did)
    requires hops != [] && Blamed(w, p, child, hops[0], c, did)
    ensures exists k: nat :: RefusedAt(w, p, child, hops, k, c, did)
  {
    hide Blamed, HopSound, LinkSound;
    assert RefusedAt(w, p, child, hops, 0, c, did);
  }

  lemma {:induction false} RefusedFrom(
      w: World, p: Policy, did: Did, at: Option<nat>, child: Option<Hop>, leaf: Option<Hop>, n: nat)
    requires n <= p.maxHops
    requires child.Some? ==> HasPic(child.value) && child.value.doc.pic.value.prev.Some?
    requires leaf.Some? ==> HasPic(leaf.value)
    requires child.Some? <==> leaf.Some?
    ensures var hops := Walk(w.ledger, did, at, p.maxHops - n); var r := VerdictFrom(w, p, did, at, child, leaf, n);
            r.Reject? ==>
              || (exists k: nat :: RefusedAt(w, p, child, hops, k, r.check, r.vc))
              || (r.check == DepthCheck && |hops| == p.maxHops - n && InOrder(w, p, child, hops, |hops|))
    decreases p.maxHops - n
  {
    hide HopSound, LinkSound, Blamed, InOrder, RefusedAt, VerdictFrom;
    if n == p.maxHops || Resolve(w.ledger, did, at).None? {
      AtTheEnd(w, p, did, at, child, leaf, n);
    } else {
      var r, h := VerdictFrom(w, p, did, at, child, leaf, n), Hop(did, Resolve(w.ledger, did, at).value);
      BlamedOrPassed(w, p, did, at, child, leaf, n);
      if r.Reject? && Blamed(w, p, child, h, r.check, r.vc) {
        AtOnce(w, p, child, Walk(w.ledger, did, at, p.maxHops - n), r.check, r.vc);
      } else if r.Reject? {
        var pin := h.doc.pic.value.prev.value;
        RefusedFrom(w, p, pin.did, Some(pin.versionSequence), Some(h), Some(leaf.GetOr(h)), n + 1);
        Further(w, p, child, h, Walk(w.ledger, pin.did, Some(pin.versionSequence), p.maxHops - n - 1), r.check, r.vc);
      }
    }
  }

  /** What was found further up is found from below. */
  lemma {:induction false} Further(
      w: World, p: Policy, child: Option<Hop>, h: Hop, rest: seq<Hop>, c: Check, did: Did)
    requires HopSound(w, p, h) && (child.Some? ==> LinkSound(p, child.value, h))
    ensures InOrder(w, p, Some(h), rest, |rest|) ==> InOrder(w, p, child, [h] + rest, |rest| + 1)
    ensures (exists k: nat :: RefusedAt(w, p, Some(h), rest, k, c, did)) ==>
              exists k: nat :: RefusedAt(w, p, child, [h] + rest, k, c, did)
  {
    hide HopSound, LinkSound, Blamed, HopFails, LinkFails, OriginFails;
    var hops := [h] + rest;
    forall k: nat | k <= |rest| && InOrder(w, p, Some(h), rest, k) ensures InOrder(w, p, child, hops, k + 1) {
      forall i: nat | i < k + 1 && Below(child, hops, i).Some? ensures LinkSound(p, Below(child, hops, i).value, hops[i]) {
        if i > 0 { assert Below(Some(h), rest, i - 1) == Below(child, hops, i) && rest[i - 1] == hops[i]; }
      }
      forall i: nat | i < k + 1 ensures HopSound(w, p, hops[i]) {
        if i > 0 { assert rest[i - 1] == hops[i]; }
      }
    }
    if k: nat :| RefusedAt(w, p, Some(h), rest, k, c, did) {
      assert Below(Some(h), rest, k) == Below(child, hops, k + 1) && rest[k] == hops[k + 1];
      assert RefusedAt(w, p, child, hops, k + 1, c, did);
    }
  }

  /** A refusal names the first hop from the leaf that is not in order, and the first check in the verifier's order that
      it fails; or the chain is as long as is allowed, in order so far, and no origin was reached. */
  lemma {:induction false} RefusalNamesTheFault(w: World, p: Policy, leaf: Did)
    requires Verdict(w, p, leaf).Reject?
    ensures var hops := Walk(w.ledger, leaf, None, p.maxHops); var r := Verdict(w, p, leaf);
            || (exists k: nat :: RefusedAt(w, p, None, hops, k, r.check, r.vc))
            || (r.check == DepthCheck && |hops| == p.maxHops && InOrder(w, p, None, hops, |hops|))
  {
    hide HopFault, HopFails, HopSound, LinkFault, LinkFails, LinkSound, OriginFault, OriginFails, Blamed, InOrder, RefusedAt;
    hide VerdictFrom, Walk;
    RefusedFrom(w, p, leaf, None, None, None, 0);
  }
}
