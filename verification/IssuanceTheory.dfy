/** Issuance and verification agree: which honestly built chains the verifier accepts. */
module IssuanceTheory {
  import opened Wrappers
  import opened Text
  import opened Capability
  import opened Attenuation
  import opened AttenuationTheory
  import opened Issuance

  /** One honest mint: a root when it is the first of a chain, a delegation of the hop before it otherwise. */
  datatype Mint = Mint(issuer: Did, holder: Did, spec: Spec, made: Fresh)

  function LastArgs(chain: seq<Mint>): IssueArgs
    requires chain != []
    decreases |chain|, 0
  {
    var m, n := chain[|chain| - 1], |chain| - 1;
    if n == 0 then RootArgs(m.issuer, m.holder, m.spec) else ChildArgs(m.issuer, m.holder, LastHandle(chain[..n]), m.spec)
  }

  function LastHandle(chain: seq<Mint>): Handle
    requires chain != []
    decreases |chain|, 1
  {
    var m, n := chain[|chain| - 1], |chain| - 1;
    if n == 0 then RootHandle(m.issuer, m.holder, m.spec, m.made)
    else ChildHandle(m.issuer, m.holder, LastHandle(chain[..n]), m.spec, m.made)
  }

  /** The version that carries the public block of a mint. */
  function HopFor(a: IssueArgs, f: Fresh): Hop {
    Hop(f.vcDid, VersionsFor(a, f)[1])
  }

  function LastHop(chain: seq<Mint>): Hop
    requires chain != []
  {
    HopFor(LastArgs(chain), chain[|chain| - 1].made)
  }

  /** The handle of the last mint records what was written and granted. */
  lemma {:induction false} LastHandleIs(chain: seq<Mint>)
    requires chain != []
    ensures var m, h := chain[|chain| - 1], LastHandle(chain);
            && h.issued == IssuedFor(LastArgs(chain), m.made) && h.capability.controller == m.holder
            && h.capability.authority == m.spec.authority && h.capability.caveats == m.spec.caveats
            && LastArgs(chain).holder == m.holder && LastArgs(chain).issuer == m.issuer
  {
    hide IssuedFor;
  }

  predicate PlainDid(d: Did) {
    d != "" && '#' !in d
  }

  /** The guards of issuance held at every mint. */
  predicate Guarded(chain: seq<Mint>) {
    if chain == [] then true
    else
      var m, n := chain[|chain| - 1], |chain| - 1;
      PlainDid(m.issuer) && (n > 0 ==> MayDelegate(m.issuer, m.holder, LastHandle(chain[..n]), m.spec)) && Guarded(chain[..n])
  }

  /** The versions that the mints wrote, and the signatures they made, are still there. */
  predicate Present(w: World, chain: seq<Mint>) {
    if chain == [] then true
    else
      var m, n := chain[|chain| - 1], |chain| - 1;
      && Resolve(w.ledger, m.made.vcDid, Some(2)) == Some(LastHop(chain).doc)
      && (m.issuer, BodyFor(LastArgs(chain), m.made)) in w.signed
      && (forall k | k in chain[..n] :: k.made.vcDid != m.made.vcDid)
      && Present(w, chain[..n])
  }

  // ---------- runs ----------

  /** Either the next mint of the chain, or anything else that the rest of the network does meanwhile. */
  datatype Event = Minted(mint: Mint) | Elsewhere(world: World)

  ghost predicate Grows(later: World, w: World) {
    Extends(later.ledger, w.ledger) && w.signed <= later.signed
  }

  ghost function Exec(es: seq<Event>): Option<(World, seq<Mint>)> {
    if es == [] then Some((World(map[], {}), []))
    else
      var before := Exec(es[..|es| - 1]);
      if before.None? then None
      else
        var (w, chain) := before.value;
        match es[|es| - 1]
        case Minted(m) =>
          if m.made.vcDid in w.ledger || !Guarded(chain + [m]) then None
          else Some((AfterIssue(w, LastArgs(chain + [m]), m.made), chain + [m]))
        case Elsewhere(later) =>
          if Grows(later, w) then Some((later, chain)) else None
  }

  lemma {:induction false} PresentStays(w: World, later: World, chain: seq<Mint>)
    requires Present(w, chain) && Grows(later, w)
    ensures Present(later, chain)
  {
    if chain != [] {
      PinnedVersionStays(w.ledger, later.ledger, chain[|chain| - 1].made.vcDid, 2);
      PresentStays(w, later, chain[..|chain| - 1]);
    }
  }

  lemma {:induction false} PresentInLedger(w: World, chain: seq<Mint>, m: Mint)
    requires Present(w, chain) && m in chain
    ensures m.made.vcDid in w.ledger
  {
    if m != chain[|chain| - 1] {
      PresentInLedger(w, chain[..|chain| - 1], m);
    }
  }

  lemma {:induction false} GuardedIsIssued(chain: seq<Mint>)
    requires chain != [] && Guarded(chain)
    ensures !Refused(LastArgs(chain)) && LastArgs(chain).issuer == SignerFor(LastArgs(chain)) == chain[|chain| - 1].issuer
  {
    hide Refused, LastHandle, IssuedFor, CapabilityNarrows;
    if |chain| == 1 { NothingToRefuse(LastArgs(chain)); }
  }

  lemma {:induction false} NothingToRefuse(a: IssueArgs)
    requires a.parent.None?
    ensures !Refused(a)
  {
  }

  lemma {:induction false} IssueAdds(w: World, a: IssueArgs, f: Fresh)
    requires !Refused(a) && f.vcDid !in w.ledger
    ensures var later := AfterIssue(w, a, f);
            && Grows(later, w) && Resolve(later.ledger, f.vcDid, Some(2)) == Some(HopFor(a, f).doc)
            && (SignerFor(a), BodyFor(a, f)) in later.signed
  {
    hide PicFor, BodyFor, Refused;
  }

  lemma {:induction false} MintIsPresent(w: World, chain: seq<Mint>, m: Mint)
    requires Present(w, chain) && Guarded(chain + [m]) && m.made.vcDid !in w.ledger
    ensures Present(AfterIssue(w, LastArgs(chain + [m]), m.made), chain + [m])
  {
    hide AfterIssue, Resolve, HopFor, BodyFor, LastArgs, Guarded, SignerFor;
    var longer := chain + [m];
    assert longer[..|chain|] == chain;
    GuardedIsIssued(longer);
    IssueAdds(w, LastArgs(longer), m.made);
    PresentStays(w, AfterIssue(w, LastArgs(longer), m.made), chain);
    forall k | k in chain ensures k.made.vcDid != m.made.vcDid { PresentInLedger(w, chain, k); }
  }

  lemma {:induction false} ExecBuilds(es: seq<Event>)
    requires Exec(es).Some?
    ensures Present(Exec(es).value.0, Exec(es).value.1) && Guarded(Exec(es).value.1)
  {
    if es == [] {
    } else {
      hide Present, Guarded, AfterIssue, LastArgs;
      ExecBuilds(es[..|es| - 1]);
      var (w, chain) := Exec(es[..|es| - 1]).value;
      match es[|es| - 1]
      case Minted(m) => MintIsPresent(w, chain, m);
      case Elsewhere(later) => PresentStays(w, later, chain);
    }
  }

  // ---------- the walk over a built chain ----------

  /** The hops of a chain from its leaf up to its root. */
  function HopsUp(chain: seq<Mint>): (hops: seq<Hop>)
    ensures |hops| == |chain|
  {
    if chain == [] then [] else [LastHop(chain)] + HopsUp(chain[..|chain| - 1])
  }

  function Min(a: nat, b: nat): nat {
    if a <= b then a else b
  }

  lemma {:induction false} LastHopPin(chain: seq<Mint>)
    requires chain != []
    ensures LastHop(chain).did == chain[|chain| - 1].made.vcDid && HasPic(LastHop(chain))
    ensures var n := |chain| - 1; var prev := LastHop(chain).doc.pic.value.prev;
            if n == 0 then prev.None?
            else prev.Some? && prev.value.did == chain[n - 1].made.vcDid && prev.value.versionSequence == 2
  {
  }

  lemma {:induction false} WalkGoesUp(w: World, chain: seq<Mint>, did: Did, at: Option<nat>, fuel: nat)
    requires chain != [] && Present(w, chain) && did == chain[|chain| - 1].made.vcDid
    requires Resolve(w.ledger, did, at) == Some(LastHop(chain).doc)
    ensures Walk(w.ledger, did, at, fuel) == HopsUp(chain)[..Min(fuel, |chain|)]
    decreases |chain|
  {
    hide LastHop, Resolve, Walk, Present, HasPic, HopsUp;
    if fuel == 0 {
      WalkOfNothing(w.ledger, did, at);
    } else {
      LastHopPin(chain);
      HopsUpStep(chain);
      WalkStep(w.ledger, did, at, fuel, LastHop(chain));
      if |chain| > 1 {
        var rest := chain[..|chain| - 1];
        PresentLast(w, chain);
        PresentLast(w, rest);
        WalkGoesUp(w, rest, rest[|rest| - 1].made.vcDid, Some(2), fuel - 1);
        TakeUp(LastHop(chain), HopsUp(rest), Min(fuel - 1, |rest|));
      }
    }
  }

  lemma {:induction false} WalkOfNothing(l: Ledger, did: Did, at: Option<nat>)
    ensures Walk(l, did, at, 0) == []
  {
  }

  lemma {:induction false} HopsUpStep(chain: seq<Mint>)
    requires chain != []
    ensures HopsUp(chain) == [LastHop(chain)] + HopsUp(chain[..|chain| - 1])
    ensures HasPic(LastHop(chain)) && LastHop(chain).doc.pic.Some?
    ensures |chain| == 1 ==> HopsUp(chain) == [LastHop(chain)]
  {
    hide LastHop;
    LastHopPin(chain);
  }

  lemma {:induction false} TakeUp(h: Hop, rest: seq<Hop>, k: nat)
    requires k <= |rest|
    ensures ([h] + rest)[..k + 1] == [h] + rest[..k]
  {
  }

  lemma {:induction false} PresentLast(w: World, chain: seq<Mint>)
    requires chain != [] && Present(w, chain)
    ensures Resolve(w.ledger, chain[|chain| - 1].made.vcDid, Some(2)) == Some(LastHop(chain).doc)
    ensures Present(w, chain[..|chain| - 1])
  {
    hide LastHop, Resolve;
  }

  lemma {:induction false} WalkStep(l: Ledger, did: Did, at: Option<nat>, fuel: nat, h: Hop)
    requires fuel > 0 && h.did == did && Resolve(l, did, at) == Some(h.doc) && h.doc.pic.Some?
    ensures var prev := h.doc.pic.value.prev;
            Walk(l, did, at, fuel)
            == if prev.None? then [h] else [h] + Walk(l, prev.value.did, Some(prev.value.versionSequence), fuel - 1)
  {
    hide Resolve;
  }

  // ---------- soundness of a built chain ----------

  function DisclosureOf(m: Mint): Disclosure {
    Disclosure(m.spec.authority, m.made.salt, Some(NormalizeCaveats(m.spec.caveats)))
  }

  /** discloseChain: what each hop was minted with, by its DID. */
  function DiscloseChain(chain: seq<Mint>): map<Did, Disclosure> {
    if chain == [] then map[]
    else DiscloseChain(chain[..|chain| - 1])[chain[|chain| - 1].made.vcDid := DisclosureOf(chain[|chain| - 1])]
  }

  predicate Truthful(d: map<Did, Disclosure>, chain: seq<Mint>) {
    forall m | m in chain :: m.made.vcDid in d && d[m.made.vcDid] == DisclosureOf(m)
  }

  lemma {:induction false} DiscloseChainIsTruthful(w: World, chain: seq<Mint>)
    requires Present(w, chain)
    ensures Truthful(DiscloseChain(chain), chain)
  {
    hide LastHop, LastArgs, Resolve, DisclosureOf, BodyFor;
    if chain != [] {
      var n := |chain| - 1;
      DiscloseChainIsTruthful(w, chain[..n]);
      forall m | m in chain ensures m.made.vcDid in DiscloseChain(chain) && DiscloseChain(chain)[m.made.vcDid] == DisclosureOf(m) {
        if m != chain[n] { assert m in chain[..n]; }
      }
    }
  }

  lemma {:induction false} SignerOfMethod(signer: Did)
    requires '#' !in signer
    ensures UpToHash(MethodOf(signer)) == signer
  {
    if signer != "" {
      assert MethodOf(signer)[1..] == MethodOf(signer[1..]);
      SignerOfMethod(signer[1..]);
    }
  }

  lemma {:induction false} MethodNames(signer: Did)
    requires '#' !in signer
    ensures NamedBy(Some(MethodOf(signer)), signer)
  {
    assert MethodOf(signer)[..|signer| + 1] == signer + "#";
  }

  /** What the theorem asks of the verifier: the policy of an enforced invocation, and no hop revoked. */
  predicate Enforces(p: Policy, chain: seq<Mint>) {
    && chain != [] && p.requireDisclosure && p.narrowing && p.bindDelegator
    && p.expectedRoot == Some(chain[0].issuer)
    && Truthful(p.disclosed, chain)
    && forall h | h in HopsUp(chain) :: HopAlive(p, h)
  }

  lemma {:induction false} LastHopSound(w: World, p: Policy, chain: seq<Mint>)
    requires chain != [] && Present(w, chain) && Guarded(chain) && Truthful(p.disclosed, chain)
    requires HopAlive(p, LastHop(chain))
    ensures HopSound(w, p, LastHop(chain))
  {
    hide HopAlive, UpToHash, MethodOf, LastHandle, IssuedFor, CapabilityNarrows, IsSubset;
    var m := chain[|chain| - 1];
    assert m in chain;
    MethodNames(m.issuer);
  }

  /** A delegation from a handle extends the very version that the handle's mint wrote. */
  lemma {:induction false} DelegationExtends(
      a: IssueArgs, f: Fresh, parent: Handle, issuer: Did, holder: Did, s: Spec, g: Fresh)
    requires parent.issued == IssuedFor(a, f) && issuer == a.holder && '#' !in issuer
    ensures var child, above := HopFor(ChildArgs(issuer, holder, parent, s), g), HopFor(a, f);
            && HasPic(child) && HasPic(above) && PinMatches(child, above)
            && child.doc.pic.value.counter == above.doc.pic.value.counter + 1
            && child.doc.pic.value.parentAuthorityCommitment == Some(above.doc.pic.value.authorityCommitment)
            && child.doc.pic.value.lineageId == above.doc.pic.value.lineageId
            && SignerOf(AssertionOf(child)) == HolderOf(above)
  {
    hide UpToHash, MethodOf;
    SignerOfMethod(issuer);
  }

  lemma {:induction false} LinkShape(chain: seq<Mint>)
    requires |chain| > 1 && Guarded(chain)
    ensures var child, parent := LastHop(chain), LastHop(chain[..|chain| - 1]);
            && HasPic(child) && HasPic(parent) && PinMatches(child, parent)
            && child.doc.pic.value.counter == parent.doc.pic.value.counter + 1
            && child.doc.pic.value.parentAuthorityCommitment == Some(parent.doc.pic.value.authorityCommitment)
            && child.doc.pic.value.lineageId == parent.doc.pic.value.lineageId
            && SignerOf(AssertionOf(child)) == HolderOf(parent)
  {
    hide IsSubset, CapabilityNarrows, HopFor, HasPic, PinMatches, SignerOf, HolderOf, IssuedFor, ChildArgs;
    var n := |chain| - 1;
    LastHandleIs(chain[..n]);
    DelegationExtends(LastArgs(chain[..n]), chain[n - 1].made, LastHandle(chain[..n]), chain[n].issuer, chain[n].holder,
                      chain[n].spec, chain[n].made);
  }

  lemma {:induction false} GuardNarrows(chain: seq<Mint>)
    requires |chain| > 1 && Guarded(chain)
    ensures var n := |chain| - 1;
            IsSubset(chain[n].spec.authority, chain[n - 1].spec.authority)
            && CaveatsNarrow(chain[n].spec.caveats, chain[n - 1].spec.caveats)
  {
    hide IsSubset, CaveatsNarrow, TargetWithin, LastHandle, IssuedFor;
    LastHandleIs(chain[..|chain| - 1]);
  }

  lemma {:induction false} DisclosedLink(p: Policy, child: Hop, parent: Hop, m: Mint, k: Mint)
    requires Disclosed(p, child.did) == Some(DisclosureOf(m)) && Disclosed(p, parent.did) == Some(DisclosureOf(k))
    requires p.narrowing && HasPic(child) && HasPic(parent) && PinMatches(child, parent)
    requires child.doc.pic.value.counter == parent.doc.pic.value.counter + 1
    requires child.doc.pic.value.parentAuthorityCommitment == Some(parent.doc.pic.value.authorityCommitment)
    requires child.doc.pic.value.lineageId == parent.doc.pic.value.lineageId
    requires SignerOf(AssertionOf(child)) == HolderOf(parent) && IsSubset(m.spec.authority, k.spec.authority)
    ensures LinkSound(p, child, parent)
       <==> CaveatsNarrow(NormalizeCaveats(m.spec.caveats), NormalizeCaveats(k.spec.caveats))
  {
    hide HasPic, IsSubset, Within, CaveatsNarrow, Restricts, NormalizeCaveats, SignerOf;
    SubsetIsWithin(m.spec.authority, k.spec.authority);
    NarrowIffRestricts(NormalizeCaveats(m.spec.caveats), NormalizeCaveats(k.spec.caveats));
  }

  lemma {:induction false} LinkNarrows(p: Policy, chain: seq<Mint>)
    requires |chain| > 1 && Guarded(chain) && Truthful(p.disclosed, chain) && p.narrowing && p.bindDelegator
    ensures var n := |chain| - 1;
            LinkSound(p, LastHop(chain), LastHop(chain[..n]))
            <==> !DropsKinds(chain[n].spec.caveats, chain[n - 1].spec.caveats)
  {
    hide LastHop, Guarded, LinkSound, HasPic, PinMatches, IsSubset, CaveatsNarrow, NormalizeCaveats, DropsKinds, SignerOf,
         HolderOf, DisclosureOf;
    var n := |chain| - 1;
    assert chain[n] in chain && chain[n - 1] in chain;
    LastHopPin(chain);
    LastHopPin(chain[..n]);
    LinkShape(chain);
    GuardNarrows(chain);
    NormalizeKeepsNarrowing(chain[n].spec.caveats, chain[n - 1].spec.caveats);
    DisclosedLink(p, LastHop(chain), LastHop(chain[..n]), chain[n], chain[n - 1]);
  }

  /** No delegation of the chain gives an empty list of kinds below a list that is not empty. */
  predicate KeepsKinds(chain: seq<Mint>) {
    forall i | 0 < i < |chain| :: !DropsKinds(chain[i].spec.caveats, chain[i - 1].spec.caveats)
  }

  lemma {:induction false} KeepsKindsGrows(chain: seq<Mint>)
    requires |chain| > 1
    ensures var n := |chain| - 1;
            KeepsKinds(chain) <==> KeepsKinds(chain[..n]) && !DropsKinds(chain[n].spec.caveats, chain[n - 1].spec.caveats)
  {
    var n := |chain| - 1;
    if KeepsKinds(chain) {
      forall i | 0 < i < n ensures !DropsKinds(chain[..n][i].spec.caveats, chain[..n][i - 1].spec.caveats) {
        assert chain[..n][i] == chain[i] && chain[..n][i - 1] == chain[i - 1];
      }
    } else {
      var i :| 0 < i < |chain| && DropsKinds(chain[i].spec.caveats, chain[i - 1].spec.caveats);
      if i < n { assert DropsKinds(chain[..n][i].spec.caveats, chain[..n][i - 1].spec.caveats); }
    }
  }

  lemma {:induction false} BuiltPrefix(w: World, chain: seq<Mint>)
    requires chain != [] && Present(w, chain) && Guarded(chain)
    ensures Present(w, chain[..|chain| - 1]) && Guarded(chain[..|chain| - 1])
  {
    hide LastHop, MayDelegate, Resolve;
  }

  lemma {:induction false} SingleRootSound(w: World, p: Policy, chain: seq<Mint>)
    requires |chain| == 1 && p.expectedRoot == Some(chain[0].issuer) && HopSound(w, p, LastHop(chain))
    ensures ChainSound(w, p, HopsUp(chain)) && KeepsKinds(chain)
  {
    hide HopSound;
    assert HopsUp(chain) == [LastHop(chain)];
    assert OriginSound(p, LastHop(chain));
  }

  lemma {:induction false} BuiltChainSound(w: World, p: Policy, chain: seq<Mint>)
    requires Present(w, chain) && Guarded(chain) && Enforces(p, chain)
    ensures ChainSound(w, p, HopsUp(chain)) <==> KeepsKinds(chain)
  {
    hide HopSound, LinkSound, HopAlive, DropsKinds, Present, Guarded, LastHop, KeepsKinds, DisclosureOf;
    var n := |chain| - 1;
    assert LastHop(chain) in HopsUp(chain);
    LastHopSound(w, p, chain);
    HopsUpStep(chain);
    if n == 0 {
      SingleRootSound(w, p, chain);
    } else {
      var rest := chain[..n];
      BuiltPrefix(w, chain);
      assert forall h | h in HopsUp(rest) :: h in HopsUp(chain);
      BuiltChainSound(w, p, rest);
      LinkNarrows(p, chain);
      ChainSoundCons(w, p, LastHop(chain), HopsUp(rest));
      assert HopsUp(rest)[0] == LastHop(rest);
      KeepsKindsGrows(chain);
    }
  }

  lemma {:induction false} TruncatedIsNotSound(w: World, p: Policy, chain: seq<Mint>, k: nat)
    requires k < |chain|
    ensures !ChainSound(w, p, HopsUp(chain)[..k])
  {
    hide LastHop, HopSound, LinkSound;
    if k > 0 {
      HopsUpAt(chain, k - 1);
      LastHopPin(chain[..|chain| - (k - 1)]);
      assert !OriginSound(p, HopsUp(chain)[..k][k - 1]);
    }
  }

  lemma {:induction false} HopsUpAt(chain: seq<Mint>, i: nat)
    requires i < |chain|
    ensures HopsUp(chain)[i] == LastHop(chain[..|chain| - i])
  {
    hide LastHop;
    if i == 0 {
      assert chain[..|chain|] == chain;
    } else {
      HopsUpAt(chain[..|chain| - 1], i - 1);
      assert chain[..|chain| - 1][..|chain| - i] == chain[..|chain| - i];
    }
  }

  lemma {:induction false} LastHopHolder(chain: seq<Mint>)
    requires chain != []
    ensures HasPic(LastHop(chain)) && HolderOf(LastHop(chain)) == chain[|chain| - 1].holder
  {
  }

  /** Every chain built by a root mint and delegations of its holders is accepted while it is not revoked, exactly
      when it is not longer than the verifier's bound and no delegation empties a list of kinds. */
  lemma {:induction false} IssuanceAgrees(es: seq<Event>, p: Policy)
    requires Exec(es).Some? && Enforces(p, Exec(es).value.1)
    requires var (w, chain) := Exec(es).value;
             Resolve(w.ledger, LastHop(chain).did, None) == Some(LastHop(chain).doc)
    ensures var (w, chain) := Exec(es).value; var leaf := chain[|chain| - 1];
            && (Verdict(w, p, leaf.made.vcDid).Accept? <==> |chain| <= p.maxHops && KeepsKinds(chain))
            && (Verdict(w, p, leaf.made.vcDid).Accept? ==>
                  Verdict(w, p, leaf.made.vcDid) == Accept(|chain|, leaf.holder, Some(DisclosureOf(leaf))))
  {
    hide LastHop, Exec, Present, Guarded, ChainSound, Verdict, Resolve, HopAlive, KeepsKinds, NormalizeCaveats;
    ExecBuilds(es);
    var (w, chain) := Exec(es).value;
    LastHopPin(chain);
    var leaf := chain[|chain| - 1];
    WalkGoesUp(w, chain, leaf.made.vcDid, None, p.maxHops);
    AcceptIffSound(w, p, leaf.made.vcDid);
    assert leaf in chain;
    if |chain| <= p.maxHops {
      assert HopsUp(chain)[..|chain|] == HopsUp(chain);
      LastHopHolder(chain);
      BuiltChainSound(w, p, chain);
    } else {
      TruncatedIsNotSound(w, p, chain, p.maxHops);
    }
  }
}
