/** Minting and delegating capabilities over the ledger, honestly and with every knob that builds a hostile hop. */
module Issuance {
  import opened Wrappers
  import opened Text
  import opened Capability
  import opened Attenuation

  /** What the network supplies for one mint: the new document's DID, a salt and two version ids. */
  datatype Fresh = Fresh(vcDid: Did, salt: string, created: string, merged: string)

  datatype Issued = Issued(
    vcDid: Did, lineageId: string, counter: int, authority: AuthoritySet, salt: string, caveats: Option<Caveats>,
    authorityCommitment: Commitment, pin: Pin, holder: Did)

  /** The last six fields bypass the honest choice; an honest mint leaves them alone. */
  datatype IssueArgs = IssueArgs(
    issuer: Did, holder: Did, authority: AuthoritySet, caveats: Option<Caveats>, parent: Option<Issued>,
    forgeAssertionWith: Option<Did>, overrideCounter: Option<int>,
    overrideParentCommitment: Option<Option<Commitment>>, overrideLineageId: Option<string>,
    overridePrev: Option<Option<Pin>>, skipSubsetGuard: bool)

  function Honest(
      issuer: Did, holder: Did, authority: AuthoritySet, caveats: Caveats, parent: Option<Issued>): IssueArgs {
    IssueArgs(issuer, holder, authority, Some(NormalizeCaveats(caveats)), parent, None, None, None, None, None, false)
  }

  predicate Refused(a: IssueArgs) {
    a.parent.Some? && !a.skipSubsetGuard && !IsSubset(a.authority, a.parent.value.authority)
  }

  function CommitmentFor(a: IssueArgs, f: Fresh): Commitment {
    Commit(a.authority, f.salt, a.caveats)
  }

  function BodyFor(a: IssueArgs, f: Fresh): Body {
    Body(a.issuer, a.holder, STATEMENT,
         a.overrideLineageId.GetOr(if a.parent.Some? then a.parent.value.lineageId else f.vcDid),
         a.overrideCounter.GetOr(if a.parent.Some? then a.parent.value.counter + 1 else 0),
         CommitmentFor(a, f),
         a.overrideParentCommitment.GetOr(if a.parent.Some? then Some(a.parent.value.authorityCommitment) else None))
  }

  function SignerFor(a: IssueArgs): Did {
    a.forgeAssertionWith.GetOr(a.issuer)
  }

  function MethodOf(signer: Did): string {
    signer + "#key-1"
  }

  function PicFor(a: IssueArgs, f: Fresh): Pic {
    var b := BodyFor(a, f);
    Pic(b.lineageId, b.counter, a.overridePrev.GetOr(if a.parent.Some? then Some(a.parent.value.pin) else None),
        b.authorityCommitment, b.parentAuthorityCommitment, Some(Assertion(b, Some(MethodOf(SignerFor(a))))))
  }

  function VersionsFor(a: IssueArgs, f: Fresh): seq<Version> {
    [Version(f.created, a.issuer, None), Version(f.merged, a.issuer, Some(PicFor(a, f)))]
  }

  function AfterIssue(w: World, a: IssueArgs, f: Fresh): World {
    if Refused(a) then w
    else World(w.ledger[f.vcDid := VersionsFor(a, f)], w.signed + {(SignerFor(a), BodyFor(a, f))})
  }

  function IssuedFor(a: IssueArgs, f: Fresh): Issued {
    var b := BodyFor(a, f);
    Issued(f.vcDid, b.lineageId, b.counter, a.authority, f.salt, a.caveats, b.authorityCommitment,
           Pin(f.vcDid, f.merged, 2), a.holder)
  }

  /** The mint's own guard: an authority with something in it that the parent does not have. */
  lemma {:induction false} RefusedIff(a: IssueArgs)
    ensures Refused(a) <==> a.parent.Some? && !a.skipSubsetGuard && !Within(a.authority, a.parent.value.authority)
  {
    if a.parent.Some? { SubsetIsWithin(a.authority, a.parent.value.authority); }
  }

  /** What a mint leaves behind, knob by knob: an encrypted version, then one with the public block, and one signature;
      each knob replaces one value that otherwise comes from the parent, or from the mint itself for a root. */
  lemma {:induction false} MintIs(w: World, a: IssueArgs, f: Fresh)
    requires !Refused(a)
    ensures var root := a.parent.None?;
            var lineage := if a.overrideLineageId.Some? then a.overrideLineageId.value
                           else if root then f.vcDid else a.parent.value.lineageId;
            var counter := if a.overrideCounter.Some? then a.overrideCounter.value
                           else if root then 0 else a.parent.value.counter + 1;
            var prev := if a.overridePrev.Some? then a.overridePrev.value
                        else if root then None else Some(a.parent.value.pin);
            var above := if a.overrideParentCommitment.Some? then a.overrideParentCommitment.value
                         else if root then None else Some(a.parent.value.authorityCommitment);
            var own := Commit(a.authority, f.salt, a.caveats);
            var signer := if a.forgeAssertionWith.Some? then a.forgeAssertionWith.value else a.issuer;
            var body := Body(a.issuer, a.holder, STATEMENT, lineage, counter, own, above);
            var pic := Pic(lineage, counter, prev, own, above, Some(Assertion(body, Some(signer + "#key-1"))));
            && AfterIssue(w, a, f)
               == World(w.ledger[f.vcDid := [Version(f.created, a.issuer, None), Version(f.merged, a.issuer, Some(pic))]],
                        w.signed + {(signer, body)})
            && IssuedFor(a, f)
               == Issued(f.vcDid, lineage, counter, a.authority, f.salt, a.caveats, own, Pin(f.vcDid, f.merged, 2), a.holder)
  {
  }

  datatype Handle = Handle(issued: Issued, capability: Capability)

  datatype Spec = Spec(invocationTarget: string, authority: AuthoritySet, caveats: Caveats)

  function CapabilityFor(id: Did, holder: Did, parent: Option<Did>, s: Spec): Capability {
    Capability(id, holder, parent, s.invocationTarget, s.authority, s.caveats)
  }

  function RootArgs(issuer: Did, holder: Did, s: Spec): IssueArgs {
    Honest(issuer, holder, s.authority, s.caveats, None)
  }

  function ChildArgs(issuer: Did, holder: Did, parent: Handle, s: Spec): IssueArgs {
    Honest(issuer, holder, s.authority, s.caveats, Some(parent.issued))
  }

  function RootHandle(issuer: Did, holder: Did, s: Spec, f: Fresh): Handle {
    Handle(IssuedFor(RootArgs(issuer, holder, s), f), CapabilityFor(f.vcDid, holder, None, s))
  }

  function ChildHandle(issuer: Did, holder: Did, parent: Handle, s: Spec, f: Fresh): Handle {
    Handle(IssuedFor(ChildArgs(issuer, holder, parent, s), f),
           CapabilityFor(f.vcDid, holder, Some(parent.capability.id), s))
  }

  /** The issuer's own refusals: only the holder may delegate, and only what narrows; the mint has a guard of its own. */
  predicate MayDelegate(issuer: Did, holder: Did, parent: Handle, s: Spec) {
    && issuer == parent.capability.controller
    && CapabilityNarrows(CapabilityFor("urn:pending", holder, Some(parent.capability.id), s), parent.capability)
    && !Refused(ChildArgs(issuer, holder, parent, s))
  }

  /** The documents and signatures that a wallet adds to. */
  class Network {
    var world: World

    constructor ()
      ensures world == World(map[], {})
    {
      world := World(map[], {});
    }

    method EncryptJson(did: Did, controller: Did, version: string)
      modifies this
      ensures world == World(old(world.ledger)[did := [Version(version, controller, None)]], old(world.signed))
    {
      world := world.(ledger := world.ledger[did := [Version(version, controller, None)]]);
    }

    method AddProof(signer: Did, b: Body) returns (a: Assertion)
      modifies this
      ensures world == World(old(world.ledger), old(world.signed) + {(signer, b)})
      ensures a == Assertion(b, Some(MethodOf(signer)))
    {
      world := world.(signed := world.signed + {(signer, b)});
      a := Assertion(b, Some(MethodOf(signer)));
    }

    method MergeData(did: Did, version: string, pic: Pic)
      requires did in world.ledger && world.ledger[did] != []
      modifies this
      ensures world == World(
        old(world.ledger)[did := old(world.ledger)[did] + [Version(version, old(world.ledger)[did][0].controller, Some(pic))]],
        old(world.signed))
    {
      var vs := world.ledger[did];
      world := world.(ledger := world.ledger[did := vs + [Version(version, vs[0].controller, Some(pic))]]);
    }

    /** issueVc: one mint, with the knobs. */
    method IssueVc(a: IssueArgs, f: Fresh) returns (r: Option<Issued>)
      modifies this
      ensures world == AfterIssue(old(world), a, f)
      ensures r == if Refused(a) then None else Some(IssuedFor(a, f))
    {
      hide IsSubset, MethodOf;
      var authorityCommitment := Commit(a.authority, f.salt, a.caveats);
      if a.parent.Some? && !a.skipSubsetGuard && !IsSubset(a.authority, a.parent.value.authority) {
        return None;
      }
      var counter :=
        if a.overrideCounter.Some? then a.overrideCounter.value
        else if a.parent.Some? then a.parent.value.counter + 1 else 0;
      var parentAuthorityCommitment :=
        if a.overrideParentCommitment.Some? then a.overrideParentCommitment.value
        else if a.parent.Some? then Some(a.parent.value.authorityCommitment) else None;
      var prev :=
        if a.overridePrev.Some? then a.overridePrev.value
        else if a.parent.Some? then Some(a.parent.value.pin) else None;
      EncryptJson(f.vcDid, a.issuer, f.created);
      var lineageId :=
        if a.overrideLineageId.Some? then a.overrideLineageId.value
        else if a.parent.Some? then a.parent.value.lineageId else f.vcDid;
      var body := Body(a.issuer, a.holder, STATEMENT, lineageId, counter, authorityCommitment, parentAuthorityCommitment);
      var assertion := AddProof(a.forgeAssertionWith.GetOr(a.issuer), body);
      MergeData(f.vcDid, f.merged,
                Pic(lineageId, counter, prev, authorityCommitment, parentAuthorityCommitment, Some(assertion)));
      assert world.ledger[f.vcDid] == VersionsFor(a, f);
      var pin := Pin(f.vcDid, f.merged, |world.ledger[f.vcDid]|);
      return Some(Issued(f.vcDid, lineageId, counter, a.authority, f.salt, a.caveats, authorityCommitment, pin, a.holder));
    }

    method MintRootCapability(issuer: Did, holder: Did, s: Spec, f: Fresh) returns (h: Handle)
      modifies this
      ensures h == RootHandle(issuer, holder, s, f)
      ensures world == AfterIssue(old(world), RootArgs(issuer, holder, s), f)
    {
      var issued := IssueVc(RootArgs(issuer, holder, s), f);
      h := Handle(issued.value, CapabilityFor(f.vcDid, holder, None, s));
    }

    method DelegateCapability(issuer: Did, holder: Did, parent: Handle, s: Spec, f: Fresh) returns (h: Option<Handle>)
      modifies this
      ensures h == if MayDelegate(issuer, holder, parent, s) then Some(ChildHandle(issuer, holder, parent, s, f)) else None
      ensures world == if MayDelegate(issuer, holder, parent, s)
                       then AfterIssue(old(world), ChildArgs(issuer, holder, parent, s), f) else old(world)
    {
      if issuer != parent.capability.controller {
        return None;
      }
      var childCap := CapabilityFor("urn:pending", holder, Some(parent.capability.id), s);
      if !CapabilityNarrows(childCap, parent.capability) {
        return None;
      }
      var issued := IssueVc(ChildArgs(issuer, holder, parent, s), f);
      if issued.None? {
        return None;
      }
      return Some(Handle(issued.value, childCap.(id := issued.value.vcDid)));
    }
  }
}
