/** Attenuation chains: each hop is a document of its own whose public block pins a version of its parent,
    and a verifier walks from the leaf to the origin. Documents are append-only sequences of versions, hashes
    are injective constructors, and a signature is a fact about a signer and what it signed. */
module Attenuation {
  import opened Wrappers
  import opened Text
  import opened Capability

  /** A commitment computed over a set, a salt and the caveats, or any other string. */
  datatype Commitment = Commit(authority: AuthoritySet, salt: string, caveats: Option<Caveats>) | Other(text: string)

  datatype Pin = Pin(did: Did, versionId: string, versionSequence: nat)

  /** What the attenuating party signs. */
  datatype Body = Body(
    issuer: Did, holder: Did, statement: string, lineageId: string, counter: int,
    authorityCommitment: Commitment, parentAuthorityCommitment: Option<Commitment>)

  /** A proof is known by the verification method it names: a DID, then '#' and a key name. */
  datatype Assertion = Assertion(body: Body, proof: Option<string>)

  datatype Pic = Pic(
    lineageId: string, counter: int, prev: Option<Pin>,
    authorityCommitment: Commitment, parentAuthorityCommitment: Option<Commitment>, assertion: Option<Assertion>)

  datatype Version = Version(versionId: string, controller: Did, pic: Option<Pic>)

  /** The versions of each document, oldest first. */
  type Ledger = map<Did, seq<Version>>

  datatype World = World(ledger: Ledger, signed: set<(Did, Body)>)

  datatype Disclosure = Disclosure(authority: AuthoritySet, salt: string, caveats: Option<Caveats>)

  datatype HopStatus = Live | Revoked | Unavailable | NoStatus

  datatype Policy = Policy(
    expectedRoot: Option<Did>, disclosed: map<Did, Disclosure>, maxHops: nat, requireDisclosure: bool, narrowing: bool,
    requireStatus: bool, status: Option<(Option<Caveats>, Did) -> HopStatus>, bindDelegator: bool)

  datatype Check =
    | PinCheck | ControllerCheck | SignatureCheck | DisclosureCheck | CommitCheck | RevokedCheck | StatusCheck
    | RevocableCheck | CounterCheck | CommitmentChainCheck | LineageCheck | DelegatorCheck | SubsetCheck
    | CaveatsCheck | RootCheck | DepthCheck

  datatype Result =
    | Accept(chainLength: nat, holder: Did, leaf: Option<Disclosure>)
    | Reject(check: Check, vc: Did)
    | Unresolvable

  const STATEMENT := "authoritySet \U{2286} parent.authoritySet"

  /** Version n of a document, counted from 1, or its latest version. */
  function Resolve(l: Ledger, did: Did, at: Option<nat>): Option<Version> {
    if did !in l || l[did] == [] then None
    else if at.None? then Some(l[did][|l[did]| - 1])
    else if 1 <= at.value <= |l[did]| then Some(l[did][at.value - 1])
    else None
  }

  function SignerOf(a: Assertion): Did {
    UpToHash(a.proof.GetOr(""))
  }

  predicate VerifyProof(w: World, a: Assertion) {
    (SignerOf(a), a.body) in w.signed
  }

  function Disclosed(p: Policy, did: Did): Option<Disclosure> {
    if did in p.disclosed then Some(p.disclosed[did]) else None
  }

  function CommitOf(r: Disclosure): Commitment {
    Commit(r.authority, r.salt, r.caveats)
  }

  // ---------- the checks, in the verifier's order ----------

  datatype Hop = Hop(did: Did, doc: Version)

  predicate SplitBrain(b: Body, pic: Pic) {
    b.authorityCommitment != pic.authorityCommitment || b.parentAuthorityCommitment != pic.parentAuthorityCommitment
    || b.counter != pic.counter || b.lineageId != pic.lineageId || b.statement != STATEMENT
  }

  function StatusOf(p: Policy, r: Disclosure, controller: Did): HopStatus {
    if p.status.Some? then p.status.value(r.caveats, controller) else NoStatus
  }

  function StatusFault(p: Policy, r: Option<Disclosure>, controller: Did): Option<Check> {
    if r.None? || !(p.requireStatus || p.status.Some?) then None
    else
      match StatusOf(p, r.value, controller)
      case Revoked => Some(RevokedCheck)
      case Unavailable => Some(StatusCheck)
      case NoStatus => if p.requireStatus then Some(RevocableCheck) else None
      case Live => None
  }

  function HopFault(w: World, p: Policy, h: Hop): Option<Check> {
    if h.doc.controller == "" || h.doc.pic.None? then Some(ControllerCheck)
    else
      var pic := h.doc.pic.value;
      var r := Disclosed(p, h.did);
      if pic.assertion.None? || pic.assertion.value.proof.None? || !VerifyProof(w, pic.assertion.value)
         || SignerOf(pic.assertion.value) != h.doc.controller || SplitBrain(pic.assertion.value.body, pic)
      then Some(SignatureCheck)
      else if p.requireDisclosure && r.None? then Some(DisclosureCheck)
      else if r.Some? && CommitOf(r.value) != pic.authorityCommitment then Some(CommitCheck)
      else StatusFault(p, r, h.doc.controller)
  }

  predicate HasPic(h: Hop) {
    h.doc.pic.Some? && h.doc.pic.value.assertion.Some?
  }

  function AssertionOf(h: Hop): Assertion
    requires HasPic(h)
  {
    h.doc.pic.value.assertion.value
  }

  function HolderOf(h: Hop): Did
    requires HasPic(h)
  {
    AssertionOf(h).body.holder
  }

  predicate NarrowsCaveats(child: Disclosure, parent: Disclosure) {
    child.caveats.Some? && parent.caveats.Some? && CaveatsNarrow(child.caveats.value, parent.caveats.value)
  }

  function LinkFault(p: Policy, child: Hop, parent: Hop): Option<Check>
    requires HasPic(child) && HasPic(parent)
  {
    var c, q := child.doc.pic.value, parent.doc.pic.value;
    var cr, r := Disclosed(p, child.did), Disclosed(p, parent.did);
    if c.counter != q.counter + 1 then Some(CounterCheck)
    else if c.parentAuthorityCommitment != Some(q.authorityCommitment) then Some(CommitmentChainCheck)
    else if c.lineageId != q.lineageId then Some(LineageCheck)
    else if p.bindDelegator && SignerOf(AssertionOf(child)) != HolderOf(parent) then Some(DelegatorCheck)
    else if r.Some? && cr.Some? && !IsSubset(cr.value.authority, r.value.authority) then Some(SubsetCheck)
    else if r.Some? && cr.Some? && p.narrowing && !NarrowsCaveats(cr.value, r.value) then Some(CaveatsCheck)
    else None
  }

  predicate RootMatches(p: Policy, controller: Did) {
    p.expectedRoot.Some? && p.expectedRoot.value != "" ==> controller == p.expectedRoot.value
  }

  function OriginFault(p: Policy, h: Hop): Option<Check>
    requires HasPic(h)
  {
    if h.doc.pic.value.counter != 0 then Some(CounterCheck)
    else if h.doc.pic.value.parentAuthorityCommitment.Some? then Some(CommitmentChainCheck)
    else if !RootMatches(p, h.doc.controller) then Some(RootCheck)
    else None
  }

  predicate PinMatches(child: Hop, parent: Hop) {
    child.doc.pic.Some? && child.doc.pic.value.prev.Some?
    && parent.doc.versionId == child.doc.pic.value.prev.value.versionId
  }

  /** The verdict from a hop on, n hops having been passed, the last of them child and the first of them leaf. */
  function VerdictFrom(
      w: World, p: Policy, did: Did, at: Option<nat>, child: Option<Hop>, leaf: Option<Hop>, n: nat): Result
    requires n <= p.maxHops
    requires child.Some? ==> HasPic(child.value)
    requires leaf.Some? ==> HasPic(leaf.value)
    requires child.Some? <==> leaf.Some?
    decreases p.maxHops - n
  {
    if n == p.maxHops then Reject(DepthCheck, did)
    else if Resolve(w.ledger, did, at).None? then Unresolvable
    else
      var h := Hop(did, Resolve(w.ledger, did, at).value);
      if child.Some? && !PinMatches(child.value, h) then Reject(PinCheck, did)
      else if HopFault(w, p, h).Some? then Reject(HopFault(w, p, h).value, did)
      else if child.Some? && LinkFault(p, child.value, h).Some? then
        Reject(LinkFault(p, child.value, h).value, child.value.did)
      else if h.doc.pic.value.prev.None? then
        if OriginFault(p, h).Some? then Reject(OriginFault(p, h).value, did)
        else Accept(n + 1, HolderOf(leaf.GetOr(h)), Disclosed(p, leaf.GetOr(h).did))
      else
        var pin := h.doc.pic.value.prev.value;
        VerdictFrom(w, p, pin.did, Some(pin.versionSequence), Some(h), Some(leaf.GetOr(h)), n + 1)
  }

  function Verdict(w: World, p: Policy, leaf: Did): Result {
    VerdictFrom(w, p, leaf, None, None, None, 0)
  }

  /** verifyAttenuationChain, statement by statement. */
  method VerifyAttenuationChain(w: World, p: Policy, leafVcDid: Did) returns (r: Result)
    ensures r == Verdict(w, p, leafVcDid)
  {
    hide IsSubset, NarrowsCaveats, SignerOf, VerifyProof, CommitOf, Resolve, SplitBrain, Disclosed;
    var did := leafVcDid;
    var useVersion: Option<nat> := None;
    var expectFromChild: Option<Hop> := None;
    var length := 0;
    var leafHop: Option<Hop> := None;
    for step := 0 to p.maxHops
      invariant length == step
      invariant expectFromChild.Some? <==> leafHop.Some?
      invariant step == 0 <==> expectFromChild.None?
      invariant expectFromChild.Some? ==> HasPic(expectFromChild.value) && expectFromChild.value.doc.pic.value.prev.Some?
      invariant leafHop.Some? ==> HasPic(leafHop.value)
      invariant VerdictFrom(w, p, did, useVersion, expectFromChild, leafHop, step) == Verdict(w, p, leafVcDid)
    {
      var doc := Resolve(w.ledger, did, useVersion);
      if doc.None? {
        return Unresolvable;
      }
      var h := Hop(did, doc.value);
      if expectFromChild.Some? && h.doc.versionId != expectFromChild.value.doc.pic.value.prev.value.versionId {
        return Reject(PinCheck, did);
      }
      if h.doc.controller == "" {
        return Reject(ControllerCheck, did);
      }
      if h.doc.pic.None? {
        return Reject(ControllerCheck, did);
      }
      var pic := h.doc.pic.value;
      if pic.assertion.None? || pic.assertion.value.proof.None? {
        return Reject(SignatureCheck, did);
      }
      var asrt := pic.assertion.value;
      if !VerifyProof(w, asrt) {
        return Reject(SignatureCheck, did);
      }
      if SignerOf(asrt) != h.doc.controller {
        return Reject(SignatureCheck, did);
      }
      if SplitBrain(asrt.body, pic) {
        return Reject(SignatureCheck, did);
      }
      var shown := Disclosed(p, did);
      if p.requireDisclosure && shown.None? {
        return Reject(DisclosureCheck, did);
      }
      if shown.Some? && CommitOf(shown.value) != pic.authorityCommitment {
        return Reject(CommitCheck, did);
      }
      if shown.Some? && (p.requireStatus || p.status.Some?) {
        var st := if p.status.Some? then p.status.value(shown.value.caveats, h.doc.controller) else NoStatus;
        if st == Revoked {
          return Reject(RevokedCheck, did);
        }
        if st == Unavailable {
          return Reject(StatusCheck, did);
        }
        if st == NoStatus && p.requireStatus {
          return Reject(RevocableCheck, did);
        }
      }
      if step == 0 {
        leafHop := Some(h);
      }
      if expectFromChild.Some? {
        var childDid := expectFromChild.value.did;
        var child := expectFromChild.value.doc.pic.value;
        if child.counter != pic.counter + 1 {
          return Reject(CounterCheck, childDid);
        }
        if child.parentAuthorityCommitment != Some(pic.authorityCommitment) {
          return Reject(CommitmentChainCheck, childDid);
        }
        if child.lineageId != pic.lineageId {
          return Reject(LineageCheck, childDid);
        }
        if p.bindDelegator && SignerOf(child.assertion.value) != asrt.body.holder {
          return Reject(DelegatorCheck, childDid);
        }
        var childShown := Disclosed(p, childDid);
        if shown.Some? && childShown.Some? && !IsSubset(childShown.value.authority, shown.value.authority) {
          return Reject(SubsetCheck, childDid);
        }
        if shown.Some? && childShown.Some? && p.narrowing && !NarrowsCaveats(childShown.value, shown.value) {
          return Reject(CaveatsCheck, childDid);
        }
      }
      length := length + 1;
      if pic.prev.None? {
        if pic.counter != 0 {
          return Reject(CounterCheck, did);
        }
        if pic.parentAuthorityCommitment.Some? {
          return Reject(CommitmentChainCheck, did);
        }
        if p.expectedRoot.Some? && p.expectedRoot.value != "" && h.doc.controller != p.expectedRoot.value {
          return Reject(RootCheck, did);
        }
        return Accept(length, HolderOf(leafHop.value), Disclosed(p, leafHop.value.did));
      }
      expectFromChild := Some(h);
      did := pic.prev.value.did;
      useVersion := Some(pic.prev.value.versionSequence);
    }
    return Reject(DepthCheck, did);
  }
}
