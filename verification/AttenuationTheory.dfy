/** What an accepted chain guarantees, and what can and cannot change the verdict on it. */
module AttenuationTheory {
  import opened Wrappers
  import opened Text
  import opened Timestamps
  import opened Capability
  import opened Attenuation

  // ---------- acceptance, without the order of the checks ----------

  /** The hops from a document on, following the pins, as far as they resolve. */
  function Walk(l: Ledger, did: Did, at: Option<nat>, fuel: nat): (hops: seq<Hop>)
    ensures |hops| <= fuel
    decreases fuel
  {
    if fuel == 0 || Resolve(l, did, at).None? then []
    else
      var h := Hop(did, Resolve(l, did, at).value);
      if h.doc.pic.None? || h.doc.pic.value.prev.None? then [h]
      else [h] + Walk(l, h.doc.pic.value.prev.value.did, Some(h.doc.pic.value.prev.value.versionSequence), fuel - 1)
  }

  predicate HopAlive(p: Policy, h: Hop) {
    var r := Disclosed(p, h.did);
    r.Some? && (p.requireStatus || p.status.Some?) ==>
      StatusOf(p, r.value, h.doc.controller) == Live
      || (StatusOf(p, r.value, h.doc.controller) == NoStatus && !p.requireStatus)
  }

  /** The hop's controller signed exactly what the public block says, and what is disclosed is what was committed. */
  predicate HopSound(w: World, p: Policy, h: Hop) {
    && h.doc.controller != "" && HasPic(h) && NamedBy(AssertionOf(h).proof, h.doc.controller)
    && (h.doc.controller, AssertionOf(h).body) in w.signed
    && SaysTheSame(AssertionOf(h).body, h.doc.pic.value)
    && (p.requireDisclosure ==> h.did in p.disclosed)
    && (h.did in p.disclosed ==>
          var r := p.disclosed[h.did]; h.doc.pic.value.authorityCommitment == Commit(r.authority, r.salt, r.caveats))
    && HopAlive(p, h)
  }

  /** What is signed and what is public agree in all that they share. */
  predicate SaysTheSame(b: Body, pic: Pic) {
    && b.authorityCommitment == pic.authorityCommitment && b.parentAuthorityCommitment == pic.parentAuthorityCommitment
    && b.counter == pic.counter && b.lineageId == pic.lineageId && b.statement == STATEMENT
  }

  /** The child extends the parent, was issued by the parent's holder, and is within it in every field. */
  predicate LinkAgrees(p: Policy, child: Hop, parent: Hop) {
    && HasPic(child) && HasPic(parent)
    && child.doc.pic.value.counter == parent.doc.pic.value.counter + 1
    && child.doc.pic.value.parentAuthorityCommitment == Some(parent.doc.pic.value.authorityCommitment)
    && child.doc.pic.value.lineageId == parent.doc.pic.value.lineageId
    && (p.bindDelegator ==> SignerOf(AssertionOf(child)) == AssertionOf(parent).body.holder)
    && (child.did in p.disclosed && parent.did in p.disclosed ==>
          var low, high := p.disclosed[child.did], p.disclosed[parent.did];
          Within(low.authority, high.authority)
          && (p.narrowing ==>
                low.caveats.Some? && high.caveats.Some? && Restricts(low.caveats.value, high.caveats.value)))
  }

  /** The child pins the very version of the parent that the walk came to. */
  predicate LinkSound(p: Policy, child: Hop, parent: Hop) {
    && child.doc.pic.Some? && child.doc.pic.value.prev.Some?
    && child.doc.pic.value.prev.value.versionId == parent.doc.versionId
    && LinkAgrees(p, child, parent)
  }

  predicate OriginSound(p: Policy, h: Hop) {
    && HasPic(h) && h.doc.pic.value.prev.None?
    && h.doc.pic.value.counter == 0 && h.doc.pic.value.parentAuthorityCommitment.None?
    && (p.expectedRoot.Some? && p.expectedRoot.value != "" ==> h.doc.controller == p.expectedRoot.value)
  }

  ghost predicate ChainSound(w: World, p: Policy, hops: seq<Hop>) {
    && hops != []
    && (forall i | 0 <= i < |hops| :: HopSound(w, p, hops[i]))
    && (forall i, j | 0 <= i && i + 1 == j < |hops| :: LinkSound(p, hops[i], hops[j]))
    && OriginSound(p, hops[|hops| - 1])
  }

  lemma {:induction false} HopFaultless(w: World, p: Policy, h: Hop)
    ensures HopFault(w, p, h).None? <==> HopSound(w, p, h)
  {
    hide UpToHash;
    if HasPic(h) && AssertionOf(h).proof.Some? { UpToHashIs(AssertionOf(h).proof.value, h.doc.controller); }
  }

  lemma {:induction false} LinkFaultless(p: Policy, child: Hop, parent: Hop)
    requires HasPic(child) && HasPic(parent)
    ensures PinMatches(child, parent) && LinkFault(p, child, parent).None? <==> LinkSound(p, child, parent)
  {
    hide IsSubset, Within, CaveatsNarrow, Restricts;
    if child.did in p.disclosed && parent.did in p.disclosed {
      var low, high := p.disclosed[child.did], p.disclosed[parent.did];
      SubsetIsWithin(low.authority, high.authority);
      if low.caveats.Some? && high.caveats.Some? { NarrowIffRestricts(low.caveats.value, high.caveats.value); }
    }
  }

  lemma {:induction false} ChainSoundCons(w: World, p: Policy, h: Hop, rest: seq<Hop>)
    requires rest != []
    ensures ChainSound(w, p, [h] + rest) <==> HopSound(w, p, h) && LinkSound(p, h, rest[0]) && ChainSound(w, p, rest)
  {
    var hops := [h] + rest;
    assert hops[1..] == rest;
    if ChainSound(w, p, hops) {
      assert HopSound(w, p, hops[0]) && LinkSound(p, hops[0], hops[1]);
      forall i | 0 <= i < |rest| ensures HopSound(w, p, rest[i]) { assert rest[i] == hops[i + 1]; }
      forall i, j | 0 <= i && i + 1 == j < |rest| ensures LinkSound(p, rest[i], rest[j]) {
        assert rest[i] == hops[i + 1] && rest[j] == hops[j + 1];
      }
    }
  }

  predicate LinkedTo(p: Policy, child: Option<Hop>, hops: seq<Hop>) {
    child.Some? ==> hops != [] && LinkSound(p, child.value, hops[0])
  }

  lemma {:induction false} AcceptFromIffSound(
      w: World, p: Policy, did: Did, at: Option<nat>, child: Option<Hop>, leaf: Option<Hop>, n: nat)
    requires n <= p.maxHops
    requires child.Some? ==> HasPic(child.value) && child.value.doc.pic.value.prev.Some?
    requires leaf.Some? ==> HasPic(leaf.value)
    requires child.Some? <==> leaf.Some?
    ensures var hops := Walk(w.ledger, did, at, p.maxHops - n); var r := VerdictFrom(w, p, did, at, child, leaf, n);
            && (r.Accept? <==> ChainSound(w, p, hops) && LinkedTo(p, child, hops))
            && (r.Accept? ==> r == Accept(n + |hops|, HolderOf(leaf.GetOr(hops[0])), Disclosed(p, leaf.GetOr(hops[0]).did)))
    decreases p.maxHops - n
  {
    hide HopFault, HopSound, LinkFault, LinkSound;
    if n < p.maxHops && Resolve(w.ledger, did, at).Some? {
      var h := Hop(did, Resolve(w.ledger, did, at).value);
      var hops := Walk(w.ledger, did, at, p.maxHops - n);
      assert hops[0] == h;
      HopFaultless(w, p, h);
      if HopFault(w, p, h).Some? {
        assert !ChainSound(w, p, hops);
      } else {
        SoundHasPic(w, p, h);
        if child.Some? { LinkFaultless(p, child.value, h); }
        if h.doc.pic.value.prev.Some? {
          var pin := h.doc.pic.value.prev.value;
          AcceptFromIffSound(w, p, pin.did, Some(pin.versionSequence), Some(h), Some(leaf.GetOr(h)), n + 1);
          var rest := Walk(w.ledger, pin.did, Some(pin.versionSequence), p.maxHops - n - 1);
          assert hops == [h] + rest;
          if rest != [] { ChainSoundCons(w, p, h, rest); }
        } else {
          assert hops == [h];
        }
      }
    }
  }

  lemma {:induction false} SoundHasPic(w: World, p: Policy, h: Hop)
    requires HopSound(w, p, h)
    ensures HasPic(h)
  {
  }

  /** The verifier accepts exactly the sound chains of at most maxHops hops, and reports their leaf. */
  lemma {:induction false} AcceptIffSound(w: World, p: Policy, leaf: Did)
    ensures var hops := Walk(w.ledger, leaf, None, p.maxHops); var r := Verdict(w, p, leaf);
            && (r.Accept? <==> ChainSound(w, p, hops))
            && (r.Accept? ==> r == Accept(|hops|, HolderOf(hops[0]), Disclosed(p, hops[0].did)) && hops[0].did == leaf)
  {
    AcceptFromIffSound(w, p, leaf, None, None, None, 0);
  }

  // ---------- what every accepted chain has ----------

  /** The authority and caveats a hop was disclosed with, when every hop is. */
  function DisclosureAt(p: Policy, hops: seq<Hop>, i: nat): Disclosure
    requires i < |hops| && hops[i].did in p.disclosed
  {
    p.disclosed[hops[i].did]
  }

  lemma {:induction false} NarrowsAncestor(w: World, p: Policy, hops: seq<Hop>, i: nat, j: nat)
    requires ChainSound(w, p, hops) && p.requireDisclosure && p.narrowing && i < j < |hops|
    requires forall k | 0 <= k < |hops| :: hops[k].did in p.disclosed
    ensures IsSubset(DisclosureAt(p, hops, i).authority, DisclosureAt(p, hops, j).authority)
    ensures NarrowsCaveats(DisclosureAt(p, hops, i), DisclosureAt(p, hops, j))
    decreases j - i
  {
    hide CaveatsNarrow, Restricts;
    assert LinkSound(p, hops[j - 1], hops[j]);
    SubsetIsWithin(DisclosureAt(p, hops, j - 1).authority, DisclosureAt(p, hops, j).authority);
    NarrowIffRestricts(DisclosureAt(p, hops, j - 1).caveats.value, DisclosureAt(p, hops, j).caveats.value);
    if i < j - 1 {
      NarrowsAncestor(w, p, hops, i, j - 1);
      NarrowIsTransitive(DisclosureAt(p, hops, i).caveats.value, DisclosureAt(p, hops, j - 1).caveats.value,
                         DisclosureAt(p, hops, j).caveats.value);
    }
  }

  /** Acceptance with full disclosure: every hop attenuates every hop above it, whatever the length of the chain. */
  lemma {:induction false} AcceptedAttenuates(w: World, p: Policy, leaf: Did, i: nat, j: nat)
    requires Verdict(w, p, leaf).Accept? && p.requireDisclosure && p.narrowing
    requires i < j < |Walk(w.ledger, leaf, None, p.maxHops)|
    ensures var hops := Walk(w.ledger, leaf, None, p.maxHops);
            && hops[i].did in p.disclosed && hops[j].did in p.disclosed && HasPic(hops[i])
            && IsSubset(p.disclosed[hops[i].did].authority, p.disclosed[hops[j].did].authority)
            && NarrowsCaveats(p.disclosed[hops[i].did], p.disclosed[hops[j].did])
            && hops[i].doc.pic.value.authorityCommitment == CommitOf(p.disclosed[hops[i].did])
  {
    AcceptIffSound(w, p, leaf);
    var hops := Walk(w.ledger, leaf, None, p.maxHops);
    forall k | 0 <= k < |hops| ensures hops[k].did in p.disclosed { assert HopSound(w, p, hops[k]); }
    assert HopSound(w, p, hops[i]);
    NarrowsAncestor(w, p, hops, i, j);
  }

  /** The same, written out: no operation, resource or kind is added, no ceiling rises, owner, recipient, burn-once and
      revocability are never lost, no expiry becomes a later string, and every discharge that an ancestor requires is
      required under its key. */
  lemma {:induction false} AcceptedKeepsRestrictions(w: World, p: Policy, leaf: Did, i: nat, j: nat)
    requires Verdict(w, p, leaf).Accept? && p.requireDisclosure && p.narrowing
    requires i < j < |Walk(w.ledger, leaf, None, p.maxHops)|
    ensures var hops := Walk(w.ledger, leaf, None, p.maxHops);
            && hops[i].did in p.disclosed && hops[j].did in p.disclosed
            && p.disclosed[hops[i].did].caveats.Some? && p.disclosed[hops[j].did].caveats.Some?
            && Within(p.disclosed[hops[i].did].authority, p.disclosed[hops[j].did].authority)
            && Restricts(p.disclosed[hops[i].did].caveats.value, p.disclosed[hops[j].did].caveats.value)
  {
    hide Verdict, Walk, CaveatsNarrow, Restricts;
    AcceptedAttenuates(w, p, leaf, i, j);
    var hops := Walk(w.ledger, leaf, None, p.maxHops);
    SubsetIsWithin(p.disclosed[hops[i].did].authority, p.disclosed[hops[j].did].authority);
    NarrowIffRestricts(p.disclosed[hops[i].did].caveats.value, p.disclosed[hops[j].did].caveats.value);
  }

  /** What that means for the uses of the capability: whatever a hop of an accepted chain admits, every ancestor
      admits, if and only if owner, instant of expiry and required discharges are kept, or the hop admits nothing. */
  lemma {:induction false} AcceptedAdmitsLess(
      w: World, p: Policy, leaf: Did, i: nat, j: nat, sovereign: Did, clock: string -> Option<int>)
    requires Verdict(w, p, leaf).Accept? && p.requireDisclosure && p.narrowing
    requires i < j < |Walk(w.ledger, leaf, None, p.maxHops)|
    ensures var hops := Walk(w.ledger, leaf, None, p.maxHops);
            && hops[i].did in p.disclosed && hops[j].did in p.disclosed
            && p.disclosed[hops[i].did].caveats.Some? && p.disclosed[hops[j].did].caveats.Some?
            && var low, high := p.disclosed[hops[i].did].caveats.value, p.disclosed[hops[j].did].caveats.value;
               ((forall use :: Admits(low, use, sovereign, clock) ==> Admits(high, use, sovereign, clock))
                <==> !AdmitsSome(low, clock) || Kept(low, high, sovereign, clock))
  {
    hide Verdict, Walk, CaveatsNarrow, Admits, Kept, AdmitsSome;
    AcceptedAttenuates(w, p, leaf, i, j);
    var hops := Walk(w.ledger, leaf, None, p.maxHops);
    NarrowerAdmitsLess(p.disclosed[hops[i].did].caveats.value, p.disclosed[hops[j].did].caveats.value, sovereign, clock);
  }

  /** Expiries of one form in UTC, and designators without a separator. */
  predicate WellFormed(c: Caveats, millis: bool) {
    UtcIfBounded(c.expires) && (Bounded(c.expires) ==> HasMillis(c.expires.value) == millis)
    && PlainDischarges(c.requiresDischarge)
  }

  /** Between such caveats acceptance is enough: no hop outlives an ancestor or loses a discharge of one. */
  lemma {:induction false} AcceptedKeepsTimeAndConsent(
      w: World, p: Policy, leaf: Did, i: nat, j: nat, clock: string -> Option<int>, millis: bool)
    requires Verdict(w, p, leaf).Accept? && p.requireDisclosure && p.narrowing && ReadsUtc(clock)
    requires i < j < |Walk(w.ledger, leaf, None, p.maxHops)|
    requires forall d | d in p.disclosed && p.disclosed[d].caveats.Some? :: WellFormed(p.disclosed[d].caveats.value, millis)
    ensures var hops := Walk(w.ledger, leaf, None, p.maxHops);
            && hops[i].did in p.disclosed && hops[j].did in p.disclosed
            && p.disclosed[hops[i].did].caveats.Some? && p.disclosed[hops[j].did].caveats.Some?
            && var low, high := p.disclosed[hops[i].did].caveats.value, p.disclosed[hops[j].did].caveats.value;
               InstantKept(low, high, clock) && DischargesKept(low, high)
  {
    hide Verdict, Walk, CaveatsNarrow, InstantKept, DischargesKept, IsUtc, InstantOf, ReadsUtc;
    AcceptedAttenuates(w, p, leaf, i, j);
    var hops := Walk(w.ledger, leaf, None, p.maxHops);
    var low, high := p.disclosed[hops[i].did].caveats.value, p.disclosed[hops[j].did].caveats.value;
    assert WellFormed(low, millis) && WellFormed(high, millis);
    NarrowBounds(low, high);
    UtcKeepsInstant(low, high, clock);
    PlainKeepsDischarges(low, high);
  }

  lemma {:induction false} NarrowBounds(low: Caveats, high: Caveats)
    requires CaveatsNarrow(low, high)
    ensures Bounded(high.expires) ==> Bounded(low.expires)
  {
  }

  /** Every hop below the origin was signed by the holder that the hop above it names, the origin by the root. */
  lemma {:induction false} AcceptedDelegation(w: World, p: Policy, leaf: Did, i: nat)
    requires Verdict(w, p, leaf).Accept? && p.bindDelegator && p.expectedRoot.Some? && p.expectedRoot.value != ""
    requires i < |Walk(w.ledger, leaf, None, p.maxHops)|
    ensures var hops := Walk(w.ledger, leaf, None, p.maxHops);
            var issuer := if i + 1 < |hops| && HasPic(hops[i + 1]) then HolderOf(hops[i + 1]) else p.expectedRoot.value;
            HasPic(hops[i]) && (issuer, AssertionOf(hops[i]).body) in w.signed
  {
    AcceptIffSound(w, p, leaf);
    var hops := Walk(w.ledger, leaf, None, p.maxHops);
    assert HopSound(w, p, hops[i]);
    UpToHashIs(AssertionOf(hops[i]).proof.value, hops[i].doc.controller);
    if i + 1 < |hops| { assert LinkSound(p, hops[i], hops[i + 1]); }
  }

  // ---------- revocation ----------

  predicate RevokedHop(p: Policy, h: Hop) {
    h.did in p.disclosed && p.status.Some? && StatusOf(p, p.disclosed[h.did], h.doc.controller) == Revoked
  }

  /** The kill-switch: a chain that passes through a revoked hop is not accepted, wherever the hop stands. */
  lemma {:induction false} KillSwitch(w: World, p: Policy, leaf: Did, i: nat)
    requires i < |Walk(w.ledger, leaf, None, p.maxHops)|
    requires RevokedHop(p, Walk(w.ledger, leaf, None, p.maxHops)[i])
    ensures !Verdict(w, p, leaf).Accept?
  {
    AcceptIffSound(w, p, leaf);
    var hops := Walk(w.ledger, leaf, None, p.maxHops);
    assert !HopSound(w, p, hops[i]);
  }

  predicate SameStatus(p: Policy, q: Policy, h: Hop) {
    h.did in p.disclosed ==>
      StatusOf(p, p.disclosed[h.did], h.doc.controller) == StatusOf(q, p.disclosed[h.did], h.doc.controller)
  }

  lemma {:induction false} StatusElsewhereFrom(
      w: World, p: Policy, q: Policy, did: Did, at: Option<nat>, child: Option<Hop>, leaf: Option<Hop>, n: nat)
    requires q == p.(status := q.status) && p.status.Some? && q.status.Some? && n <= p.maxHops
    requires child.Some? ==> HasPic(child.value)
    requires leaf.Some? ==> HasPic(leaf.value)
    requires child.Some? <==> leaf.Some?
    requires forall h | h in Walk(w.ledger, did, at, p.maxHops - n) :: SameStatus(p, q, h)
    ensures VerdictFrom(w, p, did, at, child, leaf, n) == VerdictFrom(w, q, did, at, child, leaf, n)
    decreases p.maxHops - n
  {
    hide LinkFault;
    if n < p.maxHops && Resolve(w.ledger, did, at).Some? {
      var h := Hop(did, Resolve(w.ledger, did, at).value);
      assert h == Walk(w.ledger, did, at, p.maxHops - n)[0];
      assert SameStatus(p, q, h);
      assert HopFault(w, p, h) == HopFault(w, q, h);
      if child.Some? && HasPic(h) { SameLinks(p, q, child.value, h); }
      if HopFault(w, p, h).None? && h.doc.pic.value.prev.Some? {
        var pin := h.doc.pic.value.prev.value;
        var rest := Walk(w.ledger, pin.did, Some(pin.versionSequence), p.maxHops - n - 1);
        assert Walk(w.ledger, did, at, p.maxHops - n) == [h] + rest;
        StatusElsewhereFrom(w, p, q, pin.did, Some(pin.versionSequence), Some(h), Some(leaf.GetOr(h)), n + 1);
      }
    }
  }

  lemma {:induction false} SameLinks(p: Policy, q: Policy, child: Hop, parent: Hop)
    requires q == p.(status := q.status) && HasPic(child) && HasPic(parent)
    ensures LinkFault(p, child, parent) == LinkFault(q, child, parent)
  {
  }

  /** A status change that does not concern the hops of a chain does not change the verdict on it. */
  lemma {:induction false} RevocationElsewhere(w: World, p: Policy, q: Policy, leaf: Did)
    requires q == p.(status := q.status) && p.status.Some? && q.status.Some?
    requires forall h | h in Walk(w.ledger, leaf, None, p.maxHops) :: SameStatus(p, q, h)
    ensures Verdict(w, p, leaf) == Verdict(w, q, leaf)
  {
    StatusElsewhereFrom(w, p, q, leaf, None, None, None, 0);
  }

  // ---------- pinning ----------

  /** Later versions were appended to some documents, and documents were created. */
  ghost predicate Extends(later: Ledger, l: Ledger) {
    forall did | did in l :: did in later && l[did] <= later[did]
  }

  lemma {:induction false} PinnedVersionStays(l: Ledger, later: Ledger, did: Did, n: nat)
    requires Extends(later, l) && Resolve(l, did, Some(n)).Some?
    ensures Resolve(later, did, Some(n)) == Resolve(l, did, Some(n))
  {
    assert l[did] <= later[did];
  }

  lemma {:induction false} PinnedFrom(
      w: World, later: Ledger, p: Policy, did: Did, at: Option<nat>, child: Option<Hop>, leaf: Option<Hop>, n: nat)
    requires n <= p.maxHops && Extends(later, w.ledger)
    requires child.Some? ==> HasPic(child.value)
    requires leaf.Some? ==> HasPic(leaf.value)
    requires child.Some? <==> leaf.Some?
    requires Resolve(later, did, at) == Resolve(w.ledger, did, at)
    requires VerdictFrom(w, p, did, at, child, leaf, n) != Unresolvable
    ensures VerdictFrom(w.(ledger := later), p, did, at, child, leaf, n) == VerdictFrom(w, p, did, at, child, leaf, n)
    decreases p.maxHops - n
  {
    hide LinkFault;
    if n < p.maxHops {
      var h := Hop(did, Resolve(w.ledger, did, at).value);
      assert HopFault(w, p, h) == HopFault(w.(ledger := later), p, h);
      if HopFault(w, p, h).None? && h.doc.pic.value.prev.Some? && n + 1 < p.maxHops {
        if child.None? || (PinMatches(child.value, h) && LinkFault(p, child.value, h).None?) {
          var pin := h.doc.pic.value.prev.value;
          PinnedVersionStays(w.ledger, later, pin.did, pin.versionSequence);
          PinnedFrom(w, later, p, pin.did, Some(pin.versionSequence), Some(h), Some(leaf.GetOr(h)), n + 1);
        }
      }
    }
  }

  /** Pinning: no sequence of later versions of the ancestors changes the verdict on a leaf that stays as it is. */
  lemma {:induction false} PinnedVerdict(w: World, later: Ledger, p: Policy, leaf: Did)
    requires Extends(later, w.ledger) && Resolve(later, leaf, None) == Resolve(w.ledger, leaf, None)
    requires Verdict(w, p, leaf) != Unresolvable
    ensures Verdict(w.(ledger := later), p, leaf) == Verdict(w, p, leaf)
  {
    PinnedFrom(w, later, p, leaf, None, None, None, 0);
  }

  /** The walk of a verifier that follows the bare DID of the parent instead of the pinned version. */
  function BareWalk(l: Ledger, did: Did, fuel: nat): seq<Hop>
    decreases fuel
  {
    if fuel == 0 || Resolve(l, did, None).None? then []
    else
      var h := Hop(did, Resolve(l, did, None).value);
      if h.doc.pic.None? || h.doc.pic.value.prev.None? then [h]
      else [h] + BareWalk(l, h.doc.pic.value.prev.value.did, fuel - 1)
  }

  /** Acceptance by a verifier that makes all the checks but follows bare DIDs. */
  ghost predicate BareSound(w: World, p: Policy, hops: seq<Hop>) {
    && hops != []
    && (forall i | 0 <= i < |hops| :: HopSound(w, p, hops[i]))
    && (forall i, j | 0 <= i && i + 1 == j < |hops| :: LinkAgrees(p, hops[i], hops[j]))
    && OriginSound(p, hops[|hops| - 1])
  }

  function SignedVersion(id: string, controller: Did, holder: Did, line: string, counter: int, prev: Option<Pin>,
                         c: Commitment, parent: Option<Commitment>): Version {
    Version(id, controller, Some(Pic(line, counter, prev, c, parent,
      Some(Assertion(Body(controller, holder, STATEMENT, line, counter, c, parent), Some(controller))))))
  }

  const ORIGIN := Hop("R", SignedVersion("r1", "S", "E", "R", 0, None, Other("c"), None))
  const REWRITTEN := Hop("R", SignedVersion("r2", "S", "E", "Q", 0, None, Other("c"), None))
  const LEAF := Hop("L", SignedVersion("l1", "E", "T", "R", 1, Some(Pin("R", "r1", 1)), Other("d"), Some(Other("c"))))
  const BEFORE: Ledger := map["R" := [ORIGIN.doc], "L" := [LEAF.doc]]
  const AFTER: Ledger := map["R" := [ORIGIN.doc, REWRITTEN.doc], "L" := [LEAF.doc]]
  const SIGNED: set<(Did, Body)> :=
    {("S", AssertionOf(ORIGIN).body), ("S", AssertionOf(REWRITTEN).body), ("E", AssertionOf(LEAF).body)}
  const ROOTED := Policy(Some("S"), map[], 64, false, true, false, None, true)

  lemma {:induction false} PinnedWalk(l: Ledger)
    requires l == BEFORE || l == AFTER
    ensures Walk(l, "L", None, 64) == [LEAF, ORIGIN]
  {
    assert Resolve(l, "L", None) == Some(LEAF.doc) && Resolve(l, "R", Some(1)) == Some(ORIGIN.doc);
    assert Walk(l, "R", Some(1), 63) == [ORIGIN];
  }

  lemma {:induction false} BareWalks()
    ensures BareWalk(BEFORE, "L", 64) == [LEAF, ORIGIN] && BareWalk(AFTER, "L", 64) == [LEAF, REWRITTEN]
  {
    assert BareWalk(BEFORE, "R", 63) == [ORIGIN] && BareWalk(AFTER, "R", 63) == [REWRITTEN];
  }

  lemma {:induction false} ExampleHops(l: Ledger)
    ensures HopSound(World(l, SIGNED), ROOTED, LEAF) && HopSound(World(l, SIGNED), ROOTED, ORIGIN)
    ensures LinkSound(ROOTED, LEAF, ORIGIN) && OriginSound(ROOTED, ORIGIN) && !LinkAgrees(ROOTED, LEAF, REWRITTEN)
  {
    assert UpToHash("S") == "S" && UpToHash("E") == "E";
  }

  /** The origin appends a version whose block claims another line: the pinned verdict stays, the bare one changes. */
  lemma {:induction false} BareDidFollowsLaterVersions()
    ensures Extends(AFTER, BEFORE) && Resolve(AFTER, "L", None) == Resolve(BEFORE, "L", None)
    ensures Verdict(World(BEFORE, SIGNED), ROOTED, "L").Accept? && Verdict(World(AFTER, SIGNED), ROOTED, "L").Accept?
    ensures BareSound(World(BEFORE, SIGNED), ROOTED, BareWalk(BEFORE, "L", 64))
    ensures !BareSound(World(AFTER, SIGNED), ROOTED, BareWalk(AFTER, "L", 64))
  {
    hide HopSound, LinkSound, LinkAgrees, OriginSound;
    ExampleHops(BEFORE);
    ExampleHops(AFTER);
    PinnedWalk(BEFORE);
    PinnedWalk(AFTER);
    AcceptIffSound(World(BEFORE, SIGNED), ROOTED, "L");
    AcceptIffSound(World(AFTER, SIGNED), ROOTED, "L");
    BareWalks();
    LinkSoundAgrees(ROOTED, LEAF, ORIGIN);
    assert !LinkAgrees(ROOTED, [LEAF, REWRITTEN][0], [LEAF, REWRITTEN][1]);
  }

  lemma {:induction false} LinkSoundAgrees(p: Policy, child: Hop, parent: Hop)
    requires LinkSound(p, child, parent)
    ensures LinkAgrees(p, child, parent)
  {
  }
}
