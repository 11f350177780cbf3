/** What a holder may delegate, in plain terms, and that the verifier accepts what was delegated. */
module Delegation {
  import opened Wrappers
  import opened Text
  import opened Capability
  import opened Attenuation
  import opened AttenuationTheory
  import opened Issuance
  import opened IssuanceTheory

  /** What may be granted below a grant: field by field. */
  predicate SpecWithin(child: Spec, parent: Spec) {
    && TargetExtends(child.invocationTarget, parent.invocationTarget)
    && Within(child.authority, parent.authority) && Restricts(child.caveats, parent.caveats)
  }

  lemma {:induction false} LastHandleHolds(chain: seq<Mint>)
    requires chain != []
    ensures var m, h := chain[|chain| - 1], LastHandle(chain);
            && h.capability.controller == m.holder && h.capability.invocationTarget == m.spec.invocationTarget
            && h.capability.authority == m.spec.authority && h.capability.caveats == m.spec.caveats
            && h.issued.authority == m.spec.authority
  {
    hide BodyFor;
  }

  /** Whoever holds the last capability of a chain, and nobody else, may delegate it, to anybody, exactly if what is
      granted is within what it was granted: any fewer operations and resources, any lower ceiling, and so on. */
  lemma {:induction false} MayDelegateIff(chain: seq<Mint>, issuer: Did, holder: Did, s: Spec)
    requires chain != []
    ensures MayDelegate(issuer, holder, LastHandle(chain), s)
       <==> issuer == chain[|chain| - 1].holder && SpecWithin(s, chain[|chain| - 1].spec)
  {
    hide LastHandle, IsSubset, Within, CaveatsNarrow, Restricts, TargetWithin, TargetExtends, NormalizeCaveats;
    LastHandleHolds(chain);
    var last := chain[|chain| - 1].spec;
    SubsetIsWithin(s.authority, last.authority);
    NarrowIffRestricts(s.caveats, last.caveats);
    TargetIsWithin(s.invocationTarget, last.invocationTarget);
  }

  /** What is made of a delegation names its parent and its holder, and is within its parent. */
  lemma {:induction false} DelegatedNarrows(issuer: Did, holder: Did, parent: Handle, s: Spec, f: Fresh)
    requires MayDelegate(issuer, holder, parent, s)
    ensures var child := ChildHandle(issuer, holder, parent, s, f).capability;
            && child.id == f.vcDid && child.controller == holder && child.parentCapability == Some(parent.capability.id)
            && TargetExtends(child.invocationTarget, parent.capability.invocationTarget)
            && Within(child.authority, parent.capability.authority) && Restricts(child.caveats, parent.capability.caveats)
  {
    hide IsSubset, Within, CaveatsNarrow, Restricts, TargetWithin, TargetExtends, NormalizeCaveats, IssuedFor, Refused;
    CapabilityNarrowsIff(CapabilityFor("urn:pending", holder, Some(parent.capability.id), s), parent.capability);
  }

  /** A chain of grants in plain terms: each hop is issued by the holder of the one before, within it. */
  ghost predicate WellGranted(chain: seq<Mint>) {
    && (forall i :: 0 <= i < |chain| ==> PlainDid(chain[i].issuer))
    && forall i, j :: 0 <= i && i + 1 == j < |chain| ==>
         chain[j].issuer == chain[i].holder && SpecWithin(chain[j].spec, chain[i].spec)
  }

  /** The guards of issuance let through exactly the chains of grants that are within each other. */
  lemma {:induction false} GuardedIffWellGranted(chain: seq<Mint>)
    ensures Guarded(chain) <==> WellGranted(chain)
  {
    hide MayDelegate, SpecWithin, PlainDid;
    if chain != [] {
      var n := |chain| - 1;
      GuardedIffWellGranted(chain[..n]);
      if n > 0 { MayDelegateIff(chain[..n], chain[n].issuer, chain[n].holder, chain[n].spec); }
      WellGrantedGrows(chain);
    }
  }

  lemma {:induction false} WellGrantedGrows(chain: seq<Mint>)
    requires chain != []
    ensures var n := |chain| - 1;
            WellGranted(chain) <==>
              && WellGranted(chain[..n]) && PlainDid(chain[n].issuer)
              && (n > 0 ==> chain[n].issuer == chain[n - 1].holder && SpecWithin(chain[n].spec, chain[n - 1].spec))
  {
    hide SpecWithin, PlainDid;
    var n := |chain| - 1;
    forall i | 0 <= i < n ensures chain[..n][i] == chain[i] {}
    if WellGranted(chain) {
      assert PlainDid(chain[n].issuer);
      forall i, j | 0 <= i && i + 1 == j < n
        ensures chain[..n][j].issuer == chain[..n][i].holder && SpecWithin(chain[..n][j].spec, chain[..n][i].spec)
      {
        assert chain[j].issuer == chain[i].holder;
      }
    } else if WellGranted(chain[..n]) {
      forall i | 0 <= i < n ensures PlainDid(chain[i].issuer) { assert PlainDid(chain[..n][i].issuer); }
      forall i, j | 0 <= i && i + 1 == j < n
        ensures chain[j].issuer == chain[i].holder && SpecWithin(chain[j].spec, chain[i].spec)
      {
        assert chain[..n][j].issuer == chain[..n][i].holder;
      }
    }
  }

  /** Whatever is within the last grant of a chain can be delegated next, under a new DID: the run goes on with it. */
  lemma {:induction false} WithinIsDelegated(es: seq<Event>, m: Mint)
    requires Exec(es).Some? && Exec(es).value.1 != []
    requires var (w, chain) := Exec(es).value; var last := chain[|chain| - 1];
             && PlainDid(m.issuer) && m.issuer == last.holder && SpecWithin(m.spec, last.spec)
             && m.made.vcDid !in w.ledger
    ensures Exec(es + [Minted(m)]).Some? && Exec(es + [Minted(m)]).value.1 == Exec(es).value.1 + [m]
    ensures Resolve(Exec(es + [Minted(m)]).value.0.ledger, m.made.vcDid, None)
         == Some(LastHop(Exec(es).value.1 + [m]).doc)
  {
    hide Exec, AfterIssue, LastArgs, LastHandle, SpecWithin, MayDelegate, Resolve, Present;
    var (w, chain) := Exec(es).value;
    var longer := chain + [m];
    ExecBuilds(es);
    assert longer[..|chain|] == chain;
    MayDelegateIff(chain, m.issuer, m.holder, m.spec);
    assert Guarded(longer);
    ExecMints(es, m);
    GuardedIsIssued(longer);
    LatestIsMint(w, LastArgs(longer), m.made);
  }

  lemma {:induction false} ExecMints(es: seq<Event>, m: Mint)
    requires Exec(es).Some?
    requires var (w, chain) := Exec(es).value; m.made.vcDid !in w.ledger && Guarded(chain + [m])
    ensures var (w, chain) := Exec(es).value;
            Exec(es + [Minted(m)]) == Some((AfterIssue(w, LastArgs(chain + [m]), m.made), chain + [m]))
  {
    hide Guarded, AfterIssue, LastArgs;
    assert (es + [Minted(m)])[..|es|] == es;
  }

  lemma {:induction false} LatestIsMint(w: World, a: IssueArgs, f: Fresh)
    requires !Refused(a)
    ensures Resolve(AfterIssue(w, a, f).ledger, f.vcDid, None) == Some(HopFor(a, f).doc)
  {
    hide PicFor, BodyFor, Refused;
  }

  /** And the verifier accepts it: a grant of any fewer operations and resources and of any caveats that restrict those
      of the last one extends every chain it accepts, within its bound, as long as nothing is revoked and no list of
      kinds is emptied. */
  lemma {:induction false} DelegatedIsAccepted(es: seq<Event>, m: Mint, p: Policy)
    requires Exec(es).Some? && Exec(es).value.1 != []
    requires var (w, chain) := Exec(es).value; var last := chain[|chain| - 1];
             && PlainDid(m.issuer) && m.issuer == last.holder && SpecWithin(m.spec, last.spec)
             && m.made.vcDid !in w.ledger && |chain| < p.maxHops
             && KeepsKinds(chain) && !DropsKinds(m.spec.caveats, last.spec.caveats)
             && Enforces(p, chain + [m])
    ensures Exec(es + [Minted(m)]).Some?
    ensures Verdict(Exec(es + [Minted(m)]).value.0, p, m.made.vcDid)
         == Accept(|Exec(es).value.1| + 1, m.holder,
                   Some(Disclosure(m.spec.authority, m.made.salt, Some(NormalizeCaveats(m.spec.caveats)))))
  {
    hide Exec, LastHop, SpecWithin, Enforces, KeepsKinds, DropsKinds, Verdict, Resolve, NormalizeCaveats;
    var chain := Exec(es).value.1;
    var longer := chain + [m];
    WithinIsDelegated(es, m);
    assert longer[..|chain|] == chain && longer[|chain|] == m && longer[|chain| - 1] == chain[|chain| - 1];
    KeepsKindsGrows(longer);
    LastHopPin(longer);
    IssuanceAgrees(es + [Minted(m)], p);
  }
}
