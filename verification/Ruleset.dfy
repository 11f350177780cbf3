/** Signed, hash-linked versions of an actor's rules, the amendment rule that protects a watched member, and the
    reads that a guardian is granted. */
module Ruleset {
  import opened Wrappers
  import opened Text

  datatype Status = Active | Superseded | Revoked

  datatype Tier = Factor1 | Factor2

  /** Absent fields are None. */
  datatype Capabilities = Capabilities(
    kinds: Option<seq<string>>, verbs: Option<seq<string>>, assurance: map<string, Tier>)

  /** A content id is an injective function of the version it names: the version itself stands for it. */
  datatype Link = NoLink | To(version: Signed) | Junk(text: string)

  datatype Rules = Rules(
    actor: Did, actorKind: string, resource: Option<string>, version: int, previous: Link,
    capabilities: Capabilities, ceiling: Option<real>, status: Status, subject: Did, validUntil: Option<string>)

  /** The governor's proof and the member's acknowledgment are both over the same base. */
  datatype Signed = Signed(base: Rules, proof: Option<string>, memberAck: Option<string>)

  /** Who signed which base. */
  type Signatures = set<(Did, Rules)>

  function SignerOf(proof: Option<string>): Did {
    UpToHash(proof.GetOr(""))
  }

  predicate Verified(sigs: Signatures, r: Signed) {
    r.proof.Some? && SignerOf(r.proof) != "" && (SignerOf(r.proof), r.base) in sigs
  }

  predicate Acknowledged(sigs: Signatures, r: Signed) {
    r.memberAck.Some? && r.base.subject != "" && SignerOf(r.memberAck) == r.base.subject
    && (r.base.subject, r.base) in sigs
  }

  // ---------- the amendment rule ----------

  function ListOf(names: Option<seq<string>>): seq<string> {
    names.GetOr([])
  }

  predicate NoneAdded(prev: Option<seq<string>>, next: Option<seq<string>>) {
    forall k | k in ListOf(next) :: k in ListOf(prev)
  }

  predicate ValidUntilNarrowsOrEqual(prev: Option<string>, next: Option<string>) {
    prev.Some? ==> next.Some? && LexLeq(next.value, prev.value)
  }

  function AssuranceLevel(a: map<string, Tier>, verb: string): nat {
    if verb !in a then 0 else if a[verb] == Factor2 then 2 else 1
  }

  predicate AssuranceLowered(prev: map<string, Tier>, next: map<string, Tier>) {
    exists v | v in prev.Keys + next.Keys :: AssuranceLevel(next, v) < AssuranceLevel(prev, v)
  }

  predicate GuardianshipNarrowsOrEqual(prev: Rules, next: Rules) {
    next.status == Revoked
    || (next.ceiling.GetOr(0.0) <= prev.ceiling.GetOr(0.0)
        && NoneAdded(prev.capabilities.kinds, next.capabilities.kinds)
        && NoneAdded(prev.capabilities.verbs, next.capabilities.verbs)
        && ValidUntilNarrowsOrEqual(prev.validUntil, next.validUntil)
        && !AssuranceLowered(prev.capabilities.assurance, next.capabilities.assurance))
  }

  predicate WidensIntoPrivateScope(prev: Option<Rules>, next: Rules) {
    next.subject != ""
    && (prev.None? || prev.value.subject != next.subject || !GuardianshipNarrowsOrEqual(prev.value, next))
  }

  // ---------- the walk along a chain ----------

  /** Insertion behind everything that does not have a higher version: the stable sort of the source. */
  function InsertByVersion(s: seq<Signed>, x: Signed): (r: seq<Signed>)
    ensures |r| == |s| + 1 && multiset(r) == multiset(s) + multiset{x}
  {
    if s == [] || s[|s| - 1].base.version <= x.base.version then s + [x]
    else
      assert s == s[..|s| - 1] + [s[|s| - 1]];
      InsertByVersion(s[..|s| - 1], x) + [s[|s| - 1]]
  }

  function SortByVersion(chain: seq<Signed>): (r: seq<Signed>)
    ensures |r| == |chain| && multiset(r) == multiset(chain)
  {
    assert chain != [] ==> chain == chain[..|chain| - 1] + [chain[|chain| - 1]];
    if chain == [] then [] else InsertByVersion(SortByVersion(chain[..|chain| - 1]), chain[|chain| - 1])
  }

  function Before(s: seq<Signed>, i: nat): Option<Rules>
    requires i <= |s|
  {
    if i == 0 then None else Some(s[i - 1].base)
  }

  function LinkBefore(s: seq<Signed>, i: nat): Link
    requires i <= |s|
  {
    if i == 0 then NoLink else To(s[i - 1])
  }

  /** Version i of a sorted chain is signed by the governor of the chain, in place, linked and acknowledged if it must be. */
  predicate VersionOk(sigs: Signatures, s: seq<Signed>, i: nat)
    requires i < |s|
  {
    && Verified(sigs, s[i]) && SignerOf(s[i].proof) == SignerOf(s[0].proof)
    && s[i].base.version == i + 1 && s[i].base.previous == LinkBefore(s, i)
    && (WidensIntoPrivateScope(Before(s, i), s[i].base) ==> Acknowledged(sigs, s[i]))
  }

  /** How many versions, from the first on, are in order. */
  function ValidPrefix(sigs: Signatures, s: seq<Signed>, i: nat): (k: nat)
    requires i <= |s|
    ensures i <= k <= |s|
    ensures forall j: nat | i <= j < k :: VersionOk(sigs, s, j)
    ensures k < |s| ==> !VersionOk(sigs, s, k)
    decreases |s| - i
  {
    if i < |s| && VersionOk(sigs, s, i) then ValidPrefix(sigs, s, i + 1) else i
  }

  function IfActive(r: Signed): Option<Signed> {
    if r.base.status == Active then Some(r) else None
  }

  predicate PinHolds(sigs: Signatures, s: seq<Signed>, expected: Did) {
    s != [] && Verified(sigs, s[0]) && expected != "" ==> SignerOf(s[0].proof) == expected
  }

  function OperativeOf(sigs: Signatures, s: seq<Signed>, expected: Did): Option<Signed> {
    var k := ValidPrefix(sigs, s, 0);
    if !PinHolds(sigs, s, expected) || k == 0 then None else IfActive(s[k - 1])
  }

  function Operative(sigs: Signatures, chain: seq<Signed>, expected: Did): Option<Signed> {
    OperativeOf(sigs, SortByVersion(chain), expected)
  }

  /** operativeRuleset: the loop stops at the first version that is not in order. */
  method OperativeRuleset(sigs: Signatures, chain: seq<Signed>, expected: Did) returns (r: Option<Signed>)
    ensures r == Operative(sigs, chain, expected)
  {
    var ordered := SortByVersion(chain);
    var lastValid: Option<Signed> := None;
    var signer: Did := "";
    var i := 0;
    while i < |ordered|
      invariant 0 <= i <= |ordered|
      invariant ValidPrefix(sigs, ordered, 0) == ValidPrefix(sigs, ordered, i)
      invariant i > 0 ==> signer == SignerOf(ordered[0].proof) && lastValid == Some(ordered[i - 1]) && Verified(sigs, ordered[0])
      invariant i == 0 ==> signer == "" && lastValid == None
      decreases |ordered| - i
    {
      var v := ordered[i];
      if v.proof.None? || SignerOf(v.proof) == "" || (SignerOf(v.proof), v.base) !in sigs {
        break;
      }
      if i == 0 {
        signer := SignerOf(v.proof);
      } else if SignerOf(v.proof) != signer {
        break;
      }
      if v.base.version != i + 1 {
        break;
      }
      if i == 0 {
        if v.base.previous != NoLink {
          break;
        }
      } else if v.base.previous != To(ordered[i - 1]) {
        break;
      }
      var prev := if i == 0 then None else Some(ordered[i - 1].base);
      if WidensIntoPrivateScope(prev, v.base) && !Acknowledged(sigs, v) {
        break;
      }
      lastValid := Some(v);
      i := i + 1;
    }
    if expected != "" && signer != "" && signer != expected {
      return None;
    }
    if lastValid.None? {
      return None;
    }
    return if lastValid.value.base.status == Active then lastValid else None;
  }

  predicate ActorStable(s: seq<Signed>) {
    forall r | r in s :: r.base.actor == s[0].base.actor && r.base.actorKind == s[0].base.actorKind
  }

  /** verifyRulesetChain and activeRuleset: all or nothing. */
  function ActiveHead(sigs: Signatures, chain: seq<Signed>, expected: Did): Option<Signed> {
    var s := SortByVersion(chain);
    if s != [] && ValidPrefix(sigs, s, 0) == |s| && ActorStable(s) && PinHolds(sigs, s, expected)
    then IfActive(s[|s| - 1]) else None
  }

  /** All versions, in whatever order, have the same actor of the same kind. */
  predicate OneActor(chain: seq<Signed>) {
    forall a, b | a in chain && b in chain :: a.base.actor == b.base.actor && a.base.actorKind == b.base.actorKind
  }

  /** The lenient walk agrees with the strict one wherever the strict one accepts; it also serves a chain whose
      later versions are out of order, or whose actor changes. */
  lemma {:induction false} ActiveIsOperative(sigs: Signatures, chain: seq<Signed>, expected: Did)
    ensures ActiveHead(sigs, chain, expected).Some? <==>
              && Operative(sigs, chain, expected).Some?
              && AllGood(sigs, SortByVersion(chain)) && OneActor(chain)
    ensures ActiveHead(sigs, chain, expected).Some? ==>
              ActiveHead(sigs, chain, expected) == Operative(sigs, chain, expected)
  {
    hide VersionOk, Good, OneActor, ActorStable;
    var s := SortByVersion(chain);
    forall i: nat | i < |s| ensures VersionOk(sigs, s, i) <==> Good(sigs, s, i) { VersionOkIff(sigs, s, i); }
    forall r: Signed ensures r in chain <==> r in s { assert r in multiset(chain) <==> r in multiset(s); }
    if s != [] {
      StableIff(chain, s);
      assert AllGood(sigs, s) <==> ValidPrefix(sigs, s, 0) == |s|;
    }
  }

  lemma {:induction false} StableIff(chain: seq<Signed>, s: seq<Signed>)
    requires s != [] && forall r: Signed :: r in chain <==> r in s
    ensures ActorStable(s) <==> OneActor(chain)
  {
    assert s[0] in s;
    if ActorStable(s) {
      forall a, b | a in chain && b in chain ensures a.base.actor == b.base.actor && a.base.actorKind == b.base.actorKind {
        assert a in s && b in s;
      }
    } else {
      var r :| r in s && !(r.base.actor == s[0].base.actor && r.base.actorKind == s[0].base.actorKind);
      assert r in chain && s[0] in chain;
    }
  }

  /** The operative head is a version of the chain, active, and signed by the governor like every version before it. */
  lemma {:induction false} OperativeIsGoverned(sigs: Signatures, chain: seq<Signed>, governor: Did)
    requires governor != "" && Operative(sigs, chain, governor).Some?
    ensures var head := Operative(sigs, chain, governor).value;
            && head in chain && head.base.status == Active && (governor, head.base) in sigs
            && forall v: nat | 1 <= v <= head.base.version :: SignedVersion(sigs, chain, governor, v)
  {
    var s := SortByVersion(chain);
    var k := ValidPrefix(sigs, s, 0);
    var head := Operative(sigs, chain, governor).value;
    assert VersionOk(sigs, s, 0) && VersionOk(sigs, s, k - 1);
    assert head in multiset(s);
    forall v: nat | 1 <= v <= head.base.version ensures SignedVersion(sigs, chain, governor, v) {
      assert VersionOk(sigs, s, v - 1);
      assert s[v - 1] in multiset(s);
    }
  }

  predicate SignedVersion(sigs: Signatures, chain: seq<Signed>, governor: Did, v: nat) {
    exists r | r in chain :: r.base.version == v && (governor, r.base) in sigs
  }

  /** A head fixes its whole history: two chains in order that share a version share everything before it. */
  lemma {:induction false} HeadFixesHistory(sigs: Signatures, s: seq<Signed>, t: seq<Signed>, i: nat, j: nat)
    requires i < |s| && j < |t| && s[i] == t[j]
    requires (forall n: nat | n <= i :: VersionOk(sigs, s, n)) && forall n: nat | n <= j :: VersionOk(sigs, t, n)
    ensures i == j && s[..i + 1] == t[..j + 1]
  {
    assert VersionOk(sigs, s, i) && VersionOk(sigs, t, j);
    if i > 0 {
      HeadFixesHistory(sigs, s, t, i - 1, j - 1);
      assert s[..i + 1] == s[..i] + [s[i]] && t[..j + 1] == t[..j] + [t[j]];
    }
  }

  /** A transition that needs no acknowledgment, short of a revocation, weakens no step-up that a verb requires. */
  lemma {:induction false} UnacknowledgedKeepsStepUp(prev: Rules, next: Rules, verb: string)
    requires next.subject != "" && !WidensIntoPrivateScope(Some(prev), next) && next.status != Revoked
    ensures AssuranceLevel(next.capabilities.assurance, verb) >= AssuranceLevel(prev.capabilities.assurance, verb)
  {
    var p, n := prev.capabilities.assurance, next.capabilities.assurance;
    if verb in p { assert verb in p.Keys + n.Keys; }
  }

  // ---------- what a version grants ----------

  /** A verb is asked for when an actor is authorized, and not when a guardian reads. */
  datatype Query = Query(kind: string, verb: Option<string>, sensitivity: real, at: string)

  predicate InTime(validUntil: Option<string>, at: string) {
    validUntil.Some? && validUntil.value != "" ==> LexLeq(at, validUntil.value)
  }

  predicate Listed(names: Option<seq<string>>, name: string) {
    names.Some? ==> name in names.value
  }

  predicate InScope(r: Rules, q: Query) {
    && (q.kind != "" ==> Listed(r.capabilities.kinds, q.kind))
    && (q.verb.Some? ==> Listed(r.capabilities.verbs, q.verb.value))
    && (r.ceiling.Some? ==> q.sensitivity <= r.ceiling.value)
  }

  predicate IsEdge(r: Rules, governor: Did, subject: Did) {
    r.status == Active && r.actor == governor && r.subject == subject
  }

  predicate Grants(r: Rules, governor: Did, subject: Did, q: Query) {
    IsEdge(r, governor, subject) && InTime(r.validUntil, q.at) && InScope(r, q)
  }

  ghost predicate NoWider(next: Rules, prev: Rules, governor: Did, subject: Did) {
    forall q :: Grants(next, governor, subject, q) ==> Grants(prev, governor, subject, q)
  }

  /** No field that bounds the earlier version is dropped, the empty expiry being one that does not bound. */
  predicate KeepsBounds(prev: Rules, next: Rules) {
    && (prev.capabilities.kinds.Some? ==> next.capabilities.kinds.Some?)
    && (prev.capabilities.verbs.Some? ==> next.capabilities.verbs.Some?)
    && (prev.ceiling.Some? ==> next.ceiling.Some?)
    && (prev.validUntil.Some? && prev.validUntil.value != "" ==> next.validUntil != Some(""))
  }

  /** What the amendment rule does not look at. */
  predicate StaysWithin(prev: Rules, next: Rules, governor: Did) {
    next.status == Active && next.actor == governor ==>
      prev.status == Active && prev.actor == governor && KeepsBounds(prev, next)
  }

  function NewName(s: seq<string>): (n: string)
    ensures n !in s && n != ""
  {
    Longest(s) + "x"
  }

  function Longest(s: seq<string>): (n: string)
    ensures forall t | t in s :: |t| <= |n|
  {
    if s == [] then "" else
    var m := Longest(s[1..]);
    if |s[0]| > |m| then s[0] else m
  }

  /** A time after a given one: the last instant of the order, so to speak. */
  function After(t: string): (u: string)
    ensures t != "" ==> !LexLeq(u, t)
  {
    LaterThan(t);
    t + "0"
  }

  lemma {:induction false} LaterThan(t: string)
    ensures !LexLeq(t + "0", t)
  {
    if t != "" {
      assert (t + "0")[1..] == t[1..] + "0";
      LaterThan(t[1..]);
    }
  }

  lemma {:induction false} ListedStays(prev: Option<seq<string>>, next: Option<seq<string>>, name: string)
    requires NoneAdded(prev, next) && (prev.Some? ==> next.Some?) && Listed(next, name)
    ensures Listed(prev, name)
  {
    if prev.Some? { assert name in ListOf(next); }
  }

  lemma {:induction false} TransitionIsNoWider(prev: Rules, next: Rules, governor: Did)
    requires next.subject != "" && prev.subject == next.subject && GuardianshipNarrowsOrEqual(prev, next)
    requires StaysWithin(prev, next, governor)
    ensures NoWider(next, prev, governor, next.subject)
  {
    forall q | Grants(next, governor, next.subject, q) ensures Grants(prev, governor, next.subject, q) {
      if prev.validUntil.Some? && prev.validUntil.value != "" {
        LexTransitive(q.at, next.validUntil.value, prev.validUntil.value);
      }
      if q.kind != "" { ListedStays(prev.capabilities.kinds, next.capabilities.kinds, q.kind); }
      if q.verb.Some? { ListedStays(prev.capabilities.verbs, next.capabilities.verbs, q.verb.value); }
    }
  }

  /** A query that next grants and prev does not, when one of the bounds was dropped or prev was no edge. */
  lemma {:induction false} WiderQuery(prev: Rules, next: Rules, governor: Did) returns (q: Query)
    requires next.subject != "" && prev.subject == next.subject && GuardianshipNarrowsOrEqual(prev, next)
    requires !StaysWithin(prev, next, governor)
    ensures Grants(next, governor, next.subject, q) && !Grants(prev, governor, next.subject, q)
  {
    var low := next.ceiling.GetOr(0.0);
    q := Query("", None, low, "");
    if prev.status == Active && prev.actor == governor {
      if prev.capabilities.kinds.Some? && next.capabilities.kinds.None? {
        q := q.(kind := NewName(prev.capabilities.kinds.value));
      } else if prev.capabilities.verbs.Some? && next.capabilities.verbs.None? {
        q := q.(verb := Some(NewName(prev.capabilities.verbs.value)));
      } else if prev.ceiling.Some? && next.ceiling.None? {
        q := q.(sensitivity := prev.ceiling.value + 1.0);
      } else {
        q := q.(at := After(prev.validUntil.value));
      }
    }
  }

  /** A transition that needs no acknowledgment does not widen the governor's reach exactly when it stays within
      the bounds above: the earlier version was itself an active edge of the governor, and no bound was dropped. */
  lemma {:induction false} UnacknowledgedStep(prev: Rules, next: Rules, governor: Did)
    requires next.subject != "" && !WidensIntoPrivateScope(Some(prev), next)
    ensures NoWider(next, prev, governor, next.subject) <==> StaysWithin(prev, next, governor)
  {
    if StaysWithin(prev, next, governor) {
      TransitionIsNoWider(prev, next, governor);
    } else {
      var q := WiderQuery(prev, next, governor);
    }
  }

  // ---------- grantable, not seizable ----------

  /** Every version that was not acknowledged stays within the one before it. */
  predicate StepsStayWithin(sigs: Signatures, s: seq<Signed>, k: nat, governor: Did)
    requires k <= |s|
  {
    forall i: nat | 0 < i < k && !Acknowledged(sigs, s[i]) :: StaysWithin(s[i - 1].base, s[i].base, governor)
  }

  /** The acknowledged version that the reach of version i goes back to. */
  lemma {:induction false} BackToConsent(sigs: Signatures, s: seq<Signed>, k: nat, i: nat, governor: Did)
    returns (j: nat)
    requires i < k <= |s| && s[i].base.subject != ""
    requires forall n: nat | n < k :: VersionOk(sigs, s, n)
    requires StepsStayWithin(sigs, s, k, governor)
    ensures j <= i && Acknowledged(sigs, s[j]) && s[j].base.subject == s[i].base.subject
    ensures NoWider(s[i].base, s[j].base, governor, s[i].base.subject)
  {
    assert VersionOk(sigs, s, i);
    if Acknowledged(sigs, s[i]) {
      j := i;
    } else {
      UnacknowledgedStep(s[i - 1].base, s[i].base, governor);
      j := BackToConsent(sigs, s, k, i - 1, governor);
      forall q | Grants(s[i].base, governor, s[i].base.subject, q)
        ensures Grants(s[j].base, governor, s[i].base.subject, q)
      {
        assert Grants(s[i - 1].base, governor, s[i].base.subject, q);
      }
    }
  }

  /** Grantable but never seizable, as far as it holds: what the operative head lets the governor do to a member is
      within a version of the chain that the member acknowledged, when the unacknowledged steps stay within. */
  lemma {:induction false} NeverSeized(sigs: Signatures, chain: seq<Signed>, governor: Did) returns (j: nat)
    requires Operative(sigs, chain, governor).Some? && Operative(sigs, chain, governor).value.base.subject != ""
    requires StepsStayWithin(sigs, SortByVersion(chain), ValidPrefix(sigs, SortByVersion(chain), 0), governor)
    ensures var s := SortByVersion(chain); var head := Operative(sigs, chain, governor).value.base;
            j < |s| && Acknowledged(sigs, s[j]) && s[j].base.subject == head.subject
            && NoWider(head, s[j].base, governor, head.subject)
  {
    var s := SortByVersion(chain);
    var k := ValidPrefix(sigs, s, 0);
    j := BackToConsent(sigs, s, k, k - 1, governor);
  }

  // ---------- seized nevertheless ----------

  lemma {:induction false} SortedStays(chain: seq<Signed>)
    requires forall i: nat | i < |chain| :: chain[i].base.version == i + 1
    ensures SortByVersion(chain) == chain
  {
    hide InsertByVersion;
    if chain != [] {
      var n := |chain| - 1;
      SortedStays(chain[..n]);
      InsertStep(chain[..n], chain[n]);
      assert chain == chain[..n] + [chain[n]];
    }
  }

  lemma {:induction false} WholeChainIsOperative(sigs: Signatures, chain: seq<Signed>, governor: Did)
    requires chain != [] && governor != "" && SignerOf(chain[0].proof) == governor
    requires forall i: nat | i < |chain| :: VersionOk(sigs, chain, i)
    requires chain[|chain| - 1].base.status == Active
    ensures Operative(sigs, chain, governor) == Some(chain[|chain| - 1])
  {
    hide WidensIntoPrivateScope, Acknowledged, LinkBefore, UpToHash, InsertByVersion;
    forall i: nat | i < |chain| ensures chain[i].base.version == i + 1 { assert VersionOk(sigs, chain, i); }
    SortedStays(chain);
  }

  /** The operative head lets the governor do something to the member that no version lets it do that the member
      acknowledged. */
  ghost predicate SeizedBy(sigs: Signatures, chain: seq<Signed>, governor: Did, q: Query) {
    var head := Operative(sigs, chain, governor);
    && head.Some? && head.value.base.subject != "" && Grants(head.value.base, governor, head.value.base.subject, q)
    && forall r | r in chain && Acknowledged(sigs, r) :: !Grants(r.base, governor, head.value.base.subject, q)
  }

  /** Every acknowledged first version that is followed by an unacknowledged second one is seized, exactly if the
      second one does not stay within the first. */
  lemma {:induction false} SeizedIff(sigs: Signatures, first: Signed, second: Signed, governor: Did)
    requires governor != "" && SignerOf(first.proof) == governor && second.base.subject != ""
    requires VersionOk(sigs, [first, second], 0) && VersionOk(sigs, [first, second], 1)
    requires Acknowledged(sigs, first) && !Acknowledged(sigs, second)
    requires second.base.status == Active && second.base.actor == governor
    ensures Operative(sigs, [first, second], governor) == Some(second)
    ensures (exists q :: SeizedBy(sigs, [first, second], governor, q)) <==> !StaysWithin(first.base, second.base, governor)
  {
    var chain := [first, second];
    WholeChainIsOperative(sigs, chain, governor);
    assert Before(chain, 1) == Some(first.base);
    UnacknowledgedStep(first.base, second.base, governor);
    assert first in chain;
    if !StaysWithin(first.base, second.base, governor) {
      var q := WiderQuery(first.base, second.base, governor);
      assert SeizedBy(sigs, chain, governor, q);
    }
  }

  /** What the second version does, that the amendment rule does not take for a widening. */
  datatype Way = Reactivates | DropsKinds | DropsVerbs | DropsCeiling | EmptiesExpiry | ChangesActor

  const ONE_KIND := Capabilities(Some(["location"]), Some(["read"]), map[])

  function FirstRules(way: Way): Rules {
    Rules(if way.ChangesActor? then "nurse" else "gov", "guardianship", None, 1, NoLink, ONE_KIND, Some(1.0),
          if way.Reactivates? then Revoked else Active, "member", Some("2026"))
  }

  function SecondRules(way: Way, link: Link): Rules {
    var r := FirstRules(way).(version := 2, previous := link, status := Active, actor := "gov");
    match way
    case DropsKinds => r.(capabilities := ONE_KIND.(kinds := None))
    case DropsVerbs => r.(capabilities := ONE_KIND.(verbs := None))
    case DropsCeiling => r.(ceiling := None)
    case EmptiesExpiry => r.(validUntil := Some(""))
    case _ => r
  }

  function FirstVersion(way: Way): Signed {
    Signed(FirstRules(way), Some("gov"), Some("member"))
  }

  lemma {:induction false} WayPasses(way: Way, link: Link)
    ensures !WidensIntoPrivateScope(Some(FirstRules(way)), SecondRules(way, link))
    ensures !StaysWithin(FirstRules(way), SecondRules(way, link), "gov")
  {
    LexReflexive("2026");
  }

  function SecondVersion(way: Way): Signed {
    Signed(SecondRules(way, To(FirstVersion(way))), Some("gov"), None)
  }

  function WaySigned(way: Way): Signatures {
    {("gov", FirstVersion(way).base), ("member", FirstVersion(way).base), ("gov", SecondVersion(way).base)}
  }

  lemma {:induction false} WayIsChain(way: Way)
    ensures var s := [FirstVersion(way), SecondVersion(way)];
            VersionOk(WaySigned(way), s, 0) && VersionOk(WaySigned(way), s, 1)
    ensures Acknowledged(WaySigned(way), FirstVersion(way)) && !Acknowledged(WaySigned(way), SecondVersion(way))
    ensures SignerOf(FirstVersion(way).proof) == "gov"
  {
    hide WidensIntoPrivateScope, StaysWithin, UpToHash;
    GovernorName();
    WayPasses(way, To(FirstVersion(way)));
    var s := [FirstVersion(way), SecondVersion(way)];
    assert Before(s, 1) == Some(FirstRules(way)) && LinkBefore(s, 1) == To(FirstVersion(way));
    assert SecondRules(way, To(FirstVersion(way))).version == 2;
  }

  /** For each way a chain of two versions, both signed by the governor and linked, the first of which the member
      acknowledged: the second one is the head, and reaches further than the member ever agreed to. */
  lemma {:induction false} UnacknowledgedWidenings(way: Way) returns (q: Query)
    ensures var sigs, first, second := WaySigned(way), FirstVersion(way), SecondVersion(way);
            && Acknowledged(sigs, first) && !Acknowledged(sigs, second)
            && Operative(sigs, [first, second], "gov") == Some(second) && SeizedBy(sigs, [first, second], "gov", q)
  {
    hide VersionOk, Operative, StaysWithin, SeizedBy, Acknowledged;
    WayIsChain(way);
    WayPasses(way, To(FirstVersion(way)));
    SeizedIff(WaySigned(way), FirstVersion(way), SecondVersion(way), "gov");
    q :| SeizedBy(WaySigned(way), [FirstVersion(way), SecondVersion(way)], "gov", q);
  }

  lemma {:induction false} GovernorName()
    ensures UpToHash("gov") == "gov" && UpToHash("member") == "member"
  {
    assert UpToHash("") == "" && UpToHash("v") == "v" && UpToHash("r") == "r";
    assert "gov"[1..] == "ov" && "ov"[1..] == "v" && "v"[1..] == "" && "r"[1..] == "";
    assert "member"[1..] == "ember" && "ember"[1..] == "mber" && "mber"[1..] == "ber" && "ber"[1..] == "er" && "er"[1..] == "r";
    assert UpToHash("ov") == "ov" && UpToHash("er") == "er";
    assert UpToHash("ber") == "ber";
    assert UpToHash("mber") == "mber";
    assert UpToHash("ember") == "ember";
  }

  /** In two steps that need no acknowledgment a governor takes any reach it wants over a member who acknowledged
      anything once: a revocation may carry whatever it likes, and reactivating it changes nothing else. */
  lemma {:induction false} TwoStepsSeizeAnything(sigs: Signatures, first: Signed, wanted: Rules, governor: Did)
    returns (second: Signed, third: Signed)
    requires governor != "" && SignerOf(first.proof) == governor && VersionOk(sigs, [first], 0)
    requires wanted.subject == first.base.subject != "" && wanted.status == Active
    ensures var taken := {(governor, second.base), (governor, third.base)};
            && second.memberAck.None? && third.memberAck.None?
            && Operative(sigs + taken, [first, second, third], governor) == Some(third)
    ensures forall q :: Grants(third.base, governor, wanted.subject, q) <==> Grants(wanted, governor, wanted.subject, q)
  {
    hide UpToHash, SortByVersion, ValidPrefix;
    second := Signed(wanted.(version := 2, previous := To(first), status := Revoked), first.proof, None);
    third := Signed(wanted.(version := 3, previous := To(second)), first.proof, None);
    var all, chain := sigs + {(governor, second.base), (governor, third.base)}, [first, second, third];
    if wanted.validUntil.Some? { LexReflexive(wanted.validUntil.value); }
    assert !WidensIntoPrivateScope(Some(first.base), second.base);
    assert !WidensIntoPrivateScope(Some(second.base), third.base);
    assert VersionOk(all, chain, 0);
    assert VersionOk(all, chain, 1) by { assert Before(chain, 1) == Some(first.base); }
    assert VersionOk(all, chain, 2) by { assert Before(chain, 2) == Some(second.base); }
    WholeChainIsOperative(all, chain, governor);
  }

  // ---------- appending a version ----------

  /** Where a version lands in a chain whose versions are 1, 2, ... */
  lemma {:induction false} InsertLands(s: seq<Signed>, x: Signed)
    requires forall i: nat | i < |s| :: s[i].base.version == i + 1
    ensures var k := if x.base.version <= 0 then 0 else if x.base.version > |s| then |s| else x.base.version;
            InsertByVersion(s, x) == s[..k] + [x] + s[k..]
  {
    hide InsertByVersion;
    InsertStep(s, x);
    if s != [] && s[|s| - 1].base.version > x.base.version {
      var n := |s| - 1;
      InsertLands(s[..n], x);
      Glue(s, n, if x.base.version <= 0 then 0 else x.base.version, x);
    }
  }

  lemma {:induction false} InsertStep(s: seq<Signed>, x: Signed)
    ensures InsertByVersion(s, x)
         == if s == [] || s[|s| - 1].base.version <= x.base.version then s + [x]
            else InsertByVersion(s[..|s| - 1], x) + [s[|s| - 1]]
  {
  }

  lemma {:induction false} Glue(s: seq<Signed>, n: nat, k: nat, x: Signed)
    requires k <= n && |s| == n + 1
    ensures (s[..n][..k] + [x] + s[..n][k..]) + [s[n]] == s[..k] + [x] + s[k..]
  {
    assert s[..n][..k] == s[..k] && s[..n][k..] + [s[n]] == s[k..];
  }

  lemma {:induction false} OkInPrefix(sigs: Signatures, s: seq<Signed>, t: seq<Signed>, i: nat)
    requires i < |s| && i < |t| && s[..i + 1] == t[..i + 1]
    ensures VersionOk(sigs, s, i) <==> VersionOk(sigs, t, i)
  {
    assert s[i] == s[..i + 1][i] == t[..i + 1][i] == t[i];
    assert s[0] == s[..i + 1][0] == t[..i + 1][0] == t[0];
    if i > 0 { assert s[i - 1] == s[..i + 1][i - 1] == t[..i + 1][i - 1] == t[i - 1]; }
  }

  function Landing(v: int, n: nat): (k: nat)
    ensures k <= n
  {
    if v <= 0 then 0 else if v > n then n else v
  }

  predicate InOrder(sigs: Signatures, chain: seq<Signed>) {
    forall i: nat | i < |chain| :: VersionOk(sigs, chain, i)
  }

  lemma {:induction false} SortedAppend(sigs: Signatures, chain: seq<Signed>, x: Signed)
    requires InOrder(sigs, chain)
    ensures var k := Landing(x.base.version, |chain|);
            SortByVersion(chain + [x]) == chain[..k] + [x] + chain[k..]
  {
    forall i: nat | i < |chain| ensures chain[i].base.version == i + 1 { assert VersionOk(sigs, chain, i); }
    SortedStays(chain);
    assert (chain + [x])[..|chain|] == chain;
    InsertLands(chain, x);
  }

  lemma {:induction false} PrefixUpTo(sigs: Signatures, chain: seq<Signed>, x: Signed, k: nat)
    requires InOrder(sigs, chain) && k <= |chain|
    ensures var s := chain[..k] + [x] + chain[k..];
            ValidPrefix(sigs, s, 0) == k || (VersionOk(sigs, s, k) && ValidPrefix(sigs, s, 0) > k)
    ensures var s := chain[..k] + [x] + chain[k..]; VersionOk(sigs, s, k) ==> x.base.version == k + 1
  {
    var s := chain[..k] + [x] + chain[k..];
    forall i: nat | i < k ensures VersionOk(sigs, s, i) {
      assert s[..i + 1] == chain[..i + 1];
      OkInPrefix(sigs, s, chain, i);
    }
  }

  lemma {:induction false} GovernorOf(sigs: Signatures, chain: seq<Signed>, s: seq<Signed>, expected: Did)
    requires chain != [] && InOrder(sigs, chain) && s != [] && s[0] == chain[0]
    ensures PinHolds(sigs, s, expected) <==> expected == "" || SignerOf(chain[0].proof) == expected
  {
    assert VersionOk(sigs, chain, 0);
  }

  /** The effect of appending any version x to a chain that is in order. A version that is not the next one in
      order, wrongly signed, badly linked or unacknowledged leaves the head unchanged if its number is above the
      chain's; one that repeats the number k of an earlier version takes the head back to that version. */
  lemma {:induction false} Appended(sigs: Signatures, chain: seq<Signed>, x: Signed, expected: Did)
    requires chain != [] && InOrder(sigs, chain)
    ensures var n := |chain|; var v := x.base.version;
            Operative(sigs, chain + [x], expected)
            == if v <= 0 || (expected != "" && SignerOf(chain[0].proof) != expected) then None
               else if v <= n then IfActive(chain[v - 1])
               else if VersionOk(sigs, chain + [x], n) then IfActive(x)
               else IfActive(chain[n - 1])
  {
    hide VersionOk, InOrder, SortByVersion, PinHolds;
    var n, v := |chain|, x.base.version;
    var k := Landing(v, n);
    var s := chain[..k] + [x] + chain[k..];
    SortedAppend(sigs, chain, x);
    PrefixUpTo(sigs, chain, x, k);
    if k > 0 {
      assert s[0] == chain[0] && s[k - 1] == chain[k - 1];
      GovernorOf(sigs, chain, s, expected);
    }
    if v > n {
      assert s == chain + [x];
    }
  }

  // ---------- guardian reads ----------

  datatype Code = NoEdge | Expired | OutOfScope

  datatype Authz = Allowed | Denied(code: Code)

  function AuthorizeGuardianRead(sigs: Signatures, chain: seq<Signed>, governor: Did, subject: Did, q: Query): Authz {
    var op := Operative(sigs, chain, governor);
    if op.None? || op.value.base.actor != governor || op.value.base.subject != subject then Denied(NoEdge)
    else if !InTime(op.value.base.validUntil, q.at) then Denied(Expired)
    else if !InScope(op.value.base, q) then Denied(OutOfScope)
    else Allowed
  }

  datatype Artefact = Artefact(id: string, owner: Did, kind: string, sensitivity: real)

  datatype Receipt = Receipt(guardian: Did, subject: Did, artefactId: string, kind: string, at: string)

  datatype Read = Granted | NotAvailable | EdgeRefused(code: Code)

  function QueryFor(a: Artefact, at: string): Query {
    Query(a.kind, None, a.sensitivity, at)
  }

  function ReadOf(
      sigs: Signatures, chain: seq<Signed>, governor: Did, subject: Did, a: Option<Artefact>, at: string): Read {
    if a.None? || a.value.owner != subject then NotAvailable
    else
      match AuthorizeGuardianRead(sigs, chain, governor, subject, QueryFor(a.value, at))
      case Allowed => Granted
      case Denied(code) => if code == OutOfScope then NotAvailable else EdgeRefused(code)
  }

  class GuardianReceiptStore {
    var receipts: seq<Receipt>

    constructor ()
      ensures receipts == []
    {
      receipts := [];
    }

    /** guardianRead: every read that is granted, and no other, leaves its receipt. */
    method GuardianRead(
        sigs: Signatures, chain: seq<Signed>, governor: Did, subject: Did, a: Option<Artefact>, at: string)
      returns (r: Read)
      modifies this
      ensures r == ReadOf(sigs, chain, governor, subject, a, at)
      ensures receipts == if r == Granted then old(receipts) + [Receipt(governor, subject, a.value.id, a.value.kind, at)]
                          else old(receipts)
      ensures r == Granted ==> forall m ::
                Over(receipts, m) == if m != subject then Over(old(receipts), m)
                                     else Over(old(receipts), m) + [Receipt(governor, subject, a.value.id, a.value.kind, at)]
    {
      hide Operative, InTime, InScope, Over;
      if a.None? || a.value.owner != subject {
        return NotAvailable;
      }
      var op := OperativeRuleset(sigs, chain, governor);
      if op.None? || op.value.base.actor != governor || op.value.base.subject != subject {
        return EdgeRefused(NoEdge);
      }
      if !InTime(op.value.base.validUntil, at) {
        return EdgeRefused(Expired);
      }
      if !InScope(op.value.base, QueryFor(a.value, at)) {
        return NotAvailable;
      }
      forall m { ReceiptIsShown(receipts, Receipt(governor, subject, a.value.id, a.value.kind, at), m); }
      receipts := receipts + [Receipt(governor, subject, a.value.id, a.value.kind, at)];
      return Granted;
    }

    /** forSubject: what a member sees, the receipts over that member and no others, in order. */
    method ForSubject(subject: Did) returns (shown: seq<Receipt>)
      ensures shown == Over(receipts, subject)
      ensures forall r :: r in shown <==> r in receipts && r.subject == subject
    {
      shown := [];
      for i := 0 to |receipts|
        invariant shown == Over(receipts[..i], subject)
      {
        assert receipts[..i + 1][..i] == receipts[..i];
        if receipts[i].subject == subject {
          shown := shown + [receipts[i]];
        }
      }
      assert receipts[..|receipts|] == receipts;
      forall r ensures r in shown <==> r in receipts && r.subject == subject { OverIsOwn(receipts, subject, r); }
    }
  }

  lemma {:induction false} OverIsOwn(rs: seq<Receipt>, subject: Did, r: Receipt)
    ensures r in Over(rs, subject) <==> r in rs && r.subject == subject
  {
    if rs != [] {
      OverIsOwn(rs[..|rs| - 1], subject, r);
      assert rs == rs[..|rs| - 1] + [rs[|rs| - 1]];
    }
  }

  function Over(rs: seq<Receipt>, subject: Did): seq<Receipt> {
    if rs == [] then []
    else
      var before, last := Over(rs[..|rs| - 1], subject), rs[|rs| - 1];
      if last.subject == subject then before + [last] else before
  }

  /** A granted read shows up for the member that was read, as the newest receipt, and for no other member. */
  lemma {:induction false} ReceiptIsShown(rs: seq<Receipt>, r: Receipt, member: Did)
    ensures Over(rs + [r], member) == if r.subject == member then Over(rs, member) + [r] else Over(rs, member)
  {
    assert (rs + [r])[..|rs|] == rs;
  }

  /** Whatever a governor reads, the operative head granted, to that governor, over that member. */
  lemma {:induction false} ReadIsGranted(
      sigs: Signatures, chain: seq<Signed>, governor: Did, subject: Did, a: Artefact, at: string)
    requires governor != ""
    ensures ReadOf(sigs, chain, governor, subject, Some(a), at) == Granted
       <==> a.owner == subject && Operative(sigs, chain, governor).Some?
            && Grants(Operative(sigs, chain, governor).value.base, governor, subject, QueryFor(a, at))
  {
  }

  predicate HasOpenEdge(sigs: Signatures, chain: seq<Signed>, governor: Did, subject: Did, at: string) {
    var op := Operative(sigs, chain, governor);
    op.Some? && IsEdge(op.value.base, governor, subject) && InTime(op.value.base.validUntil, at)
  }

  /** A refused read of a member's artefact looks like the read of nothing exactly when the governor has an open
      edge over the member: without one, the refusal tells the artefact from nothing. */
  lemma {:induction false} RefusalIsUniform(
      sigs: Signatures, chain: seq<Signed>, governor: Did, subject: Did, a: Artefact, at: string)
    requires a.owner == subject && ReadOf(sigs, chain, governor, subject, Some(a), at) != Granted
    ensures ReadOf(sigs, chain, governor, subject, Some(a), at) == ReadOf(sigs, chain, governor, subject, None, at)
       <==> HasOpenEdge(sigs, chain, governor, subject, at)
  {
  }
  // ---------- the same, in plain terms ----------

  /** Every name that is listed was listed before. */
  predicate AddsNone(prev: Option<seq<string>>, next: Option<seq<string>>) {
    next.Some? ==> forall k :: k in next.value ==> prev.Some? && k in prev.value
  }

  /** A version that tightens or keeps the one before, on every axis. */
  predicate Tightens(prev: Rules, next: Rules) {
    && next.ceiling.GetOr(0.0) <= prev.ceiling.GetOr(0.0)
    && AddsNone(prev.capabilities.kinds, next.capabilities.kinds)
    && AddsNone(prev.capabilities.verbs, next.capabilities.verbs)
    && (prev.validUntil.Some? ==> next.validUntil.Some? && LexLeq(next.validUntil.value, prev.validUntil.value))
    && (forall v :: v in prev.capabilities.assurance ==>
          v in next.capabilities.assurance
          && (prev.capabilities.assurance[v] == Factor2 ==> next.capabilities.assurance[v] == Factor2))
  }

  /** A version over a member needs no acknowledgment exactly if it revokes, or tightens or keeps, a version over the
      same member; one that is over nobody needs none either. */
  lemma {:induction false} NeedsAckIff(prev: Option<Rules>, next: Rules)
    ensures WidensIntoPrivateScope(prev, next)
       <==> next.subject != ""
            && !(prev.Some? && prev.value.subject == next.subject
                 && (next.status == Revoked || Tightens(prev.value, next)))
  {
    hide GuardianshipNarrowsOrEqual, Tightens;
    if prev.Some? { TightensIff(prev.value, next); }
  }

  lemma {:induction false} TightensIff(prev: Rules, next: Rules)
    ensures GuardianshipNarrowsOrEqual(prev, next) <==> next.status == Revoked || Tightens(prev, next)
  {
    hide LexLeq, AssuranceLowered, NoneAdded;
    AssuranceKeptIff(prev.capabilities.assurance, next.capabilities.assurance);
    NoneAddedIff(prev.capabilities.kinds, next.capabilities.kinds);
    NoneAddedIff(prev.capabilities.verbs, next.capabilities.verbs);
  }

  lemma {:induction false} NoneAddedIff(prev: Option<seq<string>>, next: Option<seq<string>>)
    ensures NoneAdded(prev, next) <==> AddsNone(prev, next)
  {
    if AddsNone(prev, next) {
      forall k | k in ListOf(next) ensures k in ListOf(prev) {}
    }
    if NoneAdded(prev, next) && next.Some? {
      forall k | k in next.value ensures prev.Some? && k in prev.value { assert k in ListOf(next) && k in ListOf(prev); }
    }
  }

  lemma {:induction false} AssuranceKeptIff(a: map<string, Tier>, b: map<string, Tier>)
    ensures AssuranceLowered(a, b) <==> !forall v :: v in a ==> v in b && (a[v] == Factor2 ==> b[v] == Factor2)
  {
    if v :| v in a.Keys + b.Keys && AssuranceLevel(b, v) < AssuranceLevel(a, v) {
      assert v in a && !(v in b && (a[v] == Factor2 ==> b[v] == Factor2));
    }
    if v :| v in a && !(v in b && (a[v] == Factor2 ==> b[v] == Factor2)) {
      assert v in a.Keys + b.Keys && AssuranceLevel(b, v) < AssuranceLevel(a, v);
    }
  }

  predicate SignedBy(sigs: Signatures, proof: Option<string>, who: Did, base: Rules) {
    who != "" && NamedBy(proof, who) && (who, base) in sigs
  }

  /** A good version: signed by whoever signed the first one, numbered and linked in its place, and acknowledged by its
      member unless it revokes, tightens or keeps. */
  ghost predicate Good(sigs: Signatures, s: seq<Signed>, i: nat)
    requires i < |s|
  {
    var next := s[i].base;
    && (exists who :: SignedBy(sigs, s[i].proof, who, next) && NamedBy(s[0].proof, who))
    && next.version == i + 1 && next.previous == (if i == 0 then NoLink else To(s[i - 1]))
    && (next.subject == "" || SignedBy(sigs, s[i].memberAck, next.subject, next)
        || (i > 0 && s[i - 1].base.subject == next.subject
            && (next.status == Revoked || Tightens(s[i - 1].base, next))))
  }

  ghost predicate AllGood(sigs: Signatures, s: seq<Signed>) {
    forall i: nat | i < |s| :: Good(sigs, s, i)
  }

  lemma {:induction false} SignerIs(proof: Option<string>, who: Did)
    requires who != ""
    ensures SignerOf(proof) == who <==> NamedBy(proof, who)
  {
    UpToHashIs(proof.GetOr(""), who);
  }

  lemma {:induction false} SignerHasNoHash(proof: Option<string>)
    ensures NamedBy(proof, SignerOf(proof)) || SignerOf(proof) == ""
  {
    UpToHashIs(proof.GetOr(""), SignerOf(proof));
  }

  lemma {:induction false} AcknowledgedIff(sigs: Signatures, r: Signed)
    ensures Acknowledged(sigs, r) <==> SignedBy(sigs, r.memberAck, r.base.subject, r.base)
  {
    hide UpToHash;
    if r.base.subject != "" { SignerIs(r.memberAck, r.base.subject); }
  }

  lemma {:induction false} VersionOkIff(sigs: Signatures, s: seq<Signed>, i: nat)
    requires i < |s|
    ensures VersionOk(sigs, s, i) <==> Good(sigs, s, i)
  {
    hide UpToHash, Tightens, WidensIntoPrivateScope;
    NeedsAckIff(Before(s, i), s[i].base);
    if s[i].base.subject != "" { SignerIs(s[i].memberAck, s[i].base.subject); }
    var who := SignerOf(s[i].proof);
    SignerHasNoHash(s[i].proof);
    if who != "" {
      SignerIs(s[i].proof, who);
      SignerIs(s[0].proof, who);
    }
    forall other | SignedBy(sigs, s[i].proof, other, s[i].base) ensures other == who {
      SignerIs(s[i].proof, other);
    }
    if Verified(sigs, s[i]) && SignerOf(s[i].proof) == SignerOf(s[0].proof) {
      assert SignedBy(sigs, s[i].proof, who, s[i].base) && NamedBy(s[0].proof, who);
    }
  }

  /** The operative head: the last of the good versions that come first, if it is active and the governor's. */
  lemma {:induction false} OperativeIsLastGood(sigs: Signatures, chain: seq<Signed>, governor: Did, n: nat)
    requires n <= |chain| && governor != ""
    requires var s := SortByVersion(chain);
             (forall i: nat | i < n :: Good(sigs, s, i)) && (n < |s| ==> !Good(sigs, s, n))
    ensures var s := SortByVersion(chain);
            Operative(sigs, chain, governor)
            == if n > 0 && NamedBy(s[0].proof, governor) && s[n - 1].base.status == Active then Some(s[n - 1]) else None
  {
    hide UpToHash, Good, VersionOk;
    var s := SortByVersion(chain);
    var k := ValidPrefix(sigs, s, 0);
    forall i: nat | i < |s| ensures VersionOk(sigs, s, i) <==> Good(sigs, s, i) { VersionOkIff(sigs, s, i); }
    assert k == n;
    if n > 0 {
      FirstIsVerified(sigs, s);
      SignerIs(s[0].proof, governor);
    }
  }

  lemma {:induction false} FirstIsVerified(sigs: Signatures, s: seq<Signed>)
    requires s != [] && Good(sigs, s, 0)
    ensures Verified(sigs, s[0])
  {
    hide UpToHash;
    VersionOkIff(sigs, s, 0);
  }

  // ---------- the order of the versions ----------

  predicate InVersionOrder(s: seq<Signed>) {
    forall i, j | 0 <= i < j < |s| :: s[i].base.version <= s[j].base.version
  }

  function WithVersion(s: seq<Signed>, v: int): seq<Signed> {
    if s == [] then []
    else
      var before, last := WithVersion(s[..|s| - 1], v), s[|s| - 1];
      if last.base.version == v then before + [last] else before
  }

  lemma {:induction false} InsertKeepsOrder(s: seq<Signed>, x: Signed)
    requires InVersionOrder(s)
    ensures InVersionOrder(InsertByVersion(s, x))
  {
    hide InsertByVersion;
    InsertStep(s, x);
    if s != [] && s[|s| - 1].base.version > x.base.version {
      var n := |s| - 1;
      InsertKeepsOrder(s[..n], x);
      var r := InsertByVersion(s[..n], x);
      forall y | y in r ensures y.base.version <= s[n].base.version {
        assert y in multiset(r);
        if y != x { assert y in multiset(s[..n]); }
      }
    }
  }

  lemma {:induction false} InsertIsStable(s: seq<Signed>, x: Signed, v: int)
    ensures WithVersion(InsertByVersion(s, x), v) == WithVersion(s + [x], v)
  {
    hide InsertByVersion;
    InsertStep(s, x);
    assert (s + [x])[..|s|] == s;
    if s != [] && s[|s| - 1].base.version > x.base.version {
      var n := |s| - 1;
      InsertIsStable(s[..n], x, v);
      var r := InsertByVersion(s[..n], x);
      assert (r + [s[n]])[..|r|] == r && (s[..n] + [x])[..n] == s[..n];
    }
  }

  /** Whatever the order in which the versions arrive, they are walked in the order of their numbers, and versions of
      one number in the order in which they came. */
  lemma {:induction false} SortIsStable(chain: seq<Signed>, v: int)
    ensures InVersionOrder(SortByVersion(chain))
    ensures WithVersion(SortByVersion(chain), v) == WithVersion(chain, v)
  {
    if chain != [] {
      var n := |chain| - 1;
      SortIsStable(chain[..n], v);
      var s := SortByVersion(chain[..n]);
      InsertKeepsOrder(s, chain[n]);
      InsertIsStable(s, chain[n], v);
      assert (s + [chain[n]])[..|s|] == s;
    }
  }

  // ---------- the reads, in plain terms ----------

  /** The edge that a read goes by, if there is one. */
  predicate EdgeOf(sigs: Signatures, chain: seq<Signed>, governor: Did, subject: Did) {
    var op := Operative(sigs, chain, governor);
    op.Some? && op.value.base.actor == governor && op.value.base.subject == subject
  }

  /** A read is answered: as not there, if the artefact is nobody's or another member's, or outside the kinds or above
      the ceiling of the edge; as refused, without an edge or after its time; and granted otherwise. */
  lemma {:induction false} ReadIs(
      sigs: Signatures, chain: seq<Signed>, governor: Did, subject: Did, a: Option<Artefact>, at: string)
    ensures var r := ReadOf(sigs, chain, governor, subject, a, at);
            var own := a.Some? && a.value.owner == subject;
            && (!own ==> r == NotAvailable)
            && (r == EdgeRefused(NoEdge) <==> own && !EdgeOf(sigs, chain, governor, subject))
            && (own && EdgeOf(sigs, chain, governor, subject) ==>
                  var edge := Operative(sigs, chain, governor).value.base;
                  var expired := edge.validUntil.Some? && edge.validUntil.value != "" && !LexLeq(at, edge.validUntil.value);
                  var inside := (a.value.kind != "" && edge.capabilities.kinds.Some? ==>
                                   a.value.kind in edge.capabilities.kinds.value)
                                && (edge.ceiling.Some? ==> a.value.sensitivity <= edge.ceiling.value);
                  && (r == EdgeRefused(Expired) <==> expired)
                  && (r == NotAvailable <==> !expired && !inside)
                  && (r == Granted <==> !expired && inside))
            && r != EdgeRefused(OutOfScope)
  {
    hide Operative;
  }
}
