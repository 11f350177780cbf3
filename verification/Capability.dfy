/** Capabilities: an authority, which is a pair of sets, and the caveats that restrict its use. */
module Capability {
  import opened Wrappers
  import opened Text
  import opened Timestamps

  /** The source keeps lists and dedupes and sorts them wherever they are compared or committed to. */
  datatype AuthoritySet = AuthoritySet(operations: set<string>, resources: set<string>)

  predicate IsSubset(child: AuthoritySet, parent: AuthoritySet) {
    child.operations <= parent.operations && child.resources <= parent.resources
  }

  datatype ThirdPartyCaveat = ThirdPartyCaveat(party: Did, attests: string, location: Option<string>)

  datatype StatusPointer = StatusPointer(statusListCredential: Did, statusListIndex: nat)

  /** Absent fields are None; a ceiling that is missing or not a number is None as well. */
  datatype Caveats = Caveats(
    ceiling: Option<real>,
    kinds: Option<seq<string>>,
    owner: Option<Did>,
    audience: Option<Did>,
    expires: Option<string>,
    singleUse: bool,
    requiresDischarge: seq<ThirdPartyCaveat>,
    status: Option<StatusPointer>)

  /** An absent or empty expiry does not bound anything. */
  predicate Bounded(expires: Option<string>) {
    expires.Some? && expires.value != ""
  }

  predicate ExpiresWithin(child: Option<string>, parent: Option<string>) {
    Bounded(parent) ==> Bounded(child) && LexLeq(child.value, parent.value)
  }

  predicate KindsWithin(child: Option<seq<string>>, parent: Option<seq<string>>) {
    parent.Some? ==> child.Some? && forall k | k in child.value :: k in parent.value
  }

  function DischargeKey(d: ThirdPartyCaveat): string {
    Joined(d.party, d.attests)
  }

  predicate HasKey(ds: seq<ThirdPartyCaveat>, key: string) {
    exists d | d in ds :: DischargeKey(d) == key
  }

  /** caveatsNarrow: the rule for one delegation hop. */
  predicate CaveatsNarrow(child: Caveats, parent: Caveats) {
    && child.ceiling.Some? && parent.ceiling.Some?
    && child.ceiling.value <= parent.ceiling.value
    && (parent.owner.Some? ==> child.owner == parent.owner)
    && (parent.audience.Some? ==> child.audience == parent.audience)
    && ExpiresWithin(child.expires, parent.expires)
    && (parent.singleUse ==> child.singleUse)
    && (parent.status.Some? ==> child.status.Some?)
    && KindsWithin(child.kinds, parent.kinds)
    && forall p | p in parent.requiresDischarge :: HasKey(child.requiresDischarge, DischargeKey(p))
  }

  // ---------- the same, in plain terms ----------

  /** Each operation and each resource of the child is one of the parent. */
  predicate Within(child: AuthoritySet, parent: AuthoritySet) {
    && (forall o :: o in child.operations ==> o in parent.operations)
    && (forall r :: r in child.resources ==> r in parent.resources)
  }

  /** Field by field: what the lower caveats may and must say below the higher ones. */
  predicate Restricts(low: Caveats, high: Caveats) {
    && low.ceiling.Some? && high.ceiling.Some? && low.ceiling.value <= high.ceiling.value
    && (high.kinds.Some? ==> low.kinds.Some? && forall k :: k in low.kinds.value ==> k in high.kinds.value)
    && (high.owner.Some? ==> low.owner == high.owner)
    && (high.audience.Some? ==> low.audience == high.audience)
    && (high.singleUse ==> low.singleUse) && (high.status.Some? ==> low.status.Some?)
    && (high.expires.Some? && high.expires.value != "" ==>
          low.expires.Some? && low.expires.value != "" && LexLeq(low.expires.value, high.expires.value))
    && forall d :: d in high.requiresDischarge ==> Requires(low, d.party + "::" + d.attests)
  }

  predicate Requires(c: Caveats, key: string) {
    exists d :: d in c.requiresDischarge && d.party + "::" + d.attests == key
  }

  /** The subset test lets through exactly the sets whose members are all members of the parent. */
  lemma {:induction false} SubsetIsWithin(child: AuthoritySet, parent: AuthoritySet)
    ensures IsSubset(child, parent) <==> Within(child, parent)
  {
  }

  /** The narrowing rule lets through exactly the caveats that restrict those of the parent. */
  lemma {:induction false} NarrowIffRestricts(low: Caveats, high: Caveats)
    ensures CaveatsNarrow(low, high) <==> Restricts(low, high)
  {
    hide LexLeq;
    forall key ensures HasKey(low.requiresDischarge, key) <==> Requires(low, key) {
      KeyIsRequired(low, key);
    }
    assert forall d :: DischargeKey(d) == d.party + "::" + d.attests;
  }

  lemma {:induction false} KeyIsRequired(c: Caveats, key: string)
    ensures HasKey(c.requiresDischarge, key) <==> Requires(c, key)
  {
    if d :| d in c.requiresDischarge && DischargeKey(d) == key { assert d.party + "::" + d.attests == key; }
    if d :| d in c.requiresDischarge && d.party + "::" + d.attests == key { assert DischargeKey(d) == key; }
  }

  lemma {:induction false} NarrowIsTransitive(a: Caveats, b: Caveats, c: Caveats)
    requires CaveatsNarrow(a, b) && CaveatsNarrow(b, c)
    ensures CaveatsNarrow(a, c)
  {
    if Bounded(c.expires) {
      LexTransitive(a.expires.value, b.expires.value, c.expires.value);
    }
    forall p | p in c.requiresDischarge ensures HasKey(a.requiresDischarge, DischargeKey(p)) {
      var q :| q in b.requiresDischarge && DischargeKey(q) == DischargeKey(p);
      assert HasKey(a.requiresDischarge, DischargeKey(q));
    }
  }

  /** Caveats narrow themselves exactly when their ceiling is a number. */
  lemma {:induction false} NarrowIsReflexive(a: Caveats)
    ensures CaveatsNarrow(a, a) <==> a.ceiling.Some?
  {
    if Bounded(a.expires) {
      LexReflexive(a.expires.value);
    }
  }

  // ---------- what the caveats admit at the point of use ----------

  datatype Use = Use(sensitivity: real, kind: string, owner: Did, audience: Did, now: int, discharged: set<(Did, string)>)

  /** A capability that names no owner is over the data of the Sovereign of the deployment. */
  function OwnerOf(c: Caveats, sovereign: Did): Did {
    c.owner.GetOr(sovereign)
  }

  predicate Alive(expires: Option<string>, now: int, clock: string -> Option<int>) {
    Bounded(expires) ==> clock(expires.value).Some? && now < clock(expires.value).value
  }

  predicate Discharged(ds: seq<ThirdPartyCaveat>, done: set<(Did, string)>) {
    forall d | d in ds :: (d.party, d.attests) in done
  }

  /** What the evidence service and the monitor let a holder of c do. */
  predicate Admits(c: Caveats, use: Use, sovereign: Did, clock: string -> Option<int>) {
    && c.ceiling.Some? && use.sensitivity <= c.ceiling.value
    && (c.kinds.Some? ==> use.kind in c.kinds.value)
    && use.owner == OwnerOf(c, sovereign)
    && (c.audience.Some? ==> use.audience == c.audience.value)
    && Alive(c.expires, use.now, clock)
    && Discharged(c.requiresDischarge, use.discharged)
  }

  /** Some use passes: an empty list of kinds admits none, and a capability whose expiry cannot be read is dead. */
  predicate AdmitsSome(c: Caveats, clock: string -> Option<int>) {
    c.ceiling.Some? && c.kinds != Some([]) && (Bounded(c.expires) ==> clock(c.expires.value).Some?)
  }

  /** A parent that names no owner lets its child name any; only the default owner passes both. */
  predicate OwnerKept(child: Caveats, parent: Caveats, sovereign: Did) {
    parent.owner.Some? || OwnerOf(child, sovereign) == sovereign
  }

  /** The expiry of the parent can be read, and that of the child is not a later instant. */
  predicate InstantKept(child: Caveats, parent: Caveats, clock: string -> Option<int>) {
    Bounded(parent.expires) ==>
      && clock(parent.expires.value).Some?
      && (Bounded(child.expires) && clock(child.expires.value).Some? ==>
            clock(child.expires.value).value <= clock(parent.expires.value).value)
  }

  /** What the parent requires to be discharged, the child requires of the same party. */
  predicate DischargesKept(child: Caveats, parent: Caveats) {
    forall p | p in parent.requiresDischarge :: HasPair(child.requiresDischarge, p.party, p.attests)
  }

  predicate HasPair(ds: seq<ThirdPartyCaveat>, party: Did, attests: string) {
    exists d | d in ds :: d.party == party && d.attests == attests
  }

  /** The three things that the narrowing rule, which compares strings and keys, does not settle by itself. */
  predicate Kept(child: Caveats, parent: Caveats, sovereign: Did, clock: string -> Option<int>) {
    OwnerKept(child, parent, sovereign) && InstantKept(child, parent, clock) && DischargesKept(child, parent)
  }

  lemma {:induction false} NarrowerAdmitsThis(
      child: Caveats, parent: Caveats, use: Use, sovereign: Did, clock: string -> Option<int>)
    requires CaveatsNarrow(child, parent) && Kept(child, parent, sovereign, clock) && Admits(child, use, sovereign, clock)
    ensures Admits(parent, use, sovereign, clock)
  {
    forall p | p in parent.requiresDischarge ensures (p.party, p.attests) in use.discharged {
      assert HasPair(child.requiresDischarge, p.party, p.attests);
    }
  }

  function PairsOf(ds: seq<ThirdPartyCaveat>): set<(Did, string)> {
    set d | d in ds :: (d.party, d.attests)
  }

  /** The use that asks for the most: the last instant, the highest sensitivity and no discharge more than required. */
  function UtmostUse(c: Caveats, sovereign: Did, clock: string -> Option<int>): Use
    requires AdmitsSome(c, clock)
  {
    Use(c.ceiling.value, if c.kinds.Some? then c.kinds.value[0] else "", OwnerOf(c, sovereign), c.audience.GetOr(""),
        if Bounded(c.expires) then clock(c.expires.value).value - 1 else 0, PairsOf(c.requiresDischarge))
  }

  lemma {:induction false} UtmostUseIsAdmitted(
      child: Caveats, parent: Caveats, sovereign: Did, clock: string -> Option<int>)
    requires CaveatsNarrow(child, parent) && AdmitsSome(child, clock)
    ensures Admits(child, UtmostUse(child, sovereign, clock), sovereign, clock)
    ensures Admits(parent, UtmostUse(child, sovereign, clock), sovereign, clock) ==> Kept(child, parent, sovereign, clock)
  {
    var use := UtmostUse(child, sovereign, clock);
    if Admits(parent, use, sovereign, clock) {
      forall p | p in parent.requiresDischarge ensures HasPair(child.requiresDischarge, p.party, p.attests) {
        assert (p.party, p.attests) in PairsOf(child.requiresDischarge);
      }
    }
  }

  /** When narrowing is what its name says: every use that the narrower caveats admit the wider ones admit too, if
      and only if the owner, the instant of expiry and the required discharges are kept, or the narrower caveats
      admit nothing at all. */
  lemma {:induction false} NarrowerAdmitsLess(
      child: Caveats, parent: Caveats, sovereign: Did, clock: string -> Option<int>)
    requires CaveatsNarrow(child, parent)
    ensures (forall use :: Admits(child, use, sovereign, clock) ==> Admits(parent, use, sovereign, clock))
       <==> !AdmitsSome(child, clock) || Kept(child, parent, sovereign, clock)
  {
    hide CaveatsNarrow, Kept, Admits;
    if AdmitsSome(child, clock) {
      UtmostUseIsAdmitted(child, parent, sovereign, clock);
    }
    forall use | Kept(child, parent, sovereign, clock) && Admits(child, use, sovereign, clock)
      ensures Admits(parent, use, sovereign, clock)
    {
      NarrowerAdmitsThis(child, parent, use, sovereign, clock);
    }
    forall use | Admits(child, use, sovereign, clock) ensures AdmitsSome(child, clock) {
      AdmittedIsSome(child, use, sovereign, clock);
    }
  }

  lemma {:induction false} AdmittedIsSome(c: Caveats, use: Use, sovereign: Did, clock: string -> Option<int>)
    requires Admits(c, use, sovereign, clock)
    ensures AdmitsSome(c, clock)
  {
  }

  // ---------- from strings to instants, and from keys to discharges ----------

  /** The clock reads timestamps in UTC as the instants they stand for; of other strings nothing is assumed. */
  ghost predicate ReadsUtc(clock: string -> Option<int>) {
    forall s | IsUtc(s) :: clock(s) == Some(InstantOf(s))
  }

  predicate UtcIfBounded(expires: Option<string>) {
    Bounded(expires) ==> IsUtc(expires.value)
  }

  /** Between expiries in UTC the instant is kept unless the child adds a fraction to the second of the parent. */
  lemma {:induction false} UtcKeepsInstant(child: Caveats, parent: Caveats, clock: string -> Option<int>)
    requires CaveatsNarrow(child, parent) && ReadsUtc(clock)
    requires UtcIfBounded(child.expires) && UtcIfBounded(parent.expires)
    ensures InstantKept(child, parent, clock)
       <==> !(Bounded(parent.expires) && AddsFraction(child.expires.value, parent.expires.value))
  {
    hide InstantOf, LexLeq;
    if Bounded(parent.expires) {
      LexIsChronological(child.expires.value, parent.expires.value);
    }
  }

  predicate PlainDischarges(ds: seq<ThirdPartyCaveat>) {
    forall d | d in ds :: Plain(d.party)
  }

  /** Between plain designators keys stand for discharges. */
  lemma {:induction false} PlainKeepsDischarges(child: Caveats, parent: Caveats)
    requires CaveatsNarrow(child, parent)
    requires PlainDischarges(child.requiresDischarge) && PlainDischarges(parent.requiresDischarge)
    ensures DischargesKept(child, parent)
  {
    forall p | p in parent.requiresDischarge ensures HasPair(child.requiresDischarge, p.party, p.attests) {
      var d :| d in child.requiresDischarge && DischargeKey(d) == DischargeKey(p);
      JoinedIsInjective(d.party, d.attests, p.party, p.attests);
    }
  }

  /** With expiries in UTC and plain designators the condition is one on the caveats alone: the owner is kept and no
      fraction of a second is added, or no kind is left. */
  lemma {:induction false} NarrowUtcAdmitsLess(child: Caveats, parent: Caveats, sovereign: Did, clock: string -> Option<int>)
    requires CaveatsNarrow(child, parent) && ReadsUtc(clock)
    requires UtcIfBounded(child.expires) && UtcIfBounded(parent.expires)
    requires PlainDischarges(child.requiresDischarge) && PlainDischarges(parent.requiresDischarge)
    ensures (forall use :: Admits(child, use, sovereign, clock) ==> Admits(parent, use, sovereign, clock))
       <==> child.kinds == Some([])
            || (OwnerKept(child, parent, sovereign)
                && !(Bounded(parent.expires) && AddsFraction(child.expires.value, parent.expires.value)))
  {
    hide Admits, IsUtc, InstantOf, AddsFraction, InstantKept, DischargesKept, LexLeq;
    NarrowerAdmitsLess(child, parent, sovereign, clock);
    UtcKeepsInstant(child, parent, clock);
    PlainKeepsDischarges(child, parent);
    assert AdmitsSome(child, clock) <==> child.kinds != Some([]);
  }

  function ExpiringAt(expires: string): Caveats {
    Caveats(Some(1.0), None, None, None, Some(expires), false, [], None)
  }

  const PARENT_EXPIRY := "2026-01-01T12:30:00Z"
  const OFFSET_EXPIRY := "2026-01-01T12:00:00-05:00"
  const OFFSET_IN_UTC := "2026-01-01T17:00:00Z"
  const FRACTION_EXPIRY := "2026-01-01T12:30:00.500Z"

  lemma {:induction false} Examples()
    ensures IsUtc(PARENT_EXPIRY) && IsUtc(OFFSET_IN_UTC) && IsUtc(FRACTION_EXPIRY) && !IsUtc(OFFSET_EXPIRY)
    ensures HasMillis(FRACTION_EXPIRY) && !HasMillis(PARENT_EXPIRY) && !HasMillis(OFFSET_IN_UTC)
    ensures MillisPart(FRACTION_EXPIRY) == 500
  {
    hide OnCalendar;
    assert FieldsOf(PARENT_EXPIRY) == Fields(2026, 1, 1, 12, 30, 0);
    assert FieldsOf(OFFSET_IN_UTC) == Fields(2026, 1, 1, 17, 0, 0);
    assert FieldsOf(FRACTION_EXPIRY) == Fields(2026, 1, 1, 12, 30, 0);
    Calendar();
  }

  lemma {:induction false} Calendar()
    ensures OnCalendar(Fields(2026, 1, 1, 12, 30, 0)) && OnCalendar(Fields(2026, 1, 1, 17, 0, 0))
  {
  }

  /** An expiry with an offset: half past twelve in UTC bounds, as a string, twelve o'clock five hours further west,
      which is five in the afternoon. */
  lemma {:induction false} OffsetOutlives(clock: string -> Option<int>) returns (use: Use)
    requires ReadsUtc(clock) && clock(OFFSET_EXPIRY) == clock(OFFSET_IN_UTC)
    ensures CaveatsNarrow(ExpiringAt(OFFSET_EXPIRY), ExpiringAt(PARENT_EXPIRY))
    ensures Admits(ExpiringAt(OFFSET_EXPIRY), use, "s", clock) && !Admits(ExpiringAt(PARENT_EXPIRY), use, "s", clock)
  {
    hide IsUtc, InstantOf, LexLeq;
    Examples();
    LexAtDifference(OFFSET_EXPIRY, PARENT_EXPIRY, 14);
    LexAtDifference(OFFSET_IN_UTC, PARENT_EXPIRY, 12);
    SameFormIsChronological(OFFSET_IN_UTC, PARENT_EXPIRY);
    use := Use(0.0, "k", "s", "t", InstantOf(PARENT_EXPIRY), {});
  }

  /** An expiry that cannot be read is a capability that is dead, and still it bounds a child that is not. */
  lemma {:induction false} UnreadableParentOutlived(clock: string -> Option<int>, instant: int) returns (use: Use)
    requires clock("never") == None && clock("2030-01-01T00:00:00Z") == Some(instant)
    ensures CaveatsNarrow(ExpiringAt("2030-01-01T00:00:00Z"), ExpiringAt("never"))
    ensures Admits(ExpiringAt("2030-01-01T00:00:00Z"), use, "s", clock)
    ensures !Admits(ExpiringAt("never"), use, "s", clock)
  {
    use := Use(0.0, "k", "s", "t", instant - 1, {});
    var a, b := "2030-01-01T00:00:00Z", "never";
    LexAtDifference(a, b, 0);
  }

  /** With both in UTC: half a second more than the parent, and less as a string. */
  lemma {:induction false} FractionOutlives(clock: string -> Option<int>) returns (use: Use)
    requires ReadsUtc(clock)
    ensures CaveatsNarrow(ExpiringAt(FRACTION_EXPIRY), ExpiringAt(PARENT_EXPIRY))
    ensures Admits(ExpiringAt(FRACTION_EXPIRY), use, "s", clock) && !Admits(ExpiringAt(PARENT_EXPIRY), use, "s", clock)
  {
    hide IsUtc, InstantOf, LexLeq, MillisPart;
    Examples();
    LexAtDifference(FRACTION_EXPIRY, PARENT_EXPIRY, 19);
    assert FRACTION_EXPIRY[..19] == PARENT_EXPIRY[..19];
    LexIsChronological(FRACTION_EXPIRY, PARENT_EXPIRY);
    use := Use(0.0, "k", "s", "t", InstantOf(PARENT_EXPIRY), {});
  }

  /** Without plain designators two different required discharges can share a key. */
  lemma {:induction false} SharedKeyLosesDischarge()
    returns (child: Caveats, parent: Caveats, use: Use)
    ensures CaveatsNarrow(child, parent)
    ensures forall clock :: Admits(child, use, "s", clock) && !Admits(parent, use, "s", clock)
  {
    var c := ThirdPartyCaveat("a", "b::c", None);
    var p := ThirdPartyCaveat("a::b", "c", None);
    child := Caveats(Some(0.0), None, None, None, None, false, [c], None);
    parent := child.(requiresDischarge := [p]);
    use := Use(0.0, "k", "s", "t", 0, {("a", "b::c")});
    assert DischargeKey(c) == DischargeKey(p);
    assert c in child.requiresDischarge && p in parent.requiresDischarge;
    forall clock ensures Admits(child, use, "s", clock) && !Admits(parent, use, "s", clock) {
      assert ("a::b", "c") !in use.discharged;
    }
  }

  // ---------- targets ----------

  predicate TargetWithin(child: string, parent: string) {
    child == parent || parent + "/" <= child || parent + "?" <= child || parent + ":" <= child
  }

  /** The same target, or one that extends it after a '/', a '?' or a ':'. */
  predicate TargetExtends(child: string, parent: string) {
    child == parent || exists c :: c in {'/', '?', ':'} && parent + [c] <= child
  }

  lemma {:induction false} TargetIsWithin(child: string, parent: string)
    ensures TargetWithin(child, parent) <==> TargetExtends(child, parent)
  {
    if TargetExtends(child, parent) && child != parent {
      var c :| c in {'/', '?', ':'} && parent + [c] <= child;
      assert parent + [c] in {parent + "/", parent + "?", parent + ":"};
    }
    if parent + "/" <= child { assert '/' in {'/', '?', ':'} && parent + ['/'] <= child; }
    if parent + "?" <= child { assert '?' in {'/', '?', ':'} && parent + ['?'] <= child; }
    if parent + ":" <= child { assert ':' in {'/', '?', ':'} && parent + [':'] <= child; }
  }

  lemma {:induction false} TargetWithinIsTransitive(a: string, b: string, c: string)
    requires TargetWithin(a, b) && TargetWithin(b, c)
    ensures TargetWithin(a, c)
  {
    if a != b && b != c {
      assert b[..|c| + 1] == a[..|c| + 1];
    }
  }

  // ---------- the form that is committed to ----------

  function SortKinds(ks: seq<string>): seq<string> {
    Sort(ks, k => k)
  }

  function SomeUnlessEmpty(ks: seq<string>): Option<seq<string>> {
    if ks == [] then None else Some(SortKinds(ks))
  }

  lemma {:induction false} SortedKinds(ks: seq<string>, kind: string)
    ensures kind in SortKinds(ks) <==> kind in ks
  {
    SortKeepsMembers(ks, k => k, kind);
  }

  /** normalizeCaveats: lists are sorted, and an empty list of kinds is dropped. */
  function NormalizeCaveats(c: Caveats): Caveats {
    c.(kinds := if c.kinds.Some? then SomeUnlessEmpty(c.kinds.value) else None,
       requiresDischarge := Sort(c.requiresDischarge, DischargeKey))
  }

  /** Nothing but the lists is touched, and no discharge is lost or added. */
  lemma {:induction false} NormalizeKeepsTheRest(c: Caveats)
    ensures var n := NormalizeCaveats(c);
            && n.ceiling == c.ceiling && n.owner == c.owner && n.audience == c.audience && n.expires == c.expires
            && n.singleUse == c.singleUse && n.status == c.status
            && multiset(n.requiresDischarge) == multiset(c.requiresDischarge)
            && (c.kinds.Some? && c.kinds.value != [] ==> n.kinds.Some? && multiset(n.kinds.value) == multiset(c.kinds.value))
            && (c.kinds.None? || c.kinds.value == [] ==> n.kinds.None?)
  {
  }

  /** The order in which kinds and discharges are listed does not show in what is committed to. */
  lemma {:induction false} NormalizeForgetsOrder(
      c: Caveats, kinds: Option<seq<string>>, discharges: seq<ThirdPartyCaveat>)
    requires c.kinds.Some? <==> kinds.Some?
    requires c.kinds.Some? ==> multiset(kinds.value) == multiset(c.kinds.value)
    requires multiset(discharges) == multiset(c.requiresDischarge)
    requires forall d, e | d in discharges && e in discharges && DischargeKey(d) == DischargeKey(e) :: d == e
    ensures NormalizeCaveats(c.(kinds := kinds, requiresDischarge := discharges)) == NormalizeCaveats(c)
  {
    SortIsCanonical(discharges, c.requiresDischarge, DischargeKey);
    if c.kinds.Some? {
      SameLength(kinds.value, c.kinds.value);
      KindsForgetOrder(kinds.value, c.kinds.value);
    }
  }

  lemma {:induction false} KindsForgetOrder(a: seq<string>, b: seq<string>)
    requires multiset(a) == multiset(b)
    ensures SortKinds(a) == SortKinds(b)
  {
    SortIsCanonical(a, b, k => k);
  }

  predicate AllowsKind(c: Caveats, kind: string) {
    c.kinds.Some? ==> kind in c.kinds.value
  }

  lemma {:induction false} NormalizedKinds(c: Caveats, kind: string)
    requires c.kinds != Some([])
    ensures AllowsKind(NormalizeCaveats(c), kind) <==> AllowsKind(c, kind)
  {
    if c.kinds.Some? {
      SortedKinds(c.kinds.value, kind);
    }
  }

  /** What is committed to is what was granted exactly when the list of kinds is not empty: an empty list,
      which allows no kind, is committed to as an absent one, which allows every kind. */
  lemma {:induction false} NormalizeKeepsKinds(c: Caveats)
    ensures (forall kind :: AllowsKind(NormalizeCaveats(c), kind) <==> AllowsKind(c, kind)) <==> c.kinds != Some([])
  {
    if c.kinds == Some([]) {
      assert AllowsKind(NormalizeCaveats(c), "k") && !AllowsKind(c, "k");
    } else {
      forall kind ensures AllowsKind(NormalizeCaveats(c), kind) <==> AllowsKind(c, kind) { NormalizedKinds(c, kind); }
    }
  }

  lemma {:induction false} NormalizedKeys(ds: seq<ThirdPartyCaveat>, key: string)
    ensures HasKey(Sort(ds, DischargeKey), key) <==> HasKey(ds, key)
  {
    forall d ensures d in Sort(ds, DischargeKey) <==> d in ds { SortKeepsMembers(ds, DischargeKey, d); }
  }

  /** A narrowing that loses its kinds on the way to the commitment. */
  predicate DropsKinds(child: Caveats, parent: Caveats) {
    child.kinds == Some([]) && parent.kinds.Some? && parent.kinds.value != []
  }

  lemma {:induction false} NormalizedKindsWithin(child: Caveats, parent: Caveats)
    requires KindsWithin(child.kinds, parent.kinds)
    ensures KindsWithin(NormalizeCaveats(child).kinds, NormalizeCaveats(parent).kinds) <==> !DropsKinds(child, parent)
  {
    if parent.kinds.Some? && parent.kinds.value != [] {
      var ks, ps := child.kinds.value, parent.kinds.value;
      forall k | k in SortKinds(ks) ensures k in SortKinds(ps) {
        SortedKinds(ks, k);
        SortedKinds(ps, k);
      }
    }
  }

  /** A narrowing survives normalization unless it drops the kinds. */
  lemma {:induction false} NormalizeKeepsNarrowing(child: Caveats, parent: Caveats)
    requires CaveatsNarrow(child, parent)
    ensures CaveatsNarrow(NormalizeCaveats(child), NormalizeCaveats(parent)) <==> !DropsKinds(child, parent)
  {
    NormalizedKindsWithin(child, parent);
    forall p | p in NormalizeCaveats(parent).requiresDischarge
      ensures HasKey(NormalizeCaveats(child).requiresDischarge, DischargeKey(p))
    {
      SortKeepsMembers(parent.requiresDischarge, DischargeKey, p);
      NormalizedKeys(child.requiresDischarge, DischargeKey(p));
    }
  }

  /** The issuer's guard passes and the verifier's does not: the parent allows "k", the child allows nothing. */
  lemma {:induction false} EmptiedKindsAreRefused() returns (child: Caveats, parent: Caveats)
    ensures CaveatsNarrow(child, parent) && !CaveatsNarrow(NormalizeCaveats(child), NormalizeCaveats(parent))
  {
    parent := Caveats(Some(1.0), Some(["k"]), None, None, None, false, [], None);
    child := parent.(kinds := Some([]));
    NormalizeKeepsNarrowing(child, parent);
  }

  // ---------- one delegation hop at issuance ----------

  datatype Capability = Capability(
    id: Did, controller: Did, parentCapability: Option<Did>, invocationTarget: string,
    authority: AuthoritySet, caveats: Caveats)

  /** capabilityNarrows: the issuer's own check. */
  predicate CapabilityNarrows(child: Capability, parent: Capability) {
    && child.parentCapability == Some(parent.id)
    && TargetWithin(child.invocationTarget, parent.invocationTarget)
    && IsSubset(child.authority, parent.authority)
    && CaveatsNarrow(child.caveats, parent.caveats)
  }

  /** It lets through exactly a capability that names its parent and is within it in target, authority and caveats. */
  lemma {:induction false} CapabilityNarrowsIff(child: Capability, parent: Capability)
    ensures CapabilityNarrows(child, parent)
       <==> child.parentCapability == Some(parent.id)
            && TargetExtends(child.invocationTarget, parent.invocationTarget)
            && Within(child.authority, parent.authority) && Restricts(child.caveats, parent.caveats)
  {
    hide TargetWithin, TargetExtends, CaveatsNarrow, Restricts;
    TargetIsWithin(child.invocationTarget, parent.invocationTarget);
    SubsetIsWithin(child.authority, parent.authority);
    NarrowIffRestricts(child.caveats, parent.caveats);
  }
}
