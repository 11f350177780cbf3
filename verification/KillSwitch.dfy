/** Revocation of a hop, from the bit on its issuer's status list to the chains that pass through it. */
module KillSwitch {
  import opened Wrappers
  import opened Text
  import opened Capability
  import opened Attenuation
  import opened AttenuationTheory
  import StatusList

  /** A status list as it resolves: who signed it, and the set bits. */
  datatype Published = Published(signer: Did, bits: set<int>)

  type Lists = map<Did, Published>

  /** The per-hop check of the monitor: the list must be signed by the hop's own controller; whatever cannot be
      established is unavailable. */
  function CheckHop(lists: Lists, caveats: Option<Caveats>, controller: Did): HopStatus {
    if caveats.None? || caveats.value.status.None? then NoStatus
    else
      var s := caveats.value.status.value;
      if s.statusListCredential !in lists || lists[s.statusListCredential].signer != controller
         || !StatusList.InRange(s.statusListIndex)
      then Unavailable
      else if s.statusListIndex in lists[s.statusListCredential].bits then Revoked
      else Live
  }

  /** The four answers: revoked and live are said only of a list that resolves, is signed by the controller of the hop
      and has the index; without a pointer there is no status, and anything else is unavailable. */
  lemma {:induction false} CheckHopIs(lists: Lists, c: Caveats, controller: Did)
    ensures CheckHop(lists, None, controller) == NoStatus
    ensures CheckHop(lists, Some(c), controller) == NoStatus <==> c.status.None?
    ensures c.status.Some? ==>
              var s := c.status.value;
              var sure := s.statusListCredential in lists && lists[s.statusListCredential].signer == controller
                          && s.statusListIndex < 131072;
              && (CheckHop(lists, Some(c), controller) == Revoked <==>
                    sure && s.statusListIndex in lists[s.statusListCredential].bits)
              && (CheckHop(lists, Some(c), controller) == Live <==>
                    sure && s.statusListIndex !in lists[s.statusListCredential].bits)
              && (CheckHop(lists, Some(c), controller) == Unavailable <==> !sure)
  {
  }

  function Checking(p: Policy, lists: Lists): Policy {
    p.(status := Some((c: Option<Caveats>, d: Did) => CheckHop(lists, c, d)))
  }

  predicate PointsAt(p: Policy, h: Hop, list: Did, index: nat) {
    h.did in p.disclosed && p.disclosed[h.did].caveats.Some?
    && p.disclosed[h.did].caveats.value.status == Some(StatusPointer(list, index))
  }

  ghost predicate ChecksAgainst(p: Policy, lists: Lists) {
    p.status.Some? && forall c, d :: p.status.value(c, d) == CheckHop(lists, c, d)
  }

  /** A list that resolves at all resolves to its current version; the resolver of the monitor is new at each check. */
  predicate Serves(lists: Lists, list: Did, bits: set<int>) {
    list in lists ==> lists[list].bits == bits
  }

  /** A chain that passes through a hop whose bit is set is not accepted, in any world: whatever else was appended,
      minted or disclosed. */
  lemma {:induction false} RevokedIsRefused(lists: Lists, w: World, p: Policy, leaf: Did, i: nat, list: Did, index: nat)
    requires ChecksAgainst(p, lists) && (list in lists ==> index in lists[list].bits)
    requires i < |Walk(w.ledger, leaf, None, p.maxHops)|
    requires PointsAt(p, Walk(w.ledger, leaf, None, p.maxHops)[i], list, index)
    ensures !Verdict(w, p, leaf).Accept?
  {
    var hops := Walk(w.ledger, leaf, None, p.maxHops);
    AcceptIffSound(w, p, leaf);
    assert StatusOf(p, p.disclosed[hops[i].did], hops[i].doc.controller) in {Revoked, Unavailable};
    assert !HopSound(w, p, hops[i]);
  }

  /** In every run of concurrent revocations whose writes land on the list they read: once the bit of a hop is set, no
      chain through the hop is accepted at any later time. */
  lemma {:induction false} RevokedForGood(
      trace: seq<StatusList.History>, setAt: nat, at: nat, lists: Lists, w: World, p: Policy, leaf: Did, i: nat,
      list: Did, index: nat)
    requires StatusList.Run(trace) && setAt <= at < |trace|
    requires forall k, l | 0 <= k && k + 1 == l <= at :: StatusList.WritesOnCurrent(trace[k], trace[l])
    requires trace[setAt].versions != [] && index in StatusList.Current(trace[setAt])
    requires trace[at].versions != [] && Serves(lists, list, StatusList.Current(trace[at])) && ChecksAgainst(p, lists)
    requires i < |Walk(w.ledger, leaf, None, p.maxHops)|
    requires PointsAt(p, Walk(w.ledger, leaf, None, p.maxHops)[i], list, index)
    ensures !Verdict(w, p, leaf).Accept?
  {
    hide StatusList.Run, StatusList.WritesOnCurrent, Verdict, Walk, ChecksAgainst, PointsAt;
    StatusList.BitsStay(trace, setAt, at);
    RevokedIsRefused(lists, w, p, leaf, i, list, index);
  }

  function SetBit(lists: Lists, list: Did, index: nat): Lists
    requires list in lists
  {
    lists[list := lists[list].(bits := lists[list].bits + {index})]
  }

  /** Setting one bit changes no verdict on a chain without a hop that points at it. */
  lemma {:induction false} OthersUnaffected(lists: Lists, w: World, p: Policy, leaf: Did, list: Did, index: nat)
    requires list in lists
    requires forall h | h in Walk(w.ledger, leaf, None, p.maxHops) :: !PointsAt(p, h, list, index)
    ensures Verdict(w, Checking(p, SetBit(lists, list, index)), leaf) == Verdict(w, Checking(p, lists), leaf)
  {
    var q, r := Checking(p, lists), Checking(p, SetBit(lists, list, index));
    forall h | h in Walk(w.ledger, leaf, None, q.maxHops) ensures SameStatus(q, r, h) {
      assert !PointsAt(p, h, list, index);
    }
    RevocationElsewhere(w, q, r, leaf);
  }
  function WithBits(lists: Lists, list: Did, bits: set<int>): Lists
    requires list in lists
  {
    lists[list := lists[list].(bits := bits)]
  }

  /** A revocation that overlaps another one is confirmed and has no effect in the end: every chain without a hop that
      the other one concerns is judged as it was before, those through the revoked hop included. */
  lemma {:induction false} LostRevocation(a: nat, b: nat, lists: Lists, list: Did, w: World, p: Policy, leaf: Did)
    returns (trace: seq<StatusList.History>)
    requires StatusList.InRange(a) && StatusList.InRange(b) && a != b && list in lists
    requires forall h | h in Walk(w.ledger, leaf, None, p.maxHops) :: !PointsAt(p, h, list, b)
    ensures StatusList.Run(trace) && |trace| == 7
    ensures trace[5].versions == [{}, {a}] && trace[6].versions == [{}, {a}, {b}]
    ensures trace[6].revokers == [StatusList.Revoker(a, StatusList.Confirmed), StatusList.Revoker(b, StatusList.Confirmed)]
    ensures Verdict(w, Checking(p, WithBits(lists, list, {b})), leaf) == Verdict(w, Checking(p, WithBits(lists, list, {})), leaf)
  {
    hide StatusList.Run, Walk, Verdict, PointsAt;
    trace := StatusList.OverlapUndoesRevocation(a, b);
    var none := WithBits(lists, list, {});
    OthersUnaffected(none, w, p, leaf, list, b);
    assert SetBit(none, list, b) == WithBits(lists, list, {b}) by {
      var empty: set<int> := {};
      assert empty + {b as int} == {b};
    }
  }
}
