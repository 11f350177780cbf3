/** The revocation list: a fixed-size bitstring in which a set bit means revoked (section 3, Algorithms, of W3C
    Bitstring Status List v1.0), and revoking by id through the allocation record. */
module StatusList {
  import opened Wrappers
  import opened Allocation

  type Byte = bv8

  const LENGTH: int := 131_072
  const BYTES: int := LENGTH / 8

  // ---------- one byte ----------

  /** 0x80 shifted right by k. */
  function Mask(k: nat): Byte {
    if k == 0 then 0x80 else if k == 1 then 0x40 else if k == 2 then 0x20 else if k == 3 then 0x10
    else if k == 4 then 0x08 else if k == 5 then 0x04 else if k == 6 then 0x02 else 0x01
  }

  /** b shifted right by 7 - k. */
  function Down(b: Byte, k: nat): Byte {
    if k == 0 then b >> 7 else if k == 1 then b >> 6 else if k == 2 then b >> 5 else if k == 3 then b >> 4
    else if k == 4 then b >> 3 else if k == 5 then b >> 2 else if k == 6 then b >> 1 else b
  }

  predicate BitIn(b: Byte, k: nat) {
    Down(b, k) & 1 == 1
  }

  lemma {:induction false} BitInIsMask(b: Byte, k: nat)
    requires k < 8
    ensures BitIn(b, k) <==> b & Mask(k) != 0
  {
    if k < 4 {
      if k < 2 { if k == 0 {} else {} } else { if k == 2 {} else {} }
    } else {
      if k < 6 { if k == 4 {} else {} } else { if k == 6 {} else {} }
    }
  }

  lemma {:induction false} MasksApart(j: nat, k: nat)
    requires j < 8 && k < 8
    ensures Mask(j) & Mask(k) == if j == k then Mask(k) else 0
    ensures Mask(k) != 0
  {
    if j < 4 {
      if j < 2 { if j == 0 {} else {} } else { if j == 2 {} else {} }
    } else {
      if j < 6 { if j == 4 {} else {} } else { if j == 6 {} else {} }
    }
  }

  lemma {:induction false} OrDistributes(b: Byte, m: Byte, n: Byte)
    ensures (b | m) & n == (b & n) | (m & n)
  {
  }

  lemma {:induction false} OrIsZero(a: Byte, b: Byte)
    ensures a | b == 0 <==> a == 0 && b == 0
  {
  }

  lemma {:induction false} SetOneBit(b: Byte, j: nat, k: nat)
    requires j < 8 && k < 8
    ensures BitIn(b | Mask(j), k) <==> BitIn(b, k) || j == k
  {
    hide BitIn, Mask;
    BitInIsMask(b | Mask(j), k);
    BitInIsMask(b, k);
    MasksApart(j, k);
    OrDistributes(b, Mask(j), Mask(k));
    OrIsZero(b & Mask(k), Mask(j) & Mask(k));
  }

  const WEIGHTS: seq<Byte> := [0x80, 0x40, 0x20, 0x10, 0x08, 0x04, 0x02, 0x01]

  /** The first bit of a byte is its most significant one. */
  lemma {:induction false} MostSignificantFirst(b: Byte, k: nat)
    requires k < 8
    ensures Mask(k) == WEIGHTS[k] && (BitIn(b, k) <==> b & WEIGHTS[k] != 0)
  {
    BitInIsMask(b, k);
  }

  // ---------- the list ----------

  predicate InRange(index: int) {
    0 <= index < LENGTH
  }

  predicate Bit(bytes: seq<Byte>, index: int)
    requires |bytes| == BYTES && InRange(index)
  {
    BitIn(bytes[index / 8], index % 8)
  }

  function Bits(bytes: seq<Byte>): set<int>
    requires |bytes| == BYTES
  {
    set i | i in Slots(LENGTH) && InRange(i) && Bit(bytes, i)
  }

  lemma {:induction false} BitsAre(bytes: seq<Byte>, index: int)
    requires |bytes| == BYTES
    ensures index in Bits(bytes) <==> InRange(index) && Bit(bytes, index)
  {
    SlotsCount(LENGTH);
  }

  lemma {:induction false} NothingSet(bytes: seq<Byte>)
    requires |bytes| == BYTES && forall i | 0 <= i < BYTES :: bytes[i] == 0
    ensures Bits(bytes) == {}
  {
    hide Bits, BitIn;
    forall i ensures i !in Bits(bytes) {
      BitsAre(bytes, i);
      if InRange(i) { ClearByte(i % 8); }
    }
  }

  lemma {:induction false} ClearByte(k: nat)
    requires k < 8
    ensures !BitIn(0, k)
  {
  }

  /** The bit of that weight is set in the byte that holds the index. */
  predicate WeightSet(bytes: seq<Byte>, index: int)
    requires 0 <= index < 131_072 && |bytes| == 16_384
  {
    bytes[index / 8] & WEIGHTS[index % 8] != 0
  }

  /** One bit of one byte is set, and no other byte is touched. */
  predicate OnlySets(before: seq<Byte>, after: seq<Byte>, index: int)
    requires 0 <= index < 131_072
  {
    && |before| == |after| == 16_384 && after[index / 8] == before[index / 8] | WEIGHTS[index % 8]
    && forall i | 0 <= i < 16_384 && i != index / 8 :: after[i] == before[i]
  }

  datatype Revocation = Revocation(listVersion: nat, alreadyRevoked: bool)

  class List {
    var bytes: array<Byte>
    var listVersion: nat

    ghost predicate Valid()
      reads this
    {
      bytes.Length == BYTES
    }

    constructor ()
      ensures Valid() && fresh(bytes) && listVersion == 1 && Bits(bytes[..]) == {}
    {
      bytes := new Byte[BYTES](_ => 0);
      listVersion := 1;
      new;
      NothingSet(bytes[..]);
    }

    /** getBit: out of range is refused. */
    method GetBit(index: int) returns (r: Option<bool>)
      requires Valid()
      ensures r == if 0 <= index < 131_072 then Some(index in Bits(bytes[..])) else None
      ensures 0 <= index < 131_072 ==> r == Some(WeightSet(bytes[..], index))
    {
      hide Bits, BitIn, Mask;
      if index < 0 || index >= LENGTH {
        return None;
      }
      MostSignificantFirst(bytes[index / 8], index % 8);
      BitsAre(bytes[..], index);
      return Some(BitIn(bytes[index / 8], index % 8));
    }

    method SetBit(index: int)
      requires Valid() && InRange(index)
      modifies bytes
      ensures Valid() && Bits(bytes[..]) == old(Bits(bytes[..])) + {index}
      ensures OnlySets(old(bytes[..]), bytes[..], index)
    {
      hide Bits, BitIn, Mask;
      ghost var before := bytes[..];
      MostSignificantFirst(0, index % 8);
      bytes[index / 8] := bytes[index / 8] | Mask(index % 8);
      OneBitMore(before, bytes[..], index);
    }

    /** revokeStatusIndex: setting a bit that is set makes no new version. */
    method RevokeStatusIndex(index: int) returns (r: Option<Revocation>)
      requires Valid()
      modifies this`listVersion, bytes
      ensures Valid()
      ensures !(0 <= index < 131_072) ==> r.None? && Bits(bytes[..]) == old(Bits(bytes[..])) && listVersion == old(listVersion)
      ensures 0 <= index < 131_072 ==>
                r == Some(Revocation(listVersion, index in old(Bits(bytes[..]))))
                && Bits(bytes[..]) == old(Bits(bytes[..])) + {index}
                && listVersion == old(listVersion) + if index in old(Bits(bytes[..])) then 0 else 1
    {
      hide Bits;
      if index < 0 || index >= LENGTH {
        return None;
      }
      var already := GetBit(index);
      if already.value {
        assert Bits(bytes[..]) + {index} == Bits(bytes[..]);
        return Some(Revocation(listVersion, true));
      }
      SetBit(index);
      listVersion := listVersion + 1;
      return Some(Revocation(listVersion, false));
    }

    /** publishRevocation: by id, through the allocation record; an id without an index is refused. */
    method PublishRevocation(rec: Record, id: string) returns (r: Option<Revocation>)
      requires Valid()
      modifies this`listVersion, bytes
      ensures Valid()
      ensures r.Some? <==> id in rec && 0 <= rec[id] < 131_072
      ensures Bits(bytes[..]) == if r.Some? then old(Bits(bytes[..])) + {rec[id]} else old(Bits(bytes[..]))
    {
      if id !in rec {
        return None;
      }
      r := RevokeStatusIndex(rec[id]);
    }
  }

  lemma {:induction false} OneBitMore(before: seq<Byte>, after: seq<Byte>, index: int)
    requires |before| == BYTES && InRange(index)
    requires after == before[index / 8 := before[index / 8] | Mask(index % 8)]
    ensures Bits(after) == Bits(before) + {index}
  {
    hide Bits, BitIn, Mask;
    forall i ensures i in Bits(after) <==> i in Bits(before) + {index} {
      BitsAre(after, i);
      BitsAre(before, i);
      if InRange(i) && i / 8 == index / 8 {
        SetOneBit(before[i / 8], index % 8, i % 8);
      }
    }
  }

  // ---------- revoking by id ----------

  function IndicesOf(rec: Record, revoked: set<string>): set<int> {
    set id | id in revoked && id in rec :: rec[id]
  }

  /** The list agrees with the record: an id is revoked on the list exactly when it was revoked. */
  predicate Agrees(bits: set<int>, rec: Record, revoked: set<string>) {
    forall id | id in rec :: rec[id] in bits <==> id in revoked
  }

  /** With a proper record, revoking one id sets exactly its own status: nobody else's changes. */
  lemma {:induction false} RevokeOne(bits: set<int>, rec: Record, revoked: set<string>, space: nat, id: string)
    requires Proper(rec, space) && Agrees(bits, rec, revoked) && id in rec
    ensures Agrees(bits + {rec[id]}, rec, revoked + {id})
  {
  }

  /** What the issuer does over time: allocators put new versions of the record, and ids are revoked. */
  datatype Event = NewRecord(rec: Record) | RevokeId(id: string)

  datatype Standing = Standing(rec: Record, bits: set<int>, revoked: set<string>)

  function After(events: seq<Event>): Standing {
    if events == [] then Standing(map[], {}, {})
    else
      var s := After(events[..|events| - 1]);
      match events[|events| - 1]
      case NewRecord(rec) => s.(rec := rec)
      case RevokeId(id) => if id in s.rec then Standing(s.rec, s.bits + {s.rec[id]}, s.revoked + {id}) else s
  }

  /** New versions of the record are proper and keep the entries of the one before. */
  ghost predicate RecordGrows(events: seq<Event>, space: nat) {
    forall i | 0 <= i < |events| && events[i].NewRecord? ::
      Proper(events[i].rec, space) && Extends(events[i].rec, After(events[..i]).rec)
  }

  /** After any sequence of allocations and revocations the set bits are exactly the indices of the revoked ids, and
      no id that was not revoked has its bit set. */
  lemma {:induction false} RevokeAll(events: seq<Event>, space: nat)
    requires RecordGrows(events, space)
    ensures var s := After(events); Proper(s.rec, space) && Agrees(s.bits, s.rec, s.revoked)
                                    && s.bits == IndicesOf(s.rec, s.revoked) && s.revoked <= s.rec.Keys
  {
    if events != [] {
      var n := |events| - 1;
      forall i | 0 <= i < n && events[..n][i].NewRecord?
        ensures Proper(events[..n][i].rec, space) && Extends(events[..n][i].rec, After(events[..n][..i]).rec)
      {
        assert events[..n][..i] == events[..i];
      }
      RevokeAll(events[..n], space);
      var s, t := After(events[..n]), After(events);
      if events[n].NewRecord? {
        GrownRecordAgrees(s.bits, s.rec, t.rec, s.revoked, space);
      } else if events[n].id in s.rec {
        RevokeOne(s.bits, s.rec, s.revoked, space, events[n].id);
        assert IndicesOf(s.rec, t.revoked) == IndicesOf(s.rec, s.revoked) + {s.rec[events[n].id]};
      }
    }
  }

  lemma {:induction false} GrownRecordAgrees(
      bits: set<int>, rec: Record, later: Record, revoked: set<string>, space: nat)
    requires Agrees(bits, rec, revoked) && bits == IndicesOf(rec, revoked) && revoked <= rec.Keys
    requires Proper(later, space) && Extends(later, rec)
    ensures Agrees(bits, later, revoked) && bits == IndicesOf(later, revoked) && revoked <= later.Keys
  {
    forall id | id in later ensures later[id] in bits <==> id in revoked {
      if later[id] in bits {
        var own :| own in revoked && own in rec && rec[own] == later[id];
        assert later[own] == later[id];
      }
    }
    forall i ensures i in bits <==> i in IndicesOf(later, revoked) {
      if i in IndicesOf(later, revoked) {
        var id :| id in revoked && id in later && later[id] == i;
        assert id in rec && rec[id] == i;
      }
      if i in bits {
        var id :| id in revoked && id in rec && rec[id] == i;
        assert later[id] == i;
      }
    }
  }

  /** Entries that are allocated later start out as not revoked, as long as the record only grows. */
  lemma {:induction false} NewEntriesAreLive(
      bits: set<int>, rec: Record, later: Record, revoked: set<string>, space: nat, id: string)
    requires Agrees(bits, rec, revoked) && bits == IndicesOf(rec, revoked)
    requires Proper(later, space) && Extends(later, rec) && id in later && id !in rec
    ensures later[id] !in bits
  {
  }

  // ---------- revocations that run concurrently ----------

  /** One revocation reads the list and later writes it back with its bit; nothing checks that it did not move.
      A version is known by its number, counted from 1. */
  datatype Phase = Asked | HasRead(bits: set<int>, version: nat) | Confirmed | Abandoned

  datatype Revoker = Revoker(index: int, phase: Phase)

  datatype History = History(versions: seq<set<int>>, revokers: seq<Revoker>)

  function Current(s: History): set<int>
    requires s.versions != []
  {
    s.versions[|s.versions| - 1]
  }

  function To(s: History, p: nat, phase: Phase): History
    requires p < |s.revokers|
  {
    s.(revokers := s.revokers[p := s.revokers[p].(phase := phase)])
  }

  ghost predicate Ask(s: History, t: History, index: int) {
    InRange(index) && t == s.(revokers := s.revokers + [Revoker(index, Asked)])
  }

  ghost predicate ReadList(s: History, t: History, p: nat) {
    && p < |s.revokers| && s.revokers[p].phase.Asked? && s.versions != []
    && t == To(s, p, if s.revokers[p].index in Current(s) then Confirmed else HasRead(Current(s), |s.versions|))
  }

  ghost predicate WriteList(s: History, t: History, p: nat) {
    && p < |s.revokers| && s.revokers[p].phase.HasRead?
    && t == To(s, p, Confirmed).(versions := s.versions + [s.revokers[p].phase.bits + {s.revokers[p].index}])
  }

  ghost predicate Abandon(s: History, t: History, p: nat) {
    p < |s.revokers| && !s.revokers[p].phase.Confirmed? && t == To(s, p, Abandoned)
  }

  ghost predicate RevokerStep(s: History, t: History, p: nat) {
    ReadList(s, t, p) || WriteList(s, t, p) || Abandon(s, t, p)
  }

  ghost predicate Next(s: History, t: History) {
    (exists index :: Ask(s, t, index)) || (exists p: nat :: RevokerStep(s, t, p))
  }

  const FRESH := History([{}], [])

  /** A run starts with the empty list that was created; other things may happen between its steps. */
  ghost predicate Run(trace: seq<History>) {
    && trace != [] && trace[0] == FRESH
    && forall i, j | 0 <= i && i + 1 == j < |trace| :: trace[j] == trace[i] || Next(trace[i], trace[j])
  }

  predicate PhaseSound(s: History, r: Revoker) {
    r.phase.HasRead? ==>
      1 <= r.phase.version <= |s.versions| && r.phase.bits == s.versions[r.phase.version - 1] && r.index !in r.phase.bits
  }

  ghost predicate Sound(s: History) {
    s.versions != [] && forall p: nat | p < |s.revokers| :: PhaseSound(s, s.revokers[p])
  }

  lemma {:induction false} SoundKept(s: History, t: History)
    requires Next(s, t) && Sound(s)
    ensures Sound(t) && s.versions <= t.versions
  {
    forall p: nat | p < |t.revokers| ensures PhaseSound(t, t.revokers[p]) {
      assert p < |s.revokers| ==> PhaseSound(s, s.revokers[p]);
    }
  }

  lemma {:induction false} SoundAlways(trace: seq<History>, i: nat)
    requires Run(trace) && i < |trace|
    ensures Sound(trace[i])
  {
    hide Next, Sound;
    if i > 0 {
      SoundAlways(trace, i - 1);
      assert trace[i] == trace[i - 1] || Next(trace[i - 1], trace[i]);
      if Next(trace[i - 1], trace[i]) { SoundKept(trace[i - 1], trace[i]); }
    } else {
      FreshIsSound();
    }
  }

  lemma {:induction false} FreshIsSound()
    ensures Sound(FRESH) && Durable(FRESH)
  {
  }

  // ---------- while every write lands on the list that was read ----------

  /** Nobody wrote since p read, if p is about to write. */
  predicate OnCurrent(s: History, p: nat) {
    p < |s.revokers| && s.revokers[p].phase.HasRead? ==> s.revokers[p].phase.version == |s.versions|
  }

  ghost predicate WritesOnCurrent(s: History, t: History) {
    forall p: nat | WriteList(s, t, p) :: OnCurrent(s, p)
  }

  /** Each version keeps the bits of the ones before, and what was confirmed as revoked is revoked. */
  ghost predicate Durable(s: History) {
    && s.versions != [] && (forall v, w | 0 <= v <= w < |s.versions| :: s.versions[v] <= s.versions[w])
    && forall p: nat | p < |s.revokers| && s.revokers[p].phase.Confirmed? :: s.revokers[p].index in Current(s)
  }

  lemma {:induction false} DurableKept(s: History, t: History)
    requires Next(s, t) && WritesOnCurrent(s, t) && Sound(s) && Durable(s)
    ensures Durable(t) && Current(s) <= Current(t)
  {
    if p: nat :| WriteList(s, t, p) {
      assert OnCurrent(s, p) && PhaseSound(s, s.revokers[p]);
      assert Current(t) == Current(s) + {s.revokers[p].index};
    }
  }

  /** In every run whose writes land on the list that was read, no bit is ever lost. */
  lemma {:induction false} BitsStay(trace: seq<History>, i: nat, j: nat)
    requires Run(trace) && i <= j < |trace|
    requires forall k, l | 0 <= k && k + 1 == l <= j :: WritesOnCurrent(trace[k], trace[l])
    ensures Durable(trace[j]) && trace[i].versions != [] && Current(trace[i]) <= Current(trace[j])
  {
    hide Next, Sound, Durable, WritesOnCurrent;
    SoundAlways(trace, i);
    assert trace[i].versions != [] by { SoundHasVersions(trace[i]); }
    if j > 0 {
      BitsStay(trace, if i < j then i else i - 1, j - 1);
      SoundAlways(trace, j - 1);
      assert trace[j] == trace[j - 1] || Next(trace[j - 1], trace[j]);
      assert WritesOnCurrent(trace[j - 1], trace[j]);
      if Next(trace[j - 1], trace[j]) { DurableKept(trace[j - 1], trace[j]); }
    } else {
      FreshIsSound();
    }
  }

  lemma {:induction false} SoundHasVersions(s: History)
    requires Sound(s)
    ensures s.versions != []
  {
  }

  // ---------- when a write lands on a list that moved ----------

  /** As long as no bit was lost so far, a write loses none exactly when no version since its read set another bit
      than its own. */
  lemma {:induction false} WriteKeepsRevocations(trace: seq<History>, i: nat, t: History, p: nat)
    requires Run(trace) && i < |trace| && WriteList(trace[i], t, p) && Durable(trace[i])
    ensures var s := trace[i]; var r := s.revokers[p];
            Current(s) <= Current(t) <==>
              forall v | r.phase.version <= v < |s.versions| :: s.versions[v] <= r.phase.bits + {r.index}
  {
    SoundAlways(trace, i);
    var s := trace[i];
    var r := s.revokers[p];
    assert PhaseSound(s, r);
    var n := |s.versions|;
    assert Current(t) == s.versions[r.phase.version - 1] + {r.index};
    if r.phase.version == n {
      assert Current(s) == s.versions[r.phase.version - 1];
    } else {
      assert Current(s) == s.versions[n - 1];
      forall v | r.phase.version <= v < n ensures s.versions[v] <= s.versions[n - 1] {}
    }
  }

  lemma {:induction false} Append(trace: seq<History>, t: History)
    requires Run(trace) && Next(trace[|trace| - 1], t)
    ensures Run(trace + [t])
  {
    hide Next;
    var longer := trace + [t];
    forall i, j | 0 <= i && i + 1 == j < |longer| ensures longer[j] == longer[i] || Next(longer[i], longer[j]) {
      if j < |trace| { assert trace[j] == trace[i] || Next(trace[i], trace[j]); }
    }
  }

  /** Two revocations from the creation of the list on, of any two indices: both are confirmed, and the list in the
      end says that the first of them is not revoked. The states after the first and after the second write. */
  lemma {:induction false} OverlapUndoesRevocation(a: int, b: int) returns (trace: seq<History>)
    requires InRange(a) && InRange(b) && a != b
    ensures Run(trace) && |trace| == 7
    ensures trace[5].versions == [{}, {a}] && trace[6].versions == [{}, {a}, {b}]
    ensures trace[6].revokers == [Revoker(a, Confirmed), Revoker(b, Confirmed)]
  {
    hide Run;
    assert Run([FRESH]) by { FreshRun(); }
    var s1 := FRESH.(revokers := [Revoker(a, Asked)]);
    var s2 := s1.(revokers := [Revoker(a, Asked), Revoker(b, Asked)]);
    var s3 := s2.(revokers := [Revoker(a, HasRead({}, 1)), Revoker(b, Asked)]);
    var s4 := s3.(revokers := [Revoker(a, HasRead({}, 1)), Revoker(b, HasRead({}, 1))]);
    var s5 := History([{}, {a}], [Revoker(a, Confirmed), Revoker(b, HasRead({}, 1))]);
    var s6 := History([{}, {a}, {b}], [Revoker(a, Confirmed), Revoker(b, Confirmed)]);
    assert Ask(FRESH, s1, a) && Ask(s1, s2, b);
    assert ReadList(s2, s3, 0) && ReadList(s3, s4, 1);
    var none: set<int> := {};
    assert none + {a} == {a} && none + {b} == {b};
    assert WriteList(s4, s5, 0) by { assert s5.versions == s4.versions + [none + {a}]; }
    assert WriteList(s5, s6, 1) by { assert s6.versions == s5.versions + [none + {b}]; }
    assert RevokerStep(s2, s3, 0) && RevokerStep(s3, s4, 1) && RevokerStep(s4, s5, 0) && RevokerStep(s5, s6, 1);
    Append([FRESH], s1);
    Append([FRESH] + [s1], s2);
    Append([FRESH] + [s1] + [s2], s3);
    Append([FRESH] + [s1] + [s2] + [s3], s4);
    Append([FRESH] + [s1] + [s2] + [s3] + [s4], s5);
    Append([FRESH] + [s1] + [s2] + [s3] + [s4] + [s5], s6);
    trace := [FRESH] + [s1] + [s2] + [s3] + [s4] + [s5] + [s6];
  }

  lemma {:induction false} FreshRun()
    ensures Run([FRESH])
  {
  }
}
