/** Named documents of a knowledge base: put-doc replaces, get-doc reads the current value, in a vault that also
    holds contributions that are never replaced. */
module KbDocs {
  import opened Wrappers
  import opened Text

  /** A contribution has no key. A document sealed to a member's key cannot be opened by the Warden. */
  datatype Artefact = Artefact(
    id: string, partition: string, contributor: Did, docKey: Option<string>, kind: string, text: string,
    memberSealed: bool)

  /** Where a named document lives. */
  datatype Key = Key(partition: string, contributor: Did, docKey: string)

  predicate Has(a: Artefact, k: Key) {
    a.partition == k.partition && a.contributor == k.contributor && a.docKey == Some(k.docKey)
  }

  ghost predicate OnePerKey(vault: seq<Artefact>) {
    forall i, j, k | 0 <= i < j < |vault| && Has(vault[i], k) :: !Has(vault[j], k)
  }

  predicate DistinctIds(vault: seq<Artefact>) {
    forall i, j | 0 <= i < j < |vault| :: vault[i].id != vault[j].id
  }

  /** The current document under a key: the first one found. */
  function Find(vault: seq<Artefact>, k: Key): Option<Artefact> {
    if vault == [] then None
    else if Has(vault[0], k) then Some(vault[0])
    else Find(vault[1..], k)
  }

  function Without(vault: seq<Artefact>, ids: set<string>): seq<Artefact> {
    if vault == [] then []
    else if vault[0].id in ids then Without(vault[1..], ids)
    else [vault[0]] + Without(vault[1..], ids)
  }

  function IdsUnder(vault: seq<Artefact>, k: Key): set<string> {
    set a | a in vault && Has(a, k) :: a.id
  }

  // ---------- the vault as a map ----------

  lemma {:induction false} WithoutAre(vault: seq<Artefact>, ids: set<string>, a: Artefact)
    ensures a in Without(vault, ids) <==> a in vault && a.id !in ids
  {
    if vault != [] {
      WithoutAre(vault[1..], ids, a);
      assert vault == [vault[0]] + vault[1..];
    }
  }

  lemma {:induction false} FindIs(vault: seq<Artefact>, k: Key)
    ensures Find(vault, k).Some? <==> exists a :: a in vault && Has(a, k)
    ensures Find(vault, k).Some? ==> Find(vault, k).value in vault && Has(Find(vault, k).value, k)
  {
    if vault != [] {
      FindIs(vault[1..], k);
      assert vault == [vault[0]] + vault[1..];
    }
  }

  lemma {:induction false} FindOnly(vault: seq<Artefact>, k: Key, a: Artefact)
    requires OnePerKey(vault) && a in vault && Has(a, k)
    ensures Find(vault, k) == Some(a)
  {
    assert vault == [vault[0]] + vault[1..];
    var n :| 0 <= n < |vault| && vault[n] == a;
    if Has(vault[0], k) {
      assert n == 0;
    } else {
      assert OnePerKey(vault[1..]) by {
        forall i, j, l | 0 <= i < j < |vault[1..]| && Has(vault[1..][i], l) ensures !Has(vault[1..][j], l) {
          assert Has(vault[i + 1], l);
        }
      }
      FindOnly(vault[1..], k, a);
    }
  }

  lemma {:induction false} WithoutKeeps(vault: seq<Artefact>, ids: set<string>)
    requires OnePerKey(vault) && DistinctIds(vault)
    ensures OnePerKey(Without(vault, ids)) && DistinctIds(Without(vault, ids))
  {
    if vault != [] {
      var rest := vault[1..];
      assert OnePerKey(rest) by {
        forall i, j, l | 0 <= i < j < |rest| && Has(rest[i], l) ensures !Has(rest[j], l) {
          assert Has(vault[i + 1], l);
        }
      }
      WithoutKeeps(rest, ids);
      var w := Without(rest, ids);
      if vault[0].id !in ids {
        var kept := [vault[0]] + w;
        forall j | 0 < j < |kept| ensures kept[j].id != vault[0].id && forall l :: Has(vault[0], l) ==> !Has(kept[j], l) {
          WithoutAre(rest, ids, w[j - 1]);
          var m :| 0 <= m < |rest| && rest[m] == w[j - 1];
          assert vault[m + 1] == kept[j];
        }
        forall i, j, l | 0 <= i < j < |kept| && Has(kept[i], l) ensures !Has(kept[j], l) {
          if i > 0 { assert Has(w[i - 1], l); }
        }
      }
    }
  }

  /** The vault after a document is put: what was under its key is gone, everything else stays, the new one is last. */
  function Put(vault: seq<Artefact>, k: Key, a: Artefact): seq<Artefact> {
    Without(Without(vault, IdsUnder(vault, k)), {a.id}) + [a]
  }

  lemma {:induction false} PutKeeps(vault: seq<Artefact>, k: Key, a: Artefact)
    requires OnePerKey(vault) && DistinctIds(vault) && Has(a, k) && (forall b | b in vault :: b.id != a.id)
    ensures OnePerKey(Put(vault, k, a)) && DistinctIds(Put(vault, k, a))
    ensures forall b :: b in Put(vault, k, a) <==> b == a || (b in vault && !Has(b, k))
  {
    var ids := IdsUnder(vault, k);
    var kept := Without(Without(vault, ids), {a.id});
    WithoutKeeps(vault, ids);
    WithoutKeeps(Without(vault, ids), {a.id});
    forall b ensures b in kept <==> b in vault && !Has(b, k) {
      WithoutAre(vault, ids, b);
      WithoutAre(Without(vault, ids), {a.id}, b);
      if b in vault && b.id in ids {
        var c :| c in vault && Has(c, k) && c.id == b.id;
        SameId(vault, b, c);
      }
    }
    OneMore(kept, k, a);
  }

  lemma {:induction false} SameId(vault: seq<Artefact>, b: Artefact, c: Artefact)
    requires DistinctIds(vault) && b in vault && c in vault && b.id == c.id
    ensures b == c
  {
    var i :| 0 <= i < |vault| && vault[i] == b;
    var j :| 0 <= j < |vault| && vault[j] == c;
  }

  lemma {:induction false} OneMore(kept: seq<Artefact>, k: Key, a: Artefact)
    requires OnePerKey(kept) && DistinctIds(kept) && Has(a, k)
    requires forall b | b in kept :: b.id != a.id && !Has(b, k)
    ensures OnePerKey(kept + [a]) && DistinctIds(kept + [a])
  {
    var v := kept + [a];
    forall i, j, l | 0 <= i < j < |v| && Has(v[i], l) ensures !Has(v[j], l) {
      if j == |kept| {
        assert v[i] == kept[i] && kept[i] in kept;
      } else {
        assert Has(kept[i], l) && v[j] == kept[j];
      }
    }
    forall i, j | 0 <= i < j < |v| ensures v[i].id != v[j].id {
      if j == |kept| { assert kept[i] in kept; }
    }
  }

  /** put-doc refines the update of a map: under its key the new text, under every other key what was there. */
  lemma {:induction false} PutIsUpdate(vault: seq<Artefact>, k: Key, a: Artefact, other: Key)
    requires OnePerKey(vault) && DistinctIds(vault) && Has(a, k) && (forall b | b in vault :: b.id != a.id)
    ensures Find(Put(vault, k, a), other) == if other == k then Some(a) else Find(vault, other)
  {
    PutKeeps(vault, k, a);
    var after := Put(vault, k, a);
    FindIs(vault, other);
    FindIs(after, other);
    if other == k {
      FindOnly(after, k, a);
    } else if Find(vault, other).Some? {
      FindOnly(after, other, Find(vault, other).value);
    }
  }

  // ---------- any sequence of operations ----------

  /** Documents are put, contributions without a key are added, and reads change nothing. */
  datatype Op = PutOp(key: Key, doc: Artefact) | ContributeOp(entry: Artefact) | GetOp

  function Step(vault: seq<Artefact>, op: Op): seq<Artefact> {
    match op
    case PutOp(key, doc) => Put(vault, key, doc)
    case ContributeOp(entry) => vault + [entry]
    case GetOp => vault
  }

  function After(ops: seq<Op>): seq<Artefact> {
    if ops == [] then [] else Step(After(ops[..|ops| - 1]), ops[|ops| - 1])
  }

  /** The document that was put last under a key. */
  function Latest(ops: seq<Op>, k: Key): Option<Artefact> {
    if ops == [] then None
    else
      var op := ops[|ops| - 1];
      if op.PutOp? && op.key == k then Some(op.doc) else Latest(ops[..|ops| - 1], k)
  }

  /** Documents are stored under their keys, contributions under none, and ids are fresh: they are hashes of fresh
      ciphertexts. */
  predicate Proper(ops: seq<Op>) {
    forall i | 0 <= i < |ops| ::
      && (ops[i].PutOp? ==> Has(ops[i].doc, ops[i].key) && FreshId(After(ops[..i]), ops[i].doc.id))
      && (ops[i].ContributeOp? ==> ops[i].entry.docKey.None? && FreshId(After(ops[..i]), ops[i].entry.id))
  }

  predicate FreshId(vault: seq<Artefact>, id: string) {
    forall b | b in vault :: b.id != id
  }

  lemma {:induction false} ContributionKeeps(vault: seq<Artefact>, a: Artefact, k: Key)
    requires OnePerKey(vault) && DistinctIds(vault) && a.docKey.None? && FreshId(vault, a.id)
    ensures OnePerKey(vault + [a]) && DistinctIds(vault + [a]) && Find(vault + [a], k) == Find(vault, k)
  {
    var longer := vault + [a];
    forall i, j, l | 0 <= i < j < |longer| && Has(longer[i], l) ensures !Has(longer[j], l) {
      if j < |vault| { assert Has(vault[i], l); }
    }
    FindIs(vault, k);
    FindIs(longer, k);
    if Find(vault, k).Some? { FindOnly(longer, k, Find(vault, k).value); }
  }

  /** After any sequence of operations what is found under a key is the document put there last, there is at most one
      per key, and every contribution is still there. */
  lemma {:induction false} LatestIsFound(ops: seq<Op>, k: Key)
    requires Proper(ops)
    ensures OnePerKey(After(ops)) && DistinctIds(After(ops)) && Find(After(ops), k) == Latest(ops, k)
    ensures forall i | 0 <= i < |ops| && ops[i].ContributeOp? :: ops[i].entry in After(ops)
  {
    hide Put, OnePerKey, DistinctIds, Find;
    if ops == [] {
      NothingThere(k);
    } else {
      var n := |ops| - 1;
      var before, op := After(ops[..n]), ops[n];
      forall i | 0 <= i < n ensures ops[..n][..i] == ops[..i] {}
      LatestIsFound(ops[..n], k);
      forall i | 0 <= i < n && ops[i].ContributeOp? ensures ops[i].entry in before { assert ops[..n][i] == ops[i]; }
      match op
      case PutOp(key, doc) =>
        PutKeeps(before, key, doc);
        PutIsUpdate(before, key, doc, k);
      case ContributeOp(entry) =>
        ContributionKeeps(before, entry, k);
      case GetOp =>
    }
  }

  lemma {:induction false} NothingThere(k: Key)
    ensures OnePerKey([]) && DistinctIds([]) && Find([], k) == None
  {
  }

  // ---------- the service ----------

  datatype Partition = Partition(id: string, memberKey: bool)

  datatype Scope = Shared | Private

  datatype PutResult = PutError | PutDone(id: string, superseded: nat)

  datatype GetResult = GetError | GetNull | GetText(text: string, kind: string, scope: Scope)

  function Opened(a: Artefact, scope: Scope): GetResult {
    if a.memberSealed then GetError else GetText(a.text, a.kind, scope)
  }

  /** The read of a named document: the shared copy of its owner first, then the caller's own private one. */
  function Lookup(
      vault: seq<Artefact>, kbId: string, sharedRead: bool, own: Option<Partition>, did: Did, docKey: string,
                  owner: Did): GetResult {
    var published := if sharedRead then Find(vault, Key(kbId, owner, docKey)) else None;
    var mine := if own.Some? && owner == did then Find(vault, Key(own.value.id, did, docKey)) else None;
    if !sharedRead && own.None? then GetError
    else if published.Some? then Opened(published.value, Shared)
    else if mine.None? then GetNull
    else Opened(mine.value, Private)
  }

  class KbService {
    const kbId: string
    var vault: seq<Artefact>
    var readers: set<Did>
    var writers: set<Did>
    var partitions: map<Did, Partition>

    /** Private partitions are not the shared one. */
    ghost predicate Valid()
      reads this
    {
      OnePerKey(vault) && DistinctIds(vault) && forall d | d in partitions :: partitions[d].id != kbId
    }

    constructor (id: string)
      ensures Valid() && kbId == id && vault == [] && partitions == map[]
    {
      kbId := id;
      vault, readers, writers, partitions := [], {}, {}, map[];
    }

    function Own(did: Did): Option<Partition>
      reads this
    {
      if did in partitions then Some(partitions[did]) else None
    }

    method SupersedeDoc(k: Key) returns (removed: nat)
      requires Valid()
      modifies this`vault
      ensures Valid() && vault == Without(old(vault), IdsUnder(old(vault), k))
      ensures removed == if Find(old(vault), k).Some? then 1 else 0
    {
      var priors := IdsUnder(vault, k);
      WithoutKeeps(vault, priors);
      PriorsCount(vault, k);
      removed := |priors|;
      if removed == 0 {
        WithoutNone(vault);
        return;
      }
      vault := Without(vault, priors);
    }

    /** put-doc. The id is the hash of a fresh ciphertext: no artefact has it. */
    method PutDoc(did: Did, docKey: string, kind: string, text: string, scope: Scope, cleared: bool, id: string)
      returns (r: PutResult)
      requires Valid() && forall b | b in vault :: b.id != id
      modifies this`vault
      ensures Valid()
      ensures r.PutError? <==>
        docKey == "" || kind == "" || text == "" || !cleared || (if scope == Private then did !in partitions else did !in writers)
      ensures r.PutError? ==> vault == old(vault)
      ensures r.PutDone? ==>
                var k := Key(if scope == Private then partitions[did].id else kbId, did, docKey);
                vault == Put(old(vault), k, Artefact(id, k.partition, did, Some(docKey), kind, text,
                                                     scope == Private && partitions[did].memberKey))
                && r == PutDone(id, if Find(old(vault), k).Some? then 1 else 0)
      ensures r.PutDone? ==>
                var p := if scope == Private then partitions[did].id else kbId;
                var sealed := scope == Private && partitions[did].memberKey;
                forall b :: b in vault <==>
                  b == Artefact(id, p, did, Some(docKey), kind, text, sealed)
                  || (b in old(vault) && !(b.partition == p && b.contributor == did && b.docKey == Some(docKey)))
    {
      if docKey == "" {
        return PutError;
      }
      if kind == "" || text == "" {
        return PutError;
      }
      var own := Own(did);
      if scope == Private && own.None? {
        return PutError;
      }
      if scope == Shared && did !in writers {
        return PutError;
      }
      if !cleared {
        return PutError;
      }
      ghost var before := vault;
      var k := Key(if scope == Private then own.value.id else kbId, did, docKey);
      var superseded := SupersedeDoc(k);
      var a := Artefact(id, k.partition, did, Some(docKey), kind, text, scope == Private && own.value.memberKey);
      vault := Without(vault, {id}) + [a];
      PutKeeps(before, k, a);
      return PutDone(id, superseded);
    }

    method GetDoc(did: Did, docKey: string, targetOwner: Option<Did>) returns (r: GetResult)
      requires Valid()
      ensures r == if docKey == "" then GetError
                   else Lookup(vault, kbId, did in readers, if did in partitions then Some(partitions[did]) else None,
                               did, docKey, targetOwner.GetOr(did))
    {
      if docKey == "" {
        return GetError;
      }
      var owner, own, sharedRead := targetOwner.GetOr(did), Own(did), did in readers;
      if !sharedRead && own.None? {
        return GetError;
      }
      var artefact: Option<Artefact> := None;
      var scope := Shared;
      if sharedRead {
        artefact := Find(vault, Key(kbId, owner, docKey));
      }
      if artefact.None? && own.Some? && owner == did {
        artefact := Find(vault, Key(own.value.id, did, docKey));
        scope := Private;
      }
      if artefact.None? {
        return GetNull;
      }
      if artefact.value.memberSealed {
        return GetError;
      }
      return GetText(artefact.value.text, artefact.value.kind, scope);
    }
  }

  lemma {:induction false} WithoutNone(vault: seq<Artefact>)
    ensures Without(vault, {}) == vault
  {
    if vault != [] {
      WithoutNone(vault[1..]);
    }
  }

  lemma {:induction false} PriorsCount(vault: seq<Artefact>, k: Key)
    requires OnePerKey(vault)
    ensures |IdsUnder(vault, k)| == if Find(vault, k).Some? then 1 else 0
    ensures Find(vault, k).None? ==> IdsUnder(vault, k) == {}
  {
    FindIs(vault, k);
    if Find(vault, k).Some? {
      var a := Find(vault, k).value;
      forall b | b in vault && Has(b, k) ensures b == a { FindOnly(vault, k, b); }
      assert IdsUnder(vault, k) == {a.id};
    }
  }

  /** The document that a member has in a partition under a key. */
  predicate Holds(vault: seq<Artefact>, partition: string, owner: Did, docKey: string, a: Artefact) {
    a in vault && a.partition == partition && a.contributor == owner && a.docKey == Some(docKey)
  }

  lemma {:induction false} WithoutPlace(vault: seq<Artefact>, ids: set<string>, i: nat) returns (p: nat)
    requires i < |vault| && vault[i].id !in ids
    ensures p < |Without(vault, ids)| && Without(vault, ids)[p] == vault[i]
  {
    if vault[0].id in ids {
      p := WithoutPlace(vault[1..], ids, i - 1);
    } else if i == 0 {
      p := 0;
    } else {
      p := WithoutPlace(vault[1..], ids, i - 1);
      p := p + 1;
    }
  }

  lemma {:induction false} WithoutKeepsOrder(vault: seq<Artefact>, ids: set<string>, i: nat, j: nat)
    returns (p: nat, q: nat)
    requires i < j < |vault| && vault[i].id !in ids && vault[j].id !in ids
    ensures p < q < |Without(vault, ids)|
    ensures Without(vault, ids)[p] == vault[i] && Without(vault, ids)[q] == vault[j]
  {
    if i > 0 {
      p, q := WithoutKeepsOrder(vault[1..], ids, i - 1, j - 1);
      if vault[0].id !in ids { p, q := p + 1, q + 1; }
    } else {
      p := 0;
      q := WithoutPlace(vault[1..], ids, j - 1);
      q := q + 1;
    }
  }

  /** What is put comes last, and whatever it does not replace keeps its order. */
  lemma {:induction false} PutComesLast(vault: seq<Artefact>, k: Key, a: Artefact, i: nat, j: nat)
    returns (p: nat, q: nat)
    requires DistinctIds(vault) && (forall b | b in vault :: b.id != a.id)
    requires i < j < |vault| && !Has(vault[i], k) && !Has(vault[j], k)
    ensures var after := Put(vault, k, a);
            after[|after| - 1] == a && p < q < |after| - 1 && after[p] == vault[i] && after[q] == vault[j]
  {
    var some := Without(vault, IdsUnder(vault, k));
    p, q := WithoutKeepsOrder(vault, IdsUnder(vault, k), i, j);
    assert vault[i] in vault && vault[j] in vault;
    p, q := WithoutKeepsOrder(some, {a.id}, p, q);
  }

  lemma {:induction false} FindIffHolds(vault: seq<Artefact>, partition: string, owner: Did, docKey: string, a: Artefact)
    requires OnePerKey(vault)
    ensures Find(vault, Key(partition, owner, docKey)) == Some(a) <==> Holds(vault, partition, owner, docKey, a)
  {
    var k := Key(partition, owner, docKey);
    FindIs(vault, k);
    if Holds(vault, partition, owner, docKey, a) { FindOnly(vault, k, a); }
  }

  /** What a read returns, for the owner and for anybody else: the shared document of the owner to whoever may read the
      shared partition; otherwise, to the owner alone, the one in its own private partition; nothing if neither is
      there. An error is the answer to somebody without any partition to read, and for a document that is sealed. */
  lemma {:induction false} ReadIs(
      vault: seq<Artefact>, kbId: string, sharedRead: bool, own: Option<Partition>, did: Did, docKey: string, owner: Did,
      a: Artefact)
    requires OnePerKey(vault)
    ensures var r := Lookup(vault, kbId, sharedRead, own, did, docKey, owner);
            && (!sharedRead && own.None? ==> r == GetError)
            && (sharedRead && Holds(vault, kbId, owner, docKey, a) ==>
                  r == if a.memberSealed then GetError else GetText(a.text, a.kind, Shared))
            && (own.Some? && owner == did && Holds(vault, own.value.id, did, docKey, a)
                && (!sharedRead || forall b :: !Holds(vault, kbId, owner, docKey, b)) ==>
                  r == if a.memberSealed then GetError else GetText(a.text, a.kind, Private))
            && ((sharedRead || own.Some?) && (!sharedRead || forall b :: !Holds(vault, kbId, owner, docKey, b))
                && (own.None? || owner != did || forall b :: !Holds(vault, own.value.id, did, docKey, b)) ==>
                  r == GetNull)
  {
    hide Find;
    FindIs(vault, Key(kbId, owner, docKey));
    FindIffHolds(vault, kbId, owner, docKey, a);
    if own.Some? {
      FindIs(vault, Key(own.value.id, did, docKey));
      FindIffHolds(vault, own.value.id, did, docKey, a);
    }
    if sharedRead && Find(vault, Key(kbId, owner, docKey)).Some? {
      assert Holds(vault, kbId, owner, docKey, Find(vault, Key(kbId, owner, docKey)).value);
    }
    if own.Some? && Find(vault, Key(own.value.id, did, docKey)).Some? {
      assert Holds(vault, own.value.id, did, docKey, Find(vault, Key(own.value.id, did, docKey)).value);
    }
  }

  /** What another member reads of an owner is the owner's current shared document, and never a private one. */
  lemma {:induction false} OthersReadSharedOnly(
      vault: seq<Artefact>, kbId: string, sharedRead: bool, own: Option<Partition>, did: Did,
                             docKey: string, owner: Did)
    requires OnePerKey(vault) && did != owner
    requires Lookup(vault, kbId, sharedRead, own, did, docKey, owner).GetText?
    ensures sharedRead && Lookup(vault, kbId, sharedRead, own, did, docKey, owner).scope == Shared
    ensures exists a | a in vault :: a.partition == kbId && a.contributor == owner && a.docKey == Some(docKey)
                                     && a.text == Lookup(vault, kbId, sharedRead, own, did, docKey, owner).text
                                     && a.kind == Lookup(vault, kbId, sharedRead, own, did, docKey, owner).kind
  {
    FindIs(vault, Key(kbId, owner, docKey));
  }

  /** A put that a reader may see is read back by anyone with shared read; until then nothing private shows. */
  lemma {:induction false} PutThenGet(
      vault: seq<Artefact>, kbId: string, own: Option<Partition>, reader: Did, owner: Did, docKey: string,
                   partition: string, a: Artefact)
    requires OnePerKey(vault) && DistinctIds(vault) && (forall b | b in vault :: b.id != a.id)
    requires a.partition == partition && a.contributor == owner && a.docKey == Some(docKey) && reader != owner
    ensures var before := Lookup(vault, kbId, true, own, reader, docKey, owner);
            var after := Lookup(Put(vault, Key(partition, owner, docKey), a), kbId, true, own, reader, docKey, owner);
            after == if partition != kbId then before else if a.memberSealed then GetError else GetText(a.text, a.kind, Shared)
  {
    PutIsUpdate(vault, Key(partition, owner, docKey), a, Key(kbId, owner, docKey));
  }
}
