# Hearthold: protocols and encoders, modelled and proved

This project models, in Dafny, the parts of Hearthold on which its promises about other people's data rest, and proves
what those parts guarantee for every input, every run and every interleaving.

- **Images** (`Gf2`, `Crc32`, `CrcTheory`, `Png`): the bitwise CRC-32 and the solid-colour PNG writer of the scripts.
- **Capability chains** (`Text`, `Timestamps`, `Capability`, `Attenuation`, `AttenuationTheory`, `Rejection`, `KillSwitch`,
  `Issuance`, `IssuanceTheory`, `Delegation`, `Confinement`): caveats and their narrowing, the chain verifier and its
  refusals, minting and delegating, and what an accepted chain means when anyone may write any document.
- **Invocation** (`Monitor`, `Admission`, `MonitorRuns`, `EndToEnd`, `RevocationRuns`, `Witnesses`): single-use challenges, spent
  transactions, consent bound to a digest, and concurrent invocations; then all of it together, from the root grant to
  the disclosure, with revocations under way.
- **Rulesets** (`Ruleset`): signed versions, the amendment rule, guardian reads and receipts.
- **Durable drain** (`Drain`, `DrainRuns`, `DrainLiveness`): the relay mailbox and the poll loop, with failures and crashes.
- **Status lists** (`Allocation`, `StatusList`): concurrent index allocation and revocation bits.
- **Mesh** (`Mesh`): the partition ladder, forwarding between nodes, and what the origin accepts.
- **Documents and enumeration** (`KbDocs`, `Subsets`): overwriting documents and the power set of a vocabulary.

Conventions. A signature is a fact that a signer signed a body. Hashes, commitments and content ids are injective
constructors. A document is an append-only sequence of versions, counted from 1. Confidences, ceilings and sensitivities
are reals. A clock reads timestamps in UTC as their instants; of other strings nothing is assumed. Lists of operations
and resources, which the source dedupes and sorts wherever it compares or hashes them, are sets. Whatever the network
supplies (ids, salts, clocks, the answer of a friend, the compression) is a parameter. Each `await` of the source that
matters is a point between two steps. Strings are compared by Unicode scalar values; this is the order of the source for
all timestamps and DIDs. Every lemma carries `{:induction false}`: each proof is the one written in its body.

## Main results

- A PNG written by the scripts is read back exactly within the limits of the format, and its CRC is the remainder of the
  message polynomial, so no burst of up to 32 bits goes unnoticed: `Png.FileRoundTrip`, `CrcTheory.CrcIsRemainder`,
  `CrcTheory.BurstDetected`.
- The chain verifier accepts exactly the sound chains, and a refusal names the first fault; guarded issuance builds exactly
  the accepted chains; a holder can delegate whatever restricts its grant; and whatever anyone else writes, an accepted chain
  stays within a root that the trusted party granted: `AttenuationTheory.AcceptIffSound`, `Rejection.RefusalNamesTheFault`,
  `IssuanceTheory.IssuanceAgrees`, `Delegation.DelegatedIsAccepted`, `Confinement.AcceptedIsConfined`.
- When narrower caveats admit less, exactly, and when strings of timestamps are in the order of time, exactly:
  `Capability.NarrowerAdmitsLess`, `AttenuationTheory.AcceptedAdmitsLess`, `Timestamps.LexIsChronological`.
- When an invocation is admitted, exactly; and in every interleaving a challenge admits once, consent is for exactly the act
  disclosed, and a disclosure is covered by a root grant in all its dimensions: `Admission.ResolvesIff`, `MonitorRuns.OnceAlways`,
  `MonitorRuns.ConsentedAlways`, `EndToEnd.DisclosedIsCovered`.
- A revocation that lands holds for good, and stops every later admission: `StatusList.BitsStay`,
  `KillSwitch.RevokedForGood`, `RevocationRuns.DisclosedWasLive`.
- The head of a ruleset is determined by its history, and when it is within what a member acknowledged:
  `Ruleset.HeadFixesHistory`, `Ruleset.NeverSeized`, `Ruleset.SeizedIff`.
- The drain loses nothing, has one handler for each message, and empties the relay in every fair run: `DrainRuns.SafeAlways`,
  `DrainRuns.HandledOnceAlways`, `DrainRuns.WaiterGetsReply`, `DrainLiveness.Drains`.
- Allocated indices are distinct and stay, in every interleaving whose writes land: `Allocation.ReturnedIndices`,
  `Allocation.ExhaustedIffFull`.
- A query attenuates along every path of a mesh, and an answer is bound to who gave it: `Mesh.PathAttenuates`,
  `Mesh.DepthAuthority`, `Mesh.AcceptedIsBound`.

## Where the code does something else than its documentation says

The models follow the code. Each item is a lemma with a condition that is necessary and sufficient, or a family of inputs;
each interleaving that breaks a guarantee is a run from the initial state.

- A list of kinds that is empty allows no kind, and is committed to as an absent list, which allows every kind
  (`Capability.NormalizeKeepsKinds`). A delegation with an empty list below a list that is not empty passes the issuer's
  guard and is refused by the verifier (`Capability.NormalizeKeepsNarrowing`, `IssuanceTheory.IssuanceAgrees`).
- Narrower caveats can admit more than the wider ones, in three ways and no other (`Capability.NarrowerAdmitsLess`): below
  a capability that names no owner any owner may be named; expiries are compared as strings and enforced as instants, so
  that an offset, a fraction of a second or an unreadable parent lets a delegate outlive its grant
  (`Capability.OffsetOutlives`, `Capability.FractionOutlives`, `Capability.UnreadableParentOutlived`); and a discharge is
  compared by a joined key, which is ambiguous for designators that contain the separator
  (`Capability.SharedKeyLosesDischarge`, `Text.PlainIffUnambiguous`).
- A transaction is granted at most once when decisions do not overlap (`MonitorRuns.GrantedOnce`). The check and the mark
  are separate reads and writes of one file, so overlapping decisions can grant twice, and overlapping marks can lose one
  for good (`MonitorRuns.OverlapGrantsBoth`, `MonitorRuns.LostMarkReplays`, `Witnesses.OneTransactionTwice`).
- Revocation is looked at when an invocation is admitted and not again: one that waits for the consent of a human is granted
  though its chain has been revoked (`RevocationRuns.RevokedAfterAdmission`). Of two revocations that overlap one is
  confirmed and lost (`StatusList.OverlapUndoesRevocation`, `KillSwitch.LostRevocation`).
- Evidence above the ceiling answers like no evidence only while the transaction is unspent and the capability alive
  (`Monitor.CeilingIsHidden`); a refused guardian read answers like nothing only with an open edge
  (`Ruleset.RefusalIsUniform`).
- The amendment rule lets some transitions widen without an acknowledgment: reactivating a revoked version, dropping the
  kinds, verbs or ceiling, an empty expiry, a change of the actor (`Ruleset.UnacknowledgedStep`,
  `Ruleset.UnacknowledgedWidenings`); a revocation that is taken back can carry anything (`Ruleset.TwoStepsSeizeAnything`).
  A version appended with the number of an earlier one takes the head back to that one, whatever it contains
  (`Ruleset.Appended`).
- A message whose acknowledgment lands while a poll is on its way is dispatched again, without any failure
  (`DrainRuns.StaleAnswerRedispatches`, `DrainRuns.HandledTwice`).
- The version check of the allocator is not part of its write; two allocators can return one index
  (`Allocation.OverlapCollides`). A record that is shared with a larger space reports exhaustion early
  (`Allocation.CountMeansTaken`, `Allocation.SharedRecordExhaustsEarly`).
- The cycle guard of the mesh does not look at the forwarding node itself (`Mesh.PathRepeatsOnlySelf`,
  `Mesh.SelfFriendRepeats`), and an answer that passed more than one relay is never accepted (`Mesh.AcceptsOneRelay`).
- The PNG writer accepts dimensions that the format does not, zero among them (`Png.FileRoundTrip`).

## Model

| member | source | states |
|---|---|---|
| `Crc32.ComputeCrc` | scripts/e2e-image-witness.ts:58-62 | the nested loop returns, for every buffer, the complement of the register into which all bits are fed from all ones, least significant bit of each byte first |
| `Crc32.PolyWord` | scripts/e2e-image-witness.ts:60 | the constant 0xedb88320 is the standard generator without its leading term, bit j standing for x^(31-j) |
| `Crc32.StepIsShift` | scripts/e2e-image-witness.ts:60 | one turn on the machine word is one turn of the shift register over GF(2) |
| `Crc32.ByteAtOnce` | scripts/e2e-image-witness.ts:60 | xoring a byte in and turning eight times feeds its eight bits one by one |
| `Crc32.RunFeeds` | scripts/e2e-image-witness.ts:58-62 | the loop over a buffer feeds the bits of the buffer, from any register |
| `Gf2.RemainderUnique` | scripts/e2e-image-witness.ts:58-62 | division of polynomials over GF(2) has one remainder, the notion the CRC is stated in |
| `CrcTheory.CrcIsRemainder` | scripts/e2e-image-witness.ts:58-62 | a polynomial is the remainder of the message polynomial with preset modulo the generator if and only if it is the complement of the CRC (section 3.4 of RFC 2083) |
| `CrcTheory.CrcIsAffine` | scripts/e2e-image-witness.ts:58-62 | the CRC of the xor of three equally long buffers is the xor of their CRCs |
| `CrcTheory.StepIsBijection` | scripts/e2e-image-witness.ts:60 | each turn of the register has an inverse on both sides |
| `CrcTheory.BurstDetected` | scripts/e2e-image-witness.ts:58-62 | equally long buffers that differ, but only inside 32 consecutive bits, have different CRCs |
| `Png.WriteUInt32BE` | scripts/e2e-image-witness.ts:65-66 | four big-endian bytes are written for an unsigned 32-bit value, nothing else changes; any other value is refused |
| `Png.PngChunk` | scripts/e2e-image-witness.ts:63-68 | length, type, data and CRC of type and data; refused exactly when the length does not fit in 32 bits |
| `Png.SolidRow` | scripts/e2e-image-witness.ts:74 | a row buffer is filter byte 0 and w pixels of the colour, each component modulo 256 |
| `Png.SolidPng` | scripts/e2e-image-witness.ts:69-76 | signature, IHDR, IDAT over the compressed scanlines, IEND; refused exactly when a dimension or the compressed length does not fit in 32 bits |
| `Png.FileStarts` | scripts/e2e-image-witness.ts:69-76 | a written file starts with the eight signature codes, the length 13, the letters IHDR, width, height and 8, 2, 0, 0, 0, each read as a number |
| `Png.RowBytes` | scripts/e2e-image-witness.ts:74 | the components of a pixel come in the order red, green, blue, each modulo 256, after the filter byte |
| `Png.BigEndianRoundTrip` | scripts/e2e-image-witness.ts:65-72 | reading four big-endian bytes returns the number written |
| `Png.CrcFieldIsBigEndian` | scripts/e2e-image-witness.ts:66 | the CRC is stored most significant byte first |
| `Png.ChunkRoundTrip` | scripts/e2e-image-witness.ts:63-68 | a chunk that was written is read back with exactly the bytes after it left over, unless its length exceeds the limit of section 3.2 of RFC 2083 |
| `Png.FileRoundTrip` | scripts/e2e-image-witness.ts:69-76 | for every image and every inverse pair of compressions a file decodes to the image exactly when width, height and compressed length respect the limits of RFC 2083, with nothing left over |
| `Png.CorruptedChunkRefused` | scripts/e2e-image-witness.ts:63-68 | a chunk altered inside 32 consecutive bits of type and data is refused by its reader |
| `Subsets.Enumerate` | scripts/e2e-attenuation.ts:184 | all sub-collections of a list, as the loop that doubles them item by item |
| `Subsets.EverySubsetOnce` | scripts/e2e-attenuation.ts:184 | for distinct items every sub-collection occurs at one place and only there, among 2^n in all |
| `Subsets.CandidateSpace` | scripts/e2e-attenuation.ts:185 | the product of the two power sets, as the loop over the collections of operations |
| `Subsets.EveryPairOnce` | scripts/e2e-attenuation.ts:184-189 | the candidate space is complete and free of repetitions: every pair of a set of operations and a set of resources is at one place and only there, among 2^m * 2^n |
| `Capability.NarrowIsTransitive` | packages/core/src/capability.ts:239-261 | narrowing composes: a delegate of a delegate narrows the first grant |
| `Capability.NarrowIffRestricts` | packages/core/src/capability.ts:239-261 | caveats narrow if and only if they restrict, field by field: a lower or equal ceiling, no owner or recipient changed that was set, no later expiry string, no kind added, burn-once and revocability kept, every discharge key still there |
| `Capability.TargetIsWithin` | packages/core/src/capability.ts:215-218 | a target is within another if and only if it equals it or extends it after a slash, a question mark or a colon |
| `Capability.NarrowIsReflexive` | packages/core/src/capability.ts:239-261 | caveats narrow themselves exactly when the ceiling is a number |
| `Capability.NarrowerAdmitsLess` | packages/core/src/capability.ts:221-261 | every use that narrower caveats admit the wider ones admit as well, if and only if owner, instant of expiry and required discharges are kept, or the narrower ones admit nothing; for every clock and every string |
| `Timestamps.SameFormIsChronological` | packages/core/src/capability.ts:220-225 | timestamps in UTC of one form, with or without milliseconds, are ordered as strings exactly as their instants are |
| `Timestamps.LexIsChronological` | packages/core/src/capability.ts:220-225 | between timestamps in UTC the order of the strings is chronological unless one adds a fraction to the very second of the other |
| `Timestamps.InstantIs` | packages/core/src/capability.ts:220-225 | the instant of a timestamp in UTC, from the numbers in its fields, by the closed form of section 21.4.1 of ECMA-262 |
| `Capability.UtcKeepsInstant` | packages/core/src/capability.ts:220-225 | with expiries in UTC a narrower expiry is not a later instant, if and only if it does not add a fraction to the second of the parent |
| `Capability.PlainKeepsDischarges` | packages/core/src/capability.ts:258-260 | between designators without a separator no required discharge is lost |
| `Capability.NarrowUtcAdmitsLess` | packages/core/src/capability.ts:220-261 | with expiries in UTC and plain designators every use that narrower caveats admit the wider ones admit, if and only if the owner is kept and no fraction of a second is added, or no kind is left |
| `Capability.OffsetOutlives` | packages/core/src/capability.ts:220-225 | an expiry with an offset narrows, and outlives, an earlier one in UTC |
| `Capability.UnreadableParentOutlived` | packages/core/src/capability.ts:220-225 | an expiry narrows one that cannot be read and is dead |
| `Capability.FractionOutlives` | packages/core/src/capability.ts:220-225 | a fraction of a second narrows, and outlives, the same second without one |
| `Capability.SharedKeyLosesDischarge` | packages/core/src/capability.ts:258-260 | two different required discharges with one joined key: narrowing holds and the parent discharge is lost |
| `Text.JoinedIsInjective` | packages/core/src/capability.ts:258-260 | joined discharge keys are unambiguous between designators in which no separator starts |
| `Text.PlainIffUnambiguous` | packages/core/src/capability.ts:258-260 | a designator shares a key with another one, no longer than itself, if and only if a separator starts in it |
| `Capability.TargetWithinIsTransitive` | packages/core/src/capability.ts:215-218 | target narrowing composes |
| `Capability.NormalizeKeepsKinds` | packages/core/src/capability.ts:281-297 | the committed kinds allow what was granted if and only if the list of kinds is not empty |
| `Capability.NormalizeKeepsNarrowing` | packages/core/src/capability.ts:281-297 | a narrowing survives normalization if and only if it does not drop an emptied list of kinds |
| `Capability.NormalizeForgetsOrder` | packages/core/src/capability.ts:281-297 | caveats that differ only in the order of kinds, or of discharges with different keys, have one normal form, and so one commitment |
| `Text.SortIsCanonical` | packages/core/src/capability.ts:281-297 | two lists with the same members and distinct keys are sorted into the same list |
| `Capability.EmptiedKindsAreRefused` | packages/core/src/capability.ts:281-297 | an input on which the guard of issuance passes and the verifier refuses |
| `Attenuation.VerifyAttenuationChain` | packages/core/src/attenuation.ts:319-441 | the walk returns, for every ledger, leaf and policy, the verdict with the first failing check in the order of the source |
| `AttenuationTheory.AcceptIffSound` | packages/core/src/attenuation.ts:307-441 | a chain is accepted if and only if every hop is signed by its controller and live, every link extends, is issued by the holder and, element by element and field by field, grants nothing more, and the origin is a root; the result names the leaf holder and its disclosure |
| `Rejection.HopFaultIs` | packages/core/src/attenuation.ts:336-386 | a hop is refused with a check if and only if it fails that check, each written out, and none before it in the order of the source |
| `Rejection.LinkFaultIs` | packages/core/src/attenuation.ts:394-420 | the same for what a hop and the one above it have between them |
| `Rejection.RefusalNamesTheFault` | packages/core/src/attenuation.ts:330-441 | a refusal names the first hop from the leaf that is not in order and the first check that it fails; or a chain in order has reached the bound without an origin |
| `AttenuationTheory.AcceptedAttenuates` | packages/core/src/attenuation.ts:414-420 | with full disclosure every hop of an accepted chain of any length is within every ancestor in authority and caveats, as committed to |
| `AttenuationTheory.AcceptedKeepsRestrictions` | packages/core/src/capability.ts:226-261 | in an accepted chain no ceiling rises, no kind is added, owner, recipient, burn-once and revocability are not lost, no expiry becomes a later string and every required discharge stays required under its key, against every ancestor |
| `AttenuationTheory.AcceptedAdmitsLess` | packages/core/src/capability.ts:239-261 | every use that a hop of an accepted chain admits every ancestor admits, if and only if owner, instant and discharges are kept, or the hop admits nothing |
| `AttenuationTheory.AcceptedKeepsTimeAndConsent` | packages/core/src/capability.ts:220-261 | with expiries of one form in UTC and plain designators no hop of an accepted chain outlives an ancestor or loses a discharge of one |
| `AttenuationTheory.AcceptedDelegation` | packages/core/src/attenuation.ts:405-413 | every hop of an accepted chain was signed by the holder that the hop above attests, the origin by the expected root |
| `AttenuationTheory.KillSwitch` | packages/core/src/attenuation.ts:376-386 | a chain through a revoked hop is not accepted, wherever the hop stands |
| `AttenuationTheory.RevocationElsewhere` | packages/core/src/attenuation.ts:376-386 | a status change that does not concern the hops of a chain leaves its verdict as it was |
| `AttenuationTheory.PinnedVerdict` | packages/core/src/attenuation.ts:332-344 | no sequence of later versions of the ancestors changes the verdict on a leaf that stays as it is |
| `AttenuationTheory.BareDidFollowsLaterVersions` | packages/core/src/attenuation.ts:104-110 | a ledger and an appended version that change the verdict of a verifier that follows bare DIDs, and not the pinned one |
| `KillSwitch.RevokedForGood` | packages/core/src/invocation-monitor.ts:190-209 | in every run of concurrent revocations whose writes land on the list they read, once the bit of a hop is set no chain through the hop is accepted at any later time, in any world |
| `KillSwitch.LostRevocation` | packages/core/src/status-list.ts:121-132 | from the creation of the list on, for any two indices: a run in which a revocation is confirmed and every chain is judged in the end as if it had not been made |
| `RevocationRuns.NoAdmissionAfterRevocation` | packages/core/src/invocation-monitor.ts:190-209 | in every joint run of invocations and revocations, nothing is admitted over a hop after its bit was set |
| `RevocationRuns.DisclosedWasLive` | packages/core/src/invocation-monitor.ts:190-270 | in every joint run whatever is disclosed was admitted over a chain of which no hop had been revoked by then |
| `RevocationRuns.RevokedAfterAdmission` | packages/core/src/invocation-monitor.ts:272-312 | a run, for every list, index, challenge and transaction, in which the chain is refused after the bit was set and the invocation admitted before is granted |
| `KillSwitch.OthersUnaffected` | packages/core/src/invocation-monitor.ts:190-209 | setting a bit changes no verdict on a chain without a hop that points at it |
| `Issuance.Network.IssueVc` | packages/core/src/attenuation.ts:189-254 | one mint, with all its override knobs: the two versions and the signature it adds, the record it returns, its refusal |
| `Issuance.Network.MintRootCapability` | packages/core/src/capability-chain.ts:33-59 | a root handle over a mint without parent, with normalized caveats |
| `Issuance.Network.DelegateCapability` | packages/core/src/capability-chain.ts:65-103 | a child handle if the issuer holds the parent and the child narrows it; otherwise nothing is written |
| `IssuanceTheory.ExecBuilds` | packages/core/src/capability-chain.ts:33-103 | in every run of guarded mints amid other growth of the network, what the mints wrote and signed stays |
| `IssuanceTheory.LinkNarrows` | packages/core/src/capability-chain.ts:65-103 | a guarded delegation makes a sound link if and only if it does not empty a list of kinds |
| `Delegation.MayDelegateIff` | packages/core/src/capability-chain.ts:65-103 | whoever holds the last capability of a chain, and nobody else, may delegate to anybody exactly what is within it: fewer or the same operations and resources, a target that extends, caveats that restrict |
| `Delegation.GuardedIffWellGranted` | packages/core/src/capability-chain.ts:65-103 | the guards of issuance let through exactly the chains in which each hop is issued by the holder of the one before, within it |
| `Delegation.WithinIsDelegated` | packages/core/src/capability-chain.ts:65-103 | over every honestly built chain the holder delegates any subset of operations and resources with the same target and caveats |
| `Delegation.DelegatedIsAccepted` | packages/core/src/capability-chain.ts:65-113 | whatever restricting grant the holder makes, the longer chain is made and accepted, while unrevoked, within the bound and with no list of kinds emptied |
| `IssuanceTheory.DiscloseChainIsTruthful` | packages/core/src/capability-chain.ts:105-113 | the disclosure map of a built chain shows, under each DID, what that hop was minted with |
| `IssuanceTheory.IssuanceAgrees` | packages/core/src/capability-chain.ts:33-113 | every chain built by guarded mints, truthfully disclosed and unrevoked, is accepted if and only if it is at most as long as the bound and no delegation empties a list of kinds |
| `Confinement.RunAccounted` | scripts/e2e-multihop-confused-deputy.ts:112-220 | in every run with forged hops, overridden fields and rewritten documents, no signature of an honest party exists but by a grant of that party |
| `Confinement.AcceptedIsDesignated` | scripts/e2e-multihop-confused-deputy.ts:112-220 | each hop of an accepted chain with an honest controller carries the holder, authority and caveats of a grant of that controller |
| `Confinement.AcceptedIsConfined` | scripts/e2e-multihop-confused-deputy.ts:112-220 | the leaf of an accepted chain is within a root that the trusted party granted |
| `Monitor.ChallengeStore.Consume` | packages/warden/src/challenge-store.ts:97-103 | true exactly for a live challenge of the purpose that is not stale; a single-use or stale one is gone afterwards, nothing else changes |
| `Monitor.ChallengeStore.Mint` | packages/warden/src/challenge-store.ts:83-90 | the challenge is remembered with its purpose, expiry and reuse |
| `Monitor.ResolveChainInvocation` | packages/core/src/invocation-monitor.ts:220-270 | resolves exactly the invocations whose chain is accepted, whose proof is bound, signed by the holder and answers a live challenge, and whose act is an operation of the leaf on a target that is one of its resources or extends one; says when the challenge is burned |
| `Admission.ResolvesIff` | packages/core/src/invocation-monitor.ts:220-270 | an invocation has all that is asked of it, besides the challenge, if and only if a good chain of at most 64 hops goes from its leaf to the Sovereign, every hop of it disclosed, narrowing and live, its attested holder signed for this leaf and transaction and is the sender if there is one, and the act is an operation of the leaf on a target that equals one of its resources or extends one |
| `Monitor.HasValidDischarge` | packages/core/src/invocation-monitor.ts:327-347 | true exactly if some discharge is signed by the designated party over this predicate, transaction and digest |
| `Monitor.Ledger.AuthorizeInvocation` | packages/core/src/invocation-monitor.ts:276-312 | the decision with its first failing check, the list of missing discharges, and the marks made on success only |
| `Monitor.AllowedIff` | packages/core/src/invocation-monitor.ts:276-312 | allowed if and only if transaction and single-use capability are unspent, the capability is alive and within its ceiling and all consent is there |
| `Monitor.WantedIff` | packages/core/src/invocation-monitor.ts:289-308 | what is asked for are exactly the required discharges that are missing, and the consent of the owner if the sensitivity is at or above the threshold and it is missing |
| `Monitor.UnmetInOrder` | packages/core/src/invocation-monitor.ts:289-293 | the missing discharges come in the order of the caveats |
| `Monitor.BelowThresholdAllowed` | packages/core/src/invocation-monitor.ts:294-312 | below the threshold a live, unspent act within its ceiling is allowed without any discharge, when the caveats require none |
| `Monitor.ConsentIsForThisAct` | packages/core/src/invocation-monitor.ts:294-306 | a disclosure at or above the human threshold rests on an approved request for exactly this transaction, claim, kind, owner, recipient, sensitivity and set of leaves |
| `Monitor.DischargeFitsOneAct` | packages/sovereign/src/signet.ts:242-276 | the discharge signed for a request satisfies the monitor for an act if and only if the request is about exactly that act |
| `Monitor.HandleResolved` | packages/warden/src/evidence.ts:145-199 | decide, ask the designated Signets, decide again on the network and at the time of their answer; the response and the marks for every evidence, channel and ledger |
| `Monitor.CollectIs` | packages/warden/src/evidence.ts:165-190 | consent is collected if and only if every Signet that is asked answers, and then holds the answers in the order of the needs |
| `Monitor.RespondIs` | packages/warden/src/evidence.ts:145-211 | the response for every decision, channel and answer, with the second decision on the collected discharges |
| `Monitor.GrantedIsAdmitted` | packages/warden/src/evidence.ts:145-211 | what is granted is within what the caveats of the leaf admit at the time of the decision that grants it, for the recipient that the capability names |
| `Monitor.CeilingIsHidden` | packages/warden/src/evidence.ts:151-199 | evidence above the ceiling answers like no evidence if and only if the checks before the ceiling pass, or the kind is not allowed |
| `MonitorRuns.OnceAlways` | packages/warden/src/challenge-store.ts:92-103 | in every interleaving no two admissions answer one single-use challenge |
| `MonitorRuns.ConsentedAlways` | packages/core/src/invocation-monitor.ts:294-347 | in every interleaving whatever is disclosed at or above the threshold was approved by its honest owner for exactly that act |
| `MonitorRuns.WithinAlways` | packages/warden/src/evidence.ts:145-211 | in every interleaving the sensitivity, kind, owner, recipient, time and discharges of whatever is disclosed are admitted by the caveats of the leaf |
| `MonitorRuns.GrantedOnce` | packages/core/src/invocation-monitor.ts:276-312 | in every run whose decisions do not overlap no transaction and no single-use capability is granted twice |
| `MonitorRuns.OverlapGrantsBoth` | packages/core/src/invocation-monitor.ts:276-312 | from the empty ledger on, any two invocations of one transaction, or of one single-use capability, over different challenges: a run in which both are granted |
| `MonitorRuns.OverlapLosesMark` | packages/core/src/single-use.ts:51-61 | from the empty ledger on, any two invocations of different transactions: a run in which overlapping rewrites of the ledger file lose the first mark |
| `MonitorRuns.WriteKeepsMarks` | packages/core/src/single-use.ts:51-61 | a mark that is written on what was read keeps all marks if and only if it was there already or nothing but itself was marked since the read |
| `MonitorRuns.LostMarkReplays` | packages/core/src/single-use.ts:51-61 | a run in which the transaction whose mark was lost is granted again after everybody else was done |
| `MonitorRuns.AdmittedStillDiscloses` | packages/core/src/invocation-monitor.ts:272-312 | whoever was admitted is granted whatever the network says of the chain by then, as long as the discharges stand |
| `Witnesses.OneTransactionTwice` | packages/core/src/invocation-monitor.ts:276-312 | a network and, for any transaction and any two challenges, a run of its invocations that grants the transaction twice |
| `Witnesses.MarkLostForGood` | packages/core/src/single-use.ts:51-61 | on the same network, a run that grants any transaction again long after it was granted |
| `EndToEnd.ResolvedIsCovered` | packages/core/src/invocation-monitor.ts:220-270 | a resolved act is covered by a root grant of the Sovereign, and its holder signed for this act and challenge |
| `EndToEnd.WasAdmitted` | packages/core/src/invocation-monitor.ts:220-270 | every invocation that got anywhere was admitted by a step of the run, for the same act, chain and leaf |
| `EndToEnd.DisclosedIsCovered` | scripts/e2e-multihop-confused-deputy.ts:112-220 | in every interleaving whatever is disclosed was asked for by the attested holder over a live challenge and is covered by a root grant of the Sovereign: the operation is one of the grant, the target equals a resource of the grant or extends one, and the rest of the use is covered by its caveats as far as owner, instant and discharges are kept |
| `Ruleset.OperativeRuleset` | packages/core/src/ruleset.ts:307-334 | the head of the longest prefix in order, if active and signed by the expected governor, for every list of versions in any order |
| `Ruleset.VersionOkIff` | packages/core/src/ruleset.ts:307-330 | a version is in order if and only if it is signed by the signer of the first, numbered and linked in its place, and acknowledged by its member unless it revokes, tightens or keeps |
| `Ruleset.NeedsAckIff` | packages/core/src/ruleset.ts:196-246 | a version needs an acknowledgment if and only if it is over a member and neither revokes nor, axis by axis, tightens or keeps a version over the same member |
| `Ruleset.OperativeIsLastGood` | packages/core/src/ruleset.ts:307-334 | the operative head is the last of the good versions that come first, if it is active and the governor's; and only that |
| `Ruleset.SortIsStable` | packages/core/src/ruleset.ts:312 | the versions are sorted by number, and those with one number keep their order |
| `Ruleset.ActiveIsOperative` | packages/core/src/ruleset.ts:254-394 | the strict verification accepts exactly where the lenient walk has a head, every version is good and all have one actor of one kind, and then with the same head |
| `Ruleset.OperativeIsGoverned` | packages/core/src/ruleset.ts:307-334 | the operative head is a version of the chain, active, and signed by the governor like every version before it |
| `Ruleset.HeadFixesHistory` | packages/core/src/ruleset.ts:122-125 | chains in order that share a version share everything before it |
| `Ruleset.UnacknowledgedKeepsStepUp` | packages/core/src/ruleset.ts:209-220 | a transition that needs no acknowledgment, short of a revocation, weakens no required step-up |
| `Ruleset.UnacknowledgedStep` | packages/core/src/ruleset.ts:196-246 | a transition that needs no acknowledgment does not widen the reach of the governor if and only if the earlier version was an active edge of the governor and no bound was dropped |
| `Ruleset.NeverSeized` | packages/core/src/ruleset.ts:296-334 | when the unacknowledged steps stay within, the reach of the operative head is within a version that the member acknowledged |
| `Ruleset.SeizedIff` | packages/core/src/ruleset.ts:296-334 | an acknowledged version followed by an unacknowledged one: the operative head reaches beyond every acknowledged version if and only if the second does not stay within the first |
| `Ruleset.TwoStepsSeizeAnything` | packages/core/src/ruleset.ts:219-227 | after any acknowledged first version, two unacknowledged ones give the governor any reach it wants over the member |
| `Ruleset.UnacknowledgedWidenings` | packages/core/src/ruleset.ts:224-246 | six ways, each with a signed and linked chain of an acknowledged and an unacknowledged version whose operative head grants what no acknowledged version grants |
| `Ruleset.Appended` | packages/core/src/ruleset.ts:307-334 | the operative head after appending any version: unchanged for a bad version with a number above the chain, taken back to version k by one that repeats the number k |
| `Ruleset.SortedAppend` | packages/core/src/ruleset.ts:312 | where the stable sort places an appended version |
| `Ruleset.GuardianReceiptStore.GuardianRead` | packages/warden/src/guardianship.ts:140-168 | the reply for every chain and artefact, and a receipt for exactly the granted reads, shown as the newest to the member that was read and to no other |
| `Ruleset.GuardianReceiptStore.ForSubject` | packages/warden/src/guardianship.ts:39-42 | the receipts over that member and no others, in their order |
| `Ruleset.ReceiptIsShown` | packages/warden/src/guardianship.ts:39-42 | a receipt shows, as the newest, for the member that was read and for no other |
| `Ruleset.ReadIsGranted` | packages/core/src/ruleset.ts:355-379 | a read is granted if and only if the artefact is the member's and the operative head grants it to this governor |
| `Ruleset.RefusalIsUniform` | packages/warden/src/guardianship.ts:149-164 | a refused read of an artefact answers like the read of nothing if and only if the governor has an open edge over the member |
| `Drain.Mailbox.ReceiveDidComm` | scripts/e2e-durable-drain.ts:37-43 | returns what is there, and removes it only when asked to |
| `Drain.Mailbox.AckDidComm` | scripts/e2e-durable-drain.ts:44-48 | removes exactly the messages with the given ids and counts them |
| `Drain.Mailbox.Inject` | scripts/e2e-durable-drain.ts:53-59 | adds a message at the end, or replaces the one with its id where it stands |
| `Drain.Transport.Poll` | packages/core/src/transport.ts:242-315 | the pass over what was received: reader memory, handlers started and ids to acknowledge, message by message |
| `Drain.PassKeepsOneTaskEach` | packages/core/src/transport.ts:242-293 | a pass never starts a second handler for a message in flight |
| `Drain.DoneIsRight` | packages/core/src/transport.ts:252-286 | a pass acknowledges only replies with a waiter and messages that this reader can never dispatch |
| `Drain.WaitersResolvedOnce` | packages/core/src/transport.ts:258-265 | a pass hands received messages to the waiters of their own threads, one for each, who then wait no longer, and leaves all other waiters |
| `Drain.PassComposes` | packages/core/src/transport.ts:237-315 | a pass over two batches is a pass over the first and then over the second, the ids to acknowledge in the order of the messages |
| `Drain.PassDecides` | packages/core/src/transport.ts:242-315 | after a pass, served or not: handed to a waiter is exactly the first message of its thread; acknowledged are exactly those, what has no body, and what a serving reader cannot dispatch; in flight exactly the rest of a serving reader |
| `Drain.ReplyIsHandedOver` | packages/core/src/transport.ts:258-265 | whenever a message of a thread with a waiter is received, with a handler or without, the first of the thread is handed over and acknowledged, and nobody waits for it any more |
| `Drain.ServedPassTakesAll` | packages/core/src/transport.ts:242-315 | after a pass of a serving reader every received message is in flight or done |
| `DrainRuns.SafeAlways` | packages/core/src/transport.ts:189-207 | in every interleaving with failures and crashes each injected message is on the relay, cleanly handled, handed to its waiter or dropped, and none has two handlers |
| `DrainRuns.PassConsumesRightly` | packages/core/src/transport.ts:264-275 | a reader that does not serve starts nothing and consumes no request |
| `DrainRuns.WaiterGetsReply` | packages/core/src/transport.ts:258-265 | in every run a waiter that is not timed out and whose reader does not crash has its reply after a poll that received one |
| `DrainRuns.HandledOnceAlways` | packages/core/src/transport.ts:189-207 | while no acknowledgment is lost and answers are fresh no message is handled cleanly twice |
| `DrainRuns.RedispatchIsStale` | packages/core/src/transport.ts:221-247 | a handler that is started again for a handled message works on an answer that the relay no longer has |
| `DrainRuns.StaleAnswerRedispatches` | packages/core/src/transport.ts:221-314 | for every task whose acknowledgment lands while an answer with its message is on the way, whatever else is in the answer, the message is dispatched again |
| `DrainRuns.HandledTwice` | packages/core/src/transport.ts:189-314 | for every request, a run from the start of the reader on, without any failure, in which it is cleanly handled twice |
| `DrainLiveness.MeasureNeverRises` | packages/core/src/transport.ts:217-322 | no step of a polling, serving reader raises the distance of the relay from empty |
| `DrainLiveness.RoundLowers` | packages/core/src/transport.ts:189-207 | every round that starts with a message on the relay lowers the measure |
| `DrainLiveness.RoundExists` | packages/core/src/transport.ts:217-322 | from every safe state of a serving reader a round can be made |
| `DrainLiveness.Drains` | packages/core/src/transport.ts:189-207 | in every run, whatever the interleaving and the throws, the relay is empty after as many rounds as the measure at the start, a round being a successful poll that is processed and a step of each task present; every message is handled, handed over or dropped |
| `Allocation.PickFree` | packages/core/src/allocation.ts:58-66 | fails exactly when the count of used indices reaches the space; otherwise a free index below the space |
| `Allocation.CountMeansTaken` | packages/core/src/allocation.ts:57-60 | a count is full while slots are free if and only if there are free slots and no more of them than counted indices outside the space; without such indices full means taken |
| `Allocation.ExhaustedIffFull` | packages/core/src/allocation.ts:57-60 | in every interleaving of calls for one space a call fails as exhausted if and only if every slot is taken in the version it read |
| `Allocation.FailedWasFull` | packages/core/src/allocation.ts:57-60 | whoever has failed as exhausted read a version of the run in which every slot was taken |
| `Allocation.SharedRecordExhaustsEarly` | packages/core/src/allocation.ts:57-60 | a run in which a record shared with a larger space makes a call fail as exhausted while its slot is free |
| `Allocation.SoundAlways` | packages/core/src/allocation.ts:79-123 | in every interleaving each version of the record is injective and below the space, and no allocator makes more attempts than there are versions and writes refused without a conflict |
| `Allocation.ReturnedWasRecorded` | packages/core/src/allocation.ts:92-121 | in every run, whatever its writes land on, an index that was returned was during the call the one of its id and of no other in the record, and whoever goes on to write found the record at the version it had read |
| `Allocation.AttemptsAlways` | packages/core/src/allocation.ts:92-123 | no call makes more attempts than one and its retries, and none gives up for conflicts before the last of them |
| `Allocation.DurableAlways` | packages/core/src/allocation.ts:102-121 | while writes land on the versions they read, entries are never overwritten and returned indices stay in the record |
| `Allocation.ReturnedIndices` | packages/core/src/allocation.ts:79-123 | in such runs returned indices are equal exactly for equal ids and are the ones in the record |
| `Allocation.WriteKeepsEntries` | packages/core/src/allocation.ts:102-110 | a write keeps the committed entries if and only if nothing but its own entry was committed since its read |
| `Allocation.OverlapCollides` | packages/core/src/allocation.ts:102-121 | from the creation of the record on, for any two ids and any index: a run in which both calls return the index and one entry is gone |
| `StatusList.SetOneBit` | packages/core/src/status-list.ts:46-52 | in one byte setting bit j changes the reading of bit j only |
| `StatusList.MostSignificantFirst` | packages/core/src/status-list.ts:46-52 | bit j of a byte is its bit of weight 128 / 2^j, both when it is read and when it is set |
| `StatusList.List.GetBit` | packages/core/src/status-list.ts:46-49 | the bit at an index in range, most significant bit first; refused out of range |
| `StatusList.List.SetBit` | packages/core/src/status-list.ts:50-52 | the set bits gain exactly the index |
| `StatusList.List.RevokeStatusIndex` | packages/core/src/status-list.ts:111-134 | the set bits gain the index, the list version rises only if the bit was clear, out of range is refused |
| `StatusList.List.PublishRevocation` | packages/core/src/status-list.ts:136-149 | revokes the index that the record holds for the id, refuses an id without one |
| `StatusList.RevokeAll` | packages/core/src/status-list.ts:136-149 | after any sequence of allocations and revocations the set bits are exactly the indices of the revoked ids, and no other id reads as revoked |
| `StatusList.NewEntriesAreLive` | packages/core/src/allocation.ts:4-10 | an id that is allocated later does not start out revoked |
| `StatusList.WriteKeepsRevocations` | packages/core/src/status-list.ts:121-132 | in every run, while no bit was lost so far, a write keeps all bits if and only if no version since its read set another bit than its own |
| `StatusList.BitsStay` | packages/core/src/status-list.ts:121-132 | in every run whose writes land on the list that was read no bit is lost and whatever was confirmed as revoked is revoked |
| `StatusList.OverlapUndoesRevocation` | packages/core/src/status-list.ts:121-132 | from the creation of the list on, for any two indices: a run in which both revocations are confirmed and the first one is undone |
| `Mesh.PermittedAre` | packages/core/src/mesh.ts:266-283 | the permitted rungs are exactly those on which tier, depth and confidence all hold |
| `Mesh.ReachesIff` | packages/core/src/mesh.ts:266-283 | a rung may be read if and only if the first place of the tier in the order is not below the first place of the tier asked for, the way is not too long and the confidence not too low |
| `Mesh.PermittedInOrder` | packages/core/src/mesh.ts:276-283 | the permitted rungs keep the order of the ladder |
| `Mesh.PermittedIsMonotone` | packages/core/src/mesh.ts:261-283 | a higher tier, a higher confidence and a shorter way only add rungs, in order |
| `Mesh.UnrankedReachesNothing` | packages/core/src/mesh.ts:273-274 | an unranked tier reaches nothing |
| `Mesh.InsertedTier` | packages/core/src/mesh.ts:184-190 | inserting a tier changes what an existing tier reaches only by rungs that ask for the new tier |
| `Mesh.InsertionKeepsPermitted` | packages/core/src/mesh.ts:184-190 | without such rungs the permitted rungs of existing tiers stay the same |
| `Mesh.AnswerIsPermitted` | packages/core/src/mesh.ts:285-299 | an answer exists exactly if a permitted rung of the domain has a matching fact, and is such a fact |
| `Mesh.MatchesIff` | packages/core/src/mesh.ts:291-299 | a fact matches if and only if one of its keywords stands somewhere in the text |
| `Mesh.AnswerIsFirst` | packages/core/src/mesh.ts:291-299 | the answer is the first matching fact of the first permitted rung of the domain that has one |
| `Mesh.ActIs` | packages/core/src/mesh.ts:363-497 | what a node does, in each case: the refusals in their order, its own signed answer exactly if it knows one, a miss exactly if nobody covers the domain, and otherwise the crossing or the refusal of a cycle |
| `Mesh.FriendCovers` | packages/core/src/mesh.ts:470-472 | the friend that is chosen is the first that covers the domain of the query, and there is one if any does |
| `Mesh.RelayAssertsEdge` | packages/core/src/mesh.ts:501-518 | a relay wraps what it passes on with its own name, the answerer and the confidence of its edge to the friend |
| `Mesh.GatedRungsDoNotShow` | packages/core/src/mesh.ts:455-460 | ladders that agree on the permitted rungs give the same reply, whatever friends answer |
| `Mesh.PathAttenuates` | packages/core/src/mesh.ts:463-497 | along every path of a network depth, scope and budget attenuate, the nodes passed are recorded and the path is bounded by the remaining depth |
| `Mesh.PathRepeatsOnlySelf` | packages/core/src/mesh.ts:474-490 | no node comes twice on a path, but for a node that is its own friend, twice in a row |
| `Mesh.SelfFriendRepeats` | packages/core/src/mesh.ts:474-490 | a network, for any node and any positive depth, on which a query comes twice to a node that is its own friend |
| `Mesh.DepthAuthority` | packages/core/src/mesh.ts:402-415 | from a node that forwards, a query comes to no more nodes than the presented recognition and the relay policy of that node allow |
| `Mesh.AnswerComesFromLast` | packages/core/src/mesh.ts:419-461 | what a network grants was asserted by the last node of the path, from a rung that the last presenter may read, and matches the query as it was asked |
| `Mesh.ConfidenceIsProduct` | packages/core/src/mesh.ts:426-427 | the confidence a node gates on is the product of the edge confidences on the way |
| `Mesh.AcceptedIsBound` | packages/core/src/mesh.ts:596-648 | whatever was sent, an accepted answer is signed by the answerer that the recognized relay named and its confidence is the product of two probabilities |
| `Mesh.AcceptedIff` | packages/core/src/mesh.ts:596-648 | an answer is accepted if and only if the expected relay signed its wrapping, the named answerer signed the answer in it, and both confidences are probabilities |
| `Mesh.WrappedByEachRelay` | packages/core/src/mesh.ts:501-518 | an answer is wrapped once by every node that passed it on |
| `Mesh.AcceptsOneRelay` | packages/core/src/mesh.ts:502-517 | of the answers of a network the origin accepts exactly those that passed one relay, the recognized one, over edges that are probabilities |
| `KbDocs.KbService.PutDoc` | packages/warden/src/kb.ts:591-612 | errors exactly for a missing key, kind or text, a missing partition or permission, or a step-up; otherwise the document replaces the one under its key |
| `KbDocs.KbService.GetDoc` | packages/warden/src/kb.ts:451-498 | the shared copy of the owner first, then the caller's own private one |
| `KbDocs.KbService.SupersedeDoc` | packages/warden/src/kb.ts:435-444 | removes what is under the key and counts it, at most one |
| `KbDocs.PutKeeps` | packages/warden/src/kb.ts:591-612 | at most one artefact per key and distinct ids are kept, and nothing else is removed |
| `KbDocs.PutIsUpdate` | packages/warden/src/kb.ts:591-612 | put-doc refines the update of a map from partition, contributor and key to the latest document |
| `KbDocs.PutComesLast` | packages/warden/src/kb.ts:591-612 | a document that is put comes last, and whatever it does not replace keeps its order |
| `KbDocs.LatestIsFound` | packages/warden/src/kb.ts:435-498 | after any sequence of put-doc, get-doc and contributions what is found under a key is the document put there last, and every contribution is still there |
| `KbDocs.OthersReadSharedOnly` | packages/warden/src/kb.ts:446-498 | what another member reads is the owner's current shared document, never a private one |
| `KbDocs.ReadIs` | packages/warden/src/kb.ts:451-498 | what anybody reads, the owner included: the shared document of the owner, otherwise to the owner alone its private one, nothing if neither is there, an error without a partition or for a sealed document |
| `KbDocs.PutThenGet` | packages/warden/src/kb.ts:451-498 | another reader reads a document as soon as it is put to the shared partition, and no private put changes what it reads |

## Left out

- Keymaster, Gatekeeper, DIDComm, HTTP, MCP and browser code: input and output over libraries that are not part of this model.
- The strength of signatures, hashes and encryption, and the algorithms of deflate and gzip: assumed as stated above.
- Base64 of the PNG and of the encoded list; limits of memory on buffer sizes.
- The single-hop presentation of a capability: it rests on a keymaster ceremony whose result is a parameter; what follows the resolution is shared with the chain path and modelled.
- Reason texts of refusals, other than which check failed.
- The invocation target is not part of what a hop commits to, so the verifier has nothing to compare; its narrowing is a check of the issuer alone.
- A ceiling that is NaN, and kinds or discharges that are not lists: a disclosed value with a malformed field makes the narrowing throw, which the verifier reads as a refusal.
- The collation order of discharge keys in a commitment: any fixed order is as good, only the set of keys is compared.
- Messages without an id, the server's time-to-live and the sending of replies in the drain; a reader process is the only reader of its mailbox.
- Monitor.ResolveChainInvocation: every invocation is resolved with the challenge gate of the daemon; the library use without a gate is left out.
- Allocation.PickFree: the choice among free slots is arbitrary; its randomness is left out.
- Old versions of a status list: the resolver is new at every check, so its cache plays no part, and a list that resolves is taken to resolve to its current version; audits of pinned versions.
- Concurrent writes of the vault file and of the receipts file: document and receipt operations run one after the other.
- The guardianship store, receipts' delivery, and the anchoring of ruleset chains as assets.
- Classification, embedding, recall and sessions of the knowledge base.
- Merkle evidence groups, spend and control allowances, escalation tables: fixed tables or separate features.
