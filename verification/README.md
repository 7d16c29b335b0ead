# Verification of the cross-chain bridge

A Dafny 4.11 model of a bridge in which a source gate locks funds and emits
`Sent`, validators sign the keccak `submissionId`, and a destination gate checks
a quorum and pays once. Every claim below is a contract that Dafny verifies;
nothing here runs the bridge. `dafny verify dfyconfig.toml` checks the project.

| module | what it models |
|---|---|
| `Words`, `Collections` | bytes, machine integers, big-endian words; the stable sort, filters, sets |
| `SubmissionHash`, `SolanaPacking`, `CorePacking` | the submissionId preimage, the cancel and refund ids, the two crates' packers |
| `Verify` | low-`s` canonicalisation byte by byte, signer recovery, the quorum loop, the relayer's sort |
| `Gate`, `Ledger`, `Mesh`, `MeshSafety`, `MeshDelivery` | one gate as a class; then every run of many gates with validators, cancel and refund: what never happens, and what a quorum obtains |
| `AbiCodec`, `LogAttribution` | the hand-written ABI codec; attribution of log lines to programs |
| `RecordText`, `Store`, `Claims` | the text form of a store record; the file-backed signature store; from a stored bucket to an accepted claim |
| `Indexer`, `Lifecycle`, `LifecycleRace`, `Pipeline` | the chain loop and its cursor; the lifecycle tables by whole calls and by SQL statements; the loops feeding the tables |
| `TokenList`, `RefundCursor`, `RateLimit`, `Scale` | the token-list replay, the paged refund walk, the token bucket, the minimum-claim arithmetic |

Code that changes state is a class or a method with loops, proved equal to a
function of the old state; the theorems are lemmas about those functions, over
every run.

## Assumptions

Each is a parameter or a `requires` of the theorems that use it.

- `keccak` does not collide on the finite set of strings that were hashed
  (`SubmissionHash.CollisionFree`).
- Curve recovery is abstract. A quorum theorem assumes fewer than `threshold`
  dishonest members of the validator set, and that a signature of an honest
  validator was made by it; keys outside the validator set may sign anything
  (`Mesh.OutsidersAreUnconstrained`). A
  canonicalisation theorem assumes `(r, s, v)` and `(r, n - s, 1 - v)` recover
  alike; the store assumes recovery rejects `s` outside `(0, n)`, and what says which
  posts it accepts assumes both.
- An honest validator signs a transfer only for a real `Sent`, a cancel only for
  a transfer its source gate sent, and a refund only after the destination burned
  the id. A cancel vote may be stale: the claim may come between vote and burn.
- The mesh's cancel and refund steps are those of `contracts/src/Gate.sol:1440-1670`.
  Its further refusals (pause, seal, chain and scale registry, governance) are left
  out: on a gate that rolls back, a refused call is a call not made. Amounts are in
  the units that cross the bridge.
- For a window that ends at a block its head has confirmed, a node whose answer
  passes the indexer's vouching check holds every log of the window; confirmed
  blocks are final; a successful log query of the token list
  returns its events, and the chunk size is fixed; `TokenList.RunReplays` also assumes
  a tip that does not go down, the concurrent form does not.
- Time in the rate limiter does not run backwards; `f64` is `real`.

Standards: EIP-191 version 0x45 for the signed digest, EIP-2 for low `s`,
SEC 2 version 2.0 section 2.4.1 for the group order, and the Solidity Contract
ABI Specification, "Formal Specification of the Encoding".

## Where the code and its documentation differ

The model follows the code.

- `RefundCursor::walk` says that on an error "the cursor is left where it was".
  That holds if and only if the first page fails (`RefundCursor.ErrorKeepsCursorIff`);
  after a later page the cursor stands behind rows that the tick dropped.
- The `ceil(len / 10000)` ticks promised "however the queue is filled" hold from
  the head. From other positions the exact number is in
  `RefundCursor.AllReturnedIff`; `RefundCursor.FullTickThenEmpty` is the smallest miss.
- `apply_pending_lifecycle` is an UPDATE and a separate DELETE. The promise that
  one of the two racing sides always sees the other holds if the two are one step
  (`LifecycleRace.AtomicApplyLosesNothing`). As written, a kind of report is
  lost if and only if every call that reports it parked it and, after each parking,
  the first half of an apply that any call issued was the DELETE
  (`LifecycleRace.ReportLostIff`); `LifecycleRace.SplitApplyLosesClaim` is a schedule
  that loses a claim.
- The apply has none of the guards of the calls it stands for. A claim applied to a
  row that a sweep has flagged leaves `eligible` beside `claimed`
  (`LifecycleRace.AppliedClaimStaysEligible`), and a cancel parked before the row and
  applied after a refund takes the row back from `refunded` to `cancelled`
  (`LifecycleRace.LateApplyUndoesRefund`). Whole calls do neither
  (`Lifecycle.ClaimedIsNeverEligible`, `Lifecycle.CallKeepsTerminal`).
- A refund and then a cancel, both parked before the row exists, end as
  `cancelled` (`Lifecycle.ParkedCancelHidesRefund`). With the source chain read in
  order this cannot happen (`Lifecycle.SourceOrderLosesNothing`).
- The in-memory gate does not undo a claim that fails. A refused claim leaves a gate
  unchanged if and only if the gate rolls back, the id was executed before, or the
  signatures are no quorum (`Gate.RefusedClaimKeepsStateIff`); any other burns the id.
  `Gate.EarlyClaimIsBurned` is a claim that would have been paid had its asset been
  registered first, and never is.
- `canonical_signature` is idempotent exactly for `s <= n`
  (`Verify.CanonicalIdempotentIff`).
- The store tells signers apart by text: one address written with and without
  `0x` is two entries (`Store.SameSignerIff`, `Claims.TwinAttestationsBothStay`).
  `build_claim_instruction`, which sorts and does not deduplicate, then makes a list
  that the gate refuses (`Claims.TwinEntriesAreRefused`); `ordered_signatures` does
  not (`Claims.RunQuorumIsAcceptedIff`).
- The store promises that an honest validator "can never be locked out". A post
  that passes every other check is a conflict if and only if it differs from the
  stored record in the native sender's bytes, the payload's encoding, the digits of
  the amount, or the `0x` of some compared hex text (`Store.AdmittedPostIff`), whoever
  signed. The promise holds for a repeated post (`Store.RepostIsAccepted`) and for
  attestations; a post whose signer is in the bucket is refused exactly when it
  differs (`Store.LockedOutIff`). The native sender of a transfer without payload and
  the spelling of the id are chosen by whoever posts first
  (`Store.PoisonedSenderLocksOut`, `Store.UnprefixedLocksOut`).
- A file is named by the id's text, so on a case-sensitive file system the store does
  not keep one record per id. Each id has one file if and only if the accepted posts
  spell it in one case (`Store.OneFilePerIdIff`); otherwise its signatures are divided,
  and so can a quorum be (`Claims.CaseSplitsTheQuorum`).
- A line that a program logs itself can look like a frame of the runtime, for
  example `Program log: success` (`LogAttribution.FrameShapedLineMisattributes`).

## Model

A row that begins with "Link:" unfolds definitions and only ties its neighbours together.

| member | source | states |
|---|---|---|
| `Words.LexIsIntegerOrder` | crates/bridge-solana/src/verify.rs:73-83 | Rust's array comparison of equal-length words is the order of the integers they denote |
| `SolanaPacking.Be32` | crates/bridge-solana/src/hash.rs:26-30 | eight bytes copied into the tail of a zeroed word are the 32-byte word of the integer, for every `u64` |
| `SolanaPacking.AmountWord` | crates/bridge-solana/src/hash.rs:146-150 | the same for every `u128` amount |
| `SolanaPacking.PackedSubmission` | crates/bridge-solana/src/hash.rs:67-88 | the machine-word packer fills the nine-field preimage |
| `SolanaPacking.PackAuto` | crates/bridge-solana/src/hash.rs:116-143 | the payload part of the preimage, with the three inner hashes |
| `SolanaPacking.IdFor` | crates/bridge-solana/src/gate.rs:256-292 | the id the gate derives is the hash of the common preimage, with and without a payload |
| `CorePacking.PackedSubmission` | crates/bridge-core/src/lib.rs:86-107 | the 256-bit packer fills the same preimage, so both crates hash the same bytes |
| `SubmissionHash.PackedInjective` | crates/bridge-core/src/lib.rs:86-107 | equal packings with receivers of one width have equal fields |
| `SubmissionHash.SamePreimageIff` | crates/bridge-core/src/lib.rs:86-162 | nothing is length-prefixed; two transfers share a preimage exactly when they are equal or one is plain and its receiver swallows the other's receiver, nonce and payload up to the last word |
| `SubmissionHash.PreimageInjective` | crates/bridge-core/src/lib.rs:135-162 | so no two transfers share a preimage, unless one carries a payload and the other is plain with a receiver exactly 160 bytes wider; receivers of at most 32 bytes are never so |
| `SubmissionHash.SubmissionIdInjective` | crates/bridge-solana/src/hash.rs:92-143 | without collisions an id names one transfer, at all but those widths |
| `SubmissionHash.WideReceiversAreAmbiguous` | crates/bridge-core/src/store.rs:318-320 | at those widths it fails: some plain transfer has the preimage of one with a payload as soon as the last payload word fits the nonce field |
| `SubmissionHash.VotePreimagesDisjoint` | crates/bridge-core/src/lib.rs:198-214 | no preimage of a transfer, a cancel or a refund is one of another kind |
| `SubmissionHash.VoteDigestSeparates` | crates/bridge-core/src/store.rs:193-199 | equal signed digests come from the same kind of vote on the same id, at any receiver width |
| `SubmissionHash.SameIdSameHead` | crates/bridge-solana/src/hash.rs:67-88 | an id fixes domain, asset, chains, scale and amount at any receiver width |
| `SubmissionHash.PreimageReads` | crates/bridge-core/src/lib.rs:86-162 | the preimage position by position: the constant 1, domain, asset, source and destination chain, one byte of scale, amount, receiver, nonce, and the five payload words, with nothing else |
| `SubmissionHash.VoteMessageReads` | crates/bridge-core/src/lib.rs:198-214 | a cancel is signed over the hash of the constant 2 and the id, a refund over that of 3 and the id |
| `SubmissionHash.SignedDigestReads` | crates/bridge-core/src/store.rs:193-199 | what a key signs is the hash of 0x19, the EIP-191 text for 32 bytes, and the message |
| `Verify.HalfOf` | crates/bridge-solana/src/verify.rs:73-81 | the carry loop computes half of a 256-bit word |
| `Verify.IsHighS` | crates/bridge-solana/src/verify.rs:71-83 | the comparison with the halved order is `s > n / 2` |
| `Verify.SubtractWords` | crates/bridge-solana/src/verify.rs:123-135 | the borrow loop computes the difference modulo 2^256 |
| `Verify.CanonicalSignature` | crates/bridge-solana/src/verify.rs:105-141 | the byte loops compute the canonical form, and refuse exactly the other lengths and recovery bytes |
| `Verify.CanonicalIsLowS` | crates/bridge-solana/src/verify.rs:85-140 | for `0 < s < n`: `r` is kept, `s` becomes `min(s, n - s)`, and the parity flips exactly when `s` changed |
| `Verify.TwinsAgree` | crates/bridge-solana/src/verify.rs:105-141 | a signature and its `n - s` twin have one canonical form |
| `Verify.CanonicalIdempotentIff` | crates/bridge-solana/src/verify.rs:105-141 | canonicalising twice is canonicalising once, if and only if `s <= n` |
| `Verify.CanonicalKeepsSigner` | crates/bridge-solana/src/verify.rs:85-141 | re-encoding keeps the recovered signer |
| `Verify.CanonicalRecovers` | crates/bridge-solana/src/verify.rs:105-141 | for recovery bytes 0 and 1 as for 27 and 28, the canonical form recovers what the raw signature does under its own parity |
| `Verify.VerifyThreshold` | crates/bridge-solana/src/verify.rs:149-178 | the loop over signatures returns the specified verdict |
| `Verify.VerifyOutcomeIff` | crates/bridge-solana/src/verify.rs:149-178 | it succeeds exactly when all signatures recover, signers are strictly ascending above the zero address, and at least `threshold` are validators, and then returns that count |
| `Verify.QuorumHasHonestSigner` | crates/bridge-solana/src/verify.rs:149-178 | with fewer dishonest members of the validator set than the threshold, and any number of other keys, an accepted list holds an honest validator's signature |
| `Verify.SortedClaimAcceptedIff` | crates/bridge-solana/src/relayer.rs:553-578 | after the relayer's sort, a list is accepted exactly when its signers are distinct, not zero, and enough of them are validators |
| `Gate.SolanaGate.Send` | crates/bridge-solana/src/gate.rs:142-187 | refusals, the nonce, the vault and the event are those of the specification |
| `Gate.SolanaGate.Claim` | crates/bridge-solana/src/gate.rs:197-252 | checks and updates happen in the code's order, the id being burned before the asset, liquidity and receiver checks |
| `Gate.SendAcceptedIff` | crates/bridge-solana/src/gate.rs:142-187 | a send is accepted exactly when its amount is positive and some gate could deliver it: 20-byte receivers, and 32-byte ones with an amount below 2^64 |
| `Gate.AcceptedSendReports` | crates/bridge-solana/src/gate.rs:155-187 | Link: an accepted send reports the transfer of its own arguments under the next nonce of the route and the native sender, uses that nonce up, locks the amount, and touches no other route or asset |
| `Gate.RefusedClaimKeepsStateIff` | crates/bridge-solana/src/gate.rs:225-252 | Link: a refused claim leaves the state unchanged exactly when the gate rolls back, the id was executed before or the signatures are no quorum |
| `Gate.EarlyClaimIsBurned` | crates/bridge-solana/src/gate.rs:225-252 | Link: a claim with a quorum, made before its asset is registered on a gate that does not roll back, stays refused after the registration that would have let it pay |
| `Gate.PaidClaimMovesAmountOnce` | crates/bridge-solana/src/gate.rs:232-252 | Link: a paid claim moves exactly its amount from the vault to its receiver, and a second one is refused |
| `Mesh.OutsidersAreUnconstrained` | crates/bridge-solana/src/verify.rs:149-178 | Link: the runs considered hold every call whose signatures recover to keys outside the honest validators, and every signature of such a key |
| `Mesh.ActionKeepsInv` | contracts/src/Gate.sol:1340-1670 | every action of a mesh of EVM and Solana gates, cancels and refunds included, keeps the safety invariant, whose parts include that every executed, cancelled or refunded id was voted for by an honest validator |
| `Mesh.PaidClaimWasSent` | contracts/src/Gate.sol:1440-1511 | Link: a claim that pays is of a transfer the named source gate sent |
| `Mesh.RefundIsOfLockedTransfer` | contracts/src/Gate.sol:1618-1670 | a refund that pays is of a transfer this gate locked, unrefunded, and burned at its destination |
| `Mesh.RunKeepsInv` | contracts/src/Gate.sol:1512-1536 | so does every run |
| `MeshSafety.HashingIsSound` | crates/bridge-core/src/lib.rs:198-214 | the real ids, digests and quorum check meet what the mesh needs of them |
| `MeshSafety.MeshClaimIsGateClaim` | crates/bridge-solana/src/gate.rs:197-252 | Link: the mesh's claim step is the step the gate class is proved to take |
| `MeshSafety.MeshPaysAtMostOnce` | contracts/src/Gate.sol:1512-1536 | in every run of any gates, of either machine and rolling back or not, each claim and each refund is of exactly one earlier send with the same fields, no send is paid twice, none is both claimed and refunded, and refunds go to the recorded sender |
| `MeshSafety.PayoutsNeverExceedLocks` | contracts/src/Gate.sol:1512-1536 | for any selection of transfers, such as one route and asset, claims plus refunds never exceed sends |
| `MeshSafety.MeshConservesFunds` | contracts/src/Gate.sol:1340-1670 | every vault holds what was prefunded plus what was locked less what was paid out, and every account, 20 or 32 bytes wide, what was claimed to it |
| `MeshSafety.EveryDecisionIsVoted` | contracts/src/Gate.sol:1559-1600 | in every run, every id burned at a gate is that of a sent transfer and an honest validator signed its cancel; every paid claim has an honest validator's signature of the transfer, and every paid refund one of the refund |
| `MeshDelivery.RunDelivers` | contracts/src/Gate.sol:1440-1667 | in every run each sent transfer stays locked at its source until it is refunded; a refund quorum then repays the recorded sender; and a quorum is paid at a destination that rolls back and can pay, unless the transfer was claimed or burned |
| `MeshDelivery.QuorumClaimPays` | contracts/src/Gate.sol:1440-1511 | Link: in every state a run reaches, a claim with a quorum of transfer signatures, neither claimed nor burned before, is paid at a gate that rolls back and can pay: the receiver gets the amount and the vault loses it |
| `MeshDelivery.QuorumCancelBurns` | contracts/src/Gate.sol:1559-1600 | Link: there a cancel with a quorum of cancel signatures burns the id, and its claim is then refused |
| `MeshDelivery.QuorumRefundRepays` | contracts/src/Gate.sol:1618-1667 | Link: and a refund with a quorum of refund signatures of a sent transfer that was not refunded, its vault holding enough, repays the recorded sender |
| `MeshDelivery.AcceptedSendLocks` | contracts/src/Gate.sol:1340-1440 | Link: an accepted send is recorded as sent, with its sender, and its amount is in the vault |
| `AbiCodec.EncodeEvmAutoParams` | crates/bridge-solana/src/relayer.rs:528-551 | the hand-written encoder produces the ABI specification's encoding of the tuple |
| `AbiCodec.DecodesIff` | crates/bridge-solana/src/relayer.rs:448-518 | the decoder returns a value exactly for the blobs that describe it, wherever the byte strings lie, and "no payload" exactly for the empty blob |
| `AbiCodec.RefusesWideFieldsIff` | crates/bridge-solana/src/relayer.rs:494-509 | fee or flags are "unrepresentable" exactly when the word exceeds 128 or 64 bits and nothing before it failed |
| `AbiCodec.RoundTrip` | crates/bridge-solana/src/relayer.rs:494-551 | decoding an encoding gives the value back, for every value whose encoding an index can address |
| `AbiCodec.WireRoundTrip` | crates/bridge-solana/src/relayer.rs:400-426 | `auto_to_wire` undoes `wire_to_auto` |
| `AbiCodec.NarrowingIsLosslessIff` | crates/bridge-solana/src/relayer.rs:400-426 | the other direction loses nothing exactly when both words fit |
| `AbiCodec.DecodedWordsAreTheEventWords` | crates/bridge-solana/src/relayer.rs:415-518 | the words hashed for a decoded payload are the event's own words, and its byte strings those the blob points at |
| `LogAttribution.GateProgramDataLines` | crates/bridge-solana/src/relayer.rs:221-241 | the stack loop over trimmed lines computes the specified attribution |
| `LogAttribution.AttributionIsExact` | crates/bridge-solana/src/relayer.rs:205-268 | over the log of any well-nested forest whose printed lines are not frame-shaped, the result is exactly the data lines whose innermost program is the given one, in order |
| `LogAttribution.FrameShapedLineMisattributes` | crates/bridge-solana/src/relayer.rs:244-268 | every frame-shaped printed line makes the result wrong on some forest of that line and one data line |
| `LogAttribution.LoggedSuccessIsFrameShaped` | crates/bridge-solana/src/relayer.rs:260-268 | `Program log: success` is such a line |
| `RecordText.HexRoundTrip` | crates/bridge-core/src/store.rs:298-304 | hex printing and parsing round-trip |
| `RecordText.SameBytesIffSameFold` | crates/bridge-core/src/store.rs:280-295 | two hex texts denote the same bytes exactly when they differ at most in case |
| `RecordText.DecimalRoundTrip` | crates/bridge-core/src/store.rs:119-139 | decimal printing and parsing round-trip |
| `RecordText.RecordIdIsComputedId` | crates/bridge-core/src/store.rs:119-157 | printing an event into a record and recomputing the id from the text gives the id computed from the event; it is refused exactly when a chain id or nonce exceeds a `u64`; an undecodable payload is an error on both paths |
| `RecordText.HexReads` | crates/bridge-core/src/store.rs:298-304 | each byte is printed as its two digits of `0123456789abcdef`, the high one first |
| `RecordText.RecordReads` | crates/bridge-core/src/store.rs:119-139 | every field of an event's record denotes the event's field of that name |
| `RecordText.EventPreimageReads` | crates/bridge-core/src/store.rs:119-157 | what is hashed for an event, position by position, is the event's own fields and its payload as the ABI decoder returns it |
| `RecordText.ReencodedPayloadKeepsId` | crates/bridge-solana/src/relayer.rs:415-551 | a payload the Solana relayer encodes for the store has, recomputed there from the record's text, the id that the gate computed from the wire form, if the ABI decoder inverts that encoding |
| `Store.FileStore.UpsertSignature` | crates/bridge-core/src/store.rs:526-588 | the method's files and result are those of the specified upsert, refusals in order |
| `Store.FileStore.UpsertAttestation` | crates/bridge-core/src/store.rs:596-634 | the same for an attestation |
| `Store.VerifiesIff` | crates/bridge-core/src/store.rs:410-471 | a signature is verified exactly when its texts parse and curve recovery gives the claimed address for the parity its last byte stands for: 0 or 27, 1 or 28, or an EIP-155 value from 35 on |
| `Store.AdmittedIff` | crates/bridge-core/src/store.rs:526-563 | a post passes all checks in front of the files exactly when its texts are within bounds, its id is that of its own parameters, its token hashes to its asset, and its signature is the claimed signer's of that id |
| `Store.SentEventIsStored` | crates/bridge-core/src/store.rs:526-588 | an event's own record, with its id and a signature of it by anyone in any of those encodings, is accepted into an empty store, which then holds that record and that signer |
| `Store.AttestationAcceptedIff` | crates/bridge-core/src/store.rs:596-634 | in every run, an attestation on a stored record is accepted exactly when it is the claimed signer's signature of that vote's message, and the signer is in that bucket or fewer than 64 are |
| `Store.AcceptedIsKept` | crates/bridge-core/src/store.rs:9-24 | whatever an accepted post or attestation brought is there at every later point: its signer in the list of its own vote, and a token if it carried one |
| `Store.RunBucketsByName` | crates/bridge-core/src/store.rs:620-634 | in every run the three lists of a record hold only good signatures of, in this order, its transfer id, its cancel id and its refund id |
| `Store.TokensAreAssets` | crates/bridge-core/src/store.rs:546-563 | in every run a recorded token is the one whose hash with the source chain is the record's asset |
| `Store.VerifiedEntryIsGood` | crates/bridge-core/src/store.rs:410-471 | a verified signature, re-encoded, is one a gate accepts: low `s`, `v` in {27, 28}, the claimed signer under that digest |
| `Store.UpsertKeepsInvIff` | crates/bridge-core/src/store.rs:565-587 | an upsert keeps the store good if and only if a record inserted for the first time brings good signature lists |
| `Store.RunKeepsInv` | crates/bridge-core/src/store.rs:9-24 | over every run from an empty store each record carries the id of its own parameters, each bucket only canonical signatures under its own digest, no folded signer twice, at most 64 |
| `Store.SameFileSameTransfer` | crates/bridge-core/src/store.rs:285-295 | although the comparison skips domain and scale, two bound records in one file denote the same transfer |
| `Store.RunGrows` | crates/bridge-core/src/store.rs:18-24 | nothing stored is changed or lost later: same transfer and same native sender, in texts that differ at most in case, every bucket a prefix of the later one, a recorded token kept |
| `Store.AdmittedPostIff` | crates/bridge-core/src/store.rs:280-295 | over every run, a post that passes the checks in front of the store is a conflict exactly when it differs from the stored record in the sender's bytes, the payload's encoding, the amount's digits or a `0x` prefix, and is accepted exactly when it does not and its signer is in the bucket or fits in |
| `Store.LockedOutIff` | crates/bridge-core/src/store.rs:236-241 | in every run, a signer who was in a bucket at any point is accepted at a later one, full bucket or not, exactly when its post does not differ from the record stored then; an attestation always is |
| `Store.RepostIsAccepted` | crates/bridge-core/src/store.rs:236-241 | an accepted post can be repeated for ever, whatever else is posted, and changes no bucket |
| `Store.PoisonedSenderLocksOut` | crates/bridge-core/src/store.rs:280-295 | a first post of a transfer without payload under another native sender, signed by any key, makes the real record a conflict in every continuation |
| `Store.UnprefixedLocksOut` | crates/bridge-core/src/store.rs:280-295 | so does a first post of the id without its `0x` |
| `Store.OneFilePerIdIff` | crates/bridge-core/src/store.rs:267-270 | over every run, each id has one file exactly when its accepted posts spell it in one case |
| `Store.LowerCaseIdsHaveOneFile` | crates/bridge-core/src/store.rs:267-270 | so ids in lower case have one file each |
| `Store.CaseSplitsTheFile` | crates/bridge-core/src/store.rs:267-270 | two posts of one transfer whose ids differ in case end in two files of one signature each |
| `Claims.CaseSplitsTheQuorum` | crates/solana-relayer/src/target.rs:570-590 | and then neither file holds a quorum of two, although one file of both would |
| `Store.SameSignerIff` | crates/bridge-core/src/store.rs:244-247 | two texts of one address are one signer exactly when both or neither have the prefix |
| `Store.PrefixedBucketHasDistinctAddresses` | crates/bridge-core/src/store.rs:242-253 | with every signer written with the prefix, a bucket holds each address at most once |
| `Store.SentRecordStorableIff` | crates/bridge-core/src/store.rs:306-352 | an event's record is within the bounds exactly when its account fields have at most 32 bytes and its payload 32 KiB |
| `Claims.OrderedSignatures` | crates/solana-relayer/src/target.rs:257-287 | the relayer's canonicalise, recover, filter, sort, dedup and truncate compute the specified list |
| `Claims.SubmittedIsAcceptedIff` | crates/solana-relayer/src/target.rs:257-287 | whatever the raw list holds - junk, strangers, one signer many times, high `s` - the gate accepts the list made from it exactly when at least `threshold` different validators, none the zero address, have a usable signature in it; the list never exceeds the threshold nor the validator list |
| `Claims.RunQuorumIsAcceptedIff` | crates/solana-relayer/src/target.rs:570-590 | from the store to the gate: in every run of the store, for every record and each of the three votes, the list made from the stored bucket passes the gate's check exactly when the bucket's voters include a quorum |
| `Claims.PrefixedBucketAcceptedIff` | crates/bridge-solana/src/relayer.rs:553-578 | sorted and not deduplicated, a good bucket of signers written with the prefix is accepted exactly when it holds a quorum and not the zero address |
| `Claims.TwinAttestationsBothStay` | crates/bridge-core/src/store.rs:244-253 | one signature attested under both spellings of its signer leaves two entries of one address |
| `Claims.TwinEntriesAreRefused` | crates/bridge-solana/src/relayer.rs:553-578 | with two entries of one address the sorted list is refused, for every validator set and threshold |
| `Indexer.ClampIsLargestConfirmed` | crates/bridge-core/src/scan.rs:19-25 | the clamp is the largest block of the window that the endpoint has confirmed, and absent exactly when there is none |
| `Indexer.FetchWindow` | crates/indexer/src/main.rs:346-398 | head read, clamp, batch, vouching, sort and orphan drop in the code's order |
| `Indexer.Scan` | crates/indexer/src/main.rs:281-308 | the handler loop takes logs up to the first failure |
| `Indexer.ChainLoop.Tick` | crates/indexer/src/main.rs:150-259 | one turn of the loop is the specified step |
| `Indexer.FetchServesWindow` | crates/indexer/src/main.rs:346-408 | a served window holds exactly the chain's logs of that window, in chain order, whatever order the node gave them in |
| `Indexer.NothingBehindCursorIsMissed` | crates/indexer/src/main.rs:150-259 | in every run, with restarts, errors, lags and failed cursor writes, every log of every configured contract from the start block to the persisted cursor has been taken by its handler |
| `Indexer.HandledInChainOrder` | crates/indexer/src/main.rs:281-308 | handlers see only real logs, and each after every earlier log of its contract |
| `Indexer.AdvancesOnlyWhenAllReach` | crates/indexer/src/main.rs:170-236 | Link: the cursor moves only over blocks that every configured scan reached |
| `Indexer.ReadsBehindTheCursor` | crates/indexer/src/main.rs:132-139 | in every run whose restarts read the cursor and whose writes are acknowledged or lost, the next block to read is the one behind the cursor, or the start block when there is none |
| `Indexer.HealthyTickAdvances` | crates/indexer/src/main.rs:150-259 | a tick with every configured endpoint vouching for the window, handlers that accept and a write that is acknowledged leaves the cursor at the smaller of the last confirmed block and `fromBlock + maxRange - 1`, and goes on behind it; a write that fails, or lands unseen, is followed up exactly as the code does |
| `Indexer.TickAsksWithinRange` | crates/indexer/src/main.rs:168 | a tick depends on no query of more than `maxRange` blocks |
| `Indexer.HealthyTicksReachHead` | crates/indexer/src/main.rs:150-259 | enough such ticks bring the persisted cursor to the confirmed head |
| `Indexer.HealthyTicksCatchUp` | crates/indexer/src/main.rs:150-259 | so that, after any run at all, enough of them leave every log up to the confirmed head taken by its handler |
| `Lifecycle.LifecycleTables.Mark` | crates/bridge-db/src/lib.rs:926-1057 | a report updates the row, is parked, or is refused, as specified, touching no other id |
| `Lifecycle.LifecycleTables.SeeRow` | crates/bridge-db/src/lib.rs:1249-1267 | creating a row applies and clears its parked marker |
| `Lifecycle.LifecycleTables.Sweep` | crates/bridge-db/src/lib.rs:1516-1527 | the sweep flags exactly the due rows that are unclaimed and have no refund state |
| `Lifecycle.RefusedIffNotTaken` | crates/bridge-db/src/lib.rs:1025-1027 | after any run a report is answered as unknown exactly when it is one that is not parked and the row was never created |
| `Lifecycle.OutcomeIgnoresOrder` | crates/bridge-db/src/lib.rs:926-1153 | any run of whole calls ends in an outcome told by which reports were taken, not by their order or repetition, except that a refund counts only if one of its reports was not overwritten by a cancel while parked; a row never has a marker beside it |
| `Lifecycle.MatchesInOrderIff` | crates/bridge-db/src/lib.rs:1103-1153 | the final status and refund status are those of the in-order, exactly-once run, if and only if no refund was overwritten in the park table |
| `Lifecycle.SourceOrderLosesNothing` | crates/bridge-db/src/lib.rs:926-1153 | with `Sent` before any `Refunded`, every interleaving, replay and sweep ends as the in-order run |
| `Lifecycle.ParkedCancelHidesRefund` | crates/bridge-db/src/lib.rs:1034-1043 | a parked refund overwritten by a parked cancel is lost |
| `Lifecycle.ClaimedIsNeverEligible` | crates/bridge-db/src/lib.rs:926-951 | no run of whole calls ends `claimed` and `eligible` |
| `Lifecycle.CallKeepsTerminal` | crates/bridge-db/src/lib.rs:907-917 | `claimed` and `refunded` are never left, `cancelled` only for `refunded` |
| `Lifecycle.TransactionsAreKept` | crates/bridge-db/src/lib.rs:926-1153 | over every run of whole calls and through the park table, each transaction column is that of the last report of its kind that landed, and empty exactly when none did: every taken claim and refund lands, also one whose status was overwritten while parked, and every taken cancel unless the row is refunded |
| `LifecycleRace.ReportLostIff` | crates/bridge-db/src/lib.rs:1069-1089 | every statement-level interleaving of any number of reports of one kind with row-creating calls, sweeps and other reports (not cancels with refunds) ends without the kind on the row exactly when every one of them parked its marker and the first half of an apply issued after each parking was a DELETE |
| `LifecycleRace.AtomicApplyLosesNothing` | crates/bridge-db/src/lib.rs:1003-1012 | with the apply as one step no interleaving loses a kind of report |
| `LifecycleRace.SplitApplyLosesClaim` | crates/bridge-db/src/lib.rs:1069-1089 | a schedule that loses a claim |
| `LifecycleRace.AppliedClaimStaysEligible` | crates/bridge-db/src/lib.rs:1069-1089 | a schedule with a sweep that ends `claimed` and `eligible` |
| `LifecycleRace.LateApplyUndoesRefund` | crates/bridge-db/src/lib.rs:1069-1089 | a schedule in which an applied cancel takes back a refund |
| `LifecycleRace.ReportAloneIsTheCall` | crates/bridge-db/src/lib.rs:926-1153 | the statements of a report of any kind without a call in between are the whole call |
| `LifecycleRace.CreateAloneIsTheCall` | crates/bridge-db/src/lib.rs:1249-1267 | so are those of a row-creating call, with the apply as one step or two |
| `Pipeline.HandledSentFirst` | crates/indexer/src/main.rs:281-308 | in every run of the source loop a transfer's `Sent` is handled before its `Refunded` |
| `Pipeline.InterleavedLoopsEndInOrder` | crates/bridge-db/src/lib.rs:926-1267 | end to end: whatever the source loop's endpoints do, and however its logs interleave with the destination loop's, with sweeps, submissions and replays, the row ends as in the in-order, exactly-once run |
| `Pipeline.CaughtUpRowIsTheChains` | crates/indexer/src/main.rs:410-490 | once both persisted cursors have passed the transfer's logs, its row is that of the in-order, exactly-once run of what the two chains' histories hold, whatever the endpoints, interleavings, replays and submissions: no report is dropped and none invented. Only whether a sweep found the row is not in the histories |
| `TokenList.ScanStep` | crates/graphql-api/src/swap.rs:419-487 | the chunk loop, sort and replay compute the specified step |
| `TokenList.TokenLists.StoreState` | crates/graphql-api/src/swap.rs:405-413 | writing a scan back never moves a cursor back |
| `TokenList.ReplayListsLastListed` | crates/graphql-api/src/swap.rs:127-140 | a replay lists exactly the tokens whose last event is a listing, each once, in first-seen order |
| `TokenList.EarlyListingsVanish` | crates/graphql-api/src/swap.rs:467-485 | listings applied ahead of their own chunk leave no trace once the chunk is applied |
| `TokenList.RunReplays` | crates/graphql-api/src/swap.rs:415-487 | after any steps, failures and budget cut-offs the state is one replay up to the cursor plus at most the listings of the next chunk, and exactly the replay after a step that advanced without failure |
| `TokenList.AnsweredStepAdvances` | crates/graphql-api/src/swap.rs:415-487 | a step whose queries succeed reads exactly the next 20 chunks, or up to the tip, and reports so |
| `TokenList.AnsweredStepsReachTip` | crates/graphql-api/src/swap.rs:415-487 | enough such steps reach the tip |
| `TokenList.InterleavedScansReplay` | crates/graphql-api/src/swap.rs:310-413 | under any interleaving of requests and backfills, each scanning from its own snapshot with any tip and writing back at the end, the cache is a replay up to its cursor, ahead by at most listings of the next chunk |
| `TokenList.AnsweredScanIsKept` | crates/graphql-api/src/swap.rs:310-413 | under any interleaving, a scan whose queries succeed brings the cached cursor 20 chunks beyond its snapshot, or to its tip, and no later write takes it back |
| `TokenList.AheadLists` | crates/graphql-api/src/swap.rs:336-364 | such a cache shows every token listed at its cursor, and beside those only tokens with a listing in the chunk after it |
| `TokenList.ExactListing` | crates/graphql-api/src/swap.rs:135-140 | what such an exact state lists |
| `RefundCursor.RefundCandidates` | crates/bridge-core/src/backend.rs:228-246 | a file-mode page is the keyset page of the folded, sorted ids |
| `RefundCursor.FileQueueAscendsIff` | crates/bridge-core/src/backend.rs:234-238 | the file-mode queue is strictly ascending exactly when no two ids fold to one text |
| `RefundCursor.FilePagesServe` | crates/bridge-core/src/backend.rs:228-246 | the file-mode pages, which fold the cursor again, serve the walk of that queue when folding twice is folding once |
| `RefundCursor.Cursor.Walk` | crates/bridge-core/src/backend.rs:72-92 | the page loop computes the specified walk and cursor |
| `RefundCursor.TickIsSlice` | crates/bridge-core/src/backend.rs:72-92 | an error-free tick returns the next 10000 rows, or all that are left and wraps |
| `RefundCursor.WalksAreTicks` | crates/bridge-core/src/backend.rs:72-92 | successive error-free ticks leave the cursor at, and return the rows of, the positions counted by the lemmas below |
| `RefundCursor.LapIsTheQueue` | crates/bridge-core/src/backend.rs:40-51 | from the head successive ticks return every row exactly once, in order, within `ceil(L / 10000)` ticks, then wrap |
| `RefundCursor.EveryRowWithin` | crates/bridge-core/src/backend.rs:40-51 | from any position with `T` rows left, `floor(T / 10000) + 1 + ceil(L / 10000)` ticks return the rest and then the whole queue |
| `RefundCursor.AllReturnedIff` | crates/bridge-core/src/backend.rs:40-51 | the exact number of ticks after which every row has been returned |
| `RefundCursor.FullTickThenEmpty` | crates/bridge-core/src/backend.rs:46-51 | two ticks over a queue of one full tick: the first returns it all, the second nothing, so the documented bound is missed |
| `RefundCursor.ErrorKeepsCursorIff` | crates/bridge-core/src/backend.rs:69-88 | after an error the cursor is where the tick found it if and only if the first page failed |
| `RateLimit.RateLimit.CheckAt` | crates/bridge-core/src/ratelimit.rs:92-136 | sweep, refill and spend are those of the specification |
| `RateLimit.CheckStaysBounded` | crates/bridge-core/src/ratelimit.rs:97-120 | no call takes the map above 4096 buckets |
| `RateLimit.RunStaysBounded` | crates/bridge-core/src/ratelimit.rs:45-51 | nor does any run |
| `RateLimit.SweepDropsTheRefilled` | crates/bridge-core/src/ratelimit.rs:97-105 | at 4096 buckets a sweep keeps only buckets that have not refilled, and all of those if they are fewer than 4096; below that it keeps everything |
| `RateLimit.SweepKeepsTheLatest` | crates/bridge-core/src/ratelimit.rs:97-120 | Link: a bucket used no earlier than one that survives the sweep survives it, unchanged |
| `RateLimit.EvictionKeepsTheNewerHalf` | crates/bridge-core/src/ratelimit.rs:112-120 | of `n` buckets with different times the eviction by age keeps the `n - n / 2 - 1` used last |
| `RateLimit.GrantedIff` | crates/bridge-core/src/ratelimit.rs:92-136 | a call is granted if and only if, counted from every earlier call on, the grants and one more stay within the burst and what was earned since; so a caller within its rate is never refused and one beyond it always is |
| `RateLimit.WindowBound` | crates/bridge-core/src/ratelimit.rs:92-136 | after any run from an empty limiter, in any window, a key is granted at most the burst plus what the window's length earns, while its bucket is not evicted by age |
| `RateLimit.RunSettles` | crates/bridge-core/src/ratelimit.rs:92-136 | in every state a run reaches, each bucket holds between nothing and the burst and was last used in the past |
| `RateLimit.LimitsAreSane` | crates/bridge-core/src/ratelimit.rs:79-87 | Link: what the constructor's clamped burst and rate earn, and that at least one token fits |
| `RateLimit.SweepNeverChangesDecision` | crates/bridge-core/src/ratelimit.rs:97-105 | while a key is not evicted by age, every call is decided as by a limiter that never sweeps |
| `Scale.ParseWholeIff` | crates/keeper/src/config.rs:165-172 | which texts are accepted, and as which parts |
| `Scale.ScaledMinimumIff` | crates/keeper/src/config.rs:174-185 | the result is the ceiling of value times 10^decimals, absent exactly when 10^decimals or that ceiling does not fit a `u128` |

## Left out

- keccak and curve arithmetic: parameters, under the assumptions above.
- Gate.SolanaGate.Send: does not model the overflow of the vault addition or of the nonce; it assumes a nonce below 2^64, and balances are mathematical integers.
- The contracts' governance, pause and registries, their local-decimals scaling and fee-on-transfer checks; the router and pool contracts; the Solana account programs around the in-memory gate. Chain ids and nonces are `u64` on every gate.
- Library parsing beyond plain hex and plain decimal (radix prefixes and separators in `U256::from_str`, the alloy ABI decoder): parameters of `RecordText`.
- AbiCodec.DecodesIff: adds `at + 32` over unbounded integers; in the source that sum can overflow for an offset word within 32 of 2^64, which a release build refuses as this model does and a build with overflow checks traps.
- I/O errors, JSON, HTTP routes and authorisation of the stores; the bridge-db copy of the signature tables and its validator-set exemption from the cap.
- `gc_parked_markers`, `note_keeper_claim` and the finalize tables of the lifecycle database.
- Pipeline.InterleavedLoopsEndInOrder: counts the logs that handlers acknowledged; a write that lands although its handler reports an error is not modelled.
- LifecycleRace.ReportLostIff: for a cancel or a refund, assumes that no report of the other kind runs beside it at statement level; what such a pair can do is shown by one schedule only.
- Reorganisations deeper than the confirmation depth.
- TokenList.RunReplays: is about successive steps; which of the two lists, cached or freshly scanned, a request is served is left out.
- RateLimit.WindowBound: is over real numbers, without floating-point rounding; a key whose bucket the age-based step evicts is outside it, as it is outside `GrantedIff`.
- Saturating arithmetic at block numbers near 2^64.
- Quotes and prices of the swap pool, resolvers, pagination and the upstream meter.
- The lookup of a minimum claim by asset, and the rest of the configuration checks, which would add only easy members.
