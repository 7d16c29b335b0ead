/**
 The file-backed signature store: one record per spelling of a submission id,
 with a bucket of signatures for each of the three votes. Callers are untrusted:
 what is stored must be bound to its id, and every signature to its signer and digest.
 */
module Store {
  import opened RecordText
  import opened SubmissionHash
  import opened Words
  import V = Verify

  const MAX_SIGNATURES_PER_SUBMISSION := 64
  const MAX_AUTO_PARAMS_BYTES := 32768
  const MAX_UINT256_DECIMAL_LEN := 78

  datatype StoreError =
    | BadFieldError(name: string) | IdMismatch | ParamsConflict | BadSignature | SignerMismatch | TokenMismatch
    | TooManySignatures(kind: Vote)
  datatype StoreResult<+T> = Done(value: T) | Refused(error: StoreError)

  /** The libraries the store relies on: those of the record text, and curve recovery. */
  datatype Env = Env(lib: Library, recovery: V.Recovery)

  // ----- signatures -----

  /** The parity a recovery byte stands for: 0/1, 27/28, or the EIP-155 form. */
  function Parity(v: byte): Option<byte> {
    if v == 0 || v == 27 then Some(0)
    else if v == 1 || v == 28 then Some(1)
    else if v >= 35 then Some((v - 35) % 2)
    else None
  }

  /** The low-`s`, 27/28 encoding of a raw signature. */
  function CanonicalRaw(raw: Bytes): Option<Bytes> {
    if |raw| != 65 || Parity(raw[64]).None? then None
    else V.Canonical(raw[..64] + [27 + Parity(raw[64]).value])
  }

  /** Who signed `message` under EIP-191, through the canonical encoding. */
  function RecoverFromMessage(env: Env, message: Bytes32, raw: Bytes): Option<Address> {
    match CanonicalRaw(raw)
    case None => None
    case Some(c) =>
      match V.RecoverEvmAddress(env.recovery, EthSignedDigest(env.lib.keccak, message), c)
      case Err(_) => None
      case Ok(a) => Some(a)
  }

  function VerifySignature(env: Env, message: Bytes32, sig: SignerSig): StoreResult<Address> {
    if ParseFixed(sig.signer, 20).None? then Refused(BadFieldError("signer"))
    else if HexBytes(sig.signature).None? then Refused(BadFieldError("signature"))
    else match RecoverFromMessage(env, message, HexBytes(sig.signature).value)
      case None => Refused(BadSignature)
      case Some(a) => if a == ParseFixed(sig.signer, 20).value then Done(a) else Refused(SignerMismatch)
  }

  function CanonicalSignature(sig: SignerSig): StoreResult<SignerSig> {
    if HexBytes(sig.signature).None? then Refused(BadFieldError("signature"))
    else match CanonicalRaw(HexBytes(sig.signature).value)
      case None => Refused(BadSignature)
      case Some(c) => Done(sig.(signature := Hex0x(c)))
  }

  // ----- the checks in front of the store -----

  predicate IsValidSubmissionId(s: string) {
    var t := StripPrefix(s);
    |t| == 64 && forall i :: 0 <= i < |t| ==> HexValue(t[i]).Some?
  }

  predicate BoundedHex(s: string, maxBytes: nat) {
    |StripPrefix(s)| <= 2 * maxBytes
  }

  /** The first field that is too large, if any. */
  function Oversized(r: Record): Option<string> {
    if !BoundedHex(r.receiver, MAX_ACCOUNT_BYTES) then Some("receiver")
    else if !BoundedHex(r.nativeSender, MAX_ACCOUNT_BYTES) then Some("native_sender")
    else if !BoundedHex(r.autoParams, MAX_AUTO_PARAMS_BYTES) then Some("auto_params")
    else if !BoundedHex(r.bridgeDomain, 32) then Some("bridge_domain")
    else if !BoundedHex(r.debridgeId, 32) then Some("debridge_id")
    else if !BoundedHex(r.token, 20) then Some("token")
    else if |r.amount| > MAX_UINT256_DECIMAL_LEN then Some("amount")
    else None
  }

  /** An empty token is "not recorded"; any other must hash to the record's asset. */
  function TokenBinding(env: Env, r: Record): Option<StoreError> {
    if r.token == [] then None
    else if ParseFixed(r.token, 20).None? then Some(BadFieldError("token"))
    else if ParseFixed(r.debridgeId, 32).None? then Some(BadFieldError("debridge_id"))
    else if env.lib.keccak(ToBe(r.chainIdFrom, 32) + ParseFixed(r.token, 20).value) != ParseFixed(r.debridgeId, 32).value
      then Some(TokenMismatch)
    else None
  }

  function IdBinding(env: Env, r: Record): StoreResult<Bytes32> {
    match CanonicalSubmissionId(env.lib, r)
    case BadField(name) => Refused(BadFieldError(name))
    case Ok(id) =>
      if ParseFixed(r.submissionId, 32).None? then Refused(BadFieldError("submission_id"))
      else if id != ParseFixed(r.submissionId, 32).value then Refused(IdMismatch)
      else Done(id)
  }

  /** Everything `upsert_signature` checks before it looks at the files; the signature as it will be stored. */
  function Admit(env: Env, r: Record, sig: SignerSig): StoreResult<SignerSig> {
    if !IsValidSubmissionId(r.submissionId) then Refused(BadFieldError("submission_id"))
    else if Oversized(r).Some? then Refused(BadFieldError(Oversized(r).value))
    else match IdBinding(env, r)
      case Refused(e) => Refused(e)
      case Done(id) =>
        match VerifySignature(env, id, sig)
        case Refused(e) => Refused(e)
        case Done(_) =>
          match CanonicalSignature(sig)
          case Refused(e) => Refused(e)
          case Done(c) => if TokenBinding(env, r).Some? then Refused(TokenBinding(env, r).value) else Done(c)
  }

  predicate SameText(a: string, b: string) {
    Fold(a) == Fold(b)
  }

  predicate SameParams(a: Record, b: Record) {
    && SameText(a.submissionId, b.submissionId) && SameText(a.debridgeId, b.debridgeId) && a.amount == b.amount
    && a.chainIdFrom == b.chainIdFrom && a.chainIdTo == b.chainIdTo && a.nonce == b.nonce
    && SameText(a.receiver, b.receiver) && SameText(a.autoParams, b.autoParams)
    && SameText(a.nativeSender, b.nativeSender)
  }

  // ----- buckets -----

  predicate HasSigner(bucket: seq<SignerSig>, signer: string) {
    exists i :: 0 <= i < |bucket| && SameText(bucket[i].signer, signer)
  }

  /** The bucket with the signature merged in, or `None` when it is full and the signer new. */
  function PushCapped(bucket: seq<SignerSig>, sig: SignerSig): Option<seq<SignerSig>> {
    if HasSigner(bucket, sig.signer) then Some(bucket)
    else if |bucket| >= MAX_SIGNATURES_PER_SUBMISSION then None
    else Some(bucket + [sig])
  }

  function BucketOf(r: Record, kind: Vote): seq<SignerSig> {
    match kind
    case Transfer => r.signatures
    case Cancel => r.cancelSignatures
    case Refund => r.refundSignatures
  }

  function WithBucket(r: Record, kind: Vote, bucket: seq<SignerSig>): Record {
    match kind
    case Transfer => r.(signatures := bucket)
    case Cancel => r.(cancelSignatures := bucket)
    case Refund => r.(refundSignatures := bucket)
  }

  // ----- the two operations -----

  type Files = map<string, Record>

  /** The record that is written, before the signature is pushed: a stored one keeps its lists and its token. */
  function Merged(files: Files, r: Record): Option<Record> {
    var key := StripPrefix(r.submissionId);
    if key !in files then Some(r)
    else
      var e := files[key];
      if !SameParams(e, r) then None
      else Some(r.(signatures := e.signatures, cancelSignatures := e.cancelSignatures,
                   refundSignatures := e.refundSignatures, token := if e.token != [] then e.token else r.token))
  }

  function UpsertEffect(env: Env, files: Files, r: Record, sig: SignerSig): (Files, StoreResult<Record>) {
    match Admit(env, r, sig)
    case Refused(e) => (files, Refused(e))
    case Done(c) =>
      match Merged(files, r)
      case None => (files, Refused(ParamsConflict))
      case Some(m) =>
        match PushCapped(m.signatures, c)
        case None => (files, Refused(TooManySignatures(Transfer)))
        case Some(bucket) =>
          var stored := m.(signatures := bucket);
          (files[StripPrefix(r.submissionId) := stored], Done(stored))
  }

  function AttestEffect(env: Env, files: Files, id: string, kind: Vote, sig: SignerSig): (Files, StoreResult<Record>) {
    var key := StripPrefix(id);
    if !IsValidSubmissionId(id) || key !in files then (files, Refused(BadFieldError("submission_id")))
    else
      var r := files[key];
      match ParseFixed(r.submissionId, 32)
      case None => (files, Refused(BadFieldError("submission_id")))
      case Some(hash) =>
        match VerifySignature(env, VoteMessage(env.lib.keccak, kind, hash), sig)
        case Refused(e) => (files, Refused(e))
        case Done(_) =>
          match CanonicalSignature(sig)
          case Refused(e) => (files, Refused(e))
          case Done(c) =>
            match PushCapped(BucketOf(r, kind), c)
            case None => (files, Refused(TooManySignatures(kind)))
            case Some(bucket) =>
              var stored := WithBucket(r, kind, bucket);
              (files[key := stored], Done(stored))
  }

  class FileStore {
    const env: Env
    var files: Files

    constructor (env: Env)
      ensures this.env == env && files == map[]
    {
      this.env, files := env, map[];
    }

    method UpsertSignature(record: Record, sig: SignerSig) returns (r: StoreResult<Record>)
      modifies this
      ensures (files, r) == UpsertEffect(env, old(files), record, sig)
    {
      var admitted := Admit(env, record, sig);
      if admitted.Refused? {
        return Refused(admitted.error);
      }
      var path := StripPrefix(record.submissionId);
      var written := record;
      if path in files {
        var existing := files[path];
        if !SameParams(existing, record) {
          return Refused(ParamsConflict);
        }
        written := written.(signatures := existing.signatures);
        written := written.(cancelSignatures := existing.cancelSignatures);
        written := written.(refundSignatures := existing.refundSignatures);
        if existing.token != [] {
          written := written.(token := existing.token);
        }
      }
      var pushed := PushCapped(written.signatures, admitted.value);
      if pushed.None? {
        return Refused(TooManySignatures(Transfer));
      }
      written := written.(signatures := pushed.value);
      files := files[path := written];
      return Done(written);
    }

    method UpsertAttestation(id: string, kind: Vote, sig: SignerSig) returns (r: StoreResult<Record>)
      modifies this
      ensures (files, r) == AttestEffect(env, old(files), id, kind, sig)
    {
      var path := StripPrefix(id);
      if !IsValidSubmissionId(id) || path !in files {
        return Refused(BadFieldError("submission_id"));
      }
      var record := files[path];
      var hash := ParseFixed(record.submissionId, 32);
      if hash.None? {
        return Refused(BadFieldError("submission_id"));
      }
      var verified := VerifySignature(env, VoteMessage(env.lib.keccak, kind, hash.value), sig);
      if verified.Refused? {
        return Refused(verified.error);
      }
      var canonical := CanonicalSignature(sig);
      if canonical.Refused? {
        return Refused(canonical.error);
      }
      var pushed := PushCapped(BucketOf(record, kind), canonical.value);
      if pushed.None? {
        return Refused(TooManySignatures(kind));
      }
      record := WithBucket(record, kind, pushed.value);
      files := files[path := record];
      return Done(record);
    }
  }

  // ----- what is stored is good -----

  /** Curve recovery accepts only 64 bytes whose `s` lies strictly between 0 and the group order. */
  ghost predicate StrictRecovery(recovery: V.Recovery) {
    forall digest, rs, parity :: recovery(digest, rs, parity).Some? ==>
      |rs| == 64 && 0 < FromBe(rs[32..64]) < V.GROUP_ORDER
  }

  /** The stored bytes are what a gate accepts for this signer and message: low `s`, `v` in {27, 28}. */
  ghost predicate EntryGood(env: Env, message: Bytes32, sig: SignerSig) {
    && ParseFixed(sig.signer, 20).Some? && HexBytes(sig.signature).Some?
    && var c := HexBytes(sig.signature).value;
       && |c| == 65 && V.ScalarS(c) <= V.GROUP_ORDER / 2
       && V.RecoverEvmAddress(env.recovery, EthSignedDigest(env.lib.keccak, message), c)
          == V.Ok(ParseFixed(sig.signer, 20).value)
  }

  predicate DistinctSigners(bucket: seq<SignerSig>) {
    forall i, j :: 0 <= i < j < |bucket| ==> !SameText(bucket[i].signer, bucket[j].signer)
  }

  ghost predicate BucketGood(env: Env, message: Bytes32, bucket: seq<SignerSig>) {
    && (forall i :: 0 <= i < |bucket| ==> EntryGood(env, message, bucket[i]))
    && DistinctSigners(bucket) && |bucket| <= 64
  }

  /** Every bucket holds only signatures of its own vote on `id`. */
  ghost predicate BucketsGood(env: Env, id: Bytes32, r: Record) {
    forall kind: Vote :: BucketGood(env, VoteMessage(env.lib.keccak, kind, id), BucketOf(r, kind))
  }

  /** The record's text denotes a transfer, the id it carries is that transfer's, and it sits under that id. */
  predicate Bound(env: Env, key: string, r: Record) {
    && key == StripPrefix(r.submissionId)
    && SubmissionOfRecord(env.lib, r).Ok?
    && |SubmissionOfRecord(env.lib, r).value.receiver| <= MAX_ACCOUNT_BYTES
    && ParseFixed(r.submissionId, 32) == Some(SubmissionId(env.lib.keccak, SubmissionOfRecord(env.lib, r).value))
  }

  ghost predicate RecordGood(env: Env, key: string, r: Record) {
    && Bound(env, key, r)
    && BucketsGood(env, ParseFixed(r.submissionId, 32).value, r)
  }

  ghost predicate Inv(env: Env, files: Files) {
    forall key :: key in files ==> RecordGood(env, key, files[key])
  }

  /** Lowering `s` yields a recoverable scalar only from a scalar in range, and then it is low. */
  lemma RecoveredIsLow(env: Env, digest: Bytes32, sig65: Bytes)
    requires StrictRecovery(env.recovery) && V.Canonical(sig65).Some?
    requires V.RecoverEvmAddress(env.recovery, digest, V.Canonical(sig65).value).Ok?
    ensures V.ScalarS(V.Canonical(sig65).value) <= V.GROUP_ORDER / 2
  {
    var c := V.Canonical(sig65).value;
    assert c[..64][32..64] == c[32..64];
    assert 0 < V.ScalarS(c) < V.GROUP_ORDER;
    if V.ScalarS(sig65) > V.GROUP_ORDER {
      V.CanonicalOfOversized(sig65);
    } else {
      V.CanonicalParts(sig65);
      var s := V.ScalarS(sig65);
      var w := if s > V.GROUP_ORDER / 2 then V.GROUP_ORDER - s else s;
      V.OrderBytes();
      FromBeToBe(w, 32);
      assert c[32..64] == ToBe(w, 32);
    }
  }

  lemma RecoveredRawIsGood(env: Env, message: Bytes32, raw: Bytes)
    requires StrictRecovery(env.recovery) && RecoverFromMessage(env, message, raw).Some?
    ensures CanonicalRaw(raw).Some?
    ensures var c := CanonicalRaw(raw).value;
            && |c| == 65 && V.ScalarS(c) <= V.GROUP_ORDER / 2
            && V.RecoverEvmAddress(env.recovery, EthSignedDigest(env.lib.keccak, message), c)
               == V.Ok(RecoverFromMessage(env, message, raw).value)
  {
    RecoveredIsLow(env, EthSignedDigest(env.lib.keccak, message), raw[..64] + [27 + Parity(raw[64]).value]);
  }

  /** A verified signature, re-encoded, is a good entry. */
  lemma VerifiedEntryIsGood(env: Env, message: Bytes32, sig: SignerSig)
    requires StrictRecovery(env.recovery) && VerifySignature(env, message, sig).Done?
    ensures CanonicalSignature(sig).Done?
    ensures CanonicalSignature(sig).value.signer == sig.signer
    ensures EntryGood(env, message, CanonicalSignature(sig).value)
  {
    var raw := HexBytes(sig.signature).value;
    RecoveredRawIsGood(env, message, raw);
    var c := CanonicalRaw(raw).value;
    Hex0xRoundTrip(c);
    assert CanonicalSignature(sig) == Done(sig.(signature := Hex0x(c)));
  }

  lemma AppendKeepsDistinct(bucket: seq<SignerSig>, sig: SignerSig)
    requires DistinctSigners(bucket) && !HasSigner(bucket, sig.signer)
    ensures DistinctSigners(bucket + [sig])
  {
    var r := bucket + [sig];
    forall i, j | 0 <= i < j < |r| ensures !SameText(r[i].signer, r[j].signer) {
      assert r[i] == bucket[i];
      if j < |bucket| {
        assert !SameText(bucket[i].signer, bucket[j].signer);
      }
    }
  }

  lemma PushKeepsGood(env: Env, message: Bytes32, bucket: seq<SignerSig>, sig: SignerSig)
    requires BucketGood(env, message, bucket) && EntryGood(env, message, sig) && PushCapped(bucket, sig).Some?
    ensures BucketGood(env, message, PushCapped(bucket, sig).value)
    ensures bucket <= PushCapped(bucket, sig).value
  {
    if !HasSigner(bucket, sig.signer) {
      AppendKeepsDistinct(bucket, sig);
      forall i | 0 <= i < |bucket + [sig]| ensures EntryGood(env, message, (bucket + [sig])[i]) {
        assert i == |bucket| || (bucket + [sig])[i] == bucket[i];
      }
    }
  }

  lemma OversizedReceiver(env: Env, r: Record)
    requires Oversized(r).None? && SubmissionOfRecord(env.lib, r).Ok?
    ensures |SubmissionOfRecord(env.lib, r).value.receiver| <= MAX_ACCOUNT_BYTES
  {
    DecodedTextIsEncoding(StripPrefix(r.receiver));
  }

  lemma AdmittedPassedAll(env: Env, r: Record, sig: SignerSig)
    requires Admit(env, r, sig).Done?
    ensures Oversized(r).None? && IdBinding(env, r).Done?
    ensures VerifySignature(env, IdBinding(env, r).value, sig).Done?
    ensures CanonicalSignature(sig) == Admit(env, r, sig)
    ensures IsValidSubmissionId(r.submissionId) && TokenBinding(env, r).None?
  {
  }

  lemma PassingAllIsAdmitted(env: Env, r: Record, sig: SignerSig)
    requires IsValidSubmissionId(r.submissionId) && Oversized(r).None? && IdBinding(env, r).Done?
    requires VerifySignature(env, IdBinding(env, r).value, sig).Done? && CanonicalSignature(sig).Done?
    requires TokenBinding(env, r).None?
    ensures Admit(env, r, sig) == CanonicalSignature(sig)
  {
  }

  lemma BindingIsBound(env: Env, r: Record)
    requires Oversized(r).None? && IdBinding(env, r).Done?
    ensures Bound(env, StripPrefix(r.submissionId), r)
    ensures ParseFixed(r.submissionId, 32) == Some(IdBinding(env, r).value)
  {
    OversizedReceiver(env, r);
  }

  /** What admission establishes. */
  lemma AdmittedIsBound(env: Env, r: Record, sig: SignerSig)
    requires StrictRecovery(env.recovery) && Admit(env, r, sig).Done?
    ensures Bound(env, StripPrefix(r.submissionId), r)
    ensures EntryGood(env, ParseFixed(r.submissionId, 32).value, Admit(env, r, sig).value)
    ensures Admit(env, r, sig).value.signer == sig.signer
  {
    AdmittedPassedAll(env, r, sig);
    BindingIsBound(env, r);
    VerifiedEntryIsGood(env, IdBinding(env, r).value, sig);
  }

  /** Lists and token are outside what the id binds. */
  lemma BindingIgnoresLists(env: Env, key: string, r: Record, a: seq<SignerSig>, b: seq<SignerSig>, c: seq<SignerSig>,
                            token: string)
    requires Bound(env, key, r)
    ensures var q := r.(signatures := a, cancelSignatures := b, refundSignatures := c, token := token);
            && Bound(env, key, q) && q.submissionId == r.submissionId
            && SubmissionOfRecord(env.lib, q) == SubmissionOfRecord(env.lib, r)
  {
  }

  /** What an accepted upsert writes: the merged record with the checked signature pushed. */
  lemma UpsertWrites(env: Env, files: Files, r: Record, sig: SignerSig) returns (m: Record, c: SignerSig)
    requires StrictRecovery(env.recovery) && UpsertEffect(env, files, r, sig).1.Done?
    ensures Bound(env, StripPrefix(r.submissionId), r) && EntryGood(env, ParseFixed(r.submissionId, 32).value, c)
    ensures Merged(files, r) == Some(m) && PushCapped(m.signatures, c).Some?
    ensures UpsertEffect(env, files, r, sig).0
            == files[StripPrefix(r.submissionId) := WithBucket(m, Transfer, PushCapped(m.signatures, c).value)]
  {
    AdmittedIsBound(env, r, sig);
    c := Admit(env, r, sig).value;
    m := Merged(files, r).value;
  }

  /** What an accepted attestation writes. */
  lemma AttestWrites(env: Env, files: Files, id: string, kind: Vote, sig: SignerSig) returns (c: SignerSig)
    requires StrictRecovery(env.recovery) && AttestEffect(env, files, id, kind, sig).1.Done?
    ensures StripPrefix(id) in files
    ensures var r := files[StripPrefix(id)];
            && ParseFixed(r.submissionId, 32).Some?
            && EntryGood(env, VoteMessage(env.lib.keccak, kind, ParseFixed(r.submissionId, 32).value), c)
            && PushCapped(BucketOf(r, kind), c).Some?
            && AttestEffect(env, files, id, kind, sig).0
               == files[StripPrefix(id) := WithBucket(r, kind, PushCapped(BucketOf(r, kind), c).value)]
  {
    var hash := ParseFixed(files[StripPrefix(id)].submissionId, 32).value;
    VerifiedEntryIsGood(env, VoteMessage(env.lib.keccak, kind, hash), sig);
    c := CanonicalSignature(sig).value;
  }

  lemma WithBucketStaysBound(env: Env, key: string, r: Record, kind: Vote, bucket: seq<SignerSig>)
    requires Bound(env, key, r)
    ensures var q := WithBucket(r, kind, bucket);
            && Bound(env, key, q) && q.submissionId == r.submissionId
            && SubmissionOfRecord(env.lib, q) == SubmissionOfRecord(env.lib, r)
  {
    var q := WithBucket(r, kind, bucket);
    BindingIgnoresLists(env, key, r, q.signatures, q.cancelSignatures, q.refundSignatures, q.token);
  }

  /** A merged record is bound like the incoming one, and has the lists of the stored one. */
  lemma MergedStaysBound(env: Env, files: Files, r: Record)
    requires Bound(env, StripPrefix(r.submissionId), r) && Merged(files, r).Some?
    ensures var (key, m) := (StripPrefix(r.submissionId), Merged(files, r).value);
            && Bound(env, key, m) && m.submissionId == r.submissionId
            && SubmissionOfRecord(env.lib, m) == SubmissionOfRecord(env.lib, r)
            && (key in files ==> forall kind: Vote :: BucketOf(m, kind) == BucketOf(files[key], kind))
            && (key in files && files[key].token != [] ==> m.token == files[key].token)
            && (key !in files ==> m == r)
  {
    var m := Merged(files, r).value;
    BindingIgnoresLists(env, StripPrefix(r.submissionId), r, m.signatures, m.cancelSignatures, m.refundSignatures, m.token);
  }

  /** Two records in one file have the same id. */
  lemma SameFileSameId(env: Env, key: string, e: Record, r: Record)
    requires Bound(env, key, e) && Bound(env, key, r)
    ensures ParseFixed(e.submissionId, 32) == ParseFixed(r.submissionId, 32)
  {
    SameBytesIffSameFold(StripPrefix(e.submissionId), StripPrefix(r.submissionId));
  }

  /** Writing a bound record keeps a good store good exactly when its buckets are good. */
  lemma WriteKeepsInvIff(env: Env, files: Files, key: string, stored: Record)
    requires Inv(env, files) && Bound(env, key, stored)
    ensures Inv(env, files[key := stored]) <==> BucketsGood(env, ParseFixed(stored.submissionId, 32).value, stored)
  {
    var after := files[key := stored];
    assert key in after && after[key] == stored;
    forall k | k in after && k != key ensures k in files && after[k] == files[k] {
    }
  }

  /**
   A store of good records stays good over `upsert_signature`, if and only if a
   record inserted for the first time brings good signature lists, as every
   caller's empty lists are.
   */
  lemma UpsertKeepsInvIff(env: Env, files: Files, r: Record, sig: SignerSig)
    requires StrictRecovery(env.recovery) && Inv(env, files)
    requires UpsertEffect(env, files, r, sig).1.Done?
    ensures var key, id := StripPrefix(r.submissionId), ParseFixed(r.submissionId, 32);
            && id.Some?
            && (Inv(env, UpsertEffect(env, files, r, sig).0) <==> key in files || BucketsGood(env, id.value, r))
  {
    var key := StripPrefix(r.submissionId);
    var m, c := UpsertWrites(env, files, r, sig);
    var id := ParseFixed(r.submissionId, 32).value;
    MergedStaysBound(env, files, r);
    WithBucketStaysBound(env, key, m, Transfer, PushCapped(m.signatures, c).value);
    WriteKeepsInvIff(env, files, key, WithBucket(m, Transfer, PushCapped(m.signatures, c).value));
    if key in files {
      SameFileSameId(env, key, files[key], r);
      BucketsAfterPush(env, id, files[key], m, c, Transfer);
    } else {
      PushKeepsBucketsIff(env, id, r, c);
    }
  }

  lemma PushKeepsBucketsIff(env: Env, id: Bytes32, m: Record, c: SignerSig)
    requires EntryGood(env, id, c) && PushCapped(m.signatures, c).Some?
    ensures BucketsGood(env, id, WithBucket(m, Transfer, PushCapped(m.signatures, c).value)) <==> BucketsGood(env, id, m)
  {
    if BucketsGood(env, id, m) {
      BucketsAfterPush(env, id, m, m, c, Transfer);
    } else if BucketsGood(env, id, WithBucket(m, Transfer, PushCapped(m.signatures, c).value)) {
      BucketsBeforePush(env, id, m, c);
    }
  }

  /** Pushing a good entry into one bucket keeps all three good. */
  lemma BucketsAfterPush(env: Env, id: Bytes32, before: Record, m: Record, c: SignerSig, kind: Vote)
    requires BucketsGood(env, id, before)
    requires forall k :: BucketOf(m, k) == BucketOf(before, k)
    requires EntryGood(env, VoteMessage(env.lib.keccak, kind, id), c) && PushCapped(BucketOf(m, kind), c).Some?
    ensures BucketsGood(env, id, WithBucket(m, kind, PushCapped(BucketOf(m, kind), c).value))
  {
    PushKeepsGood(env, VoteMessage(env.lib.keccak, kind, id), BucketOf(before, kind), c);
  }

  /** Conversely, what was pushed into must have been good. */
  lemma BucketsBeforePush(env: Env, id: Bytes32, m: Record, c: SignerSig)
    requires PushCapped(m.signatures, c).Some?
    requires BucketsGood(env, id, m.(signatures := PushCapped(m.signatures, c).value))
    ensures BucketsGood(env, id, m)
  {
    var after := m.(signatures := PushCapped(m.signatures, c).value);
    forall kind: Vote ensures BucketGood(env, VoteMessage(env.lib.keccak, kind, id), BucketOf(m, kind)) {
      assert BucketGood(env, VoteMessage(env.lib.keccak, kind, id), BucketOf(after, kind));
      forall i | 0 <= i < |BucketOf(m, kind)| ensures BucketOf(m, kind)[i] == BucketOf(after, kind)[i] {
      }
    }
  }

  lemma AttestKeepsInv(env: Env, files: Files, id: string, kind: Vote, sig: SignerSig)
    requires StrictRecovery(env.recovery) && Inv(env, files)
    ensures Inv(env, AttestEffect(env, files, id, kind, sig).0)
  {
    if AttestEffect(env, files, id, kind, sig).1.Done? {
      var key := StripPrefix(id);
      var r := files[key];
      var c := AttestWrites(env, files, id, kind, sig);
      BucketsAfterPush(env, ParseFixed(r.submissionId, 32).value, r, r, c, kind);
      WithBucketStaysBound(env, key, r, kind, PushCapped(BucketOf(r, kind), c).value);
      WriteKeepsInvIff(env, files, key, WithBucket(r, kind, PushCapped(BucketOf(r, kind), c).value));
    }
  }

  // ----- what is stored is never lost -----

  /** `after` denotes the same transfer as `before`, in texts that differ at most in case, and has all it had. */
  ghost predicate Extends(env: Env, before: Record, after: Record) {
    && SubmissionOfRecord(env.lib, before) == SubmissionOfRecord(env.lib, after)
    && SameParams(before, after)
    && (before.token != [] ==> after.token == before.token)
    && forall kind: Vote :: BucketOf(before, kind) <= BucketOf(after, kind)
  }

  /** Every record is still there, and extended at most. */
  ghost predicate Grows(env: Env, before: Files, after: Files) {
    forall key :: key in before ==> key in after && Extends(env, before[key], after[key])
  }

  /** The hashed strings of a record's transfer are among those assumed collision free. */
  ghost predicate Hashed(env: Env, P: set<Bytes>, r: Record) {
    SubmissionOfRecord(env.lib, r).Ok? ==> HashedFor(env.lib.keccak, SubmissionOfRecord(env.lib, r).value) <= P
  }

  /**
   Although the parameter comparison skips the domain and the scale, the id
   binding fixes them: two bound records in one file denote the same transfer.
   */
  lemma SameFileSameTransfer(env: Env, P: set<Bytes>, key: string, e: Record, r: Record)
    requires CollisionFree(env.lib.keccak, P) && Hashed(env, P, e) && Hashed(env, P, r)
    requires Bound(env, key, e) && Bound(env, key, r)
    ensures SubmissionOfRecord(env.lib, e) == SubmissionOfRecord(env.lib, r)
  {
    SameFileSameId(env, key, e, r);
    SubmissionIdInjective(env.lib.keccak, P, SubmissionOfRecord(env.lib, e).value, SubmissionOfRecord(env.lib, r).value);
  }

  ghost predicate AllHashed(env: Env, P: set<Bytes>, files: Files) {
    forall key :: key in files ==> Hashed(env, P, files[key])
  }

  lemma WriteGrows(env: Env, P: set<Bytes>, files: Files, key: string, stored: Record)
    requires AllHashed(env, P, files) && Hashed(env, P, stored)
    requires key in files ==> Extends(env, files[key], stored)
    ensures Grows(env, files, files[key := stored]) && AllHashed(env, P, files[key := stored])
  {
  }

  lemma NothingWrittenGrows(env: Env, files: Files)
    ensures Grows(env, files, files)
  {
  }

  lemma UpsertGrows(env: Env, P: set<Bytes>, files: Files, r: Record, sig: SignerSig)
    requires StrictRecovery(env.recovery) && Inv(env, files) && CollisionFree(env.lib.keccak, P)
    requires Hashed(env, P, r) && AllHashed(env, P, files)
    ensures Grows(env, files, UpsertEffect(env, files, r, sig).0)
    ensures AllHashed(env, P, UpsertEffect(env, files, r, sig).0)
  {
    NothingWrittenGrows(env, files);
    if UpsertEffect(env, files, r, sig).1.Done? {
      var key := StripPrefix(r.submissionId);
      var m, c := UpsertWrites(env, files, r, sig);
      var bucket := PushCapped(m.signatures, c).value;
      MergedStaysBound(env, files, r);
      if key in files {
        SameFileSameTransfer(env, P, key, files[key], r);
      }
      BucketExtends(env, P, key, if key in files then files[key] else m, m, Transfer, bucket);
      WriteGrows(env, P, files, key, WithBucket(m, Transfer, bucket));
    }
  }

  /** Growing one bucket of a record that extends `before` extends `before`. */
  lemma BucketExtends(env: Env, P: set<Bytes>, key: string, before: Record, m: Record, kind: Vote, bucket: seq<SignerSig>)
    requires Bound(env, key, m) && Hashed(env, P, m) && Extends(env, before, m) && BucketOf(m, kind) <= bucket
    ensures Extends(env, before, WithBucket(m, kind, bucket)) && Hashed(env, P, WithBucket(m, kind, bucket))
  {
    WithBucketStaysBound(env, key, m, kind, bucket);
  }

  lemma AttestGrows(env: Env, P: set<Bytes>, files: Files, id: string, kind: Vote, sig: SignerSig)
    requires StrictRecovery(env.recovery) && Inv(env, files) && AllHashed(env, P, files)
    ensures Grows(env, files, AttestEffect(env, files, id, kind, sig).0)
    ensures AllHashed(env, P, AttestEffect(env, files, id, kind, sig).0)
  {
    if AttestEffect(env, files, id, kind, sig).1.Done? {
      var c := AttestWrites(env, files, id, kind, sig);
      AttestWriteGrows(env, P, files, StripPrefix(id), kind, c);
    } else {
      RefusedAttestWritesNothing(env, files, id, kind, sig);
      NothingWrittenGrows(env, files);
    }
  }

  lemma RefusedAttestWritesNothing(env: Env, files: Files, id: string, kind: Vote, sig: SignerSig)
    requires AttestEffect(env, files, id, kind, sig).1.Refused?
    ensures AttestEffect(env, files, id, kind, sig).0 == files
  {
  }

  lemma AttestWriteGrows(env: Env, P: set<Bytes>, files: Files, key: string, kind: Vote, c: SignerSig)
    requires Inv(env, files) && AllHashed(env, P, files) && key in files
    requires PushCapped(BucketOf(files[key], kind), c).Some?
    ensures var after := files[key := WithBucket(files[key], kind, PushCapped(BucketOf(files[key], kind), c).value)];
            Grows(env, files, after) && AllHashed(env, P, after)
  {
    var r := files[key];
    assert RecordGood(env, key, r);
    var bucket := PushCapped(BucketOf(r, kind), c).value;
    BucketExtends(env, P, key, r, r, kind, bucket);
    WriteGrows(env, P, files, key, WithBucket(r, kind, bucket));
  }

  // ----- every run -----

  datatype Op = Upsert(record: Record, sig: SignerSig) | Attest(id: string, kind: Vote, sig: SignerSig)

  function Apply(env: Env, files: Files, op: Op): Files {
    match op
    case Upsert(r, sig) => UpsertEffect(env, files, r, sig).0
    case Attest(id, kind, sig) => AttestEffect(env, files, id, kind, sig).0
  }

  function Run(env: Env, ops: seq<Op>): Files {
    if ops == [] then map[] else Apply(env, Run(env, ops[..|ops| - 1]), ops[|ops| - 1])
  }

  /** Callers submit records with empty lists, and no two different strings hashed on the way collide. */
  ghost predicate FairOps(env: Env, P: set<Bytes>, ops: seq<Op>) {
    forall i :: 0 <= i < |ops| && ops[i].Upsert? ==>
      && Hashed(env, P, ops[i].record)
      && ops[i].record.signatures == [] && ops[i].record.cancelSignatures == [] && ops[i].record.refundSignatures == []
  }

  lemma EmptyListsAreGood(env: Env, id: Bytes32, r: Record)
    requires r.signatures == [] && r.cancelSignatures == [] && r.refundSignatures == []
    ensures BucketsGood(env, id, r)
  {
  }

  lemma ApplyKeeps(env: Env, P: set<Bytes>, files: Files, op: Op)
    requires StrictRecovery(env.recovery) && CollisionFree(env.lib.keccak, P) && FairOps(env, P, [op])
    requires Inv(env, files) && AllHashed(env, P, files)
    ensures Inv(env, Apply(env, files, op)) && Grows(env, files, Apply(env, files, op))
    ensures AllHashed(env, P, Apply(env, files, op))
  {
    assert [op][0] == op;
    match op
    case Upsert(r, sig) =>
      UpsertGrows(env, P, files, r, sig);
      if UpsertEffect(env, files, r, sig).1.Done? {
        UpsertKeepsInvIff(env, files, r, sig);
        EmptyListsAreGood(env, ParseFixed(r.submissionId, 32).value, r);
      }
    case Attest(id, kind, sig) =>
      AttestKeepsInv(env, files, id, kind, sig);
      AttestGrows(env, P, files, id, kind, sig);
  }

  /**
   Over every run from an empty store: each record carries the id of its own
   parameters, and each bucket only canonical signatures verified under its own
   digest, at most 64, no signer text twice.
   */
  lemma {:induction false} RunKeepsInv(env: Env, P: set<Bytes>, ops: seq<Op>)
    requires StrictRecovery(env.recovery) && CollisionFree(env.lib.keccak, P) && FairOps(env, P, ops)
    ensures Inv(env, Run(env, ops))
    ensures AllHashed(env, P, Run(env, ops))
  {
    if ops != [] {
      var n := |ops| - 1;
      RunKeepsInv(env, P, ops[..n]);
      assert [ops[n]][0] == ops[n];
      ApplyKeeps(env, P, Run(env, ops[..n]), ops[n]);
    }
  }

  /** By name: in every run, each of a record's three lists holds good signatures of its own vote on its own transfer. */
  lemma RunBucketsByName(env: Env, P: set<Bytes>, ops: seq<Op>, key: string)
    requires StrictRecovery(env.recovery) && CollisionFree(env.lib.keccak, P) && FairOps(env, P, ops)
    requires key in Run(env, ops)
    ensures var r := Run(env, ops)[key];
            && SubmissionOfRecord(env.lib, r).Ok?
            && var id := SubmissionId(env.lib.keccak, SubmissionOfRecord(env.lib, r).value);
               && BucketGood(env, id, r.signatures)
               && BucketGood(env, CancelId(env.lib.keccak, id), r.cancelSignatures)
               && BucketGood(env, RefundId(env.lib.keccak, id), r.refundSignatures)
  {
    RunKeepsInv(env, P, ops);
    var r := Run(env, ops)[key];
    assert RecordGood(env, key, r);
    var id := SubmissionId(env.lib.keccak, SubmissionOfRecord(env.lib, r).value);
    assert BucketGood(env, VoteMessage(env.lib.keccak, Transfer, id), BucketOf(r, Transfer));
    assert BucketGood(env, VoteMessage(env.lib.keccak, Cancel, id), BucketOf(r, Cancel));
    assert BucketGood(env, VoteMessage(env.lib.keccak, Refund, id), BucketOf(r, Refund));
  }

  lemma LastOpGrows(env: Env, P: set<Bytes>, ops: seq<Op>)
    requires StrictRecovery(env.recovery) && CollisionFree(env.lib.keccak, P) && FairOps(env, P, ops) && ops != []
    ensures Grows(env, Run(env, ops[..|ops| - 1]), Run(env, ops))
  {
    var k := |ops| - 1;
    RunKeepsInv(env, P, ops[..k]);
    assert [ops[k]][0] == ops[k];
    ApplyKeeps(env, P, Run(env, ops[..k]), ops[k]);
  }

  lemma FairPrefix(env: Env, P: set<Bytes>, ops: seq<Op>, k: nat)
    requires FairOps(env, P, ops) && k <= |ops|
    ensures FairOps(env, P, ops[..k])
  {
  }

  /** Nothing stored is ever changed or lost later in the run. */
  lemma {:induction false} RunGrows(env: Env, P: set<Bytes>, ops: seq<Op>, n: nat)
    requires StrictRecovery(env.recovery) && CollisionFree(env.lib.keccak, P) && FairOps(env, P, ops) && n <= |ops|
    ensures Grows(env, Run(env, ops[..n]), Run(env, ops))
    decreases |ops|
  {
    if n == |ops| {
      assert ops[..n] == ops;
      NothingWrittenGrows(env, Run(env, ops));
    } else {
      var k := |ops| - 1;
      var before := ops[..k];
      assert before[..n] == ops[..n];
      FairPrefix(env, P, ops, k);
      RunGrows(env, P, before, n);
      LastOpGrows(env, P, ops);
      GrowsTransitive(env, Run(env, ops[..n]), Run(env, before), Run(env, ops));
    }
  }

  lemma ExtendsTransitive(env: Env, a: Record, b: Record, c: Record)
    requires Extends(env, a, b) && Extends(env, b, c)
    ensures Extends(env, a, c)
  {
    forall kind: Vote ensures BucketOf(a, kind) <= BucketOf(c, kind) {
      assert BucketOf(a, kind) <= BucketOf(b, kind) && BucketOf(b, kind) <= BucketOf(c, kind);
    }
  }

  lemma GrowsTransitive(env: Env, a: Files, b: Files, c: Files)
    requires Grows(env, a, b) && Grows(env, b, c)
    ensures Grows(env, a, c)
  {
    forall key | key in a ensures key in c && Extends(env, a[key], c[key]) {
      ExtendsTransitive(env, a[key], b[key], c[key]);
    }
  }

  /** Over every run, a recorded token is the one whose hash with the source chain is the record's asset. */
  lemma {:induction false} TokensAreAssets(env: Env, ops: seq<Op>)
    ensures forall key :: key in Run(env, ops) ==> TokenIsAsset(env, Run(env, ops)[key])
  {
    if ops != [] {
      var n := |ops| - 1;
      TokensAreAssets(env, ops[..n]);
      OpKeepsTokens(env, Run(env, ops[..n]), ops[n]);
    }
  }

  lemma OpKeepsTokens(env: Env, files: Files, op: Op)
    requires forall key :: key in files ==> TokenIsAsset(env, files[key])
    ensures forall key :: key in Apply(env, files, op) ==> TokenIsAsset(env, Apply(env, files, op)[key])
  {
    if Outcome(env, files, op).Done? {
      var key, stored := WritesAsset(env, files, op);
      assert forall k :: k in files && k != key ==> Apply(env, files, op)[k] == files[k];
    }
  }

  /** An accepted operation writes one file, whose token is the asset's if those before were. */
  lemma WritesAsset(env: Env, files: Files, op: Op) returns (key: string, stored: Record)
    requires Outcome(env, files, op).Done?
    requires forall k :: k in files ==> TokenIsAsset(env, files[k])
    ensures Apply(env, files, op) == files[key := stored] && TokenIsAsset(env, stored)
  {
    match op
    case Upsert(r, sig) =>
      key := StripPrefix(r.submissionId);
      AdmittedMeans(env, r, sig);
      MergedTokenIsAsset(env, files, r);
      stored := UpsertEffect(env, files, r, sig).1.value;
      BucketIsNoToken(env, Merged(files, r).value, stored);
    case Attest(id, kind, sig) =>
      key := StripPrefix(id);
      stored := AttestEffect(env, files, id, kind, sig).1.value;
      BucketIsNoToken(env, files[key], stored);
  }

  lemma BucketIsNoToken(env: Env, r: Record, q: Record)
    requires TokenIsAsset(env, r) && q.token == r.token && q.debridgeId == r.debridgeId && q.chainIdFrom == r.chainIdFrom
    ensures TokenIsAsset(env, q)
  {
  }

  lemma MergedTokenIsAsset(env: Env, files: Files, r: Record)
    requires TokenIsAsset(env, r) && IdIsItsOwn(env, r) && Merged(files, r).Some?
    requires StripPrefix(r.submissionId) in files ==> TokenIsAsset(env, files[StripPrefix(r.submissionId)])
    ensures TokenIsAsset(env, Merged(files, r).value)
  {
    if StripPrefix(r.submissionId) in files {
      var e := files[StripPrefix(r.submissionId)];
      if e.token != [] {
        SameTextIff(e.debridgeId, r.debridgeId);
      }
    }
  }

  // ----- who is refused -----

  /** The file, the bucket and the signature an operation is about. */
  function Target(op: Op): (string, Vote, SignerSig) {
    match op
    case Upsert(r, sig) => (StripPrefix(r.submissionId), Transfer, sig)
    case Attest(id, kind, sig) => (StripPrefix(id), kind, sig)
  }

  function Outcome(env: Env, files: Files, op: Op): StoreResult<Record> {
    match op
    case Upsert(r, sig) => UpsertEffect(env, files, r, sig).1
    case Attest(id, kind, sig) => AttestEffect(env, files, id, kind, sig).1
  }

  /** The signer of the operation is in the bucket it is about. */
  predicate SignerPresent(files: Files, op: Op) {
    var (key, kind, sig) := Target(op);
    key in files && HasSigner(BucketOf(files[key], kind), sig.signer)
  }

  /** The operation passes every check that does not look at the stored record's parameters. */
  predicate Admitted(env: Env, files: Files, op: Op) {
    match op
    case Upsert(r, sig) => Admit(env, r, sig).Done?
    case Attest(id, kind, sig) =>
      && IsValidSubmissionId(id) && StripPrefix(id) in files
      && var hash := ParseFixed(files[StripPrefix(id)].submissionId, 32);
         hash.Some? && VerifySignature(env, VoteMessage(env.lib.keccak, kind, hash.value), sig).Done?
  }

  predicate SamePrefix(a: string, b: string) {
    Prefixed(a) <==> Prefixed(b)
  }

  /** Some compared hex text carries the `0x` in one record and not in the other. */
  predicate PrefixesDiffer(e: Record, r: Record) {
    || !SamePrefix(e.submissionId, r.submissionId) || !SamePrefix(e.debridgeId, r.debridgeId)
    || !SamePrefix(e.receiver, r.receiver) || !SamePrefix(e.autoParams, r.autoParams)
    || !SamePrefix(e.nativeSender, r.nativeSender)
  }

  /**
   What the comparison sees beyond the transfer: the sender's bytes, the payload's
   own encoding, the amount's digits, and which hex texts carry the `0x`.
   */
  predicate Differs(e: Record, r: Record) {
    || HexBytes(e.nativeSender) != HexBytes(r.nativeSender) || HexBytes(e.autoParams) != HexBytes(r.autoParams)
    || e.amount != r.amount || PrefixesDiffer(e, r)
  }

  /** The three buckets of every file are the same. */
  predicate SameBuckets(a: Files, b: Files) {
    && a.Keys == b.Keys
    && forall key, kind: Vote :: key in a ==> BucketOf(a[key], kind) == BucketOf(b[key], kind)
  }

  /** Hex texts are equal up to case exactly when their bytes and their prefixes are. */
  lemma SameTextIff(a: string, b: string)
    requires HexBytes(a).Some? && HexBytes(b).Some?
    ensures SameText(a, b) <==> HexBytes(a) == HexBytes(b) && (Prefixed(a) <==> Prefixed(b))
  {
    SameBytesIffSameFold(StripPrefix(a), StripPrefix(b));
    if Prefixed(a) && Prefixed(b) {
      assert a == ['0', 'x'] + StripPrefix(a) && b == ['0', 'x'] + StripPrefix(b);
      FoldPair('0', 'x', StripPrefix(a));
      FoldPair('0', 'x', StripPrefix(b));
      assert Fold(a)[2..] == Fold(StripPrefix(a)) && Fold(b)[2..] == Fold(StripPrefix(b));
    } else if Prefixed(a) && !Prefixed(b) {
      PlainHexHasNoX(b);
    } else if !Prefixed(a) && Prefixed(b) {
      PlainHexHasNoX(a);
    }
  }

  /** A hex text without the prefix does not look like one that has it. */
  lemma PlainHexHasNoX(b: string)
    requires HexBytes(b).Some? && !Prefixed(b)
    ensures |b| < 2 || Fold(b)[1] != 'x'
  {
    if |b| >= 2 {
      assert HexValue(b[1]).Some?;
    }
  }

  predicate HexParses(r: Record) {
    && HexBytes(r.submissionId).Some? && HexBytes(r.debridgeId).Some? && HexBytes(r.receiver).Some?
    && HexBytes(r.autoParams).Some? && HexBytes(r.nativeSender).Some?
  }

  lemma BoundParses(env: Env, key: string, r: Record)
    requires Bound(env, key, r)
    ensures HexParses(r)
  {
  }

  /** Records of one transfer agree on the bytes that the id covers. */
  lemma OneTransferSameBytes(env: Env, key: string, e: Record, r: Record)
    requires Bound(env, key, e) && Bound(env, key, r)
    requires SubmissionOfRecord(env.lib, e) == SubmissionOfRecord(env.lib, r)
    ensures HexBytes(e.submissionId) == HexBytes(r.submissionId) && HexBytes(e.debridgeId) == HexBytes(r.debridgeId)
    ensures HexBytes(e.receiver) == HexBytes(r.receiver)
    ensures e.chainIdFrom == r.chainIdFrom && e.chainIdTo == r.chainIdTo && e.nonce == r.nonce
  {
  }

  lemma SameParamsIff(e: Record, r: Record)
    requires HexParses(e) && HexParses(r)
    requires HexBytes(e.submissionId) == HexBytes(r.submissionId) && HexBytes(e.debridgeId) == HexBytes(r.debridgeId)
    requires HexBytes(e.receiver) == HexBytes(r.receiver)
    requires e.chainIdFrom == r.chainIdFrom && e.chainIdTo == r.chainIdTo && e.nonce == r.nonce
    ensures SameParams(e, r) <==> !Differs(e, r)
  {
    SameTextIff(e.submissionId, r.submissionId);
    SameTextIff(e.debridgeId, r.debridgeId);
    SameTextIff(e.receiver, r.receiver);
    SameTextIff(e.autoParams, r.autoParams);
    SameTextIff(e.nativeSender, r.nativeSender);
  }

  /** Two records of one file denote one transfer, and conflict exactly when they differ in the rest. */
  lemma ConflictIff(env: Env, P: set<Bytes>, key: string, e: Record, r: Record)
    requires CollisionFree(env.lib.keccak, P) && Hashed(env, P, e) && Hashed(env, P, r)
    requires Bound(env, key, e) && Bound(env, key, r)
    ensures SameParams(e, r) <==> !Differs(e, r)
  {
    SameFileSameTransfer(env, P, key, e, r);
    BoundParses(env, key, e);
    BoundParses(env, key, r);
    OneTransferSameBytes(env, key, e, r);
    SameParamsIff(e, r);
  }

  /**
   What becomes of an admitted post over a stored record, over every run: it is
   refused as a conflict exactly when it differs from the stored record, and
   accepted exactly when it does not and its signer is in the bucket or fits in.
   */
  lemma AdmittedPostIff(env: Env, P: set<Bytes>, ops: seq<Op>, r: Record, sig: SignerSig)
    requires StrictRecovery(env.recovery) && CollisionFree(env.lib.keccak, P) && FairOps(env, P, ops)
    requires Hashed(env, P, r) && Admit(env, r, sig).Done? && StripPrefix(r.submissionId) in Run(env, ops)
    ensures var e, outcome := Run(env, ops)[StripPrefix(r.submissionId)], Outcome(env, Run(env, ops), Upsert(r, sig));
            && (outcome == Refused(ParamsConflict) <==> Differs(e, r))
            && (outcome.Done? <==> (!Differs(e, r)
                  && (HasSigner(e.signatures, sig.signer) || |e.signatures| < 64)))
  {
    assert ops[..|ops|] == ops;
    ConflictInRun(env, P, ops, |ops|, r, sig);
    UpsertOutcome(env, Run(env, ops), r, sig);
  }

  /** The last two checks of an admitted upsert over a stored record. */
  lemma UpsertOutcome(env: Env, files: Files, r: Record, sig: SignerSig)
    requires Admit(env, r, sig).Done? && StripPrefix(r.submissionId) in files
    ensures var e := files[StripPrefix(r.submissionId)];
            Outcome(env, files, Upsert(r, sig))
            == (if !SameParams(e, r) then Refused(ParamsConflict)
                else match PushCapped(e.signatures, Admit(env, r, sig).value)
                  case None => Refused(TooManySignatures(Transfer))
                  case Some(bucket) => Done(Merged(files, r).value.(signatures := bucket)))
    ensures Admit(env, r, sig).value.signer == sig.signer
  {
    AdmittedPassedAll(env, r, sig);
  }

  /** An admitted upsert of a present signer over a record with the same parameters. */
  lemma PresentUpsert(env: Env, files: Files, r: Record, sig: SignerSig)
    requires Admit(env, r, sig).Done? && SignerPresent(files, Upsert(r, sig))
    requires SameParams(files[StripPrefix(r.submissionId)], r)
    ensures Outcome(env, files, Upsert(r, sig)).Done? && SameBuckets(files, Apply(env, files, Upsert(r, sig)))
  {
    var key := StripPrefix(r.submissionId);
    UpsertOutcome(env, files, r, sig);
    var m := Merged(files, r).value;
    assert Apply(env, files, Upsert(r, sig)) == files[key := m];
  }

  /** The last check of an attestation whose signature is its signer's. */
  lemma AttestOutcome(env: Env, files: Files, id: string, kind: Vote, sig: SignerSig) returns (c: SignerSig)
    requires StrictRecovery(env.recovery) && Admitted(env, files, Attest(id, kind, sig))
    ensures c.signer == sig.signer
    ensures var r := files[StripPrefix(id)];
            AttestEffect(env, files, id, kind, sig)
            == match PushCapped(BucketOf(r, kind), c)
               case None => (files, Refused(TooManySignatures(kind)))
               case Some(bucket) =>
                 (files[StripPrefix(id) := WithBucket(r, kind, bucket)], Done(WithBucket(r, kind, bucket)))
  {
    var r := files[StripPrefix(id)];
    VerifiedEntryIsGood(env, VoteMessage(env.lib.keccak, kind, ParseFixed(r.submissionId, 32).value), sig);
    c := CanonicalSignature(sig).value;
  }

  lemma PresentAttest(env: Env, files: Files, id: string, kind: Vote, sig: SignerSig)
    requires StrictRecovery(env.recovery)
    requires SignerPresent(files, Attest(id, kind, sig)) && Admitted(env, files, Attest(id, kind, sig))
    ensures Outcome(env, files, Attest(id, kind, sig)).Done?
    ensures SameBuckets(files, Apply(env, files, Attest(id, kind, sig)))
  {
    var r := files[StripPrefix(id)];
    var c := AttestOutcome(env, files, id, kind, sig);
    assert WithBucket(r, kind, BucketOf(r, kind)) == r;
  }

  /** The post is of another text than the file's record. */
  predicate DiffersFromStored(files: Files, op: Op) {
    && op.Upsert? && StripPrefix(op.record.submissionId) in files
    && Differs(files[StripPrefix(op.record.submissionId)], op.record)
  }

  /** An admitted post at point `n` of a run conflicts exactly when it differs. */
  lemma ConflictInRun(env: Env, P: set<Bytes>, ops: seq<Op>, n: nat, r: Record, sig: SignerSig)
    requires StrictRecovery(env.recovery) && CollisionFree(env.lib.keccak, P) && FairOps(env, P, ops) && n <= |ops|
    requires Hashed(env, P, r) && Admit(env, r, sig).Done? && StripPrefix(r.submissionId) in Run(env, ops[..n])
    ensures var e := Run(env, ops[..n])[StripPrefix(r.submissionId)]; SameParams(e, r) <==> !Differs(e, r)
  {
    var files, key := Run(env, ops[..n]), StripPrefix(r.submissionId);
    FairPrefix(env, P, ops, n);
    RunKeepsInv(env, P, ops[..n]);
    assert RecordGood(env, key, files[key]);
    AdmittedIsBound(env, r, sig);
    ConflictIff(env, P, key, files[key], r);
  }

  lemma SameParamsStay(env: Env, before: Files, after: Files, key: string, r: Record)
    requires Grows(env, before, after) && key in before
    ensures key in after && (SameParams(before[key], r) <==> SameParams(after[key], r))
  {
    assert Extends(env, before[key], after[key]);
  }

  lemma PostLockedOutIff(env: Env, P: set<Bytes>, ops: seq<Op>, n: nat, r: Record, sig: SignerSig)
    requires StrictRecovery(env.recovery) && CollisionFree(env.lib.keccak, P) && FairOps(env, P, ops) && n <= |ops|
    requires SignerPresent(Run(env, ops[..n]), Upsert(r, sig)) && Admit(env, r, sig).Done? && Hashed(env, P, r)
    ensures Outcome(env, Run(env, ops), Upsert(r, sig)).Done? <==> !DiffersFromStored(Run(env, ops[..n]), Upsert(r, sig))
    ensures Outcome(env, Run(env, ops), Upsert(r, sig)).Refused?
            ==> Outcome(env, Run(env, ops), Upsert(r, sig)) == Refused(ParamsConflict)
    ensures SameBuckets(Run(env, ops), Apply(env, Run(env, ops), Upsert(r, sig)))
  {
    var before, files, key := Run(env, ops[..n]), Run(env, ops), StripPrefix(r.submissionId);
    RunGrows(env, P, ops, n);
    StaysPresent(env, before, files, Upsert(r, sig));
    ConflictInRun(env, P, ops, n, r, sig);
    SameParamsStay(env, before, files, key, r);
    PresentOutcome(env, files, r, sig);
  }

  /** An admitted upsert of a present signer succeeds or conflicts, and changes no bucket. */
  lemma PresentOutcome(env: Env, files: Files, r: Record, sig: SignerSig)
    requires Admit(env, r, sig).Done? && SignerPresent(files, Upsert(r, sig))
    ensures var same := SameParams(files[StripPrefix(r.submissionId)], r);
            && (Outcome(env, files, Upsert(r, sig)).Done? <==> same)
            && (!same ==> Outcome(env, files, Upsert(r, sig)) == Refused(ParamsConflict))
    ensures SameBuckets(files, Apply(env, files, Upsert(r, sig)))
  {
    UpsertOutcome(env, files, r, sig);
    if SameParams(files[StripPrefix(r.submissionId)], r) {
      PresentUpsert(env, files, r, sig);
    }
  }

  /**
   A signer who was in a bucket at any point `n` of a run is accepted again at
   every later point, full bucket or not, and changes no bucket - if and only if
   what it posts did not differ from the record stored at `n`. Attestations carry
   no parameters, so they are always accepted.
   */
  lemma LockedOutIff(env: Env, P: set<Bytes>, ops: seq<Op>, n: nat, op: Op)
    requires StrictRecovery(env.recovery) && CollisionFree(env.lib.keccak, P) && FairOps(env, P, ops) && n <= |ops|
    requires SignerPresent(Run(env, ops[..n]), op) && Admitted(env, Run(env, ops), op)
    requires op.Upsert? ==> Hashed(env, P, op.record)
    ensures Outcome(env, Run(env, ops), op).Done? <==> !DiffersFromStored(Run(env, ops[..n]), op)
    ensures Outcome(env, Run(env, ops), op).Refused? ==> Outcome(env, Run(env, ops), op) == Refused(ParamsConflict)
    ensures SameBuckets(Run(env, ops), Apply(env, Run(env, ops), op))
  {
    match op
    case Upsert(r, sig) =>
      PostLockedOutIff(env, P, ops, n, r, sig);
    case Attest(id, kind, sig) =>
      RunGrows(env, P, ops, n);
      StaysPresent(env, Run(env, ops[..n]), Run(env, ops), op);
      PresentAttest(env, Run(env, ops), id, kind, sig);
  }

  /** A post that agrees with what is stored at point `m`, its signer in the bucket, is accepted at the end. */
  lemma AgreesLater(env: Env, P: set<Bytes>, ops: seq<Op>, m: nat, r: Record, sig: SignerSig)
    requires StrictRecovery(env.recovery) && CollisionFree(env.lib.keccak, P) && FairOps(env, P, ops) && m <= |ops|
    requires SignerPresent(Run(env, ops[..m]), Upsert(r, sig)) && Admit(env, r, sig).Done?
    requires SameParams(Run(env, ops[..m])[StripPrefix(r.submissionId)], r)
    ensures Outcome(env, Run(env, ops), Upsert(r, sig)).Done?
    ensures SameBuckets(Run(env, ops), Apply(env, Run(env, ops), Upsert(r, sig)))
  {
    var before, files := Run(env, ops[..m]), Run(env, ops);
    RunGrows(env, P, ops, m);
    StaysPresent(env, before, files, Upsert(r, sig));
    SameParamsStay(env, before, files, StripPrefix(r.submissionId), r);
    PresentOutcome(env, files, r, sig);
  }

  /** So whoever has a post accepted can repeat it for ever, whatever else is posted in between. */
  lemma RepostIsAccepted(env: Env, P: set<Bytes>, ops: seq<Op>, n: nat)
    requires StrictRecovery(env.recovery) && CollisionFree(env.lib.keccak, P) && FairOps(env, P, ops) && n < |ops|
    requires ops[n].Upsert? && Outcome(env, Run(env, ops[..n]), ops[n]).Done?
    ensures Outcome(env, Run(env, ops), ops[n]).Done?
    ensures SameBuckets(Run(env, ops), Apply(env, Run(env, ops), ops[n]))
  {
    AcceptedInRun(env, ops, n, ops[n].record, ops[n].sig);
    AgreesLater(env, P, ops, n + 1, ops[n].record, ops[n].sig);
  }

  lemma AcceptedInRun(env: Env, ops: seq<Op>, n: nat, r: Record, sig: SignerSig)
    requires n < |ops| && ops[n] == Upsert(r, sig) && UpsertEffect(env, Run(env, ops[..n]), r, sig).1.Done?
    ensures Admit(env, r, sig).Done?
    ensures var after, key := Run(env, ops[..n + 1]), StripPrefix(r.submissionId);
            && key in after && SameParams(after[key], r) && HasSigner(after[key].signatures, sig.signer)
  {
    var before, after := Run(env, ops[..n]), Run(env, ops[..n + 1]);
    RunStep(env, ops, n);
    StoredAfter(env, before, after, r, sig);
  }

  lemma RunStep(env: Env, ops: seq<Op>, n: nat)
    requires n < |ops|
    ensures Run(env, ops[..n + 1]) == Apply(env, Run(env, ops[..n]), ops[n])
  {
    RunSnoc(env, ops[..n], ops[n]);
    assert ops[..n] + [ops[n]] == ops[..n + 1];
  }

  lemma StoredAfter(env: Env, before: Files, after: Files, r: Record, sig: SignerSig)
    requires after == Apply(env, before, Upsert(r, sig)) && UpsertEffect(env, before, r, sig).1.Done?
    ensures Admit(env, r, sig).Done?
    ensures var key := StripPrefix(r.submissionId);
            key in after && SameParams(after[key], r) && HasSigner(after[key].signatures, sig.signer)
  {
    AcceptedIsStored(env, before, r, sig);
  }

  lemma RunSnoc(env: Env, ops: seq<Op>, op: Op)
    ensures Run(env, ops + [op]) == Apply(env, Run(env, ops), op)
  {
    assert (ops + [op])[..|ops|] == ops;
  }

  /** After an accepted post its signer is in the bucket and its parameters are in the file. */
  lemma AcceptedIsStored(env: Env, files: Files, r: Record, sig: SignerSig)
    requires UpsertEffect(env, files, r, sig).1.Done?
    ensures Admit(env, r, sig).Done?
    ensures var after, key := UpsertEffect(env, files, r, sig).0, StripPrefix(r.submissionId);
            && key in after && SameParams(after[key], r) && HasSigner(after[key].signatures, sig.signer)
  {
    AdmittedPassedAll(env, r, sig);
    PushedIsPresent(Merged(files, r).value.signatures, Admit(env, r, sig).value);
  }

  // ----- what an accepted operation leaves -----

  /** The vote is in its own list of the record under its id, and a token that came with it is recorded. */
  predicate Kept(files: Files, op: Op) {
    match op
    case Upsert(r, sig) =>
      var key := StripPrefix(r.submissionId);
      key in files && HasSigner(files[key].signatures, sig.signer) && (r.token != [] ==> files[key].token != [])
    case Attest(id, kind, sig) =>
      && StripPrefix(id) in files
      && var r := files[StripPrefix(id)];
         match kind
         case Transfer => HasSigner(r.signatures, sig.signer)
         case Cancel => HasSigner(r.cancelSignatures, sig.signer)
         case Refund => HasSigner(r.refundSignatures, sig.signer)
  }

  lemma PushedIsPresent(bucket: seq<SignerSig>, sig: SignerSig)
    requires PushCapped(bucket, sig).Some?
    ensures HasSigner(PushCapped(bucket, sig).value, sig.signer)
  {
    if !HasSigner(bucket, sig.signer) {
      assert (bucket + [sig])[|bucket|] == sig;
    }
  }

  /** An accepted operation returns the record it has written, with its vote in it. */
  lemma AcceptedIsWritten(env: Env, files: Files, op: Op)
    requires Outcome(env, files, op).Done?
    ensures Kept(Apply(env, files, op), op)
    ensures Apply(env, files, op)[Target(op).0] == Outcome(env, files, op).value
  {
    match op
    case Upsert(r, sig) =>
      AdmittedPassedAll(env, r, sig);
      PushedIsPresent(Merged(files, r).value.signatures, Admit(env, r, sig).value);
    case Attest(id, kind, sig) =>
      var stored := files[StripPrefix(id)];
      PushedIsPresent(BucketOf(stored, kind), CanonicalSignature(sig).value);
  }

  /** What an accepted operation brought is in the store at every later point. */
  lemma AcceptedIsKept(env: Env, P: set<Bytes>, ops: seq<Op>, n: nat)
    requires StrictRecovery(env.recovery) && CollisionFree(env.lib.keccak, P) && FairOps(env, P, ops) && n < |ops|
    requires Outcome(env, Run(env, ops[..n]), ops[n]).Done?
    ensures Kept(Run(env, ops), ops[n])
  {
    RunStep(env, ops, n);
    AcceptedIsWritten(env, Run(env, ops[..n]), ops[n]);
    RunGrows(env, P, ops, n + 1);
    KeptStays(env, Run(env, ops[..n + 1]), Run(env, ops), ops[n]);
  }

  lemma KeptStays(env: Env, before: Files, after: Files, op: Op)
    requires Grows(env, before, after) && Kept(before, op)
    ensures Kept(after, op)
  {
    assert SignerPresent(before, op);
    StaysPresent(env, before, after, op);
    assert Extends(env, before[Target(op).0], after[Target(op).0]);
  }

  // ----- what is accepted -----

  /**
   The raw 65 bytes are `a`'s signature of the message: curve recovery gives `a` for
   the parity that the recovery byte stands for - 0 or 27, 1 or 28, or an EIP-155 value.
   */
  predicate SignedBy(env: Env, message: Bytes32, raw: Bytes, a: Address) {
    && |raw| == 65
    && var digest, rs, v := EthSignedDigest(env.lib.keccak, message), raw[..64], raw[64];
       || ((v == 0 || v == 27) && env.recovery(digest, rs, 0) == Some(a))
       || ((v == 1 || v == 28) && env.recovery(digest, rs, 1) == Some(a))
       || (v >= 35 && env.recovery(digest, rs, (v - 35) % 2) == Some(a))
  }

  /** Re-encoding and recovering is recovering the bytes as they are. */
  lemma RecoversAsGiven(env: Env, message: Bytes32, raw: Bytes, p: byte)
    requires StrictRecovery(env.recovery) && V.MalleableRecovery(env.recovery)
    requires |raw| == 65 && Parity(raw[64]) == Some(p)
    ensures p <= 1
    ensures RecoverFromMessage(env, message, raw) == env.recovery(EthSignedDigest(env.lib.keccak, message), raw[..64], p)
  {
    var digest, plain := EthSignedDigest(env.lib.keccak, message), raw[..64] + [27 + p];
    assert plain[..64] == raw[..64];
    V.CanonicalIdempotentIff(plain);
    if 0 < V.ScalarS(plain) < V.GROUP_ORDER {
      V.CanonicalRecovers(env.recovery, digest, plain);
    } else {
      OutOfRangeIsRefused(env, digest, plain);
      assert raw[..64][32..64] == plain[32..64];
    }
  }

  /** No scalar outside the group's range recovers after re-encoding. */
  lemma OutOfRangeIsRefused(env: Env, digest: Bytes32, plain: Bytes)
    requires StrictRecovery(env.recovery) && V.Acceptable(plain) && V.Canonical(plain).Some?
    requires V.ScalarS(plain) == 0 || V.ScalarS(plain) >= V.GROUP_ORDER
    ensures V.RecoverEvmAddress(env.recovery, digest, V.Canonical(plain).value).Err?
  {
    var c := V.Canonical(plain).value;
    if V.ScalarS(plain) > V.GROUP_ORDER {
      V.CanonicalOfOversized(plain);
    } else {
      V.OrderBytes();
      FromBeToBe(0, 32);
      V.CanonicalParts(plain);
      assert c[32..64] == ToBe(0, 32);
    }
    assert c[..64][32..64] == c[32..64];
  }

  /** A signature passes exactly when its texts parse and it is the named signer's signature of the message. */
  lemma VerifiesIff(env: Env, message: Bytes32, sig: SignerSig)
    requires StrictRecovery(env.recovery) && V.MalleableRecovery(env.recovery)
    ensures VerifySignature(env, message, sig).Done?
            <==> ParseFixed(sig.signer, 20).Some? && HexBytes(sig.signature).Some?
                 && SignedBy(env, message, HexBytes(sig.signature).value, ParseFixed(sig.signer, 20).value)
  {
    if ParseFixed(sig.signer, 20).Some? && HexBytes(sig.signature).Some? {
      var raw := HexBytes(sig.signature).value;
      if |raw| == 65 && Parity(raw[64]).Some? {
        RecoversAsGiven(env, message, raw, Parity(raw[64]).value);
      }
    }
  }

  /** The hex texts are no longer than the bytes they may stand for, and the amount than a 256-bit number. */
  predicate WithinBounds(r: Record) {
    && |StripPrefix(r.receiver)| <= 64 && |StripPrefix(r.nativeSender)| <= 64 && |StripPrefix(r.autoParams)| <= 65536
    && |StripPrefix(r.bridgeDomain)| <= 64 && |StripPrefix(r.debridgeId)| <= 64 && |StripPrefix(r.token)| <= 40
    && |r.amount| <= 78
  }

  /** The recorded token, if there is one, is the asset's on the source chain. */
  predicate TokenIsAsset(env: Env, r: Record) {
    r.token != [] ==>
      && ParseFixed(r.token, 20).Some? && ParseFixed(r.debridgeId, 32).Some?
      && ParseFixed(r.debridgeId, 32).value == env.lib.keccak(ToBe(r.chainIdFrom, 32) + ParseFixed(r.token, 20).value)
  }

  /** The record's text denotes a transfer, and its id is that transfer's. */
  predicate IdIsItsOwn(env: Env, r: Record) {
    && SubmissionOfRecord(env.lib, r).Ok?
    && ParseFixed(r.submissionId, 32) == Some(SubmissionId(env.lib.keccak, SubmissionOfRecord(env.lib, r).value))
  }

  lemma AdmittedMeans(env: Env, r: Record, sig: SignerSig)
    requires Admit(env, r, sig).Done?
    ensures WithinBounds(r) && TokenIsAsset(env, r) && IdIsItsOwn(env, r)
    ensures VerifySignature(env, ParseFixed(r.submissionId, 32).value, sig).Done?
  {
    AdmittedPassedAll(env, r, sig);
  }

  lemma AdmittedWhen(env: Env, r: Record, sig: SignerSig)
    requires StrictRecovery(env.recovery) && WithinBounds(r) && TokenIsAsset(env, r) && IdIsItsOwn(env, r)
    requires VerifySignature(env, ParseFixed(r.submissionId, 32).value, sig).Done?
    ensures Admit(env, r, sig) == CanonicalSignature(sig)
  {
    ParsedIdIsValid(r.submissionId);
    VerifiedEntryIsGood(env, ParseFixed(r.submissionId, 32).value, sig);
    assert IdBinding(env, r) == Done(ParseFixed(r.submissionId, 32).value);
    PassingAllIsAdmitted(env, r, sig);
  }

  /** Exactly what the checks in front of the store let through. */
  lemma AdmittedIff(env: Env, r: Record, sig: SignerSig)
    requires StrictRecovery(env.recovery) && V.MalleableRecovery(env.recovery)
    ensures Admit(env, r, sig).Done?
            <==> WithinBounds(r) && TokenIsAsset(env, r) && IdIsItsOwn(env, r)
                 && ParseFixed(sig.signer, 20).Some? && HexBytes(sig.signature).Some?
                 && SignedBy(env, ParseFixed(r.submissionId, 32).value, HexBytes(sig.signature).value,
                             ParseFixed(sig.signer, 20).value)
  {
    if Admit(env, r, sig).Done? {
      AdmittedMeans(env, r, sig);
      VerifiesIff(env, ParseFixed(r.submissionId, 32).value, sig);
    } else if WithinBounds(r) && TokenIsAsset(env, r) && IdIsItsOwn(env, r) {
      VerifiesIff(env, ParseFixed(r.submissionId, 32).value, sig);
      if VerifySignature(env, ParseFixed(r.submissionId, 32).value, sig).Done? {
        AdmittedWhen(env, r, sig);
        VerifiedEntryIsGood(env, ParseFixed(r.submissionId, 32).value, sig);
      }
    }
  }

  /**
   An event's own record, with the event's id and any signature by its signer of that
   id, is accepted into an empty store, which then holds exactly it and that signer.
   */
  lemma SentEventIsStored(env: Env, ev: SentEvent, bridgeDomain: Bytes32, sig: SignerSig)
    requires StrictRecovery(env.recovery) && V.MalleableRecovery(env.recovery)
    requires RecordOfEvent(ev, bridgeDomain).Some? && SubmissionOfEvent(env.lib, ev, bridgeDomain).Some?
    requires ev.submissionId == SubmissionId(env.lib.keccak, SubmissionOfEvent(env.lib, ev, bridgeDomain).value)
    requires ev.debridgeId == env.lib.keccak(ToBe(ev.chainIdFrom, 32) + ev.token)
    requires |ev.receiver| <= 32 && |ev.nativeSender| <= 32 && |ev.autoParams| <= 32768
    requires ParseFixed(sig.signer, 20).Some? && HexBytes(sig.signature).Some?
    requires SignedBy(env, ev.submissionId, HexBytes(sig.signature).value, ParseFixed(sig.signer, 20).value)
    ensures CanonicalSignature(sig).Done? && CanonicalSignature(sig).value.signer == sig.signer
    ensures var r := RecordOfEvent(ev, bridgeDomain).value;
            && Outcome(env, map[], Upsert(r, sig)).Done?
            && Run(env, [Upsert(r, sig)])
               == map[HexEncode(ev.submissionId) := r.(signatures := [CanonicalSignature(sig).value])]
    ensures EntryGood(env, ev.submissionId, CanonicalSignature(sig).value)
  {
    var r := RecordOfEvent(ev, bridgeDomain).value;
    EventRecordPasses(env, ev, bridgeDomain);
    AdmittedIff(env, r, sig);
    VerifiesIff(env, ev.submissionId, sig);
    VerifiedEntryIsGood(env, ev.submissionId, sig);
    NewFile(env, map[], r, sig);
    assert StripPrefix(r.submissionId) == HexEncode(ev.submissionId);
    RunSnoc(env, [], Upsert(r, sig));
    assert [] + [Upsert(r, sig)] == [Upsert(r, sig)];
  }

  lemma EventRecordPasses(env: Env, ev: SentEvent, bridgeDomain: Bytes32)
    requires RecordOfEvent(ev, bridgeDomain).Some? && SubmissionOfEvent(env.lib, ev, bridgeDomain).Some?
    requires ev.submissionId == SubmissionId(env.lib.keccak, SubmissionOfEvent(env.lib, ev, bridgeDomain).value)
    requires ev.debridgeId == env.lib.keccak(ToBe(ev.chainIdFrom, 32) + ev.token)
    requires |ev.receiver| <= 32 && |ev.nativeSender| <= 32 && |ev.autoParams| <= 32768
    ensures var r := RecordOfEvent(ev, bridgeDomain).value;
            && WithinBounds(r) && TokenIsAsset(env, r) && IdIsItsOwn(env, r)
            && ParseFixed(r.submissionId, 32) == Some(ev.submissionId)
  {
    var r := RecordOfEvent(ev, bridgeDomain).value;
    RecordIdIsComputedId(env.lib, ev, bridgeDomain);
    Hex0xRoundTrip(ev.submissionId);
    Hex0xRoundTrip(ev.debridgeId);
    Hex0xRoundTrip(ev.token);
    AmountFits(ev.amount);
    assert Prefixed(r.submissionId) && Prefixed(r.receiver) && Prefixed(r.nativeSender) && Prefixed(r.autoParams);
    assert Prefixed(r.bridgeDomain) && Prefixed(r.debridgeId) && Prefixed(r.token);
  }

  /**
   Over every run, an attestation on a stored record is accepted exactly when it is its
   signer's signature of that vote on that id, and the signer is present or fits in.
   */
  lemma AttestationAcceptedIff(env: Env, P: set<Bytes>, ops: seq<Op>, id: string, kind: Vote, sig: SignerSig)
    requires StrictRecovery(env.recovery) && V.MalleableRecovery(env.recovery)
    requires CollisionFree(env.lib.keccak, P) && FairOps(env, P, ops)
    requires IsValidSubmissionId(id) && StripPrefix(id) in Run(env, ops)
    ensures var r := Run(env, ops)[StripPrefix(id)];
            && SubmissionOfRecord(env.lib, r).Ok?
            && var message := VoteMessage(env.lib.keccak, kind,
                                          SubmissionId(env.lib.keccak, SubmissionOfRecord(env.lib, r).value));
               Outcome(env, Run(env, ops), Attest(id, kind, sig)).Done?
               <==> && ParseFixed(sig.signer, 20).Some? && HexBytes(sig.signature).Some?
                    && SignedBy(env, message, HexBytes(sig.signature).value, ParseFixed(sig.signer, 20).value)
                    && (HasSigner(BucketOf(r, kind), sig.signer) || |BucketOf(r, kind)| < 64)
  {
    var files, key := Run(env, ops), StripPrefix(id);
    RunKeepsInv(env, P, ops);
    assert RecordGood(env, key, files[key]);
    var hash := ParseFixed(files[key].submissionId, 32).value;
    VerifiesIff(env, VoteMessage(env.lib.keccak, kind, hash), sig);
    if Admitted(env, files, Attest(id, kind, sig)) {
      var c := AttestOutcome(env, files, id, kind, sig);
    }
  }

  // ----- the first post decides -----

  predicate NoLists(r: Record) {
    r.signatures == [] && r.cancelSignatures == [] && r.refundSignatures == []
  }

  lemma FirstPostIsStored(env: Env, first: Record, sig: SignerSig)
    requires Admit(env, first, sig).Done? && NoLists(first)
    ensures Outcome(env, map[], Upsert(first, sig)).Done?
    ensures Run(env, [Upsert(first, sig)]) == UpsertEffect(env, map[], first, sig).0
  {
    assert [Upsert(first, sig)][..0] == [];
  }

  /** A record that differs from the first one posted under its file is refused for good, whatever comes in between. */
  lemma FirstPostDecides(env: Env, P: set<Bytes>, first: Record, a: SignerSig, r: Record, sig: SignerSig, later: seq<Op>)
    requires StrictRecovery(env.recovery) && CollisionFree(env.lib.keccak, P)
    requires FairOps(env, P, [Upsert(first, a)] + later) && Hashed(env, P, r)
    requires Admit(env, first, a).Done? && NoLists(first) && Admit(env, r, sig).Done?
    requires StripPrefix(first.submissionId) == StripPrefix(r.submissionId) && Differs(first, r)
    ensures Outcome(env, Run(env, [Upsert(first, a)] + later), Upsert(r, sig)) == Refused(ParamsConflict)
  {
    var run, key := [Upsert(first, a)] + later, StripPrefix(r.submissionId);
    assert run[..1] == [Upsert(first, a)];
    FirstPostIsStored(env, first, a);
    AcceptedIsStored(env, map[], first, a);
    RunGrows(env, P, run, 1);
    var stored, now := Run(env, run[..1])[key], Run(env, run)[key];
    assert Extends(env, stored, now);
    assert run[0] == Upsert(first, a);
    AdmittedIsBound(env, first, a);
    AdmittedIsBound(env, r, sig);
    ConflictIff(env, P, key, first, r);
    assert !SameParams(now, r);
    UpsertOutcome(env, Run(env, run), r, sig);
  }

  /** Changing the sender of a transfer without payload, within its bounds, is not seen by any check. */
  lemma OtherSenderIsAdmitted(env: Env, r: Record, other: string, sig: SignerSig, a: SignerSig)
    requires StrictRecovery(env.recovery)
    requires Admit(env, r, sig).Done? && HexBytes(r.autoParams) == Some([])
    requires HexBytes(other).Some? && BoundedHex(other, MAX_ACCOUNT_BYTES)
    requires VerifySignature(env, ParseFixed(r.submissionId, 32).value, a).Done?
    ensures Admit(env, r.(nativeSender := other), a).Done?
  {
    AdmittedPassedAll(env, r, sig);
    BindingIsBound(env, r);
    VerifiedEntryIsGood(env, ParseFixed(r.submissionId, 32).value, a);
    SenderIsUnseen(env, r, other);
    PassingAllIsAdmitted(env, r.(nativeSender := other), a);
  }

  lemma SenderIsUnseen(env: Env, r: Record, other: string)
    requires Oversized(r).None? && IdBinding(env, r).Done? && HexBytes(r.autoParams) == Some([])
    requires HexBytes(other).Some? && BoundedHex(other, MAX_ACCOUNT_BYTES)
    ensures var p := r.(nativeSender := other);
            IdBinding(env, p) == IdBinding(env, r) && Oversized(p).None? && TokenBinding(env, p) == TokenBinding(env, r)
  {
    assert SubmissionOfRecord(env.lib, r.(nativeSender := other)) == SubmissionOfRecord(env.lib, r);
  }

  /**
   The native sender of a transfer without payload is outside the id, and any key
   may post first. A first post with another sender shuts the real record out for
   good - even when it carries `sig` itself, so that the signer is in the bucket.
   */
  lemma PoisonedSenderLocksOut(env: Env, P: set<Bytes>, r: Record, other: string, a: SignerSig, sig: SignerSig,
                               later: seq<Op>)
    requires StrictRecovery(env.recovery) && CollisionFree(env.lib.keccak, P) && Hashed(env, P, r)
    requires FairOps(env, P, [Upsert(r.(nativeSender := other), a)] + later)
    requires Admit(env, r, sig).Done? && NoLists(r) && HexBytes(r.autoParams) == Some([])
    requires HexBytes(other).Some? && BoundedHex(other, MAX_ACCOUNT_BYTES)
    requires HexBytes(other) != HexBytes(r.nativeSender)
    requires VerifySignature(env, ParseFixed(r.submissionId, 32).value, a).Done?
    ensures var run := [Upsert(r.(nativeSender := other), a)] + later;
            && Outcome(env, Run(env, run), Upsert(r, sig)) == Refused(ParamsConflict)
            && (SameText(a.signer, sig.signer) ==> SignerPresent(Run(env, run), Upsert(r, sig)))
  {
    var poisoned := r.(nativeSender := other);
    var run := [Upsert(poisoned, a)] + later;
    OtherSenderIsAdmitted(env, r, other, sig, a);
    FirstPostDecides(env, P, poisoned, a, r, sig, later);
    assert run[..1] == [Upsert(poisoned, a)];
    FirstPostIsStored(env, poisoned, a);
    AcceptedIsStored(env, map[], poisoned, a);
    if SameText(a.signer, sig.signer) {
      RunGrows(env, P, run, 1);
      StaysPresent(env, Run(env, run[..1]), Run(env, run), Upsert(r, sig));
    }
  }

  /** Another spelling of the id is admitted alike, when it is of the same length bounds and the same bytes. */
  lemma OtherSpellingIsAdmitted(env: Env, r: Record, id: string, sig: SignerSig, a: SignerSig)
    requires StrictRecovery(env.recovery) && Admit(env, r, sig).Done?
    requires ParseFixed(id, 32) == ParseFixed(r.submissionId, 32)
    requires VerifySignature(env, ParseFixed(r.submissionId, 32).value, a).Done?
    ensures Admit(env, r.(submissionId := id), a).Done?
  {
    AdmittedPassedAll(env, r, sig);
    BindingIsBound(env, r);
    VerifiedEntryIsGood(env, ParseFixed(r.submissionId, 32).value, a);
    ParsedIdIsValid(id);
    SpellingIsUnseen(env, r, id);
    PassingAllIsAdmitted(env, r.(submissionId := id), a);
  }

  lemma SpellingIsUnseen(env: Env, r: Record, id: string)
    requires Oversized(r).None? && IdBinding(env, r).Done? && ParseFixed(id, 32) == ParseFixed(r.submissionId, 32)
    ensures var p := r.(submissionId := id);
            IdBinding(env, p) == IdBinding(env, r) && Oversized(p).None? && TokenBinding(env, p) == TokenBinding(env, r)
  {
    assert SubmissionOfRecord(env.lib, r.(submissionId := id)) == SubmissionOfRecord(env.lib, r);
  }

  lemma {:induction false} DecodedIsHex(s: string)
    requires HexDecode(s).Some?
    ensures |s| == 2 * |HexDecode(s).value| && forall i :: 0 <= i < |s| ==> HexValue(s[i]).Some?
  {
    if s != [] {
      DecodedIsHex(s[2..]);
      forall i | 0 <= i < |s| ensures HexValue(s[i]).Some? {
        assert i < 2 || s[i] == s[2..][i - 2];
      }
    }
  }

  lemma ParsedIdIsValid(id: string)
    requires ParseFixed(id, 32).Some?
    ensures IsValidSubmissionId(id)
  {
    DecodedIsHex(StripPrefix(id));
  }

  /** An id first posted without its `0x`, by any key, shuts out the record that carries it. */
  lemma UnprefixedLocksOut(env: Env, P: set<Bytes>, r: Record, a: SignerSig, sig: SignerSig, later: seq<Op>)
    requires StrictRecovery(env.recovery) && CollisionFree(env.lib.keccak, P) && Hashed(env, P, r)
    requires FairOps(env, P, [Upsert(r.(submissionId := StripPrefix(r.submissionId)), a)] + later)
    requires Admit(env, r, sig).Done? && NoLists(r) && Prefixed(r.submissionId)
    requires VerifySignature(env, ParseFixed(r.submissionId, 32).value, a).Done?
    ensures Outcome(env, Run(env, [Upsert(r.(submissionId := StripPrefix(r.submissionId)), a)] + later), Upsert(r, sig))
            == Refused(ParamsConflict)
  {
    var id := StripPrefix(r.submissionId);
    AdmittedPassedAll(env, r, sig);
    DecodedIsHex(id);
    assert !Prefixed(id) by {
      assert HexValue('x').None?;
    }
    assert ParseFixed(id, 32) == ParseFixed(r.submissionId, 32);
    OtherSpellingIsAdmitted(env, r, id, sig, a);
    FirstPostDecides(env, P, r.(submissionId := id), a, r, sig, later);
  }

  // ----- files and ids -----

  /** Which operations of the run were accepted. */
  function Accepted(env: Env, ops: seq<Op>): (a: seq<bool>)
    ensures |a| == |ops|
  {
    if ops == [] then []
    else
      var n := |ops| - 1;
      Accepted(env, ops[..n]) + [Outcome(env, Run(env, ops[..n]), ops[n]).Done?]
  }

  /** Step `n` of the run is an accepted post of the file `key`. */
  predicate Posted(env: Env, ops: seq<Op>, n: nat, key: string) {
    n < |ops| && ops[n].Upsert? && StripPrefix(ops[n].record.submissionId) == key && Accepted(env, ops)[n]
  }

  lemma ApplyAddsFile(env: Env, files: Files, op: Op, key: string)
    ensures key in Apply(env, files, op)
            <==> key in files || (op.Upsert? && StripPrefix(op.record.submissionId) == key && Outcome(env, files, op).Done?)
  {
  }

  ghost predicate SomePosted(env: Env, ops: seq<Op>, key: string) {
    exists n: nat :: Posted(env, ops, n, key)
  }

  lemma PostedPrefix(env: Env, ops: seq<Op>, k: nat, key: string)
    requires ops != [] && k < |ops| - 1
    ensures Posted(env, ops[..|ops| - 1], k, key) <==> Posted(env, ops, k, key)
  {
    assert Accepted(env, ops)[k] == Accepted(env, ops[..|ops| - 1])[k];
  }

  lemma PostedInFront(env: Env, ops: seq<Op>, key: string)
    requires ops != [] && SomePosted(env, ops, key) && !Posted(env, ops, |ops| - 1, key)
    ensures SomePosted(env, ops[..|ops| - 1], key)
  {
    var k: nat :| Posted(env, ops, k, key);
    PostedPrefix(env, ops, k, key);
  }

  lemma PostedStays(env: Env, ops: seq<Op>, key: string)
    requires ops != [] && SomePosted(env, ops[..|ops| - 1], key)
    ensures SomePosted(env, ops, key)
  {
    var k: nat :| Posted(env, ops[..|ops| - 1], k, key);
    PostedPrefix(env, ops, k, key);
  }

  /** The last step posts the file, or it was there before. */
  lemma LastPosted(env: Env, ops: seq<Op>, key: string)
    requires ops != []
    ensures key in Run(env, ops) <==> key in Run(env, ops[..|ops| - 1]) || Posted(env, ops, |ops| - 1, key)
  {
    ApplyAddsFile(env, Run(env, ops[..|ops| - 1]), ops[|ops| - 1], key);
  }

  /** The files are exactly the spellings of the accepted posts. */
  lemma {:induction false} FilesArePosted(env: Env, ops: seq<Op>, key: string)
    ensures key in Run(env, ops) <==> SomePosted(env, ops, key)
  {
    if ops != [] {
      var n := |ops| - 1;
      FilesArePosted(env, ops[..n], key);
      LastPosted(env, ops, key);
      if SomePosted(env, ops, key) && !Posted(env, ops, n, key) {
        PostedInFront(env, ops, key);
      }
      if SomePosted(env, ops[..n], key) {
        PostedStays(env, ops, key);
      }
    }
  }

  /** No two files carry the same id. */
  predicate OneFilePerId(files: Files) {
    forall k1, k2 | k1 in files && k2 in files ::
      ParseFixed(files[k1].submissionId, 32) == ParseFixed(files[k2].submissionId, 32) ==> k1 == k2
  }

  /** Two accepted posts never spell one id in different cases. */
  ghost predicate OneSpelling(env: Env, ops: seq<Op>) {
    forall m, n, k1, k2 :: Posted(env, ops, m, k1) && Posted(env, ops, n, k2) && SameText(k1, k2) ==> k1 == k2
  }

  /** Two files carry the same id exactly when their names differ at most in case. */
  lemma SameIdIff(env: Env, files: Files, k1: string, k2: string)
    requires Inv(env, files) && k1 in files && k2 in files
    ensures ParseFixed(files[k1].submissionId, 32) == ParseFixed(files[k2].submissionId, 32) <==> SameText(k1, k2)
  {
    assert RecordGood(env, k1, files[k1]) && RecordGood(env, k2, files[k2]);
    SameBytesIffSameFold(k1, k2);
  }

  /** Over every run, each id has one file if and only if its accepted posts spell it in one case. */
  lemma OneFilePerIdIff(env: Env, P: set<Bytes>, ops: seq<Op>)
    requires StrictRecovery(env.recovery) && CollisionFree(env.lib.keccak, P) && FairOps(env, P, ops)
    ensures OneFilePerId(Run(env, ops)) <==> OneSpelling(env, ops)
  {
    var files := Run(env, ops);
    RunKeepsInv(env, P, ops);
    if OneSpelling(env, ops) {
      forall k1, k2 | k1 in files && k2 in files
        && ParseFixed(files[k1].submissionId, 32) == ParseFixed(files[k2].submissionId, 32)
        ensures k1 == k2
      {
        SameIdIff(env, files, k1, k2);
        FilesArePosted(env, ops, k1);
        FilesArePosted(env, ops, k2);
        var m: nat :| Posted(env, ops, m, k1);
        var n: nat :| Posted(env, ops, n, k2);
      }
    }
    if OneFilePerId(files) {
      forall m, n, k1, k2 | Posted(env, ops, m, k1) && Posted(env, ops, n, k2) && SameText(k1, k2) ensures k1 == k2 {
        FilesArePosted(env, ops, k1);
        FilesArePosted(env, ops, k2);
        SameIdIff(env, files, k1, k2);
      }
    }
  }

  predicate LowerCaseIds(ops: seq<Op>) {
    forall n :: 0 <= n < |ops| && ops[n].Upsert? ==> Fold(ops[n].record.submissionId) == ops[n].record.submissionId
  }

  /** Ids in lower case, as events are printed, have one file each. */
  lemma LowerCaseIdsHaveOneFile(env: Env, P: set<Bytes>, ops: seq<Op>)
    requires StrictRecovery(env.recovery) && CollisionFree(env.lib.keccak, P) && FairOps(env, P, ops)
    requires LowerCaseIds(ops)
    ensures OneFilePerId(Run(env, ops))
  {
    OneFilePerIdIff(env, P, ops);
    forall m, n, k1, k2 | Posted(env, ops, m, k1) && Posted(env, ops, n, k2) && SameText(k1, k2) ensures k1 == k2 {
      LowerCasePosted(env, ops, m, k1);
      LowerCasePosted(env, ops, n, k2);
    }
  }

  lemma LowerCasePosted(env: Env, ops: seq<Op>, n: nat, key: string)
    requires LowerCaseIds(ops) && Posted(env, ops, n, key)
    ensures Fold(key) == key
  {
    LowerCaseStripped(ops[n].record.submissionId);
  }

  lemma LowerCaseStripped(s: string)
    requires Fold(s) == s
    ensures Fold(StripPrefix(s)) == StripPrefix(s)
  {
    assert forall i :: 0 <= i < |s| ==> FoldChar(s[i]) == s[i];
  }

  /** One transfer posted under two spellings that differ in case ends in two files, each with one signature. */
  lemma CaseSplitsTheFile(env: Env, r: Record, id: string, a: SignerSig, b: SignerSig)
    requires StrictRecovery(env.recovery) && Admit(env, r, a).Done? && NoLists(r)
    requires ParseFixed(id, 32) == ParseFixed(r.submissionId, 32) && StripPrefix(id) != StripPrefix(r.submissionId)
    requires VerifySignature(env, ParseFixed(r.submissionId, 32).value, b).Done?
    ensures CanonicalSignature(a).Done? && CanonicalSignature(b).Done?
    ensures SameText(StripPrefix(r.submissionId), StripPrefix(id))
    ensures Run(env, [Upsert(r, a), Upsert(r.(submissionId := id), b)])
            == map[StripPrefix(r.submissionId) := r.(signatures := [CanonicalSignature(a).value]),
                   StripPrefix(id) := r.(submissionId := id, signatures := [CanonicalSignature(b).value])]
  {
    OtherSpellingIsAdmitted(env, r, id, a, b);
    SameSpelling(env, r, id, a);
    NewFile(env, map[], r, a);
    NewFile(env, map[StripPrefix(r.submissionId) := r.(signatures := [CanonicalSignature(a).value])],
            r.(submissionId := id), b);
    TwoOps(env, Upsert(r, a), Upsert(r.(submissionId := id), b));
  }

  lemma SameSpelling(env: Env, r: Record, id: string, sig: SignerSig)
    requires Admit(env, r, sig).Done? && ParseFixed(id, 32) == ParseFixed(r.submissionId, 32)
    ensures SameText(StripPrefix(r.submissionId), StripPrefix(id))
  {
    AdmittedPassedAll(env, r, sig);
    SameBytesIffSameFold(StripPrefix(r.submissionId), StripPrefix(id));
  }

  lemma TwoOps(env: Env, a: Op, b: Op)
    ensures Run(env, [a, b]) == Apply(env, Apply(env, map[], a), b)
  {
    assert [a, b][..1] == [a] && [a][..0] == [];
    assert Run(env, [a]) == Apply(env, Run(env, []), a);
  }

  /** An admitted post of a new file writes it with the one signature. */
  lemma NewFile(env: Env, files: Files, r: Record, sig: SignerSig)
    requires Admit(env, r, sig).Done? && NoLists(r) && StripPrefix(r.submissionId) !in files
    ensures CanonicalSignature(sig).Done?
    ensures Outcome(env, files, Upsert(r, sig)).Done?
    ensures Apply(env, files, Upsert(r, sig))
            == files[StripPrefix(r.submissionId) := r.(signatures := [CanonicalSignature(sig).value])]
  {
    AdmittedPassedAll(env, r, sig);
    assert r.signatures + [CanonicalSignature(sig).value] == [CanonicalSignature(sig).value];
  }

  /** An admitted post over the same record with a new signer appends its signature. */
  lemma NextEntry(env: Env, files: Files, r: Record, bucket: seq<SignerSig>, sig: SignerSig)
    requires Admit(env, r, sig).Done? && NoLists(r) && StripPrefix(r.submissionId) in files
    requires files[StripPrefix(r.submissionId)] == r.(signatures := bucket)
    requires !HasSigner(bucket, sig.signer) && |bucket| < 64
    ensures CanonicalSignature(sig).Done?
    ensures Apply(env, files, Upsert(r, sig))
            == files[StripPrefix(r.submissionId) := r.(signatures := bucket + [CanonicalSignature(sig).value])]
  {
    AdmittedPassedAll(env, r, sig);
    var e := r.(signatures := bucket);
    assert SameParams(e, r);
    assert Merged(files, r) == Some(e);
    UpsertOutcome(env, files, r, sig);
  }

  lemma StaysPresent(env: Env, before: Files, after: Files, op: Op)
    requires Grows(env, before, after) && SignerPresent(before, op)
    ensures SignerPresent(after, op)
  {
    var (key, kind, sig) := Target(op);
    var i :| 0 <= i < |BucketOf(before[key], kind)| && SameText(BucketOf(before[key], kind)[i].signer, sig.signer);
    assert Extends(env, before[key], after[key]);
    assert BucketOf(before[key], kind) <= BucketOf(after[key], kind);
    assert BucketOf(after[key], kind)[i] == BucketOf(before[key], kind)[i];
  }

  /**
   The store tells signers apart by text. Two texts of one address are the same
   signer to it exactly when both or neither carry the `0x` prefix.
   */
  lemma SameSignerIff(a: string, b: string)
    requires ParseFixed(a, 20).Some? && ParseFixed(a, 20) == ParseFixed(b, 20)
    ensures SameText(a, b) <==> (Prefixed(a) <==> Prefixed(b))
  {
    SameBytesIffSameFold(StripPrefix(a), StripPrefix(b));
    DecodedTextIsEncoding(StripPrefix(a));
    DecodedTextIsEncoding(StripPrefix(b));
    assert |StripPrefix(a)| == 40 && |StripPrefix(b)| == 40;
    if Prefixed(a) && Prefixed(b) {
      assert a == ['0', 'x'] + StripPrefix(a) && b == ['0', 'x'] + StripPrefix(b);
      FoldPair('0', 'x', StripPrefix(a));
      FoldPair('0', 'x', StripPrefix(b));
    }
  }

  /** So one validator can hold two entries, once with the prefix and once without. */
  lemma UnprefixedTwinIsASecondEntry(a: Address)
    ensures ParseFixed(Hex0x(a), 20) == ParseFixed(HexEncode(a), 20) == Some(a)
    ensures !SameText(Hex0x(a), HexEncode(a))
  {
    Hex0xRoundTrip(a);
    HexRoundTrip(a);
    HexCharValue(a[0] % 16);
    assert HexEncode(a)[1] == HexChar(a[0] % 16);
    assert !Prefixed(HexEncode(a));
  }

  /** When every signer is written with the prefix, a good bucket holds each address at most once. */
  lemma PrefixedBucketHasDistinctAddresses(env: Env, message: Bytes32, bucket: seq<SignerSig>, i: nat, j: nat)
    requires BucketGood(env, message, bucket) && i < j < |bucket|
    requires forall k :: 0 <= k < |bucket| ==> Prefixed(bucket[k].signer)
    ensures ParseFixed(bucket[i].signer, 20) != ParseFixed(bucket[j].signer, 20)
  {
    if ParseFixed(bucket[i].signer, 20) == ParseFixed(bucket[j].signer, 20) {
      SameSignerIff(bucket[i].signer, bucket[j].signer);
      assert false;
    }
  }

  // ----- which events can be stored -----

  /**
   The record printed from an event is within the store's size bounds exactly
   when its account fields have at most 32 bytes and its payload 32 KiB.
   */
  lemma SentRecordStorableIff(ev: SentEvent, bridgeDomain: Bytes32)
    requires RecordOfEvent(ev, bridgeDomain).Some?
    ensures Oversized(RecordOfEvent(ev, bridgeDomain).value).None?
            <==> |ev.receiver| <= 32 && |ev.nativeSender| <= 32
                 && |ev.autoParams| <= 32768
  {
    AmountFits(ev.amount);
  }

  lemma AmountFits(amount: u256)
    ensures |Decimal(amount)| <= MAX_UINT256_DECIMAL_LEN
  {
    TwoTo256HasAtMost78Digits();
    DecimalLength(amount, 78);
  }

  lemma TwoTo256HasAtMost78Digits()
    ensures U256_LIMIT <= Pow10(78)
  {
    assert Pow10(13) == 1_0000_0000_0000_0;
    assert Pow10(26) == Pow10(13) * Pow10(13) by { Pow10Sum(13, 13); }
    assert Pow10(39) == Pow10(26) * Pow10(13) by { Pow10Sum(26, 13); }
    assert Pow10(78) == Pow10(39) * Pow10(39) by { Pow10Sum(39, 39); }
  }
}
