/**
 The submissionId preimage and the digests validators sign.

 `keccak` is a parameter of everything here. Facts that need it to be collision
 free say so for the finite set `P` of byte strings that were actually hashed.
 */
module SubmissionHash {
  import opened Words

  type Hash = Bytes -> Bytes32

  const SUBMISSION_PREFIX: u64 := 1
  const CANCEL_PREFIX: u64 := 2
  const REFUND_PREFIX: u64 := 3
  /** The widest receiver any gate sends to, and the widest the store keeps. */
  const MAX_ACCOUNT_BYTES := 32
  /** ASCII of "\x19Ethereum Signed Message:\n32". */
  /** EIP-191 version 0x45, for a message of 32 bytes. */
  const ETH_SIGNED_PREFIX: Bytes := [0x19] + (ETHEREUM + (SIGNED + MESSAGE)) + [0x0A] + [0x33, 0x32]

  const ETHEREUM: Bytes := [0x45, 0x74, 0x68, 0x65, 0x72, 0x65, 0x75, 0x6D, 0x20]
  const SIGNED: Bytes := [0x53, 0x69, 0x67, 0x6E, 0x65, 0x64, 0x20]
  const MESSAGE: Bytes := [0x4D, 0x65, 0x73, 0x73, 0x61, 0x67, 0x65, 0x3A]

  /** Optional execution payload; fee and flags are 256-bit words. */
  datatype AutoParams = AutoParams(
    executionFee: Bytes32, flags: Bytes32,
    fallbackAddress: Bytes, data: Bytes, nativeSender: Bytes)

  /** Every field of one transfer that its submissionId covers. */
  datatype Submission = Submission(
    bridgeDomain: Bytes32, debridgeId: Bytes32, bridgeDecimals: byte, amount: u256,
    chainIdFrom: u256, chainIdTo: u256, nonce: u256,
    receiver: Bytes, auto: Option<AutoParams>)

  predicate CollisionFree(keccak: Hash, P: set<Bytes>) {
    forall x, y :: x in P && y in P && keccak(x) == keccak(y) ==> x == y
  }

  /** `abi.encodePacked` of the nine base fields. */
  function Packed(s: Submission): (p: Bytes)
    ensures |p| == 225 + |s.receiver|
  {
    ToBe(SUBMISSION_PREFIX, 32) + s.bridgeDomain + s.debridgeId
    + ToBe(s.chainIdFrom, 32) + ToBe(s.chainIdTo, 32)
    + [s.bridgeDecimals] + ToBe(s.amount, 32) + s.receiver + ToBe(s.nonce, 32)
  }

  function PackedAuto(keccak: Hash, a: AutoParams): (p: Bytes)
    ensures |p| == 160
  {
    a.executionFee + a.flags
    + keccak(a.fallbackAddress) + keccak(a.data) + keccak(a.nativeSender)
  }

  function Preimage(keccak: Hash, s: Submission): (p: Bytes)
    ensures |p| == 225 + |s.receiver| + (if s.auto.Some? then 160 else 0)
  {
    Packed(s) + if s.auto.Some? then PackedAuto(keccak, s.auto.value) else []
  }

  function SubmissionId(keccak: Hash, s: Submission): Bytes32 {
    keccak(Preimage(keccak, s))
  }

  function DomainPreimage(prefix: u64, id: Bytes32): (p: Bytes)
    ensures |p| == 64
  {
    ToBe(prefix, 32) + id
  }

  function CancelId(keccak: Hash, id: Bytes32): Bytes32 { keccak(DomainPreimage(CANCEL_PREFIX, id)) }

  function RefundId(keccak: Hash, id: Bytes32): Bytes32 { keccak(DomainPreimage(REFUND_PREFIX, id)) }

  /** EIP-191 version 0x45: the digest a validator's key actually signs. */
  function EthSignedDigest(keccak: Hash, message: Bytes32): Bytes32 {
    keccak(ETH_SIGNED_PREFIX + message)
  }

  /** Every byte string hashed while computing the id of `s`. */
  function HashedFor(keccak: Hash, s: Submission): set<Bytes> {
    {Preimage(keccak, s)}
    + if s.auto.Some? then {s.auto.value.fallbackAddress, s.auto.value.data, s.auto.value.nativeSender} else {}
  }

  /** Every byte string hashed while checking a vote on the transfer `s`, whichever of the three votes it is. */
  function HashedForVotes(keccak: Hash, s: Submission): set<Bytes> {
    var id := SubmissionId(keccak, s);
    HashedFor(keccak, s)
    + {DomainPreimage(CANCEL_PREFIX, id), DomainPreimage(REFUND_PREFIX, id)}
    + {ETH_SIGNED_PREFIX + id, ETH_SIGNED_PREFIX + CancelId(keccak, id), ETH_SIGNED_PREFIX + RefundId(keccak, id)}
  }

  lemma SplitConcat(a: Bytes, b: Bytes, c: Bytes, d: Bytes)
    requires |a| == |c| && a + b == c + d
    ensures a == c && b == d
  {
    assert a == (a + b)[..|a|] && c == (c + d)[..|c|];
    assert b == (a + b)[|a|..] && d == (c + d)[|c|..];
  }

  /** The four leading 32-byte fields after the prefix. */
  function PackedHead(s: Submission): (p: Bytes)
    ensures |p| == 160
  {
    ToBe(SUBMISSION_PREFIX, 32) + s.bridgeDomain + s.debridgeId + ToBe(s.chainIdFrom, 32) + ToBe(s.chainIdTo, 32)
  }

  lemma PackedHeadInjective(s: Submission, t: Submission)
    requires PackedHead(s) == PackedHead(t)
    ensures s.bridgeDomain == t.bridgeDomain && s.debridgeId == t.debridgeId
    ensures s.chainIdFrom == t.chainIdFrom && s.chainIdTo == t.chainIdTo
  {
    var p := ToBe(SUBMISSION_PREFIX, 32);
    SplitConcat(p + s.bridgeDomain + s.debridgeId + ToBe(s.chainIdFrom, 32), ToBe(s.chainIdTo, 32),
                p + t.bridgeDomain + t.debridgeId + ToBe(t.chainIdFrom, 32), ToBe(t.chainIdTo, 32));
    SplitConcat(p + s.bridgeDomain + s.debridgeId, ToBe(s.chainIdFrom, 32),
                p + t.bridgeDomain + t.debridgeId, ToBe(t.chainIdFrom, 32));
    SplitConcat(p + s.bridgeDomain, s.debridgeId, p + t.bridgeDomain, t.debridgeId);
    SplitConcat(p, s.bridgeDomain, p, t.bridgeDomain);
    WordLimits();
    ToBeInjective(s.chainIdFrom, t.chainIdFrom, 32);
    ToBeInjective(s.chainIdTo, t.chainIdTo, 32);
  }

  /** Submissions packed alike, with receivers of the same width, have the same base fields. */
  lemma PackedInjective(s: Submission, t: Submission)
    requires |s.receiver| == |t.receiver| && Packed(s) == Packed(t)
    ensures s.(auto := None) == t.(auto := None)
  {
    SplitConcat(PackedHead(s) + [s.bridgeDecimals] + ToBe(s.amount, 32) + s.receiver, ToBe(s.nonce, 32),
                PackedHead(t) + [t.bridgeDecimals] + ToBe(t.amount, 32) + t.receiver, ToBe(t.nonce, 32));
    SplitConcat(PackedHead(s) + [s.bridgeDecimals] + ToBe(s.amount, 32), s.receiver,
                PackedHead(t) + [t.bridgeDecimals] + ToBe(t.amount, 32), t.receiver);
    SplitConcat(PackedHead(s) + [s.bridgeDecimals], ToBe(s.amount, 32),
                PackedHead(t) + [t.bridgeDecimals], ToBe(t.amount, 32));
    SplitConcat(PackedHead(s), [s.bridgeDecimals], PackedHead(t), [t.bridgeDecimals]);
    PackedHeadInjective(s, t);
    WordLimits();
    ToBeInjective(s.amount, t.amount, 32);
    ToBeInjective(s.nonce, t.nonce, 32);
  }

  lemma PackedAutoInjective(keccak: Hash, a: AutoParams, b: AutoParams)
    requires PackedAuto(keccak, a) == PackedAuto(keccak, b)
    ensures a.executionFee == b.executionFee && a.flags == b.flags
    ensures keccak(a.fallbackAddress) == keccak(b.fallbackAddress)
    ensures keccak(a.data) == keccak(b.data) && keccak(a.nativeSender) == keccak(b.nativeSender)
  {
    SplitConcat(a.executionFee + a.flags + keccak(a.fallbackAddress) + keccak(a.data), keccak(a.nativeSender),
                b.executionFee + b.flags + keccak(b.fallbackAddress) + keccak(b.data), keccak(b.nativeSender));
    SplitConcat(a.executionFee + a.flags + keccak(a.fallbackAddress), keccak(a.data),
                b.executionFee + b.flags + keccak(b.fallbackAddress), keccak(b.data));
    SplitConcat(a.executionFee + a.flags, keccak(a.fallbackAddress), b.executionFee + b.flags, keccak(b.fallbackAddress));
    SplitConcat(a.executionFee, a.flags, b.executionFee, b.flags);
  }

  /** The packed fields before the receiver. */
  function PackedStart(s: Submission): (p: Bytes)
    ensures |p| == 193
  {
    PackedHead(s) + [s.bridgeDecimals] + ToBe(s.amount, 32)
  }

  lemma PackedStartInjective(s: Submission, t: Submission)
    requires PackedStart(s) == PackedStart(t)
    ensures s.bridgeDomain == t.bridgeDomain && s.debridgeId == t.debridgeId && s.amount == t.amount
    ensures s.chainIdFrom == t.chainIdFrom && s.chainIdTo == t.chainIdTo && s.bridgeDecimals == t.bridgeDecimals
  {
    SplitConcat(PackedHead(s) + [s.bridgeDecimals], ToBe(s.amount, 32),
                PackedHead(t) + [t.bridgeDecimals], ToBe(t.amount, 32));
    SplitConcat(PackedHead(s), [s.bridgeDecimals], PackedHead(t), [t.bridgeDecimals]);
    PackedHeadInjective(s, t);
    WordLimits();
    ToBeInjective(s.amount, t.amount, 32);
  }

  /** The first four of the five payload words. */
  function AutoStart(keccak: Hash, a: AutoParams): (p: Bytes)
    ensures |p| == 128
  {
    a.executionFee + a.flags + keccak(a.fallbackAddress) + keccak(a.data)
  }

  /**
   The plain transfer `t` has the preimage of `s` with its payload: its receiver
   swallows everything up to the last word, and that word is its nonce.
   */
  predicate Swallows(keccak: Hash, t: Submission, s: Submission) {
    && s.auto.Some? && keccak(s.auto.value.nativeSender) == ToBe(t.nonce, 32)
    && t == s.(receiver := s.receiver + ToBe(s.nonce, 32) + AutoStart(keccak, s.auto.value), nonce := t.nonce, auto := None)
  }

  /**
   A plain receiver 160 bytes wider than that of a transfer with a payload: the
   only widths at which the packing can be ambiguous.
   */
  predicate AmbiguousWidths(s: Submission, t: Submission) {
    || (s.auto.Some? && t.auto.None? && |t.receiver| == |s.receiver| + 160)
    || (t.auto.Some? && s.auto.None? && |s.receiver| == |t.receiver| + 160)
  }

  lemma SwallowedFields(keccak: Hash, s: Submission, t: Submission)
    requires s.auto.Some? && t.auto.None? && Preimage(keccak, s) == Preimage(keccak, t)
    ensures PackedStart(s) == PackedStart(t) && keccak(s.auto.value.nativeSender) == ToBe(t.nonce, 32)
    ensures t.receiver == s.receiver + ToBe(s.nonce, 32) + AutoStart(keccak, s.auto.value)
  {
    var a, start := s.auto.value, AutoStart(keccak, s.auto.value);
    assert PackedAuto(keccak, a) == start + keccak(a.nativeSender);
    assert Preimage(keccak, s) == Packed(s) + start + keccak(a.nativeSender);
    assert Packed(t) == PackedStart(t) + t.receiver + ToBe(t.nonce, 32);
    assert Preimage(keccak, t) == Packed(t);
    SplitConcat(Packed(s) + start, keccak(a.nativeSender), PackedStart(t) + t.receiver, ToBe(t.nonce, 32));
    var swallowed := s.receiver + ToBe(s.nonce, 32) + start;
    assert Packed(s) + start == PackedStart(s) + swallowed;
    SplitConcat(PackedStart(s), swallowed, PackedStart(t), t.receiver);
  }

  lemma SwallowsHasSamePreimage(keccak: Hash, t: Submission, s: Submission)
    requires Swallows(keccak, t, s)
    ensures Preimage(keccak, t) == Preimage(keccak, s)
  {
    var a, start := s.auto.value, AutoStart(keccak, s.auto.value);
    assert PackedAuto(keccak, a) == start + keccak(a.nativeSender);
    assert PackedStart(t) == PackedStart(s);
    assert Packed(t) == PackedStart(t) + t.receiver + ToBe(t.nonce, 32);
    assert Preimage(keccak, s) == Packed(s) + start + keccak(a.nativeSender);
    assert Packed(s) + start == PackedStart(s) + (s.receiver + ToBe(s.nonce, 32) + start);
  }

  lemma SamePayloadInjective(keccak: Hash, P: set<Bytes>, s: Submission, t: Submission)
    requires s.auto.Some? == t.auto.Some?
    requires CollisionFree(keccak, P) && HashedFor(keccak, s) <= P && HashedFor(keccak, t) <= P
    requires Preimage(keccak, s) == Preimage(keccak, t)
    ensures s == t
  {
    var x := if s.auto.Some? then PackedAuto(keccak, s.auto.value) else [];
    var y := if t.auto.Some? then PackedAuto(keccak, t.auto.value) else [];
    SplitConcat(Packed(s), x, Packed(t), y);
    PackedInjective(s, t);
    if s.auto.Some? {
      var a, b := s.auto.value, t.auto.value;
      PackedAutoInjective(keccak, a, b);
      assert {a.fallbackAddress, a.data, a.nativeSender} <= P && {b.fallbackAddress, b.data, b.nativeSender} <= P;
    }
  }

  /**
   The packing carries no length prefix, neither for the receiver nor for the
   payload. Two transfers have one preimage exactly when they are the same, or one
   is plain and its receiver swallows the other's payload.
   */
  lemma SamePreimageIff(keccak: Hash, P: set<Bytes>, s: Submission, t: Submission)
    requires CollisionFree(keccak, P) && HashedFor(keccak, s) <= P && HashedFor(keccak, t) <= P
    ensures Preimage(keccak, s) == Preimage(keccak, t)
            <==> s == t || Swallows(keccak, s, t) || Swallows(keccak, t, s)
  {
    if Preimage(keccak, s) == Preimage(keccak, t) {
      if s.auto.Some? == t.auto.Some? {
        SamePayloadInjective(keccak, P, s, t);
      } else if s.auto.Some? {
        SwallowedFields(keccak, s, t);
        PackedStartInjective(s, t);
      } else {
        SwallowedFields(keccak, t, s);
        PackedStartInjective(t, s);
      }
    } else if Swallows(keccak, s, t) {
      SwallowsHasSamePreimage(keccak, s, t);
    } else if Swallows(keccak, t, s) {
      SwallowsHasSamePreimage(keccak, t, s);
    }
  }

  /**
   So the packing is unambiguous except at receiver widths exactly 160 bytes apart,
   and always for receivers of up to 32 bytes.
   */
  lemma PreimageInjective(keccak: Hash, P: set<Bytes>, s: Submission, t: Submission)
    requires !AmbiguousWidths(s, t)
    requires CollisionFree(keccak, P) && HashedFor(keccak, s) <= P && HashedFor(keccak, t) <= P
    requires Preimage(keccak, s) == Preimage(keccak, t)
    ensures s == t
  {
    SamePreimageIff(keccak, P, s, t);
  }

  /** At any such widths it is ambiguous: some plain transfer shares the preimage as soon as the last word fits its nonce. */
  lemma WideReceiversAreAmbiguous(keccak: Hash, s: Submission, nonce: u256) returns (t: Submission)
    requires s.auto.Some? && keccak(s.auto.value.nativeSender) == ToBe(nonce, 32)
    ensures t.auto.None? && t.nonce == nonce && |t.receiver| == |s.receiver| + 160
    ensures Preimage(keccak, t) == Preimage(keccak, s)
  {
    t := s.(receiver := s.receiver + ToBe(s.nonce, 32) + AutoStart(keccak, s.auto.value), nonce := nonce, auto := None);
    SwallowsHasSamePreimage(keccak, t, s);
  }

  /** Without hash collisions a submissionId names one transfer. */
  lemma SubmissionIdInjective(keccak: Hash, P: set<Bytes>, s: Submission, t: Submission)
    requires !AmbiguousWidths(s, t)
    requires CollisionFree(keccak, P) && HashedFor(keccak, s) <= P && HashedFor(keccak, t) <= P
    requires SubmissionId(keccak, s) == SubmissionId(keccak, t)
    ensures s == t
  {
    assert Preimage(keccak, s) in P && Preimage(keccak, t) in P;
    PreimageInjective(keccak, P, s, t);
  }

  /** The three things a validator may sign about one transfer. */
  datatype Vote = Transfer | Cancel | Refund

  function VoteMessage(keccak: Hash, vote: Vote, id: Bytes32): Bytes32 {
    match vote
    case Transfer => id
    case Cancel => CancelId(keccak, id)
    case Refund => RefundId(keccak, id)
  }

  /** What is hashed to obtain the message of `vote`. */
  function VotePreimage(keccak: Hash, vote: Vote, s: Submission): Bytes {
    match vote
    case Transfer => Preimage(keccak, s)
    case Cancel => DomainPreimage(CANCEL_PREFIX, SubmissionId(keccak, s))
    case Refund => DomainPreimage(REFUND_PREFIX, SubmissionId(keccak, s))
  }

  /** No two of the three kinds of preimage coincide, and within a kind they determine the submissionId. */
  lemma VotePreimagesDisjoint(keccak: Hash, v: Vote, s: Submission, w: Vote, t: Submission)
    requires VotePreimage(keccak, v, s) == VotePreimage(keccak, w, t)
    ensures v == w && SubmissionId(keccak, s) == SubmissionId(keccak, t)
  {
    if v.Transfer? || w.Transfer? {
      assert |VotePreimage(keccak, v, s)| == |VotePreimage(keccak, w, t)|;
    } else {
      var p, q := if v.Cancel? then CANCEL_PREFIX else REFUND_PREFIX, if w.Cancel? then CANCEL_PREFIX else REFUND_PREFIX;
      SplitConcat(ToBe(p, 32), SubmissionId(keccak, s), ToBe(q, 32), SubmissionId(keccak, t));
      WordLimits();
      ToBeInjective(p, q, 32);
    }
  }

  /** Equal signed digests come from the same kind of vote on the same submissionId, whatever the receivers' widths. */
  lemma VoteDigestSeparates(keccak: Hash, P: set<Bytes>, v: Vote, s: Submission, w: Vote, t: Submission)
    requires CollisionFree(keccak, P) && HashedForVotes(keccak, s) <= P && HashedForVotes(keccak, t) <= P
    requires EthSignedDigest(keccak, VoteMessage(keccak, v, SubmissionId(keccak, s)))
          == EthSignedDigest(keccak, VoteMessage(keccak, w, SubmissionId(keccak, t)))
    ensures v == w && SubmissionId(keccak, s) == SubmissionId(keccak, t)
  {
    var m, n := VoteMessage(keccak, v, SubmissionId(keccak, s)), VoteMessage(keccak, w, SubmissionId(keccak, t));
    assert ETH_SIGNED_PREFIX + m in P && ETH_SIGNED_PREFIX + n in P;
    SplitConcat(ETH_SIGNED_PREFIX, m, ETH_SIGNED_PREFIX, n);
    assert VotePreimage(keccak, v, s) in P && VotePreimage(keccak, w, t) in P;
    VotePreimagesDisjoint(keccak, v, s, w, t);
  }

  lemma TakeOfConcat(a: Bytes, b: Bytes, n: nat)
    requires n <= |a|
    ensures (a + b)[..n] == a[..n]
  {
  }

  lemma PreimageStart(keccak: Hash, s: Submission)
    ensures Preimage(keccak, s)[..193] == PackedStart(s)
  {
    var start := PackedStart(s);
    TakeOfConcat(start, s.receiver, 193);
    TakeOfConcat(start + s.receiver, ToBe(s.nonce, 32), 193);
    TakeOfConcat(Packed(s), if s.auto.Some? then PackedAuto(keccak, s.auto.value) else [], 193);
  }

  /** Two submissions of any receiver width that share an id agree on everything packed before the receiver. */
  lemma SameIdSameHead(keccak: Hash, P: set<Bytes>, s: Submission, t: Submission)
    requires CollisionFree(keccak, P) && HashedFor(keccak, s) <= P && HashedFor(keccak, t) <= P
    requires SubmissionId(keccak, s) == SubmissionId(keccak, t)
    ensures s.bridgeDomain == t.bridgeDomain && s.debridgeId == t.debridgeId && s.amount == t.amount
    ensures s.chainIdFrom == t.chainIdFrom && s.chainIdTo == t.chainIdTo && s.bridgeDecimals == t.bridgeDecimals
  {
    assert Preimage(keccak, s) in P && Preimage(keccak, t) in P;
    PreimageStart(keccak, s);
    PreimageStart(keccak, t);
    PackedStartInjective(s, t);
  }

  // ----- where each field lies -----

  /** The next field of what is left. */
  lemma NextField(p: Bytes, read: Bytes, field: Bytes, rest: Bytes)
    requires p == read + (field + rest)
    ensures p == read + field + rest && p[|read|..|read| + |field|] == field
  {
    assert p == read + field + rest;
  }

  lemma NineThenRest(a: Bytes, b: Bytes, c: Bytes, d: Bytes, e: Bytes, f: Bytes, g: Bytes, h: Bytes, i: Bytes, r: Bytes)
    ensures a + b + c + d + e + f + g + h + i + r == a + (b + (c + (d + (e + (f + (g + (h + (i + r))))))))
  {
  }

  /** The words of `p` at `at`, read as a number. */
  function WordOf(p: Bytes, at: nat): nat
    requires at + 32 <= |p|
  {
    FromBe(p[at..at + 32])
  }

  /** The base fields, position by position, and what follows them. */
  lemma BaseReads(s: Submission, p: Bytes, rest: Bytes)
    requires p == Packed(s) + rest
    ensures |p| == 225 + |s.receiver| + |rest|
    ensures p[0..32] == ToBe(1, 32) && p[32..64] == s.bridgeDomain && p[64..96] == s.debridgeId
    ensures p[96..128] == ToBe(s.chainIdFrom, 32) && p[128..160] == ToBe(s.chainIdTo, 32)
    ensures p[160] == s.bridgeDecimals && p[161..193] == ToBe(s.amount, 32)
    ensures p[193..193 + |s.receiver|] == s.receiver
    ensures p[193 + |s.receiver|..225 + |s.receiver|] == ToBe(s.nonce, 32)
    ensures p[225 + |s.receiver|..] == rest
  {
    var w1, from, to := ToBe(1, 32), ToBe(s.chainIdFrom, 32), ToBe(s.chainIdTo, 32);
    var amount, nonce := ToBe(s.amount, 32), ToBe(s.nonce, 32);
    var r8 := nonce + rest;
    var r7 := s.receiver + r8;
    var r6 := amount + r7;
    var r5 := [s.bridgeDecimals] + r6;
    var r4 := to + r5;
    var r3 := from + r4;
    var r2 := s.debridgeId + r3;
    var r1 := s.bridgeDomain + r2;
    NineThenRest(w1, s.bridgeDomain, s.debridgeId, from, to, [s.bridgeDecimals], amount, s.receiver, nonce, rest);
    var h1 := w1 + s.bridgeDomain;
    var h2 := h1 + s.debridgeId;
    var h3 := h2 + from;
    var h4 := h3 + to;
    var h5 := h4 + [s.bridgeDecimals];
    var h6 := h5 + amount;
    var h7 := h6 + s.receiver;
    NextField(p, [], w1, r1);
    NextField(p, w1, s.bridgeDomain, r2);
    NextField(p, h1, s.debridgeId, r3);
    NextField(p, h2, from, r4);
    NextField(p, h3, to, r5);
    NextField(p, h4, [s.bridgeDecimals], r6);
    assert p[160] == p[160..161][0];
    NextField(p, h5, amount, r7);
    NextField(p, h6, s.receiver, r8);
    NextField(p, h7, nonce, rest);
  }

  lemma FiveWordsRead(p: Bytes, read: Bytes, a: Bytes32, b: Bytes32, c: Bytes32, d: Bytes32, e: Bytes32)
    requires p == read + (a + b + c + d + e)
    ensures var n := |read|;
            && |p| == n + 160 && p[n..n + 32] == a && p[n + 32..n + 64] == b && p[n + 64..n + 96] == c
            && p[n + 96..n + 128] == d && p[n + 128..n + 160] == e
  {
    var all := a + b + c + d + e;
    assert forall k :: 0 <= k < 160 ==> p[|read| + k] == all[k];
  }

  /**
   The preimage byte by byte: the constant 1, the domain, the asset, the source and
   destination chains, the scale in one byte, the amount, the receiver as it is, the
   nonce; then, with a payload, its fee, its flags, and the hashes of the fallback
   address, the data and the native sender. Nothing else.
   */
  lemma PreimageReads(keccak: Hash, s: Submission)
    ensures var p, n := Preimage(keccak, s), 193 + |s.receiver|;
            && |p| == n + 32 + (if s.auto.Some? then 160 else 0)
            && WordOf(p, 0) == 1 && p[32..64] == s.bridgeDomain && p[64..96] == s.debridgeId
            && WordOf(p, 96) == s.chainIdFrom && WordOf(p, 128) == s.chainIdTo
            && p[160] == s.bridgeDecimals && WordOf(p, 161) == s.amount
            && p[193..n] == s.receiver && WordOf(p, n) == s.nonce
            && (s.auto.Some? ==>
                  var a := s.auto.value;
                  && p[n + 32..n + 64] == a.executionFee && p[n + 64..n + 96] == a.flags
                  && p[n + 96..n + 128] == keccak(a.fallbackAddress) && p[n + 128..n + 160] == keccak(a.data)
                  && p[n + 160..n + 192] == keccak(a.nativeSender))
  {
    var p := Preimage(keccak, s);
    var rest := if s.auto.Some? then PackedAuto(keccak, s.auto.value) else [];
    BaseReads(s, p, rest);
    WordLimits();
    FromBeToBe(1, 32);
    FromBeToBe(s.chainIdFrom, 32);
    FromBeToBe(s.chainIdTo, 32);
    FromBeToBe(s.amount, 32);
    FromBeToBe(s.nonce, 32);
    if s.auto.Some? {
      var a := s.auto.value;
      FiveWordsRead(p, Packed(s), a.executionFee, a.flags, keccak(a.fallbackAddress), keccak(a.data),
                    keccak(a.nativeSender));
    }
  }

  /** The message of each vote: the id, or the hash of the constant 2 or 3 and the id. */
  lemma VoteMessageReads(keccak: Hash, id: Bytes32)
    ensures VoteMessage(keccak, Transfer, id) == id
    ensures VoteMessage(keccak, Cancel, id) == keccak(ToBe(2, 32) + id)
    ensures VoteMessage(keccak, Refund, id) == keccak(ToBe(3, 32) + id)
    ensures FromBe(ToBe(2, 32)) == 2 && FromBe(ToBe(3, 32)) == 3
  {
    WordLimits();
    FromBeToBe(2, 32);
    FromBeToBe(3, 32);
  }

  function Ascii(text: string): Bytes
    requires forall i :: 0 <= i < |text| ==> text[i] as int < 128
  {
    seq(|text|, i requires 0 <= i < |text| => text[i] as int)
  }

  lemma AsciiConcat(a: string, b: string)
    requires forall i :: 0 <= i < |a| ==> a[i] as int < 128
    requires forall i :: 0 <= i < |b| ==> b[i] as int < 128
    ensures Ascii(a + b) == Ascii(a) + Ascii(b)
  {
  }

  lemma TextReads()
    ensures ETHEREUM + (SIGNED + MESSAGE) == Ascii("Ethereum Signed Message:")
  {
    assert ETHEREUM == Ascii("Ethereum ");
    assert SIGNED == Ascii("Signed ");
    assert MESSAGE == Ascii("Message:");
    AsciiConcat("Signed ", "Message:");
    AsciiConcat("Ethereum ", "Signed " + "Message:");
    assert "Ethereum " + ("Signed " + "Message:") == "Ethereum Signed Message:";
  }

  /** What a key signs: the hash of byte 0x19, the text of EIP-191 version 0x45 for 32 bytes, and the message. */
  lemma SignedDigestReads(keccak: Hash, message: Bytes32)
    ensures EthSignedDigest(keccak, message)
            == keccak([0x19] + Ascii("Ethereum Signed Message:") + [0x0A] + Ascii("32") + message)
  {
    TextReads();
    assert [0x33, 0x32] == Ascii("32");
  }
}
