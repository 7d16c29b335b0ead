/**
 The two crates' hand-written packers. Both fill a buffer step by step, one over
 machine words and one over 256-bit integers; both must produce the bytes of
 `SubmissionHash`.
 */
module SolanaPacking {
  import opened Words
  import opened SubmissionHash

  /** A `u64` as a 32-byte EVM word: eight bytes copied into the tail of a zeroed buffer. */
  method Be32(v: u64) returns (word: Bytes32)
    ensures word == ToBe(v, 32)
  {
    var o := new byte[32](i => 0);
    var tail := ToBe(v, 8);
    for i := 0 to 8
      invariant o[..24] == Zeros(24) && o[24..24 + i] == tail[..i]
    {
      o[24 + i] := tail[i];
    }
    WordLimits();
    ToBePad(v, 24, 8);
    assert o[..] == o[..24] + o[24..32] && tail[..8] == tail;
    word := o[..];
  }

  /** A `u128` amount as the 32-byte word the hash expects. */
  method AmountWord(amount: u128) returns (word: Bytes32)
    ensures word == ToBe(amount, 32)
  {
    var o := new byte[32](i => 0);
    var tail := ToBe(amount, 16);
    for i := 0 to 16
      invariant o[..16] == Zeros(16) && o[16..16 + i] == tail[..i]
    {
      o[16 + i] := tail[i];
    }
    WordLimits();
    ToBePad(amount, 16, 16);
    assert o[..] == o[..16] + o[16..32] && tail[..16] == tail;
    word := o[..];
  }

  method PackedSubmission(
    bridgeDomain: Bytes32, debridgeId: Bytes32, bridgeDecimals: byte, amount: u128,
    chainIdFrom: u64, chainIdTo: u64, nonce: u64, receiver: Bytes)
    returns (p: Bytes)
    ensures p == Packed(Submission(bridgeDomain, debridgeId, bridgeDecimals, amount,
                                   chainIdFrom, chainIdTo, nonce, receiver, None))
  {
    p := Be32(SUBMISSION_PREFIX);
    p := p + bridgeDomain;
    p := p + debridgeId;
    var word := Be32(chainIdFrom);
    p := p + word;
    word := Be32(chainIdTo);
    p := p + word;
    p := p + [bridgeDecimals];
    word := AmountWord(amount);
    p := p + word;
    p := p + receiver;
    word := Be32(nonce);
    p := p + word;
  }

  method PackAuto(keccak: Hash, a: AutoParams) returns (p: Bytes)
    ensures p == PackedAuto(keccak, a)
  {
    p := a.executionFee;
    p := p + a.flags;
    p := p + keccak(a.fallbackAddress);
    p := p + keccak(a.data);
    p := p + keccak(a.nativeSender);
  }

  lemma PackedIgnoresPayload(s: Submission)
    ensures Packed(s.(auto := None)) == Packed(s)
  {
  }

  method IdFor(
    keccak: Hash, bridgeDomain: Bytes32, debridgeId: Bytes32, bridgeDecimals: byte, amount: u64,
    chainIdFrom: u64, chainIdTo: u64, nonce: u64, receiver: Bytes, auto: Option<AutoParams>)
    returns (id: Bytes32)
    ensures id == SubmissionId(keccak, Submission(bridgeDomain, debridgeId, bridgeDecimals, amount,
                                                  chainIdFrom, chainIdTo, nonce, receiver, auto))
  {
    ghost var s := Submission(bridgeDomain, debridgeId, bridgeDecimals, amount,
                              chainIdFrom, chainIdTo, nonce, receiver, auto);
    var p := PackedSubmission(bridgeDomain, debridgeId, bridgeDecimals, amount, chainIdFrom, chainIdTo, nonce, receiver);
    PackedIgnoresPayload(s);
    if auto.Some? {
      var payload := PackAuto(keccak, auto.value);
      p := p + payload;
    } else {
      assert Packed(s) + [] == Packed(s);
    }
    id := keccak(p);
  }
}

module CorePacking {
  import opened Words
  import opened SubmissionHash

  method PackedSubmission(
    bridgeDomain: Bytes32, debridgeId: Bytes32, bridgeDecimals: byte, amount: u256,
    chainIdFrom: u256, chainIdTo: u256, nonce: u256, receiver: Bytes)
    returns (packed: Bytes)
    ensures packed == Packed(Submission(bridgeDomain, debridgeId, bridgeDecimals, amount,
                                        chainIdFrom, chainIdTo, nonce, receiver, None))
  {
    packed := ToBe(SUBMISSION_PREFIX, 32);
    packed := packed + bridgeDomain;
    packed := packed + debridgeId;
    packed := packed + ToBe(chainIdFrom, 32);
    packed := packed + ToBe(chainIdTo, 32);
    packed := packed + [bridgeDecimals];
    packed := packed + ToBe(amount, 32);
    packed := packed + receiver;
    packed := packed + ToBe(nonce, 32);
  }
}
