/**
 Signature canonicalisation and the quorum check of the Solana gate.

 Curve recovery is a parameter (`Recovery`); the 256-bit arithmetic on `s` is
 done byte by byte, as the on-chain crate does it.
 */
module Verify {
  import opened Words
  import opened SubmissionHash
  import opened Collections

  /** secp256k1 group order, SEC 2 v2.0 section 2.4.1. */
  const SECP256K1_N: Bytes32 := N0 + N1 + N2 + N3

  const N0: Bytes := [0xFF, 0xFF, 0xFF, 0xFF, 0xFF, 0xFF, 0xFF, 0xFF]
  const N1: Bytes := [0xFF, 0xFF, 0xFF, 0xFF, 0xFF, 0xFF, 0xFF, 0xFE]
  const N2: Bytes := [0xBA, 0xAE, 0xDC, 0xE6, 0xAF, 0x48, 0xA0, 0x3B]
  const N3: Bytes := [0xBF, 0xD2, 0x5E, 0x8C, 0xD0, 0x36, 0x41, 0x41]

  /** The same number as an integer. */
  const GROUP_ORDER: nat := 0xFFFF_FFFF_FFFF_FFFF_FFFF_FFFF_FFFF_FFFE_BAAE_DCE6_AF48_A03B_BFD2_5E8C_D036_4141

  lemma OrderBytes()
    ensures FromBe(SECP256K1_N) == GROUP_ORDER < Pow256(32)
  {
    WordLimits();
    FromBeEight(N0);
    FromBeEight(N1);
    FromBeEight(N2);
    FromBeEight(N3);
    FromBeConcat(N0, N1);
    FromBeConcat(N0 + N1, N2);
    FromBeConcat(N0 + N1 + N2, N3);
  }

  // ---- low-s canonical form ------------------------------------------------

  /** Shifts a 256-bit word right by one bit, carrying each byte's low bit into the next byte's top bit. */
  method HalfOf(word: Bytes32) returns (half: Bytes32)
    ensures FromBe(half) == FromBe(word) / 2
  {
    var out := new byte[32](i => 0);
    var carry: byte := 0;
    for i := 0 to 32
      invariant carry <= 1
      invariant 2 * FromBe(out[..i]) + carry == FromBe(word[..i])
    {
      var b := word[i];
      // `b >> 1` leaves the top bit clear for the carry
      out[i] := b / 2 + carry * 128;
      carry := b % 2;
      PrefixValue(out[..], i);
      PrefixValue(word, i);
      assert out[..][..i] == out[..i] && out[..][..i + 1] == out[..i + 1];
    }
    assert out[..32] == out[..] && word[..32] == word;
    half := out[..];
  }

  /** Is `s` above n/2 (EIP-2)? Compares byte arrays, not integers. */
  method IsHighS(s: Bytes32) returns (high: bool)
    ensures high <==> FromBe(s) > GROUP_ORDER / 2
  {
    var half := HalfOf(SECP256K1_N);
    OrderBytes();
    LexIsIntegerOrder(half, s);
    high := LexLess(half, s);
  }

  /** The value of a word's prefix grows by one digit at a time. */
  lemma PrefixValue(a: Bytes, i: nat)
    requires i < |a|
    ensures FromBe(a[..i + 1]) == 256 * FromBe(a[..i]) + a[i]
  {
    assert a[..i + 1][..i] == a[..i];
  }

  /** What is left to subtract in the first `i` bytes. */
  function Remaining(a: Bytes, b: Bytes, i: nat, borrow: int): int
    requires i <= |a| && i <= |b|
  {
    FromBe(a[..i]) - FromBe(b[..i]) - borrow
  }

  lemma BorrowStep(a: Bytes, b: Bytes, i: nat, borrow: int, digit: byte, borrow': int)
    requires i < |a| && i < |b| && a[i] as int - b[i] as int - borrow == digit - 256 * borrow'
    ensures ToBe(Remaining(a, b, i + 1, borrow), i + 1) == ToBe(Remaining(a, b, i, borrow'), i) + [digit]
  {
    PrefixValue(a, i);
    PrefixValue(b, i);
    assert Remaining(a, b, i + 1, borrow) == 256 * Remaining(a, b, i, borrow') + digit;
  }

  lemma Shifted(front: Bytes, digit: byte, rest: Bytes)
    ensures front + [digit] + rest == front + ([digit] + rest)
  {
  }

  /** a - b with a borrow carried from the last byte to the first. */
  method SubtractWords(a: Bytes32, b: Bytes32) returns (low: Bytes32)
    ensures low == ToBe(FromBe(a) - FromBe(b), 32)
  {
    var out := new byte[32](i => 0);
    var borrow := 0;
    assert a[..32] == a && b[..32] == b;
    ghost var target := ToBe(Remaining(a, b, 32, 0), 32);
    var i := 32;
    while i > 0
      invariant 0 <= i <= 32 && 0 <= borrow <= 1
      invariant target == ToBe(Remaining(a, b, i, borrow), i) + out[i..]
    {
      ghost var done, before := out[i..], borrow;
      i := i - 1;
      var diff := a[i] as int - b[i] as int - borrow;
      if diff < 0 {
        out[i] := diff + 256;
        borrow := 1;
      } else {
        out[i] := diff;
        borrow := 0;
      }
      assert out[i + 1..] == done;
      assert out[i..] == [out[i]] + done;
      BorrowStep(a, b, i, before, out[i], borrow);
      Shifted(ToBe(Remaining(a, b, i, borrow), i), out[i], done);
    }
    assert out[0..] == out[..];
    low := out[..];
  }

  /** The recovery byte in the 27/28 encoding, or nothing for an impossible one. */
  function NormalizedV(v: byte): Option<byte> {
    if v == 0 || v == 27 then Some(27) else if v == 1 || v == 28 then Some(28) else None
  }

  function FlippedV(v: byte): byte {
    if v == 27 then 28 else 27
  }

  /** What `CanonicalSignature` returns, in integer terms. */
  function Canonical(sig65: Bytes): Option<Bytes> {
    if |sig65| != 65 || NormalizedV(sig65[64]).None? then None
    else
      var v, s := NormalizedV(sig65[64]).value, FromBe(sig65[32..64]);
      if s > GROUP_ORDER / 2 then Some(sig65[..32] + ToBe(GROUP_ORDER - s, 32) + [FlippedV(v)])
      else Some(sig65[..64] + [v])
  }

  /** If `s` is high: s := n - s in place, and the parity flipped so that recovery still selects the same key. */
  method LowerS(sig: array<byte>)
    requires sig.Length == 65
    modifies sig
    ensures sig[..] == old(if FromBe(sig[32..64]) > GROUP_ORDER / 2
                           then sig[..32] + ToBe(GROUP_ORDER - FromBe(sig[32..64]), 32) + [FlippedV(sig[64])]
                           else sig[..])
  {
    var s := sig[32..64];
    var high := IsHighS(s);
    if high {
      var low := SubtractWords(SECP256K1_N, s);
      OrderBytes();
      OverwriteS(sig, low, if sig[64] == 27 then 28 else 27);
    }
  }

  /** Copies `low` over the `s` part and sets the recovery byte. */
  method OverwriteS(sig: array<byte>, low: Bytes32, v: byte)
    requires sig.Length == 65
    modifies sig
    ensures sig[..] == old(sig[..32]) + low + [v]
  {
    forall k | 0 <= k < 32 {
      sig[32 + k] := low[k];
    }
    sig[64] := v;
    assert sig[..] == sig[..32] + sig[32..64] + [sig[64]];
  }

  method CanonicalSignature(sig65: Bytes) returns (r: Option<Bytes>)
    ensures r == Canonical(sig65)
  {
    if |sig65| != 65 {
      return None;
    }
    var out := new byte[65](i requires 0 <= i < 65 => sig65[i]);
    match NormalizedV(out[64])
    case None => return None;
    case Some(v) =>
      out[64] := v;
      assert out[..] == sig65[..64] + [v];
      assert out[32..64] == sig65[32..64] && out[..32] == sig65[..32];
      LowerS(out);
      r := Some(out[..]);
  }

  /** The `s` of a 65-byte signature, as an integer. */
  function ScalarS(sig65: Bytes): nat
    requires |sig65| == 65
  {
    FromBe(sig65[32..64])
  }

  predicate Acceptable(sig65: Bytes) {
    |sig65| == 65 && NormalizedV(sig65[64]).Some?
  }

  lemma CanonicalParts(sig65: Bytes)
    requires Acceptable(sig65) && ScalarS(sig65) <= GROUP_ORDER
    ensures var n, s, v := GROUP_ORDER, ScalarS(sig65), NormalizedV(sig65[64]).value;
            Canonical(sig65) == Some(sig65[..32] + ToBe(if s > n / 2 then n - s else s, 32)
                                     + [if s > n / 2 then FlippedV(v) else v])
  {
    ToBeFromBe(sig65[32..64]);
    assert sig65[..64] == sig65[..32] + sig65[32..64];
  }

  /**
   For every scalar a signature may carry, canonicalising keeps `r`, lowers `s` to
   the smaller of `s` and `n - s`, and flips the parity exactly when `s` changed.
   */
  lemma CanonicalIsLowS(sig65: Bytes)
    requires Acceptable(sig65) && 0 < ScalarS(sig65) < GROUP_ORDER
    ensures Canonical(sig65).Some?
    ensures var c, n, s := Canonical(sig65).value, GROUP_ORDER, ScalarS(sig65);
            && |c| == 65 && c[..32] == sig65[..32]
            && ScalarS(c) == (if s <= n - s then s else n - s)
            && (c[64] == 27 || c[64] == 28)
            && (c[64] != NormalizedV(sig65[64]).value <==> ScalarS(c) != s)
  {
    var n, s := GROUP_ORDER, ScalarS(sig65);
    var w := if s > n / 2 then n - s else s;
    OrderBytes();
    FromBeToBe(w, 32);
    CanonicalParts(sig65);
    assert Canonical(sig65).value[32..64] == ToBe(w, 32);
  }

  /** The same key's other valid signature: `n - s` with the other parity. */
  function Twin(sig65: Bytes): Bytes
    requires Acceptable(sig65)
  {
    sig65[..32] + ToBe(GROUP_ORDER - ScalarS(sig65), 32) + [FlippedV(NormalizedV(sig65[64]).value)]
  }

  /** A signature and its malleated twin have one canonical form. */
  lemma TwinsAgree(sig65: Bytes)
    requires Acceptable(sig65) && 0 < ScalarS(sig65) < GROUP_ORDER
    ensures Canonical(Twin(sig65)) == Canonical(sig65)
  {
    var t := Twin(sig65);
    OrderBytes();
    FromBeToBe(GROUP_ORDER - ScalarS(sig65), 32);
    assert t[..32] == sig65[..32];
    assert t[32..64] == ToBe(GROUP_ORDER - ScalarS(sig65), 32);
    CanonicalParts(t);
    CanonicalParts(sig65);
  }

  /** Canonicalising twice is canonicalising once, exactly when `s` does not exceed the group order. */
  lemma CanonicalIdempotentIff(sig65: Bytes)
    requires Acceptable(sig65)
    ensures Canonical(sig65).Some?
    ensures Canonical(Canonical(sig65).value) == Canonical(sig65) <==> ScalarS(sig65) <= GROUP_ORDER
  {
    if ScalarS(sig65) <= GROUP_ORDER {
      CanonicalStable(sig65);
    } else {
      CanonicalFlipsBack(sig65);
    }
  }

  lemma CanonicalStable(sig65: Bytes)
    requires Acceptable(sig65) && ScalarS(sig65) <= GROUP_ORDER
    ensures Canonical(sig65).Some? && Canonical(Canonical(sig65).value) == Canonical(sig65)
  {
    var n, s := GROUP_ORDER, ScalarS(sig65);
    var w := if s > n / 2 then n - s else s;
    OrderBytes();
    FromBeToBe(w, 32);
    CanonicalParts(sig65);
    var c := Canonical(sig65).value;
    assert c[32..64] == ToBe(w, 32) && c[..32] == sig65[..32];
    CanonicalParts(c);
  }

  /** Above the order, n - s wraps to another value above n/2, so the parity never settles. */
  lemma CanonicalFlipsBack(sig65: Bytes)
    requires Acceptable(sig65) && ScalarS(sig65) > GROUP_ORDER
    ensures Canonical(sig65).Some? && Canonical(Canonical(sig65).value) != Canonical(sig65)
  {
    CanonicalOfOversized(sig65);
    HighFlips(Canonical(sig65).value);
  }

  /** The subtraction wraps: the result is above the order again. */
  lemma CanonicalOfOversized(sig65: Bytes)
    requires Acceptable(sig65) && ScalarS(sig65) > GROUP_ORDER
    ensures Canonical(sig65).Some?
    ensures var c := Canonical(sig65).value;
            |c| == 65 && ScalarS(c) > GROUP_ORDER && (c[64] == 27 || c[64] == 28)
  {
    var n, s := GROUP_ORDER, ScalarS(sig65);
    OrderBytes();
    FromBeBound(sig65[32..64]);
    WordLimits();
    ToBeWraps(n - s, 32);
    FromBeToBe(n - s + Pow256(32), 32);
    assert Canonical(sig65).value[32..64] == ToBe(n - s, 32);
  }

  lemma HighFlips(c: Bytes)
    requires |c| == 65 && ScalarS(c) > GROUP_ORDER / 2 && (c[64] == 27 || c[64] == 28)
    ensures Canonical(c).Some? && Canonical(c).value != c
  {
    assert Canonical(c).value[64] != c[64];
  }

  lemma {:induction false} ToBeWraps(n: int, len: nat)
    ensures ToBe(n, len) == ToBe(n + Pow256(len), len)
    decreases len
  {
    if len > 0 {
      ToBeWraps(n / 256, len - 1);
      assert (n + 256 * Pow256(len - 1)) / 256 == n / 256 + Pow256(len - 1);
    }
  }

  // ---- recovery and the quorum ---------------------------------------------

  datatype VerifyError =
    | BadLength
    | BadRecoveryId(v: byte)
    | Unrecoverable
    | InvalidSignerOrder
    | NotEnoughSignatures(got: nat, want: nat)

  datatype Result<+T> = Ok(value: T) | Err(error: VerifyError)

  /** The library's curve recovery: digest, the 64 bytes r||s, parity. */
  type Recovery = (Bytes32, Bytes, int) -> Option<Address>

  function RecoverEvmAddress(recovery: Recovery, digest: Bytes32, sig65: Bytes): Result<Address> {
    if |sig65| != 65 then Err(BadLength)
    else if sig65[64] != 27 && sig65[64] != 28 then Err(BadRecoveryId(sig65[64]))
    else match recovery(digest, sig65[..64], sig65[64] - 27)
      case None => Err(Unrecoverable)
      case Some(a) => Ok(a)
  }

  /** ECDSA malleability: (r, s, parity) and (r, n - s, other parity) recover alike. */
  ghost predicate MalleableRecovery(recovery: Recovery) {
    forall digest: Bytes32, r: Bytes32, s: nat, parity: int {:trigger recovery(digest, r + ToBe(s, 32), parity)} ::
      0 < s < GROUP_ORDER && 0 <= parity <= 1 ==>
        recovery(digest, r + ToBe(s, 32), parity) == recovery(digest, r + ToBe(GROUP_ORDER - s, 32), 1 - parity)
  }

  /** Re-encoding never changes who signed. */
  lemma CanonicalKeepsSigner(recovery: Recovery, digest: Bytes32, sig65: Bytes)
    requires MalleableRecovery(recovery)
    requires RecoverEvmAddress(recovery, digest, sig65).Ok? && 0 < ScalarS(sig65) < GROUP_ORDER
    ensures Canonical(sig65).Some?
    ensures RecoverEvmAddress(recovery, digest, Canonical(sig65).value) == RecoverEvmAddress(recovery, digest, sig65)
  {
    var n, s, r := GROUP_ORDER, ScalarS(sig65), sig65[..32];
    CanonicalParts(sig65);
    ToBeFromBe(sig65[32..64]);
    assert sig65[..64] == r + ToBe(s, 32);
    var c := Canonical(sig65).value;
    if s > n / 2 {
      assert c[..64] == r + ToBe(n - s, 32);
      assert recovery(digest, r + ToBe(s, 32), sig65[64] - 27)
             == recovery(digest, r + ToBe(n - s, 32), 1 - (sig65[64] - 27));
    } else {
      assert c == sig65;
    }
  }

  /**
   The canonical form recovers what curve recovery says of the bytes and the parity
   that were given: 0 and 27 stand for parity 0, 1 and 28 for parity 1.
   */
  lemma CanonicalRecovers(recovery: Recovery, digest: Bytes32, sig65: Bytes)
    requires MalleableRecovery(recovery)
    requires |sig65| == 65 && sig65[64] in {0, 1, 27, 28} && 0 < ScalarS(sig65) < GROUP_ORDER
    ensures Canonical(sig65).Some?
    ensures RecoverEvmAddress(recovery, digest, Canonical(sig65).value)
            == match recovery(digest, sig65[..64], if sig65[64] == 0 || sig65[64] == 27 then 0 else 1)
               case None => Err(Unrecoverable)
               case Some(a) => Ok(a)
  {
    var n, s, r, p := GROUP_ORDER, ScalarS(sig65), sig65[..32], if sig65[64] == 0 || sig65[64] == 27 then 0 else 1;
    CanonicalParts(sig65);
    ToBeFromBe(sig65[32..64]);
    assert sig65[..64] == r + ToBe(s, 32);
    var c := Canonical(sig65).value;
    if s > n / 2 {
      assert c[..64] == r + ToBe(n - s, 32);
      assert recovery(digest, r + ToBe(s, 32), p) == recovery(digest, r + ToBe(n - s, 32), 1 - p);
    } else {
      assert c[..64] == r + ToBe(s, 32);
    }
  }

  const ZERO_ADDRESS: Address := Zeros(20)

  /** The loop of `VerifyThreshold` from a given `last` and `count`. */
  function VerifyFrom(
    recovery: Recovery, digest: Bytes32, signatures: seq<Bytes>, validators: set<Address>,
    threshold: nat, last: Address, count: nat): Result<nat>
    decreases |signatures|
  {
    if signatures == [] then
      if count < threshold then Err(NotEnoughSignatures(count, threshold)) else Ok(count)
    else
      match RecoverEvmAddress(recovery, digest, signatures[0])
      case Err(e) => Err(e)
      case Ok(signer) =>
        if !LexLess(last, signer) then Err(InvalidSignerOrder)
        else VerifyFrom(recovery, digest, signatures[1..], validators, threshold, signer,
                        if signer in validators then count + 1 else count)
  }

  function VerifyOutcome(
    recovery: Recovery, digest: Bytes32, signatures: seq<Bytes>, validators: set<Address>, threshold: nat): Result<nat>
  {
    VerifyFrom(recovery, digest, signatures, validators, threshold, ZERO_ADDRESS, 0)
  }

  method VerifyThreshold(
    keccak: Hash, recovery: Recovery, submissionId: Bytes32, signatures: seq<Bytes>,
    validators: set<Address>, threshold: nat)
    returns (r: Result<nat>)
    ensures r == VerifyOutcome(recovery, EthSignedDigest(keccak, submissionId), signatures, validators, threshold)
  {
    var digest := EthSignedDigest(keccak, submissionId);
    var last := ZERO_ADDRESS;
    var count := 0;
    for i := 0 to |signatures|
      invariant VerifyOutcome(recovery, digest, signatures, validators, threshold)
             == VerifyFrom(recovery, digest, signatures[i..], validators, threshold, last, count)
    {
      var recovered := RecoverEvmAddress(recovery, digest, signatures[i]);
      if recovered.Err? {
        return Err(recovered.error);
      }
      var signer := recovered.value;
      if !LexLess(last, signer) {
        return Err(InvalidSignerOrder);
      }
      if signer in validators {
        count := count + 1;
      }
      last := signer;
    }
    if count < threshold {
      return Err(NotEnoughSignatures(count, threshold));
    }
    r := Ok(count);
  }

  predicate AllRecover(recovery: Recovery, digest: Bytes32, signatures: seq<Bytes>) {
    forall i :: 0 <= i < |signatures| ==> RecoverEvmAddress(recovery, digest, signatures[i]).Ok?
  }

  /** The recovered signers, in order. */
  function Signers(recovery: Recovery, digest: Bytes32, signatures: seq<Bytes>): (a: seq<Address>)
    requires AllRecover(recovery, digest, signatures)
    ensures |a| == |signatures|
  {
    seq(|signatures|, i requires 0 <= i < |signatures| => RecoverEvmAddress(recovery, digest, signatures[i]).value)
  }

  /** Strictly ascending, starting above `floor`. */
  ghost predicate StrictlyAbove(floor: nat, v: seq<nat>) {
    && (forall i :: 0 <= i < |v| ==> floor < v[i])
    && (forall i, j :: 0 <= i < j < |v| ==> v[i] < v[j])
  }

  function Values(a: seq<Address>): (v: seq<nat>)
    ensures |v| == |a| && forall i :: 0 <= i < |a| ==> v[i] == FromBe(a[i])
  {
    seq(|a|, i requires 0 <= i < |a| => FromBe(a[i]))
  }

  /** The addresses are strictly ascending as integers, starting above `floor`. */
  ghost predicate AscendingAbove(floor: nat, a: seq<Address>) {
    StrictlyAbove(floor, Values(a))
  }

  /** Which of the signers are validators, without repetition. */
  function Members(a: seq<Address>, validators: set<Address>): set<Address> {
    set x | x in a && x in validators
  }

  lemma {:induction false} VerifyFromIff(
    recovery: Recovery, digest: Bytes32, signatures: seq<Bytes>, validators: set<Address>,
    threshold: nat, last: Address, count: nat)
    ensures VerifyFrom(recovery, digest, signatures, validators, threshold, last, count).Ok? <==>
            && AllRecover(recovery, digest, signatures)
            && AscendingAbove(FromBe(last), Signers(recovery, digest, signatures))
            && count + |Members(Signers(recovery, digest, signatures), validators)| >= threshold
    ensures VerifyFrom(recovery, digest, signatures, validators, threshold, last, count).Ok? ==>
            VerifyFrom(recovery, digest, signatures, validators, threshold, last, count).value
            == count + |Members(Signers(recovery, digest, signatures), validators)|
    decreases |signatures|
  {
    if signatures == [] {
      assert Members([], validators) == {};
    } else if RecoverEvmAddress(recovery, digest, signatures[0]).Ok? {
      var signer, rest := RecoverEvmAddress(recovery, digest, signatures[0]).value, signatures[1..];
      LexIsIntegerOrder(last, signer);
      var count' := if signer in validators then count + 1 else count;
      VerifyFromIff(recovery, digest, rest, validators, threshold, signer, count');
      assert AllRecover(recovery, digest, signatures) <==> AllRecover(recovery, digest, rest) by {
        if AllRecover(recovery, digest, rest) {
          forall i | 0 <= i < |signatures| ensures RecoverEvmAddress(recovery, digest, signatures[i]).Ok? {
            if i > 0 { assert signatures[i] == rest[i - 1]; }
          }
        }
        if AllRecover(recovery, digest, signatures) {
          forall i | 0 <= i < |rest| ensures RecoverEvmAddress(recovery, digest, rest[i]).Ok? {
            assert rest[i] == signatures[i + 1];
          }
        }
      }
      if AllRecover(recovery, digest, signatures) {
        var a, b := Signers(recovery, digest, signatures), Signers(recovery, digest, rest);
        assert a == [signer] + b;
        assert Values(a) == [FromBe(signer)] + Values(b);
        StrictlyAboveCons(FromBe(last), FromBe(signer), Values(b));
        if AscendingAbove(FromBe(signer), b) {
          MembersCons(signer, b, validators);
        }
      }
    }
  }

  lemma StrictlyAboveCons(floor: nat, x: nat, b: seq<nat>)
    ensures StrictlyAbove(floor, [x] + b) <==> floor < x && StrictlyAbove(x, b)
  {
    var a := [x] + b;
    assert forall i :: 0 <= i < |b| ==> a[i + 1] == b[i];
    if StrictlyAbove(floor, a) {
      assert a[0] == x;
      forall i, j | 0 <= i < j < |b| ensures b[i] < b[j] {
        assert a[i + 1] < a[j + 1];
      }
    }
  }

  lemma MembersCons(x: Address, b: seq<Address>, validators: set<Address>)
    requires AscendingAbove(FromBe(x), b)
    ensures |Members([x] + b, validators)| == |Members(b, validators)| + if x in validators then 1 else 0
  {
    forall i | 0 <= i < |b| ensures b[i] != x {
      assert FromBe(x) < Values(b)[i];
    }
    assert Members([x] + b, validators) == Members(b, validators) + if x in validators then {x} else {};
  }

  /**
   The quorum check succeeds exactly when every signature recovers, the signers
   are strictly ascending above the zero address, and enough of them are
   validators; the count it returns is the number of distinct validators.
   */
  lemma VerifyOutcomeIff(
    recovery: Recovery, digest: Bytes32, signatures: seq<Bytes>, validators: set<Address>, threshold: nat)
    ensures VerifyOutcome(recovery, digest, signatures, validators, threshold).Ok? <==>
            && AllRecover(recovery, digest, signatures)
            && AscendingAbove(0, Signers(recovery, digest, signatures))
            && |Members(Signers(recovery, digest, signatures), validators)| >= threshold
    ensures VerifyOutcome(recovery, digest, signatures, validators, threshold).Ok? ==>
            VerifyOutcome(recovery, digest, signatures, validators, threshold).value
            == |Members(Signers(recovery, digest, signatures), validators)|
  {
    FromBeZeros(20);
    VerifyFromIff(recovery, digest, signatures, validators, threshold, ZERO_ADDRESS, 0);
  }

  /** A quorum larger than the number of dishonest validators contains an honest one. */
  lemma QuorumHasHonestSigner(
    recovery: Recovery, digest: Bytes32, signatures: seq<Bytes>, validators: set<Address>,
    threshold: nat, dishonest: set<Address>)
    returns (sig: Bytes, signer: Address)
    requires VerifyOutcome(recovery, digest, signatures, validators, threshold).Ok?
    requires |dishonest * validators| < threshold
    ensures sig in signatures && RecoverEvmAddress(recovery, digest, sig) == Ok(signer)
    ensures signer in validators && signer !in dishonest
  {
    VerifyOutcomeIff(recovery, digest, signatures, validators, threshold);
    var a := Signers(recovery, digest, signatures);
    var m := Members(a, validators);
    if m <= dishonest {
      SubsetIsNoLarger(m, dishonest * validators);
    }
    signer :| signer in m && signer !in dishonest;
    var i :| 0 <= i < |a| && a[i] == signer;
    sig := signatures[i];
  }

  // ---- the relayer's claim instruction -------------------------------------

  /** The key `build_claim_instruction` sorts by: an unrecoverable signature goes last. */
  function SignerKey(recovery: Recovery, digest: Bytes32, sig: Bytes): Address {
    match RecoverEvmAddress(recovery, digest, sig)
    case Ok(a) => a
    case Err(_) => seq(20, i => 0xFF)
  }

  function SignerOrder(recovery: Recovery, digest: Bytes32): (Bytes, Bytes) -> bool {
    (a, b) => FromBe(SignerKey(recovery, digest, a)) <= FromBe(SignerKey(recovery, digest, b))
  }

  function SortedForClaim(recovery: Recovery, digest: Bytes32, signatures: seq<Bytes>): seq<Bytes> {
    Sort(signatures, SignerOrder(recovery, digest))
  }

  /** The signers are pairwise different and none is the zero address. */
  ghost predicate DistinctNonZero(a: seq<Address>) {
    && (forall i :: 0 <= i < |a| ==> a[i] != ZERO_ADDRESS)
    && (forall i, j :: 0 <= i < j < |a| ==> a[i] != a[j])
  }

  /**
   After the relayer's sort the gate accepts exactly the lists that all recover, to
   distinct non-zero addresses, enough of them validators - in whatever order they came.
   */
  lemma SortedClaimAcceptedIff(
    recovery: Recovery, digest: Bytes32, signatures: seq<Bytes>, validators: set<Address>, threshold: nat)
    ensures VerifyOutcome(recovery, digest, SortedForClaim(recovery, digest, signatures), validators, threshold).Ok? <==>
            && AllRecover(recovery, digest, signatures)
            && DistinctNonZero(Signers(recovery, digest, signatures))
            && |Members(Signers(recovery, digest, signatures), validators)| >= threshold
  {
    var sorted := SortedForClaim(recovery, digest, signatures);
    SortIsSortedPermutation(signatures, SignerOrder(recovery, digest));
    VerifyOutcomeIff(recovery, digest, sorted, validators, threshold);
    AllRecoverPermutes(recovery, digest, signatures, sorted);
    if AllRecover(recovery, digest, signatures) {
      SignersPermute(recovery, digest, signatures, sorted);
      var a, b := Signers(recovery, digest, signatures), Signers(recovery, digest, sorted);
      MembersPermute(a, b, validators);
      DistinctPermutes(a, b);
      SortedAscending(recovery, digest, sorted);
    }
  }

  lemma SignersPermute(recovery: Recovery, digest: Bytes32, s: seq<Bytes>, t: seq<Bytes>)
    requires AllRecover(recovery, digest, s) && AllRecover(recovery, digest, t) && multiset(s) == multiset(t)
    ensures multiset(Signers(recovery, digest, s)) == multiset(Signers(recovery, digest, t))
  {
    var key := sig => SignerKey(recovery, digest, sig);
    MapPermutes(s, t, key);
    assert Signers(recovery, digest, s) == Map(s, key) && Signers(recovery, digest, t) == Map(t, key);
  }

  lemma SortedAscending(recovery: Recovery, digest: Bytes32, sorted: seq<Bytes>)
    requires AllRecover(recovery, digest, sorted) && SortedBy(sorted, SignerOrder(recovery, digest))
    ensures AscendingAbove(0, Signers(recovery, digest, sorted)) <==> DistinctNonZero(Signers(recovery, digest, sorted))
  {
    var a := Signers(recovery, digest, sorted);
    FromBeZeros(20);
    var v := Values(a);
    if DistinctNonZero(a) {
      forall i | 0 <= i < |v| ensures 0 < v[i] {
        if v[i] == 0 { FromBeInjective(a[i], ZERO_ADDRESS); }
      }
      forall i, j | 0 <= i < j < |v| ensures v[i] < v[j] {
        assert SignerOrder(recovery, digest)(sorted[i], sorted[j]);
        if v[i] == v[j] { FromBeInjective(a[i], a[j]); }
      }
    }
    if AscendingAbove(0, a) {
      forall i, j | 0 <= i < j < |a| ensures a[i] != a[j] {
        assert v[i] < v[j];
      }
      forall i | 0 <= i < |a| ensures a[i] != ZERO_ADDRESS {
        assert 0 < v[i];
      }
    }
  }

  lemma AllRecoverPermutes(recovery: Recovery, digest: Bytes32, s: seq<Bytes>, t: seq<Bytes>)
    requires multiset(s) == multiset(t)
    ensures AllRecover(recovery, digest, s) <==> AllRecover(recovery, digest, t)
  {
    assert forall x :: x in s <==> x in multiset(s);
    assert forall x :: x in t <==> x in multiset(t);
    assert AllRecover(recovery, digest, s) <==> forall x :: x in s ==> RecoverEvmAddress(recovery, digest, x).Ok?;
    assert AllRecover(recovery, digest, t) <==> forall x :: x in t ==> RecoverEvmAddress(recovery, digest, x).Ok?;
  }

  lemma MembersPermute(a: seq<Address>, b: seq<Address>, validators: set<Address>)
    requires multiset(a) == multiset(b)
    ensures Members(a, validators) == Members(b, validators)
  {
    assert forall x :: x in a <==> x in multiset(a);
    assert forall x :: x in b <==> x in multiset(b);
  }

  lemma DistinctPermutes(a: seq<Address>, b: seq<Address>)
    requires multiset(a) == multiset(b)
    ensures DistinctNonZero(a) <==> DistinctNonZero(b)
  {
    if DistinctNonZero(a) { DistinctCarries(a, b); }
    if DistinctNonZero(b) { DistinctCarries(b, a); }
  }

  lemma DistinctCarries(a: seq<Address>, b: seq<Address>)
    requires multiset(a) == multiset(b) && DistinctNonZero(a)
    ensures DistinctNonZero(b)
  {
    forall i | 0 <= i < |b| ensures b[i] != ZERO_ADDRESS {
      assert b[i] in multiset(b) && b[i] in multiset(a);
    }
    forall i, j | 0 <= i < j < |b| ensures b[i] != b[j] {
      if b[i] == b[j] {
        TwiceCounts(b, i, j);
        DistinctCount(a, b[i]);
      }
    }
  }

  lemma DistinctCount(a: seq<Address>, x: Address)
    requires forall i, j :: 0 <= i < j < |a| ==> a[i] != a[j]
    ensures multiset(a)[x] <= 1
  {
    if x in a {
      var i :| 0 <= i < |a| && a[i] == x;
      assert x !in a[..i] && x !in a[i + 1..];
      RemoveAtMultiset(a, i);
      assert x !in RemoveAt(a, i);
    }
  }
}
