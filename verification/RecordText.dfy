/**
 The text form of a transfer: how a `Sent` event is printed into a store record,
 and how the submission id is recomputed from that text. Library parsing that
 is not plain hex or plain decimal is a parameter.
 */
module RecordText {
  import opened Collections
  import opened SubmissionHash
  import AbiCodec
  import opened Words

  // ----- hex -----

  function HexChar(n: nat): char
    requires n < 16
  {
    if n < 10 then (48 + n) as char else (87 + n) as char
  }

  /** The value of a hex digit of either case. */
  function HexValue(c: char): Option<nat> {
    if '0' <= c <= '9' then Some(c as int - 48)
    else if 'a' <= c <= 'f' then Some(c as int - 87)
    else if 'A' <= c <= 'F' then Some(c as int - 55)
    else None
  }

  function HexEncode(b: Bytes): (s: string)
    ensures |s| == 2 * |b|
  {
    if b == [] then [] else [HexChar(b[0] / 16), HexChar(b[0] % 16)] + HexEncode(b[1..])
  }

  function HexDecode(s: string): Option<Bytes> {
    if s == [] then Some([])
    else if |s| == 1 || HexValue(s[0]).None? || HexValue(s[1]).None? then None
    else match HexDecode(s[2..])
      case None => None
      case Some(rest) => Some([16 * HexValue(s[0]).value + HexValue(s[1]).value] + rest)
  }

  predicate Prefixed(s: string) {
    |s| >= 2 && s[0] == '0' && s[1] == 'x'
  }

  function StripPrefix(s: string): string {
    if Prefixed(s) then s[2..] else s
  }

  function Hex0x(b: Bytes): string {
    ['0', 'x'] + HexEncode(b)
  }

  /** Raw bytes of any length, with or without the prefix. */
  function HexBytes(s: string): Option<Bytes> {
    HexDecode(StripPrefix(s))
  }

  /** A hash or an address: exactly `n` bytes. */
  function ParseFixed(s: string, n: nat): Option<Bytes> {
    match HexBytes(s)
    case None => None
    case Some(b) => if |b| == n then Some(b) else None
  }

  function FoldChar(c: char): char {
    if 'A' <= c <= 'Z' then (c as int + 32) as char else c
  }

  /** ASCII lower-casing; `eq_ignore_ascii_case` compares these. */
  function Fold(s: string): string {
    Map(s, FoldChar)
  }

  lemma HexCharValue(n: nat)
    requires n < 16
    ensures HexValue(HexChar(n)) == Some(n) && FoldChar(HexChar(n)) == HexChar(n)
  {
  }

  lemma HexValueChar(c: char)
    ensures HexValue(FoldChar(c)) == HexValue(c)
    ensures HexValue(c).Some? ==> HexValue(c).value < 16 && HexChar(HexValue(c).value) == FoldChar(c)
  {
  }

  lemma SplitByte(hi: nat, lo: nat)
    requires hi < 16 && lo < 16
    ensures (16 * hi + lo) / 16 == hi && (16 * hi + lo) % 16 == lo
  {
  }

  lemma {:induction false} HexRoundTrip(b: Bytes)
    ensures HexDecode(HexEncode(b)) == Some(b)
  {
    if b != [] {
      var s := HexEncode(b);
      HexCharValue(b[0] / 16);
      HexCharValue(b[0] % 16);
      HexRoundTrip(b[1..]);
      assert s[2..] == HexEncode(b[1..]);
      assert [b[0]] + b[1..] == b;
      assert 16 * (b[0] / 16) + b[0] % 16 == b[0];
    }
  }

  /** Each byte is its two hex digits in lower case, the high one first. */
  lemma {:induction false} HexReads(b: Bytes, i: nat)
    requires i < |b|
    ensures HexEncode(b)[2 * i] == "0123456789abcdef"[b[i] / 16]
    ensures HexEncode(b)[2 * i + 1] == "0123456789abcdef"[b[i] % 16]
  {
    if i > 0 {
      HexReads(b[1..], i - 1);
      assert HexEncode(b)[2..] == HexEncode(b[1..]);
      assert HexEncode(b)[2 * i] == HexEncode(b[1..])[2 * (i - 1)];
    }
  }

  lemma FoldPair(a: char, b: char, rest: string)
    ensures Fold([a, b] + rest) == [FoldChar(a), FoldChar(b)] + Fold(rest)
  {
  }

  lemma HexPair(c: byte, rest: Bytes)
    ensures HexEncode([c] + rest) == [HexChar(c / 16), HexChar(c % 16)] + HexEncode(rest)
  {
    assert ([c] + rest)[1..] == rest;
  }

  /** Two digits decode to the byte whose encoding they are in lower case. */
  lemma DecodedPair(a: char, b: char)
    requires HexValue(a).Some? && HexValue(b).Some?
    ensures var c := 16 * HexValue(a).value + HexValue(b).value;
            c < 256 && [HexChar(c / 16), HexChar(c % 16)] == [FoldChar(a), FoldChar(b)]
  {
    HexValueChar(a);
    HexValueChar(b);
    SplitByte(HexValue(a).value, HexValue(b).value);
  }

  /** A hex text decodes to the bytes whose encoding is that text in lower case. */
  lemma {:induction false} DecodedTextIsEncoding(s: string)
    ensures HexDecode(s).Some? ==> HexEncode(HexDecode(s).value) == Fold(s)
  {
    if |s| >= 2 && HexDecode(s).Some? {
      var a, b, rest := s[0], s[1], s[2..];
      DecodedTextIsEncoding(rest);
      DecodedPair(a, b);
      HexPair(16 * HexValue(a).value + HexValue(b).value, HexDecode(rest).value);
      assert s == [a, b] + rest;
      FoldPair(a, b, rest);
    }
  }

  /** Two hex texts denote the same bytes exactly when they differ at most in case. */
  lemma SameBytesIffSameFold(s: string, t: string)
    requires HexDecode(s).Some? && HexDecode(t).Some?
    ensures HexDecode(s) == HexDecode(t) <==> Fold(s) == Fold(t)
  {
    DecodedTextIsEncoding(s);
    DecodedTextIsEncoding(t);
  }

  lemma Hex0xRoundTrip(b: Bytes)
    ensures HexBytes(Hex0x(b)) == Some(b) && ParseFixed(Hex0x(b), |b|) == Some(b)
  {
    HexRoundTrip(b);
    assert Hex0x(b)[2..] == HexEncode(b);
  }

  // ----- decimal -----

  predicate IsDigit(c: char) {
    '0' <= c <= '9'
  }

  predicate AllDigits(s: string) {
    forall i :: 0 <= i < |s| ==> IsDigit(s[i])
  }

  function Decimal(n: nat): (s: string)
    ensures s != []
  {
    if n < 10 then [(48 + n) as char] else Decimal(n / 10) + [(48 + n % 10) as char]
  }

  function DecimalValue(s: string): nat
    requires AllDigits(s)
  {
    if s == [] then 0 else DecimalValue(s[..|s| - 1]) * 10 + (s[|s| - 1] as int - 48)
  }

  /** Printing and reading a number gives it back. */
  lemma {:induction false} DecimalRoundTrip(n: nat)
    ensures AllDigits(Decimal(n)) && DecimalValue(Decimal(n)) == n
  {
    if n >= 10 {
      DecimalRoundTrip(n / 10);
      assert Decimal(n)[..|Decimal(n)| - 1] == Decimal(n / 10);
    } else {
      assert Decimal(n)[..0] == [];
    }
  }

  function Pow10(k: nat): (p: nat)
    ensures p >= 1
  {
    if k == 0 then 1 else 10 * Pow10(k - 1)
  }

  lemma {:induction false} Pow10Sum(a: nat, b: nat)
    ensures Pow10(a + b) == Pow10(a) * Pow10(b)
  {
    if a > 0 {
      Pow10Sum(a - 1, b);
      assert Pow10(a + b) == 10 * Pow10(a - 1 + b);
    }
  }

  lemma {:induction false} DecimalLength(n: nat, k: nat)
    requires k > 0 && n < Pow10(k)
    ensures |Decimal(n)| <= k
  {
    if n >= 10 {
      DecimalLength(n / 10, k - 1);
    }
  }

  // ----- events and records -----

  datatype SentEvent = SentEvent(
    submissionId: Bytes32, debridgeId: Bytes32, amount: u256, bridgeDecimals: byte,
    chainIdFrom: u256, chainIdTo: u256, nonce: u256,
    receiver: Bytes, autoParams: Bytes, nativeSender: Bytes, token: Address)

  datatype SignerSig = SignerSig(signer: string, signature: string)

  datatype Record = Record(
    submissionId: string, bridgeDomain: string, debridgeId: string, amount: string, bridgeDecimals: Option<byte>,
    chainIdFrom: u64, chainIdTo: u64, nonce: u64,
    receiver: string, autoParams: string, nativeSender: string, token: string,
    signatures: seq<SignerSig>, cancelSignatures: seq<SignerSig>, refundSignatures: seq<SignerSig>)

  datatype AbiPayload = AbiPayload(executionFee: Bytes32, flags: Bytes32, fallbackAddress: Bytes, data: Bytes)

  /**
   What the libraries decide: the hash, the ABI decoder of a non-empty payload,
   and the amount denoted by a text that is not plain decimal digits.
   */
  datatype Library = Library(keccak: Hash, abiDecode: Bytes -> Option<AbiPayload>, otherAmount: string -> Option<u256>)

  datatype Parsed<+T> = Ok(value: T) | BadField(name: string)

  /** `None` when the blob is there but does not decode. */
  function DecodeAutoParams(lib: Library, blob: Bytes, nativeSender: Bytes): Option<Option<AutoParams>> {
    if blob == [] then Some(None)
    else match lib.abiDecode(blob)
      case None => None
      case Some(p) => Some(Some(AutoParams(p.executionFee, p.flags, p.fallbackAddress, p.data, nativeSender)))
  }

  /** The transfer an event describes, or `None` when its payload does not decode. */
  function SubmissionOfEvent(lib: Library, ev: SentEvent, bridgeDomain: Bytes32): Option<Submission> {
    match DecodeAutoParams(lib, ev.autoParams, ev.nativeSender)
    case None => None
    case Some(auto) =>
      Some(Submission(bridgeDomain, ev.debridgeId, ev.bridgeDecimals, ev.amount, ev.chainIdFrom, ev.chainIdTo, ev.nonce,
                      ev.receiver, auto))
  }

  function RecordOfEvent(ev: SentEvent, bridgeDomain: Bytes32): Option<Record> {
    if ev.chainIdFrom < U64_LIMIT && ev.chainIdTo < U64_LIMIT && ev.nonce < U64_LIMIT then
      Some(Record(Hex0x(ev.submissionId), Hex0x(bridgeDomain), Hex0x(ev.debridgeId), Decimal(ev.amount),
                  Some(ev.bridgeDecimals), ev.chainIdFrom, ev.chainIdTo, ev.nonce,
                  Hex0x(ev.receiver), Hex0x(ev.autoParams), Hex0x(ev.nativeSender), Hex0x(ev.token), [], [], []))
    else None
  }

  function ParseAmount(lib: Library, s: string): Option<u256> {
    if s != [] && AllDigits(s) then
      if DecimalValue(s) < U256_LIMIT then Some(DecimalValue(s)) else None
    else lib.otherAmount(s)
  }

  /** The transfer a record's text denotes, fields checked in this order. */
  function SubmissionOfRecord(lib: Library, rec: Record): Parsed<Submission> {
    if ParseFixed(rec.bridgeDomain, 32).None? then BadField("bridge_domain")
    else if ParseFixed(rec.debridgeId, 32).None? then BadField("debridge_id")
    else if ParseAmount(lib, rec.amount).None? then BadField("amount")
    else if rec.bridgeDecimals.None? then BadField("bridge_decimals")
    else if HexBytes(rec.receiver).None? then BadField("receiver")
    else if HexBytes(rec.autoParams).None? then BadField("auto_params")
    else if HexBytes(rec.nativeSender).None? then BadField("native_sender")
    else match DecodeAutoParams(lib, HexBytes(rec.autoParams).value, HexBytes(rec.nativeSender).value)
      case None => BadField("auto_params")
      case Some(auto) =>
        Ok(Submission(ParseFixed(rec.bridgeDomain, 32).value, ParseFixed(rec.debridgeId, 32).value,
                      rec.bridgeDecimals.value, ParseAmount(lib, rec.amount).value,
                      rec.chainIdFrom, rec.chainIdTo, rec.nonce, HexBytes(rec.receiver).value, auto))
  }

  function CanonicalSubmissionId(lib: Library, rec: Record): Parsed<Bytes32> {
    match SubmissionOfRecord(lib, rec)
    case BadField(name) => BadField(name)
    case Ok(s) => Ok(SubmissionId(lib.keccak, s))
  }

  lemma AmountRoundTrip(lib: Library, amount: u256)
    ensures ParseAmount(lib, Decimal(amount)) == Some(amount)
  {
    DecimalRoundTrip(amount);
  }

  /**
   Printing an event into a record and recomputing the id from the text gives
   the id computed from the event itself; a payload that does not decode is an
   error on both paths, and the record is refused exactly when a chain id or
   the nonce exceeds a `u64`.
   */
  lemma RecordIdIsComputedId(lib: Library, ev: SentEvent, bridgeDomain: Bytes32)
    ensures var r, s := RecordOfEvent(ev, bridgeDomain), SubmissionOfEvent(lib, ev, bridgeDomain);
            && (r.None? <==> ev.chainIdFrom >= U64_LIMIT || ev.chainIdTo >= U64_LIMIT || ev.nonce >= U64_LIMIT)
            && (r.Some? && s.Some? ==>
                  && SubmissionOfRecord(lib, r.value) == Ok(s.value)
                  && CanonicalSubmissionId(lib, r.value) == Ok(SubmissionId(lib.keccak, s.value)))
            && (r.Some? && s.None? ==> CanonicalSubmissionId(lib, r.value) == BadField("auto_params"))
  {
    Hex0xRoundTrip(bridgeDomain);
    Hex0xRoundTrip(ev.debridgeId);
    AmountRoundTrip(lib, ev.amount);
    Hex0xRoundTrip(ev.receiver);
    Hex0xRoundTrip(ev.autoParams);
    Hex0xRoundTrip(ev.nativeSender);
  }

  /** The fields of an event's record denote the event's own. */
  lemma RecordReads(lib: Library, ev: SentEvent, bridgeDomain: Bytes32)
    requires RecordOfEvent(ev, bridgeDomain).Some?
    ensures var r := RecordOfEvent(ev, bridgeDomain).value;
            && HexBytes(r.submissionId) == Some(ev.submissionId) && HexBytes(r.bridgeDomain) == Some(bridgeDomain)
            && HexBytes(r.debridgeId) == Some(ev.debridgeId) && HexBytes(r.token) == Some(ev.token)
            && HexBytes(r.receiver) == Some(ev.receiver) && HexBytes(r.nativeSender) == Some(ev.nativeSender)
            && HexBytes(r.autoParams) == Some(ev.autoParams) && ParseAmount(lib, r.amount) == Some(ev.amount)
            && r.bridgeDecimals == Some(ev.bridgeDecimals)
            && r.chainIdFrom == ev.chainIdFrom && r.chainIdTo == ev.chainIdTo && r.nonce == ev.nonce
  {
    Hex0xRoundTrip(ev.submissionId);
    Hex0xRoundTrip(bridgeDomain);
    Hex0xRoundTrip(ev.debridgeId);
    Hex0xRoundTrip(ev.token);
    Hex0xRoundTrip(ev.receiver);
    Hex0xRoundTrip(ev.nativeSender);
    Hex0xRoundTrip(ev.autoParams);
    AmountRoundTrip(lib, ev.amount);
  }

  /** What is hashed for an event, byte by byte: its own fields, and its payload as the ABI decoder reads it. */
  lemma EventPreimageReads(lib: Library, ev: SentEvent, bridgeDomain: Bytes32)
    requires SubmissionOfEvent(lib, ev, bridgeDomain).Some?
    ensures var p, n := Preimage(lib.keccak, SubmissionOfEvent(lib, ev, bridgeDomain).value), 193 + |ev.receiver|;
            && |p| == n + 32 + (if ev.autoParams == [] then 0 else 160)
            && WordOf(p, 0) == 1 && p[32..64] == bridgeDomain && p[64..96] == ev.debridgeId
            && WordOf(p, 96) == ev.chainIdFrom && WordOf(p, 128) == ev.chainIdTo
            && p[160] == ev.bridgeDecimals && WordOf(p, 161) == ev.amount
            && p[193..n] == ev.receiver && WordOf(p, n) == ev.nonce
            && (ev.autoParams != [] ==>
                  && lib.abiDecode(ev.autoParams).Some?
                  && var a := lib.abiDecode(ev.autoParams).value;
                     && p[n + 32..n + 64] == a.executionFee && p[n + 64..n + 96] == a.flags
                     && p[n + 96..n + 128] == lib.keccak(a.fallbackAddress) && p[n + 128..n + 160] == lib.keccak(a.data)
                     && p[n + 160..n + 192] == lib.keccak(ev.nativeSender))
  {
    PreimageReads(lib.keccak, SubmissionOfEvent(lib, ev, bridgeDomain).value);
  }

  /** A wire payload as an ABI decoder returns it. */
  function PayloadOf(w: AbiCodec.AutoParamsWire): AbiPayload {
    AbiPayload(ToBe(w.executionFee, 32), ToBe(w.flags, 32), w.fallbackAddress, w.data)
  }

  /**
   A payload that the relayer encodes for the store has, recomputed from the text there,
   the id that the gate computed from the wire form.
   */
  lemma ReencodedPayloadKeepsId(lib: Library, ev: SentEvent, bridgeDomain: Bytes32, w: AbiCodec.AutoParamsWire)
    requires lib.abiDecode(AbiCodec.AbiEncoding(w)) == Some(PayloadOf(w))
    requires ev.autoParams == AbiCodec.AbiEncoding(w) && RecordOfEvent(ev, bridgeDomain).Some?
    ensures var auto := AbiCodec.WireToAuto(w, ev.nativeSender);
            CanonicalSubmissionId(lib, RecordOfEvent(ev, bridgeDomain).value)
            == Ok(SubmissionId(lib.keccak, Submission(bridgeDomain, ev.debridgeId, ev.bridgeDecimals, ev.amount,
                  ev.chainIdFrom, ev.chainIdTo, ev.nonce, ev.receiver, Some(auto))))
  {
    AbiCodec.LayoutIsAbi(w);
    WordLimits();
    FromBeToBe(w.executionFee, 32);
    FromBeToBe(w.flags, 32);
    AbiCodec.WidenedIsWord(ToBe(w.executionFee, 32), w.executionFee, 16);
    AbiCodec.WidenedIsWord(ToBe(w.flags, 32), w.flags, 8);
    RecordIdIsComputedId(lib, ev, bridgeDomain);
    assert ev.autoParams != [];
  }
}
