/**
 The relayer's hand-written codec for the `abi.encode(AutoParamsTo)` blob of an
 EVM `Sent` event, against the head/tail encoding of the Solidity Contract ABI
 Specification ("Formal Specification of the Encoding"), and the conversion
 between the wire form and the form the submission id hashes.
 */
module AbiCodec {
  import opened Words
  import SubmissionHash

  datatype AutoParamsWire = AutoParamsWire(executionFee: u128, flags: u64, fallbackAddress: Bytes, data: Bytes)

  datatype Field = ExecutionFee | Flags
  datatype AutoParamsError = Malformed(reason: string) | Unrepresentable(field: Field)
  datatype Decoded<+T> = Ok(value: T) | Err(error: AutoParamsError)

  // ----- the ABI specification -----

  /** A static word, a dynamic `bytes`, or a tuple. */
  datatype AbiValue = Word(n: nat) | Blob(bytes: Bytes) | Tuple(items: seq<AbiValue>)

  predicate IsDynamic(v: AbiValue) {
    match v
    case Word(_) => false
    case Blob(_) => true
    case Tuple(items) => exists i :: 0 <= i < |items| && IsDynamic(items[i])
  }

  function PadRight(b: Bytes): Bytes {
    b + Zeros((32 - |b| % 32) % 32)
  }

  function Enc(v: AbiValue): Bytes
    decreases v, 0
  {
    match v
    case Word(n) => ToBe(n, 32)
    case Blob(b) => ToBe(|b|, 32) + PadRight(b)
    case Tuple(items) => Heads(items, HeadsLength(items)) + Tails(items)
  }

  function HeadsLength(items: seq<AbiValue>): nat
    decreases items, 1
  {
    if items == [] then 0
    else (if IsDynamic(items[0]) then 32 else |Enc(items[0])|) + HeadsLength(items[1..])
  }

  /** The heads: a static item in place, a dynamic item as the offset of its tail. */
  function Heads(items: seq<AbiValue>, offset: nat): Bytes
    decreases items, 1
  {
    if items == [] then []
    else if IsDynamic(items[0]) then ToBe(offset, 32) + Heads(items[1..], offset + |Enc(items[0])|)
    else Enc(items[0]) + Heads(items[1..], offset)
  }

  function Tails(items: seq<AbiValue>): Bytes
    decreases items, 1
  {
    if items == [] then []
    else (if IsDynamic(items[0]) then Enc(items[0]) else []) + Tails(items[1..])
  }

  /** `abi.encode` of the one `AutoParamsTo` argument. */
  function AbiEncoding(w: AutoParamsWire): Bytes {
    Enc(Tuple([Tuple([Word(w.executionFee), Word(w.flags), Blob(w.fallbackAddress), Blob(w.data)])]))
  }

  // ----- the encoder -----

  /** The offset of the tuple, and the length of its four heads. */
  const TUPLE_OFFSET: nat := 32
  const TUPLE_HEADS: nat := 128

  function Padded(b: Bytes): Bytes {
    ToBe(|b|, 32) + PadRight(b)
  }

  /** The encoder's layout, written out. */
  function Layout(w: AutoParamsWire): Bytes {
    var fallback := Padded(w.fallbackAddress);
    ToBe(TUPLE_OFFSET, 32) + ToBe(w.executionFee, 32) + ToBe(w.flags, 32) + ToBe(TUPLE_HEADS, 32)
    + ToBe(TUPLE_HEADS + |fallback|, 32) + fallback + Padded(w.data)
  }

  /** A length word, the bytes, and zeros up to `32 + ceil(|b| / 32) * 32`. */
  method PadBytes(b: Bytes) returns (out: Bytes)
    ensures out == Padded(b)
  {
    out := ToBe(|b|, 32);
    out := out + b;
    var size := 32 + (|b| + 31) / 32 * 32;
    PaddingLength(|b|);
    out := out + Zeros(size - |out|);
  }

  lemma PaddingLength(n: nat)
    ensures (n + 31) / 32 * 32 - n == (32 - n % 32) % 32
  {
  }

  method EncodeEvmAutoParams(w: AutoParamsWire) returns (out: Bytes)
    ensures out == AbiEncoding(w)
  {
    var fallback := PadBytes(w.fallbackAddress);
    var data := PadBytes(w.data);
    out := ToBe(TUPLE_OFFSET, 32);
    out := out + ToBe(w.executionFee, 32);
    out := out + ToBe(w.flags, 32);
    out := out + ToBe(TUPLE_HEADS, 32);
    out := out + ToBe(TUPLE_HEADS + |fallback|, 32);
    out := out + fallback;
    out := out + data;
    LayoutIsAbi(w);
  }

  lemma HeadsStatic(v: AbiValue, rest: seq<AbiValue>, offset: nat)
    requires !IsDynamic(v)
    ensures Heads([v] + rest, offset) == Enc(v) + Heads(rest, offset) && Tails([v] + rest) == Tails(rest)
    ensures HeadsLength([v] + rest) == |Enc(v)| + HeadsLength(rest)
  {
    assert ([v] + rest)[1..] == rest;
  }

  lemma HeadsDynamic(v: AbiValue, rest: seq<AbiValue>, offset: nat)
    requires IsDynamic(v)
    ensures Heads([v] + rest, offset) == ToBe(offset, 32) + Heads(rest, offset + |Enc(v)|)
    ensures Tails([v] + rest) == Enc(v) + Tails(rest) && HeadsLength([v] + rest) == 32 + HeadsLength(rest)
  {
    assert ([v] + rest)[1..] == rest;
  }

  /** A tuple of two words and two byte strings, its heads taking `heads` bytes. */
  lemma TupleOfFour(a: nat, b: nat, x: Bytes, y: Bytes, heads: nat)
    requires heads == 128
    ensures var items := [Word(a)] + ([Word(b)] + ([Blob(x)] + ([Blob(y)] + [])));
            && IsDynamic(Tuple(items))
            && Enc(Tuple(items))
               == (ToBe(a, 32) + (ToBe(b, 32) + (ToBe(heads, 32) + ToBe(heads + |Padded(x)|, 32))))
                  + (Padded(x) + Padded(y))
  {
    var i3: seq<AbiValue> := [Blob(y)] + [];
    var i2 := [Blob(x)] + i3;
    var i1 := [Word(b)] + i2;
    var i0 := [Word(a)] + i1;
    assert IsDynamic(i0[2]);
    HeadsDynamic(Blob(y), [], heads + |Padded(x)|);
    HeadsDynamic(Blob(x), i3, heads);
    HeadsStatic(Word(b), i2, heads);
    HeadsStatic(Word(a), i1, heads);
    assert ToBe(heads + |Padded(x)|, 32) + [] == ToBe(heads + |Padded(x)|, 32);
    assert Padded(y) + [] == Padded(y);
  }

  lemma TupleOfOne(v: AbiValue, heads: nat)
    requires IsDynamic(v) && heads == 32
    ensures Enc(Tuple([v] + [])) == ToBe(heads, 32) + Enc(v)
  {
    HeadsDynamic(v, [], heads);
    assert ToBe(heads, 32) + [] == ToBe(heads, 32) && Enc(v) + [] == Enc(v);
  }

  /** The tuple inside its one-element sequence. */
  lemma AbiOfTuple(w: AutoParamsWire, v: AbiValue)
    requires v == Tuple([Word(w.executionFee), Word(w.flags), Blob(w.fallbackAddress), Blob(w.data)]) && IsDynamic(v)
    ensures AbiEncoding(w) == ToBe(TUPLE_OFFSET, 32) + Enc(v)
  {
    TupleOfOne(v, TUPLE_OFFSET);
    assert [v] + [] == [v];
  }

  lemma FourItems(a: AbiValue, b: AbiValue, c: AbiValue, d: AbiValue)
    ensures [a] + ([b] + ([c] + ([d] + []))) == [a, b, c, d]
  {
  }

  /** The encoder's layout is the ABI specification's encoding. */
  lemma LayoutIsAbi(w: AutoParamsWire)
    ensures Layout(w) == AbiEncoding(w)
  {
    var x, y := Padded(w.fallbackAddress), Padded(w.data);
    TupleOfFour(w.executionFee, w.flags, w.fallbackAddress, w.data, TUPLE_HEADS);
    FourItems(Word(w.executionFee), Word(w.flags), Blob(w.fallbackAddress), Blob(w.data));
    AbiOfTuple(w, Tuple([Word(w.executionFee), Word(w.flags), Blob(w.fallbackAddress), Blob(w.data)]));
    Regroup(ToBe(TUPLE_OFFSET, 32), ToBe(w.executionFee, 32), ToBe(w.flags, 32), ToBe(TUPLE_HEADS, 32),
            ToBe(TUPLE_HEADS + |x|, 32), x, y);
  }

  lemma Regroup(a: Bytes, b: Bytes, c: Bytes, d: Bytes, e: Bytes, f: Bytes, g: Bytes)
    ensures a + b + c + d + e + f + g == a + ((b + (c + (d + e))) + (f + g))
  {
  }

  // ----- the decoder -----

  function AbiWord(data: Bytes, at: nat): Decoded<Bytes32> {
    if at + 32 <= |data| then Ok(data[at..at + 32]) else Err(Malformed("truncated word"))
  }

  /** A word that must fit a 64-bit index. */
  function AbiUsize(data: Bytes, at: nat): Decoded<u64> {
    match AbiWord(data, at)
    case Err(e) => Err(e)
    case Ok(w) =>
      if FromBe(w[..24]) != 0 then Err(Malformed("offset/length too large"))
      else
        IndexWord(w);
        Ok(FromBe(w[24..]))
  }

  function AbiBytes(data: Bytes, base: nat, head: nat): Decoded<Bytes> {
    match AbiUsize(data, head)
    case Err(e) => Err(e)
    case Ok(offset) =>
      var off := base + offset;
      if off >= U64_LIMIT then Err(Malformed("offset overflow"))
      else match AbiUsize(data, off)
        case Err(e) => Err(e)
        case Ok(len) =>
          var start := off + 32;
          if start + len >= U64_LIMIT then Err(Malformed("length overflow"))
          else if start + len <= |data| then Ok(data[start..start + len])
          else Err(Malformed("bytes run past the blob"))
  }

  function DecodeEvmAutoParams(blob: Bytes): Decoded<Option<AutoParamsWire>> {
    if blob == [] then Ok(None)
    else match AbiUsize(blob, 0)
      case Err(e) => Err(e)
      case Ok(base) =>
        if base != 32 then Err(Malformed("tuple offset is not 0x20"))
        else match (AbiWord(blob, 32), AbiWord(blob, 64))
          case (Err(e), _) => Err(e)
          case (Ok(_), Err(e)) => Err(e)
          case (Ok(fee), Ok(flags)) =>
            if FromBe(fee[..16]) != 0 then Err(Unrepresentable(ExecutionFee))
            else if FromBe(flags[..24]) != 0 then Err(Unrepresentable(Flags))
            else match (AbiBytes(blob, 32, 96), AbiBytes(blob, 32, 128))
              case (Err(e), _) => Err(e)
              case (Ok(_), Err(e)) => Err(e)
              case (Ok(fallback), Ok(data)) =>
                WordLimits();
                NarrowWord(fee, 16);
                NarrowWord(flags, 8);
                Ok(Some(AutoParamsWire(FromBe(fee[16..]), FromBe(flags[24..]), fallback, data)))
  }

  // ----- words that fit -----

  /** A word whose high bytes are zero denotes what its low `k` bytes do, and only such a word is below `256^k`. */
  lemma NarrowWord(w: Bytes32, k: nat)
    requires k <= 32
    ensures FromBe(w[32 - k..]) < Pow256(k)
    ensures FromBe(w[..32 - k]) == 0 <==> FromBe(w) < Pow256(k)
    ensures FromBe(w[..32 - k]) == 0 ==> FromBe(w) == FromBe(w[32 - k..])
  {
    var hi, lo := w[..32 - k], w[32 - k..];
    SplitValue(hi, lo, w);
    assert |lo| == k;
    HighPart(FromBe(w), FromBe(hi), Pow256(|lo|), FromBe(lo));
  }

  lemma SplitValue(hi: Bytes, lo: Bytes, w: Bytes)
    requires w == hi + lo
    ensures FromBe(w) == FromBe(hi) * Pow256(|lo|) + FromBe(lo) && FromBe(lo) < Pow256(|lo|)
  {
    FromBeConcat(hi, lo);
    FromBeBound(lo);
  }

  lemma HighPart(v: nat, hi: nat, p: nat, lo: nat)
    requires v == hi * p + lo && lo < p
    ensures hi == 0 <==> v < p
    ensures hi == 0 ==> v == lo
  {
    if hi > 0 {
      assert hi * p >= p;
    }
  }

  lemma IndexWord(w: Bytes32)
    ensures 0 <= FromBe(w[24..]) < U64_LIMIT
    ensures FromBe(w[..24]) == 0 <==> FromBe(w) < U64_LIMIT
    ensures FromBe(w[..24]) == 0 ==> FromBe(w) == FromBe(w[24..])
  {
    WordLimits();
    NarrowWord(w, 8);
  }

  // ----- what the decoder accepts -----

  /** The word at `at` denotes `n`. */
  predicate WordAt(blob: Bytes, at: nat, n: nat) {
    at + 32 <= |blob| && FromBe(blob[at..at + 32]) == n
  }

  /** The head word at `head` points, relative to `base`, at a length word followed by `b`. */
  predicate BytesAt(blob: Bytes, base: nat, head: nat, offset: u64, b: Bytes) {
    && WordAt(blob, head, offset) && |b| < U64_LIMIT
    && WordAt(blob, base + offset, |b|)
    && base + offset + 32 + |b| <= |blob|
    && blob[base + offset + 32..base + offset + 32 + |b|] == b
  }

  ghost predicate HoldsBytes(blob: Bytes, base: nat, head: nat, b: Bytes) {
    exists offset: u64 :: BytesAt(blob, base, head, offset, b)
  }

  /** The blob is a tuple at offset 32 holding the fields of `w`, wherever its byte strings lie. */
  ghost predicate Describes(blob: Bytes, w: AutoParamsWire) {
    && WordAt(blob, 0, 32) && WordAt(blob, 32, w.executionFee) && WordAt(blob, 64, w.flags)
    && HoldsBytes(blob, 32, 96, w.fallbackAddress)
    && HoldsBytes(blob, 32, 128, w.data)
  }

  lemma AbiUsizeIff(blob: Bytes, at: nat, n: u64)
    ensures AbiUsize(blob, at) == Ok(n) <==> WordAt(blob, at, n)
    ensures AbiUsize(blob, at).Ok? <==> at + 32 <= |blob| && FromBe(blob[at..at + 32]) < U64_LIMIT
  {
    if at + 32 <= |blob| {
      IndexWord(blob[at..at + 32]);
    }
  }

  lemma AbiBytesIff(blob: Bytes, base: nat, head: nat, b: Bytes)
    requires |blob| < U64_LIMIT
    ensures AbiBytes(blob, base, head) == Ok(b) <==> HoldsBytes(blob, base, head, b)
  {
    if AbiUsize(blob, head).Ok? {
      var offset := AbiUsize(blob, head).value;
      AbiUsizeIff(blob, head, offset);
      var off := base + offset;
      if AbiUsize(blob, off).Ok? {
        AbiUsizeIff(blob, off, AbiUsize(blob, off).value);
      }
      if AbiBytes(blob, base, head) == Ok(b) {
        assert BytesAt(blob, base, head, offset, b);
      }
    }
    if HoldsBytes(blob, base, head, b) {
      var offset: u64 :| BytesAt(blob, base, head, offset, b);
      AbiUsizeIff(blob, head, offset);
      AbiUsizeIff(blob, base + offset, |b|);
    }
  }

  /** The decoder returns `w` exactly for the blobs, of up to 2^64 - 1 bytes, that describe it. */
  lemma DecodesIff(blob: Bytes, w: AutoParamsWire)
    requires |blob| < U64_LIMIT
    ensures DecodeEvmAutoParams(blob) == Ok(Some(w)) <==> Describes(blob, w)
    ensures DecodeEvmAutoParams(blob) == Ok(None) <==> blob == []
  {
    AbiUsizeIff(blob, 0, 32);
    AbiBytesIff(blob, 32, 96, w.fallbackAddress);
    AbiBytesIff(blob, 32, 128, w.data);
    NarrowHeads(blob);
  }

  /** The high bytes of the two scalar words tell whether they fit the wire. */
  lemma NarrowHeads(blob: Bytes)
    ensures |blob| >= 96 ==>
              && (FromBe(blob[32..64][..16]) == 0 <==> FromBe(blob[32..64]) < U128_LIMIT)
              && (FromBe(blob[64..96][..24]) == 0 <==> FromBe(blob[64..96]) < U64_LIMIT)
              && (FromBe(blob[32..64][..16]) == 0 ==> FromBe(blob[32..64][16..]) == FromBe(blob[32..64]))
              && (FromBe(blob[64..96][..24]) == 0 ==> FromBe(blob[64..96][24..]) == FromBe(blob[64..96]))
  {
    if |blob| >= 96 {
      WordLimits();
      NarrowWord(blob[32..64], 16);
      NarrowWord(blob[64..96], 8);
    }
  }

  /**
   A field is reported as unrepresentable exactly when its word is too wide for
   the Solana gate, and nothing before it failed.
   */
  lemma RefusesWideFieldsIff(blob: Bytes)
    ensures DecodeEvmAutoParams(blob) == Err(Unrepresentable(ExecutionFee))
            <==> WordAt(blob, 0, 32) && |blob| >= 96 && FromBe(blob[32..64]) >= U128_LIMIT
    ensures DecodeEvmAutoParams(blob) == Err(Unrepresentable(Flags))
            <==> WordAt(blob, 0, 32) && |blob| >= 96 && FromBe(blob[32..64]) < U128_LIMIT
                 && FromBe(blob[64..96]) >= U64_LIMIT
  {
    AbiUsizeIff(blob, 0, 32);
    NarrowHeads(blob);
    OnlyMalformed(blob, 0);
    OnlyMalformedBytes(blob, 32, 96);
    OnlyMalformedBytes(blob, 32, 128);
  }

  lemma OnlyMalformed(blob: Bytes, at: nat)
    ensures AbiUsize(blob, at).Err? ==> AbiUsize(blob, at).error.Malformed?
  {
  }

  lemma OnlyMalformedBytes(blob: Bytes, base: nat, head: nat)
    ensures AbiBytes(blob, base, head).Err? ==> AbiBytes(blob, base, head).error.Malformed?
  {
  }

  // ----- the round trip -----

  lemma SliceOf(a: Bytes, b: Bytes, c: Bytes)
    ensures (a + b + c)[|a|..|a| + |b|] == b
  {
  }

  lemma WordIn(blob: Bytes, a: Bytes, n: nat, c: Bytes)
    requires n < U256_LIMIT && blob == a + ToBe(n, 32) + c
    ensures WordAt(blob, |a|, n)
  {
    WordLimits();
    FromBeToBe(n, 32);
    SliceOf(a, ToBe(n, 32), c);
  }

  lemma PaddedIn(blob: Bytes, a: Bytes, b: Bytes, c: Bytes)
    requires |b| < U64_LIMIT && blob == a + Padded(b) + c
    ensures WordAt(blob, |a|, |b|)
    ensures |a| + 32 + |b| <= |blob| && blob[|a| + 32..|a| + 32 + |b|] == b
  {
    var word := ToBe(|b|, 32);
    var pad := Zeros((32 - |b| % 32) % 32);
    assert Padded(b) == word + b + pad;
    RegroupPadded(a, word, b, pad, c);
    WordIn(blob, a, |b|, b + pad + c);
    SliceOf(a + word, b, pad + c);
  }

  lemma RegroupPadded(a: Bytes, word: Bytes, b: Bytes, pad: Bytes, c: Bytes)
    ensures a + (word + b + pad) + c == a + word + (b + pad + c)
    ensures a + (word + b + pad) + c == (a + word) + b + (pad + c)
  {
  }

  lemma FiveWords(w0: Bytes32, w1: Bytes32, w2: Bytes32, w3: Bytes32, w4: Bytes32, rest: Bytes)
    ensures var blob := w0 + w1 + w2 + w3 + w4 + rest;
            && |blob| >= 160 && blob[0..32] == w0 && blob[32..64] == w1 && blob[64..96] == w2 && blob[96..128] == w3
            && blob[128..160] == w4
  {
  }

  /** The two byte strings behind 160 bytes of heads. */
  lemma TwoByteStrings(blob: Bytes, heads: Bytes, x: Bytes, y: Bytes)
    requires |heads| == 160 && |blob| < U64_LIMIT && blob == heads + Padded(x) + Padded(y)
    ensures WordAt(blob, 160, |x|) && 192 + |x| <= |blob| && blob[192..192 + |x|] == x
    ensures var at := 160 + |Padded(x)|;
            WordAt(blob, at, |y|) && at + 32 + |y| <= |blob| && blob[at + 32..at + 32 + |y|] == y
  {
    PaddedIn(blob, heads, x, Padded(y));
    assert (heads + Padded(x)) + Padded(y) + [] == heads + Padded(x) + Padded(y);
    PaddedIn(blob, heads + Padded(x), y, []);
  }

  lemma HeadWord(blob: Bytes, at: nat, n: nat)
    requires n < U256_LIMIT && at + 32 <= |blob| && blob[at..at + 32] == ToBe(n, 32)
    ensures WordAt(blob, at, n)
  {
    WordLimits();
    FromBeToBe(n, 32);
  }

  function HeadsOf(w: AutoParamsWire, offset: nat): (heads: Bytes)
    ensures |heads| == 160
  {
    ToBe(TUPLE_OFFSET, 32) + ToBe(w.executionFee, 32) + ToBe(w.flags, 32) + ToBe(TUPLE_HEADS, 32) + ToBe(offset, 32)
  }

  /** The five words at the front of a layout. */
  lemma HeadsRead(blob: Bytes, w: AutoParamsWire, offset: nat, rest: Bytes)
    requires offset < U256_LIMIT && blob == HeadsOf(w, offset) + rest
    ensures WordAt(blob, 0, 32) && WordAt(blob, 32, w.executionFee) && WordAt(blob, 64, w.flags)
    ensures WordAt(blob, 96, TUPLE_HEADS) && WordAt(blob, 128, offset)
  {
    FiveWords(ToBe(TUPLE_OFFSET, 32), ToBe(w.executionFee, 32), ToBe(w.flags, 32), ToBe(TUPLE_HEADS, 32),
              ToBe(offset, 32), rest);
    HeadWord(blob, 0, TUPLE_OFFSET);
    HeadWord(blob, 32, w.executionFee);
    HeadWord(blob, 64, w.flags);
    HeadWord(blob, 96, TUPLE_HEADS);
    HeadWord(blob, 128, offset);
  }

  lemma LayoutIsHeadsAndBytes(w: AutoParamsWire, offset: nat)
    requires offset == TUPLE_HEADS + |Padded(w.fallbackAddress)|
    ensures Layout(w) == HeadsOf(w, offset) + (Padded(w.fallbackAddress) + Padded(w.data))
  {
  }

  lemma HeadsAndBytesDescribe(blob: Bytes, w: AutoParamsWire, heads: Bytes, x: Bytes, y: Bytes, offset: nat)
    requires |blob| < U64_LIMIT && offset == TUPLE_HEADS + |x| && heads == HeadsOf(w, offset)
    requires x == Padded(w.fallbackAddress) && y == Padded(w.data) && blob == heads + (x + y)
    ensures Describes(blob, w)
  {
    HeadsRead(blob, w, offset, x + y);
    Joined(heads, x, y);
    TwoByteStrings(blob, heads, w.fallbackAddress, w.data);
    StringsHeld(blob, w.fallbackAddress, w.data, 32 + offset, offset);
  }

  lemma Joined(a: Bytes, b: Bytes, c: Bytes)
    ensures a + (b + c) == a + b + c
  {
  }

  lemma StringsHeld(blob: Bytes, x: Bytes, y: Bytes, at: nat, offset: nat)
    requires |blob| < U64_LIMIT && at == 32 + offset && WordAt(blob, 96, TUPLE_HEADS) && WordAt(blob, 128, offset)
    requires WordAt(blob, 160, |x|) && 192 + |x| <= |blob| && blob[192..192 + |x|] == x
    requires WordAt(blob, at, |y|) && at + 32 + |y| <= |blob| && blob[at + 32..at + 32 + |y|] == y
    ensures HoldsBytes(blob, 32, 96, x) && HoldsBytes(blob, 32, 128, y)
  {
    assert BytesAt(blob, 32, 96, 128, x);
    assert BytesAt(blob, 32, 128, offset, y);
  }

  lemma LayoutDescribes(w: AutoParamsWire)
    requires |Layout(w)| < U64_LIMIT
    ensures Describes(Layout(w), w)
  {
    var x, y := Padded(w.fallbackAddress), Padded(w.data);
    var offset := TUPLE_HEADS + |x|;
    LayoutIsHeadsAndBytes(w, offset);
    HeadsAndBytesDescribe(Layout(w), w, HeadsOf(w, offset), x, y, offset);
  }

  /** Decoding an encoding gives the value back, for every value whose encoding an index can address. */
  lemma RoundTrip(w: AutoParamsWire)
    requires |AbiEncoding(w)| < U64_LIMIT
    ensures DecodeEvmAutoParams(AbiEncoding(w)) == Ok(Some(w))
  {
    LayoutIsAbi(w);
    LayoutDescribes(w);
    DecodesIff(Layout(w), w);
  }

  // ----- the hash form -----

  function AutoToWire(a: SubmissionHash.AutoParams): AutoParamsWire {
    WordLimits();
    NarrowWord(a.executionFee, 16);
    NarrowWord(a.flags, 8);
    AutoParamsWire(FromBe(a.executionFee[16..]), FromBe(a.flags[24..]), a.fallbackAddress, a.data)
  }

  function WireToAuto(w: AutoParamsWire, nativeSender: Bytes): SubmissionHash.AutoParams {
    SubmissionHash.AutoParams(Zeros(16) + ToBe(w.executionFee, 16), Zeros(24) + ToBe(w.flags, 8), w.fallbackAddress,
                              w.data, nativeSender)
  }

  lemma TailOf(a: Bytes, b: Bytes)
    ensures (a + b)[|a|..] == b
  {
  }

  lemma WidenedWord(v: nat, k: nat)
    requires k <= 32 && v < Pow256(k)
    ensures FromBe(Zeros(32 - k) + ToBe(v, k)) == v && FromBe((Zeros(32 - k) + ToBe(v, k))[32 - k..]) == v
  {
    var pad, word := Zeros(32 - k), ToBe(v, k);
    FromBeToBe(v, k);
    FromBeZeros(32 - k);
    FromBeConcat(pad, word);
    TailOf(pad, word);
  }

  /** Narrowing a word to `k` bytes and widening it again gives it back exactly when it fits `k` bytes. */
  lemma NarrowThenWidenIff(w: Bytes32, k: nat)
    requires k <= 32
    ensures Zeros(32 - k) + ToBe(FromBe(w[32 - k..]), k) == w <==> FromBe(w) < Pow256(k)
  {
    var lo := w[32 - k..];
    NarrowWord(w, k);
    WidenedWord(FromBe(lo), k);
    if FromBe(w) < Pow256(k) {
      FromBeInjective(w, Zeros(32 - k) + ToBe(FromBe(lo), k));
    }
  }

  /** A word that denotes `v` is the widening of `v`. */
  lemma WidenedIsWord(w: Bytes32, v: nat, k: nat)
    requires k <= 32 && FromBe(w) == v < Pow256(k)
    ensures Zeros(32 - k) + ToBe(v, k) == w
  {
    WidenedWord(v, k);
    FromBeInjective(w, Zeros(32 - k) + ToBe(v, k));
  }

  /** Widening a wire value and narrowing it again gives it back, whatever the sender. */
  lemma WireRoundTrip(w: AutoParamsWire, nativeSender: Bytes)
    ensures AutoToWire(WireToAuto(w, nativeSender)) == w
    ensures WireToAuto(w, nativeSender).nativeSender == nativeSender
  {
    WordLimits();
    WidenedWord(w.executionFee, 16);
    WidenedWord(w.flags, 8);
  }

  /** Narrowing loses nothing exactly when both words fit the wire scalars. */
  lemma NarrowingIsLosslessIff(a: SubmissionHash.AutoParams)
    ensures WireToAuto(AutoToWire(a), a.nativeSender) == a
            <==> FromBe(a.executionFee) < U128_LIMIT && FromBe(a.flags) < U64_LIMIT
  {
    WordLimits();
    NarrowThenWidenIff(a.executionFee, 16);
    NarrowThenWidenIff(a.flags, 8);
  }

  /**
   The words the gate hashes for a decoded payload are the words the EVM event
   carried, so both chains derive the same submission id from it.
   */
  lemma DecodedWordsAreTheEventWords(blob: Bytes, w: AutoParamsWire, nativeSender: Bytes)
    requires |blob| < U64_LIMIT && DecodeEvmAutoParams(blob) == Ok(Some(w))
    ensures |blob| >= 96
    ensures WireToAuto(w, nativeSender).executionFee == blob[32..64]
    ensures WireToAuto(w, nativeSender).flags == blob[64..96]
    ensures HoldsBytes(blob, 32, 96, WireToAuto(w, nativeSender).fallbackAddress)
    ensures HoldsBytes(blob, 32, 128, WireToAuto(w, nativeSender).data)
    ensures WireToAuto(w, nativeSender).nativeSender == nativeSender
  {
    DecodesIff(blob, w);
    WordLimits();
    WidenedIsWord(blob[32..64], w.executionFee, 16);
    WidenedIsWord(blob[64..96], w.flags, 8);
  }
}
