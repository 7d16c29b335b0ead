/**
 From a stored bucket to an accepted claim: which signatures the relayer submits,
 and when the gate's quorum check takes them.
 */
module Claims {
  import opened Words
  import opened Collections
  import opened SubmissionHash
  import opened RecordText
  import opened Store
  import V = Verify

  /** A canonical signature and the address it recovers to. */
  datatype Signed = Signed(who: Address, sig: Bytes)

  function Recovered(recovery: V.Recovery, digest: Bytes32, raw: Bytes): Option<Signed> {
    match V.Canonical(raw)
    case None => None
    case Some(c) =>
      match V.RecoverEvmAddress(recovery, digest, c)
      case Err(_) => None
      case Ok(a) => Some(Signed(a, c))
  }

  function AllRecovered(recovery: V.Recovery, digest: Bytes32, raw: seq<Bytes>): seq<Signed> {
    if raw == [] then []
    else
      var n := |raw| - 1;
      AllRecovered(recovery, digest, raw[..n])
      + match Recovered(recovery, digest, raw[n]) case None => [] case Some(x) => [x]
  }

  function ByWho(): (Signed, Signed) -> bool {
    (a: Signed, b: Signed) => FromBe(a.who) <= FromBe(b.who)
  }

  /** Of neighbours with one signer the first stays. */
  function Dedup(s: seq<Signed>): seq<Signed> {
    if |s| <= 1 then s
    else
      var n := |s| - 1;
      Dedup(s[..n]) + if s[n - 1].who == s[n].who then [] else [s[n]]
  }

  function Truncated<T>(s: seq<T>, n: nat): seq<T> {
    if |s| <= n then s else s[..n]
  }

  function SetOf(s: seq<Address>): set<Address> {
    set v | v in s
  }

  function Both(s: seq<Address>, t: seq<Address>): set<Address> {
    set v | v in s && v in t
  }

  function Lesser(a: nat, b: nat): nat {
    if a <= b then a else b
  }

  function IsMember(validators: seq<Address>): Signed -> bool {
    (x: Signed) => x.who in validators
  }

  function MembersOf(recovery: V.Recovery, digest: Bytes32, raw: seq<Bytes>, validators: seq<Address>): seq<Signed> {
    Filter(AllRecovered(recovery, digest, raw), IsMember(validators))
  }

  /** The validators' signatures in signer order, one each, no more than the threshold. */
  function Ordered(recovery: V.Recovery, digest: Bytes32, raw: seq<Bytes>, validators: seq<Address>, threshold: nat)
    : seq<Signed>
  {
    Truncated(Dedup(Sort(MembersOf(recovery, digest, raw, validators), ByWho())), Lesser(threshold, |validators|))
  }

  function Signature(): Signed -> Bytes {
    (x: Signed) => x.sig
  }

  function Submitted(recovery: V.Recovery, digest: Bytes32, raw: seq<Bytes>, validators: seq<Address>, threshold: nat)
    : seq<Bytes>
  {
    Map(Ordered(recovery, digest, raw, validators, threshold), Signature())
  }

  method OrderedSignatures(
    keccak: Hash, recovery: V.Recovery, digestInput: Bytes32, raw: seq<Bytes>, validators: seq<Address>, threshold: nat)
    returns (submitted: seq<Bytes>)
    ensures submitted == Submitted(recovery, EthSignedDigest(keccak, digestInput), raw, validators, threshold)
  {
    var digest := EthSignedDigest(keccak, digestInput);
    var withAddr: seq<Signed> := [];
    for i := 0 to |raw|
      invariant withAddr == MembersOf(recovery, digest, raw[..i], validators)
    {
      assert raw[..i + 1][..i] == raw[..i];
      MembersSnoc(recovery, digest, raw[..i + 1], validators);
      var recovered := Recovered(recovery, digest, raw[i]);
      if recovered.Some? && recovered.value.who in validators {
        withAddr := withAddr + [recovered.value];
      }
    }
    assert raw[..|raw|] == raw;
    withAddr := Sort(withAddr, ByWho());
    withAddr := Dedup(withAddr);
    withAddr := Truncated(withAddr, Lesser(threshold, |validators|));
    submitted := Map(withAddr, Signature());
  }

  // ----- what is submitted -----

  /** The validators with a usable signature in the list. */
  function Backers(recovery: V.Recovery, digest: Bytes32, raw: seq<Bytes>, validators: seq<Address>): set<Address> {
    set i | 0 <= i < |raw| && Recovered(recovery, digest, raw[i]).Some?
            && Recovered(recovery, digest, raw[i]).value.who in validators
      :: Recovered(recovery, digest, raw[i]).value.who
  }

  /** Enough of them, and not the zero address. */
  predicate IsQuorum(voters: set<Address>, threshold: nat) {
    |voters| >= threshold && (threshold == 0 || V.ZERO_ADDRESS !in voters)
  }

  function Whos(s: seq<Signed>): set<Address> {
    set i | 0 <= i < |s| :: s[i].who
  }

  ghost predicate StrictlyBy(s: seq<Signed>) {
    forall i, j :: 0 <= i < j < |s| ==> FromBe(s[i].who) < FromBe(s[j].who)
  }

  /** Each signature recovers to its signer. */
  predicate AllGenuine(recovery: V.Recovery, digest: Bytes32, s: seq<Signed>) {
    forall i :: 0 <= i < |s| ==> V.RecoverEvmAddress(recovery, digest, s[i].sig) == V.Ok(s[i].who)
  }

  /** The last signature of the list is taken when it recovers to a validator. */
  lemma MembersSnoc(recovery: V.Recovery, digest: Bytes32, raw: seq<Bytes>, validators: seq<Address>)
    requires raw != []
    ensures var (n, last) := (|raw| - 1, Recovered(recovery, digest, raw[|raw| - 1]));
            MembersOf(recovery, digest, raw, validators) == MembersOf(recovery, digest, raw[..n], validators)
              + if last.Some? && last.value.who in validators then [last.value] else []
  {
    var n := |raw| - 1;
    var before, last := AllRecovered(recovery, digest, raw[..n]), Recovered(recovery, digest, raw[n]);
    if last.Some? {
      assert AllRecovered(recovery, digest, raw) == before + [last.value];
      assert (before + [last.value])[..|before|] == before;
    } else {
      assert AllRecovered(recovery, digest, raw) == before;
    }
  }

  lemma {:induction false} MembersAreBackers(recovery: V.Recovery, digest: Bytes32, raw: seq<Bytes>,
                                             validators: seq<Address>)
    ensures Whos(MembersOf(recovery, digest, raw, validators)) == Backers(recovery, digest, raw, validators)
    ensures AllGenuine(recovery, digest, MembersOf(recovery, digest, raw, validators))
  {
    if raw != [] {
      var n := |raw| - 1;
      MembersAreBackers(recovery, digest, raw[..n], validators);
      MembersSnoc(recovery, digest, raw, validators);
      BackersSnoc(recovery, digest, raw, validators);
      var before, last := MembersOf(recovery, digest, raw[..n], validators), Recovered(recovery, digest, raw[n]);
      if last.Some? && last.value.who in validators {
        WhosSnoc(before, last.value);
      } else {
        assert MembersOf(recovery, digest, raw, validators) == before;
      }
    }
  }

  lemma BackersSnoc(recovery: V.Recovery, digest: Bytes32, raw: seq<Bytes>, validators: seq<Address>)
    requires raw != []
    ensures var (n, last) := (|raw| - 1, Recovered(recovery, digest, raw[|raw| - 1]));
            Backers(recovery, digest, raw, validators) == Backers(recovery, digest, raw[..n], validators)
              + if last.Some? && last.value.who in validators then {last.value.who} else {}
  {
    var n := |raw| - 1;
    forall i | 0 <= i < n ensures raw[..n][i] == raw[i] {
    }
  }

  lemma WhosSnoc(s: seq<Signed>, x: Signed)
    ensures Whos(s + [x]) == Whos(s) + {x.who}
  {
    var r := s + [x];
    assert r[|s|] == x;
    forall i | 0 <= i < |s| ensures r[i] == s[i] {
    }
  }

  lemma WhosLast(s: seq<Signed>)
    requires s != []
    ensures Whos(s) == Whos(s[..|s| - 1]) + {s[|s| - 1].who}
  {
    var front, last := s[..|s| - 1], s[|s| - 1];
    WhosSnoc(front, last);
    assert front + [last] == s;
  }

  lemma WhoIn(s: seq<Signed>, i: nat)
    requires i < |s|
    ensures s[i].who in Whos(s)
  {
  }

  lemma {:induction false} DedupWithin(s: seq<Signed>)
    ensures forall x :: x in Dedup(s) ==> x in s
  {
    if |s| > 1 {
      DedupWithin(s[..|s| - 1]);
    }
  }

  lemma {:induction false} DedupKeepsWhos(s: seq<Signed>)
    ensures Whos(Dedup(s)) == Whos(s)
  {
    if |s| > 1 {
      var n := |s| - 1;
      var d := Dedup(s[..n]);
      DedupKeepsWhos(s[..n]);
      WhosLast(s);
      if s[n - 1].who == s[n].who {
        assert Dedup(s) == d;
        WhoIn(s[..n], n - 1);
      } else {
        assert Dedup(s) == d + [s[n]];
        WhosSnoc(d, s[n]);
      }
    }
  }

  /** A sorted list without repeated neighbours is strictly ascending. */
  lemma {:induction false} DedupAscends(s: seq<Signed>)
    requires SortedBy(s, ByWho())
    ensures StrictlyBy(Dedup(s))
    ensures s != [] ==> Dedup(s) != [] && Dedup(s)[|Dedup(s)| - 1].who == s[|s| - 1].who
  {
    if |s| > 1 {
      var n := |s| - 1;
      PrefixKeepsOrder(s, ByWho());
      DedupAscends(s[..n]);
      if s[n - 1].who != s[n].who {
        AscendsFurther(s, Dedup(s[..n]));
      }
    }
  }

  lemma AscendsFurther(s: seq<Signed>, d: seq<Signed>)
    requires |s| > 1 && SortedBy(s, ByWho()) && s[|s| - 2].who != s[|s| - 1].who
    requires StrictlyBy(d) && d != [] && d[|d| - 1].who == s[|s| - 2].who
    ensures StrictlyBy(d + [s[|s| - 1]])
  {
    var n := |s| - 1;
    assert ByWho()(s[n - 1], s[n]);
    if FromBe(s[n - 1].who) == FromBe(s[n].who) {
      FromBeInjective(s[n - 1].who, s[n].who);
    }
  }

  lemma {:induction false} AscendingCount(s: seq<Signed>)
    requires StrictlyBy(s)
    ensures |Whos(s)| == |s|
  {
    if s != [] {
      var n := |s| - 1;
      AscendingCount(s[..n]);
      assert s == s[..n] + [s[n]];
      WhosSnoc(s[..n], s[n]);
      assert s[n].who !in Whos(s[..n]);
    }
  }

  lemma {:induction false} SetOfSeqIsNoLarger(s: seq<Address>, a: set<Address>)
    requires forall x :: x in a ==> x in s
    ensures |a| <= |s|
  {
    if s != [] {
      var n := |s| - 1;
      SetOfSeqIsNoLarger(s[..n], a - {s[n]});
    }
  }

  lemma PermutedWhos(a: seq<Signed>, b: seq<Signed>)
    requires multiset(a) == multiset(b)
    ensures Whos(a) == Whos(b)
    ensures forall x :: x in a <==> x in b
  {
    forall x ensures x in a <==> x in b {
      assert x in multiset(a) <==> x in multiset(b);
    }
    forall w ensures w in Whos(a) <==> w in Whos(b) {
      if w in Whos(a) {
        var i :| 0 <= i < |a| && a[i].who == w;
        assert a[i] in b;
      }
      if w in Whos(b) {
        var i :| 0 <= i < |b| && b[i].who == w;
        assert b[i] in a;
      }
    }
  }

  /** The list before it is cut to the threshold. */
  lemma BeforeTheCut(recovery: V.Recovery, digest: Bytes32, raw: seq<Bytes>, validators: seq<Address>)
    returns (d: seq<Signed>)
    ensures d == Dedup(Sort(MembersOf(recovery, digest, raw, validators), ByWho()))
    ensures StrictlyBy(d) && Whos(d) == Backers(recovery, digest, raw, validators)
    ensures AllGenuine(recovery, digest, d)
    ensures |d| == |Backers(recovery, digest, raw, validators)| <= |validators|
  {
    var members := MembersOf(recovery, digest, raw, validators);
    var sorted := Sort(members, ByWho());
    d := Dedup(sorted);
    MembersAreBackers(recovery, digest, raw, validators);
    SortIsSortedPermutation(members, ByWho());
    PermutedWhos(members, sorted);
    DedupAscends(sorted);
    DedupWithin(sorted);
    DedupKeepsWhos(sorted);
    AscendingCount(d);
    SetOfSeqIsNoLarger(validators, Backers(recovery, digest, raw, validators));
    forall i | 0 <= i < |d| ensures V.RecoverEvmAddress(recovery, digest, d[i].sig) == V.Ok(d[i].who) {
      assert d[i] in sorted && d[i] in members;
    }
  }

  /** The quorum check on signatures that recover to strictly ascending validators. */
  lemma AscendingClaimIff(recovery: V.Recovery, digest: Bytes32, t: seq<Signed>, validators: set<Address>,
                          threshold: nat)
    requires AllGenuine(recovery, digest, t) && StrictlyBy(t) && Whos(t) <= validators
    ensures V.VerifyOutcome(recovery, digest, Map(t, Signature()), validators, threshold).Ok?
            <==> |t| >= threshold && (t == [] || t[0].who != V.ZERO_ADDRESS)
  {
    var sigs := Map(t, Signature());
    V.VerifyOutcomeIff(recovery, digest, sigs, validators, threshold);
    var a := V.Signers(recovery, digest, sigs);
    forall i | 0 <= i < |t| ensures a[i] == t[i].who && V.Values(a)[i] == FromBe(t[i].who) {
      assert sigs[i] == t[i].sig;
    }
    assert V.Members(a, validators) == Whos(t);
    AscendingCount(t);
    FromBeZeros(20);
    if t != [] && FromBe(t[0].who) == 0 {
      FromBeInjective(t[0].who, V.ZERO_ADDRESS);
    }
    if t != [] && t[0].who != V.ZERO_ADDRESS {
      assert 0 < FromBe(t[0].who);
      forall i | 0 <= i < |t| ensures 0 < V.Values(a)[i] {
        assert i == 0 || FromBe(t[0].who) < FromBe(t[i].who);
      }
    }
  }

  /**
   Whatever the list holds - junk, strangers, one signer many times, high `s` - the
   gate accepts what the relayer submits from it exactly when enough different
   validators have a usable signature in it, none of them the zero address.
   */
  lemma SubmittedIsAcceptedIff(recovery: V.Recovery, digest: Bytes32, raw: seq<Bytes>, validators: seq<Address>,
                               threshold: nat)
    ensures V.VerifyOutcome(recovery, digest, Submitted(recovery, digest, raw, validators, threshold),
                            SetOf(validators), threshold).Ok?
            <==> IsQuorum(Backers(recovery, digest, raw, validators), threshold)
    ensures |Submitted(recovery, digest, raw, validators, threshold)| <= Lesser(threshold, |validators|)
  {
    var d := BeforeTheCut(recovery, digest, raw, validators);
    assert Whos(d) <= SetOf(validators);
    CutClaimIff(recovery, digest, d, validators, threshold);
  }

  lemma CutClaimIff(recovery: V.Recovery, digest: Bytes32, d: seq<Signed>, validators: seq<Address>, threshold: nat)
    requires AllGenuine(recovery, digest, d) && StrictlyBy(d)
    requires Whos(d) <= SetOf(validators) && |d| <= |validators|
    ensures V.VerifyOutcome(recovery, digest, Map(Truncated(d, Lesser(threshold, |validators|)), Signature()),
                            SetOf(validators), threshold).Ok?
            <==> IsQuorum(Whos(d), threshold)
  {
    var n := Lesser(threshold, |validators|);
    var t := Truncated(d, n);
    PrefixOfClaim(recovery, digest, d, n);
    AscendingClaimIff(recovery, digest, t, SetOf(validators), threshold);
    AscendingCount(d);
    ZeroIsFirst(d);
    assert |t| >= threshold <==> |d| >= threshold;
  }

  lemma PrefixOfClaim(recovery: V.Recovery, digest: Bytes32, d: seq<Signed>, n: nat)
    requires AllGenuine(recovery, digest, d) && StrictlyBy(d)
    ensures AllGenuine(recovery, digest, Truncated(d, n)) && StrictlyBy(Truncated(d, n))
    ensures Whos(Truncated(d, n)) <= Whos(d)
  {
  }

  lemma ZeroIsFirst(d: seq<Signed>)
    requires StrictlyBy(d)
    ensures V.ZERO_ADDRESS in Whos(d) <==> d != [] && d[0].who == V.ZERO_ADDRESS
  {
    FromBeZeros(20);
    if V.ZERO_ADDRESS in Whos(d) {
      var i :| 0 <= i < |d| && d[i].who == V.ZERO_ADDRESS;
      FirstIsLeast(d, i);
      FromBeInjective(d[0].who, V.ZERO_ADDRESS);
    }
  }

  lemma FirstIsLeast(d: seq<Signed>, i: nat)
    requires StrictlyBy(d) && i < |d|
    ensures FromBe(d[0].who) <= FromBe(d[i].who)
  {
  }

  // ----- from the store to the gate -----

  /** The raw signatures of a bucket, as the relayer reads them. */
  function RawOf(bucket: seq<SignerSig>): seq<Bytes> {
    if bucket == [] then []
    else
      var n := |bucket| - 1;
      RawOf(bucket[..n]) + match HexBytes(bucket[n].signature) case None => [] case Some(raw) => [raw]
  }

  /** The addresses a good bucket's entries name. */
  ghost function Voters(env: Env, message: Bytes32, bucket: seq<SignerSig>): (a: seq<Address>)
    requires BucketGood(env, message, bucket)
    ensures |a| == |bucket|
  {
    seq(|bucket|, i requires 0 <= i < |bucket| => ParseFixed(bucket[i].signer, 20).value)
  }

  lemma {:induction false} RawOfGood(bucket: seq<SignerSig>)
    requires forall i :: 0 <= i < |bucket| ==> HexBytes(bucket[i].signature).Some?
    ensures |RawOf(bucket)| == |bucket|
    ensures forall i :: 0 <= i < |bucket| ==> RawOf(bucket)[i] == HexBytes(bucket[i].signature).value
  {
    if bucket != [] {
      var n := |bucket| - 1;
      var front := bucket[..n];
      RawOfGood(front);
      assert RawOf(bucket) == RawOf(front) + [HexBytes(bucket[n].signature).value];
    }
  }

  /** What the store keeps is usable as it is. */
  lemma GoodEntryIsUsable(env: Env, message: Bytes32, entry: SignerSig)
    requires EntryGood(env, message, entry)
    ensures var (raw, digest) := (HexBytes(entry.signature).value, EthSignedDigest(env.lib.keccak, message));
            Recovered(env.recovery, digest, raw) == Some(Signed(ParseFixed(entry.signer, 20).value, raw))
  {
    var raw := HexBytes(entry.signature).value;
    V.CanonicalParts(raw);
    ToBeFromBe(raw[32..64]);
    assert raw == raw[..32] + raw[32..64] + [raw[64]];
  }

  /** A good bucket's backers are the validators among its voters. */
  lemma GoodBackers(env: Env, message: Bytes32, bucket: seq<SignerSig>, validators: seq<Address>)
    requires BucketGood(env, message, bucket)
    ensures Backers(env.recovery, EthSignedDigest(env.lib.keccak, message), RawOf(bucket), validators)
            == Both(validators, Voters(env, message, bucket))
  {
    var digest, raw, voters := EthSignedDigest(env.lib.keccak, message), RawOf(bucket), Voters(env, message, bucket);
    GoodRaw(env, message, bucket);
    BackersAmong(env.recovery, digest, raw, voters, validators);
  }

  lemma GoodRaw(env: Env, message: Bytes32, bucket: seq<SignerSig>)
    requires BucketGood(env, message, bucket)
    ensures |RawOf(bucket)| == |bucket|
    ensures forall i :: 0 <= i < |bucket| ==>
              Recovered(env.recovery, EthSignedDigest(env.lib.keccak, message), RawOf(bucket)[i])
              == Some(Signed(Voters(env, message, bucket)[i], RawOf(bucket)[i]))
  {
    RawOfGood(bucket);
    forall i | 0 <= i < |bucket|
      ensures Recovered(env.recovery, EthSignedDigest(env.lib.keccak, message), RawOf(bucket)[i])
              == Some(Signed(Voters(env, message, bucket)[i], RawOf(bucket)[i]))
    {
      GoodEntryIsUsable(env, message, bucket[i]);
    }
  }

  lemma BackersAmong(recovery: V.Recovery, digest: Bytes32, raw: seq<Bytes>, voters: seq<Address>,
                     validators: seq<Address>)
    requires |raw| == |voters|
    requires forall i :: 0 <= i < |raw| ==> Recovered(recovery, digest, raw[i]) == Some(Signed(voters[i], raw[i]))
    ensures Backers(recovery, digest, raw, validators) == Both(validators, voters)
  {
    forall v | v in validators && v in voters ensures v in Backers(recovery, digest, raw, validators) {
      var i :| 0 <= i < |voters| && voters[i] == v;
      assert Recovered(recovery, digest, raw[i]).value.who == v;
    }
  }

  /**
   The relayer's claim from a good bucket is accepted exactly when enough of its
   voters are validators - however their addresses are spelled, whoever else
   posted, and however often.
   */
  lemma StoredQuorumIsAcceptedIff(env: Env, message: Bytes32, bucket: seq<SignerSig>, validators: seq<Address>,
                                  threshold: nat)
    requires BucketGood(env, message, bucket)
    ensures var digest := EthSignedDigest(env.lib.keccak, message);
            V.VerifyOutcome(env.recovery, digest, Submitted(env.recovery, digest, RawOf(bucket), validators, threshold),
                            SetOf(validators), threshold).Ok?
            <==> IsQuorum(Both(validators, Voters(env, message, bucket)), threshold)
  {
    GoodBackers(env, message, bucket, validators);
    SubmittedIsAcceptedIff(env.recovery, EthSignedDigest(env.lib.keccak, message), RawOf(bucket), validators, threshold);
  }

  /** So in every run of the store, for every record and each of the three votes. */
  lemma RunQuorumIsAcceptedIff(env: Env, P: set<Bytes>, ops: seq<Op>, key: string, kind: Vote, validators: seq<Address>,
                               threshold: nat)
    requires StrictRecovery(env.recovery) && CollisionFree(env.lib.keccak, P) && FairOps(env, P, ops)
    requires key in Run(env, ops)
    ensures var r := Run(env, ops)[key];
            && SubmissionOfRecord(env.lib, r).Ok?
            && var message := VoteMessage(env.lib.keccak, kind,
                                          SubmissionId(env.lib.keccak, SubmissionOfRecord(env.lib, r).value));
               && BucketGood(env, message, BucketOf(r, kind))
               && var digest := EthSignedDigest(env.lib.keccak, message);
                  V.VerifyOutcome(env.recovery, digest,
                                  Submitted(env.recovery, digest, RawOf(BucketOf(r, kind)), validators, threshold),
                                  SetOf(validators), threshold).Ok?
                  <==> IsQuorum(Both(validators, Voters(env, message, BucketOf(r, kind))), threshold)
  {
    RunKeepsInv(env, P, ops);
    var r := Run(env, ops)[key];
    assert RecordGood(env, key, r);
    var message := VoteMessage(env.lib.keccak, kind, ParseFixed(r.submissionId, 32).value);
    assert BucketGood(env, message, BucketOf(r, kind));
    StoredQuorumIsAcceptedIff(env, message, BucketOf(r, kind), validators, threshold);
  }

  // ----- a quorum split over two files -----

  /** The gate's answer to what the relayer submits from a bucket. */
  predicate Claimable(env: Env, message: Bytes32, bucket: seq<SignerSig>, validators: seq<Address>, threshold: nat) {
    var digest := EthSignedDigest(env.lib.keccak, message);
    V.VerifyOutcome(env.recovery, digest, Submitted(env.recovery, digest, RawOf(bucket), validators, threshold),
                    SetOf(validators), threshold).Ok?
  }

  lemma ClaimableIff(env: Env, message: Bytes32, bucket: seq<SignerSig>, voters: seq<Address>, validators: seq<Address>,
                     threshold: nat)
    requires BucketGood(env, message, bucket) && Voters(env, message, bucket) == voters
    ensures Claimable(env, message, bucket, validators, threshold) <==> IsQuorum(Both(validators, voters), threshold)
  {
    StoredQuorumIsAcceptedIff(env, message, bucket, validators, threshold);
  }

  lemma OneEntry(env: Env, message: Bytes32, c: SignerSig, validators: seq<Address>)
    requires EntryGood(env, message, c)
    ensures !Claimable(env, message, [c], validators, 2)
  {
    assert BucketGood(env, message, [c]);
    var who := ParseFixed(c.signer, 20).value;
    assert Voters(env, message, [c]) == [who];
    ClaimableIff(env, message, [c], [who], validators, 2);
    SetOfSeqIsNoLarger([who], Both(validators, [who]));
  }

  predicate DifferentVoters(c: SignerSig, d: SignerSig, validators: seq<Address>) {
    && ParseFixed(c.signer, 20).Some? && ParseFixed(d.signer, 20).Some?
    && var (x, y) := (ParseFixed(c.signer, 20).value, ParseFixed(d.signer, 20).value);
       x != y && x in validators && y in validators && x != V.ZERO_ADDRESS && y != V.ZERO_ADDRESS
  }

  lemma TwoAreGood(env: Env, message: Bytes32, c: SignerSig, d: SignerSig)
    requires EntryGood(env, message, c) && EntryGood(env, message, d)
    requires ParseFixed(c.signer, 20) != ParseFixed(d.signer, 20)
    ensures !SameText(c.signer, d.signer) && BucketGood(env, message, [c, d])
  {
    SameTextIff(c.signer, d.signer);
  }

  lemma TwoAreAQuorum(validators: seq<Address>, x: Address, y: Address)
    requires x != y && x in validators && y in validators && x != V.ZERO_ADDRESS && y != V.ZERO_ADDRESS
    ensures IsQuorum(Both(validators, [x, y]), 2)
  {
    assert Both(validators, [x, y]) == {x, y};
  }

  lemma TwoVoters(env: Env, message: Bytes32, c: SignerSig, d: SignerSig, x: Address, y: Address)
    requires BucketGood(env, message, [c, d]) && ParseFixed(c.signer, 20) == Some(x) && ParseFixed(d.signer, 20) == Some(y)
    ensures Voters(env, message, [c, d]) == [x, y]
  {
  }

  lemma TwoEntries(env: Env, message: Bytes32, c: SignerSig, d: SignerSig, validators: seq<Address>)
    requires EntryGood(env, message, c) && EntryGood(env, message, d) && DifferentVoters(c, d, validators)
    ensures !SameText(c.signer, d.signer) && Claimable(env, message, [c, d], validators, 2)
  {
    var x, y := ParseFixed(c.signer, 20).value, ParseFixed(d.signer, 20).value;
    TwoAreGood(env, message, c, d);
    TwoVoters(env, message, c, d, x, y);
    ClaimableIff(env, message, [c, d], [x, y], validators, 2);
    TwoAreAQuorum(validators, x, y);
  }

  /**
   Two validators' posts of one transfer, the id spelled in different cases, end in
   two files of which neither holds a quorum of two; posted under one spelling
   they end in one file that does.
   */
  lemma CaseSplitsTheQuorum(env: Env, r: Record, id: string, a: SignerSig, b: SignerSig, validators: seq<Address>)
    requires StrictRecovery(env.recovery) && Admit(env, r, a).Done? && NoLists(r)
    requires ParseFixed(id, 32) == ParseFixed(r.submissionId, 32) && StripPrefix(id) != StripPrefix(r.submissionId)
    requires VerifySignature(env, ParseFixed(r.submissionId, 32).value, b).Done? && DifferentVoters(a, b, validators)
    ensures var message, key, other := ParseFixed(r.submissionId, 32).value, StripPrefix(r.submissionId), StripPrefix(id);
            var split := Run(env, [Upsert(r, a), Upsert(r.(submissionId := id), b)]);
            var whole := Run(env, [Upsert(r, a), Upsert(r, b)]);
            && split.Keys == {key, other} && SameText(key, other) && whole.Keys == {key}
            && !Claimable(env, message, split[key].signatures, validators, 2)
            && !Claimable(env, message, split[other].signatures, validators, 2)
            && Claimable(env, message, whole[key].signatures, validators, 2)
  {
    var message := ParseFixed(r.submissionId, 32).value;
    var c, d := PostedEntries(env, r, a, b);
    OneEntry(env, message, c, validators);
    OneEntry(env, message, d, validators);
    TwoEntries(env, message, c, d, validators);
    SplitFiles(env, r, id, a, b, c, d);
    OtherSpellingIsAdmitted(env, r, r.submissionId, a, b);
    BothInOneFile(env, r, a, b, c, d);
  }

  lemma SplitFiles(env: Env, r: Record, id: string, a: SignerSig, b: SignerSig, c: SignerSig, d: SignerSig)
    requires StrictRecovery(env.recovery) && Admit(env, r, a).Done? && NoLists(r)
    requires ParseFixed(id, 32) == ParseFixed(r.submissionId, 32) && StripPrefix(id) != StripPrefix(r.submissionId)
    requires VerifySignature(env, ParseFixed(r.submissionId, 32).value, b).Done?
    requires CanonicalSignature(a) == Done(c) && CanonicalSignature(b) == Done(d)
    ensures var split := Run(env, [Upsert(r, a), Upsert(r.(submissionId := id), b)]);
            var (key, other) := (StripPrefix(r.submissionId), StripPrefix(id));
            && split.Keys == {key, other} && SameText(key, other)
            && split[key].signatures == [c] && split[other].signatures == [d]
  {
    CaseSplitsTheFile(env, r, id, a, b);
  }

  lemma PostedEntries(env: Env, r: Record, a: SignerSig, b: SignerSig) returns (c: SignerSig, d: SignerSig)
    requires StrictRecovery(env.recovery) && Admit(env, r, a).Done?
    requires VerifySignature(env, ParseFixed(r.submissionId, 32).value, b).Done?
    ensures CanonicalSignature(a) == Done(c) && CanonicalSignature(b) == Done(d)
    ensures c.signer == a.signer && d.signer == b.signer
    ensures EntryGood(env, ParseFixed(r.submissionId, 32).value, c)
    ensures EntryGood(env, ParseFixed(r.submissionId, 32).value, d)
  {
    AdmittedIsBound(env, r, a);
    AdmittedPassedAll(env, r, a);
    VerifiedEntryIsGood(env, ParseFixed(r.submissionId, 32).value, b);
    c, d := CanonicalSignature(a).value, CanonicalSignature(b).value;
  }

  lemma BothInOneFile(env: Env, r: Record, a: SignerSig, b: SignerSig, c: SignerSig, d: SignerSig)
    requires Admit(env, r, a).Done? && Admit(env, r, b).Done? && NoLists(r)
    requires CanonicalSignature(a) == Done(c) && CanonicalSignature(b) == Done(d) && !SameText(c.signer, b.signer)
    ensures var whole, key := Run(env, [Upsert(r, a), Upsert(r, b)]), StripPrefix(r.submissionId);
            whole.Keys == {key} && whole[key].signatures == [c, d]
  {
    var key, empty: Files := StripPrefix(r.submissionId), map[];
    var files := empty[key := r.(signatures := [c])];
    NewFile(env, empty, r, a);
    NextEntry(env, files, r, [c], b);
    assert [c] + [d] == [c, d];
    TwoOps(env, Upsert(r, a), Upsert(r, b));
  }

  // ----- the plain sort -----

  /** Sorted but not deduplicated, a good bucket is accepted exactly when no address has two entries as well. */
  lemma SortedBucketAcceptedIff(env: Env, message: Bytes32, bucket: seq<SignerSig>, validators: set<Address>,
                                threshold: nat)
    requires BucketGood(env, message, bucket)
    ensures var digest := EthSignedDigest(env.lib.keccak, message);
            V.VerifyOutcome(env.recovery, digest, V.SortedForClaim(env.recovery, digest, RawOf(bucket)), validators,
                            threshold).Ok?
            <==> && V.DistinctNonZero(Voters(env, message, bucket))
                 && |V.Members(Voters(env, message, bucket), validators)| >= threshold
  {
    var digest, raw := EthSignedDigest(env.lib.keccak, message), RawOf(bucket);
    RawOfGood(bucket);
    forall i | 0 <= i < |bucket|
      ensures V.RecoverEvmAddress(env.recovery, digest, raw[i]) == V.Ok(Voters(env, message, bucket)[i])
    {
      assert EntryGood(env, message, bucket[i]);
    }
    V.SortedClaimAcceptedIff(env.recovery, digest, raw, validators, threshold);
    assert V.Signers(env.recovery, digest, raw) == Voters(env, message, bucket);
  }

  /** With every signer written with the prefix, that means only: no zero address, and enough validators. */
  lemma PrefixedBucketAcceptedIff(env: Env, message: Bytes32, bucket: seq<SignerSig>, validators: set<Address>,
                                  threshold: nat)
    requires BucketGood(env, message, bucket)
    requires forall i :: 0 <= i < |bucket| ==> Prefixed(bucket[i].signer)
    ensures var digest := EthSignedDigest(env.lib.keccak, message);
            V.VerifyOutcome(env.recovery, digest, V.SortedForClaim(env.recovery, digest, RawOf(bucket)), validators,
                            threshold).Ok?
            <==> && V.ZERO_ADDRESS !in Voters(env, message, bucket)
                 && |V.Members(Voters(env, message, bucket), validators)| >= threshold
  {
    SortedBucketAcceptedIff(env, message, bucket, validators, threshold);
    var a := Voters(env, message, bucket);
    forall i, j | 0 <= i < j < |bucket| ensures a[i] != a[j] {
      PrefixedBucketHasDistinctAddresses(env, message, bucket, i, j);
    }
  }

  /** What a vote of this kind on the stored record signs. */
  function MessageOf(env: Env, files: Files, id: string, kind: Vote): Bytes32
    requires StripPrefix(id) in files
  {
    match ParseFixed(files[StripPrefix(id)].submissionId, 32)
    case None => Zeros(32)
    case Some(hash) => VoteMessage(env.lib.keccak, kind, hash)
  }

  /**
   One verified signature attested twice, its signer once with and once without
   the prefix, leaves two entries of one address in the bucket ...
   */
  lemma TwinAttestationsBothStay(env: Env, files: Files, id: string, kind: Vote, a: Address, signature: string)
    returns (after: Files, c: string)
    requires StrictRecovery(env.recovery) && Inv(env, files) && IsValidSubmissionId(id) && StripPrefix(id) in files
    requires var bucket := BucketOf(files[StripPrefix(id)], kind);
             && !HasSigner(bucket, Hex0x(a)) && !HasSigner(bucket, HexEncode(a))
             && |bucket| + 2 <= MAX_SIGNATURES_PER_SUBMISSION
    requires VerifySignature(env, MessageOf(env, files, id, kind), SignerSig(Hex0x(a), signature)).Done?
    ensures after == Apply(env, Apply(env, files, Attest(id, kind, SignerSig(Hex0x(a), signature))),
                           Attest(id, kind, SignerSig(HexEncode(a), signature)))
    ensures StripPrefix(id) in after && Inv(env, after)
    ensures MessageOf(env, after, id, kind) == MessageOf(env, files, id, kind)
    ensures BucketOf(after[StripPrefix(id)], kind)
            == BucketOf(files[StripPrefix(id)], kind) + [SignerSig(Hex0x(a), c)] + [SignerSig(HexEncode(a), c)]
  {
    var key, message := StripPrefix(id), MessageOf(env, files, id, kind);
    var bucket := BucketOf(files[key], kind);
    assert RecordGood(env, key, files[key]);
    UnprefixedTwinIsASecondEntry(a);
    c := CanonicalEntry(env, message, Hex0x(a), HexEncode(a), signature);
    var one, two := SignerSig(Hex0x(a), c), SignerSig(HexEncode(a), c);
    var first := Pushed(env, files, id, kind, SignerSig(Hex0x(a), signature), one);
    StillAbsent(bucket, one, two.signer);
    AttestKeepsInv(env, files, id, kind, SignerSig(Hex0x(a), signature));
    after := Pushed(env, first, id, kind, SignerSig(HexEncode(a), signature), two);
    AttestKeepsInv(env, first, id, kind, SignerSig(HexEncode(a), signature));
  }

  lemma StillAbsent(bucket: seq<SignerSig>, one: SignerSig, signer: string)
    requires !HasSigner(bucket, signer) && !SameText(one.signer, signer)
    ensures !HasSigner(bucket + [one], signer)
  {
  }

  /** ... and after the plain sort no bucket with two entries of one address is ever accepted. */
  lemma TwinEntriesAreRefused(env: Env, message: Bytes32, bucket: seq<SignerSig>, i: nat, j: nat,
                              validators: set<Address>, threshold: nat)
    requires BucketGood(env, message, bucket) && i < j < |bucket|
    requires ParseFixed(bucket[i].signer, 20) == ParseFixed(bucket[j].signer, 20)
    ensures var digest := EthSignedDigest(env.lib.keccak, message);
            V.VerifyOutcome(env.recovery, digest, V.SortedForClaim(env.recovery, digest, RawOf(bucket)), validators,
                            threshold).Err?
  {
    SortedBucketAcceptedIff(env, message, bucket, validators, threshold);
    assert Voters(env, message, bucket)[i] == Voters(env, message, bucket)[j];
  }

  lemma SpellingIsIgnored(env: Env, message: Bytes32, one: SignerSig, two: SignerSig)
    requires ParseFixed(one.signer, 20) == ParseFixed(two.signer, 20) && one.signature == two.signature
    ensures VerifySignature(env, message, one) == VerifySignature(env, message, two)
  {
  }

  lemma CanonicalIgnoresSigner(one: SignerSig, two: SignerSig)
    requires one.signature == two.signature && CanonicalSignature(one).Done?
    ensures CanonicalSignature(one) == Done(one.(signature := CanonicalSignature(one).value.signature))
    ensures CanonicalSignature(two) == Done(two.(signature := CanonicalSignature(one).value.signature))
  {
  }

  /** Two spellings of one signer are verified alike and stored with the same signature text. */
  lemma CanonicalEntry(env: Env, message: Bytes32, one: string, two: string, signature: string) returns (c: string)
    requires StrictRecovery(env.recovery) && VerifySignature(env, message, SignerSig(one, signature)).Done?
    requires ParseFixed(one, 20) == ParseFixed(two, 20)
    ensures VerifySignature(env, message, SignerSig(two, signature)).Done?
    ensures CanonicalSignature(SignerSig(one, signature)) == Done(SignerSig(one, c))
    ensures CanonicalSignature(SignerSig(two, signature)) == Done(SignerSig(two, c))
  {
    var a, b := SignerSig(one, signature), SignerSig(two, signature);
    SpellingIsIgnored(env, message, a, b);
    VerifiedEntryIsGood(env, message, a);
    CanonicalIgnoresSigner(a, b);
    c := CanonicalSignature(a).value.signature;
  }

  /** A verified attestation of a new signer appends its canonical entry. */
  lemma Pushed(env: Env, files: Files, id: string, kind: Vote, sig: SignerSig, entry: SignerSig) returns (after: Files)
    requires IsValidSubmissionId(id) && StripPrefix(id) in files
    requires ParseFixed(files[StripPrefix(id)].submissionId, 32).Some?
    requires VerifySignature(env, MessageOf(env, files, id, kind), sig).Done? && CanonicalSignature(sig) == Done(entry)
    requires var bucket := BucketOf(files[StripPrefix(id)], kind);
             !HasSigner(bucket, entry.signer) && |bucket| < MAX_SIGNATURES_PER_SUBMISSION
    ensures after == AttestEffect(env, files, id, kind, sig).0 && StripPrefix(id) in after
    ensures BucketOf(after[StripPrefix(id)], kind) == BucketOf(files[StripPrefix(id)], kind) + [entry]
    ensures after[StripPrefix(id)].submissionId == files[StripPrefix(id)].submissionId
  {
    after := AttestEffect(env, files, id, kind, sig).0;
  }
}
