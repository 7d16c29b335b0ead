/** What every run of the mesh guarantees, stated over the real hash and quorum computations. */
module MeshSafety {
  import opened Words
  import opened SubmissionHash
  import opened Gate
  import opened Collections
  import opened Ledger
  import opened Mesh
  import Verify

  /** A mesh whose ids, digests and quorums are those of `SubmissionHash` and `Verify`. */
  function Deployment(
    keccak: Hash, recovery: Verify.Recovery, validators: set<Address>, threshold: nat,
    domain: Bytes32, dishonest: set<Address>): Config
  {
    Config(recovery, validators, threshold, domain, dishonest,
           s => SubmissionId(keccak, s),
           (vote, s) => EthSignedDigest(keccak, VoteMessage(keccak, vote, SubmissionId(keccak, s))),
           (digest, signatures) => Verify.VerifyOutcome(recovery, digest, signatures, validators, threshold))
  }

  /** The byte strings hashed for the submissions `U` are in `P`. */
  predicate Covers(keccak: Hash, P: set<Bytes>, U: set<Submission>) {
    forall s :: s in U ==> HashedForVotes(keccak, s) <= P
  }

  lemma HashingIsSound(
    keccak: Hash, recovery: Verify.Recovery, validators: set<Address>, threshold: nat,
    domain: Bytes32, dishonest: set<Address>, P: set<Bytes>, U: set<Submission>)
    requires CollisionFree(keccak, P) && Covers(keccak, P, U) && |dishonest * validators| < threshold
    ensures Sound(Deployment(keccak, recovery, validators, threshold, domain, dishonest), U)
  {
    var cfg := Deployment(keccak, recovery, validators, threshold, domain, dishonest);
    forall v: Vote, s, w: Vote, t | s in U && t in U && cfg.digest(v, s) == cfg.digest(w, t)
      ensures v == w && cfg.id(s) == cfg.id(t)
    {
      VoteDigestSeparates(keccak, P, v, s, w, t);
    }
    forall s, t | s in U && t in U && cfg.id(s) == cfg.id(t)
      ensures s.debridgeId == t.debridgeId && s.amount == t.amount
      ensures |s.receiver| <= MAX_ACCOUNT_BYTES && |t.receiver| <= MAX_ACCOUNT_BYTES ==> s == t
    {
      SameIdSameHead(keccak, P, s, t);
      if |s.receiver| <= MAX_ACCOUNT_BYTES && |t.receiver| <= MAX_ACCOUNT_BYTES {
        SubmissionIdInjective(keccak, P, s, t);
      }
    }
    forall digest, signatures | cfg.verdict(digest, signatures).Ok? ensures HasHonestSigner(cfg, digest, signatures) {
      var sig, who := Verify.QuorumHasHonestSigner(recovery, digest, signatures, validators, threshold, dishonest);
    }
  }

  /** The mesh's claim step is the one `Gate.SolanaGate.Claim` is proved to take. */
  lemma MeshClaimIsGateClaim(
    keccak: Hash, recovery: Verify.Recovery, validators: set<Address>, threshold: nat,
    domain: Bytes32, dishonest: set<Address>, m: Mesh, chain: u64, a: ClaimArgs)
    requires var cfg := Deployment(keccak, recovery, validators, threshold, domain, dishonest);
             GatesAgree(cfg, m) && chain in m.gates
    ensures var cfg := Deployment(keccak, recovery, validators, threshold, domain, dishonest);
            var g := m.gates[chain].gate;
            var id := SubmissionId(keccak, g.Incoming(a));
            AfterClaim(cfg, m, chain, a).gates[chain].gate
            == ClaimEffect(g, a, id, Quorum(keccak, recovery, g, id, a.signatures))
  {
    var cfg := Deployment(keccak, recovery, validators, threshold, domain, dishonest);
    assert SharesConfig(cfg, m.gates[chain].gate);
  }

  // ---- at most one payout ----------------------------------------------------

  /** Each transfer is sent once, and paid out at most once over both chains, to the right party. */
  predicate PaysAtMostOnce(m: Mesh) {
    && NoDup(m.sent) && NoDup(m.claimed) && NoDup(m.refunded)
    && (forall s :: s in m.claimed ==> s in m.sent && s !in m.refunded)
    && (forall s :: s in m.refunded ==> s in m.sent && s in m.repaid && s in m.sender && m.repaid[s] == m.sender[s])
  }

  lemma InitialInv(cfg: Config, U: set<Submission>, m: Mesh)
    requires Initial(cfg, m)
    ensures SafeInv(cfg, U, m)
  {
  }

  lemma InvPaysAtMostOnce(cfg: Config, U: set<Submission>, m: Mesh)
    requires Inv(cfg, U, m)
    ensures PaysAtMostOnce(m)
  {
    forall s | s in m.claimed ensures s in m.sent && s !in m.refunded {
      assert ClaimedOk(cfg, m, s);
      assert !RefundedOk(cfg, m, s);
    }
    forall s | s in m.refunded ensures RefundedOk(cfg, m, s) {
    }
  }

  /**
   In every run with fewer dishonest validators than the threshold and no hash
   collision, every payout - a claim on the destination or a refund on the source -
   is of exactly one earlier send, with the same asset, amount, scale, receiver,
   nonce and route; no send is paid twice, and none is both claimed and refunded.
   */
  lemma MeshPaysAtMostOnce(
    keccak: Hash, recovery: Verify.Recovery, validators: set<Address>, threshold: nat, domain: Bytes32,
    dishonest: set<Address>, P: set<Bytes>, U: set<Submission>, m: Mesh, run: seq<Action>)
    requires CollisionFree(keccak, P) && Covers(keccak, P, U) && |dishonest * validators| < threshold
    requires var cfg := Deployment(keccak, recovery, validators, threshold, domain, dishonest);
             Initial(cfg, m) && AllowedRun(cfg, U, m, run)
    ensures PaysAtMostOnce(Run(Deployment(keccak, recovery, validators, threshold, domain, dishonest), U, m, run))
  {
    var cfg := Deployment(keccak, recovery, validators, threshold, domain, dishonest);
    HashingIsSound(keccak, recovery, validators, threshold, domain, dishonest, P, U);
    InitialInv(cfg, U, m);
    RunKeepsInv(cfg, U, m, run);
    InvPaysAtMostOnce(cfg, U, Run(cfg, U, m, run));
  }

  /** A validator outside the dishonest set has signed this digest. */
  ghost predicate Voted(m: Mesh, validators: set<Address>, dishonest: set<Address>, digest: Bytes32) {
    exists who :: who in validators && who !in dishonest && (who, digest) in m.signed
  }

  /** The id is that of a sent transfer whose cancel was voted. */
  ghost predicate BurnVoted(keccak: Hash, m: Mesh, validators: set<Address>, dishonest: set<Address>, id: Bytes32) {
    && (exists s :: s in m.sent && SubmissionId(keccak, s) == id)
    && Voted(m, validators, dishonest, EthSignedDigest(keccak, CancelId(keccak, id)))
  }

  lemma BackedIsVoted(
    keccak: Hash, recovery: Verify.Recovery, validators: set<Address>, threshold: nat, domain: Bytes32,
    dishonest: set<Address>, m: Mesh, vote: Vote, s: Submission)
    requires Backed(Deployment(keccak, recovery, validators, threshold, domain, dishonest), m, vote, s)
    ensures Voted(m, validators, dishonest, EthSignedDigest(keccak, VoteMessage(keccak, vote, SubmissionId(keccak, s))))
  {
  }

  lemma BurnIsVoted(
    keccak: Hash, recovery: Verify.Recovery, validators: set<Address>, threshold: nat, domain: Bytes32,
    dishonest: set<Address>, m: Mesh, id: Bytes32)
    requires BurnBacked(Deployment(keccak, recovery, validators, threshold, domain, dishonest), m, id)
    ensures BurnVoted(keccak, m, validators, dishonest, id)
  {
    var cfg := Deployment(keccak, recovery, validators, threshold, domain, dishonest);
    var s :| s in m.sent && cfg.id(s) == id && Backed(cfg, m, Vote.Cancel, s);
    assert SubmissionId(keccak, s) == id;
    BackedIsVoted(keccak, recovery, validators, threshold, domain, dishonest, m, Vote.Cancel, s);
  }

  /**
   In every such run, each id burned at a gate is that of a sent transfer whose cancel
   an honest validator signed, and each claim and each refund that was paid has an
   honest vote of its own kind.
   */
  lemma EveryDecisionIsVoted(
    keccak: Hash, recovery: Verify.Recovery, validators: set<Address>, threshold: nat, domain: Bytes32,
    dishonest: set<Address>, P: set<Bytes>, U: set<Submission>, m: Mesh, run: seq<Action>)
    requires CollisionFree(keccak, P) && Covers(keccak, P, U) && |dishonest * validators| < threshold
    requires var cfg := Deployment(keccak, recovery, validators, threshold, domain, dishonest);
             Initial(cfg, m) && AllowedRun(cfg, U, m, run)
    ensures var f := Run(Deployment(keccak, recovery, validators, threshold, domain, dishonest), U, m, run);
            && (forall c, id :: c in f.gates && id in f.gates[c].cancelled ==>
                  BurnVoted(keccak, f, validators, dishonest, id))
            && (forall s :: s in f.claimed ==>
                  Voted(f, validators, dishonest, EthSignedDigest(keccak, SubmissionId(keccak, s))))
            && (forall s :: s in f.refunded ==>
                  Voted(f, validators, dishonest, EthSignedDigest(keccak, RefundId(keccak, SubmissionId(keccak, s)))))
  {
    var cfg := Deployment(keccak, recovery, validators, threshold, domain, dishonest);
    HashingIsSound(keccak, recovery, validators, threshold, domain, dishonest, P, U);
    InitialInv(cfg, U, m);
    RunKeepsInv(cfg, U, m, run);
    VotesAreVoted(keccak, recovery, validators, threshold, domain, dishonest, Run(cfg, U, m, run));
  }

  lemma VotesAreVoted(
    keccak: Hash, recovery: Verify.Recovery, validators: set<Address>, threshold: nat, domain: Bytes32,
    dishonest: set<Address>, f: Mesh)
    requires VotesInv(Deployment(keccak, recovery, validators, threshold, domain, dishonest), f)
    ensures forall c, id :: c in f.gates && id in f.gates[c].cancelled ==> BurnVoted(keccak, f, validators, dishonest, id)
    ensures forall s :: s in f.claimed ==>
              Voted(f, validators, dishonest, EthSignedDigest(keccak, SubmissionId(keccak, s)))
    ensures forall s :: s in f.refunded ==>
              Voted(f, validators, dishonest, EthSignedDigest(keccak, RefundId(keccak, SubmissionId(keccak, s))))
  {
    forall c, id | c in f.gates && id in f.gates[c].cancelled ensures BurnVoted(keccak, f, validators, dishonest, id) {
      BurnIsVoted(keccak, recovery, validators, threshold, domain, dishonest, f, id);
    }
    forall s | s in f.claimed
      ensures Voted(f, validators, dishonest, EthSignedDigest(keccak, SubmissionId(keccak, s)))
    {
      BackedIsVoted(keccak, recovery, validators, threshold, domain, dishonest, f, Vote.Transfer, s);
    }
    forall s | s in f.refunded
      ensures Voted(f, validators, dishonest, EthSignedDigest(keccak, RefundId(keccak, SubmissionId(keccak, s))))
    {
      BackedIsVoted(keccak, recovery, validators, threshold, domain, dishonest, f, Vote.Refund, s);
    }
  }

  /** What is paid out never exceeds what was locked, for any selection of transfers - one route and asset, say. */
  lemma PayoutsNeverExceedLocks(
    keccak: Hash, recovery: Verify.Recovery, validators: set<Address>, threshold: nat, domain: Bytes32,
    dishonest: set<Address>, P: set<Bytes>, U: set<Submission>, m: Mesh, run: seq<Action>, keep: Submission -> bool)
    requires CollisionFree(keccak, P) && Covers(keccak, P, U) && |dishonest * validators| < threshold
    requires var cfg := Deployment(keccak, recovery, validators, threshold, domain, dishonest);
             Initial(cfg, m) && AllowedRun(cfg, U, m, run)
    ensures var f := Run(Deployment(keccak, recovery, validators, threshold, domain, dishonest), U, m, run);
            Total(f.claimed, keep) + Total(f.refunded, keep) <= Total(f.sent, keep)
  {
    MeshPaysAtMostOnce(keccak, recovery, validators, threshold, domain, dishonest, P, U, m, run);
    var f := Run(Deployment(keccak, recovery, validators, threshold, domain, dishonest), U, m, run);
    NoDupConcat(f.claimed, f.refunded);
    TotalConcat(f.claimed, f.refunded, keep);
    TotalOfSelection(f.claimed + f.refunded, f.sent, keep);
  }

  // ---- conservation ------------------------------------------------------------

  /** Transfers of asset `d` locked on chain `c`. */
  function Leaving(c: u64, d: Bytes32): Submission -> bool { (s: Submission) => s.chainIdFrom == c && s.debridgeId == d }

  /** Transfers of asset `d` to be paid on chain `c`. */
  function Arriving(c: u64, d: Bytes32): Submission -> bool { (s: Submission) => s.chainIdTo == c && s.debridgeId == d }

  /** Transfers to be paid to account `r` on chain `c`. */
  function PaidTo(c: u64, r: Bytes): Submission -> bool { (s: Submission) => s.chainIdTo == c && s.receiver == r }

  /** A vault holds its prefunding and locks, less what it paid out by claim or refund. */
  predicate VaultBalanced(m: Mesh, c: u64, d: Bytes32)
    requires c in m.gates
  {
    m.gates[c].gate.VaultBalance(d) + Total(m.claimed, Arriving(c, d)) + Total(m.refunded, Leaving(c, d))
    == Get(m.prefunded, (c, d)) + Total(m.sent, Leaving(c, d))
  }

  /** An account holds exactly what was claimed to it. */
  predicate AccountBalanced(m: Mesh, c: u64, r: Bytes)
    requires c in m.gates
  {
    Get(m.gates[c].gate.tokenAccounts, r) == Total(m.claimed, PaidTo(c, r))
  }

  ghost predicate Balanced(m: Mesh) {
    forall c :: c in m.gates ==> (forall d :: VaultBalanced(m, c, d)) && (forall r :: AccountBalanced(m, c, r))
  }

  lemma SendKeepsBalance(cfg: Config, m: Mesh, chain: u64, a: SendArgs)
    requires GatesAgree(cfg, m) && Balanced(m) && Callable(m, Send(chain, a))
    ensures Balanced(AfterSend(cfg, m, chain, a))
  {
    var m' := AfterSend(cfg, m, chain, a);
    var s := m.gates[chain].gate.Outgoing(a);
    assert m.gates[chain].gate.chainId == chain;
    forall c, d: Bytes32 | c in m'.gates ensures VaultBalanced(m', c, d) {
      assert VaultBalanced(m, c, d);
      TotalAppend(m.sent, s, Leaving(c, d));
    }
    forall c, r: Bytes | c in m'.gates ensures AccountBalanced(m', c, r) {
      assert AccountBalanced(m, c, r);
    }
  }

  /** A claim that pays moves its amount from the vault to the account; one that does not moves nothing. */
  lemma ClaimMoves(cfg: Config, m: Mesh, chain: u64, a: ClaimArgs)
    requires chain in m.gates
    ensures var (m', s) := (AfterClaim(cfg, m, chain, a), m.gates[chain].gate.Incoming(a));
            var (g, g') := (m.gates[chain].gate, m'.gates[chain].gate);
            && m'.gates.Keys == m.gates.Keys && m'.sent == m.sent && m'.refunded == m.refunded
            && m'.prefunded == m.prefunded
            && (forall c :: c in m.gates && c != chain ==> m'.gates[c] == m.gates[c])
            && if ClaimPays(cfg, g, a) then
                 && m'.claimed == m.claimed + [s]
                 && (forall d :: g'.VaultBalance(d) + (if d == s.debridgeId then s.amount else 0) == g.VaultBalance(d))
                 && (forall r :: Get(g'.tokenAccounts, r)
                                 == Get(g.tokenAccounts, r) + if r == s.receiver then s.amount else 0)
               else m'.claimed == m.claimed && g'.vault == g.vault && g'.tokenAccounts == g.tokenAccounts
  {
    var g := m.gates[chain].gate;
    var s := g.Incoming(a);
    var id, quorum := cfg.id(s), Verdict(cfg, Vote.Transfer, s, a.signatures);
    if ClaimPays(cfg, g, a) {
      PaidClaimMovesAmountOnce(g, a, id, quorum, a, quorum);
    }
  }

  lemma PaidKeepsVault(m: Mesh, m': Mesh, chain: u64, s: Submission, c: u64, d: Bytes32)
    requires c in m.gates && m'.gates.Keys == m.gates.Keys && VaultBalanced(m, c, d)
    requires m'.sent == m.sent && m'.refunded == m.refunded && m'.prefunded == m.prefunded
    requires m'.claimed == m.claimed + [s] && s.chainIdTo == chain
    requires m'.gates[c].gate.VaultBalance(d) + (if c == chain && d == s.debridgeId then s.amount else 0)
             == m.gates[c].gate.VaultBalance(d)
    ensures VaultBalanced(m', c, d)
  {
    TotalAppend(m.claimed, s, Arriving(c, d));
  }

  lemma PaidKeepsAccount(m: Mesh, m': Mesh, chain: u64, s: Submission, c: u64, r: Bytes)
    requires c in m.gates && m'.gates.Keys == m.gates.Keys && AccountBalanced(m, c, r)
    requires m'.claimed == m.claimed + [s] && s.chainIdTo == chain
    requires Get(m'.gates[c].gate.tokenAccounts, r)
             == Get(m.gates[c].gate.tokenAccounts, r) + if c == chain && r == s.receiver then s.amount else 0
    ensures AccountBalanced(m', c, r)
  {
    TotalAppend(m.claimed, s, PaidTo(c, r));
  }

  lemma ClaimKeepsBalance(cfg: Config, m: Mesh, chain: u64, a: ClaimArgs)
    requires GatesAgree(cfg, m) && Balanced(m) && chain in m.gates
    ensures Balanced(AfterClaim(cfg, m, chain, a))
  {
    var m' := AfterClaim(cfg, m, chain, a);
    var s := m.gates[chain].gate.Incoming(a);
    assert s.chainIdTo == chain;
    ClaimMoves(cfg, m, chain, a);
    if ClaimPays(cfg, m.gates[chain].gate, a) {
      forall c, d: Bytes32 | c in m'.gates ensures VaultBalanced(m', c, d) {
        assert VaultBalanced(m, c, d);
        PaidKeepsVault(m, m', chain, s, c, d);
      }
      forall c, r: Bytes | c in m'.gates ensures AccountBalanced(m', c, r) {
        assert AccountBalanced(m, c, r);
        PaidKeepsAccount(m, m', chain, s, c, r);
      }
    } else {
      QuietStepKeepsBalance(m, m');
    }
  }

  /** A refund takes the amount from the vault of its asset and lengthens the refund history; nothing else moves. */
  lemma RepaidMoves(m: Mesh, chain: u64, a: RefundArgs, id: Bytes32, t: Submission)
    requires chain in m.gates && m.gates[chain].gate.VaultBalance(a.debridgeId) >= a.amount
    requires id in m.gates[chain].sentBy
    ensures var m' := Repaid(m, chain, a, id, t);
            && m'.gates.Keys == m.gates.Keys && m'.sent == m.sent && m'.claimed == m.claimed
            && m'.prefunded == m.prefunded && m'.refunded == m.refunded + [t]
            && (forall c :: c in m.gates && c != chain ==> m'.gates[c] == m.gates[c])
            && m'.gates[chain].gate.tokenAccounts == m.gates[chain].gate.tokenAccounts
            && (forall d :: d != a.debridgeId ==>
                  m'.gates[chain].gate.VaultBalance(d) == m.gates[chain].gate.VaultBalance(d))
            && m'.gates[chain].gate.VaultBalance(a.debridgeId) + a.amount
               == m.gates[chain].gate.VaultBalance(a.debridgeId)
  {
  }

  lemma RepaidKeepsVault(m: Mesh, m': Mesh, chain: u64, t: Submission, c: u64, d: Bytes32)
    requires chain in m.gates && c in m.gates && m'.gates.Keys == m.gates.Keys && VaultBalanced(m, c, d)
    requires m'.sent == m.sent && m'.claimed == m.claimed && m'.prefunded == m.prefunded
    requires m'.refunded == m.refunded + [t] && t.chainIdFrom == chain
    requires m'.gates[c].gate.VaultBalance(d) + (if c == chain && d == t.debridgeId then t.amount else 0)
             == m.gates[c].gate.VaultBalance(d)
    ensures VaultBalanced(m', c, d)
  {
    TotalAppend(m.refunded, t, Leaving(c, d));
  }

  lemma RepaidKeepsBalance(cfg: Config, m: Mesh, chain: u64, a: RefundArgs, t: Submission)
    requires Balanced(m) && chain in m.gates && m.gates[chain].gate.VaultBalance(a.debridgeId) >= a.amount
    requires cfg.id(t) in m.gates[chain].sentBy
    requires t.chainIdFrom == chain && t.amount == a.amount && t.debridgeId == a.debridgeId
    ensures Balanced(Repaid(m, chain, a, cfg.id(t), t))
  {
    var m' := Repaid(m, chain, a, cfg.id(t), t);
    RepaidMoves(m, chain, a, cfg.id(t), t);
    forall c, d: Bytes32 | c in m'.gates ensures VaultBalanced(m', c, d) {
      assert VaultBalanced(m, c, d);
      RepaidKeepsVault(m, m', chain, t, c, d);
    }
    forall c, r: Bytes | c in m'.gates ensures AccountBalanced(m', c, r) {
      assert AccountBalanced(m, c, r);
    }
  }

  /** Steps that leave histories, vaults and accounts alone. */
  lemma QuietStepKeepsBalance(m: Mesh, m': Mesh)
    requires Balanced(m) && m'.gates.Keys == m.gates.Keys
    requires m'.sent == m.sent && m'.claimed == m.claimed && m'.refunded == m.refunded && m'.prefunded == m.prefunded
    requires forall c :: c in m.gates ==> m'.gates[c].gate.vault == m.gates[c].gate.vault
                                          && m'.gates[c].gate.tokenAccounts == m.gates[c].gate.tokenAccounts
    ensures Balanced(m')
  {
    forall c, d: Bytes32 | c in m'.gates ensures VaultBalanced(m', c, d) {
      assert VaultBalanced(m, c, d);
    }
    forall c, r: Bytes | c in m'.gates ensures AccountBalanced(m', c, r) {
      assert AccountBalanced(m, c, r);
    }
  }

  lemma RegisterKeepsBalance(m: Mesh, chain: u64, debridgeId: Bytes32, mint: Bytes, prefund: nat)
    requires Balanced(m) && chain in m.gates
    ensures Balanced(AfterRegister(m, chain, debridgeId, mint, prefund))
  {
    var m' := AfterRegister(m, chain, debridgeId, mint, prefund);
    forall c, d: Bytes32 | c in m'.gates ensures VaultBalanced(m', c, d) {
      assert VaultBalanced(m, c, d);
    }
    forall c, r: Bytes | c in m'.gates ensures AccountBalanced(m', c, r) {
      assert AccountBalanced(m, c, r);
    }
  }

  lemma CancelKeepsBalance(cfg: Config, m: Mesh, chain: u64, a: ClaimArgs)
    requires Balanced(m) && chain in m.gates
    ensures Balanced(AfterCancel(cfg, m, chain, a))
  {
    QuietStepKeepsBalance(m, AfterCancel(cfg, m, chain, a));
  }

  lemma SignKeepsBalance(cfg: Config, m: Mesh, who: Address, digest: Bytes32)
    requires Balanced(m)
    ensures Balanced(Apply(cfg, m, Sign(who, digest)))
  {
    QuietStepKeepsBalance(m, Apply(cfg, m, Sign(who, digest)));
  }

  lemma RefundKeepsBalance(cfg: Config, U: set<Submission>, m: Mesh, chain: u64, a: RefundArgs)
    requires Sound(cfg, U) && Inv(cfg, U, m) && Balanced(m) && Allowed(cfg, U, m, RefundTransfer(chain, a))
    ensures Balanced(AfterRefund(cfg, m, chain, a))
  {
    if RefundAccepted(cfg, m.gates[chain], a) {
      var t := RefundIsOfLockedTransfer(cfg, U, m, chain, a);
      RepaidKeepsBalance(cfg, m, chain, a, t);
    }
  }

  lemma ActionKeepsBalance(cfg: Config, U: set<Submission>, m: Mesh, action: Action)
    requires Sound(cfg, U) && Inv(cfg, U, m) && Balanced(m) && Allowed(cfg, U, m, action)
    ensures Balanced(Apply(cfg, m, action))
  {
    match action
    case Register(chain, debridgeId, mint, prefund) => RegisterKeepsBalance(m, chain, debridgeId, mint, prefund);
    case Send(chain, a) => SendKeepsBalance(cfg, m, chain, a);
    case Claim(chain, a) => ClaimKeepsBalance(cfg, m, chain, a);
    case CancelTransfer(chain, a) => CancelKeepsBalance(cfg, m, chain, a);
    case RefundTransfer(chain, a) => RefundKeepsBalance(cfg, U, m, chain, a);
    case Sign(who, digest) => SignKeepsBalance(cfg, m, who, digest);
  }

  lemma {:induction false} RunKeepsBalance(cfg: Config, U: set<Submission>, m: Mesh, run: seq<Action>)
    requires Sound(cfg, U) && Inv(cfg, U, m) && Balanced(m) && AllowedRun(cfg, U, m, run)
    ensures Balanced(Run(cfg, U, m, run))
    decreases |run|
  {
    if run != [] {
      ActionKeepsHistory(cfg, U, m, run[0]);
      ActionKeepsBalance(cfg, U, m, run[0]);
      RunKeepsBalance(cfg, U, Apply(cfg, m, run[0]), run[1..]);
    }
  }

  /** In every run, every vault and every receiving account of every gate balances. */
  lemma MeshConservesFunds(
    keccak: Hash, recovery: Verify.Recovery, validators: set<Address>, threshold: nat, domain: Bytes32,
    dishonest: set<Address>, P: set<Bytes>, U: set<Submission>, m: Mesh, run: seq<Action>)
    requires CollisionFree(keccak, P) && Covers(keccak, P, U) && |dishonest * validators| < threshold
    requires var cfg := Deployment(keccak, recovery, validators, threshold, domain, dishonest);
             Initial(cfg, m) && AllowedRun(cfg, U, m, run)
    ensures Balanced(Run(Deployment(keccak, recovery, validators, threshold, domain, dishonest), U, m, run))
  {
    var cfg := Deployment(keccak, recovery, validators, threshold, domain, dishonest);
    HashingIsSound(keccak, recovery, validators, threshold, domain, dishonest, P, U);
    InitialInv(cfg, U, m);
    RunKeepsBalance(cfg, U, m, run);
  }
}
