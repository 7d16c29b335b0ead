/**
 What the mesh does when it is asked properly: an accepted send is locked, and a
 quorum delivers, burns or returns it. The other half of `MeshSafety`.
 */
module MeshDelivery {
  import opened Words
  import opened SubmissionHash
  import opened Gate
  import opened Collections
  import opened Mesh
  import opened MeshSafety
  import Verify

  // ----- what is open -----

  /** A sent transfer is locked at its source until it is refunded. */
  predicate LockedUntilRefunded(cfg: Config, m: Mesh, s: Submission) {
    && s.chainIdFrom < U64_LIMIT && s.chainIdFrom in m.gates
    && (cfg.id(s) in m.gates[s.chainIdFrom].sentBy <==> s !in m.refunded)
  }

  /** A refund flag is that of a refunded transfer. */
  ghost predicate FlagIsRefund(cfg: Config, m: Mesh, c: u64, id: Bytes32) {
    exists t :: t in m.refunded && t.chainIdFrom == c && cfg.id(t) == id
  }

  /** An executed id is burned, or that of a paid claim. */
  ghost predicate ExecutedIsDecided(cfg: Config, m: Mesh, c: u64, id: Bytes32)
    requires c in m.gates
  {
    id in m.gates[c].cancelled || exists s :: s in m.claimed && s.chainIdTo == c && cfg.id(s) == id
  }

  ghost predicate OpenInv(cfg: Config, m: Mesh) {
    && (forall s :: s in m.sent ==> LockedUntilRefunded(cfg, m, s))
    && (forall c, id :: c in m.gates && id in m.gates[c].refunded ==> FlagIsRefund(cfg, m, c, id))
    && (forall c, id :: c in m.gates && m.gates[c].gate.rollsBack && id in m.gates[c].gate.executed
          ==> ExecutedIsDecided(cfg, m, c, id))
  }

  /** One id, one sent transfer. */
  lemma SentIdsDiffer(cfg: Config, U: set<Submission>, m: Mesh, s: Submission, t: Submission)
    requires Sound(cfg, U) && s in U && t in U && IsAccountWidth(|s.receiver|) && IsAccountWidth(|t.receiver|)
    requires cfg.id(s) == cfg.id(t)
    ensures s == t
  {
  }

  lemma SendKeepsOpen(cfg: Config, U: set<Submission>, m: Mesh, chain: u64, a: SendArgs)
    requires Sound(cfg, U) && Inv(cfg, U, m) && OpenInv(cfg, m) && Allowed(cfg, U, m, Send(chain, a)) && SendAccepted(a)
    ensures OpenInv(cfg, AfterSend(cfg, m, chain, a))
  {
    var m', s := AfterSend(cfg, m, chain, a), m.gates[chain].gate.Outgoing(a);
    assert Concerns(m, Send(chain, a)) == Some((Vote.Transfer, s, []));
    SendIsNew(cfg, U, m, chain, a);
    assert s !in m.refunded by {
      assert !RefundedOk(cfg, m, s);
    }
    forall t | t in m'.sent ensures LockedUntilRefunded(cfg, m', t) {
      if t != s {
        assert LockedUntilRefunded(cfg, m, t) && SentOk(U, m, t);
        if cfg.id(t) == cfg.id(s) {
          SentIdsDiffer(cfg, U, m, s, t);
        }
      }
    }
    forall c, id | c in m'.gates && id in m'.gates[c].refunded ensures FlagIsRefund(cfg, m', c, id) {
      assert FlagIsRefund(cfg, m, c, id);
    }
    forall c, id | c in m'.gates && m'.gates[c].gate.rollsBack && id in m'.gates[c].gate.executed
      ensures ExecutedIsDecided(cfg, m', c, id)
    {
      assert ExecutedIsDecided(cfg, m, c, id);
    }
  }

  /** Actions at one gate that leave the locks and the refunds alone. */
  lemma DestinationKeepsOpen(cfg: Config, m: Mesh, m': Mesh, chain: u64, added: set<Bytes32>)
    requires OpenInv(cfg, m) && chain in m.gates && m'.gates.Keys == m.gates.Keys
    requires m'.sent == m.sent && m'.refunded == m.refunded && forall s :: s in m.claimed ==> s in m'.claimed
    requires forall c :: c in m.gates ==>
               && m'.gates[c].sentBy == m.gates[c].sentBy && m'.gates[c].refunded == m.gates[c].refunded
               && m'.gates[c].gate.rollsBack == m.gates[c].gate.rollsBack
               && m.gates[c].cancelled <= m'.gates[c].cancelled
               && m'.gates[c].gate.executed <= m.gates[c].gate.executed + if c == chain then added else {}
    requires m.gates[chain].gate.rollsBack ==> forall id :: id in added ==> ExecutedIsDecided(cfg, m', chain, id)
    ensures OpenInv(cfg, m')
  {
    forall s | s in m'.sent ensures LockedUntilRefunded(cfg, m', s) {
      assert LockedUntilRefunded(cfg, m, s);
    }
    forall c, id | c in m'.gates && id in m'.gates[c].refunded ensures FlagIsRefund(cfg, m', c, id) {
      assert FlagIsRefund(cfg, m, c, id);
    }
    forall c, id | c in m'.gates && m'.gates[c].gate.rollsBack && id in m'.gates[c].gate.executed
      ensures ExecutedIsDecided(cfg, m', c, id)
    {
      if id in m.gates[c].gate.executed {
        assert ExecutedIsDecided(cfg, m, c, id);
      }
    }
  }

  /** What a claim leaves alone, and the id it may burn. */
  lemma ClaimTouches(cfg: Config, m: Mesh, chain: u64, a: ClaimArgs)
    requires chain in m.gates
    ensures var (m', g) := (AfterClaim(cfg, m, chain, a), m.gates[chain].gate);
            && m'.gates.Keys == m.gates.Keys && m'.sent == m.sent && m'.refunded == m.refunded
            && m'.claimed == (if ClaimPays(cfg, g, a) then m.claimed + [g.Incoming(a)] else m.claimed)
            && forall c :: c in m.gates ==>
                 && m'.gates[c].sentBy == m.gates[c].sentBy && m'.gates[c].refunded == m.gates[c].refunded
                 && m'.gates[c].gate.rollsBack == m.gates[c].gate.rollsBack
                 && m'.gates[c].cancelled == m.gates[c].cancelled
                 && m'.gates[c].gate.executed <= m.gates[c].gate.executed + if c == chain then {cfg.id(g.Incoming(a))} else {}
    ensures var g := m.gates[chain].gate;
            g.rollsBack && !ClaimPays(cfg, g, a) ==>
              AfterClaim(cfg, m, chain, a).gates[chain].gate.executed == g.executed
  {
  }

  lemma PaidIsDecided(cfg: Config, m: Mesh, m': Mesh, chain: u64, s: Submission)
    requires chain in m'.gates && m'.claimed == m.claimed + [s] && s.chainIdTo == chain
    ensures ExecutedIsDecided(cfg, m', chain, cfg.id(s))
  {
    assert s in m'.claimed;
  }

  lemma ClaimKeepsOpen(cfg: Config, m: Mesh, chain: u64, a: ClaimArgs)
    requires GatesAgree(cfg, m) && OpenInv(cfg, m) && chain in m.gates
    ensures OpenInv(cfg, AfterClaim(cfg, m, chain, a))
  {
    var m', s := AfterClaim(cfg, m, chain, a), m.gates[chain].gate.Incoming(a);
    ClaimTouches(cfg, m, chain, a);
    if ClaimPays(cfg, m.gates[chain].gate, a) {
      PaidIsDecided(cfg, m, m', chain, s);
      DestinationKeepsOpen(cfg, m, m', chain, {cfg.id(s)});
    } else {
      DestinationKeepsOpen(cfg, m, m', chain, if m.gates[chain].gate.rollsBack then {} else {cfg.id(s)});
    }
  }

  lemma CancelKeepsOpen(cfg: Config, m: Mesh, chain: u64, a: ClaimArgs)
    requires OpenInv(cfg, m) && chain in m.gates
    ensures OpenInv(cfg, AfterCancel(cfg, m, chain, a))
  {
    var m', id := AfterCancel(cfg, m, chain, a), cfg.id(m.gates[chain].gate.Incoming(a));
    DestinationKeepsOpen(cfg, m, m', chain, if CancelAccepted(cfg, m.gates[chain], a) then {id} else {});
  }

  /** A refund removes the lock of `t` and adds its flag. */
  lemma RefundedKeepsOpen(cfg: Config, U: set<Submission>, m: Mesh, m': Mesh, chain: u64, t: Submission)
    requires Sound(cfg, U) && Inv(cfg, U, m) && OpenInv(cfg, m) && chain in m.gates && m'.gates.Keys == m.gates.Keys
    requires t in m.sent && t.chainIdFrom == chain
    requires m'.sent == m.sent && m'.claimed == m.claimed && m'.refunded == m.refunded + [t]
    requires forall c :: c in m.gates ==>
               && m'.gates[c].sentBy.Keys == m.gates[c].sentBy.Keys - (if c == chain then {cfg.id(t)} else {})
               && m'.gates[c].refunded == m.gates[c].refunded + (if c == chain then {cfg.id(t)} else {})
               && m'.gates[c].cancelled == m.gates[c].cancelled
               && m'.gates[c].gate.executed == m.gates[c].gate.executed
               && m'.gates[c].gate.rollsBack == m.gates[c].gate.rollsBack
    ensures OpenInv(cfg, m')
  {
    forall s | s in m'.sent ensures LockedUntilRefunded(cfg, m', s) {
      LockOfRefunded(cfg, U, m, m', t, s);
    }
    forall c, id | c in m'.gates && id in m'.gates[c].refunded ensures FlagIsRefund(cfg, m', c, id) {
      FlagStays(cfg, m, m', chain, t, c, id);
    }
    forall c, id | c in m'.gates && m'.gates[c].gate.rollsBack && id in m'.gates[c].gate.executed
      ensures ExecutedIsDecided(cfg, m', c, id)
    {
      assert ExecutedIsDecided(cfg, m, c, id);
    }
  }

  lemma LockOfRefunded(cfg: Config, U: set<Submission>, m: Mesh, m': Mesh, t: Submission, s: Submission)
    requires Sound(cfg, U) && HistoryInv(cfg, U, m) && s in m.sent && t in m.sent && LockedUntilRefunded(cfg, m, s)
    requires m'.refunded == m.refunded + [t] && m'.gates.Keys == m.gates.Keys
    requires forall c :: c in m.gates ==>
               m'.gates[c].sentBy.Keys == m.gates[c].sentBy.Keys - (if c == t.chainIdFrom then {cfg.id(t)} else {})
    ensures LockedUntilRefunded(cfg, m', s)
  {
    assert SentOk(U, m, s) && SentOk(U, m, t);
    if s != t && cfg.id(s) == cfg.id(t) {
      SentIdsDiffer(cfg, U, m, s, t);
    }
  }

  lemma FlagStays(cfg: Config, m: Mesh, m': Mesh, chain: u64, t: Submission, c: u64, id: Bytes32)
    requires OpenInv(cfg, m) && c in m.gates && c in m'.gates && t.chainIdFrom == chain
    requires m'.refunded == m.refunded + [t] && id in m'.gates[c].refunded
    requires m'.gates[c].refunded == m.gates[c].refunded + (if c == chain then {cfg.id(t)} else {})
    ensures FlagIsRefund(cfg, m', c, id)
  {
    assert t in m'.refunded;
    if id in m.gates[c].refunded {
      assert FlagIsRefund(cfg, m, c, id);
      var u :| u in m.refunded && u.chainIdFrom == c && cfg.id(u) == id;
      assert u in m'.refunded;
    }
  }

  lemma RepaidTouches(m: Mesh, chain: u64, a: RefundArgs, id: Bytes32, t: Submission)
    requires chain in m.gates && id in m.gates[chain].sentBy && m.gates[chain].gate.VaultBalance(a.debridgeId) >= a.amount
    ensures var m' := Repaid(m, chain, a, id, t);
            && m'.gates.Keys == m.gates.Keys
            && m'.sent == m.sent && m'.claimed == m.claimed && m'.refunded == m.refunded + [t]
            && forall c :: c in m.gates ==>
                 && m'.gates[c].sentBy.Keys == m.gates[c].sentBy.Keys - (if c == chain then {id} else {})
                 && m'.gates[c].refunded == m.gates[c].refunded + (if c == chain then {id} else {})
                 && m'.gates[c].cancelled == m.gates[c].cancelled
                 && m'.gates[c].gate.executed == m.gates[c].gate.executed
                 && m'.gates[c].gate.rollsBack == m.gates[c].gate.rollsBack
  {
  }

  lemma RepaidKeepsOpen(cfg: Config, U: set<Submission>, m: Mesh, m': Mesh, chain: u64, a: RefundArgs, t: Submission)
    requires Sound(cfg, U) && Inv(cfg, U, m) && OpenInv(cfg, m) && chain in m.gates
    requires t in m.sent && t.chainIdFrom == chain && cfg.id(t) in m.gates[chain].sentBy
    requires m.gates[chain].gate.VaultBalance(a.debridgeId) >= a.amount && m' == Repaid(m, chain, a, cfg.id(t), t)
    ensures OpenInv(cfg, m')
  {
    RepaidTouches(m, chain, a, cfg.id(t), t);
    RefundedKeepsOpen(cfg, U, m, m', chain, t);
  }

  lemma RefundKeepsOpen(cfg: Config, U: set<Submission>, m: Mesh, chain: u64, a: RefundArgs)
    requires Sound(cfg, U) && Inv(cfg, U, m) && OpenInv(cfg, m) && Allowed(cfg, U, m, RefundTransfer(chain, a))
    ensures OpenInv(cfg, AfterRefund(cfg, m, chain, a))
  {
    if RefundAccepted(cfg, m.gates[chain], a) {
      var t := RefundIsOfLockedTransfer(cfg, U, m, chain, a);
      RepaidKeepsOpen(cfg, U, m, AfterRefund(cfg, m, chain, a), chain, a, t);
    }
  }

  lemma RegisterKeepsOpen(cfg: Config, m: Mesh, chain: u64, debridgeId: Bytes32, mint: Bytes, prefund: nat)
    requires OpenInv(cfg, m) && chain in m.gates
    ensures OpenInv(cfg, AfterRegister(m, chain, debridgeId, mint, prefund))
  {
    DestinationKeepsOpen(cfg, m, AfterRegister(m, chain, debridgeId, mint, prefund), chain, {});
  }

  lemma ActionKeepsOpen(cfg: Config, U: set<Submission>, m: Mesh, action: Action)
    requires Sound(cfg, U) && Inv(cfg, U, m) && OpenInv(cfg, m) && Allowed(cfg, U, m, action)
    ensures OpenInv(cfg, Apply(cfg, m, action))
  {
    match action
    case Register(chain, debridgeId, mint, prefund) => RegisterKeepsOpen(cfg, m, chain, debridgeId, mint, prefund);
    case Send(chain, a) => if SendAccepted(a) { SendKeepsOpen(cfg, U, m, chain, a); }
    case Claim(chain, a) => ClaimKeepsOpen(cfg, m, chain, a);
    case CancelTransfer(chain, a) => CancelKeepsOpen(cfg, m, chain, a);
    case RefundTransfer(chain, a) => RefundKeepsOpen(cfg, U, m, chain, a);
    case Sign(who, digest) => SignKeepsOpen(cfg, m, who, digest);
  }

  lemma SignKeepsOpen(cfg: Config, m: Mesh, who: Address, digest: Bytes32)
    requires OpenInv(cfg, m)
    ensures OpenInv(cfg, Apply(cfg, m, Sign(who, digest)))
  {
    var m' := Apply(cfg, m, Sign(who, digest));
    forall s | s in m'.sent ensures LockedUntilRefunded(cfg, m', s) {
      assert LockedUntilRefunded(cfg, m, s);
    }
    forall c, id | c in m'.gates && id in m'.gates[c].refunded ensures FlagIsRefund(cfg, m', c, id) {
      assert FlagIsRefund(cfg, m, c, id);
    }
    forall c, id | c in m'.gates && m'.gates[c].gate.rollsBack && id in m'.gates[c].gate.executed
      ensures ExecutedIsDecided(cfg, m', c, id)
    {
      assert ExecutedIsDecided(cfg, m, c, id);
    }
  }

  lemma {:induction false} RunKeepsOpen(cfg: Config, U: set<Submission>, m: Mesh, run: seq<Action>)
    requires Sound(cfg, U) && Inv(cfg, U, m) && OpenInv(cfg, m) && AllowedRun(cfg, U, m, run)
    ensures OpenInv(cfg, Run(cfg, U, m, run)) && Inv(cfg, U, Run(cfg, U, m, run))
    decreases |run|
  {
    if run != [] {
      ActionKeepsHistory(cfg, U, m, run[0]);
      ActionKeepsOpen(cfg, U, m, run[0]);
      RunKeepsOpen(cfg, U, Apply(cfg, m, run[0]), run[1..]);
    }
  }

  // ----- what each call then does -----

  /** The arguments that name `s` at its destination, and at its source. */
  predicate ClaimNames(m: Mesh, a: ClaimArgs, s: Submission) {
    s.chainIdTo < U64_LIMIT && s.chainIdTo in m.gates && m.gates[s.chainIdTo].gate.Incoming(a) == s
  }

  predicate RefundNames(m: Mesh, a: RefundArgs, s: Submission) {
    s.chainIdFrom < U64_LIMIT && s.chainIdFrom in m.gates && Returning(m.gates[s.chainIdFrom].gate, a) == s
  }

  /** The gate has the asset, enough of it, and pays accounts of the receiver's width. */
  predicate CanPay(g: GateState, s: Submission) {
    s.debridgeId in g.tokenOf && g.VaultBalance(s.debridgeId) >= s.amount && |s.receiver| == g.AccountWidth()
  }

  /**
   A quorum on a transfer that is neither claimed nor burned, at a gate that can pay
   and rolls refused calls back, pays it: the receiver gets the amount, the vault
   loses it, and nobody else is touched.
   */
  lemma QuorumClaimPays(cfg: Config, m: Mesh, a: ClaimArgs, s: Submission)
    requires GatesAgree(cfg, m) && OpenInv(cfg, m) && ClaimNames(m, a, s)
    requires m.gates[s.chainIdTo].gate.rollsBack && CanPay(m.gates[s.chainIdTo].gate, s)
    requires cfg.id(s) !in m.gates[s.chainIdTo].cancelled
    requires forall t :: t in m.claimed ==> cfg.id(t) != cfg.id(s)
    requires Verdict(cfg, Vote.Transfer, s, a.signatures).Ok?
    ensures var m' := AfterClaim(cfg, m, s.chainIdTo, a);
            var (g, g') := (m.gates[s.chainIdTo].gate, m'.gates[s.chainIdTo].gate);
            && m'.claimed == m.claimed + [s]
            && Get(g'.tokenAccounts, s.receiver) == Get(g.tokenAccounts, s.receiver) + s.amount
            && g'.VaultBalance(s.debridgeId) == g.VaultBalance(s.debridgeId) - s.amount
  {
    var chain := s.chainIdTo;
    assert !ExecutedIsDecided(cfg, m, chain, cfg.id(s));
  }

  /** A cancel quorum on such a transfer burns it, and its claim is then refused for good. */
  lemma QuorumCancelBurns(cfg: Config, m: Mesh, a: ClaimArgs, s: Submission, retry: ClaimArgs)
    requires GatesAgree(cfg, m) && OpenInv(cfg, m) && ClaimNames(m, a, s) && ClaimNames(m, retry, s)
    requires m.gates[s.chainIdTo].gate.rollsBack
    requires cfg.id(s) !in m.gates[s.chainIdTo].cancelled
    requires forall t :: t in m.claimed ==> cfg.id(t) != cfg.id(s)
    requires Verdict(cfg, Vote.Cancel, s, a.signatures).Ok?
    ensures var m' := AfterCancel(cfg, m, s.chainIdTo, a);
            BurnedAtDestination(cfg, m', s) && !ClaimPays(cfg, m'.gates[s.chainIdTo].gate, retry)
  {
    var chain := s.chainIdTo;
    assert !ExecutedIsDecided(cfg, m, chain, cfg.id(s));
  }

  /** A refund quorum on a sent transfer that was not refunded, with enough in the vault, repays its recorded sender. */
  lemma QuorumRefundRepays(cfg: Config, U: set<Submission>, m: Mesh, a: RefundArgs, s: Submission)
    requires Sound(cfg, U) && Inv(cfg, U, m) && OpenInv(cfg, m) && RefundNames(m, a, s)
    requires s in m.sent && s !in m.refunded
    requires Verdict(cfg, Vote.Refund, s, a.signatures).Ok?
    requires m.gates[s.chainIdFrom].gate.VaultBalance(s.debridgeId) >= s.amount
    ensures var m' := AfterRefund(cfg, m, s.chainIdFrom, a);
            && m'.refunded == m.refunded + [s]
            && s in m'.repaid && s in m.sender && m'.repaid[s] == m.sender[s]
            && m'.gates[s.chainIdFrom].gate.VaultBalance(s.debridgeId)
               == m.gates[s.chainIdFrom].gate.VaultBalance(s.debridgeId) - s.amount
  {
    var chain, id := s.chainIdFrom, cfg.id(s);
    assert LockedUntilRefunded(cfg, m, s);
    NotFlagged(cfg, U, m, s);
    LockIsUnderItsId(cfg, U, m, s);
  }

  /** A sent transfer that was not refunded carries no refund flag. */
  lemma NotFlagged(cfg: Config, U: set<Submission>, m: Mesh, s: Submission)
    requires Sound(cfg, U) && Inv(cfg, U, m) && OpenInv(cfg, m) && s in m.sent && s !in m.refunded
    requires s.chainIdFrom < U64_LIMIT && s.chainIdFrom in m.gates
    ensures cfg.id(s) !in m.gates[s.chainIdFrom].refunded
  {
    assert SentOk(U, m, s);
    forall t | t in m.refunded ensures cfg.id(t) != cfg.id(s) {
      assert RefundedOk(cfg, m, t) && SentOk(U, m, t);
      if cfg.id(t) == cfg.id(s) {
        SentIdsDiffer(cfg, U, m, s, t);
      }
    }
    assert !FlagIsRefund(cfg, m, s.chainIdFrom, cfg.id(s));
  }

  /** The history finds `s` under its id, and its gate remembers its sender. */
  lemma LockIsUnderItsId(cfg: Config, U: set<Submission>, m: Mesh, s: Submission)
    requires Sound(cfg, U) && Inv(cfg, U, m) && s in m.sent && s.chainIdFrom < U64_LIMIT && s.chainIdFrom in m.gates
    requires cfg.id(s) in m.gates[s.chainIdFrom].sentBy
    ensures SentUnder(cfg, m, cfg.id(s)) == s && s in m.sender
    ensures m.gates[s.chainIdFrom].sentBy[cfg.id(s)] == m.sender[s]
  {
    var chain, id := s.chainIdFrom, cfg.id(s);
    var l := SentUnder(cfg, m, id);
    assert SentOk(U, m, l) && SentOk(U, m, s);
    SentIdsDiffer(cfg, U, m, s, l);
    assert LockedOk(cfg, m, chain, id, m.gates[chain].sentBy[id]);
    var u :| LockedIs(cfg, m, chain, id, m.gates[chain].sentBy[id], u);
    assert SentOk(U, m, u);
    SentIdsDiffer(cfg, U, m, s, u);
  }

  /** An accepted send is the next one of its route, locks its amount and remembers its sender. */
  lemma AcceptedSendLocks(cfg: Config, m: Mesh, chain: u64, a: SendArgs)
    requires GatesAgree(cfg, m) && Callable(m, Send(chain, a)) && SendRefusal(a).None?
    ensures var m' := AfterSend(cfg, m, chain, a);
            var (g, g') := (m.gates[chain].gate, m'.gates[chain].gate);
            var s := Submission(cfg.domain, a.debridgeId, a.bridgeDecimals, a.amount, chain, a.chainIdTo,
                                g.NextNonce(a.chainIdTo), a.receiver, a.auto);
            && m'.sent == m.sent + [s] && s in m'.sender && m'.sender[s] == a.nativeSender
            && cfg.id(s) in m'.gates[chain].sentBy && m'.gates[chain].sentBy[cfg.id(s)] == a.nativeSender
            && g'.NextNonce(a.chainIdTo) == g.NextNonce(a.chainIdTo) + 1
            && g'.VaultBalance(a.debridgeId) == g.VaultBalance(a.debridgeId) + a.amount
  {
    assert SharesConfig(cfg, m.gates[chain].gate);
  }

  // ----- over every run -----

  /**
   In every run of the deployment: each sent transfer stays locked at its source until
   it is refunded; a refund quorum then returns it to its recorded sender; and at a gate
   that rolls back and can pay, a quorum delivers it unless it was claimed or burned.
   */
  lemma RunDelivers(
    keccak: Hash, recovery: Verify.Recovery, validators: set<Address>, threshold: nat, domain: Bytes32,
    dishonest: set<Address>, P: set<Bytes>, U: set<Submission>, m: Mesh, run: seq<Action>, s: Submission,
    claim: ClaimArgs, refund: RefundArgs)
    requires CollisionFree(keccak, P) && Covers(keccak, P, U) && |dishonest * validators| < threshold
    requires var cfg := Deployment(keccak, recovery, validators, threshold, domain, dishonest);
             Initial(cfg, m) && AllowedRun(cfg, U, m, run)
    requires s in Run(Deployment(keccak, recovery, validators, threshold, domain, dishonest), U, m, run).sent
    ensures var cfg := Deployment(keccak, recovery, validators, threshold, domain, dishonest);
            var f := Run(cfg, U, m, run);
            && LockedUntilRefunded(cfg, f, s)
            && (RefundNames(f, refund, s) && s !in f.refunded && Verdict(cfg, Vote.Refund, s, refund.signatures).Ok?
                && f.gates[s.chainIdFrom].gate.VaultBalance(s.debridgeId) >= s.amount ==>
                  && AfterRefund(cfg, f, s.chainIdFrom, refund).refunded == f.refunded + [s]
                  && s in f.sender && s in AfterRefund(cfg, f, s.chainIdFrom, refund).repaid
                  && AfterRefund(cfg, f, s.chainIdFrom, refund).repaid[s] == f.sender[s])
            && (ClaimNames(f, claim, s) && Verdict(cfg, Vote.Transfer, s, claim.signatures).Ok?
                && f.gates[s.chainIdTo].gate.rollsBack && CanPay(f.gates[s.chainIdTo].gate, s)
                && s !in f.claimed && cfg.id(s) !in f.gates[s.chainIdTo].cancelled ==>
                  AfterClaim(cfg, f, s.chainIdTo, claim).claimed == f.claimed + [s])
  {
    var cfg := Deployment(keccak, recovery, validators, threshold, domain, dishonest);
    HashingIsSound(keccak, recovery, validators, threshold, domain, dishonest, P, U);
    InitialInv(cfg, U, m);
    RunKeepsOpen(cfg, U, m, run);
    Delivers(cfg, U, Run(cfg, U, m, run), s, claim, refund);
  }

  lemma Delivers(cfg: Config, U: set<Submission>, f: Mesh, s: Submission, claim: ClaimArgs, refund: RefundArgs)
    requires Sound(cfg, U) && Inv(cfg, U, f) && OpenInv(cfg, f) && s in f.sent
    ensures LockedUntilRefunded(cfg, f, s)
    ensures RefundNames(f, refund, s) && s !in f.refunded && Verdict(cfg, Vote.Refund, s, refund.signatures).Ok?
            && f.gates[s.chainIdFrom].gate.VaultBalance(s.debridgeId) >= s.amount ==>
              && AfterRefund(cfg, f, s.chainIdFrom, refund).refunded == f.refunded + [s]
              && s in f.sender && s in AfterRefund(cfg, f, s.chainIdFrom, refund).repaid
              && AfterRefund(cfg, f, s.chainIdFrom, refund).repaid[s] == f.sender[s]
    ensures ClaimNames(f, claim, s) && Verdict(cfg, Vote.Transfer, s, claim.signatures).Ok?
            && f.gates[s.chainIdTo].gate.rollsBack && CanPay(f.gates[s.chainIdTo].gate, s)
            && s !in f.claimed && cfg.id(s) !in f.gates[s.chainIdTo].cancelled ==>
              AfterClaim(cfg, f, s.chainIdTo, claim).claimed == f.claimed + [s]
  {
    if RefundNames(f, refund, s) && s !in f.refunded && Verdict(cfg, Vote.Refund, s, refund.signatures).Ok?
       && f.gates[s.chainIdFrom].gate.VaultBalance(s.debridgeId) >= s.amount {
      QuorumRefundRepays(cfg, U, f, refund, s);
    }
    if ClaimNames(f, claim, s) && Verdict(cfg, Vote.Transfer, s, claim.signatures).Ok?
       && f.gates[s.chainIdTo].gate.rollsBack && CanPay(f.gates[s.chainIdTo].gate, s)
       && s !in f.claimed && cfg.id(s) !in f.gates[s.chainIdTo].cancelled {
      forall t | t in f.claimed ensures cfg.id(t) != cfg.id(s) {
        assert ClaimedOk(cfg, f, t) && SentOk(U, f, t) && SentOk(U, f, s);
        if cfg.id(t) == cfg.id(s) {
          SentIdsDiffer(cfg, U, f, s, t);
        }
      }
      QuorumClaimPays(cfg, f, claim, s);
    }
  }
}
