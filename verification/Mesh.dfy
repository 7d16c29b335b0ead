/**
 A mesh of gates on different chains, the votes of their common validator set,
 and the two-phase refund.

 Each gate, of either virtual machine and whether or not it rolls a refused call
 back, is a `GateState` plus the flags of the refund path (`cancelled`, `sentBy`,
 `refunded`); the send, claim and asset steps are exactly those of module `Gate`. A
 run is any sequence of actions of any callers. What an action may rely on -
 signatures are not forged, honest validators follow their voting rules - is `Allowed`.
 */
module Mesh {
  import opened Words
  import opened SubmissionHash
  import opened Gate
  import opened Collections
  import Verify

  /**
   One deployment. `id`, `digest` and `verdict` are the hash and quorum
   computations, see `MeshSafety.Deployment`.
   */
  datatype Config = Config(
    recovery: Verify.Recovery,
    validators: set<Address>, threshold: nat, domain: Bytes32, dishonest: set<Address>,
    id: Submission -> Bytes32,
    digest: (Vote, Submission) -> Bytes32,
    verdict: (Bytes32, seq<Bytes>) -> Verify.Result<nat>)

  datatype MeshGate = MeshGate(gate: GateState, cancelled: set<Bytes32>, sentBy: map<Bytes32, Bytes>, refunded: set<Bytes32>)

  /** Gates by chain id, the digests signed so far, and the history of the mesh. */
  datatype Mesh = Mesh(
    gates: map<u64, MeshGate>,
    signed: set<(Address, Bytes32)>,
    sent: seq<Submission>, claimed: seq<Submission>, refunded: seq<Submission>,
    sender: map<Submission, Bytes>, repaid: map<Submission, Bytes>,
    prefunded: map<(u64, Bytes32), nat>)

  datatype Action =
    | Register(chain: u64, debridgeId: Bytes32, mint: Bytes, prefund: nat)
    | Send(chain: u64, send: SendArgs)
    | Claim(chain: u64, claim: ClaimArgs)
    | CancelTransfer(chain: u64, claim: ClaimArgs)
    | RefundTransfer(chain: u64, refund: RefundArgs)
    | Sign(who: Address, digest: Bytes32)

  datatype RefundArgs = RefundArgs(
    debridgeId: Bytes32, amount: u256, bridgeDecimals: byte, chainIdTo: u64, nonce: u64,
    receiver: Bytes, auto: Option<AutoParams>, signatures: seq<Bytes>)

  /** The transfer a refund call on gate `g` names. */
  function Returning(g: GateState, a: RefundArgs): Submission {
    Submission(g.bridgeDomain, a.debridgeId, a.bridgeDecimals, a.amount, g.chainId, a.chainIdTo, a.nonce, a.receiver, a.auto)
  }

  // ---- what each action does -----------------------------------------------

  predicate SendAccepted(a: SendArgs) {
    SendRefusal(a).None?
  }

  function AfterSend(cfg: Config, m: Mesh, chain: u64, a: SendArgs): Mesh
    requires chain in m.gates && m.gates[chain].gate.NextNonce(a.chainIdTo) < U64_LIMIT
  {
    var mg := m.gates[chain];
    var s := mg.gate.Outgoing(a);
    if !SendAccepted(a) then m
    else m.(gates := m.gates[chain := mg.(gate := SendEffect(mg.gate, a), sentBy := mg.sentBy[cfg.id(s) := a.nativeSender])],
            sent := m.sent + [s], sender := m.sender[s := a.nativeSender])
  }

  function Verdict(cfg: Config, vote: Vote, s: Submission, signatures: seq<Bytes>): Verify.Result<nat> {
    cfg.verdict(cfg.digest(vote, s), signatures)
  }

  predicate ClaimPays(cfg: Config, g: GateState, a: ClaimArgs) {
    var s := g.Incoming(a);
    ClaimRefusal(g, a, cfg.id(s), Verdict(cfg, Vote.Transfer, s, a.signatures)).None?
  }

  function AfterClaim(cfg: Config, m: Mesh, chain: u64, a: ClaimArgs): Mesh
    requires chain in m.gates
  {
    var mg := m.gates[chain];
    var s := mg.gate.Incoming(a);
    m.(gates := m.gates[chain :=
         mg.(gate := ClaimEffect(mg.gate, a, cfg.id(s), Verdict(cfg, Vote.Transfer, s, a.signatures)))],
       claimed := if ClaimPays(cfg, mg.gate, a) then m.claimed + [s] else m.claimed)
  }

  /** Destination side: burns the id, unless it was executed or the cancel quorum is missing. */
  predicate CancelAccepted(cfg: Config, mg: MeshGate, a: ClaimArgs) {
    var s := mg.gate.Incoming(a);
    cfg.id(s) !in mg.gate.executed && Verdict(cfg, Vote.Cancel, s, a.signatures).Ok?
  }

  function AfterCancel(cfg: Config, m: Mesh, chain: u64, a: ClaimArgs): Mesh
    requires chain in m.gates
  {
    var mg := m.gates[chain];
    var id := cfg.id(mg.gate.Incoming(a));
    if !CancelAccepted(cfg, mg, a) then m
    else m.(gates := m.gates[chain :=
              mg.(gate := mg.gate.(executed := mg.gate.executed + {id}), cancelled := mg.cancelled + {id})])
  }

  /** Source side: pays the recorded sender once, on a refund quorum. It does not look at the destination. */
  predicate RefundAccepted(cfg: Config, mg: MeshGate, a: RefundArgs) {
    var s := Returning(mg.gate, a);
    && cfg.id(s) in mg.sentBy && cfg.id(s) !in mg.refunded
    && Verdict(cfg, Vote.Refund, s, a.signatures).Ok?
    && mg.gate.VaultBalance(a.debridgeId) >= a.amount
  }

  /** The sent transfer the history has under `id`. */
  ghost function SentUnder(cfg: Config, m: Mesh, id: Bytes32): Submission
    requires exists s :: s in m.sent && cfg.id(s) == id
  {
    var s :| s in m.sent && cfg.id(s) == id; s
  }

  /** The sender of `t`, locked under `id`, is repaid and the lock cleared. */
  function Repaid(m: Mesh, chain: u64, a: RefundArgs, id: Bytes32, t: Submission): Mesh
    requires chain in m.gates && id in m.gates[chain].sentBy && m.gates[chain].gate.VaultBalance(a.debridgeId) >= a.amount
  {
    var mg := m.gates[chain];
    var vault := mg.gate.vault[a.debridgeId := mg.gate.VaultBalance(a.debridgeId) - a.amount];
    m.(gates := m.gates[chain :=
         mg.(gate := mg.gate.(vault := vault), sentBy := mg.sentBy - {id}, refunded := mg.refunded + {id})],
       refunded := m.refunded + [t], repaid := m.repaid[t := mg.sentBy[id]])
  }

  ghost function AfterRefund(cfg: Config, m: Mesh, chain: u64, a: RefundArgs): Mesh
    requires chain in m.gates
  {
    var id := cfg.id(Returning(m.gates[chain].gate, a));
    if RefundAccepted(cfg, m.gates[chain], a) && exists t :: t in m.sent && cfg.id(t) == id then
      Repaid(m, chain, a, id, SentUnder(cfg, m, id))
    else m
  }

  function AfterRegister(m: Mesh, chain: u64, debridgeId: Bytes32, mint: Bytes, prefund: nat): Mesh
    requires chain in m.gates
  {
    var mg := m.gates[chain];
    m.(gates := m.gates[chain := mg.(gate := RegisterEffect(mg.gate, debridgeId, mint, prefund))],
       prefunded := Credit(m.prefunded, (chain, debridgeId), prefund))
  }

  ghost function Apply(cfg: Config, m: Mesh, action: Action): Mesh
    requires Callable(m, action)
  {
    match action
    case Register(chain, debridgeId, mint, prefund) => AfterRegister(m, chain, debridgeId, mint, prefund)
    case Send(chain, a) => AfterSend(cfg, m, chain, a)
    case Claim(chain, a) => AfterClaim(cfg, m, chain, a)
    case CancelTransfer(chain, a) => AfterCancel(cfg, m, chain, a)
    case RefundTransfer(chain, a) => AfterRefund(cfg, m, chain, a)
    case Sign(who, digest) => m.(signed := m.signed + {(who, digest)})
  }

  // ---- what the environment may do -----------------------------------------

  predicate Callable(m: Mesh, action: Action) {
    match action
    case Register(chain, _, _, _) => chain in m.gates
    case Send(chain, a) =>
      && chain in m.gates && m.gates[chain].gate.Carries(a.amount)
      && m.gates[chain].gate.NextNonce(a.chainIdTo) < U64_LIMIT
    case Claim(chain, a) => chain in m.gates && m.gates[chain].gate.Carries(a.amount)
    case CancelTransfer(chain, a) => chain in m.gates && m.gates[chain].gate.Carries(a.amount)
    case RefundTransfer(chain, a) => chain in m.gates && m.gates[chain].gate.Carries(a.amount)
    case Sign(_, _) => true
  }

  predicate BurnedAtDestination(cfg: Config, m: Mesh, s: Submission) {
    s.chainIdTo < U64_LIMIT && s.chainIdTo in m.gates && cfg.id(s) in m.gates[s.chainIdTo].cancelled
  }

  predicate VoteFollowsRules(cfg: Config, m: Mesh, digest: Bytes32, vote: Vote, s: Submission) {
    s in m.sent && digest == cfg.digest(vote, s) && (vote.Refund? ==> BurnedAtDestination(cfg, m, s))
  }

  /**
   What an honest validator is willing to sign: a vote on a `Sent` it saw on the
   source gate, and a refund vote only once it saw the destination burned. Its
   cancel vote may rest on a stale read of the destination, so nothing is assumed
   about that one beyond the `Sent`.
   */
  ghost predicate HonestVote(cfg: Config, m: Mesh, digest: Bytes32) {
    exists vote: Vote, s :: VoteFollowsRules(cfg, m, digest, vote, s)
  }

  /** A validator outside the dishonest set; nothing is assumed of any other key. */
  predicate Honest(cfg: Config, who: Address) {
    who in cfg.validators && who !in cfg.dishonest
  }

  /** A signature that recovers to an honest validator was made by it. */
  ghost predicate Unforged(cfg: Config, m: Mesh, digest: Bytes32, signatures: seq<Bytes>) {
    forall sig, who | sig in signatures && Honest(cfg, who) ::
      Verify.RecoverEvmAddress(cfg.recovery, digest, sig) == Verify.Ok(who) ==> (who, digest) in m.signed
  }

  /** The submission and kind of vote an action hashes, if it hashes any. */
  function Concerns(m: Mesh, action: Action): Option<(Vote, Submission, seq<Bytes>)>
    requires Callable(m, action)
  {
    match action
    case Register(_, _, _, _) => None
    case Send(chain, a) => Some((Vote.Transfer, m.gates[chain].gate.Outgoing(a), []))
    case Claim(chain, a) => Some((Vote.Transfer, m.gates[chain].gate.Incoming(a), a.signatures))
    case CancelTransfer(chain, a) => Some((Vote.Cancel, m.gates[chain].gate.Incoming(a), a.signatures))
    case RefundTransfer(chain, a) => Some((Vote.Refund, Returning(m.gates[chain].gate, a), a.signatures))
    case Sign(_, _) => None
  }

  /** `U` holds every submission an action hashes, signatures are not forged, and honest signers follow their rules. */
  ghost predicate Allowed(cfg: Config, U: set<Submission>, m: Mesh, action: Action) {
    && Callable(m, action)
    && (Concerns(m, action).Some? ==>
          var (vote, s, signatures) := Concerns(m, action).value;
          s in U && Unforged(cfg, m, cfg.digest(vote, s), signatures))
    && (action.Sign? && Honest(cfg, action.who) ==> HonestVote(cfg, m, action.digest))
  }

  /** Whoever is not an honest validator may sign anything, and calls may carry any signatures that recover to such keys. */
  lemma OutsidersAreUnconstrained(cfg: Config, U: set<Submission>, m: Mesh, action: Action)
    requires Callable(m, action)
    requires Concerns(m, action).Some? ==>
               var (vote, s, signatures) := Concerns(m, action).value;
               s in U && forall sig, who :: sig in signatures && Honest(cfg, who) ==>
                           Verify.RecoverEvmAddress(cfg.recovery, cfg.digest(vote, s), sig) != Verify.Ok(who)
    requires action.Sign? ==> !Honest(cfg, action.who)
    ensures Allowed(cfg, U, m, action)
  {
  }

  predicate Initial(cfg: Config, m: Mesh) {
    && (forall c :: c in m.gates ==> m.gates[c] == FreshGate(cfg, c, m.gates[c].gate.vm, m.gates[c].gate.rollsBack))
    && m.signed == {} && m.sent == [] && m.claimed == [] && m.refunded == []
    && m.sender == map[] && m.repaid == map[] && m.prefunded == map[]
  }

  /** Nothing is assumed of which chains have which machine. */
  function FreshGate(cfg: Config, chain: u64, vm: Vm, rollsBack: bool): MeshGate {
    MeshGate(GateState(vm, rollsBack, chain, cfg.domain, cfg.validators, cfg.threshold, map[], {}, map[], map[], map[]),
             {}, map[], {})
  }

  /**
   What the hashing and the quorum check guarantee on the submissions `U` of a run;
   `MeshSafety.HashingIsSound` derives it from collision freedom.
   */
  ghost predicate Sound(cfg: Config, U: set<Submission>) {
    && (forall v: Vote, s, w: Vote, t :: s in U && t in U && cfg.digest(v, s) == cfg.digest(w, t) ==>
          v == w && cfg.id(s) == cfg.id(t))
    && (forall s, t | s in U && t in U && |s.receiver| <= MAX_ACCOUNT_BYTES && |t.receiver| <= MAX_ACCOUNT_BYTES ::
          cfg.id(s) == cfg.id(t) ==> s == t)
    && (forall s, t :: s in U && t in U && cfg.id(s) == cfg.id(t) ==> s.debridgeId == t.debridgeId && s.amount == t.amount)
    && (forall digest, signatures :: cfg.verdict(digest, signatures).Ok? ==> HasHonestSigner(cfg, digest, signatures))
  }

  ghost predicate HasHonestSigner(cfg: Config, digest: Bytes32, signatures: seq<Bytes>) {
    exists sig, who :: sig in signatures && Honest(cfg, who)
      && Verify.RecoverEvmAddress(cfg.recovery, digest, sig) == Verify.Ok(who)
  }

  // ---- the invariant ---------------------------------------------------------

  predicate SharesConfig(cfg: Config, g: GateState) {
    g.bridgeDomain == cfg.domain && g.validators == cfg.validators && g.threshold == cfg.threshold
  }

  predicate GatesAgree(cfg: Config, m: Mesh) {
    forall c :: c in m.gates ==>
      && m.gates[c].gate.chainId == c && SharesConfig(cfg, m.gates[c].gate)
      && m.gates[c].cancelled <= m.gates[c].gate.executed
  }

  /** A sent transfer is one of its source gate's own, with an already used nonce. */
  predicate SentOk(U: set<Submission>, m: Mesh, s: Submission) {
    && IsAccountWidth(|s.receiver|) && s in U && s in m.sender
    && s.chainIdFrom < U64_LIMIT && s.chainIdTo < U64_LIMIT
    && s.chainIdFrom in m.gates && s.nonce < m.gates[s.chainIdFrom].gate.NextNonce(s.chainIdTo)
  }

  /** A paid claim was sent, is executed at its destination, and was not burned there. */
  predicate ClaimedOk(cfg: Config, m: Mesh, s: Submission) {
    && s in m.sent && s.chainIdTo < U64_LIMIT && s.chainIdTo in m.gates
    && cfg.id(s) in m.gates[s.chainIdTo].gate.executed
    && cfg.id(s) !in m.gates[s.chainIdTo].cancelled
  }

  /** A refunded transfer was sent, is flagged on its source, was burned first, and went back to its sender. */
  predicate RefundedOk(cfg: Config, m: Mesh, s: Submission) {
    && s in m.sent && s.chainIdFrom < U64_LIMIT && s.chainIdFrom in m.gates
    && cfg.id(s) in m.gates[s.chainIdFrom].refunded
    && BurnedAtDestination(cfg, m, s)
    && s in m.sender && s in m.repaid && m.repaid[s] == m.sender[s]
  }

  /** What a gate remembers as locked is a transfer it sent, with that transfer's sender. */
  predicate LockedIs(cfg: Config, m: Mesh, c: u64, id: Bytes32, sender: Bytes, s: Submission) {
    s in m.sent && s.chainIdFrom == c && cfg.id(s) == id && s in m.sender && m.sender[s] == sender
  }

  ghost predicate LockedOk(cfg: Config, m: Mesh, c: u64, id: Bytes32, sender: Bytes) {
    exists s :: LockedIs(cfg, m, c, id, sender, s)
  }

  ghost predicate LockedInv(cfg: Config, m: Mesh) {
    forall c, id :: c in m.gates && id in m.gates[c].sentBy ==> LockedOk(cfg, m, c, id, m.gates[c].sentBy[id])
  }

  ghost predicate HistoryInv(cfg: Config, U: set<Submission>, m: Mesh) {
    && (forall s :: s in m.sent ==> SentOk(U, m, s))
    && (forall s :: s in m.claimed ==> ClaimedOk(cfg, m, s))
    && (forall s :: s in m.refunded ==> RefundedOk(cfg, m, s))
    && (forall p :: p in m.signed && Honest(cfg, p.0) ==> HonestVote(cfg, m, p.1))
  }

  ghost predicate Inv(cfg: Config, U: set<Submission>, m: Mesh) {
    && GatesAgree(cfg, m) && LockedInv(cfg, m) && HistoryInv(cfg, U, m)
    && NoDup(m.sent) && NoDup(m.claimed) && NoDup(m.refunded)
  }

  /** An honest validator has signed this vote on `s`. */
  ghost predicate Backed(cfg: Config, m: Mesh, vote: Vote, s: Submission) {
    exists who :: Honest(cfg, who) && (who, cfg.digest(vote, s)) in m.signed
  }

  ghost predicate BurnBacked(cfg: Config, m: Mesh, id: Bytes32) {
    exists s :: s in m.sent && cfg.id(s) == id && Backed(cfg, m, Vote.Cancel, s)
  }

  /**
   Nothing is decided without an honest vote of its own kind on the transfer itself:
   no claim paid, no id burned, no refund paid.
   */
  ghost predicate VotesInv(cfg: Config, m: Mesh) {
    && (forall s :: s in m.claimed ==> Backed(cfg, m, Vote.Transfer, s))
    && (forall s :: s in m.refunded ==> Backed(cfg, m, Vote.Refund, s))
    && (forall c, id :: c in m.gates && id in m.gates[c].cancelled ==> BurnBacked(cfg, m, id))
  }

  ghost predicate SafeInv(cfg: Config, U: set<Submission>, m: Mesh) {
    Inv(cfg, U, m) && VotesInv(cfg, m)
  }

  // ---- what stays true as the mesh moves on ----------------------------------

  /** Flags and nonces only go up, and no newly burned id is one that was executed before. */
  ghost predicate GateGrows(a: MeshGate, b: MeshGate) {
    && a.gate.executed <= b.gate.executed && a.cancelled <= b.cancelled && a.refunded <= b.refunded
    && (b.cancelled - a.cancelled) !! a.gate.executed
    && forall to :: a.gate.NextNonce(to) <= b.gate.NextNonce(to)
  }

  /** Nothing recorded is lost. */
  ghost predicate Grows(cfg: Config, m: Mesh, m': Mesh) {
    && m.gates.Keys == m'.gates.Keys
    && (forall c :: c in m.gates ==> GateGrows(m.gates[c], m'.gates[c]))
    && (forall s :: s in m.sent ==> s in m'.sent)
    && (forall s :: s in m.sender ==> s in m'.sender)
    && (forall s :: s in m.sender && s in m.sent ==> m'.sender[s] == m.sender[s])
    && (forall s :: s in m.refunded && s in m.repaid ==> s in m'.repaid && m'.repaid[s] == m.repaid[s])
  }

  lemma HonestVoteGrows(cfg: Config, m: Mesh, m': Mesh, digest: Bytes32)
    requires Grows(cfg, m, m') && HonestVote(cfg, m, digest)
    ensures HonestVote(cfg, m', digest)
  {
    var vote: Vote, s :| VoteFollowsRules(cfg, m, digest, vote, s);
    assert VoteFollowsRules(cfg, m', digest, vote, s);
  }

  lemma LockedGrows(cfg: Config, m: Mesh, m': Mesh, c: u64, id: Bytes32, sender: Bytes)
    requires Grows(cfg, m, m') && LockedOk(cfg, m, c, id, sender)
    ensures LockedOk(cfg, m', c, id, sender)
  {
    var s :| LockedIs(cfg, m, c, id, sender, s);
    assert LockedIs(cfg, m', c, id, sender, s);
  }

  /** Everything the invariant says about past entries carries over to a grown mesh. */
  lemma PastCarriesOver(cfg: Config, U: set<Submission>, m: Mesh, m': Mesh)
    requires HistoryInv(cfg, U, m) && Grows(cfg, m, m')
    ensures forall s :: s in m.sent ==> SentOk(U, m', s)
    ensures forall s :: s in m.claimed ==> ClaimedOk(cfg, m', s)
    ensures forall s :: s in m.refunded ==> RefundedOk(cfg, m', s)
    ensures forall p :: p in m.signed && Honest(cfg, p.0) ==> HonestVote(cfg, m', p.1)
  {
    forall s | s in m.sent ensures SentOk(U, m', s) {
      assert SentOk(U, m, s);
      assert GateGrows(m.gates[s.chainIdFrom], m'.gates[s.chainIdFrom]);
    }
    forall s | s in m.claimed ensures ClaimedOk(cfg, m', s) {
      assert ClaimedOk(cfg, m, s);
      assert GateGrows(m.gates[s.chainIdTo], m'.gates[s.chainIdTo]);
    }
    forall s | s in m.refunded ensures RefundedOk(cfg, m', s) {
      assert RefundedOk(cfg, m, s);
      assert GateGrows(m.gates[s.chainIdFrom], m'.gates[s.chainIdFrom]);
      assert GateGrows(m.gates[s.chainIdTo], m'.gates[s.chainIdTo]);
    }
    forall p | p in m.signed && Honest(cfg, p.0) ensures HonestVote(cfg, m', p.1) {
      HonestVoteGrows(cfg, m, m', p.1);
    }
  }

  /** An action that adds nothing to the histories or the locks keeps the invariant if the mesh merely grows. */
  lemma GrowthKeepsInv(cfg: Config, U: set<Submission>, m: Mesh, m': Mesh)
    requires Inv(cfg, U, m) && Grows(cfg, m, m') && GatesAgree(cfg, m')
    requires m'.sent == m.sent && m'.claimed == m.claimed && m'.refunded == m.refunded && m'.signed == m.signed
    requires forall c :: c in m.gates ==> m'.gates[c].sentBy == m.gates[c].sentBy
    ensures Inv(cfg, U, m')
  {
    PastCarriesOver(cfg, U, m, m');
    forall c, id | c in m'.gates && id in m'.gates[c].sentBy ensures LockedOk(cfg, m', c, id, m'.gates[c].sentBy[id]) {
      LockedGrows(cfg, m, m', c, id, m.gates[c].sentBy[id]);
    }
  }

  /** Only the gate on `chain` changed, and only by growing. */
  lemma OneGateGrows(cfg: Config, m: Mesh, m': Mesh, chain: u64)
    requires GatesAgree(cfg, m) && chain in m.gates
    requires chain in m'.gates && m'.gates == m.gates[chain := m'.gates[chain]]
    requires GateGrows(m.gates[chain], m'.gates[chain])
    requires m'.gates[chain].cancelled <= m'.gates[chain].gate.executed
    requires m'.gates[chain].gate.chainId == m.gates[chain].gate.chainId
    requires SharesConfig(cfg, m'.gates[chain].gate)
    requires m.sent <= m'.sent
    requires forall s :: s in m.sender ==> s in m'.sender && (s in m.sent ==> m'.sender[s] == m.sender[s])
    requires forall s :: s in m.refunded && s in m.repaid ==> s in m'.repaid && m'.repaid[s] == m.repaid[s]
    ensures Grows(cfg, m, m') && GatesAgree(cfg, m')
  {
    forall s | s in m.sent ensures s in m'.sent {
      var i :| 0 <= i < |m.sent| && m.sent[i] == s;
      assert m'.sent[i] == s;
    }
  }

  lemma ClaimEffectGrows(g: GateState, a: ClaimArgs, id: Bytes32, quorum: Verify.Result<nat>)
    ensures var g' := ClaimEffect(g, a, id, quorum);
            && g.executed <= g'.executed && g'.nonceTo == g.nonceTo
            && g'.chainId == g.chainId && g'.bridgeDomain == g.bridgeDomain
            && g'.validators == g.validators && g'.threshold == g.threshold
            && (ClaimRefusal(g, a, id, quorum).None? ==> id in g'.executed)
  {
  }

  lemma NoDupAppend<T>(s: seq<T>, x: T)
    requires NoDup(s) && x !in s
    ensures NoDup(s + [x])
  {
  }

  // ---- every action keeps the invariant -------------------------------------

  lemma SendGrows(cfg: Config, m: Mesh, chain: u64, a: SendArgs)
    requires GatesAgree(cfg, m) && Callable(m, Send(chain, a)) && SendAccepted(a)
    requires m.gates[chain].gate.Outgoing(a) !in m.sent
    ensures Grows(cfg, m, AfterSend(cfg, m, chain, a)) && GatesAgree(cfg, AfterSend(cfg, m, chain, a))
  {
    OneGateGrows(cfg, m, AfterSend(cfg, m, chain, a), chain);
  }

  lemma SendIsNew(cfg: Config, U: set<Submission>, m: Mesh, chain: u64, a: SendArgs)
    requires GatesAgree(cfg, m) && HistoryInv(cfg, U, m) && Callable(m, Send(chain, a))
    ensures m.gates[chain].gate.Outgoing(a) !in m.sent
  {
    assert !SentOk(U, m, m.gates[chain].gate.Outgoing(a));
  }

  lemma NewSendKeepsInv(cfg: Config, U: set<Submission>, m: Mesh, m': Mesh, chain: u64, s: Submission, sender: Bytes)
    requires Inv(cfg, U, m) && Grows(cfg, m, m') && GatesAgree(cfg, m')
    requires m'.sent == m.sent + [s] && s !in m.sent && SentOk(U, m', s) && m'.sender[s] == sender
    requires m'.claimed == m.claimed && m'.refunded == m.refunded && m'.signed == m.signed
    requires chain in m.gates && s.chainIdFrom == chain
    requires forall c :: c in m.gates ==>
               m'.gates[c].sentBy == if c == chain then m.gates[c].sentBy[cfg.id(s) := sender] else m.gates[c].sentBy
    ensures Inv(cfg, U, m')
  {
    PastCarriesOver(cfg, U, m, m');
    NoDupAppend(m.sent, s);
    NewSendLocks(cfg, m, m', chain, s, sender);
  }

  lemma NewSendLocks(cfg: Config, m: Mesh, m': Mesh, chain: u64, s: Submission, sender: Bytes)
    requires LockedInv(cfg, m) && Grows(cfg, m, m') && chain in m.gates && s.chainIdFrom == chain
    requires s in m'.sent && s in m'.sender && m'.sender[s] == sender
    requires forall c :: c in m.gates ==>
               m'.gates[c].sentBy == if c == chain then m.gates[c].sentBy[cfg.id(s) := sender] else m.gates[c].sentBy
    ensures LockedInv(cfg, m')
  {
    forall c, id | c in m'.gates && id in m'.gates[c].sentBy ensures LockedOk(cfg, m', c, id, m'.gates[c].sentBy[id]) {
      if c == chain && id == cfg.id(s) {
        assert LockedIs(cfg, m', c, id, sender, s);
      } else {
        LockedGrows(cfg, m, m', c, id, m.gates[c].sentBy[id]);
      }
    }
  }

  lemma SendKeepsInv(cfg: Config, U: set<Submission>, m: Mesh, chain: u64, a: SendArgs)
    requires Inv(cfg, U, m) && Allowed(cfg, U, m, Send(chain, a)) && SendAccepted(a)
    ensures Inv(cfg, U, AfterSend(cfg, m, chain, a))
  {
    var m' := AfterSend(cfg, m, chain, a);
    var s := m.gates[chain].gate.Outgoing(a);
    assert Concerns(m, Send(chain, a)) == Some((Vote.Transfer, s, []));
    SendIsNew(cfg, U, m, chain, a);
    SendGrows(cfg, m, chain, a);
    NewSendKeepsInv(cfg, U, m, m', chain, s, a.nativeSender);
  }

  /** Any quorum over a vote on `s` traces back to an honest vote of the same kind on a sent transfer with the same id. */
  lemma QuorumMeansHonestVote(cfg: Config, U: set<Submission>, m: Mesh, vote: Vote, s: Submission, signatures: seq<Bytes>)
    returns (t: Submission)
    requires Sound(cfg, U) && HistoryInv(cfg, U, m)
    requires s in U && Unforged(cfg, m, cfg.digest(vote, s), signatures)
    requires Verdict(cfg, vote, s, signatures).Ok?
    ensures t in m.sent && cfg.id(t) == cfg.id(s) && (vote.Refund? ==> BurnedAtDestination(cfg, m, t))
    ensures Backed(cfg, m, vote, t)
  {
    var digest := cfg.digest(vote, s);
    assert HasHonestSigner(cfg, digest, signatures);
    var sig, who :| sig in signatures && Honest(cfg, who)
      && Verify.RecoverEvmAddress(cfg.recovery, digest, sig) == Verify.Ok(who);
    assert HonestVote(cfg, m, (who, digest).1);
    var v: Vote, u :| VoteFollowsRules(cfg, m, digest, v, u);
    assert SentOk(U, m, u);
    assert (who, cfg.digest(vote, u)) in m.signed;
    t := u;
  }

  /** A paid claim is of a sent transfer that was neither claimed nor burned before. */
  lemma PaidClaimWasSent(cfg: Config, U: set<Submission>, m: Mesh, chain: u64, a: ClaimArgs)
    requires Sound(cfg, U) && Inv(cfg, U, m) && Allowed(cfg, U, m, Claim(chain, a))
    requires ClaimPays(cfg, m.gates[chain].gate, a)
    ensures var s := m.gates[chain].gate.Incoming(a);
            s in m.sent && s !in m.claimed && cfg.id(s) !in m.gates[chain].cancelled
  {
    var g := m.gates[chain].gate;
    var s := g.Incoming(a);
    assert Concerns(m, Claim(chain, a)) == Some((Vote.Transfer, s, a.signatures));
    var t := QuorumMeansHonestVote(cfg, U, m, Vote.Transfer, s, a.signatures);
    assert SentOk(U, m, t);
    assert !ClaimedOk(cfg, m, s);
  }

  lemma ClaimGrows(cfg: Config, m: Mesh, chain: u64, a: ClaimArgs)
    requires GatesAgree(cfg, m) && chain in m.gates
    ensures var m' := AfterClaim(cfg, m, chain, a);
            && Grows(cfg, m, m') && GatesAgree(cfg, m')
            && m'.gates[chain].cancelled == m.gates[chain].cancelled
            && (forall c :: c in m.gates ==> m'.gates[c].sentBy == m.gates[c].sentBy)
            && (ClaimPays(cfg, m.gates[chain].gate, a) ==>
                  cfg.id(m.gates[chain].gate.Incoming(a)) in m'.gates[chain].gate.executed)
  {
    var g := m.gates[chain].gate;
    ClaimEffectGrows(g, a, cfg.id(g.Incoming(a)), Verdict(cfg, Vote.Transfer, g.Incoming(a), a.signatures));
    OneGateGrows(cfg, m, AfterClaim(cfg, m, chain, a), chain);
  }

  lemma ClaimKeepsInv(cfg: Config, U: set<Submission>, m: Mesh, chain: u64, a: ClaimArgs)
    requires Sound(cfg, U) && Inv(cfg, U, m) && Allowed(cfg, U, m, Claim(chain, a))
    ensures Inv(cfg, U, AfterClaim(cfg, m, chain, a))
  {
    var m' := AfterClaim(cfg, m, chain, a);
    ClaimGrows(cfg, m, chain, a);
    if ClaimPays(cfg, m.gates[chain].gate, a) {
      PaidClaimWasSent(cfg, U, m, chain, a);
      NewClaimKeepsInv(cfg, U, m, m', m.gates[chain].gate.Incoming(a));
    } else {
      GrowthKeepsInv(cfg, U, m, m');
    }
  }

  lemma NewClaimKeepsInv(cfg: Config, U: set<Submission>, m: Mesh, m': Mesh, s: Submission)
    requires Inv(cfg, U, m) && Grows(cfg, m, m') && GatesAgree(cfg, m')
    requires m'.sent == m.sent && m'.refunded == m.refunded && m'.signed == m.signed
    requires m'.claimed == m.claimed + [s] && s !in m.claimed && ClaimedOk(cfg, m', s)
    requires forall c :: c in m.gates ==> m'.gates[c].sentBy == m.gates[c].sentBy
    ensures Inv(cfg, U, m')
  {
    PastCarriesOver(cfg, U, m, m');
    NoDupAppend(m.claimed, s);
    LockedCarriesOver(cfg, m, m');
  }

  lemma LockedCarriesOver(cfg: Config, m: Mesh, m': Mesh)
    requires LockedInv(cfg, m) && Grows(cfg, m, m')
    requires forall c :: c in m.gates ==> m'.gates[c].sentBy == m.gates[c].sentBy
    ensures LockedInv(cfg, m')
  {
    forall c, id | c in m'.gates && id in m'.gates[c].sentBy ensures LockedOk(cfg, m', c, id, m'.gates[c].sentBy[id]) {
      LockedGrows(cfg, m, m', c, id, m.gates[c].sentBy[id]);
    }
  }

  lemma CancelGrows(cfg: Config, m: Mesh, chain: u64, a: ClaimArgs)
    requires GatesAgree(cfg, m) && chain in m.gates
    ensures var m' := AfterCancel(cfg, m, chain, a);
            && Grows(cfg, m, m') && GatesAgree(cfg, m')
            && (forall c :: c in m.gates ==> m'.gates[c].sentBy == m.gates[c].sentBy)
  {
    var m' := AfterCancel(cfg, m, chain, a);
    if CancelAccepted(cfg, m.gates[chain], a) {
      assert m'.gates[chain].cancelled - m.gates[chain].cancelled <= {cfg.id(m.gates[chain].gate.Incoming(a))};
    }
    OneGateGrows(cfg, m, m', chain);
  }

  lemma CancelKeepsInv(cfg: Config, U: set<Submission>, m: Mesh, chain: u64, a: ClaimArgs)
    requires Inv(cfg, U, m) && chain in m.gates
    ensures Inv(cfg, U, AfterCancel(cfg, m, chain, a))
  {
    CancelGrows(cfg, m, chain, a);
    GrowthKeepsInv(cfg, U, m, AfterCancel(cfg, m, chain, a));
  }

  /** An accepted refund is of the very transfer the gate locked, after its burn, for the locked amount. */
  lemma RefundIsOfLockedTransfer(cfg: Config, U: set<Submission>, m: Mesh, chain: u64, a: RefundArgs)
    returns (t: Submission)
    requires Sound(cfg, U) && Inv(cfg, U, m) && Allowed(cfg, U, m, RefundTransfer(chain, a))
    requires RefundAccepted(cfg, m.gates[chain], a)
    ensures t in m.sent && cfg.id(t) == cfg.id(Returning(m.gates[chain].gate, a)) && t == SentUnder(cfg, m, cfg.id(t))
    ensures t.chainIdFrom == chain && t.amount == a.amount && t.debridgeId == a.debridgeId
    ensures BurnedAtDestination(cfg, m, t) && t !in m.refunded
    ensures t in m.sender && m.sender[t] == m.gates[chain].sentBy[cfg.id(t)]
    ensures Backed(cfg, m, Vote.Refund, t)
  {
    var s := Returning(m.gates[chain].gate, a);
    var id := cfg.id(s);
    assert Concerns(m, RefundTransfer(chain, a)) == Some((Vote.Refund, s, a.signatures));
    t := QuorumMeansHonestVote(cfg, U, m, Vote.Refund, s, a.signatures);
    assert LockedOk(cfg, m, chain, id, m.gates[chain].sentBy[id]);
    var u :| LockedIs(cfg, m, chain, id, m.gates[chain].sentBy[id], u);
    var l := SentUnder(cfg, m, id);
    assert SentOk(U, m, t) && SentOk(U, m, u) && SentOk(U, m, l);
    assert t == u == l;
    assert !RefundedOk(cfg, m, t);
  }

  lemma RefundKeepsInv(cfg: Config, U: set<Submission>, m: Mesh, chain: u64, a: RefundArgs)
    requires Sound(cfg, U) && Inv(cfg, U, m) && Allowed(cfg, U, m, RefundTransfer(chain, a))
    ensures Inv(cfg, U, AfterRefund(cfg, m, chain, a))
  {
    if RefundAccepted(cfg, m.gates[chain], a) {
      var t := RefundIsOfLockedTransfer(cfg, U, m, chain, a);
      RepaidKeepsInv(cfg, U, m, chain, a, t);
    }
  }

  lemma RepaidGrows(cfg: Config, m: Mesh, chain: u64, a: RefundArgs, id: Bytes32, t: Submission)
    requires GatesAgree(cfg, m) && chain in m.gates && m.gates[chain].gate.VaultBalance(a.debridgeId) >= a.amount
    requires id in m.gates[chain].sentBy && t !in m.refunded
    ensures var m' := Repaid(m, chain, a, id, t);
            && Grows(cfg, m, m') && GatesAgree(cfg, m')
            && (forall c, i :: c in m.gates && i in m'.gates[c].sentBy ==>
                  i in m.gates[c].sentBy && m'.gates[c].sentBy[i] == m.gates[c].sentBy[i])
  {
    OneGateGrows(cfg, m, Repaid(m, chain, a, id, t), chain);
  }

  lemma RepaidKeepsInv(cfg: Config, U: set<Submission>, m: Mesh, chain: u64, a: RefundArgs, t: Submission)
    requires Inv(cfg, U, m) && chain in m.gates && m.gates[chain].gate.VaultBalance(a.debridgeId) >= a.amount
    requires t in m.sent && t !in m.refunded && t.chainIdFrom == chain && BurnedAtDestination(cfg, m, t)
    requires cfg.id(t) in m.gates[chain].sentBy && t in m.sender && m.sender[t] == m.gates[chain].sentBy[cfg.id(t)]
    ensures Inv(cfg, U, Repaid(m, chain, a, cfg.id(t), t))
  {
    var m' := Repaid(m, chain, a, cfg.id(t), t);
    RepaidGrows(cfg, m, chain, a, cfg.id(t), t);
    assert GateGrows(m.gates[t.chainIdTo], m'.gates[t.chainIdTo]);
    NewRefundKeepsInv(cfg, U, m, m', t);
  }

  lemma NewRefundKeepsInv(cfg: Config, U: set<Submission>, m: Mesh, m': Mesh, t: Submission)
    requires Inv(cfg, U, m) && Grows(cfg, m, m') && GatesAgree(cfg, m')
    requires m'.sent == m.sent && m'.claimed == m.claimed && m'.signed == m.signed
    requires m'.refunded == m.refunded + [t] && t !in m.refunded && RefundedOk(cfg, m', t)
    requires forall c, id :: c in m.gates && id in m'.gates[c].sentBy ==>
               id in m.gates[c].sentBy && m'.gates[c].sentBy[id] == m.gates[c].sentBy[id]
    ensures Inv(cfg, U, m')
  {
    NewRefundKeepsHistory(cfg, U, m, m', t);
    NoDupAppend(m.refunded, t);
    FewerLocks(cfg, m, m');
  }

  lemma NewRefundKeepsHistory(cfg: Config, U: set<Submission>, m: Mesh, m': Mesh, t: Submission)
    requires HistoryInv(cfg, U, m) && Grows(cfg, m, m') && RefundedOk(cfg, m', t)
    requires m'.sent == m.sent && m'.claimed == m.claimed && m'.signed == m.signed && m'.refunded == m.refunded + [t]
    ensures HistoryInv(cfg, U, m')
  {
    PastCarriesOver(cfg, U, m, m');
  }

  lemma FewerLocks(cfg: Config, m: Mesh, m': Mesh)
    requires LockedInv(cfg, m) && Grows(cfg, m, m')
    requires forall c, id :: c in m.gates && id in m'.gates[c].sentBy ==>
               id in m.gates[c].sentBy && m'.gates[c].sentBy[id] == m.gates[c].sentBy[id]
    ensures LockedInv(cfg, m')
  {
    forall c, id | c in m'.gates && id in m'.gates[c].sentBy ensures LockedOk(cfg, m', c, id, m'.gates[c].sentBy[id]) {
      LockedGrows(cfg, m, m', c, id, m.gates[c].sentBy[id]);
    }
  }

  lemma RegisterGrows(cfg: Config, m: Mesh, chain: u64, debridgeId: Bytes32, mint: Bytes, prefund: nat)
    requires GatesAgree(cfg, m) && chain in m.gates
    ensures var m' := AfterRegister(m, chain, debridgeId, mint, prefund);
            && Grows(cfg, m, m') && GatesAgree(cfg, m')
            && (forall c :: c in m.gates ==> m'.gates[c].sentBy == m.gates[c].sentBy)
  {
    OneGateGrows(cfg, m, AfterRegister(m, chain, debridgeId, mint, prefund), chain);
  }

  lemma RegisterKeepsInv(cfg: Config, U: set<Submission>, m: Mesh, chain: u64, debridgeId: Bytes32, mint: Bytes,
                         prefund: nat)
    requires Inv(cfg, U, m) && chain in m.gates
    ensures Inv(cfg, U, AfterRegister(m, chain, debridgeId, mint, prefund))
  {
    RegisterGrows(cfg, m, chain, debridgeId, mint, prefund);
    GrowthKeepsInv(cfg, U, m, AfterRegister(m, chain, debridgeId, mint, prefund));
  }

  lemma SignKeepsInv(cfg: Config, U: set<Submission>, m: Mesh, who: Address, digest: Bytes32)
    requires Inv(cfg, U, m) && Allowed(cfg, U, m, Sign(who, digest))
    ensures Inv(cfg, U, Apply(cfg, m, Sign(who, digest)))
  {
    var m' := Apply(cfg, m, Sign(who, digest));
    assert Grows(cfg, m, m');
    PastCarriesOver(cfg, U, m, m');
    LockedCarriesOver(cfg, m, m');
    if Honest(cfg, who) {
      HonestVoteGrows(cfg, m, m', digest);
    }
  }

  lemma ActionKeepsHistory(cfg: Config, U: set<Submission>, m: Mesh, action: Action)
    requires Sound(cfg, U) && Inv(cfg, U, m) && Allowed(cfg, U, m, action)
    ensures Inv(cfg, U, Apply(cfg, m, action))
  {
    match action
    case Register(chain, debridgeId, mint, prefund) => RegisterKeepsInv(cfg, U, m, chain, debridgeId, mint, prefund);
    case Send(chain, a) => if SendAccepted(a) { SendKeepsInv(cfg, U, m, chain, a); }
    case Claim(chain, a) => ClaimKeepsInv(cfg, U, m, chain, a);
    case CancelTransfer(chain, a) => CancelKeepsInv(cfg, U, m, chain, a);
    case RefundTransfer(chain, a) => RefundKeepsInv(cfg, U, m, chain, a);
    case Sign(who, digest) => SignKeepsInv(cfg, U, m, who, digest);
  }

  // ---- every decision has its vote --------------------------------------------

  lemma BackedGrows(cfg: Config, m: Mesh, m': Mesh, vote: Vote, s: Submission)
    requires Backed(cfg, m, vote, s) && m.signed <= m'.signed
    ensures Backed(cfg, m', vote, s)
  {
  }

  /** Votes stay cast, so what they decided stays backed. */
  lemma VotesCarryOver(cfg: Config, m: Mesh, m': Mesh)
    requires VotesInv(cfg, m) && m.signed <= m'.signed && m.gates.Keys == m'.gates.Keys
    requires forall s :: s in m.sent ==> s in m'.sent
    ensures forall s :: s in m.claimed ==> Backed(cfg, m', Vote.Transfer, s)
    ensures forall s :: s in m.refunded ==> Backed(cfg, m', Vote.Refund, s)
    ensures forall c, id :: c in m.gates && id in m.gates[c].cancelled ==> BurnBacked(cfg, m', id)
  {
    forall c, id | c in m.gates && id in m.gates[c].cancelled ensures BurnBacked(cfg, m', id) {
      assert BurnBacked(cfg, m, id);
      var s :| s in m.sent && cfg.id(s) == id && Backed(cfg, m, Vote.Cancel, s);
      BackedGrows(cfg, m, m', Vote.Cancel, s);
    }
  }

  /** Actions that decide nothing. */
  lemma QuietKeepsVotes(cfg: Config, m: Mesh, m': Mesh)
    requires VotesInv(cfg, m) && m.signed <= m'.signed && m.gates.Keys == m'.gates.Keys
    requires forall s :: s in m.sent ==> s in m'.sent
    requires m'.claimed == m.claimed && m'.refunded == m.refunded
    requires forall c :: c in m.gates ==> m'.gates[c].cancelled == m.gates[c].cancelled
    ensures VotesInv(cfg, m')
  {
    VotesCarryOver(cfg, m, m');
  }

  /** One more decision, backed by its vote: a claim, a burn at `chain`, or a refund. */
  lemma DecisionKeepsVotes(cfg: Config, m: Mesh, m': Mesh, vote: Vote, t: Submission, chain: u64)
    requires VotesInv(cfg, m) && m'.signed == m.signed && m'.sent == m.sent && m.gates.Keys == m'.gates.Keys
    requires t in m.sent && Backed(cfg, m, vote, t)
    requires m'.claimed == if vote.Transfer? then m.claimed + [t] else m.claimed
    requires m'.refunded == if vote.Refund? then m.refunded + [t] else m.refunded
    requires forall c :: c in m.gates ==>
               m'.gates[c].cancelled <= m.gates[c].cancelled + if vote.Cancel? && c == chain then {cfg.id(t)} else {}
    ensures VotesInv(cfg, m')
  {
    VotesCarryOver(cfg, m, m');
    BackedGrows(cfg, m, m', vote, t);
    forall c, id | c in m'.gates && id in m'.gates[c].cancelled ensures BurnBacked(cfg, m', id) {
      assert id in m.gates[c].cancelled || (vote == Vote.Cancel && id == cfg.id(t));
    }
  }

  lemma PaidClaimIsBacked(cfg: Config, U: set<Submission>, m: Mesh, chain: u64, a: ClaimArgs)
    requires Sound(cfg, U) && Inv(cfg, U, m) && Allowed(cfg, U, m, Claim(chain, a))
    requires ClaimPays(cfg, m.gates[chain].gate, a)
    ensures var s := m.gates[chain].gate.Incoming(a); s in m.sent && Backed(cfg, m, Vote.Transfer, s)
  {
    var s := m.gates[chain].gate.Incoming(a);
    assert Concerns(m, Claim(chain, a)) == Some((Vote.Transfer, s, a.signatures));
    PaidClaimWasSent(cfg, U, m, chain, a);
    var t := QuorumMeansHonestVote(cfg, U, m, Vote.Transfer, s, a.signatures);
    assert SentOk(U, m, s) && SentOk(U, m, t);
    assert t == s;
  }

  lemma ClaimKeepsVotes(cfg: Config, U: set<Submission>, m: Mesh, chain: u64, a: ClaimArgs)
    requires Sound(cfg, U) && Inv(cfg, U, m) && VotesInv(cfg, m) && Allowed(cfg, U, m, Claim(chain, a))
    ensures VotesInv(cfg, AfterClaim(cfg, m, chain, a))
  {
    var m', s := AfterClaim(cfg, m, chain, a), m.gates[chain].gate.Incoming(a);
    if ClaimPays(cfg, m.gates[chain].gate, a) {
      PaidClaimIsBacked(cfg, U, m, chain, a);
      DecisionKeepsVotes(cfg, m, m', Vote.Transfer, s, chain);
    } else {
      QuietKeepsVotes(cfg, m, m');
    }
  }

  lemma CancelIsBacked(cfg: Config, U: set<Submission>, m: Mesh, chain: u64, a: ClaimArgs) returns (t: Submission)
    requires Sound(cfg, U) && Inv(cfg, U, m) && Allowed(cfg, U, m, CancelTransfer(chain, a))
    requires CancelAccepted(cfg, m.gates[chain], a)
    ensures t in m.sent && cfg.id(t) == cfg.id(m.gates[chain].gate.Incoming(a)) && Backed(cfg, m, Vote.Cancel, t)
  {
    var s := m.gates[chain].gate.Incoming(a);
    assert Concerns(m, CancelTransfer(chain, a)) == Some((Vote.Cancel, s, a.signatures));
    t := QuorumMeansHonestVote(cfg, U, m, Vote.Cancel, s, a.signatures);
  }

  lemma CancelKeepsVotes(cfg: Config, U: set<Submission>, m: Mesh, chain: u64, a: ClaimArgs)
    requires Sound(cfg, U) && Inv(cfg, U, m) && VotesInv(cfg, m) && Allowed(cfg, U, m, CancelTransfer(chain, a))
    ensures VotesInv(cfg, AfterCancel(cfg, m, chain, a))
  {
    if CancelAccepted(cfg, m.gates[chain], a) {
      var t := CancelIsBacked(cfg, U, m, chain, a);
      DecisionKeepsVotes(cfg, m, AfterCancel(cfg, m, chain, a), Vote.Cancel, t, chain);
    }
  }

  lemma RepaidKeepsVotes(cfg: Config, m: Mesh, chain: u64, a: RefundArgs, t: Submission)
    requires VotesInv(cfg, m) && chain in m.gates && cfg.id(t) in m.gates[chain].sentBy
    requires m.gates[chain].gate.VaultBalance(a.debridgeId) >= a.amount
    requires t in m.sent && Backed(cfg, m, Vote.Refund, t)
    ensures VotesInv(cfg, Repaid(m, chain, a, cfg.id(t), t))
  {
    DecisionKeepsVotes(cfg, m, Repaid(m, chain, a, cfg.id(t), t), Vote.Refund, t, chain);
  }

  lemma RefundKeepsVotes(cfg: Config, U: set<Submission>, m: Mesh, chain: u64, a: RefundArgs)
    requires Sound(cfg, U) && Inv(cfg, U, m) && VotesInv(cfg, m) && Allowed(cfg, U, m, RefundTransfer(chain, a))
    ensures VotesInv(cfg, AfterRefund(cfg, m, chain, a))
  {
    if RefundAccepted(cfg, m.gates[chain], a) {
      var t := RefundIsOfLockedTransfer(cfg, U, m, chain, a);
      RepaidKeepsVotes(cfg, m, chain, a, t);
    }
  }

  lemma QuietActionKeepsVotes(cfg: Config, m: Mesh, action: Action)
    requires VotesInv(cfg, m) && Callable(m, action) && (action.Register? || action.Send? || action.Sign?)
    ensures VotesInv(cfg, Apply(cfg, m, action))
  {
    QuietKeepsVotes(cfg, m, Apply(cfg, m, action));
  }

  lemma ActionKeepsVotes(cfg: Config, U: set<Submission>, m: Mesh, action: Action)
    requires Sound(cfg, U) && Inv(cfg, U, m) && VotesInv(cfg, m) && Allowed(cfg, U, m, action)
    ensures VotesInv(cfg, Apply(cfg, m, action))
  {
    match action
    case Claim(chain, a) => ClaimKeepsVotes(cfg, U, m, chain, a);
    case CancelTransfer(chain, a) => CancelKeepsVotes(cfg, U, m, chain, a);
    case RefundTransfer(chain, a) => RefundKeepsVotes(cfg, U, m, chain, a);
    case _ => QuietActionKeepsVotes(cfg, m, action);
  }

  lemma ActionKeepsInv(cfg: Config, U: set<Submission>, m: Mesh, action: Action)
    requires Sound(cfg, U) && SafeInv(cfg, U, m) && Allowed(cfg, U, m, action)
    ensures SafeInv(cfg, U, Apply(cfg, m, action))
  {
    ActionKeepsHistory(cfg, U, m, action);
    ActionKeepsVotes(cfg, U, m, action);
  }

  // ---- runs -------------------------------------------------------------------

  ghost predicate AllowedRun(cfg: Config, U: set<Submission>, m: Mesh, run: seq<Action>)
    decreases |run|
  {
    run != [] ==> Allowed(cfg, U, m, run[0]) && AllowedRun(cfg, U, Apply(cfg, m, run[0]), run[1..])
  }

  ghost function Run(cfg: Config, U: set<Submission>, m: Mesh, run: seq<Action>): Mesh
    requires AllowedRun(cfg, U, m, run)
    decreases |run|
  {
    if run == [] then m else Run(cfg, U, Apply(cfg, m, run[0]), run[1..])
  }

  lemma {:induction false} RunKeepsInv(cfg: Config, U: set<Submission>, m: Mesh, run: seq<Action>)
    requires Sound(cfg, U) && SafeInv(cfg, U, m) && AllowedRun(cfg, U, m, run)
    ensures SafeInv(cfg, U, Run(cfg, U, m, run))
    decreases |run|
  {
    if run != [] {
      ActionKeepsInv(cfg, U, m, run[0]);
      RunKeepsInv(cfg, U, Apply(cfg, m, run[0]), run[1..]);
    }
  }
}
