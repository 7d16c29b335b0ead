/**
 A gate: lock on `send`, release once on `claim`. The state and its steps are common
 to both virtual machines; the class is the in-memory Solana gate.
 */
module Gate {
  import opened Words
  import opened SubmissionHash
  import Verify
  import SolanaPacking

  datatype GateError =
    | ZeroAmount
    | BadReceiver(width: nat)
    | AlreadyExecuted
    | UnknownAsset
    | InsufficientLiquidity(have: nat, need: nat)
    | AmountTooWide(amount: nat)
    | VerifyFailed(error: Verify.VerifyError)

  datatype Outcome<+T> = Ok(value: T) | Err(error: GateError)

  datatype Sent = Sent(submissionId: Bytes32, submission: Submission, nativeSender: Bytes)

  datatype Claimed = Claimed(submissionId: Bytes32, debridgeId: Bytes32, receiver: Bytes32, amount: u64)

  datatype SendArgs = SendArgs(
    debridgeId: Bytes32, amount: u256, bridgeDecimals: byte, chainIdTo: u64,
    receiver: Bytes, nativeSender: Bytes, auto: Option<AutoParams>)

  datatype ClaimArgs = ClaimArgs(
    debridgeId: Bytes32, amount: u256, bridgeDecimals: byte, chainIdFrom: u64, nonce: u64,
    receiver: Bytes, auto: Option<AutoParams>, signatures: seq<Bytes>)

  function Get<K>(m: map<K, nat>, k: K): nat {
    if k in m then m[k] else 0
  }

  function Credit<K>(m: map<K, nat>, k: K, amount: nat): map<K, nat> {
    m[k := Get(m, k) + amount]
  }

  /** The virtual machine of a gate's chain fixes the width of the accounts it pays. */
  datatype Vm = Evm | Svm

  /**
   The account state of one gate. Balances and nonces are mathematical integers, in
   the units that cross the bridge. `rollsBack` says whether a refused call leaves no
   trace, as on a chain that reverts it.
   */
  datatype GateState = GateState(
    vm: Vm, rollsBack: bool, chainId: u64, bridgeDomain: Bytes32, validators: set<Address>, threshold: nat,
    nonceTo: map<u64, nat>, executed: set<Bytes32>,
    tokenOf: map<Bytes32, Bytes>, vault: map<Bytes32, nat>, tokenAccounts: map<Bytes, nat>)
  {
    function AccountWidth(): nat { if vm.Evm? then 20 else 32 }

    /** The Solana program's arguments carry an amount as a `u64`. */
    predicate Carries(amount: u256) { vm.Svm? ==> amount < U64_LIMIT }

    function NextNonce(chainIdTo: u64): nat { Get(nonceTo, chainIdTo) }

    function VaultBalance(debridgeId: Bytes32): nat { Get(vault, debridgeId) }

    function Outgoing(a: SendArgs): Submission
      requires NextNonce(a.chainIdTo) < U64_LIMIT
    {
      Submission(bridgeDomain, a.debridgeId, a.bridgeDecimals, a.amount, chainId, a.chainIdTo,
                 NextNonce(a.chainIdTo), a.receiver, a.auto)
    }

    function Incoming(a: ClaimArgs): Submission {
      Submission(bridgeDomain, a.debridgeId, a.bridgeDecimals, a.amount, a.chainIdFrom, chainId,
                 a.nonce, a.receiver, a.auto)
    }
  }

  predicate IsAccountWidth(n: nat) { n == 20 || n == 32 }

  /** Why a send is refused; an amount for a Solana account must fit its program's arguments. */
  function SendRefusal(a: SendArgs): Option<GateError> {
    if a.amount == 0 then Some(ZeroAmount)
    else if !IsAccountWidth(|a.receiver|) then Some(BadReceiver(|a.receiver|))
    else if |a.receiver| == 32 && a.amount >= U64_LIMIT then Some(AmountTooWide(a.amount))
    else None
  }

  /** A successful send reserves the nonce and locks the amount; a refused one does nothing. */
  function SendEffect(g: GateState, a: SendArgs): GateState {
    if SendRefusal(a).Some? then g
    else g.(nonceTo := Credit(g.nonceTo, a.chainIdTo, 1),
            vault := Credit(g.vault, a.debridgeId, a.amount))
  }

  function SendOutcome(keccak: Hash, g: GateState, a: SendArgs): Outcome<Sent>
    requires g.NextNonce(a.chainIdTo) < U64_LIMIT
  {
    if SendRefusal(a).Some? then Err(SendRefusal(a).value)
    else Ok(Sent(SubmissionId(keccak, g.Outgoing(a)), g.Outgoing(a), a.nativeSender))
  }

  /** Why a claim is refused, in the order the gate checks, given the recomputed id and the verdict on its signatures. */
  function ClaimRefusal(g: GateState, a: ClaimArgs, id: Bytes32, quorum: Verify.Result<nat>): Option<GateError> {
    if id in g.executed then Some(AlreadyExecuted)
    else if quorum.Err? then Some(VerifyFailed(quorum.error))
    else PayRefusal(g, a)
  }

  /** Why an authorised claim is not paid. */
  function PayRefusal(g: GateState, a: ClaimArgs): Option<GateError> {
    if a.debridgeId !in g.tokenOf then Some(UnknownAsset)
    else if g.VaultBalance(a.debridgeId) < a.amount then
      Some(InsufficientLiquidity(g.VaultBalance(a.debridgeId), a.amount))
    else if |a.receiver| != g.AccountWidth() then Some(BadReceiver(|a.receiver|))
    else None
  }

  /** A claim that reached its quorum marks the id executed, also when it then fails and is not rolled back. */
  function ClaimEffect(g: GateState, a: ClaimArgs, id: Bytes32, quorum: Verify.Result<nat>): GateState {
    if id in g.executed || quorum.Err? then g
    else if ClaimRefusal(g, a, id, quorum).Some? then
      if g.rollsBack then g else Burned(g, id)
    else Paid(Burned(g, id), a)
  }

  function Burned(g: GateState, id: Bytes32): GateState {
    g.(executed := g.executed + {id})
  }

  function Paid(g: GateState, a: ClaimArgs): GateState
    requires g.VaultBalance(a.debridgeId) >= a.amount
  {
    g.(vault := g.vault[a.debridgeId := g.VaultBalance(a.debridgeId) - a.amount],
       tokenAccounts := Credit(g.tokenAccounts, a.receiver, a.amount))
  }

  /** The gate's verdict on signatures over a submissionId. */
  function Quorum(keccak: Hash, recovery: Verify.Recovery, g: GateState, id: Bytes32, signatures: seq<Bytes>)
    : Verify.Result<nat>
  {
    Verify.VerifyOutcome(recovery, EthSignedDigest(keccak, id), signatures, g.validators, g.threshold)
  }

  class SolanaGate {
    const chainId: u64
    const bridgeDomain: Bytes32
    const validators: set<Address>
    const threshold: nat
    var nonceTo: map<u64, nat>
    var executed: set<Bytes32>
    var tokenOf: map<Bytes32, Bytes>
    var vault: map<Bytes32, nat>
    var tokenAccounts: map<Bytes, nat>

    function State(): GateState
      reads this
    {
      GateState(Svm, false, chainId, bridgeDomain, validators, threshold, nonceTo, executed, tokenOf, vault, tokenAccounts)
    }

    constructor (chainId: u64, bridgeDomain: Bytes32, validators: seq<Address>, threshold: nat)
      requires 0 < threshold <= |validators|
      ensures State() == GateState(Svm, false, chainId, bridgeDomain, (set v | v in validators), threshold,
                                   map[], {}, map[], map[], map[])
    {
      this.chainId, this.bridgeDomain, this.threshold := chainId, bridgeDomain, threshold;
      this.validators := set v | v in validators;
      nonceTo, executed, tokenOf, vault, tokenAccounts := map[], {}, map[], map[], map[];
    }

    method RegisterAsset(debridgeId: Bytes32, localMint: Bytes32, prefund: nat)
      modifies this
      ensures State() == RegisterEffect(old(State()), debridgeId, localMint, prefund)
    {
      tokenOf := tokenOf[debridgeId := localMint];
      vault := Credit(vault, debridgeId, prefund);
    }

    method Send(keccak: Hash, a: SendArgs) returns (r: Outcome<Sent>)
      requires Get(nonceTo, a.chainIdTo) < U64_LIMIT && a.amount < U64_LIMIT
      modifies this
      ensures State() == SendEffect(old(State()), a)
      ensures r == SendOutcome(keccak, old(State()), a)
    {
      if a.amount == 0 {
        return Err(ZeroAmount);
      }
      if |a.receiver| != 20 && |a.receiver| != 32 {
        return Err(BadReceiver(|a.receiver|));
      }
      var nonce := Get(nonceTo, a.chainIdTo);
      var s := Submission(bridgeDomain, a.debridgeId, a.bridgeDecimals, a.amount, chainId, a.chainIdTo,
                          nonce, a.receiver, a.auto);
      assert s == old(State()).Outgoing(a);
      var submissionId := SolanaPacking.IdFor(keccak, bridgeDomain, a.debridgeId, a.bridgeDecimals, a.amount,
                                              chainId, a.chainIdTo, nonce, a.receiver, a.auto);
      nonceTo := Credit(nonceTo, a.chainIdTo, 1);
      vault := Credit(vault, a.debridgeId, a.amount);
      assert submissionId == SubmissionId(keccak, s);
      r := Ok(Sent(submissionId, s, a.nativeSender));
    }

    method Claim(keccak: Hash, recovery: Verify.Recovery, a: ClaimArgs) returns (r: Outcome<Claimed>)
      requires a.amount < U64_LIMIT
      modifies this
      ensures var g := old(State());
              var id := SubmissionId(keccak, g.Incoming(a));
              var quorum := Quorum(keccak, recovery, g, id, a.signatures);
              && State() == ClaimEffect(g, a, id, quorum)
              && r == match ClaimRefusal(g, a, id, quorum)
                      case Some(error) => Err(error)
                      case None => Ok(Claimed(id, a.debridgeId, a.receiver, a.amount))
    {
      var submissionId := SolanaPacking.IdFor(keccak, bridgeDomain, a.debridgeId, a.bridgeDecimals, a.amount,
                                              a.chainIdFrom, chainId, a.nonce, a.receiver, a.auto);
      ghost var g := State();
      assert submissionId == SubmissionId(keccak, g.Incoming(a));
      if submissionId in executed {
        return Err(AlreadyExecuted);
      }
      var quorum := Verify.VerifyThreshold(keccak, recovery, submissionId, a.signatures, validators, threshold);
      assert quorum == Quorum(keccak, recovery, g, submissionId, a.signatures);
      if quorum.Err? {
        return Err(VerifyFailed(quorum.error));
      }
      executed := executed + {submissionId};
      assert State() == Burned(g, submissionId);
      r := PayOut(submissionId, a);
    }

    /** What a claim does once its id is marked. */
    method PayOut(submissionId: Bytes32, a: ClaimArgs) returns (r: Outcome<Claimed>)
      requires a.amount < U64_LIMIT
      modifies this
      ensures var g := old(State());
              && State() == (if PayRefusal(g, a).Some? then g else Paid(g, a))
              && r == match PayRefusal(g, a)
                      case Some(error) => Err(error)
                      case None => Ok(Claimed(submissionId, a.debridgeId, a.receiver, a.amount))
    {
      if a.debridgeId !in tokenOf {
        return Err(UnknownAsset);
      }
      var have := Get(vault, a.debridgeId);
      if have < a.amount {
        return Err(InsufficientLiquidity(have, a.amount));
      }
      if |a.receiver| != 32 {
        return Err(BadReceiver(|a.receiver|));
      }
      vault := vault[a.debridgeId := have - a.amount];
      tokenAccounts := Credit(tokenAccounts, a.receiver, a.amount);
      r := Ok(Claimed(submissionId, a.debridgeId, a.receiver, a.amount));
    }
  }

  function RegisterEffect(g: GateState, debridgeId: Bytes32, localMint: Bytes, prefund: nat): GateState {
    g.(tokenOf := g.tokenOf[debridgeId := localMint],
       vault := Credit(g.vault, debridgeId, prefund))
  }

  /** Some gate pays accounts of this receiver's width, in amounts this large. */
  ghost predicate Deliverable(receiver: Bytes, amount: u256) {
    exists g: GateState :: |receiver| == g.AccountWidth() && g.Carries(amount)
  }

  /** A send is accepted exactly when it moves something and some gate could deliver it. */
  lemma SendAcceptedIff(a: SendArgs)
    ensures SendRefusal(a).None? <==> a.amount > 0 && Deliverable(a.receiver, a.amount)
    ensures SendRefusal(a).None?
            <==> a.amount > 0 && (|a.receiver| == 20 || (|a.receiver| == 32 && a.amount < 0x1_0000_0000_0000_0000))
  {
    var evm := GateState(Evm, true, 0, Zeros(32), {}, 0, map[], {}, map[], map[], map[]);
    var svm := evm.(vm := Svm);
    assert evm.AccountWidth() == 20 && evm.Carries(a.amount);
    assert svm.AccountWidth() == 32 && (svm.Carries(a.amount) <==> a.amount < U64_LIMIT);
  }

  /**
   An accepted send answers with the id of the transfer of its arguments, from this
   gate, under the next nonce of the route, which is then used up; its amount is
   locked, and no other route or asset is touched.
   */
  lemma AcceptedSendReports(keccak: Hash, g: GateState, a: SendArgs)
    requires g.NextNonce(a.chainIdTo) < U64_LIMIT && SendRefusal(a).None?
    ensures var s := Submission(g.bridgeDomain, a.debridgeId, a.bridgeDecimals, a.amount, g.chainId, a.chainIdTo,
                                g.NextNonce(a.chainIdTo), a.receiver, a.auto);
            SendOutcome(keccak, g, a) == Ok(Sent(SubmissionId(keccak, s), s, a.nativeSender))
    ensures var g' := SendEffect(g, a);
            && g'.NextNonce(a.chainIdTo) == g.NextNonce(a.chainIdTo) + 1
            && g'.VaultBalance(a.debridgeId) == g.VaultBalance(a.debridgeId) + a.amount
            && (forall c: u64 :: c != a.chainIdTo ==> g'.NextNonce(c) == g.NextNonce(c))
            && (forall d: Bytes32 :: d != a.debridgeId ==> g'.VaultBalance(d) == g.VaultBalance(d))
            && g'.executed == g.executed && g'.tokenAccounts == g.tokenAccounts && g'.tokenOf == g.tokenOf
  {
  }

  /**
   A refused claim leaves the gate as it was if and only if the gate rolls back, the id
   was executed before, or the signatures are no quorum. Any other refused claim burns
   the id: every further claim under it is answered `AlreadyExecuted`, whatever it carries.
   */
  lemma RefusedClaimKeepsStateIff(
    g: GateState, a: ClaimArgs, id: Bytes32, quorum: Verify.Result<nat>, retry: ClaimArgs, quorum': Verify.Result<nat>)
    requires ClaimRefusal(g, a, id, quorum).Some?
    ensures var g' := ClaimEffect(g, a, id, quorum);
            && (g' == g <==> g.rollsBack || id in g.executed || quorum.Err?)
            && (g' != g ==> ClaimRefusal(g', retry, id, quorum') == Some(AlreadyExecuted))
  {
    assert id !in g.executed ==> id in g.executed + {id};
  }

  /**
   Such a claim: its asset is registered and funded one step too late. Had the
   asset been registered first the claim would have been paid; made first, on a gate
   that does not roll back, it is refused and can never be paid.
   */
  lemma EarlyClaimIsBurned(g: GateState, a: ClaimArgs, id: Bytes32, quorum: Verify.Result<nat>, localMint: Bytes)
    requires id !in g.executed && quorum.Ok? && a.debridgeId !in g.tokenOf && |a.receiver| == g.AccountWidth()
    ensures ClaimRefusal(g, a, id, quorum) == Some(UnknownAsset)
    ensures ClaimEffect(g, a, id, quorum) != g <==> !g.rollsBack
    ensures ClaimRefusal(RegisterEffect(g, a.debridgeId, localMint, a.amount), a, id, quorum).None?
    ensures ClaimRefusal(RegisterEffect(ClaimEffect(g, a, id, quorum), a.debridgeId, localMint, a.amount), a, id, quorum)
            == if g.rollsBack then None else Some(AlreadyExecuted)
  {
    assert !g.rollsBack ==> id in ClaimEffect(g, a, id, quorum).executed;
  }

  /** A paid claim moves the amount from the vault to the receiver and nothing else, and its id is never paid again. */
  lemma PaidClaimMovesAmountOnce(
    g: GateState, a: ClaimArgs, id: Bytes32, quorum: Verify.Result<nat>, replay: ClaimArgs, quorum': Verify.Result<nat>)
    requires ClaimRefusal(g, a, id, quorum).None?
    ensures var g' := ClaimEffect(g, a, id, quorum);
            && g'.VaultBalance(a.debridgeId) + a.amount == g.VaultBalance(a.debridgeId)
            && Get(g'.tokenAccounts, a.receiver) == Get(g.tokenAccounts, a.receiver) + a.amount
            && (forall d :: d != a.debridgeId ==> g'.VaultBalance(d) == g.VaultBalance(d))
            && (forall r :: r != a.receiver ==> Get(g'.tokenAccounts, r) == Get(g.tokenAccounts, r))
            && ClaimRefusal(g', replay, id, quorum') == Some(AlreadyExecuted)
            && ClaimEffect(g', replay, id, quorum') == g'
  {
  }
}
