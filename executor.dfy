/**
 * `send_all_but_reserve` for one wallet: plan the sweep, build and sign one
 * transaction, and submit it with the bounded retry. The node's answers
 * (balance, pending nonce, gas price, replies to submissions) are inputs.
 */
module SweepExecutor {
  import opened Wrappers
  import opened SweepPlanner
  import opened Submission

  /** The transaction dictionary the program builds. */
  datatype Transaction = Transaction(
    nonce: nat,
    to: string,
    value: nat,
    gas: nat,
    gasPrice: nat,
    chainId: nat)

  /**
   * A transaction signed with a private key. The signature bytes are not computed:
   * the payload is identified by what was signed and with which key.
   */
  datatype SignedTransaction = SignedTransaction(tx: Transaction, privateKey: string)

  /** What the node reports for one wallet, and how it answers that wallet's submissions in turn. */
  datatype NodeView = NodeView(
    balance: nat,
    pendingNonce: nat,
    gasPrice: nat,
    answers: seq<SubmitOutcome>)

  /** What sweeping one wallet does: the payload it signed (if any), its result and its submissions and sleeps. */
  datatype SweepReport = SweepReport(
    signed: Option<SignedTransaction>,
    hash: Option<string>,
    attempts: nat,
    sleeps: nat)

  /**
   * The outcome of sweeping the wallet of `privateKey` to `target`. A wallet below
   * the 0.01 threshold is skipped and nothing is built, signed or submitted; any
   * other wallet signs exactly one transfer of its balance minus the 0.005 reserve,
   * on the pending nonce, with gas limit 21000 and the chain's id, and submits it
   * under the retry policy.
   */
  function SweepOutcome(node: NodeView, privateKey: string, target: string): (r: SweepReport)
    requires |node.answers| >= MAX_ATTEMPTS
    ensures r.signed.None? <==> node.balance < MIN_BALANCE_WEI
    ensures r.signed.None? ==> r.hash.None? && r.attempts == 0 && r.sleeps == 0
    ensures r.signed.Some? ==>
      var tx := r.signed.value.tx;
      && tx.value + RESERVE_WEI == node.balance
      && tx.value > 0
      && tx.to == target
      && tx.nonce == node.pendingNonce
      && tx.gasPrice == node.gasPrice
      && tx.gas == GAS_LIMIT
      && tx.chainId == CHAIN_ID
      && r.signed.value.privateKey == privateKey
      && RetryResult(r.hash, r.attempts, r.sleeps) == RetryPolicy(node.answers)
  {
    ConfiguredSweep(node.balance);
    var plan := PlanSweep(node.balance, MIN_BALANCE_WEI, RESERVE_WEI);
    if plan.Send? then
      var tx := Transaction(node.pendingNonce, target, plan.amount, GAS_LIMIT, node.gasPrice, CHAIN_ID);
      var s := RetryPolicy(node.answers);
      SweepReport(Some(SignedTransaction(tx, privateKey)), s.hash, s.attempts, s.sleeps)
    else
      SweepReport(None, None, 0, 0)
  }

  /**
   * `send_all_but_reserve`. The transaction is built and signed once, before the
   * retry loop; every submission sends that same signed payload.
   */
  method SendAllButReserve(node: NodeView, privateKey: string, target: string)
    returns (hash: Option<string>, signed: Option<SignedTransaction>, sent: seq<SignedTransaction>, sleeps: nat)
    requires |node.answers| >= MAX_ATTEMPTS
    ensures SweepReport(signed, hash, |sent|, sleeps) == SweepOutcome(node, privateKey, target)
    ensures forall i :: 0 <= i < |sent| ==> signed.Some? && sent[i] == signed.value
  {
    hash, signed, sent, sleeps := None, None, [], 0;
    var minBalance := MIN_BALANCE_WEI;
    var reserveBalance := RESERVE_WEI;
    if node.balance < minBalance {
      return;
    }
    var amountToSend := node.balance - reserveBalance;
    if amountToSend <= 0 {
      return;
    }
    var tx := Transaction(node.pendingNonce, target, amountToSend, GAS_LIMIT, node.gasPrice, CHAIN_ID);
    var payload := SignedTransaction(tx, privateKey);
    signed := Some(payload);
    hash, sent, sleeps := SubmitWithRetry(payload, node.answers);
  }
}
