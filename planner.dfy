/**
 * The sweep decision of `send_all_but_reserve`: whether a wallet is swept and how
 * much it sends, in wei (the chain's smallest unit, 10^18 wei to one token).
 */
module SweepPlanner {

  /** Chain identifier of the 0g Newton testnet. */
  const CHAIN_ID: nat := 16600

  /** Gas limit of a plain value transfer. */
  const GAS_LIMIT: nat := 21000

  /** Wei in one token. */
  const WEI_PER_TOKEN: nat := 1_000_000_000_000_000_000

  /** The skip threshold, 0.01 token, in wei. */
  const MIN_BALANCE_WEI: nat := WEI_PER_TOKEN / 100

  /** The amount left behind for fees, 0.005 token, in wei. */
  const RESERVE_WEI: nat := WEI_PER_TOKEN / 200

  /** The decision for one wallet: a skip (with its reason) or the amount to send. */
  datatype Plan =
    | BelowThreshold
    | InsufficientAfterReserve
    | Send(amount: nat)

  /**
   * Threshold first, reserve second: a balance under the threshold is skipped,
   * otherwise everything above the reserve is sent, unless nothing would be left to send.
   */
  function PlanSweep(balance: nat, minBalance: nat, reserve: nat): (p: Plan)
    ensures p.Send? ==> p.amount > 0 && p.amount + reserve == balance
  {
    if balance < minBalance then BelowThreshold
    else if balance - reserve <= 0 then InsufficientAfterReserve
    else Send(balance - reserve)
  }

  /**
   * The threshold is a closed lower bound: a wallet is skipped for its balance
   * exactly when the balance is strictly below it.
   */
  lemma ThresholdIsClosed(balance: nat, minBalance: nat, reserve: nat)
    ensures PlanSweep(balance, minBalance, reserve) == BelowThreshold <==> balance < minBalance
  {
  }

  /**
   * Past the threshold, the wallet is skipped for the reserve exactly when the
   * balance does not exceed the reserve; otherwise it sends balance minus reserve.
   */
  lemma AboveThreshold(balance: nat, minBalance: nat, reserve: nat)
    requires balance >= minBalance
    ensures PlanSweep(balance, minBalance, reserve) == InsufficientAfterReserve <==> balance <= reserve
    ensures balance > reserve ==> PlanSweep(balance, minBalance, reserve) == Send(balance - reserve)
  {
  }

  /** With a reserve below the threshold, the second skip can never be taken. */
  lemma ReserveBelowThresholdNeverInsufficient(balance: nat, minBalance: nat, reserve: nat)
    requires reserve < minBalance
    ensures PlanSweep(balance, minBalance, reserve) != InsufficientAfterReserve
    ensures PlanSweep(balance, minBalance, reserve).Send? ==> PlanSweep(balance, minBalance, reserve).amount >= minBalance - reserve
  {
  }

  /**
   * With the configured 0.01 threshold and 0.005 reserve: a wallet is either below
   * the threshold or sends its balance minus 0.005 token, which is at least 0.005 token.
   */
  lemma ConfiguredSweep(balance: nat)
    ensures var p := PlanSweep(balance, MIN_BALANCE_WEI, RESERVE_WEI);
      (p == BelowThreshold <==> balance < MIN_BALANCE_WEI)
      && (p != BelowThreshold ==> p == Send(balance - RESERVE_WEI) && p.amount >= RESERVE_WEI)
  {
    ReserveBelowThresholdNeverInsufficient(balance, MIN_BALANCE_WEI, RESERVE_WEI);
  }

  /** A 0.02-token wallet sends 0.015 token; a 0.003-token wallet is skipped. */
  lemma ConfiguredExamples()
    ensures PlanSweep(20_000_000_000_000_000, MIN_BALANCE_WEI, RESERVE_WEI) == Send(15_000_000_000_000_000)
    ensures PlanSweep(3_000_000_000_000_000, MIN_BALANCE_WEI, RESERVE_WEI) == BelowThreshold
    ensures PlanSweep(MIN_BALANCE_WEI, MIN_BALANCE_WEI, RESERVE_WEI) == Send(RESERVE_WEI)
  {
  }

  /** A larger balance never sends less, and never flips a send back to a skip. */
  lemma PlanMonotonic(b1: nat, b2: nat, minBalance: nat, reserve: nat)
    requires b1 <= b2
    requires PlanSweep(b1, minBalance, reserve).Send?
    ensures PlanSweep(b2, minBalance, reserve).Send?
    ensures PlanSweep(b1, minBalance, reserve).amount <= PlanSweep(b2, minBalance, reserve).amount
  {
  }
}
