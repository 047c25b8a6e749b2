/**
 * `transfer_tokens`: read a target address, then sweep every loaded wallet in
 * turn, pausing one second after each.
 */
module Transfer {
  import opened KeyStore
  import opened Submission
  import opened SweepExecutor

  /** Seconds paused after each wallet. */
  const PAUSE_SECONDS: nat := 1

  /** One step of a transfer run: a wallet swept, or the pause that follows it. */
  datatype TransferEvent =
    | Swept(privateKey: string, report: SweepReport)
    | Paused(seconds: nat)

  /**
   * The transfer driver. `rawTarget` is the line the user typed; `nodes[i]` is what
   * the node answers for the wallet of `keys[i]`. A target that is blank after
   * stripping cancels the operation before any wallet is touched. Otherwise each
   * key is swept once, in order, to the stripped target, and each sweep is followed
   * by one pause, whatever it returned.
   */
  method TransferTokens(rawTarget: string, keys: seq<string>, nodes: seq<NodeView>)
    returns (cancelled: bool, log: seq<TransferEvent>)
    requires |nodes| == |keys|
    requires forall i :: 0 <= i < |nodes| ==> |nodes[i].answers| >= MAX_ATTEMPTS
    ensures cancelled <==> Strip(rawTarget) == []
    ensures cancelled ==> log == []
    ensures !cancelled ==> |log| == 2 * |keys|
    ensures !cancelled ==> forall i :: 0 <= i < |keys| ==>
      log[2 * i] == Swept(keys[i], SweepOutcome(nodes[i], keys[i], Strip(rawTarget)))
      && log[2 * i + 1] == Paused(PAUSE_SECONDS)
  {
    var target := Strip(rawTarget);
    log := [];
    if target == [] {
      return true, log;
    }
    cancelled := false;
    var i := 0;
    while i < |keys|
      invariant i <= |keys|
      invariant |log| == 2 * i
      invariant forall j :: 0 <= j < i ==>
        log[2 * j] == Swept(keys[j], SweepOutcome(nodes[j], keys[j], target))
        && log[2 * j + 1] == Paused(PAUSE_SECONDS)
    {
      var hash, signed, sent, sleeps := SendAllButReserve(nodes[i], keys[i], target);
      log := log + [Swept(keys[i], SweepReport(signed, hash, |sent|, sleeps)), Paused(PAUSE_SECONDS)];
      i := i + 1;
    }
  }
}
