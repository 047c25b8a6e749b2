/**
 * Submitting one signed transaction with the bounded retry of
 * `send_all_but_reserve`: up to three submissions, a five-second wait after each
 * "mempool is full" rejection, and an immediate stop on any other outcome.
 */
module Submission {
  import opened Wrappers

  /** Number of submissions the retry loop allows. */
  const MAX_ATTEMPTS: nat := 3

  /** Seconds waited after a congestion rejection. */
  const BACKOFF_SECONDS: nat := 5

  /** The text in a node's error message that marks its mempool as full. */
  const CONGESTION_MARKER: string := "mempool is full"

  /**
   * What the node answers to one `send_raw_transaction` call: the transaction hash
   * (already hex-encoded), or a `Web3RPCError` carrying its message.
   */
  datatype SubmitOutcome = Accepted(txHash: string) | RpcError(message: string)

  /** `sub` occurs in `s` starting at index `i`. */
  predicate OccursAt(s: string, sub: string, i: nat)
  {
    i + |sub| <= |s| && s[i..i + |sub|] == sub
  }

  /** Python's `sub in s` on strings. */
  function Contains(s: string, sub: string): bool
  {
    if |s| < |sub| then false
    else s[..|sub|] == sub || Contains(s[1..], sub)
  }

  /** `Contains` holds exactly when the substring occurs at some index. */
  lemma {:induction false} ContainsIffOccurs(s: string, sub: string)
    ensures Contains(s, sub) <==> exists i: nat :: OccursAt(s, sub, i)
  {
    if |s| < |sub| {
    } else if s[..|sub|] == sub {
      assert OccursAt(s, sub, 0);
    } else {
      ContainsIffOccurs(s[1..], sub);
      if Contains(s[1..], sub) {
        var i: nat :| OccursAt(s[1..], sub, i);
        assert s[i + 1..i + 1 + |sub|] == s[1..][i..i + |sub|];
        assert OccursAt(s, sub, i + 1);
      }
      if exists i: nat :: OccursAt(s, sub, i) {
        var i: nat :| OccursAt(s, sub, i);
        assert s[1..][i - 1..i - 1 + |sub|] == s[i..i + |sub|];
        assert OccursAt(s[1..], sub, i - 1);
      }
    }
  }

  /** The rejection the program retries: a node error whose message mentions the full mempool. */
  predicate IsCongestion(o: SubmitOutcome)
  {
    o.RpcError? && Contains(o.message, CONGESTION_MARKER)
  }

  /** How many of the first `limit` answers are congestion rejections, counted up to the first other answer. */
  function CongestedPrefix(answers: seq<SubmitOutcome>, limit: nat): (n: nat)
    ensures n <= limit && n <= |answers|
    ensures forall i :: 0 <= i < n ==> IsCongestion(answers[i])
    ensures n < limit && n < |answers| ==> !IsCongestion(answers[n])
  {
    if limit == 0 || answers == [] || !IsCongestion(answers[0]) then 0
    else 1 + CongestedPrefix(answers[1..], limit - 1)
  }

  /** The effect of the retry loop: the hash it returns, how often it submitted and how often it slept. */
  datatype RetryResult = RetryResult(hash: Option<string>, attempts: nat, sleeps: nat)

  /**
   * The retry policy on the node's successive answers. It submits until the first
   * answer that is not congestion, or three times; it returns a hash only when the
   * last submission was accepted; it sleeps once after every congestion rejection,
   * the third one included.
   */
  function RetryPolicy(answers: seq<SubmitOutcome>): (s: RetryResult)
    requires |answers| >= MAX_ATTEMPTS
    ensures 1 <= s.attempts <= MAX_ATTEMPTS
    ensures forall i :: 0 <= i < s.attempts - 1 ==> IsCongestion(answers[i])
    ensures s.attempts < MAX_ATTEMPTS ==> !IsCongestion(answers[s.attempts - 1])
    ensures s.hash.Some? <==> answers[s.attempts - 1].Accepted?
    ensures s.hash.Some? ==> s.hash.value == answers[s.attempts - 1].txHash
    ensures s.sleeps == if IsCongestion(answers[s.attempts - 1]) then s.attempts else s.attempts - 1
  {
    var n := CongestedPrefix(answers, MAX_ATTEMPTS);
    if n == MAX_ATTEMPTS then RetryResult(None, MAX_ATTEMPTS, MAX_ATTEMPTS)
    else
      var last := answers[n];
      RetryResult(if last.Accepted? then Some(last.txHash) else None, n + 1, n)
  }

  /** An accepted first submission returns its hash at once, without sleeping or resubmitting. */
  lemma FirstAcceptedReturnsAtOnce(answers: seq<SubmitOutcome>)
    requires |answers| >= MAX_ATTEMPTS && answers[0].Accepted?
    ensures RetryPolicy(answers) == RetryResult(Some(answers[0].txHash), 1, 0)
  {
  }

  /**
   * After `k` congestion rejections, an answer that is not congestion decides the
   * outcome on that attempt: its hash if accepted, nothing otherwise, and no sleep after it.
   */
  lemma DecidedAfterCongestion(answers: seq<SubmitOutcome>, k: nat)
    requires |answers| >= MAX_ATTEMPTS && k < MAX_ATTEMPTS
    requires forall i :: 0 <= i < k ==> IsCongestion(answers[i])
    requires !IsCongestion(answers[k])
    ensures RetryPolicy(answers).attempts == k + 1 && RetryPolicy(answers).sleeps == k
    ensures RetryPolicy(answers).hash == if answers[k].Accepted? then Some(answers[k].txHash) else None
  {
  }

  /** Three congestion rejections in a row: nothing returned, after three submissions and three sleeps. */
  lemma ExhaustedByCongestion(answers: seq<SubmitOutcome>)
    requires |answers| >= MAX_ATTEMPTS
    requires IsCongestion(answers[0]) && IsCongestion(answers[1]) && IsCongestion(answers[2])
    ensures RetryPolicy(answers) == RetryResult(None, 3, 3)
    ensures RetryPolicy(answers).sleeps * BACKOFF_SECONDS == 15
  {
  }

  /**
   * The retry loop. The one signed payload is submitted once per attempt, each
   * attempt consuming the node's next answer.
   */
  method SubmitWithRetry<P>(payload: P, answers: seq<SubmitOutcome>)
    returns (hash: Option<string>, sent: seq<P>, sleeps: nat)
    requires |answers| >= MAX_ATTEMPTS
    ensures RetryResult(hash, |sent|, sleeps) == RetryPolicy(answers)
    ensures forall i :: 0 <= i < |sent| ==> sent[i] == payload
  {
    sent, sleeps := [], 0;
    var attempt := 0;
    while attempt < MAX_ATTEMPTS
      invariant attempt <= MAX_ATTEMPTS
      invariant |sent| == attempt && sleeps == attempt
      invariant forall i :: 0 <= i < |sent| ==> sent[i] == payload
      invariant forall i :: 0 <= i < attempt ==> IsCongestion(answers[i])
    {
      sent := sent + [payload];
      match answers[attempt]
      case Accepted(txHash) =>
        DecidedAfterCongestion(answers, attempt);
        return Some(txHash), sent, sleeps;
      case RpcError(message) =>
        if Contains(message, CONGESTION_MARKER) {
          sleeps := sleeps + 1;
        } else {
          DecidedAfterCongestion(answers, attempt);
          return None, sent, sleeps;
        }
      attempt := attempt + 1;
    }
    ExhaustedByCongestion(answers);
    hash := None;
  }
}
