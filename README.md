# 0g-autosend: a verified model of the sweep logic

`main.py` sweeps the native-token balance of a set of wallets to one target
address on the 0g Newton testnet (chain id 16600). This project models its decision logic
in Dafny and proves properties of it:

- **Key loading** (`KeyStore`, `keystore.dfy`): `load_wallet_private_keys` strips every
  line of the key file, drops the blank ones and keeps the rest in file order. A read
  error yields no keys. `Strip` is Python's `str.strip()` over the exact set of code
  points for which Python's `str.isspace` holds.
- **Sweep planning** (`SweepPlanner`, `planner.dfy`): the threshold and reserve arithmetic of
  `send_all_but_reserve`, in integer wei. The threshold is 0.01 token (10^16 wei). The
  reserve is 0.005 token (5·10^15 wei). The doc comments in `main.py` say the reserve is
  0.001 token; the code uses 0.005, and so does the model.
- **Submission with retry** (`Submission`, `submission.dfy`): one signed payload is submitted
  at most three times. A `Web3RPCError` whose message contains `"mempool is full"` costs
  a five-second sleep and another try. Any other error ends with no result. An accepted
  submission returns its hash at once. The node's successive answers are an input
  sequence. The sleep at `main.py:91` also runs after the final attempt, so three
  congestion rejections give three sleeps.
- **One wallet end to end** (`SweepExecutor`, `executor.dfy`): plan, build the transaction
  (pending nonce, target, amount, gas 21000, node gas price, chain id 16600), sign it once,
  and submit it with the retry.
- **The transfer driver** (`Transfer`, `transfer.dfy`): a target that is blank after stripping
  cancels the run. Otherwise every key is swept once, in order, and each sweep is followed
  by a one-second pause.

Planning is a function of its three inputs, so calling it twice with the same inputs
gives the same plan by construction.

## Model

| member | source | states |
|---|---|---|
| `KeyStore.LeadingSpace` | main.py:32 | the leading run `str.strip()` removes: every character before it is whitespace, the one after it is not |
| `KeyStore.TrailingSpace` | main.py:32 | the trailing run `str.strip()` removes: every character in it is whitespace, the one before it is not |
| `KeyStore.Strip` | main.py:32 | the stripped line neither starts nor ends with whitespace, and it is empty exactly when the line is all whitespace |
| `KeyStore.StripKeepsMiddle` | main.py:32 | stripping removes only a whitespace prefix and a whitespace suffix; the middle of the line is kept unchanged |
| `KeyStore.StripFixesStripped` | main.py:32 | a string without whitespace at either end is left unchanged by stripping |
| `KeyStore.StripIdempotent` | main.py:32 | stripping twice gives the same as stripping once |
| `KeyStore.StripPadded` | main.py:32 | stripping a whitespace-padded stripped string gives back exactly that string |
| `KeyStore.NonEmptyImages` | main.py:32 | the comprehension `[f(x) for x in xs if f(x)]` yields at most one element per input |
| `KeyStore.NonEmptyImagesAppend` | main.py:32 | the comprehension over a concatenation is the concatenation of the comprehensions |
| `KeyStore.NonEmptyImagesMembers` | main.py:32 | an element of the comprehension is exactly a non-empty image of some input (both directions) |
| `KeyStore.KeysFromLines` | main.py:32 | at most one key per line |
| `KeyStore.KeysAreStripped` | main.py:32 | every loaded key is non-empty and has no whitespace at either end |
| `KeyStore.LoadWalletPrivateKeys` | main.py:30-38 | an unreadable file yields no keys; a readable one yields exactly the keys of its lines (each line stripped, blank ones dropped, file order kept), every one non-empty and stripped |
| `KeyStore.KeysFromLinesAppend` | main.py:32 | the keys of a file split in two are the keys of the first part followed by those of the second, so file order is kept |
| `KeyStore.KeysFromOneLine` | main.py:32 | a single line contributes nothing when it is blank and its stripped text otherwise |
| `KeyStore.KeysFromLinesMembers` | main.py:32 | a string is a loaded key exactly when it is the non-empty strip of some line (both directions) |
| `KeyStore.KeysFromLinesCount` | main.py:32 | the number of keys equals the number of non-blank lines, so no non-blank line is dropped |
| `KeyStore.KeyLineThenBlank` | main.py:32 | a padded key line followed by a blank line yields exactly that key |
| `KeyStore.LoadPaddedKeys` | main.py:32 | lines `[padA+keyA+padA, "", padB+keyB+padB, blank]` load as exactly `[keyA, keyB]`; with `padB` empty this is the file `["  keyA  ", "", "keyB", "   "]` |
| `SweepPlanner.PlanSweep` | main.py:55-63 | a planned send is positive and adds up with the reserve to the balance |
| `SweepPlanner.ThresholdIsClosed` | main.py:55-57 | the below-threshold skip happens exactly when the balance is strictly below the threshold, so a balance equal to it is not skipped |
| `SweepPlanner.AboveThreshold` | main.py:59-63 | at or above the threshold, the reserve skip happens exactly when balance does not exceed the reserve; otherwise the plan sends balance minus reserve |
| `SweepPlanner.ReserveBelowThresholdNeverInsufficient` | main.py:55-63 | with a reserve below the threshold the insufficient-after-reserve branch is unreachable, and a send is at least threshold minus reserve |
| `SweepPlanner.ConfiguredSweep` | main.py:50-63 | with 10^16 wei threshold and 5·10^15 wei reserve a wallet is skipped exactly when below the threshold, and otherwise sends balance minus the reserve, at least 5·10^15 wei |
| `SweepPlanner.ConfiguredExamples` | main.py:51-63 | 0.02 token sends 0.015 token, 0.003 token is skipped, a balance equal to the threshold sends 0.005 token |
| `SweepPlanner.PlanMonotonic` | main.py:55-63 | a larger balance never turns a send into a skip and never sends less |
| `Submission.ContainsIffOccurs` | main.py:89 | the substring test holds exactly when the marker occurs at some index of the message (both directions) |
| `Submission.CongestedPrefix` | main.py:83-91 | counts the leading congestion rejections within the limit: all counted answers are congestion, and the next answer, if within the limit, is not |
| `Submission.RetryPolicy` | main.py:82-96 | 1 to 3 submissions; all but the last were congestion; stopping early means the last answer was decisive; a hash is returned exactly when the last answer was an acceptance, and it is that hash; one sleep per congestion rejection, the final one included |
| `Submission.FirstAcceptedReturnsAtOnce` | main.py:84-86 | an accepted first submission returns its hash after one submission and no sleep |
| `Submission.DecidedAfterCongestion` | main.py:83-94 | after k congestion rejections, an acceptance or a non-congestion error ends the loop on submission k+1 with k sleeps; the result is the hash or nothing |
| `Submission.ExhaustedByCongestion` | main.py:89-96 | three congestion rejections give no result after three submissions and three sleeps (15 seconds) |
| `Submission.SubmitWithRetry` | main.py:82-96 | the loop's hash, submission count and sleep count are those of the retry policy, and every submission sends the same payload |
| `SweepExecutor.SweepOutcome` | main.py:40-96 | a wallet is skipped, with nothing signed or submitted, exactly when below the threshold; otherwise one transaction is signed with value + reserve = balance, the pending nonce, gas 21000, chain id 16600 and the node gas price, and it is submitted under the retry policy |
| `SweepExecutor.SendAllButReserve` | main.py:40-96 | the method's signed payload, hash, submissions and sleeps are the sweep outcome, and every submission is that one signed payload |
| `Transfer.TransferTokens` | main.py:107-122 | a target that is blank after stripping cancels the run with no wallet processed; otherwise each key is swept once, in load order, to the stripped target, and one one-second pause follows each sweep |

## Left out

- Every `web3` call is an input or is left out. Balance, pending nonce and gas price are fields of `NodeView`. The replies to `send_raw_transaction` are its `answers`. Address derivation (`from_key`) is used only for lookups and messages.
- Signing is not computed. A signed payload is the transaction paired with its key, which is enough to say that every submission sends the same payload.
- `tx_hash.hex()`: an accepted answer carries the hash already hex-encoded.
- `to_wei` on floats is not modelled. The two thresholds are the integer wei constants it yields (10^16 and 5·10^15).
- `time.sleep` is not executed. Sleeps are counted, and pauses appear as events in the transfer log.
- File I/O is not modelled. The key file is its sequence of lines, and any reading error is `KeyFile.Unreadable`.
- `print` output is left out, including the "no keys found" message, the per-wallet skip messages and the success message after a transfer.
- `check_wallet_balances`, `display_menu` and `main` are left out. They are the read-only balance report, the interactive menu, the connectivity check and `sys.exit`.
- Submission.SubmitWithRetry: requires an answer for each of the three possible submissions. A submission that raises anything other than `Web3RPCError` propagates out of the loop in the source and is not modelled.
- SweepExecutor.SendAllButReserve: same requirement on `answers` as the retry loop.
- Transfer.TransferTokens: requires one `NodeView` per key. Each wallet's node state is fixed before the run, so effects of one wallet's transfer on another's balance or nonce are not modelled.
- Transfer.TransferTokens: assumes every node call succeeds. In the source, `from_key` on a malformed key (`main.py:46`), `get_balance`, `get_transaction_count` and `gas_price` (`main.py:50`, `main.py:66`, `main.py:74`) and `sign_transaction` on an invalid target (`main.py:79`) can raise, and neither `transfer_tokens` nor `main` catches the exception, so the run ends there and the remaining keys are not swept. The model does not capture that early end.
