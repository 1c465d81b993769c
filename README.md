# Humanity Protocol reward-claim bot, modelled in Dafny

The bot (`main.py`, class `HumanityProtocolBot`) claims rewards from an
on-chain reward contract for a list of accounts, each optionally routed
through its own HTTP or SOCKS proxy. Every cycle it reloads the accounts from
a private-key file and a proxy file, connects to the node once per account,
reads the account's genesis claim status, the current epoch and the claim
status for that epoch, and sends a `claimReward` transaction when the account
is eligible. Then it sleeps six hours. An error that escapes a cycle leads to
a one-minute backoff and a retry. Ctrl-C ends the process.

This project models the decision logic of the bot. Every answer of the
network and of web3 is an input:

- `Text` — Python's `str.isspace` and `str.strip()`.
- `Proxy` — `format_proxy`: from a raw proxy string to the `{http, https}` map.
- `Accounts` — `load_accounts_data` as a method. Each file is given by its
  state: missing, unreadable, or its lines. The method cleans the lines,
  pads the proxy list and zips it with the keys in a loop.
- `Connection` — how `setup_blockchain_connection` chooses between a proxied
  provider with a 30-second timeout and a direct one.
- `Claim` — `claim_rewards` and `process_claim` as functions over a `Node`.
  A `Node` holds one answer for each web3 call: its result, or `Raised`.
- `Cycle` — one pass of `run`'s loop body, as methods with loop invariants.
- `Scheduler` — what `run` does after a cycle: wait, back off, or exit.

Some behaviours of the code are easy to misread; the model follows the
code:

- Blank proxy lines are dropped before the proxies are paired with the keys.
  So a blank line does not mean "direct connection for this position": the
  later proxies move up (`Accounts.BlankProxyLineShiftsLaterProxies`).
- `format_proxy` never fails on a non-empty string. So every non-empty proxy
  gives a proxied connection, even a malformed one; there is no fallback to a
  direct connection.
- Direct connections get no explicit timeout, only web3's default.
- A keys file that exists but cannot be read is not fatal. The error escapes
  `load_accounts_data`, is caught by `run`, and the cycle is retried after
  the backoff.

## Model

| member | source | states |
|---|---|---|
| `Text.StripLeading` | main.py:49 | removing leading whitespace leaves a string that does not start with whitespace and is not longer than the input |
| `Text.StripLeadingSuffix` | main.py:49 | what is left after removing leading whitespace is a suffix of the input, and everything removed is whitespace |
| `Text.StripTrailing` | main.py:49 | removing trailing whitespace leaves a string that does not end with whitespace and is not longer than the input |
| `Text.StripTrailingPrefix` | main.py:49 | what is left after removing trailing whitespace is a prefix of the input, and everything removed is whitespace |
| `Text.Strip` | main.py:49 | `strip()` leaves no whitespace at either end and is never longer than its input |
| `Text.IsSpace` | main.py:49 | no ASCII digit or letter counts as whitespace for `strip()` |
| `Text.StripInfix` | main.py:49 | what `strip()` keeps is an infix of the input, and everything it drops before and after that infix is whitespace |
| `Text.StripEmptyIff` | main.py:49 | `strip()` gives the empty string exactly when the input is all whitespace, which is when the comprehension drops the line |
| `Text.StripIdempotent` | main.py:49 | stripping a stripped string changes nothing |
| `Proxy.HasScheme` | main.py:78-80 | a proxy with one of the accepted schemes starts with `http` or `socks5` and is at least as long as `http://` |
| `Proxy.FormatProxy` | main.py:73-86 | no proxy exactly for an absent or empty input; otherwise `http` equals `https` and always has a scheme; a `socks5://`, `http://` or `https://` input is kept unchanged; any other input gets `http://` in front |
| `Proxy.FormatProxyIdempotent` | main.py:78-83 | formatting an already formatted proxy gives the same proxy map |
| `Proxy.FormatProxyKeepsInput` | main.py:78-83 | the formatted URL is the raw proxy when it has a scheme, and `http://` followed by the raw proxy otherwise |
| `Proxy.FormatProxySchemelessCollides` | main.py:78-83 | the URL does not determine the raw proxy: a proxy without a scheme and the same proxy with `http://` in front are formatted to the same map |
| `Accounts.CleanLines` | main.py:49 | the cleaned list is never longer than the file and holds no empty line |
| `Accounts.CleanLinesStripped` | main.py:56 | every cleaned line is already stripped |
| `Accounts.CleanLinesAppend` | main.py:56 | cleaning works line by line and keeps the file's order: cleaning a concatenation gives the concatenation of the cleaned parts |
| `Accounts.CleanLinesSingle` | main.py:49 | one line contributes its stripped text, or nothing when that is empty |
| `Accounts.CleanLinesMembers` | main.py:56 | a string is a cleaned line exactly when it is non-empty and is the stripped form of some line of the file |
| `Accounts.CleanLinesIdempotent` | main.py:49 | cleaning already cleaned lines changes nothing |
| `Accounts.BlankProxyLineShiftsLaterProxies` | main.py:56 | after a blank first proxy line, the first account gets the proxy from the second line |
| `Accounts.Blanks` | main.py:59 | `[''] * n` has exactly `n` entries, all of them the empty proxy |
| `Accounts.ZipAccounts` | main.py:65-69 | the zip loop makes as many accounts as the shorter list has entries, and account `k` pairs key `k` with proxy `k` |
| `Accounts.LoadWarnings` | main.py:57-63 | at most one warning. A missing proxy file gives exactly the "proxy file missing" warning. There is none exactly when the proxy file exists and has at least as many cleaned proxies as there are keys. A warning for an existing proxy file is "fewer proxies than keys" with the two counts, the first smaller |
| `Accounts.LoadAccountsData` | main.py:44-70 | a missing key file exits, and an unreadable key or proxy file raises. Otherwise there is exactly one account per cleaned key, in order. Account `i` gets the `i`-th cleaned proxy when there is one and the empty proxy otherwise, whether the proxy file is missing, shorter or longer. The warnings are exactly "proxy file missing" or "fewer proxies than keys" |
| `Connection.ProviderFor` | main.py:88-104 | a proxied provider exactly when the proxy is non-empty; the session's proxy map is always what `format_proxy` returns; the 30-second timeout is set exactly when the provider is proxied; the node URL is kept |
| `Claim.ShouldClaim` | main.py:125 | a claim is attempted exactly when the genesis reward and the epoch's reward were not both already claimed |
| `Claim.ReadSnapshot` | main.py:119-123 | the snapshot exists exactly when the four reads succeed. Its claim status is the one read for the epoch that `currentEpoch` returned |
| `Claim.ProcessClaim` | main.py:134-157 | a confirmed transaction is from the sender. Its nonce, gas price and chain id are the node's answers, and its gas limit is the node's estimate for those same parameters. The signed form of this very transaction was sent and its receipt received. The transaction is confirmed exactly when every call answers, each with the values read before it. Failing to get the nonce fails exactly at that step |
| `Claim.ClaimRewards` | main.py:116-132 | a read error is caught and logged, never propagated. A claim is attempted exactly when the reads succeed and `ShouldClaim` holds. "Already claimed" is reported for the epoch just read. The logged address is the key's address, or "unknown" when it could not be derived |
| `Cycle.Visit` | main.py:165-174 | an account is skipped exactly when its connection fails; otherwise its result is the claim made with its own key on its own connection |
| `Cycle.VisitAccounts` | main.py:164-174 | accounts are visited once each, in list order. Result `i` depends only on account `i` and its own connection. A failed connection skips only its account. With a usable contract address every account is visited. With an unusable one the cycle stops at the first connected account before any claim |
| `Cycle.RunCycle` | main.py:162-174 | a missing key file ends the process, and an unreadable file aborts the cycle before any account. Otherwise account `i` is visited with the `i`-th key and its proxy, and every account is visited when the contract address is usable. With an unusable contract address every visited account was skipped, and an aborted cycle stopped at an account whose connection succeeded. At most one claim is attempted per cleaned key |
| `Cycle.AtMostOneClaimPerAccount` | main.py:164-174 | a cycle attempts at most one claim per account, and as many as it has accounts only when every account attempted one |
| `Cycle.VisitClaimsIff` | main.py:165-174 | a claim is attempted for an account exactly when its connection and reads succeed and it is eligible |
| `Cycle.OneClaimForTwoAccounts` | main.py:164-174 | with one account that claimed both rewards and one that never claimed genesis, exactly one claim is made, for the second, and the first is reported as already claimed |
| `Scheduler.AfterCycleAsWritten` | main.py:161-182 | as written: the interrupt escapes unhandled exactly when it arrives during the backoff after a failed cycle |
| `Scheduler.AfterCycle` | main.py:161-182 | the interrupt never escapes. The process exits exactly on an interrupt or a missing key file, with status 1 exactly for the missing key file and status 0 for every other exit. Otherwise it waits six hours after a completed cycle and 60 seconds after a failed one |
| `Scheduler.AfterCycleDiffersOnlyInBackoff` | main.py:180-182 | the corrected transition differs from the written one only for an interrupt during the backoff |
| `Scheduler.InterruptDuringBackoffEscapes` | main.py:180-182 | an interrupt during the backoff escapes as written and exits with status 0 when corrected |
| `Scheduler.ErrorsNeverEndTheProcess` | main.py:175-182 | without an interrupt, every cycle except one with a missing key file ends in a wait; a failed cycle ends in the 60-second backoff |

## Findings

| source | as written | input that shows it | evidently intended | confidence | as-written member | corrected member |
|---|---|---|---|---|---|---|
| main.py:180-182 | the 60-second backoff sleeps inside the `except Exception` handler, outside the `try` whose `except KeyboardInterrupt` exits cleanly | a cycle raises an error, and Ctrl-C is pressed during the following minute | Ctrl-C ends the process with status 0 wherever it arrives, as it does during the six-hour sleep | medium, not executed | `Scheduler.AfterCycleAsWritten` (shown by `Scheduler.InterruptDuringBackoffEscapes`) | `Scheduler.AfterCycle` |

## Left out

- Claim.ProcessClaim: the contract states when the transaction is confirmed, what it then holds, and the failure of the first step (the nonce read). For the later failures, which step is named in `TxFailed` is stated only by the body.
- File access: opening and reading the files is not modelled. Each file is given as missing, unreadable, or its lines as Python iterates them. Only `FileNotFoundError` is told apart, as in the source.
- Configuration from the environment (main.py:21-25): the node URL and the contract address are fields of `Cycle.Bot`.
- The contract ABI (main.py:27-32) and `Web3.to_checksum_address` (main.py:171) are library details. Whether the checksum call accepts the configured address is the `Cycle.Bot.addressChecksums` input. Outside a per-account `try`, that is the one error that can escape the account loop.
- web3 and requests are not modelled. Sessions, `HTTPProvider` construction and `is_connected` (main.py:94-114) become the `Cycle.Network` answer, None for both failure kinds. Contract calls, gas estimation, signing, sending and waiting for the receipt become the answers of a `Claim.Node`.
- `eth.chain_id` is read twice in `process_claim` (main.py:140 and 146). The model takes the node's chain id as one answer, so both reads agree.
- The `except` branch of `format_proxy` (main.py:84-86) is not modelled: `startswith` on a string does not raise, so the branch cannot run for the proxies the bot reads.
- Logging, colorama and timestamps (main.py:9-19, 41-42) are not modelled. The outcome datatypes record which message is logged (connection skipped, already claimed, error with the address), but not its text. The hex encoding of the hash (main.py:155) is not modelled either.
- Timing is not modelled. `time.sleep`, the endless `while True` loop and the process exit are described by the transition after one cycle: `Scheduler.Next` names the sleep length or the exit status.
- Ctrl-C is not followed step by step: where it arrives is an input of the transition. A Ctrl-C in the middle of a cycle ends the process with status 0, as the `except KeyboardInterrupt` at main.py:177-179 does. What the interrupted cycle had done by then is not recorded.
- Other Python errors are not modelled (out of memory, a malformed return value that breaks the tuple unpacking at main.py:123).
