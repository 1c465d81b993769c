/**
 * One pass of the body of HumanityProtocolBot.run: reload the accounts, then
 * visit them in order, connecting, binding the contract and claiming.
 */
module Cycle {
  import opened Options
  import opened Accounts
  import opened Connection
  import opened Claim

  /** The bot's configuration: the node URL, the reward contract's address,
      and whether Web3.to_checksum_address accepts that address. The address
      itself is kept only for the record: the model reads nothing from it
      but `addressChecksums`. */
  datatype Bot = Bot(rpcUrl: string, contractAddress: string, addressChecksums: bool)

  /** The node reached by the `i`-th connection attempt of a cycle through the
      given provider, or None when building the provider raised or
      is_connected() was false. */
  type Network = (nat, Provider) -> Option<Node>

  datatype AccountResult =
    | Skipped                       // the connection failed; logged and skipped
    | Processed(claim: ClaimOutcome)

  datatype CycleOutcome =
    | KeysMissing                                 // sys.exit(1) ends the process
    | Aborted(results: seq<AccountResult>)        // an exception left the cycle after these accounts
    | Completed(results: seq<AccountResult>)      // every account was visited

  /** The provider account `account` is connected through. */
  function ProviderOf(bot: Bot, account: Account): Provider {
    ProviderFor(bot.rpcUrl, Some(account.proxy))
  }

  /** What visiting the `i`-th account records when the contract binds. */
  function Visit(bot: Bot, account: Account, i: nat, network: Network): (r: AccountResult)
    ensures r.Skipped? <==> network(i, ProviderOf(bot, account)).None?
    ensures r.Processed? ==>
      r.claim == ClaimRewards(network(i, ProviderOf(bot, account)).value, account.privateKey)
  {
    match network(i, ProviderOf(bot, account))
    case None => Skipped
    case Some(node) => Processed(ClaimRewards(node, account.privateKey))
  }

  /** The for-loop of run over a loaded account list. Accounts are visited
      once each, in list order; a failed connection skips only that account,
      and an account's result depends on nothing but that account and what
      its own connection answers. The one error that leaves the loop is an
      unusable contract address, raised at the first account whose
      connection succeeds, before it claims. */
  method VisitAccounts(bot: Bot, accounts: seq<Account>, network: Network) returns (outcome: CycleOutcome)
    ensures !outcome.KeysMissing? && |outcome.results| <= |accounts|
    ensures forall i :: 0 <= i < |outcome.results| ==> outcome.results[i] == Visit(bot, accounts[i], i, network)
    ensures outcome.Completed? <==> |outcome.results| == |accounts|
    ensures bot.addressChecksums ==> outcome.Completed?
    ensures !bot.addressChecksums ==> forall i :: 0 <= i < |outcome.results| ==> outcome.results[i].Skipped?
    ensures outcome.Aborted? ==> network(|outcome.results|, ProviderOf(bot, accounts[|outcome.results|])).Some?
  {
    var results: seq<AccountResult> := [];
    var i := 0;
    while i < |accounts|
      invariant 0 <= i <= |accounts| && |results| == i
      invariant forall k :: 0 <= k < i ==> results[k] == Visit(bot, accounts[k], k, network)
      invariant !bot.addressChecksums ==> forall k :: 0 <= k < i ==> results[k].Skipped?
    {
      var connection := network(i, ProviderOf(bot, accounts[i]));
      if connection.None? {
        assert Visit(bot, accounts[i], i, network) == Skipped;
        results := results + [Skipped];
        i := i + 1;
        continue;
      }
      if !bot.addressChecksums {
        return Aborted(results);
      }
      var claim := ClaimRewards(connection.value, accounts[i].privateKey);
      assert Visit(bot, accounts[i], i, network) == Processed(claim);
      results := results + [Processed(claim)];
      i := i + 1;
    }
    return Completed(results);
  }

  /** One cycle of run: reload the accounts, then visit them. A missing key
      file ends the process; a file that cannot be read aborts the cycle
      before any account is visited. */
  method RunCycle(bot: Bot, keyFile: FileState, proxyFile: FileState, network: Network)
    returns (outcome: CycleOutcome)
    ensures outcome.KeysMissing? <==> keyFile.Missing?
    ensures keyFile.Unreadable? || (keyFile.Contents? && proxyFile.Unreadable?) ==> outcome == Aborted([])
    ensures keyFile.Contents? && !proxyFile.Unreadable? ==>
      var keys := CleanLines(keyFile.lines);
      !outcome.KeysMissing? && |outcome.results| <= |keys| &&
      (forall i :: 0 <= i < |outcome.results| ==>
         outcome.results[i] == Visit(bot, Account(keys[i], ProxyFor(proxyFile, i)), i, network)) &&
      (outcome.Completed? <==> |outcome.results| == |keys|) &&
      (bot.addressChecksums ==> outcome.Completed?) &&
      ClaimAttempts(outcome.results) <= |keys| &&
      (!bot.addressChecksums ==> forall i :: 0 <= i < |outcome.results| ==> outcome.results[i].Skipped?) &&
      (outcome.Aborted? ==>
         network(|outcome.results|,
                 ProviderOf(bot, Account(keys[|outcome.results|], ProxyFor(proxyFile, |outcome.results|)))).Some?)
  {
    var loaded := LoadAccountsData(keyFile, proxyFile);
    if loaded.KeysFileMissing? {
      return KeysMissing;
    } else if loaded.ReadRaised? {
      return Aborted([]);
    }
    outcome := VisitAccounts(bot, loaded.accounts, network);
    AtMostOneClaimPerAccount(outcome.results);
  }

  /** The number of accounts for which process_claim ran. */
  function ClaimAttempts(results: seq<AccountResult>): nat {
    if results == [] then 0
    else (if results[0].Processed? && results[0].claim.Attempted? then 1 else 0) + ClaimAttempts(results[1..])
  }

  /** At most one claim is attempted per account in a cycle. */
  lemma {:induction false} AtMostOneClaimPerAccount(results: seq<AccountResult>)
    ensures ClaimAttempts(results) <= |results|
    ensures ClaimAttempts(results) == |results| <==>
      forall i :: 0 <= i < |results| ==> results[i].Processed? && results[i].claim.Attempted?
  {
    if results != [] {
      AtMostOneClaimPerAccount(results[1..]);
      assert forall i :: 1 <= i < |results| ==> results[i] == results[1..][i - 1];
    }
  }

  /** A claim is attempted for an account exactly when its connection
      succeeds, its reads succeed, and not both rewards were claimed. */
  lemma VisitClaimsIff(bot: Bot, account: Account, i: nat, network: Network)
    ensures var r := Visit(bot, account, i, network);
            var conn := network(i, ProviderOf(bot, account));
            r.Processed? && r.claim.Attempted? <==>
              conn.Some? && ReadSnapshot(conn.value, account.privateKey).Some? &&
              ShouldClaim(ReadSnapshot(conn.value, account.privateKey).value.genesisClaimed,
                          ReadSnapshot(conn.value, account.privateKey).value.epochClaimed)
  {
  }

  /** Two connected accounts, the first with both rewards claimed and the
      second without the genesis reward: exactly one claim, for the second,
      and one "already claimed", for the first. */
  lemma OneClaimForTwoAccounts(bot: Bot, first: Account, second: Account, network: Network)
    requires network(0, ProviderOf(bot, first)).Some? && network(1, ProviderOf(bot, second)).Some?
    requires var s := ReadSnapshot(network(0, ProviderOf(bot, first)).value, first.privateKey);
             s.Some? && s.value.genesisClaimed && s.value.epochClaimed
    requires var s := ReadSnapshot(network(1, ProviderOf(bot, second)).value, second.privateKey);
             s.Some? && !s.value.genesisClaimed
    ensures var results := [Visit(bot, first, 0, network), Visit(bot, second, 1, network)];
            ClaimAttempts(results) == 1 &&
            results[0].claim.AlreadyClaimed? && results[1].claim.Attempted?
  {
    var results := [Visit(bot, first, 0, network), Visit(bot, second, 1, network)];
    assert results[1..] == [results[1]];
    assert ClaimAttempts([results[1]]) == 1 by { assert [results[1]][1..] == []; }
  }
}
