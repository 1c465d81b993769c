/**
 * Assembly of the account list from the private-key file and the proxy file
 * (HumanityProtocolBot.load_accounts_data). The files are given by their
 * state: missing, unreadable, or read as a sequence of raw lines.
 */
module Accounts {
  import opened Text

  /** What opening and reading a file gives. */
  datatype FileState =
    | Missing                       // open raises FileNotFoundError
    | Unreadable                    // open or read raises any other error
    | Contents(lines: seq<string>)  // the lines, as iterating the file yields them

  /** One entry of the account list; an empty proxy means a direct connection. */
  datatype Account = Account(privateKey: string, proxy: string)

  /** The warnings load_accounts_data logs. */
  datatype Warning =
    | ProxyFileMissing                          // every account connects directly
    | FewerProxies(proxies: nat, keys: nat)     // the last accounts connect directly

  datatype LoadResult =
    | Loaded(accounts: seq<Account>, warnings: seq<Warning>)
    | KeysFileMissing   // logged, then sys.exit(1)
    | ReadRaised        // an error other than FileNotFoundError leaves the method

  /** `[line.strip() for line in lines if line.strip()]`: the stripped lines
      that are not blank, each already stripped and never empty. */
  function CleanLines(lines: seq<string>): (r: seq<string>)
    ensures |r| <= |lines|
    ensures forall k :: 0 <= k < |r| ==> r[k] != ""
  {
    if lines == [] then []
    else
      var line := Strip(lines[0]);
      var rest := CleanLines(lines[1..]);
      if line == "" then rest else [line] + rest
  }

  /** Every cleaned line is already stripped. */
  lemma {:induction false} CleanLinesStripped(lines: seq<string>, k: nat)
    requires k < |CleanLines(lines)|
    ensures Strip(CleanLines(lines)[k]) == CleanLines(lines)[k]
  {
    var line := Strip(lines[0]);
    if line == "" {
      CleanLinesStripped(lines[1..], k);
    } else if k == 0 {
      StripIdempotent(lines[0]);
    } else {
      CleanLinesStripped(lines[1..], k - 1);
    }
  }

  /** Cleaning works line by line: the cleaned lines of a concatenation are
      the cleaned lines of each part, in order. */
  lemma {:induction false} CleanLinesAppend(a: seq<string>, b: seq<string>)
    ensures CleanLines(a + b) == CleanLines(a) + CleanLines(b)
  {
    if a == [] {
      assert a + b == b;
    } else {
      assert (a + b)[0] == a[0];
      assert (a + b)[1..] == a[1..] + b;
      CleanLinesAppend(a[1..], b);
    }
  }

  /** A single line contributes its stripped text, unless that is empty. */
  lemma CleanLinesSingle(line: string)
    ensures CleanLines([line]) == if Strip(line) == "" then [] else [Strip(line)]
  {
  }

  /** The cleaned lines are exactly the non-empty stripped source lines. */
  lemma {:induction false} CleanLinesMembers(lines: seq<string>, x: string)
    ensures x in CleanLines(lines) <==> x != "" && exists l :: l in lines && Strip(l) == x
  {
    if lines != [] {
      var rest := lines[1..];
      CleanLinesMembers(rest, x);
      var head := if Strip(lines[0]) == "" then [] else [Strip(lines[0])];
      assert CleanLines(lines) == head + CleanLines(rest);
      assert forall l :: l in lines <==> l == lines[0] || l in rest;
    }
  }

  /** Cleaning cleaned lines changes nothing. */
  lemma {:induction false} CleanLinesIdempotent(lines: seq<string>)
    ensures CleanLines(CleanLines(lines)) == CleanLines(lines)
  {
    if lines != [] {
      var head := if Strip(lines[0]) == "" then [] else [Strip(lines[0])];
      CleanLinesAppend(head, CleanLines(lines[1..]));
      CleanLinesIdempotent(lines[1..]);
      StripIdempotent(lines[0]);
      if head != [] {
        CleanLinesSingle(head[0]);
      }
    }
  }

  /** `[''] * n`: n empty proxies. */
  function Blanks(n: nat): (r: seq<string>)
    ensures |r| == n && forall k :: 0 <= k < n ==> r[k] == ""
  {
    if n == 0 then [] else Blanks(n - 1) + [""]
  }

  /** The proxy account `i` is given: the `i`-th cleaned proxy line when the
      proxy file was read and has one, and the empty proxy otherwise. */
  function ProxyFor(proxyFile: FileState, i: nat): string {
    if proxyFile.Contents? && i < |CleanLines(proxyFile.lines)|
    then CleanLines(proxyFile.lines)[i]
    else ""
  }

  /** Blank proxy lines are dropped before pairing, so a blank line does not
      keep its position: the proxy on the line after it goes to the first
      account. */
  lemma BlankProxyLineShiftsLaterProxies(proxy: string)
    requires proxy != "" && Strip(proxy) == proxy
    ensures ProxyFor(Contents(["", proxy]), 0) == proxy
  {
    assert ["", proxy] == [""] + [proxy];
    CleanLinesAppend([""], [proxy]);
    CleanLinesSingle("");
    CleanLinesSingle(proxy);
  }

  /** The warnings logged for a given pair of readable files. */
  function LoadWarnings(keys: seq<string>, proxyFile: FileState): (w: seq<Warning>)
    requires !proxyFile.Unreadable?
    ensures |w| <= 1
    ensures proxyFile.Missing? ==> w == [ProxyFileMissing]
    ensures w == [] <==> proxyFile.Contents? && |CleanLines(proxyFile.lines)| >= |keys|
    ensures w != [] && proxyFile.Contents? ==>
      w[0] == FewerProxies(|CleanLines(proxyFile.lines)|, |keys|) && w[0].proxies < w[0].keys
  {
    if proxyFile.Missing? then [ProxyFileMissing]
    else if |CleanLines(proxyFile.lines)| < |keys|
    then [FewerProxies(|CleanLines(proxyFile.lines)|, |keys|)]
    else []
  }

  /** The loop `for pk, proxy in zip(private_keys, proxies)` that appends one
      account per pair: as many accounts as the shorter list has entries,
      the `k`-th pairing the `k`-th key with the `k`-th proxy. */
  method ZipAccounts(privateKeys: seq<string>, proxies: seq<string>) returns (accounts: seq<Account>)
    ensures |accounts| == if |privateKeys| <= |proxies| then |privateKeys| else |proxies|
    ensures forall k :: 0 <= k < |accounts| ==> accounts[k] == Account(privateKeys[k], proxies[k])
  {
    accounts := [];
    var i := 0;
    while i < |privateKeys| && i < |proxies|
      invariant 0 <= i <= |privateKeys| && i <= |proxies|
      invariant |accounts| == i
      invariant forall k :: 0 <= k < i ==> accounts[k] == Account(privateKeys[k], proxies[k])
    {
      accounts := accounts + [Account(privateKeys[i], proxies[i])];
      i := i + 1;
    }
  }

  /** load_accounts_data: one account per non-blank key line, in order; the
      proxy list is padded with empty proxies and zipped with the keys, so
      surplus proxies are dropped and a missing proxy file means direct
      connections throughout. */
  method LoadAccountsData(keyFile: FileState, proxyFile: FileState) returns (r: LoadResult)
    ensures r.KeysFileMissing? <==> keyFile.Missing?
    ensures r.ReadRaised? <==> keyFile.Unreadable? || (keyFile.Contents? && proxyFile.Unreadable?)
    ensures r.Loaded? ==>
      var keys := CleanLines(keyFile.lines);
      |r.accounts| == |keys| &&
      (forall i :: 0 <= i < |keys| ==> r.accounts[i] == Account(keys[i], ProxyFor(proxyFile, i))) &&
      r.warnings == LoadWarnings(keys, proxyFile)
  {
    if keyFile.Missing? {
      return KeysFileMissing;
    } else if keyFile.Unreadable? {
      return ReadRaised;
    }
    var privateKeys := CleanLines(keyFile.lines);
    var warnings: seq<Warning> := [];
    var proxies: seq<string>;
    match proxyFile {
      case Missing =>
        warnings := warnings + [ProxyFileMissing];
        proxies := Blanks(|privateKeys|);
      case Unreadable =>
        return ReadRaised;
      case Contents(lines) =>
        proxies := CleanLines(lines);
    }
    assert forall i :: 0 <= i < |proxies| ==> proxies[i] == ProxyFor(proxyFile, i);
    if |proxies| < |privateKeys| {
      warnings := warnings + [FewerProxies(|proxies|, |privateKeys|)];
      ghost var short := proxies;
      proxies := proxies + Blanks(|privateKeys| - |proxies|);
      assert forall i :: |short| <= i < |proxies| ==> proxies[i] == "";
    }
    var accounts := ZipAccounts(privateKeys, proxies);
    r := Loaded(accounts, warnings);
  }
}
