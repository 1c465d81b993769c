/**
 * The choice of HTTP provider in HumanityProtocolBot.setup_blockchain_connection:
 * through the account's proxy with a 30-second request timeout, or direct.
 */
module Connection {
  import opened Options
  import opened Proxy

  /** The request timeout, in seconds, of a proxied provider. */
  const ProxiedTimeout: nat := 30

  /** An `HTTPProvider`: the node URL, the session's proxy map (None for no
      session) and the explicit request timeout (None for web3's default). */
  datatype Provider = Provider(url: string, proxies: Option<ProxyConfig>, timeout: Option<nat>)

  /** A proxied provider exactly when the proxy is non-empty and formats to a
      proxy map; a direct one otherwise. Since formatting fails only on empty
      input, the session always carries what format_proxy returns. */
  function ProviderFor(rpcUrl: string, proxy: Option<string>): (p: Provider)
    ensures p.url == rpcUrl
    ensures p.proxies.Some? <==> proxy.Some? && proxy.value != ""
    ensures p.proxies == FormatProxy(proxy)
    ensures p.timeout == if p.proxies.Some? then Some(ProxiedTimeout) else None
  {
    if proxy.Some? && proxy.value != "" then
      var formatted := FormatProxy(proxy);
      if formatted.Some? then Provider(rpcUrl, formatted, Some(ProxiedTimeout))
      else Provider(rpcUrl, None, None)
    else
      Provider(rpcUrl, None, None)
  }
}
