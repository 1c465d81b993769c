/**
 * Normalisation of a raw proxy string into the `{http, https}` proxy map a
 * requests session takes (HumanityProtocolBot.format_proxy).
 */
module Proxy {
  import opened Options

  /** The session's proxy map: the proxy URL used for http and for https. */
  datatype ProxyConfig = ProxyConfig(http: string, https: string)

  const Socks5Scheme: string := "socks5://"
  const HttpScheme: string := "http://"
  const HttpsScheme: string := "https://"

  /** The case-sensitive `startswith` tests of format_proxy. */
  predicate HasScheme(proxy: string)
    ensures HasScheme(proxy) ==>
      |proxy| >= |HttpScheme| && (proxy[..4] == "http" || proxy[..6] == "socks5")
  {
    Socks5Scheme <= proxy || HttpScheme <= proxy || HttpsScheme <= proxy
  }

  /** Python's `format_proxy`: an absent or empty proxy gives no proxy, a
      proxy with a scheme is used as it is, anything else is taken to be a
      bare `host:port` and gets an `http://` scheme. */
  function FormatProxy(proxy: Option<string>): (r: Option<ProxyConfig>)
    ensures r.None? <==> (proxy.None? || proxy.value == "")
    ensures r.Some? ==> r.value.http == r.value.https && HasScheme(r.value.http)
    ensures r.Some? && HasScheme(proxy.value) ==> r.value.http == proxy.value
    ensures r.Some? && !HasScheme(proxy.value) ==> r.value.http == HttpScheme + proxy.value
  {
    if proxy.None? || proxy.value == "" then None
    else if Socks5Scheme <= proxy.value then Some(ProxyConfig(proxy.value, proxy.value))
    else if HttpScheme <= proxy.value || HttpsScheme <= proxy.value then Some(ProxyConfig(proxy.value, proxy.value))
    else
      var url := HttpScheme + proxy.value;
      assert url[..|HttpScheme|] == HttpScheme;
      Some(ProxyConfig(url, url))
  }

  /** Formatting an already formatted proxy changes nothing. */
  lemma FormatProxyIdempotent(proxy: string)
    requires proxy != ""
    ensures FormatProxy(Some(FormatProxy(Some(proxy)).value.http)) == FormatProxy(Some(proxy))
  {
  }

  /** The formatted URL keeps the raw proxy: it is the URL itself when the
      proxy has a scheme, and the URL with the added `http://` dropped
      otherwise. */
  lemma FormatProxyKeepsInput(proxy: string)
    requires proxy != ""
    ensures var url := FormatProxy(Some(proxy)).value.http;
            proxy == (if HasScheme(proxy) then url else url[|HttpScheme|..])
  {
  }

  /** The URL alone does not determine the raw proxy: a proxy without a
      scheme and the same proxy with `http://` written in front are
      formatted alike. */
  lemma FormatProxySchemelessCollides(proxy: string)
    requires proxy != "" && !HasScheme(proxy)
    ensures Some(proxy) != Some(HttpScheme + proxy)
    ensures FormatProxy(Some(proxy)) == FormatProxy(Some(HttpScheme + proxy))
  {
    assert (HttpScheme + proxy)[..|HttpScheme|] == HttpScheme;
  }
}
