/**
 * Start-up configuration of the proxy: the upstream URL, the TLS verification
 * mode taken from `SSL_VERIFY`, and the proxy's own service-account token taken
 * from the `authorization` value of the cluster client configuration.
 */
module Config {
  import opened Wrappers
  import Strings

  /** How upstream TLS certificates are checked: against system roots, not at all, or against a CA bundle file. */
  datatype SslVerify = Verify | NoVerify | CaBundle(path: string)

  const ServiceCaPath := "/var/run/secrets/kubernetes.io/serviceaccount/service-ca.crt"

  const MissingUpstreamMessage := "Missing upstream Prometheus URL in environment variable 'UPSTREAM'!"

  datatype ProxyConfig = ProxyConfig(upstream: string, sslVerify: SslVerify, serviceAccountToken: string)

  function LowerChar(c: char): char {
    if 'A' <= c <= 'Z' then (c as int + 32) as char else c
  }

  /** `str.lower()` on ASCII letters; other characters are kept. */
  function Lower(s: string): (r: string)
    ensures |r| == |s|
    ensures forall i :: 0 <= i < |r| ==> !('A' <= r[i] <= 'Z')
    ensures forall i :: 0 <= i < |s| && !('A' <= s[i] <= 'Z') ==> r[i] == s[i]
    ensures forall i :: 0 <= i < |s| && 'A' <= s[i] <= 'Z' ==> r[i] as int == s[i] as int + 32
  {
    seq(|s|, i requires 0 <= i < |s| => LowerChar(s[i]))
  }

  /** `s` spells `word` (a lower-case word) in any mix of upper and lower case. */
  predicate SameIgnoringCase(s: string, word: string) {
    |s| == |word| && forall i :: 0 <= i < |s| ==> LowerChar(s[i]) == word[i]
  }

  lemma LowerIdempotent(s: string)
    ensures Lower(Lower(s)) == Lower(s)
  {
    assert forall i :: 0 <= i < |s| ==> LowerChar(LowerChar(s[i])) == LowerChar(s[i]);
  }

  /**
   * The stderr text for a rejected `SSL_VERIFY` value as the program writes it:
   * the literal is not an f-string, so the braces are printed as they stand and
   * the value never appears.
   */
  const InvalidSslVerifyMessageAsWritten := "Invalid value '" + Placeholder + "' in environment variable 'SSL_VERIFY'"

  /** The replacement field that stays uninterpolated in that message. */
  const Placeholder := "{self.ssl_verify}"

  /** The evidently intended text, naming the (lower-cased) rejected value. */
  function InvalidSslVerifyMessage(value: string): string {
    "Invalid value '" + value + "' in environment variable 'SSL_VERIFY'"
  }

  /**
   * As written, every rejected value gets the same message, and it is the
   * intended one only for the value that literally reads `{self.ssl_verify}`.
   */
  lemma AsWrittenMessageOmitsValue(a: string, b: string)
    requires ParseSslVerify(Some(a)).Err? && ParseSslVerify(Some(b)).Err?
    ensures ParseSslVerify(Some(a)) == ParseSslVerify(Some(b))
    ensures ParseSslVerify(Some(a)).error == InvalidSslVerifyMessage(Lower(a)) <==> Lower(a) == Placeholder
  {
    assert InvalidSslVerifyMessageAsWritten == InvalidSslVerifyMessage(Placeholder);
    if ParseSslVerify(Some(a)).error == InvalidSslVerifyMessage(Lower(a)) {
      InvalidSslVerifyMessageNamesValue(Lower(a), Placeholder);
    }
  }

  /** Corrected: the intended message determines the rejected value. */
  lemma InvalidSslVerifyMessageNamesValue(a: string, b: string)
    requires InvalidSslVerifyMessage(a) == InvalidSslVerifyMessage(b)
    ensures a == b
  {
    var m := InvalidSslVerifyMessage(a);
    assert |a| == |b|;
    assert m[15..15 + |a|] == a;
    assert InvalidSslVerifyMessage(b)[15..15 + |b|] == b;
  }

  /** `SSL_VERIFY` (default `true`), lower-cased, mapped to a verification mode or rejected with the message the program prints. */
  function ParseSslVerify(env: Option<string>): (r: Result<SslVerify, string>)
    ensures env.None? ==> r == Ok(Verify)
    ensures r.Err? ==> r.error == InvalidSslVerifyMessageAsWritten
    ensures r.Ok? && r.value.CaBundle? ==> r.value.path == ServiceCaPath
  {
    var value := Lower(env.GetOr("true"));
    if value == "true" then Ok(Verify)
    else if value == "false" then Ok(NoVerify)
    else if value == "service" then Ok(CaBundle(ServiceCaPath))
    else Err(InvalidSslVerifyMessageAsWritten)
  }

  lemma LowerEquals(s: string, word: string)
    requires Lower(word) == word
    ensures Lower(s) == word <==> SameIgnoringCase(s, word)
  {
    if SameIgnoringCase(s, word) {
      assert Lower(s) == word;
    }
  }

  /**
   * An unset `SSL_VERIFY` verifies; a set one is read without regard to case:
   * `true`, `false` and `service` select the three modes and every other value is rejected.
   */
  lemma SslVerifyModes(env: Option<string>)
    ensures env.None? ==> ParseSslVerify(env) == Ok(Verify)
    ensures env.Some? ==>
      (ParseSslVerify(env) == Ok(Verify) <==> SameIgnoringCase(env.value, "true")) &&
      (ParseSslVerify(env) == Ok(NoVerify) <==> SameIgnoringCase(env.value, "false")) &&
      (ParseSslVerify(env) == Ok(CaBundle(ServiceCaPath)) <==> SameIgnoringCase(env.value, "service")) &&
      (ParseSslVerify(env).Err? <==>
        !SameIgnoringCase(env.value, "true") && !SameIgnoringCase(env.value, "false") &&
        !SameIgnoringCase(env.value, "service"))
  {
    if env.Some? {
      LowerEquals(env.value, "true");
      LowerEquals(env.value, "false");
      LowerEquals(env.value, "service");
    }
  }

  /** The mode depends only on the lower-cased value. */
  lemma SslVerifyIgnoresCase(s: string)
    ensures ParseSslVerify(Some(s)) == ParseSslVerify(Some(Lower(s)))
  {
    LowerIdempotent(s);
  }

  /** The `authorization` value the client sends for a token. */
  function BearerHeader(token: string): string {
    "Bearer " + token
  }

  /** The text after the first space of the `authorization` value, or `''` when it has no space. */
  function ServiceAccountToken(authorization: string): (token: string)
    ensures ' ' !in authorization ==> token == ""
    ensures ' ' in authorization ==> exists scheme ::
      ' ' !in scheme && authorization == scheme + " " + token
  {
    var (scheme, found, rest) := Strings.Partition(authorization, ' ');
    assert found ==> authorization == scheme + " " + rest;
    rest
  }

  /** The token is recovered from its `Bearer` authorization value, spaces inside it included. */
  lemma TokenRoundTrip(token: string)
    ensures ServiceAccountToken(BearerHeader(token)) == token
  {
    var h := BearerHeader(token);
    assert h == "Bearer" + [' '] + token;
    Strings.IndexOfAfterPrefix("Bearer", ' ', token);
    assert h[..6] == "Bearer" && h[7..] == token;
  }

  /** `SSL_VERIFY` is accepted: unset, or one of the three mode words in any case. */
  predicate AcceptedSslVerify(env: Option<string>) {
    env.None? || SameIgnoringCase(env.value, "true") || SameIgnoringCase(env.value, "false") ||
    SameIgnoringCase(env.value, "service")
  }

  /**
   * `ProxyConfig()`: fails when `UPSTREAM` is unset or empty, or when `SSL_VERIFY`
   * is rejected; otherwise records the upstream, the mode and the token.
   */
  function LoadConfig(upstream: Option<string>, sslVerify: Option<string>, authorization: string): (r: Result<ProxyConfig, string>)
    ensures r.Ok? <==> upstream.Some? && upstream.value != "" && AcceptedSslVerify(sslVerify)
    ensures (upstream.None? || upstream.value == "") ==> r == Err(MissingUpstreamMessage)
    ensures upstream.Some? && upstream.value != "" && !AcceptedSslVerify(sslVerify) ==>
      r == Err(InvalidSslVerifyMessageAsWritten)
    ensures r.Ok? ==> r.value.upstream == upstream.value
    ensures r.Ok? ==>
      (r.value.sslVerify == Verify <==> sslVerify.None? || SameIgnoringCase(sslVerify.value, "true")) &&
      (r.value.sslVerify == NoVerify <==> sslVerify.Some? && SameIgnoringCase(sslVerify.value, "false")) &&
      (r.value.sslVerify == CaBundle(ServiceCaPath) <==> sslVerify.Some? && SameIgnoringCase(sslVerify.value, "service"))
    ensures r.Ok? && ' ' !in authorization ==> r.value.serviceAccountToken == ""
    ensures r.Ok? && ' ' in authorization ==> exists scheme ::
      ' ' !in scheme && authorization == scheme + " " + r.value.serviceAccountToken
  {
    SslVerifyModes(sslVerify);
    if upstream.None? || upstream.value == "" then Err(MissingUpstreamMessage)
    else
      match ParseSslVerify(sslVerify)
      case Err(e) => Err(e)
      case Ok(mode) => Ok(ProxyConfig(upstream.value, mode, ServiceAccountToken(authorization)))
  }
}
