/** Command-line post-processing: environment lookups, endpoint construction
    and the settings they fill in, as api/src/gits/flags/parse.go does it, and
    as the older api/src/gits/flags.go does it.

    The process environment is a map from variable name to value (a missing
    key is an unset variable); the flag values arrive already parsed. A fatal
    log is an `Err` carrying the message.
 */
module Flags {
  import opened Wrappers
  import Strings
  import Config

  type Environment = map<string, string>

  /** `os.LookupEnv` with the value discarded on absence, as `v, _ :=` does. */
  function EnvValue(env: Environment, name: string): string {
    if name in env then env[name] else ""
  }

  function MissingVariable(param: string, envVar: string): string {
    "`-" + param + " " + envVar + "` is set but variable not found in process environment, try `gits -h` or `gits -no_ext_api_calls`"
  }

  /** `lookupEnv`: no variable named means "", a named variable must exist
      (but may be empty). */
  function LookupEnv(env: Environment, envVar: string, param: string): (r: Result<string>)
    ensures envVar == "" ==> r == Ok("")
    ensures envVar != "" ==> (r.Ok? <==> envVar in env)
    ensures envVar != "" && envVar in env ==> r == Ok(env[envVar])
    ensures r.Err? ==> r.error == MissingVariable(param, envVar)
  {
    if envVar == "" then Ok("")
    else if envVar !in env then Err(MissingVariable(param, envVar))
    else Ok(env[envVar])
  }

  /** The scheme for a port: TLS exactly on 443. */
  function Scheme(port: string): (r: string)
    ensures r == "https" <==> port == "443"
    ensures r == "http" || r == "https"
  {
    if port == "443" then "https" else "http"
  }

  /** The port as written in the URL: left out for the default ports. */
  function PortSuffix(port: string): (r: string)
    ensures r == "" <==> port == "80" || port == "443"
    ensures r != "" ==> r == ":" + port
  {
    if port == "80" || port == "443" then "" else ":" + port
  }

  /** `fmt.Sprintf("%s://%s%s", proto, host, port)`. */
  function EndpointUrl(host: string, port: string): string {
    Scheme(port) + "://" + host + PortSuffix(port)
  }

  /** Reading an endpoint back: the scheme, the host up to the first ':', and
      the port, defaulting to the scheme's port. */
  function ParseEndpoint(url: string): (r: Option<(string, string)>)
    ensures r.Some? <==> Strings.HasPrefix(url, "https://") || Strings.HasPrefix(url, "http://")
    ensures Strings.HasPrefix(url, "https://") && ':' !in url[8..] ==> r == Some((url[8..], "443"))
    ensures Strings.HasPrefix(url, "http://") && ':' !in url[7..] ==> r == Some((url[7..], "80"))
  {
    if Strings.HasPrefix(url, "https://") then
      assert url[4] == "https://"[4] != "http://"[4];
      HostAndPort(url[8..], "443")
    else if Strings.HasPrefix(url, "http://") then HostAndPort(url[7..], "80")
    else None
  }

  /** The host and port of the part after the scheme. */
  function HostAndPort(hostPort: string, defaultPort: string): (r: Option<(string, string)>)
    ensures r.Some?
    ensures ':' !in hostPort ==> r.value == (hostPort, defaultPort)
    ensures ':' in hostPort ==> ':' !in r.value.0 && r.value.0 + ":" + r.value.1 == hostPort
  {
    var parts := Strings.SplitN2(hostPort, ':');
    if |parts| == 2 then Some((parts[0], parts[1])) else Some((hostPort, defaultPort))
  }

  /** The endpoint built from a host and a port names that host and port,
      when the host has no ':' and the port is set. */
  lemma EndpointUrlRoundTrip(host: string, port: string)
    requires ':' !in host && port != ""
    ensures ParseEndpoint(EndpointUrl(host, port)) == Some((host, port))
  {
    ParseScheme(host, port);
    HostAndPortOfSuffix(host, port);
  }

  /** The default port of the scheme chosen for `port`. */
  function DefaultPort(port: string): string {
    if port == "443" then "443" else "80"
  }

  /** Reading back the scheme of an endpoint leaves the host and the port as
      written. */
  lemma ParseScheme(host: string, port: string)
    ensures ParseEndpoint(EndpointUrl(host, port)) == HostAndPort(host + PortSuffix(port), DefaultPort(port))
  {
    var rest := host + PortSuffix(port);
    if port == "443" {
      assert EndpointUrl(host, port) == "https://" + rest;
      ParseHttps(rest);
    } else {
      assert EndpointUrl(host, port) == "http://" + rest;
      ParseHttp(rest);
    }
  }

  lemma ParseHttps(rest: string)
    ensures ParseEndpoint("https://" + rest) == HostAndPort(rest, "443")
  {
    var url := "https://" + rest;
    assert url[..8] == "https://";
    assert url[8..] == rest;
  }

  lemma ParseHttp(rest: string)
    ensures ParseEndpoint("http://" + rest) == HostAndPort(rest, "80")
  {
    var url := "http://" + rest;
    assert url[..7] == "http://";
    assert url[7..] == rest;
    assert !Strings.HasPrefix(url, "https://") by {
      assert url[4] == ':';
    }
  }

  /** A host without ':' followed by the port as written in a URL reads back
      as that host and port. */
  lemma HostAndPortOfSuffix(host: string, port: string)
    requires ':' !in host && port != ""
    ensures HostAndPort(host + PortSuffix(port), DefaultPort(port)) == Some((host, port))
  {
    if PortSuffix(port) != "" {
      assert host + PortSuffix(port) == host + [':'] + port;
      SplitN2At(host, ':', port);
    } else {
      assert host + PortSuffix(port) == host;
      assert Strings.IndexOf(host, ':') == -1;
    }
  }

  /** Splitting once at a separator that the first part does not contain. */
  lemma SplitN2At(a: string, sep: char, b: string)
    requires sep !in a
    ensures Strings.SplitN2(a + [sep] + b, sep) == [a, b]
  {
    var s := a + [sep] + b;
    var p := Strings.SplitN2(s, sep);
    assert s[|a|] == sep;
    assert |p| == 2;
    assert forall i :: 0 <= i < |a| ==> s[i] == a[i] && s[i] != sep;
    assert forall i :: 0 <= i < |p[0]| ==> s[i] == p[0][i] && s[i] != sep;
    assert s[|p[0]|] == sep;
    assert |p[0]| == |a|;
    assert p[0] == s[..|a|] == a;
    assert p[1] == s[|a| + 1..] == b;
  }

  function PortError(param: string, hostEnv: string): string {
    "-" + param + "_api_port_env " + hostEnv + " env var must point to API port"
  }

  function NoEndpointError(param: string): string {
    "One of -" + param + "_api_endpoint, -" + param + "_api_endpoint_env, -" + param + "_api_host_env must be set"
  }

  /** `lookupEndpoint`: the explicit flag, else a non-empty endpoint variable,
      else a URL from a non-empty host variable and the port variable (80 when
      no port variable is named; fatal when it is named but unset or empty),
      else fatal. */
  function LookupEndpoint(env: Environment, endpoint: string, endpointEnv: string, hostEnv: string,
                          portEnv: string, param: string): (r: Result<string>)
    ensures endpoint != "" ==> r == Ok(endpoint)
    ensures endpoint == "" && endpointEnv != "" && EnvValue(env, endpointEnv) != "" ==>
      r == Ok(EnvValue(env, endpointEnv))
    ensures endpoint == "" && (endpointEnv == "" || EnvValue(env, endpointEnv) == "") ==>
      (if hostEnv == "" || EnvValue(env, hostEnv) == "" then r == Err(NoEndpointError(param))
       else if portEnv == "" then r == Ok(EndpointUrl(EnvValue(env, hostEnv), "80"))
       else if EnvValue(env, portEnv) == "" then r == Err(PortError(param, hostEnv))
       else r == Ok(EndpointUrl(EnvValue(env, hostEnv), EnvValue(env, portEnv))))
  {
    if endpoint != "" then Ok(endpoint)
    else if endpointEnv != "" && EnvValue(env, endpointEnv) != "" then Ok(EnvValue(env, endpointEnv))
    else if hostEnv != "" && EnvValue(env, hostEnv) != "" then
      var host := EnvValue(env, hostEnv);
      if portEnv != "" && (portEnv !in env || env[portEnv] == "") then Err(PortError(param, hostEnv))
      else
        var port := if portEnv != "" then env[portEnv] else "80";
        Ok(Scheme(port) + "://" + host + PortSuffix(port))
    else Err(NoEndpointError(param))
  }

  /** A URL built from the host and port variables names exactly that host and
      port (TLS on 443), when the host has no ':'. */
  lemma LookupEndpointFromHost(env: Environment, hostEnv: string, portEnv: string, param: string)
    requires hostEnv != "" && EnvValue(env, hostEnv) != "" && ':' !in EnvValue(env, hostEnv)
    requires portEnv != "" && EnvValue(env, portEnv) != ""
    ensures var r := LookupEndpoint(env, "", "", hostEnv, portEnv, param);
      r.Ok? && ParseEndpoint(r.value) == Some((EnvValue(env, hostEnv), EnvValue(env, portEnv))) &&
      (Strings.HasPrefix(r.value, "https://") <==> EnvValue(env, portEnv) == "443")
  {
    var host := EnvValue(env, hostEnv);
    var port := EnvValue(env, portEnv);
    assert LookupEndpoint(env, "", "", hostEnv, portEnv, param) == Ok(EndpointUrl(host, port));
    EndpointUrlRoundTrip(host, port);
    TlsExactlyOn443(host, port);
  }

  /** An endpoint URL starts with "https://" exactly when the port is 443. */
  lemma TlsExactlyOn443(host: string, port: string)
    ensures Strings.HasPrefix(EndpointUrl(host, port), "https://") <==> port == "443"
  {
    var url := EndpointUrl(host, port);
    if port != "443" {
      assert url[4] == ':';
    } else {
      assert url[..8] == "https://";
    }
  }

  function LegacyHostEnvError(): string {
    "-hub_api_host_env or -hub_api must be set"
  }

  function LegacyHostError(param: string, hostEnv: string): string {
    "-" + param + "_api_host_env " + hostEnv + " env var must point to API host"
  }

  /** The older `lookupEndpoint` as written: the port read from the port
      variable is a new variable in an inner block, so the URL is built with the
      default port whatever the variable says. */
  function LegacyLookupEndpoint(env: Environment, endpoint: string, hostEnv: string, portEnv: string,
                                param: string): (r: Result<string>)
    ensures endpoint != "" ==> r == Ok(endpoint)
    ensures endpoint == "" && hostEnv == "" ==> r == Err(LegacyHostEnvError())
    ensures endpoint == "" && hostEnv != "" && EnvValue(env, hostEnv) == "" ==> r == Err(LegacyHostError(param, hostEnv))
    ensures (endpoint == "" && hostEnv != "" && EnvValue(env, hostEnv) != "" && portEnv != "" &&
      EnvValue(env, portEnv) == "") ==> r == Err(PortError(param, hostEnv))
    ensures endpoint == "" && r.Ok? ==> r.value == "http://" + EnvValue(env, hostEnv)
  {
    if endpoint != "" then Ok(endpoint)
    else if hostEnv == "" then Err(LegacyHostEnvError())
    else if hostEnv !in env || env[hostEnv] == "" then Err(LegacyHostError(param, hostEnv))
    else
      var host := env[hostEnv];
      var port := "80";
      if portEnv != "" && (portEnv !in env || env[portEnv] == "") then Err(PortError(param, hostEnv))
      else Ok(Scheme(port) + "://" + host + PortSuffix(port))
  }

  /** The port is lost: a host on port 8443 is addressed as plain HTTP on port 80. */
  lemma LegacyEndpointLosesPort()
    ensures var env := map["HUB_SERVICE_HOST" := "hub", "HUB_SERVICE_PORT" := "8443"];
      LegacyLookupEndpoint(env, "", "HUB_SERVICE_HOST", "HUB_SERVICE_PORT", "hub") == Ok("http://hub") &&
      ParseEndpoint("http://hub") == Some(("hub", "80"))
  {
    var env := map["HUB_SERVICE_HOST" := "hub", "HUB_SERVICE_PORT" := "8443"];
    assert EnvValue(env, "HUB_SERVICE_HOST") == "hub";
    var url := "http://hub";
    assert url[4] == ':';
    assert !Strings.HasPrefix(url, "https://");
    assert url[..7] == "http://";
    assert url[7..] == "hub";
    assert ':' !in "hub";
    assert Strings.SplitN2("hub", ':') == ["hub"];
    assert HostAndPort("hub", "80") == Some(("hub", "80"));
    assert "HUB_SERVICE_HOST" != "HUB_SERVICE_PORT";
    assert "HUB_SERVICE_PORT" in env && env["HUB_SERVICE_PORT"] == "8443";
    assert Scheme("80") + "://" + "hub" + PortSuffix("80") == url;
  }

  /** The older lookup as intended: the newer lookup without an endpoint
      variable, which uses the port. It fails exactly where the older one does,
      apart from the wording of the fatal messages, and otherwise keeps the port. */
  function LegacyLookupEndpointIntended(env: Environment, endpoint: string, hostEnv: string, portEnv: string,
                                        param: string): (r: Result<string>)
    ensures r.Ok? <==> LegacyLookupEndpoint(env, endpoint, hostEnv, portEnv, param).Ok?
    ensures endpoint == "" && r.Ok? && portEnv != "" ==> r.value == EndpointUrl(EnvValue(env, hostEnv), EnvValue(env, portEnv))
    ensures endpoint == "" && r.Ok? && portEnv == "" ==> r.value == LegacyLookupEndpoint(env, endpoint, hostEnv, portEnv, param).value
  {
    LookupEndpoint(env, endpoint, "", hostEnv, portEnv, param)
  }

  /** The flag values `Parse` post-processes. */
  datatype ParsedFlags = ParsedFlags(
    settings: Config.Settings,
    blobs: string,
    apiSecretEnv: string,
    hubApiSecretEnv: string,
    authApiSecretEnv: string,
    subsApiSecretEnv: string,
    hubApiEndpoint: string, hubApiEndpointEnv: string, hubApiHostEnv: string, hubApiPortEnv: string,
    authApiEndpoint: string, authApiEndpointEnv: string, authApiHostEnv: string, authApiPortEnv: string,
    subsApiEndpoint: string, subsApiEndpointEnv: string, subsApiHostEnv: string, subsApiPortEnv: string)

  /** The secrets and endpoints of the external services, in the order `Parse`
      looks them up; the first fatal lookup wins. */
  function ExternalSettings(env: Environment, f: ParsedFlags, s: Config.Settings): (r: Result<Config.Settings>)
    ensures r.Ok? ==> (LookupEndpoint(env, f.hubApiEndpoint, f.hubApiEndpointEnv, f.hubApiHostEnv, f.hubApiPortEnv, "hub") ==
      Ok(r.value.hubApiEndpoint))
    ensures r.Ok? ==> LookupEnv(env, f.hubApiSecretEnv, "hub_api_secret_env") == Ok(r.value.hubApiSecret)
    ensures r.Ok? ==> r.value.blobsFrom == s.blobsFrom && r.value.gitApiSecret == s.gitApiSecret
    ensures LookupEnv(env, f.hubApiSecretEnv, "hub_api_secret_env").Err? ==>
      r == Err(LookupEnv(env, f.hubApiSecretEnv, "hub_api_secret_env").error)
  {
    var hubSecret :- LookupEnv(env, f.hubApiSecretEnv, "hub_api_secret_env");
    var authSecret :- LookupEnv(env, f.authApiSecretEnv, "auth_api_secret_env");
    var subsSecret :- LookupEnv(env, f.subsApiSecretEnv, "subs_api_secret_env");
    var hub :- LookupEndpoint(env, f.hubApiEndpoint, f.hubApiEndpointEnv, f.hubApiHostEnv, f.hubApiPortEnv, "hub");
    var auth :- LookupEndpoint(env, f.authApiEndpoint, f.authApiEndpointEnv, f.authApiHostEnv, f.authApiPortEnv, "auth");
    var subs :- LookupEndpoint(env, f.subsApiEndpoint, f.subsApiEndpointEnv, f.subsApiHostEnv, f.subsApiPortEnv, "subs");
    Ok(s.(hubApiSecret := hubSecret, authApiSecret := authSecret, subsApiSecret := subsSecret,
          hubApiEndpoint := hub, authApiEndpoint := auth, subsApiEndpoint := subs))
  }

  /** The blob prefixes: the flag split at ",", or the configured list when the
      flag is empty. */
  function BlobsFrom(blobs: string, configured: seq<string>): (r: seq<string>)
    ensures blobs == "" ==> r == configured
    ensures blobs != "" ==> Strings.Join(r, ",") == blobs && forall i :: 0 <= i < |r| ==> ',' !in r[i]
  {
    if blobs != "" then Strings.Split(blobs, ',') else configured
  }

  /** `Parse` after the flags are read: the API secret, the external services
      only when external calls are on, the blob prefixes, then `Update`. */
  function Parse(env: Environment, f: ParsedFlags): (r: Result<Config.Settings>)
    ensures LookupEnv(env, f.apiSecretEnv, "api_secret_env").Err? ==>
      r == Err(LookupEnv(env, f.apiSecretEnv, "api_secret_env").error)
    ensures r.Ok? ==> r.value.gitApiSecret == LookupEnv(env, f.apiSecretEnv, "api_secret_env").value
    ensures r.Ok? && f.settings.noExtApiCalls ==>
      r.value.hubApiEndpoint == f.settings.hubApiEndpoint && r.value.hubApiSecret == f.settings.hubApiSecret
    ensures r.Ok? && !f.settings.noExtApiCalls ==>
      LookupEndpoint(env, f.hubApiEndpoint, f.hubApiEndpointEnv, f.hubApiHostEnv, f.hubApiPortEnv, "hub") ==
        Ok(r.value.hubApiEndpoint)
    ensures r.Ok? ==> r.value.blobsFrom == BlobsFrom(f.blobs, f.settings.blobsFrom)
    ensures r.Ok? ==> (r.value.trace ==> r.value.debug) && (r.value.debug ==> r.value.verbose)
  {
    var secret :- LookupEnv(env, f.apiSecretEnv, "api_secret_env");
    var s := f.settings.(gitApiSecret := secret);
    var s :- if !s.noExtApiCalls then ExternalSettings(env, f, s) else Ok(s);
    var s := s.(blobsFrom := BlobsFrom(f.blobs, s.blobsFrom));
    Config.Update(s)
  }

  /** With external calls off no external variable is read: changing the
      environment outside the API secret's variable changes nothing. */
  lemma NoExtCallsReadsOnlySecret(env1: Environment, env2: Environment, f: ParsedFlags)
    requires f.settings.noExtApiCalls
    requires LookupEnv(env1, f.apiSecretEnv, "api_secret_env") == LookupEnv(env2, f.apiSecretEnv, "api_secret_env")
    ensures Parse(env1, f) == Parse(env2, f)
  {
  }

  /** The flag values the older `parseFlags` post-processes. The endpoints
      given by `-hub_api` and `-auth_api` are already in `settings`. */
  datatype LegacyFlags = LegacyFlags(
    settings: Config.Settings,
    blobs: string,
    apiSecretEnv: string,
    hubApiSecretEnv: string,
    authApiSecretEnv: string,
    hubApiHostEnv: string, hubApiPortEnv: string,
    authApiHostEnv: string, authApiPortEnv: string)

  /** The older `parseFlags` as written: the endpoint lookups are given local
      variables that no flag sets, so with external calls on the endpoints of
      `-hub_api` and `-auth_api` are replaced by (or fail for want of) the host
      variables. */
  function LegacyParse(env: Environment, f: LegacyFlags): (r: Result<Config.Settings>)
    ensures r.Ok? && !f.settings.noExtApiCalls ==>
      LegacyLookupEndpoint(env, "", f.hubApiHostEnv, f.hubApiPortEnv, "hub") == Ok(r.value.hubApiEndpoint)
    ensures r.Ok? && f.settings.noExtApiCalls ==> r.value.hubApiEndpoint == f.settings.hubApiEndpoint
  {
    LegacyParseWith(env, f, false, "", "")
  }

  /** The endpoint lookup of the older code, as written or as intended. */
  function LegacyLookup(intended: bool, env: Environment, endpoint: string, hostEnv: string, portEnv: string,
                        param: string): Result<string> {
    if intended then LegacyLookupEndpointIntended(env, endpoint, hostEnv, portEnv, param)
    else LegacyLookupEndpoint(env, endpoint, hostEnv, portEnv, param)
  }

  /** The older post-processing with the endpoints handed to the lookups,
      which are the written ones or the intended ones. */
  function LegacyParseWith(env: Environment, f: LegacyFlags, intended: bool, hubEndpoint: string, authEndpoint: string): (r: Result<Config.Settings>)
    ensures LookupEnv(env, f.apiSecretEnv, "api_secret_env").Err? ==>
      r == Err(LookupEnv(env, f.apiSecretEnv, "api_secret_env").error)
    ensures r.Ok? && !f.settings.noExtApiCalls ==>
      LegacyLookup(intended, env, hubEndpoint, f.hubApiHostEnv, f.hubApiPortEnv, "hub") == Ok(r.value.hubApiEndpoint) &&
      LegacyLookup(intended, env, authEndpoint, f.authApiHostEnv, f.authApiPortEnv, "auth") == Ok(r.value.authApiEndpoint)
    ensures r.Ok? && f.settings.noExtApiCalls ==>
      r.value.hubApiEndpoint == f.settings.hubApiEndpoint && r.value.authApiEndpoint == f.settings.authApiEndpoint
    ensures r.Ok? ==> r.value.blobsFrom == BlobsFrom(f.blobs, f.settings.blobsFrom)
  {
    var secret :- LookupEnv(env, f.apiSecretEnv, "api_secret_env");
    var s := f.settings.(gitApiSecret := secret);
    var s :- if !s.noExtApiCalls then LegacyExternal(env, f, s, intended, hubEndpoint, authEndpoint) else Ok(s);
    var s := s.(blobsFrom := BlobsFrom(f.blobs, s.blobsFrom));
    Config.Update(s)
  }

  function LegacyExternal(env: Environment, f: LegacyFlags, s: Config.Settings, intended: bool,
                          hubEndpoint: string, authEndpoint: string): (r: Result<Config.Settings>)
    ensures r.Ok? ==>
      LegacyLookup(intended, env, hubEndpoint, f.hubApiHostEnv, f.hubApiPortEnv, "hub") == Ok(r.value.hubApiEndpoint) &&
      LegacyLookup(intended, env, authEndpoint, f.authApiHostEnv, f.authApiPortEnv, "auth") == Ok(r.value.authApiEndpoint)
    ensures r.Ok? ==> r.value.blobsFrom == s.blobsFrom
  {
    var hubSecret :- LookupEnv(env, f.hubApiSecretEnv, "hub_api_secret_env");
    var authSecret :- LookupEnv(env, f.authApiSecretEnv, "auth_api_secret_env");
    var hub :- LegacyLookup(intended, env, hubEndpoint, f.hubApiHostEnv, f.hubApiPortEnv, "hub");
    var auth :- LegacyLookup(intended, env, authEndpoint, f.authApiHostEnv, f.authApiPortEnv, "auth");
    Ok(s.(hubApiSecret := hubSecret, authApiSecret := authSecret, hubApiEndpoint := hub, authApiEndpoint := auth))
  }

  /** As written, an explicit `-hub_api` is overridden: with no host variable
      set, start-up fails although the endpoint was given. */
  lemma LegacyParseIgnoresHubApi(f: LegacyFlags)
    requires !f.settings.noExtApiCalls && f.settings.hubApiEndpoint != ""
    requires f.apiSecretEnv == "" && f.hubApiSecretEnv == "" && f.authApiSecretEnv == "" && f.hubApiHostEnv == ""
    ensures LegacyParse(map[], f) == Err(LegacyHostEnvError())
  {
  }

  /** The older `parseFlags` as intended: the lookups keep the port, and
      receive the `-hub_api` and `-auth_api` values, which are then kept. */
  function LegacyParseIntended(env: Environment, f: LegacyFlags): (r: Result<Config.Settings>)
    ensures r.Ok? && f.settings.hubApiEndpoint != "" ==> r.value.hubApiEndpoint == f.settings.hubApiEndpoint
    ensures r.Ok? && f.settings.authApiEndpoint != "" ==> r.value.authApiEndpoint == f.settings.authApiEndpoint
    ensures r.Ok? && !f.settings.noExtApiCalls && f.settings.hubApiEndpoint == "" && f.hubApiPortEnv != "" ==>
      r.value.hubApiEndpoint == EndpointUrl(EnvValue(env, f.hubApiHostEnv), EnvValue(env, f.hubApiPortEnv))
  {
    LegacyParseWith(env, f, true, f.settings.hubApiEndpoint, f.settings.authApiEndpoint)
  }

  /** As intended, the configuration that the written code refuses starts up
      with the endpoints it was given. */
  lemma LegacyParseIntendedAcceptsHubApi(f: LegacyFlags)
    requires !f.settings.noExtApiCalls && f.settings.hubApiEndpoint != "" && f.settings.authApiEndpoint != ""
    requires f.apiSecretEnv == "" && f.hubApiSecretEnv == "" && f.authApiSecretEnv == ""
    requires f.blobs == "" && Config.FirstBadBlob(f.settings.blobsFrom).None? && f.settings.repoDir != "/"
    ensures LegacyParseIntended(map[], f).Ok?
    ensures LegacyParseIntended(map[], f).value.hubApiEndpoint == f.settings.hubApiEndpoint
  {
  }
}
