/**
 * `load_config_from_spring_config`: the request sent to a Spring Cloud
 * Config Server, the merge of the property sources it answers with (later
 * sources win) and the coercion of `"true"`/`"false"` and digit strings.
 * The HTTP exchange is an abstract function from request to response.
 */
module SpringConfig {
  import opened Wrappers
  import opened Text
  import opened Json

  /** What `requests.get` is called with; `timeout=10` is not modelled. */
  datatype Request = Request(url: string, auth: Option<(string, string)>)

  /** One entry of `propertySources`; `source` is absent when the server left it out. */
  datatype PropertySource = PropertySource(source: Option<Object>)

  /**
   * What the server exchange yields: a failure of the request, of
   * `raise_for_status()` or of `response.json()` (all `RequestException`s),
   * or a decoded body. `propertySources` is `None` both for an empty body and
   * for a body without that key.
   */
  datatype Response =
    | RequestFailed(reason: string)
    | Received(propertySources: Option<seq<PropertySource>>)

  /** The outcome of the call: the merged configuration, or the exception it raises. */
  datatype LoadResult =
    | Loaded(config: Object)
    | RaisedValueError(message: string)
    | RaisedException(message: string)

  const MissingUrlMessage := "Spring Config Server URL not provided"
  const NetworkErrorPrefix := "Network error connecting to Config Server: "
  const InvalidFormatMessage := "Configuration error: Invalid configuration format received from server"

  /** Python truthiness of an optional string argument. */
  predicate Given(s: Option<string>) {
    s.Some? && s.value != ""
  }

  /** The credentials of the request: a pair only when both parts are given. */
  function AuthFor(username: Option<string>, password: Option<string>): (auth: Option<(string, string)>)
    ensures auth.Some? <==> Given(username) && Given(password)
    ensures auth.Some? ==> auth.value == (username.value, password.value)
  {
    if Given(username) && Given(password) then Some((username.value, password.value)) else None
  }

  /** The request for `app_name` and `profile` at `server`: `<server>/<app_name>/<profile>`. */
  function RequestFor(server: string, appName: string, profile: string,
                      username: Option<string>, password: Option<string>): (r: Request)
    ensures r.url == server + "/" + appName + "/" + profile
    ensures r.auth == AuthFor(username, password)
  {
    Request(server + "/" + appName + "/" + profile, AuthFor(username, password))
  }

  /** `source.get("source", {})`. */
  function SourceOf(p: PropertySource): Object {
    if p.source.Some? then p.source.value else map[]
  }

  /** `config.update(...)` over the sources, in order: a later source overrides an earlier one. */
  function Merge(sources: seq<PropertySource>): Object {
    if sources == [] then map[] else Merge(sources[..|sources| - 1]) + SourceOf(sources[|sources| - 1])
  }

  /** A key is in the merge exactly when some source defines it. */
  lemma {:induction false} MergeKeys(sources: seq<PropertySource>, k: string)
    ensures k in Merge(sources) <==> exists i :: 0 <= i < |sources| && k in SourceOf(sources[i])
  {
    if sources != [] {
      var init := sources[..|sources| - 1];
      MergeKeys(init, k);
      if k in Merge(init) {
        var i :| 0 <= i < |init| && k in SourceOf(init[i]);
        assert sources[i] == init[i];
      }
      if exists i :: 0 <= i < |sources| && k in SourceOf(sources[i]) {
        var i :| 0 <= i < |sources| && k in SourceOf(sources[i]);
        if i < |init| {
          assert init[i] == sources[i];
        }
      }
    }
  }

  /** The merged value of a key is the one of the last source that defines it. */
  lemma {:induction false} MergeLastWins(sources: seq<PropertySource>, i: nat, k: string)
    requires i < |sources| && k in SourceOf(sources[i])
    requires forall j :: i < j < |sources| ==> k !in SourceOf(sources[j])
    ensures k in Merge(sources) && Merge(sources)[k] == SourceOf(sources[i])[k]
  {
    var last := |sources| - 1;
    if i < last {
      var init := sources[..last];
      forall j | i < j < |init| ensures k !in SourceOf(init[j]) {
        assert init[j] == sources[j];
      }
      assert init[i] == sources[i];
      MergeLastWins(init, i, k);
    }
  }

  /** The coercion of one value: booleans first, then all-digit strings. */
  function CoerceValue(v: JsonValue): (r: JsonValue)
    ensures !v.JStr? ==> r == v
    ensures r.JBool? && v.JStr? ==> (r.b <==> Lower(v.s) == "true")
  {
    match v
    case JStr(s) =>
      if Lower(s) == "true" || Lower(s) == "false" then JBool(Lower(s) == "true")
      else if IsDigitString(s) then JInt(DigitsValue(s))
      else v
    case _ => v
  }

  /** The configuration after the second loop: every value coerced, the key set unchanged. */
  function Coerce(config: Object): (r: Object)
    ensures r.Keys == config.Keys
  {
    map k | k in config :: CoerceValue(config[k])
  }

  /**
   * The whole call. A missing or empty server URL raises `ValueError` before
   * the `try`; everything raised inside is re-raised as a plain `Exception`.
   */
  function LoadSpec(appName: string, profile: string, server: Option<string>,
                    username: Option<string>, password: Option<string>,
                    get: Request -> Response): (r: LoadResult)
    ensures r.RaisedValueError? <==> !Given(server)
    ensures r.RaisedValueError? ==> r.message == MissingUrlMessage
    ensures r.Loaded? ==>
      get(RequestFor(server.value, appName, profile, username, password)).Received?
      && get(RequestFor(server.value, appName, profile, username, password)).propertySources.Some?
    ensures r.RaisedException? ==>
      r.message == InvalidFormatMessage
      || (|NetworkErrorPrefix| <= |r.message| && r.message[..|NetworkErrorPrefix|] == NetworkErrorPrefix)
  {
    if !Given(server) then RaisedValueError(MissingUrlMessage)
    else
      match get(RequestFor(server.value, appName, profile, username, password))
      case RequestFailed(reason) => RaisedException(NetworkErrorPrefix + reason)
      case Received(None) => RaisedException(InvalidFormatMessage)
      case Received(Some(sources)) => Loaded(Coerce(Merge(sources)))
  }

  /** `load_config_from_spring_config`, with its two loops over the sources and the keys. */
  method LoadConfigFromSpringConfig(appName: string, profile: string, server: Option<string>,
                                    username: Option<string>, password: Option<string>,
                                    get: Request -> Response) returns (r: LoadResult)
    ensures r == LoadSpec(appName, profile, server, username, password, get)
  {
    if !Given(server) {
      return RaisedValueError(MissingUrlMessage);
    }
    var request := RequestFor(server.value, appName, profile, username, password);
    var response := get(request);
    if response.RequestFailed? {
      return RaisedException(NetworkErrorPrefix + response.reason);
    }
    if response.propertySources.None? {
      return RaisedException(InvalidFormatMessage);
    }
    var sources := response.propertySources.value;
    var config: Object := map[];
    for i := 0 to |sources|
      invariant config == Merge(sources[..i])
    {
      assert sources[..i + 1][..i] == sources[..i];
      config := config + SourceOf(sources[i]);
    }
    assert sources[..|sources|] == sources;
    ghost var merged := config;
    var pending := config.Keys;
    while pending != {}
      invariant pending <= merged.Keys && config.Keys == merged.Keys
      invariant forall k :: k in pending ==> config[k] == merged[k]
      invariant forall k :: k in merged && k !in pending ==> config[k] == CoerceValue(merged[k])
      decreases pending
    {
      var k :| k in pending;
      config := config[k := CoerceValue(config[k])];
      pending := pending - {k};
    }
    assert config == Coerce(merged);
    return Loaded(config);
  }

  /** Coercing an already coerced value changes nothing. */
  lemma CoerceValueIdempotent(v: JsonValue)
    ensures CoerceValue(CoerceValue(v)) == CoerceValue(v)
  {
  }

  /** A string reading "true" or "false" in any letter case becomes that boolean. */
  lemma CoerceBooleanText(s: string)
    requires Lower(s) == "true" || Lower(s) == "false"
    ensures CoerceValue(JStr(s)) == JBool(Lower(s) == "true")
  {
  }

  /** An all-digit string becomes the integer Python's `int()` reads from it. */
  lemma CoerceDigitText(s: string)
    requires IsDigitString(s)
    ensures ParseInt(s).Some?
    ensures CoerceValue(JStr(s)) == JInt(ParseInt(s).value)
  {
    forall k | 0 <= k < |s| ensures !IsSpace(s[k]) { }
    assert Strip(s) == s;
    assert IsAsciiDigit(Lower(s)[0]);
    assert Lower(s) != "true" && Lower(s) != "false";
  }

  /** `str(n)` of a natural number comes back as that integer. */
  lemma CoerceNaturalText(n: nat)
    ensures CoerceValue(JStr(IntToString(n))) == JInt(n)
  {
    CoerceDigitText(IntToString(n));
    ParseIntOfIntToString(n);
  }

  /** Every other string stays a string. */
  lemma CoerceOtherText(s: string)
    requires Lower(s) != "true" && Lower(s) != "false" && !IsDigitString(s)
    ensures CoerceValue(JStr(s)) == JStr(s)
  {
  }

  /**
   * A loaded configuration holds exactly the keys some property source
   * defines, each with the coerced value of the last source defining it.
   */
  lemma LoadedConfig(appName: string, profile: string, server: Option<string>,
                     username: Option<string>, password: Option<string>,
                     get: Request -> Response, k: string)
    requires Given(server)
    requires get(RequestFor(server.value, appName, profile, username, password)).Received?
    ensures var response := get(RequestFor(server.value, appName, profile, username, password));
      LoadSpec(appName, profile, server, username, password, get).Loaded?
      <==> response.propertySources.Some?
    ensures var response := get(RequestFor(server.value, appName, profile, username, password));
      var r := LoadSpec(appName, profile, server, username, password, get);
      r.Loaded? ==>
        (k in r.config <==> exists i :: 0 <= i < |response.propertySources.value|
                                          && k in SourceOf(response.propertySources.value[i]))
  {
    var response := get(RequestFor(server.value, appName, profile, username, password));
    if response.propertySources.Some? {
      MergeKeys(response.propertySources.value, k);
    }
  }

  /** Later property sources override earlier ones, then the value is coerced. */
  lemma LoadedValue(sources: seq<PropertySource>, i: nat, k: string)
    requires i < |sources| && k in SourceOf(sources[i])
    requires forall j :: i < j < |sources| ==> k !in SourceOf(sources[j])
    ensures k in Coerce(Merge(sources))
    ensures Coerce(Merge(sources))[k] == CoerceValue(SourceOf(sources[i])[k])
  {
    MergeLastWins(sources, i, k);
  }

  /**
   * Inside the `try`: a failed exchange is re-raised with the network prefix
   * and its reason, a body without `propertySources` with the format error.
   */
  lemma ExchangeErrors(appName: string, profile: string, server: Option<string>,
                       username: Option<string>, password: Option<string>,
                       get: Request -> Response)
    requires Given(server)
    ensures var response := get(RequestFor(server.value, appName, profile, username, password));
      response.RequestFailed? ==>
        LoadSpec(appName, profile, server, username, password, get)
          == RaisedException("Network error connecting to Config Server: " + response.reason)
    ensures get(RequestFor(server.value, appName, profile, username, password)) == Received(None) ==>
      LoadSpec(appName, profile, server, username, password, get)
        == RaisedException("Configuration error: Invalid configuration format received from server")
  {
  }

  /** Without a usable server URL nothing is fetched and a bare `ValueError` is raised. */
  lemma MissingServerUrl(appName: string, profile: string, server: Option<string>,
                         username: Option<string>, password: Option<string>,
                         get: Request -> Response)
    requires server == None || server == Some("")
    ensures LoadSpec(appName, profile, server, username, password, get)
      == RaisedValueError("Spring Config Server URL not provided")
  {
  }

  /** Two sources defining the same key: the second one wins. */
  lemma OverrideExample()
    ensures Merge([PropertySource(Some(map["debug" := JStr("TRUE"), "port" := JStr("80")])),
                   PropertySource(Some(map["port" := JStr("8080")]))])
      == map["debug" := JStr("TRUE"), "port" := JStr("8080")]
  {
    var s0 := PropertySource(Some(map["debug" := JStr("TRUE"), "port" := JStr("80")]));
    var s1 := PropertySource(Some(map["port" := JStr("8080")]));
    assert [s0, s1][..1] == [s0];
    assert [s0][..0] == [];
  }
}
