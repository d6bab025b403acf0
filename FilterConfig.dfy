/**
 * WebFilterConfig: the filter's settings, read once from the filter's
 * init-params and an optional Properties object, with defaults, parsing and
 * the checks that reject conflicting parameters.
 */
module FilterConfig {
  import opened Wrappers
  import opened Strings

  const CLIENT_CONFIG_LOCATION: string := "client-config-location"
  const SESSION_TTL_CONFIG: string := "session-ttl-seconds"
  const USE_CLIENT: string := "use-client"
  const INSTANCE_NAME: string := "instance-name"
  const MAP_NAME: string := "map-name"
  const STICKY_SESSION_CONFIG: string := "sticky-session"
  const CONFIG_LOCATION: string := "config-location"
  const SHUTDOWN_ON_DESTROY: string := "shutdown-on-destroy"
  const DEFERRED_WRITE: string := "deferred-write"
  const USE_REQUEST_PARAMETER: string := "use-request-parameter"
  const TRANSIENT_ATTRIBUTES: string := "transient-attributes"
  const COOKIE_NAME: string := "cookie-name"
  const COOKIE_DOMAIN: string := "cookie-domain"
  const COOKIE_SECURE: string := "cookie-secure"
  const COOKIE_HTTP_ONLY: string := "cookie-http-only"
  const COOKIE_PATH: string := "cookie-path"

  const SESSION_TTL_DEFAULT_SECONDS: int := 1800
  const DEFAULT_COOKIE_NAME: string := "hazelcast.sessionId"

  const INT_MIN: int := -0x8000_0000
  const INT_MAX: int := 0x7fff_ffff

  /**
   * Where parameters come from: the filter's init-params (absent means null)
   * and, when not null, a Properties object whose keys may hold a non-string
   * value, which getProperty reports as null.
   */
  datatype Params = Params(initParams: map<string, string>, properties: Option<map<string, Option<string>>>)

  /** InvalidConfigurationException and its message. */
  datatype ConfigError = InvalidConfiguration(message: string)

  datatype Result<T> = Ok(value: T) | Err(error: ConfigError)

  datatype WebFilterConfig = WebFilterConfig(
    useClient: bool,
    configUrl: Option<string>,
    sessionTtlSeconds: int,
    instanceName: Option<string>,
    mapName: string,
    stickySession: bool,
    shutdownOnDestroy: bool,
    deferredWrite: bool,
    useRequestParameter: bool,
    transientAttributes: set<string>,
    cookieName: string,
    cookieDomain: Option<string>,
    cookieSecure: bool,
    cookieHttpOnly: bool,
    cookiePath: Option<string>)

  /** getValue: a key present in the Properties overrides the init-param, even when its value is null. */
  function GetValue(p: Params, name: string): (v: Option<string>)
    ensures p.properties.Some? && name in p.properties.value ==> v == p.properties.value[name]
    ensures !(p.properties.Some? && name in p.properties.value) ==> (v.Some? <==> name in p.initParams)
    ensures !(p.properties.Some? && name in p.properties.value) && v.Some? ==> v.value == p.initParams[name]
  {
    if p.properties.Some? && name in p.properties.value then p.properties.value[name]
    else if name in p.initParams then Some(p.initParams[name])
    else None
  }

  /** paramExists: a non-null init-param or a non-null property; unlike getValue, either source suffices. */
  predicate ParamExists(p: Params, name: string) {
    name in p.initParams || (p.properties.Some? && name in p.properties.value && p.properties.value[name].Some?)
  }

  /** Boolean.valueOf: true exactly for "true" in any letter case, without trimming. */
  predicate ParseBoolean(s: string) {
    EqualsIgnoreCase(s, "true")
  }

  function GetBoolean(p: Params, name: string, default: bool): bool {
    var v := GetValue(p, name);
    if IsBlank(v) then default else ParseBoolean(v.value)
  }

  function GetString(p: Params, name: string, default: Option<string>): (r: Option<string>)
    ensures IsBlank(GetValue(p, name)) ==> r == default
    ensures !IsBlank(GetValue(p, name)) ==> r == GetValue(p, name)
  {
    var v := GetValue(p, name);
    if IsBlank(v) then default else v
  }

  predicate IsDigit(c: char) {
    '0' <= c <= '9'
  }

  predicate AllDigits(s: string) {
    forall i | 0 <= i < |s| :: IsDigit(s[i])
  }

  /** The number a string of decimal digits denotes. */
  function DigitsValue(ds: string): nat
    requires AllDigits(ds)
  {
    if ds == [] then 0 else DigitsValue(ds[..|ds| - 1]) * 10 + (ds[|ds| - 1] as int - '0' as int)
  }

  /**
   * Integer.parseInt: an optional sign, then at least one decimal digit, with
   * the value in the 32-bit range; None stands for NumberFormatException.
   */
  function ParseInt(s: string): Option<int> {
    var signed := |s| > 0 && (s[0] == '-' || s[0] == '+');
    var ds := if signed then s[1..] else s;
    if ds == [] || !AllDigits(ds) then None
    else
      var v: int := if signed && s[0] == '-' then -(DigitsValue(ds) as int) else DigitsValue(ds);
      if INT_MIN <= v <= INT_MAX then Some(v) else None
  }

  /** The decimal digits of a natural number, as Integer.toString writes them. */
  function ShowNat(n: nat): (s: string)
    ensures s != [] && AllDigits(s)
  {
    if n < 10 then [('0' as int + n) as char] else ShowNat(n / 10) + [('0' as int + n % 10) as char]
  }

  lemma {:induction false} ShowNatValue(n: nat)
    ensures DigitsValue(ShowNat(n)) == n
  {
    var s := ShowNat(n);
    if n >= 10 {
      ShowNatValue(n / 10);
      assert s[..|s| - 1] == ShowNat(n / 10);
    }
  }

  function ShowInt(n: int): string {
    if n < 0 then "-" + ShowNat(-n) else ShowNat(n)
  }

  /** parseInt reads back every 32-bit integer written in decimal, and rejects every other integer. */
  lemma ParseIntRoundTrip(n: int)
    ensures INT_MIN <= n <= INT_MAX ==> ParseInt(ShowInt(n)) == Some(n)
    ensures !(INT_MIN <= n <= INT_MAX) ==> ParseInt(ShowInt(n)) == None
  {
    var s := ShowInt(n);
    if n < 0 {
      ShowNatValue(-n);
      assert s[0] == '-';
      assert s[1..] == ShowNat(-n);
    } else {
      ShowNatValue(n);
      assert IsDigit(s[0]);
    }
  }

  /** parseInt rejects text with no digits, a sign alone and surrounding spaces. */
  lemma ParseIntRejects()
    ensures ParseInt("") == None && ParseInt("-") == None && ParseInt("+") == None
    ensures ParseInt("abc") == None
    ensures ParseInt(" 5") == None
    ensures ParseInt("5 ") == None
  {
    assert !IsDigit("abc"[0]);
    assert !IsDigit(" 5"[0]);
    assert !IsDigit("5 "[1]);
  }

  /** getInt: the default for a blank value, the parsed value otherwise, and an error naming the parameter and value. */
  function GetInt(p: Params, name: string, default: int): (r: Result<int>)
    ensures IsBlank(GetValue(p, name)) ==> r == Ok(default)
    ensures !IsBlank(GetValue(p, name)) && ParseInt(GetValue(p, name).value).Some? ==> r == Ok(ParseInt(GetValue(p, name).value).value)
    ensures !IsBlank(GetValue(p, name)) && ParseInt(GetValue(p, name).value).None? ==>
      r == Err(InvalidConfiguration(name + " needs to be an integer: (" + GetValue(p, name).value + ")"))
  {
    var v := GetValue(p, name);
    if IsBlank(v) then Ok(default)
    else match ParseInt(v.value)
      case Some(n) => Ok(n)
      case None => Err(InvalidConfiguration(name + " needs to be an integer: (" + v.value + ")"))
  }

  /** The number of characters before the first ',' (or the end). */
  function RunLength(s: string): (r: nat)
    ensures r <= |s|
    ensures forall i | 0 <= i < r :: s[i] != ','
    ensures r < |s| ==> s[r] == ','
  {
    if s == [] || s[0] == ',' then 0 else 1 + RunLength(s[1..])
  }

  /** StringTokenizer(s, ","): the maximal non-empty runs of characters other than ','. */
  function Tokens(s: string): (ts: seq<string>)
    ensures forall i | 0 <= i < |ts| :: ts[i] != [] && ',' !in ts[i]
    decreases |s|
  {
    if s == [] then []
    else if s[0] == ',' then Tokens(s[1..])
    else
      var r := RunLength(s);
      [s[..r]] + Tokens(s[r..])
  }

  /** The tokens trimmed, collected into a set. */
  function TokenSet(ts: seq<string>): set<string>
    decreases |ts|
  {
    if ts == [] then {} else {Trim(ts[0])} + TokenSet(ts[1..])
  }

  lemma TokenSetCons(t: string, ts: seq<string>)
    ensures TokenSet([t] + ts) == {Trim(t)} + TokenSet(ts)
  {
    assert ([t] + ts)[1..] == ts;
  }

  /** Every element of the set is some token, trimmed. */
  lemma {:induction false} TokenSetMember(ts: seq<string>, x: string)
    requires x in TokenSet(ts)
    ensures exists i | 0 <= i < |ts| :: x == Trim(ts[i])
    decreases |ts|
  {
    if x != Trim(ts[0]) {
      TokenSetMember(ts[1..], x);
      var i :| 0 <= i < |ts[1..]| && x == Trim(ts[1..][i]);
      assert x == Trim(ts[i + 1]);
    }
  }

  /**
   * The tokenizing loop of getStringSet: each run between commas, trimmed,
   * goes into the set.
   */
  method SplitTrimmed(value: string) returns (result: set<string>)
    ensures result == TokenSet(Tokens(value))
  {
    result := {};
    var i := 0;
    while i < |value|
      invariant 0 <= i <= |value|
      invariant result + TokenSet(Tokens(value[i..])) == TokenSet(Tokens(value))
    {
      if value[i] == ',' {
        assert value[i..][1..] == value[i + 1..];
        i := i + 1;
      } else {
        var j := i + 1;
        while j < |value| && value[j] != ','
          invariant i < j <= |value|
          invariant forall k | i <= k < j :: value[k] != ','
        {
          j := j + 1;
        }
        TakeRun(value, i, j);
        result := result + {Trim(value[i..j])};
        i := j;
      }
    }
    assert value[i..] == [];
  }

  /** A run of non-commas ending at a comma or at the end is the next token. */
  lemma TakeRun(value: string, i: nat, j: nat)
    requires i < j <= |value|
    requires forall k | i <= k < j :: value[k] != ','
    requires j < |value| ==> value[j] == ','
    ensures TokenSet(Tokens(value[i..])) == {Trim(value[i..j])} + TokenSet(Tokens(value[j..]))
  {
    var s := value[i..];
    var r := RunLength(s);
    assert s[0] != ',';
    assert r == j - i;
    assert Tokens(s) == [s[..r]] + Tokens(s[r..]);
    assert s[..r] == value[i..j];
    assert s[r..] == value[j..];
    TokenSetCons(value[i..j], Tokens(value[j..]));
  }

  /** getStringSet: the empty set for a blank value, the trimmed comma-separated tokens otherwise. */
  method GetStringSet(p: Params, name: string) returns (result: set<string>)
    ensures result == TransientSet(GetValue(p, name))
  {
    var value := GetValue(p, name);
    if IsBlank(value) {
      return {};
    }
    result := SplitTrimmed(value.value);
  }

  function TransientSet(v: Option<string>): set<string> {
    if IsBlank(v) then {} else TokenSet(Tokens(v.value))
  }

  /** No token of the transient set holds a comma or begins or ends with a space. */
  lemma TransientTokensClean(v: Option<string>)
    ensures forall t | t in TransientSet(v) :: ',' !in t
    ensures forall t | t in TransientSet(v) && t != [] :: !IsTrimmed(t[0]) && !IsTrimmed(t[|t| - 1])
  {
    if !IsBlank(v) {
      forall t | t in TransientSet(v)
        ensures ',' !in t && (t != [] ==> !IsTrimmed(t[0]) && !IsTrimmed(t[|t| - 1]))
      {
        var ts := Tokens(v.value);
        TokenSetMember(ts, t);
        var i :| 0 <= i < |ts| && t == Trim(ts[i]);
        TrimKeepsOut(ts[i], ',');
      }
    }
  }

  /** Trimming removes characters and adds none. */
  lemma TrimKeepsOut(s: string, c: char)
    requires c !in s
    ensures c !in Trim(s)
  {
    var t := TrimStart(s);
    TrimStartSuffix(s);
    assert forall i | 0 <= i < |t| :: t[i] == s[i + (|s| - |t|)];
    var r := TrimEnd(t);
    TrimEndPrefix(t);
    assert forall i | 0 <= i < |r| :: r[i] == t[i];
  }

  /** A step of TransientExample: the split of its input. */
  lemma TokensOfSpacedList()
    ensures Tokens(" a ,, b") == [" a ", " b"]
  {
    var s := " a ,, b";
    assert RunLength(s) == 3 by {
      assert s[3] == ',';
      assert s[0] != ',' && s[1] != ',' && s[2] != ',';
    }
    assert s[..3] == " a ";
    var rest := s[3..];
    assert rest[1..] == ", b";
    assert rest[1..][1..] == " b";
    assert RunLength(" b") == 2 by {
      assert " b"[1..] == "b";
      assert "b"[1..] == [];
    }
    assert " b"[..2] == " b";
    assert " b"[2..] == [];
    calc {
      Tokens(s);
      [" a "] + Tokens(rest);
      [" a "] + Tokens(", b");
      [" a "] + Tokens(" b");
      [" a "] + ([" b"] + Tokens([]));
      [" a ", " b"];
    }
  }

  /** A step of TransientExample: the trims of its two tokens. */
  lemma TrimExamples()
    ensures Trim(" a ") == "a" && Trim(" b") == "b"
  {
    assert TrimStart(" a ") == "a " by {
      assert " a "[1..] == "a ";
    }
    assert TrimEnd("a ") == "a" by {
      assert "a "[..1] == "a";
    }
    assert TrimStart(" b") == "b" by {
      assert " b"[1..] == "b";
    }
  }

  /** The tokenizing rule on an example with spaces and an empty run between two commas. */
  lemma TransientExample()
    ensures TransientSet(Some(" a ,, b")) == {"a", "b"}
  {
    var s := " a ,, b";
    assert !IsBlank(Some(s)) by {
      assert !IsTrimmed(s[1]);
    }
    TokensOfSpacedList();
    TokenSetPair(" a ", " b");
    TrimExamples();
  }

  /** The set of two tokens is the set of their trimmed forms. */
  lemma TokenSetPair(a: string, b: string)
    ensures TokenSet([a, b]) == {Trim(a), Trim(b)}
  {
    assert [a, b][1..] == [b];
    assert [b][1..] == [];
    assert TokenSet([b]) == {Trim(b)};
  }

  /** parametersExist: the given names that exist, in the given order. */
  function ParametersExist(p: Params, names: seq<string>): (r: seq<string>)
    ensures forall n :: n in r <==> n in names && ParamExists(p, n)
    ensures |r| <= |names|
  {
    if names == [] then []
    else (if ParamExists(p, names[0]) then [names[0]] else []) + ParametersExist(p, names[1..])
  }

  /** The names separated by ", ". */
  function Join(ws: seq<string>): string {
    if |ws| == 0 then "" else if |ws| == 1 then ws[0] else Join(ws[..|ws| - 1]) + ", " + ws[|ws| - 1]
  }

  /** The message loop: each name, followed by ", " unless it is the last. */
  method JoinNames(ws: seq<string>) returns (out: string)
    ensures out == Join(ws)
  {
    out := "";
    var i := 0;
    while i < |ws|
      invariant 0 <= i <= |ws|
      invariant out == if i == 0 then "" else Join(ws[..i]) + (if i < |ws| then ", " else "")
    {
      out := out + ws[i];
      if i != |ws| - 1 {
        out := out + ", ";
      }
      assert ws[..i + 1][..i] == ws[..i];
      i := i + 1;
    }
    assert ws[..|ws|] == ws;
  }

  function InstanceNameMessage(useClient: bool, wrong: seq<string>): string {
    "The following parameters cannot be used when " + INSTANCE_NAME + " is set to 'true' because an existing Hazelcast"
      + (if useClient then "Client" else "") + " instance is being used: [" + Join(wrong) + "]"
  }

  function UseClientMessage(wrong: seq<string>): string {
    "The following parameters cannot be used when " + USE_CLIENT + " is set to 'true': [" + Join(wrong) + "]"
  }

  const P2P_MESSAGE: string := CLIENT_CONFIG_LOCATION + " cannot be used with P2P mode."

  /**
   * validateHazelcastConfigParameters: instance-name excludes the TTL and
   * both config locations; client mode excludes the TTL and config-location;
   * peer-to-peer mode excludes client-config-location.
   */
  function Validate(p: Params, useClient: bool): Result<()> {
    var wrongForInstance := ParametersExist(p, [SESSION_TTL_CONFIG, CONFIG_LOCATION, CLIENT_CONFIG_LOCATION]);
    var wrongForClient := ParametersExist(p, [SESSION_TTL_CONFIG, CONFIG_LOCATION]);
    if ParamExists(p, INSTANCE_NAME) && wrongForInstance != [] then
      Err(InvalidConfiguration(InstanceNameMessage(useClient, wrongForInstance)))
    else if useClient && wrongForClient != [] then
      Err(InvalidConfiguration(UseClientMessage(wrongForClient)))
    else if !useClient && ParamExists(p, CLIENT_CONFIG_LOCATION) then
      Err(InvalidConfiguration(P2P_MESSAGE))
    else Ok(())
  }

  /** The three conflicts are exactly the rejected parameter sets. */
  lemma ValidateRejectsExactlyConflicts(p: Params, useClient: bool)
    ensures Validate(p, useClient).Err? <==>
      || (ParamExists(p, INSTANCE_NAME) && (ParamExists(p, SESSION_TTL_CONFIG) || ParamExists(p, CONFIG_LOCATION) || ParamExists(p, CLIENT_CONFIG_LOCATION)))
      || (useClient && (ParamExists(p, SESSION_TTL_CONFIG) || ParamExists(p, CONFIG_LOCATION)))
      || (!useClient && ParamExists(p, CLIENT_CONFIG_LOCATION))
  {
    var w1 := ParametersExist(p, [SESSION_TTL_CONFIG, CONFIG_LOCATION, CLIENT_CONFIG_LOCATION]);
    var w2 := ParametersExist(p, [SESSION_TTL_CONFIG, CONFIG_LOCATION]);
    if w1 != [] {
      assert w1[0] in w1;
    }
    if w2 != [] {
      assert w2[0] in w2;
    }
  }

  /** With instance-name set, the message lists exactly the offending names, in declaration order. */
  lemma InstanceNameMessageListsOffenders(p: Params, useClient: bool)
    requires ParamExists(p, INSTANCE_NAME)
    requires ParamExists(p, SESSION_TTL_CONFIG) || ParamExists(p, CONFIG_LOCATION) || ParamExists(p, CLIENT_CONFIG_LOCATION)
    ensures var wrong := ParametersExist(p, [SESSION_TTL_CONFIG, CONFIG_LOCATION, CLIENT_CONFIG_LOCATION]);
      && Validate(p, useClient) == Err(InvalidConfiguration(InstanceNameMessage(useClient, wrong)))
      && (forall n :: n in wrong <==> n in [SESSION_TTL_CONFIG, CONFIG_LOCATION, CLIENT_CONFIG_LOCATION] && ParamExists(p, n))
  {
    var names := [SESSION_TTL_CONFIG, CONFIG_LOCATION, CLIENT_CONFIG_LOCATION];
    var wrong := ParametersExist(p, names);
    if ParamExists(p, SESSION_TTL_CONFIG) {
      assert SESSION_TTL_CONFIG in wrong;
    } else if ParamExists(p, CONFIG_LOCATION) {
      assert CONFIG_LOCATION in wrong;
    } else {
      assert CLIENT_CONFIG_LOCATION in wrong;
    }
  }

  /** Where a configuration location resolves to (the servlet context or the class path); absent when it does not. */
  type Resources = map<string, string>

  /** getConfigUrl: the resolved location, or an error naming it. */
  function ConfigUrl(resources: Resources, location: string): (r: Result<string>)
    ensures r.Ok? <==> location in resources
  {
    if location in resources then Ok(resources[location])
    else Err(InvalidConfiguration("Could not load configuration '" + location + "'"))
  }

  /** validateAndGetConfigUrl: config-location in peer-to-peer mode, client-config-location in client mode, null otherwise. */
  function ValidateAndGetConfigUrl(resources: Resources, useClient: bool, configLocation: Option<string>, clientConfigLocation: Option<string>): (r: Result<Option<string>>)
    ensures r.Ok? && r.value.Some? ==>
      || (!useClient && configLocation.Some? && configLocation.value in resources && r.value.value == resources[configLocation.value])
      || (useClient && clientConfigLocation.Some? && clientConfigLocation.value in resources && r.value.value == resources[clientConfigLocation.value])
    ensures (useClient && clientConfigLocation.None?) || (!useClient && configLocation.None?) ==> r == Ok(None)
  {
    if !useClient && configLocation.Some? then
      match ConfigUrl(resources, configLocation.value)
      case Ok(u) => Ok(Some(u))
      case Err(e) => Err(e)
    else if useClient && clientConfigLocation.Some? then
      match ConfigUrl(resources, clientConfigLocation.value)
      case Ok(u) => Ok(Some(u))
      case Err(e) => Err(e)
    else Ok(None)
  }

  /**
   * create: use-client first, then the conflict checks, then the TTL, the
   * config URL and the remaining settings with their defaults. `contextName`
   * is the servlet context name, null printing as "null" in the map name.
   */
  method Create(p: Params, contextName: Option<string>, resources: Resources) returns (r: Result<WebFilterConfig>)
    ensures var useClient := GetBoolean(p, USE_CLIENT, false);
      Validate(p, useClient).Err? ==> r == Err(Validate(p, useClient).error)
    ensures var useClient := GetBoolean(p, USE_CLIENT, false);
      Validate(p, useClient).Ok? && GetInt(p, SESSION_TTL_CONFIG, SESSION_TTL_DEFAULT_SECONDS).Err? ==>
        r == Err(GetInt(p, SESSION_TTL_CONFIG, SESSION_TTL_DEFAULT_SECONDS).error)
    ensures var useClient := GetBoolean(p, USE_CLIENT, false);
      var url := ValidateAndGetConfigUrl(resources, useClient, GetString(p, CONFIG_LOCATION, None), GetString(p, CLIENT_CONFIG_LOCATION, None));
      Validate(p, useClient).Ok? && GetInt(p, SESSION_TTL_CONFIG, SESSION_TTL_DEFAULT_SECONDS).Ok? ==>
        && (r.Ok? <==> url.Ok?)
        && (url.Err? ==> r == Err(url.error))
    ensures r.Ok? ==> r.value == Settings(p, contextName, r.value.configUrl, r.value.sessionTtlSeconds)
    ensures r.Ok? ==> Ok(r.value.sessionTtlSeconds) == GetInt(p, SESSION_TTL_CONFIG, SESSION_TTL_DEFAULT_SECONDS)
    ensures r.Ok? ==> Ok(r.value.configUrl) == ValidateAndGetConfigUrl(resources, r.value.useClient,
      GetString(p, CONFIG_LOCATION, None), GetString(p, CLIENT_CONFIG_LOCATION, None))
  {
    var useClient := GetBoolean(p, USE_CLIENT, false);
    var valid := Validate(p, useClient);
    if valid.Err? {
      return Err(valid.error);
    }
    var clientConfigLocation := GetString(p, CLIENT_CONFIG_LOCATION, None);
    var ttl := GetInt(p, SESSION_TTL_CONFIG, SESSION_TTL_DEFAULT_SECONDS);
    if ttl.Err? {
      return Err(ttl.error);
    }
    var configLocation := GetString(p, CONFIG_LOCATION, None);
    var configUrl := ValidateAndGetConfigUrl(resources, useClient, configLocation, clientConfigLocation);
    if configUrl.Err? {
      return Err(configUrl.error);
    }
    var transientAttributes := GetStringSet(p, TRANSIENT_ATTRIBUTES);
    r := Ok(WebFilterConfig(
      useClient,
      configUrl.value,
      ttl.value,
      GetString(p, INSTANCE_NAME, None),
      GetString(p, MAP_NAME, Some("_web_" + contextName.GetOr("null"))).value,
      GetBoolean(p, STICKY_SESSION_CONFIG, true),
      GetBoolean(p, SHUTDOWN_ON_DESTROY, true),
      GetBoolean(p, DEFERRED_WRITE, false),
      GetBoolean(p, USE_REQUEST_PARAMETER, false),
      transientAttributes,
      GetString(p, COOKIE_NAME, Some(DEFAULT_COOKIE_NAME)).value,
      GetString(p, COOKIE_DOMAIN, None),
      GetBoolean(p, COOKIE_SECURE, false),
      GetBoolean(p, COOKIE_HTTP_ONLY, false),
      GetString(p, COOKIE_PATH, None)));
  }

  /** The settings create reads with their defaults, given the URL and TTL it resolved. */
  function Settings(p: Params, contextName: Option<string>, configUrl: Option<string>, ttl: int): WebFilterConfig {
    WebFilterConfig(
      GetBoolean(p, USE_CLIENT, false),
      configUrl,
      ttl,
      GetString(p, INSTANCE_NAME, None),
      GetString(p, MAP_NAME, Some("_web_" + contextName.GetOr("null"))).value,
      GetBoolean(p, STICKY_SESSION_CONFIG, true),
      GetBoolean(p, SHUTDOWN_ON_DESTROY, true),
      GetBoolean(p, DEFERRED_WRITE, false),
      GetBoolean(p, USE_REQUEST_PARAMETER, false),
      TransientSet(GetValue(p, TRANSIENT_ATTRIBUTES)),
      GetString(p, COOKIE_NAME, Some(DEFAULT_COOKIE_NAME)).value,
      GetString(p, COOKIE_DOMAIN, None),
      GetBoolean(p, COOKIE_SECURE, false),
      GetBoolean(p, COOKIE_HTTP_ONLY, false),
      GetString(p, COOKIE_PATH, None))
  }

  /** With no parameter given at all, every setting takes its default. */
  lemma DefaultsWhenNothingIsSet(contextName: Option<string>)
    ensures var p := Params(map[], None);
      && Validate(p, false) == Ok(())
      && GetInt(p, SESSION_TTL_CONFIG, SESSION_TTL_DEFAULT_SECONDS) == Ok(1800)
      && Settings(p, contextName, None, 1800) == WebFilterConfig(false, None, 1800, None, "_web_" + contextName.GetOr("null"),
           true, true, false, false, {}, "hazelcast.sessionId", None, false, false, None)
  {
  }

  /** A blank value counts as not given: every reader falls back to its default. */
  lemma BlankMeansDefault(p: Params, name: string, b: bool, n: int, s: Option<string>)
    requires IsBlank(GetValue(p, name))
    ensures GetBoolean(p, name, b) == b
    ensures GetInt(p, name, n) == Ok(n)
    ensures GetString(p, name, s) == s
    ensures TransientSet(GetValue(p, name)) == {}
  {
  }
}
