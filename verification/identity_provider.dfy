/**
 * An identity provider of the demo: the resource ids it is defined by, the one-time read of
 * those resources into a configuration, the getters guarded by that read, and the choice
 * between OpenID Connect discovery and explicitly configured endpoints.
 */
module IdentityProviders {
  import opened Failures
  import opened AndroidResources

  /** The resource id that marks an optional property as absent. */
  const NOT_SPECIFIED: int := -1

  const NO_ENDPOINT_MESSAGE: string := "the discovery endpoint or the auth and token endpoints must be specified"
  const NOT_READ_MESSAGE: string := "Configuration not read"

  /** The constructor's arguments: a name and eleven resource ids, any of which may be NOT_SPECIFIED. */
  datatype Definition = Definition(
    name: string,
    enabledRes: int,
    discoveryEndpointRes: int,
    authEndpointRes: int,
    tokenEndpointRes: int,
    clientIdRes: int,
    clientSecretRes: int,
    redirectUriRes: int,
    scopeRes: int,
    buttonImageRes: int,
    buttonContentDescriptionRes: int)

  /** The values read from the resource bundle; `None` is a field left `null`. */
  datatype Config = Config(
    enabled: bool,
    discoveryEndpoint: Option<Uri>,
    authEndpoint: Option<Uri>,
    tokenEndpoint: Option<Uri>,
    clientId: string,
    clientSecret: Option<string>,
    redirectUri: Uri,
    scope: string)

  /** Whether `readConfiguration` has completed, and with which values. */
  datatype State = Unread | Read(config: Config)

  datatype Provider = Provider(def: Definition, state: State)

  /** The provider after a state-changing call, and what the call returned or threw. */
  datatype Step<+T> = Step(provider: Provider, result: Result<T, Exception>)

  // ---------------------------------------------------------------------------
  // Construction

  /** `isSpecified`: an id is given unless it is the sentinel. */
  function IsSpecified(id: int): (r: bool)
    ensures r <==> id != NOT_SPECIFIED
  {
    id != NOT_SPECIFIED
  }

  /** At least one of the three endpoint ids is given. */
  predicate HasEndpointId(d: Definition) {
    IsSpecified(d.discoveryEndpointRes) || IsSpecified(d.authEndpointRes) || IsSpecified(d.tokenEndpointRes)
  }

  /** The ids the constructor insists on, in the order it checks them, with the names its messages use. */
  function RequiredIds(d: Definition): seq<(string, int)> {
    [ ("enabledRes", d.enabledRes),
      ("clientIdRes", d.clientIdRes),
      ("redirectUriRes", d.redirectUriRes),
      ("scopeRes", d.scopeRes),
      ("buttonImageRes", d.buttonImageRes),
      ("buttonContentDescriptionRes", d.buttonContentDescriptionRes) ]
  }

  /** The name of the first id of `ids` that is NOT_SPECIFIED, if any. */
  function FirstUnspecified(ids: seq<(string, int)>): (r: Option<string>)
    ensures r.None? <==> forall i :: 0 <= i < |ids| ==> IsSpecified(ids[i].1)
    ensures r.Some? ==> exists i :: 0 <= i < |ids| && ids[i].0 == r.value && !IsSpecified(ids[i].1)
                                    && forall j :: 0 <= j < i ==> IsSpecified(ids[j].1)
  {
    if |ids| == 0 then None
    else if !IsSpecified(ids[0].1) then Some(ids[0].0)
    else
      var r := FirstUnspecified(ids[1..]);
      assert r.Some? ==> exists i :: 0 < i < |ids| && ids[i].0 == r.value && !IsSpecified(ids[i].1)
                                     && forall j :: 0 <= j < i ==> IsSpecified(ids[j].1) by {
        if r.Some? {
          var i :| 0 <= i < |ids[1..]| && ids[1..][i].0 == r.value && !IsSpecified(ids[1..][i].1)
                   && forall j :: 0 <= j < i ==> IsSpecified(ids[1..][j].1);
          assert ids[i + 1] == ids[1..][i];
          forall j | 0 < j < i + 1 ensures IsSpecified(ids[j].1) {
            assert ids[j] == ids[1..][j - 1];
          }
        }
      }
      r
  }

  /** `checkSpecified`: passes a given id through and rejects the sentinel. */
  function CheckSpecified(value: int, valueName: string): (r: Result<int, Exception>)
    ensures r.Success? <==> IsSpecified(value)
    ensures r.Success? ==> r.value == value
    ensures r.Failure? ==> r.error == IllegalArgument(valueName + " must be specified")
  {
    if value == NOT_SPECIFIED then Failure(IllegalArgument(valueName + " must be specified")) else Success(value)
  }

  /**
   * The constructor. It rejects a definition with none of the three endpoint ids, and then one
   * missing any of the six required ids; it accepts a definition with only one explicit endpoint.
   * The optional ids are stored as given and the provider starts unread.
   */
  function NewProvider(d: Definition): (r: Result<Provider, Exception>)
    ensures r.Success? <==>
              && HasEndpointId(d)
              && IsSpecified(d.enabledRes) && IsSpecified(d.clientIdRes) && IsSpecified(d.redirectUriRes)
              && IsSpecified(d.scopeRes) && IsSpecified(d.buttonImageRes) && IsSpecified(d.buttonContentDescriptionRes)
    ensures r.Success? ==> r.value.def == d && r.value.state == Unread
    ensures !HasEndpointId(d) ==> r == Failure(IllegalArgument(NO_ENDPOINT_MESSAGE))
    ensures r.Failure? ==> r.error.IllegalArgument?
  {
    if !IsSpecified(d.discoveryEndpointRes) && !IsSpecified(d.authEndpointRes) && !IsSpecified(d.tokenEndpointRes) then
      Failure(IllegalArgument(NO_ENDPOINT_MESSAGE))
    else
      var _ :- CheckSpecified(d.enabledRes, "enabledRes");
      var _ :- CheckSpecified(d.clientIdRes, "clientIdRes");
      var _ :- CheckSpecified(d.redirectUriRes, "redirectUriRes");
      var _ :- CheckSpecified(d.scopeRes, "scopeRes");
      var _ :- CheckSpecified(d.buttonImageRes, "buttonImageRes");
      var _ :- CheckSpecified(d.buttonContentDescriptionRes, "buttonContentDescriptionRes");
      Success(Provider(d, Unread))
  }

  lemma FirstUnspecifiedCons(x: (string, int), rest: seq<(string, int)>)
    ensures FirstUnspecified([x] + rest) == if !IsSpecified(x.1) then Some(x.0) else FirstUnspecified(rest)
  {
    assert ([x] + rest)[1..] == rest;
  }

  /** Once some endpoint id is given, the constructor reports the first required id that is missing, in declaration order. */
  lemma NewProviderReportsFirstMissing(d: Definition)
    requires HasEndpointId(d)
    ensures NewProvider(d).Failure? <==> FirstUnspecified(RequiredIds(d)).Some?
    ensures NewProvider(d).Failure? ==>
              NewProvider(d).error == IllegalArgument(FirstUnspecified(RequiredIds(d)).value + " must be specified")
  {
    var a := ("enabledRes", d.enabledRes);
    var b := ("clientIdRes", d.clientIdRes);
    var c := ("redirectUriRes", d.redirectUriRes);
    var e := ("scopeRes", d.scopeRes);
    var f := ("buttonImageRes", d.buttonImageRes);
    var g := ("buttonContentDescriptionRes", d.buttonContentDescriptionRes);
    var tail5 := [g];
    var tail4 := [f] + tail5;
    var tail3 := [e] + tail4;
    var tail2 := [c] + tail3;
    var tail1 := [b] + tail2;
    assert RequiredIds(d) == [a] + tail1;
    FirstUnspecifiedCons(a, tail1);
    FirstUnspecifiedCons(b, tail2);
    FirstUnspecifiedCons(c, tail3);
    FirstUnspecifiedCons(e, tail4);
    FirstUnspecifiedCons(f, tail5);
    FirstUnspecifiedCons(g, []);
  }

  /** A definition with an auth endpoint only, and no token or discovery endpoint, is accepted. */
  lemma AuthEndpointAloneIsAccepted(d: Definition)
    requires !IsSpecified(d.discoveryEndpointRes) && IsSpecified(d.authEndpointRes) && !IsSpecified(d.tokenEndpointRes)
    requires forall i :: 0 <= i < |RequiredIds(d)| ==> IsSpecified(RequiredIds(d)[i].1)
    ensures NewProvider(d).Success?
    ensures NewProvider(d).value.def.tokenEndpointRes == NOT_SPECIFIED
  {
    assert RequiredIds(d)[0].1 == d.enabledRes && RequiredIds(d)[1].1 == d.clientIdRes;
    assert RequiredIds(d)[2].1 == d.redirectUriRes && RequiredIds(d)[3].1 == d.scopeRes;
    assert RequiredIds(d)[4].1 == d.buttonImageRes && RequiredIds(d)[5].1 == d.buttonContentDescriptionRes;
  }

  // ---------------------------------------------------------------------------
  // Reading the configuration

  /** The lookups `readConfiguration` performs, in order: optional ids that are NOT_SPECIFIED are skipped. */
  function Lookups(d: Definition): seq<Lookup> {
    [BoolLookup(d.enabledRes)]
    + OptionalLookup(d.discoveryEndpointRes)
    + OptionalLookup(d.authEndpointRes)
    + OptionalLookup(d.tokenEndpointRes)
    + [StringLookup(d.clientIdRes)]
    + OptionalLookup(d.clientSecretRes)
    + [StringLookup(d.redirectUriRes)]
    + [StringLookup(d.scopeRes)]
  }

  function OptionalLookup(id: int): seq<Lookup> {
    if IsSpecified(id) then [StringLookup(id)] else []
  }

  /** Every lookup the read of `d` performs finds its value in `res`. */
  predicate AllPresent(d: Definition, res: Resources) {
    && d.enabledRes in res.bools
    && (IsSpecified(d.discoveryEndpointRes) ==> d.discoveryEndpointRes in res.strings)
    && (IsSpecified(d.authEndpointRes) ==> d.authEndpointRes in res.strings)
    && (IsSpecified(d.tokenEndpointRes) ==> d.tokenEndpointRes in res.strings)
    && d.clientIdRes in res.strings
    && (IsSpecified(d.clientSecretRes) ==> d.clientSecretRes in res.strings)
    && d.redirectUriRes in res.strings
    && d.scopeRes in res.strings
  }

  /** `u` is null exactly when `id` is NOT_SPECIFIED, and otherwise the parsed string resource `id`. */
  predicate OptionalUriFrom(u: Option<Uri>, id: int, res: Resources) {
    && (u.None? <==> !IsSpecified(id))
    && (IsSpecified(id) ==> id in res.strings && u == Some(Parse(res.strings[id])))
  }

  /** `s` is null exactly when `id` is NOT_SPECIFIED, and otherwise the string resource `id`. */
  predicate OptionalStringFrom(s: Option<string>, id: int, res: Resources) {
    && (s.None? <==> !IsSpecified(id))
    && (IsSpecified(id) ==> id in res.strings && s == Some(res.strings[id]))
  }

  /** `c` holds exactly what `res` says for the ids of `d`. */
  predicate ReadFrom(c: Config, d: Definition, res: Resources) {
    && d.enabledRes in res.bools && c.enabled == res.bools[d.enabledRes]
    && OptionalUriFrom(c.discoveryEndpoint, d.discoveryEndpointRes, res)
    && OptionalUriFrom(c.authEndpoint, d.authEndpointRes, res)
    && OptionalUriFrom(c.tokenEndpoint, d.tokenEndpointRes, res)
    && d.clientIdRes in res.strings && c.clientId == res.strings[d.clientIdRes]
    && OptionalStringFrom(c.clientSecret, d.clientSecretRes, res)
    && d.redirectUriRes in res.strings && c.redirectUri == Parse(res.strings[d.redirectUriRes])
    && d.scopeRes in res.strings && c.scope == res.strings[d.scopeRes]
  }

  /** `getUriResource`: the string resource `id`, parsed as a URI; a missing resource throws. */
  function GetUriResource(res: Resources, id: int): (r: Result<Uri, Exception>)
    ensures r.Success? <==> id in res.strings
    ensures r.Success? ==> r.value == Parse(res.strings[id]) && r.value.text == res.strings[id]
    ensures r.Failure? ==> r.error == NotFound(id)
  {
    var s :- res.GetString(id);
    Success(Parse(s))
  }

  function OptionalUri(res: Resources, id: int): Result<Option<Uri>, Exception> {
    if IsSpecified(id) then
      var u :- GetUriResource(res, id);
      Success(Some(u))
    else Success(None)
  }

  function OptionalString(res: Resources, id: int): Result<Option<string>, Exception> {
    if IsSpecified(id) then
      var s :- res.GetString(id);
      Success(Some(s))
    else Success(None)
  }

  /** The lookups of `readConfiguration`, in the source's order; the first one that fails is thrown. */
  function ReadConfig(d: Definition, res: Resources): (r: Result<Config, Exception>)
    ensures r.Success? <==> AllPresent(d, res)
    ensures r.Success? ==> ReadFrom(r.value, d, res)
    ensures r.Failure? ==> r.error.NotFound?
  {
    var enabled :- res.GetBoolean(d.enabledRes);
    var discoveryEndpoint :- OptionalUri(res, d.discoveryEndpointRes);
    var authEndpoint :- OptionalUri(res, d.authEndpointRes);
    var tokenEndpoint :- OptionalUri(res, d.tokenEndpointRes);
    var clientId :- res.GetString(d.clientIdRes);
    var clientSecret :- OptionalString(res, d.clientSecretRes);
    var redirectUri :- GetUriResource(res, d.redirectUriRes);
    var scope :- res.GetString(d.scopeRes);
    Success(Config(enabled, discoveryEndpoint, authEndpoint, tokenEndpoint, clientId, clientSecret, redirectUri, scope))
  }

  lemma FirstMissingOptional(res: Resources, id: int)
    ensures FirstMissing(res, OptionalLookup(id)) == if IsSpecified(id) && id !in res.strings then Some(id) else None
  {
  }

  /**
   * The id whose lookup fails first, spelled out lookup by lookup. It only bridges the proof
   * that `ReadConfig` fails at `FirstMissing(res, Lookups(d))`.
   */
  function MissingId(d: Definition, res: Resources): Option<int> {
    if d.enabledRes !in res.bools then Some(d.enabledRes)
    else if IsSpecified(d.discoveryEndpointRes) && d.discoveryEndpointRes !in res.strings then Some(d.discoveryEndpointRes)
    else if IsSpecified(d.authEndpointRes) && d.authEndpointRes !in res.strings then Some(d.authEndpointRes)
    else if IsSpecified(d.tokenEndpointRes) && d.tokenEndpointRes !in res.strings then Some(d.tokenEndpointRes)
    else if d.clientIdRes !in res.strings then Some(d.clientIdRes)
    else if IsSpecified(d.clientSecretRes) && d.clientSecretRes !in res.strings then Some(d.clientSecretRes)
    else if d.redirectUriRes !in res.strings then Some(d.redirectUriRes)
    else if d.scopeRes !in res.strings then Some(d.scopeRes)
    else None
  }

  lemma LookupsMissingId(d: Definition, res: Resources)
    ensures FirstMissing(res, Lookups(d)) == MissingId(d, res)
  {
    var a := [BoolLookup(d.enabledRes)];
    var b := OptionalLookup(d.discoveryEndpointRes);
    var c := OptionalLookup(d.authEndpointRes);
    var e := OptionalLookup(d.tokenEndpointRes);
    var f := [StringLookup(d.clientIdRes)];
    var g := OptionalLookup(d.clientSecretRes);
    var h := [StringLookup(d.redirectUriRes)];
    var k := [StringLookup(d.scopeRes)];
    assert Lookups(d) == a + (b + (c + (e + (f + (g + (h + k))))));
    FirstMissingAppend(res, a, b + (c + (e + (f + (g + (h + k))))));
    FirstMissingAppend(res, b, c + (e + (f + (g + (h + k)))));
    FirstMissingAppend(res, c, e + (f + (g + (h + k))));
    FirstMissingAppend(res, e, f + (g + (h + k)));
    FirstMissingAppend(res, f, g + (h + k));
    FirstMissingAppend(res, g, h + k);
    FirstMissingAppend(res, h, k);
    FirstMissingOptional(res, d.discoveryEndpointRes);
    FirstMissingOptional(res, d.authEndpointRes);
    FirstMissingOptional(res, d.tokenEndpointRes);
    FirstMissingOptional(res, d.clientSecretRes);
  }

  lemma ReadConfigMissingId(d: Definition, res: Resources)
    ensures ReadConfig(d, res).Failure? <==> MissingId(d, res).Some?
    ensures ReadConfig(d, res).Failure? ==> ReadConfig(d, res).error == NotFound(MissingId(d, res).value)
  {
  }

  /** A failed read throws for the first lookup, in source order, whose value is missing. */
  lemma ReadConfigFailsAtFirstMissing(d: Definition, res: Resources)
    ensures ReadConfig(d, res).Failure? <==> FirstMissing(res, Lookups(d)).Some?
    ensures ReadConfig(d, res).Failure? ==> ReadConfig(d, res).error == NotFound(FirstMissing(res, Lookups(d)).value)
  {
    LookupsMissingId(d, res);
    ReadConfigMissingId(d, res);
  }

  /**
   * `readConfiguration`: a provider already read returns at once, whatever the bundle; an unread
   * one becomes read with exactly the bundle's values, or, if a lookup throws, stays unread.
   */
  function ReadConfiguration(p: Provider, res: Resources): (r: Step<()>)
    ensures r.provider.def == p.def
    ensures p.state.Read? ==> r == Step(p, Success(()))
    ensures r.result.Success? <==> p.state.Read? || AllPresent(p.def, res)
    ensures r.result.Success? ==> r.provider.state.Read?
    ensures p.state.Unread? && r.result.Success? ==> ReadFrom(r.provider.state.config, p.def, res)
    ensures r.result.Failure? ==> r.provider == p && p.state.Unread? && r.result.error.NotFound?
  {
    if p.state.Read? then Step(p, Success(()))
    else
      match ReadConfig(p.def, res)
      case Failure(e) => Step(p, Failure(e))
      case Success(c) => Step(Provider(p.def, Read(c)), Success(()))
  }

  /** Reading twice is reading once, even against a different bundle. */
  lemma ReadConfigurationIdempotent(p: Provider, res: Resources, later: Resources)
    ensures var first := ReadConfiguration(p, res);
            first.result.Success? ==> ReadConfiguration(first.provider, later) == Step(first.provider, Success(()))
    ensures var first := ReadConfiguration(p, res);
            ReadConfiguration(first.provider, res) == Step(first.provider, first.result)
  {
  }

  // ---------------------------------------------------------------------------
  // Getters

  /** `checkConfigurationRead`: throws until the configuration has been read. */
  function CheckConfigurationRead(p: Provider): (r: Result<(), Exception>)
    ensures r.Success? <==> p.state.Read?
    ensures r.Failure? ==> r.error == IllegalState(NOT_READ_MESSAGE)
  {
    if !p.state.Read? then Failure(IllegalState(NOT_READ_MESSAGE)) else Success(())
  }

  function IsEnabled(p: Provider): (r: Result<bool, Exception>)
    ensures r.Failure? <==> p.state.Unread?
    ensures r.Failure? ==> r.error == IllegalState(NOT_READ_MESSAGE)
    ensures p.state.Read? ==> r == Success(p.state.config.enabled)
  {
    var _ :- CheckConfigurationRead(p);
    Success(p.state.config.enabled)
  }

  function GetDiscoveryEndpoint(p: Provider): (r: Result<Option<Uri>, Exception>)
    ensures r.Failure? <==> p.state.Unread?
    ensures r.Failure? ==> r.error == IllegalState(NOT_READ_MESSAGE)
    ensures p.state.Read? ==> r == Success(p.state.config.discoveryEndpoint)
  {
    var _ :- CheckConfigurationRead(p);
    Success(p.state.config.discoveryEndpoint)
  }

  function GetAuthEndpoint(p: Provider): (r: Result<Option<Uri>, Exception>)
    ensures r.Failure? <==> p.state.Unread?
    ensures r.Failure? ==> r.error == IllegalState(NOT_READ_MESSAGE)
    ensures p.state.Read? ==> r == Success(p.state.config.authEndpoint)
  {
    var _ :- CheckConfigurationRead(p);
    Success(p.state.config.authEndpoint)
  }

  function GetTokenEndpoint(p: Provider): (r: Result<Option<Uri>, Exception>)
    ensures r.Failure? <==> p.state.Unread?
    ensures r.Failure? ==> r.error == IllegalState(NOT_READ_MESSAGE)
    ensures p.state.Read? ==> r == Success(p.state.config.tokenEndpoint)
  {
    var _ :- CheckConfigurationRead(p);
    Success(p.state.config.tokenEndpoint)
  }

  function GetClientId(p: Provider): (r: Result<string, Exception>)
    ensures r.Failure? <==> p.state.Unread?
    ensures r.Failure? ==> r.error == IllegalState(NOT_READ_MESSAGE)
    ensures p.state.Read? ==> r == Success(p.state.config.clientId)
  {
    var _ :- CheckConfigurationRead(p);
    Success(p.state.config.clientId)
  }

  function GetClientSecret(p: Provider): (r: Result<Option<string>, Exception>)
    ensures r.Failure? <==> p.state.Unread?
    ensures r.Failure? ==> r.error == IllegalState(NOT_READ_MESSAGE)
    ensures p.state.Read? ==> r == Success(p.state.config.clientSecret)
  {
    var _ :- CheckConfigurationRead(p);
    Success(p.state.config.clientSecret)
  }

  function GetRedirectUri(p: Provider): (r: Result<Uri, Exception>)
    ensures r.Failure? <==> p.state.Unread?
    ensures r.Failure? ==> r.error == IllegalState(NOT_READ_MESSAGE)
    ensures p.state.Read? ==> r == Success(p.state.config.redirectUri)
  {
    var _ :- CheckConfigurationRead(p);
    Success(p.state.config.redirectUri)
  }

  function GetScope(p: Provider): (r: Result<string, Exception>)
    ensures r.Failure? <==> p.state.Unread?
    ensures r.Failure? ==> r.error == IllegalState(NOT_READ_MESSAGE)
    ensures p.state.Read? ==> r == Success(p.state.config.scope)
  {
    var _ :- CheckConfigurationRead(p);
    Success(p.state.config.scope)
  }

  /** Every getter of `p` throws the "not read" IllegalStateException. */
  predicate AllGettersThrow(p: Provider) {
    var e := IllegalState(NOT_READ_MESSAGE);
    && IsEnabled(p) == Failure(e)
    && GetDiscoveryEndpoint(p) == Failure(e)
    && GetAuthEndpoint(p) == Failure(e)
    && GetTokenEndpoint(p) == Failure(e)
    && GetClientId(p) == Failure(e)
    && GetClientSecret(p) == Failure(e)
    && GetRedirectUri(p) == Failure(e)
    && GetScope(p) == Failure(e)
  }

  /** A freshly constructed provider, and one whose read threw, answers every getter with IllegalStateException. */
  lemma GettersThrowUntilRead(d: Definition, res: Resources)
    requires NewProvider(d).Success?
    ensures AllGettersThrow(NewProvider(d).value)
    ensures var r := ReadConfiguration(NewProvider(d).value, res);
            r.result.Failure? ==> AllGettersThrow(r.provider)
  {
  }

  /**
   * After a successful read of an unread provider, every getter returns the bundle's value:
   * optional ones null exactly when their id is NOT_SPECIFIED.
   */
  lemma GettersAfterRead(p: Provider, res: Resources)
    requires p.state.Unread?
    requires ReadConfiguration(p, res).result.Success?
    ensures var q := ReadConfiguration(p, res).provider;
            var d := p.def;
            && IsEnabled(q) == Success(res.bools[d.enabledRes])
            && GetDiscoveryEndpoint(q).Success? && OptionalUriFrom(GetDiscoveryEndpoint(q).value, d.discoveryEndpointRes, res)
            && GetAuthEndpoint(q).Success? && OptionalUriFrom(GetAuthEndpoint(q).value, d.authEndpointRes, res)
            && GetTokenEndpoint(q).Success? && OptionalUriFrom(GetTokenEndpoint(q).value, d.tokenEndpointRes, res)
            && GetClientId(q) == Success(res.strings[d.clientIdRes])
            && GetClientSecret(q).Success? && OptionalStringFrom(GetClientSecret(q).value, d.clientSecretRes, res)
            && GetRedirectUri(q) == Success(Parse(res.strings[d.redirectUriRes]))
            && GetScope(q) == Success(res.strings[d.scopeRes])
  {
  }

  // ---------------------------------------------------------------------------
  // Reachable states

  /**
   * The invariant of every provider the program can reach: its read configuration has null optional
   * fields exactly where the definition's ids are NOT_SPECIFIED.
   */
  predicate Consistent(p: Provider) {
    p.state.Read? ==>
      var c := p.state.config;
      && (c.discoveryEndpoint.None? <==> !IsSpecified(p.def.discoveryEndpointRes))
      && (c.authEndpoint.None? <==> !IsSpecified(p.def.authEndpointRes))
      && (c.tokenEndpoint.None? <==> !IsSpecified(p.def.tokenEndpointRes))
      && (c.clientSecret.None? <==> !IsSpecified(p.def.clientSecretRes))
  }

  /** Construction establishes the invariant and reading keeps it. */
  lemma ConsistentIsInvariant(d: Definition, p: Provider, res: Resources)
    ensures NewProvider(d).Success? ==> Consistent(NewProvider(d).value)
    ensures Consistent(p) ==> Consistent(ReadConfiguration(p, res).provider)
  {
  }

  // ---------------------------------------------------------------------------
  // Endpoint dispatch

  /** The OpenID Connect discovery document; never produced on the explicit path. */
  datatype DiscoveryDoc = DiscoveryDoc(json: string)

  /** An AuthorizationServiceConfiguration: the two endpoints and the discovery document it came from. */
  datatype ServiceConfig = ServiceConfig(
    authorizationEndpoint: Option<Uri>,
    tokenEndpoint: Option<Uri>,
    discoveryDoc: Option<DiscoveryDoc>)

  /** The library's AuthorizationException, left abstract. */
  datatype AuthorizationError = AuthorizationError(description: string)

  /** One invocation of `onFetchConfigurationCompleted`. */
  datatype Completion = Completion(config: Option<ServiceConfig>, error: Option<AuthorizationError>)

  /**
   * What `retrieveConfig` does before it returns: the discovery URIs it hands to the external
   * fetch (which later calls the callback itself) and the callback invocations it makes directly.
   */
  datatype Dispatch = Dispatch(fetches: seq<Uri>, callbacks: seq<Completion>)

  /**
   * `retrieveConfig`: reads the configuration if need be, then either hands the discovery URI to the
   * fetch or calls the callback once, synchronously, with the explicit endpoints and no error.
   */
  function RetrieveConfig(p: Provider, res: Resources): (r: Step<Dispatch>)
    ensures r.provider == ReadConfiguration(p, res).provider
    ensures r.result.Failure? <==> ReadConfiguration(p, res).result.Failure?
    ensures r.result.Failure? ==> r.result.error.NotFound?
    ensures r.result.Success? ==> r.provider.state.Read?
    ensures r.result.Success? ==> |r.result.value.fetches| + |r.result.value.callbacks| == 1
    ensures r.result.Success? ==>
              var c := r.provider.state.config;
              && (c.discoveryEndpoint.Some? ==> r.result.value == Dispatch([c.discoveryEndpoint.value], []))
              && (c.discoveryEndpoint.None? ==>
                    r.result.value == Dispatch([], [Completion(Some(ServiceConfig(c.authEndpoint, c.tokenEndpoint, None)), None)]))
  {
    var read := ReadConfiguration(p, res);
    var q := read.provider;
    match read.result
    case Failure(e) => Step(q, Failure(e))
    case Success(_) =>
      match GetDiscoveryEndpoint(q)
      case Failure(e) => Step(q, Failure(e))
      case Success(discovery) =>
        if discovery.Some? then
          Step(q, Success(Dispatch([q.state.config.discoveryEndpoint.value], [])))
        else
          var config := ServiceConfig(q.state.config.authEndpoint, q.state.config.tokenEndpoint, None);
          Step(q, Success(Dispatch([], [Completion(Some(config), None)])))
  }

  /**
   * For a reachable provider, the discovery path is taken exactly when the definition names a
   * discovery endpoint, and the explicit path calls back exactly once, with success and no error.
   */
  lemma DispatchFollowsDefinition(p: Provider, res: Resources)
    requires Consistent(p)
    requires RetrieveConfig(p, res).result.Success?
    ensures var d := RetrieveConfig(p, res).result.value;
            && (d.fetches != [] <==> IsSpecified(p.def.discoveryEndpointRes))
            && (d.fetches == [] ==> |d.callbacks| == 1 && d.callbacks[0].config.Some? && d.callbacks[0].error.None?
                                    && d.callbacks[0].config.value.discoveryDoc.None?)
  {
  }

  /** On first use the two paths carry the bundle's values: the discovery URI, or the explicit endpoints. */
  lemma DispatchUsesBundle(p: Provider, res: Resources)
    requires p.state.Unread?
    requires RetrieveConfig(p, res).result.Success?
    ensures var d := RetrieveConfig(p, res).result.value;
            var def := p.def;
            && (IsSpecified(def.discoveryEndpointRes) ==> d.fetches == [Parse(res.strings[def.discoveryEndpointRes])])
            && (!IsSpecified(def.discoveryEndpointRes) ==>
                  OptionalUriFrom(d.callbacks[0].config.value.authorizationEndpoint, def.authEndpointRes, res)
                  && OptionalUriFrom(d.callbacks[0].config.value.tokenEndpoint, def.tokenEndpointRes, res))
  {
  }

  /** An accepted definition that takes the explicit path passes at least one non-null endpoint to the callback. */
  lemma ExplicitPathHasAnEndpoint(p: Provider, res: Resources)
    requires NewProvider(p.def).Success?
    requires Consistent(p)
    requires RetrieveConfig(p, res).result.Success?
    requires RetrieveConfig(p, res).result.value.fetches == []
    ensures var config := RetrieveConfig(p, res).result.value.callbacks[0].config.value;
            config.authorizationEndpoint.Some? || config.tokenEndpoint.Some?
  {
  }
}
