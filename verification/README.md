# Identity-provider configuration of the AppAuth multi-provider demo

The demo app signs users in with one of four identity providers: Facebook, GitHub, Google and
Microsoft. Each provider is an `IdentityProvider` object. It is defined by Android resource ids,
and any optional id may be the sentinel `NOT_SPECIFIED = -1`. The object goes through four steps:

- **Construction.** The constructor validates the ids.
- **Reading.** `readConfiguration` resolves the ids against the app's resources exactly once.
- **Getters.** Each getter refuses to answer until that read has happened.
- **Dispatch.** `retrieveConfig` either hands a discovery-document URI to the AppAuth library or
  calls the caller's callback directly with explicitly configured endpoints.

`getEnabledProviders` reads every provider of the fixed registry and keeps the enabled ones.

The model is written functionally:

- A provider is a `Definition` (the constructor's arguments) plus a `State`, either `Unread` or
  `Read(config)`.
- Every state-changing Java method (`readConfiguration`, `retrieveConfig`) is a pure function from
  the provider and the resource bundle to a `Step`. A `Step` is the provider afterwards plus what
  the call returned or threw.
- The constructor, `checkSpecified`, `checkConfigurationRead` and the eight getters change no
  state. Each is a pure function that returns a plain `Result`.
- `getEnabledProviders` is a method with two outputs: the registry afterwards (`after`) and the
  returned list or the thrown exception (`enabled`).
- Exceptions are values of `Failures.Exception`:
  - `IllegalArgument` comes from the constructor.
  - `IllegalState` comes from the getters.
  - `NotFound` is Android's `Resources.NotFoundException`.

Files:

- `failures.dfy`: `Option` for nullable references, `Result` for "returns or throws", and the
  exceptions.
- `resources.dfy`: an abstract `Uri` with a total `Parse`, and the resource bundle. The bundle is a map of boolean resources and a map of string resources.
- `identity_provider.dfy`: the `NOT_SPECIFIED` sentinel with `isSpecified` and `checkSpecified`,
  `getUriResource`, the constructor, `readConfiguration`, `checkConfigurationRead`, the
  eight getters and `retrieveConfig`. It also holds `Consistent`, the invariant of reachable
  providers.
- `registry.dfy`: the four provider definitions, `PROVIDERS`, and `getEnabledProviders` as a loop
  over the registry, together with a reference filter `EnabledOnly`.

## Behaviour the model keeps as written

- The constructor's error message reads "the discovery endpoint or the auth and token endpoints
  must be specified". The check behind it (`IdentityProvider.java:167-172`) rejects a definition
  only when all three endpoint ids are missing. So a definition with just an auth endpoint is
  accepted:
  - `AuthEndpointAloneIsAccepted` states this.
  - On the explicit path such a provider hands the library a null token endpoint.
  - `ExplicitPathHasAnEndpoint` states all that the code does guarantee: at least one of the two
    endpoints is non-null.
  - The model follows the code, not the stronger reading of the message.
- A failed resource lookup is not handled. The `Resources.NotFoundException` propagates out of
  `readConfiguration`, and out of `getEnabledProviders` or `retrieveConfig` if one of them made the
  call. The provider stays unread and can be read again later. The model returns the exception
  together with the unchanged provider.

## Model

| member | source | states |
|---|---|---|
| IdentityProviders.IsSpecified | src/net/openid/appauthdemo/moreidps/IdentityProvider.java:281-283 | an id counts as given exactly when it differs from the sentinel NOT_SPECIFIED = -1 |
| IdentityProviders.GetUriResource | src/net/openid/appauthdemo/moreidps/IdentityProvider.java:292-294 | succeeds iff the bundle holds the string resource, and then yields the URI parsed from exactly that string; otherwise the lookup's NotFound |
| IdentityProviders.CheckSpecified | src/net/openid/appauthdemo/moreidps/IdentityProvider.java:285-290 | an id passes through unchanged exactly when it is not the sentinel; otherwise IllegalArgumentException "<name> must be specified" |
| IdentityProviders.NewProvider | src/net/openid/appauthdemo/moreidps/IdentityProvider.java:155-186 | construction succeeds iff some endpoint id is given and all six required ids are given; the no-endpoint error takes precedence; a success stores every id, optional ones included, unchanged, in the unread state |
| IdentityProviders.NewProviderReportsFirstMissing | src/net/openid/appauthdemo/moreidps/IdentityProvider.java:174-185 | with an endpoint present, the exception names the first missing required id in the order enabled, clientId, redirectUri, scope, buttonImage, buttonContentDescription |
| IdentityProviders.AuthEndpointAloneIsAccepted | src/net/openid/appauthdemo/moreidps/IdentityProvider.java:167-172 | an auth endpoint with neither token nor discovery endpoint passes validation (the check is weaker than "discovery or both explicit endpoints") |
| IdentityProviders.ReadConfig | src/net/openid/appauthdemo/moreidps/IdentityProvider.java:196-211 | the lookups succeed iff every value they need is in the bundle; the result holds exactly the bundle's values, with optional fields null iff their id is NOT_SPECIFIED and URIs parsed; a failure is a NotFound |
| IdentityProviders.ReadConfigFailsAtFirstMissing | src/net/openid/appauthdemo/moreidps/IdentityProvider.java:196-211 | a failed read throws for the first lookup, in source order, whose value is missing, skipping unspecified optional ids |
| IdentityProviders.ReadConfiguration | src/net/openid/appauthdemo/moreidps/IdentityProvider.java:191-214 | a read provider is returned untouched whatever the bundle; an unread one becomes read with the bundle's values; if a lookup throws, it stays unread and unchanged |
| IdentityProviders.ReadConfigurationIdempotent | src/net/openid/appauthdemo/moreidps/IdentityProvider.java:191-194 | after a successful read, reading again, even against another bundle, changes nothing; repeating a read against the same bundle gives the same outcome |
| IdentityProviders.CheckConfigurationRead | src/net/openid/appauthdemo/moreidps/IdentityProvider.java:216-220 | passes iff the configuration has been read, else IllegalStateException "Configuration not read" |
| IdentityProviders.IsEnabled | src/net/openid/appauthdemo/moreidps/IdentityProvider.java:222-225 | throws IllegalStateException "Configuration not read" exactly when the provider is unread; once read, returns the stored field |
| IdentityProviders.GetDiscoveryEndpoint | src/net/openid/appauthdemo/moreidps/IdentityProvider.java:227-231 | throws IllegalStateException "Configuration not read" exactly when the provider is unread; once read, returns the stored field |
| IdentityProviders.GetAuthEndpoint | src/net/openid/appauthdemo/moreidps/IdentityProvider.java:233-237 | throws IllegalStateException "Configuration not read" exactly when the provider is unread; once read, returns the stored field |
| IdentityProviders.GetTokenEndpoint | src/net/openid/appauthdemo/moreidps/IdentityProvider.java:239-243 | throws IllegalStateException "Configuration not read" exactly when the provider is unread; once read, returns the stored field |
| IdentityProviders.GetClientId | src/net/openid/appauthdemo/moreidps/IdentityProvider.java:245-249 | throws IllegalStateException "Configuration not read" exactly when the provider is unread; once read, returns the stored field |
| IdentityProviders.GetClientSecret | src/net/openid/appauthdemo/moreidps/IdentityProvider.java:251-255 | throws IllegalStateException "Configuration not read" exactly when the provider is unread; once read, returns the stored field |
| IdentityProviders.GetRedirectUri | src/net/openid/appauthdemo/moreidps/IdentityProvider.java:257-261 | throws IllegalStateException "Configuration not read" exactly when the provider is unread; once read, returns the stored field |
| IdentityProviders.GetScope | src/net/openid/appauthdemo/moreidps/IdentityProvider.java:263-267 | throws IllegalStateException "Configuration not read" exactly when the provider is unread; once read, returns the stored field |
| IdentityProviders.GettersThrowUntilRead | src/net/openid/appauthdemo/moreidps/IdentityProvider.java:216-267 | a newly constructed provider, and one whose read threw, answers all eight getters with IllegalStateException |
| IdentityProviders.GettersAfterRead | src/net/openid/appauthdemo/moreidps/IdentityProvider.java:191-267 | after a successful first read each getter returns the bundle's value; clientId, redirectUri and scope are always populated; the optional ones are null iff their id is NOT_SPECIFIED |
| IdentityProviders.ConsistentIsInvariant | src/net/openid/appauthdemo/moreidps/IdentityProvider.java:155-214 | construction establishes, and reading preserves, that a read provider's optional fields are null exactly where its ids are NOT_SPECIFIED |
| IdentityProviders.RetrieveConfig | src/net/openid/appauthdemo/moreidps/IdentityProvider.java:269-279 | reads first and propagates a read failure; otherwise exactly one of: the discovery URI is handed to the fetch, or the callback is called once with the auth and token endpoints, no discovery document and no error |
| IdentityProviders.DispatchFollowsDefinition | src/net/openid/appauthdemo/moreidps/IdentityProvider.java:269-279 | for a reachable provider the discovery path is taken iff the definition has a discovery id; the explicit path calls back exactly once with a configuration and without an error |
| IdentityProviders.DispatchUsesBundle | src/net/openid/appauthdemo/moreidps/IdentityProvider.java:269-279 | on first use the fetched URI is the parsed discovery resource, and the explicit endpoints are the parsed auth and token resources, null where unspecified |
| IdentityProviders.ExplicitPathHasAnEndpoint | src/net/openid/appauthdemo/moreidps/IdentityProvider.java:167-172 | a provider that passed the constructor and takes the explicit path passes at least one non-null endpoint to the callback |
| Registry.RegistryIsWellFormed | src/net/openid/appauthdemo/moreidps/IdentityProvider.java:43-99 | the four definitions pass the constructor, and PROVIDERS holds them unread and consistent, in the order Facebook, GitHub, Google, Microsoft |
| Registry.RegistryDispatch | src/net/openid/appauthdemo/moreidps/IdentityProvider.java:43-93 | Facebook and GitHub always take the explicit path, with exactly one callback; Google and Microsoft always take the discovery path |
| Registry.FacebookExplicitScenario | src/net/openid/appauthdemo/moreidps/IdentityProvider.java:43-54 | with a bundle holding Facebook's values, dispatch calls back at once with exactly the configured auth and token URIs, no discovery document and no error |
| Registry.GoogleDiscoveryScenario | src/net/openid/appauthdemo/moreidps/IdentityProvider.java:69-80 | with a bundle holding Google's values, dispatch hands exactly the configured discovery URI to the fetch and makes no callback itself |
| Registry.EnabledOnlyMembers | src/net/openid/appauthdemo/moreidps/IdentityProvider.java:101-110 | a provider is kept by the filter iff it is in the input, read and enabled |
| Registry.EnabledOnlyIsSubsequence | src/net/openid/appauthdemo/moreidps/IdentityProvider.java:101-110 | the filter's output is a subsequence of its input, so registration order is kept |
| Registry.GetEnabledProviders | src/net/openid/appauthdemo/moreidps/IdentityProvider.java:101-110 | succeeds iff every provider's read succeeds; then every provider is left read and the result is exactly the enabled ones in registry order; otherwise the first failing read's exception is returned, with earlier providers read and the rest unchanged |

## Left out

- `MainActivity.java`: button creation, layout, logging and custom-tab colours, plus the AppAuth
  authorization-request calls. This is UI glue around library code that is not part of this model.
- `Context`: `context.getResources()` becomes the `Resources` parameter of the functions that read.
- `Uri.parse`: URI syntax is not modelled. A `Uri` records the text it was parsed from, and parsing
  never fails, as in Android.
- `Resources` lookups: kind coercions (for example a string read as a boolean) are not modelled. A
  lookup either finds a value of the wanted kind or throws `NotFound`.
- The `R.*` resource ids: they are generated code that is not visible. `registry.dfy` uses distinct
  positive stand-ins. No proof depends on their values beyond their being pairwise distinct and
  differing from -1.
- `buttonImageRes` and `buttonContentDescriptionRes`: only their "must be specified" check is
  modelled. The `name` field is stored and never checked.
- IdentityProviders.RetrieveConfig: on the discovery path it states only that the URI is handed to
  `AuthorizationServiceConfiguration.fetchFromUrl`. That fetch is external asynchronous network I/O.
  Its later callback, and its success or failure, are not modelled.
- The `AuthorizationServiceConfiguration` constructor: any null checks it makes on the endpoints are
  in the library and are not modelled. The explicit path is modelled up to the callback argument.
- A read that throws halfway has already assigned some fields in Java. Those fields cannot be
  observed, because every getter checks the read flag and a later read overwrites them all. So the
  model keeps the provider unread and unchanged.
- Concurrency: the source has no synchronisation, and none is modelled.
