/**
 * The fixed registry of the demo's four identity providers and the filter that keeps the
 * enabled ones. The generated resource ids are not visible; any distinct ids other than
 * NOT_SPECIFIED serve, and those below are stand-ins.
 */
module Registry {
  import opened Failures
  import opened AndroidResources
  import opened IdentityProviders

  const FACEBOOK_ENABLED: int := 1
  const FACEBOOK_AUTH_ENDPOINT: int := 2
  const FACEBOOK_TOKEN_ENDPOINT: int := 3
  const FACEBOOK_CLIENT_ID: int := 4
  const FACEBOOK_CLIENT_SECRET: int := 5
  const FACEBOOK_AUTH_REDIRECT_URI: int := 6
  const FACEBOOK_SCOPE_STRING: int := 7
  const FACEBOOK_BUTTON: int := 8
  const FACEBOOK_NAME: int := 9

  const GITHUB_ENABLED: int := 11
  const GITHUB_AUTH_ENDPOINT: int := 12
  const GITHUB_TOKEN_ENDPOINT: int := 13
  const GITHUB_CLIENT_ID: int := 14
  const GITHUB_CLIENT_SECRET: int := 15
  const GITHUB_AUTH_REDIRECT_URI: int := 16
  const GITHUB_SCOPE_STRING: int := 17
  const GITHUB_BUTTON: int := 18
  const GITHUB_NAME: int := 19

  const GOOGLE_ENABLED: int := 21
  const GOOGLE_DISCOVERY_URI: int := 22
  const GOOGLE_CLIENT_ID: int := 23
  const GOOGLE_AUTH_REDIRECT_URI: int := 24
  const GOOGLE_SCOPE_STRING: int := 25
  const GOOGLE_BUTTON: int := 26
  const GOOGLE_NAME: int := 27

  const MICROSOFT_ENABLED: int := 31
  const MICROSOFT_DISCOVERY_URI: int := 32
  const MICROSOFT_CLIENT_ID: int := 33
  const MICROSOFT_AUTH_REDIRECT_URI: int := 34
  const MICROSOFT_SCOPE_STRING: int := 35
  const MICROSOFT_BUTTON: int := 36
  const MICROSOFT_NAME: int := 37

  /** Facebook has no discovery document: explicit endpoints and a client secret. */
  const FACEBOOK_DEFINITION: Definition := Definition(
    "Facebook", FACEBOOK_ENABLED, NOT_SPECIFIED, FACEBOOK_AUTH_ENDPOINT, FACEBOOK_TOKEN_ENDPOINT,
    FACEBOOK_CLIENT_ID, FACEBOOK_CLIENT_SECRET, FACEBOOK_AUTH_REDIRECT_URI, FACEBOOK_SCOPE_STRING,
    FACEBOOK_BUTTON, FACEBOOK_NAME)

  /** GitHub has no discovery document: explicit endpoints and a client secret. */
  const GITHUB_DEFINITION: Definition := Definition(
    "GitHub", GITHUB_ENABLED, NOT_SPECIFIED, GITHUB_AUTH_ENDPOINT, GITHUB_TOKEN_ENDPOINT,
    GITHUB_CLIENT_ID, GITHUB_CLIENT_SECRET, GITHUB_AUTH_REDIRECT_URI, GITHUB_SCOPE_STRING,
    GITHUB_BUTTON, GITHUB_NAME)

  /** Google's endpoints are discovered; it needs no client secret. */
  const GOOGLE_DEFINITION: Definition := Definition(
    "Google", GOOGLE_ENABLED, GOOGLE_DISCOVERY_URI, NOT_SPECIFIED, NOT_SPECIFIED,
    GOOGLE_CLIENT_ID, NOT_SPECIFIED, GOOGLE_AUTH_REDIRECT_URI, GOOGLE_SCOPE_STRING,
    GOOGLE_BUTTON, GOOGLE_NAME)

  /** Microsoft's endpoints are discovered; it needs no client secret. */
  const MICROSOFT_DEFINITION: Definition := Definition(
    "Microsoft", MICROSOFT_ENABLED, MICROSOFT_DISCOVERY_URI, NOT_SPECIFIED, NOT_SPECIFIED,
    MICROSOFT_CLIENT_ID, NOT_SPECIFIED, MICROSOFT_AUTH_REDIRECT_URI, MICROSOFT_SCOPE_STRING,
    MICROSOFT_BUTTON, MICROSOFT_NAME)

  const FACEBOOK: Provider := NewProvider(FACEBOOK_DEFINITION).Extract()
  const GITHUB: Provider := NewProvider(GITHUB_DEFINITION).Extract()
  const GOOGLE: Provider := NewProvider(GOOGLE_DEFINITION).Extract()
  const MICROSOFT: Provider := NewProvider(MICROSOFT_DEFINITION).Extract()

  /** The registry, in registration order. */
  const PROVIDERS: seq<Provider> := [FACEBOOK, GITHUB, GOOGLE, MICROSOFT]

  /** The four definitions pass the constructor, so the registry starts out unread and consistent. */
  lemma RegistryIsWellFormed()
    ensures |PROVIDERS| == 4
    ensures forall i :: 0 <= i < |PROVIDERS| ==> NewProvider(PROVIDERS[i].def) == Success(PROVIDERS[i])
    ensures forall i :: 0 <= i < |PROVIDERS| ==> PROVIDERS[i].state.Unread? && Consistent(PROVIDERS[i])
  {
  }

  /**
   * Facebook and GitHub always take the explicit path and Google and Microsoft always take the
   * discovery path, whatever the bundle and whether or not the provider has been read before.
   */
  lemma RegistryDispatch(i: nat, p: Provider, res: Resources)
    requires i < |PROVIDERS| && p.def == PROVIDERS[i].def
    requires Consistent(p)
    requires RetrieveConfig(p, res).result.Success?
    ensures RetrieveConfig(p, res).result.value.fetches != [] <==> i >= 2
    ensures RetrieveConfig(p, res).result.value.fetches == [] ==> |RetrieveConfig(p, res).result.value.callbacks| == 1
  {
    DispatchFollowsDefinition(p, res);
  }

  /** A Facebook-like provider calls back at once with exactly its configured endpoints and no discovery document. */
  lemma FacebookExplicitScenario(res: Resources)
    requires res.bools == map[FACEBOOK_ENABLED := true]
    requires res.strings == map[
      FACEBOOK_AUTH_ENDPOINT := "https://example.com/authorize",
      FACEBOOK_TOKEN_ENDPOINT := "https://example.com/token",
      FACEBOOK_CLIENT_ID := "client",
      FACEBOOK_CLIENT_SECRET := "secret",
      FACEBOOK_AUTH_REDIRECT_URI := "app:/oauth2redirect",
      FACEBOOK_SCOPE_STRING := "public_profile"]
    ensures RetrieveConfig(FACEBOOK, res).result == Success(Dispatch([], [
              Completion(Some(ServiceConfig(Some(Uri("https://example.com/authorize")),
                                            Some(Uri("https://example.com/token")), None)), None)]))
  {
    assert AllPresent(FACEBOOK.def, res);
  }

  /** A Google-like provider hands its discovery URI to the fetch and calls nothing back itself. */
  lemma GoogleDiscoveryScenario(res: Resources)
    requires res.bools == map[GOOGLE_ENABLED := true]
    requires res.strings == map[
      GOOGLE_DISCOVERY_URI := "https://accounts.example.com/.well-known/openid-configuration",
      GOOGLE_CLIENT_ID := "client",
      GOOGLE_AUTH_REDIRECT_URI := "app:/oauth2redirect",
      GOOGLE_SCOPE_STRING := "openid profile"]
    ensures RetrieveConfig(GOOGLE, res).result ==
              Success(Dispatch([Uri("https://accounts.example.com/.well-known/openid-configuration")], []))
  {
    assert AllPresent(GOOGLE.def, res);
  }

  // ---------------------------------------------------------------------------
  // The enabled filter

  /** A provider that has been read and whose enabled flag is true. */
  predicate IsEnabledRead(p: Provider) {
    p.state.Read? && p.state.config.enabled
  }

  /** The providers of `ps` that are read and enabled, in their original order. */
  function EnabledOnly(ps: seq<Provider>): seq<Provider> {
    if |ps| == 0 then []
    else EnabledOnly(ps[..|ps| - 1]) + (if IsEnabledRead(ps[|ps| - 1]) then [ps[|ps| - 1]] else [])
  }

  /** `a` can be obtained from `b` by deleting elements. */
  predicate IsSubsequence<T(==)>(a: seq<T>, b: seq<T>)
    decreases |b|
  {
    if |a| == 0 then true
    else if |b| == 0 then false
    else (a[|a| - 1] == b[|b| - 1] && IsSubsequence(a[..|a| - 1], b[..|b| - 1])) || IsSubsequence(a, b[..|b| - 1])
  }

  /** The filter keeps exactly the read, enabled providers. */
  lemma {:induction false} EnabledOnlyMembers(ps: seq<Provider>)
    ensures forall p :: p in EnabledOnly(ps) <==> p in ps && IsEnabledRead(p)
  {
    if |ps| > 0 {
      EnabledOnlyMembers(ps[..|ps| - 1]);
      assert ps == ps[..|ps| - 1] + [ps[|ps| - 1]];
    }
  }

  /** The filter keeps the providers' relative order. */
  lemma {:induction false} EnabledOnlyIsSubsequence(ps: seq<Provider>)
    ensures IsSubsequence(EnabledOnly(ps), ps)
  {
    if |ps| > 0 {
      var init := ps[..|ps| - 1];
      EnabledOnlyIsSubsequence(init);
      var kept := EnabledOnly(ps);
      if IsEnabledRead(ps[|ps| - 1]) {
        assert kept[..|kept| - 1] == EnabledOnly(init);
      } else {
        if |kept| > 0 {
          assert kept == EnabledOnly(init);
        }
      }
    }
  }

  /** The reads of `registry[..k]` all succeeded, leaving the providers `after[..k]`. */
  predicate ReadsSucceedBefore(registry: seq<Provider>, after: seq<Provider>, res: Resources, k: int)
    requires 0 <= k <= |registry| && |after| == |registry|
  {
    forall j :: 0 <= j < k ==>
      ReadConfiguration(registry[j], res).result.Success? && after[j] == ReadConfiguration(registry[j], res).provider
  }

  /** Every provider of `registry` can be read from `res`. */
  predicate AllReadsSucceed(registry: seq<Provider>, res: Resources) {
    forall i :: 0 <= i < |registry| ==> ReadConfiguration(registry[i], res).result.Success?
  }

  /**
   * The read of `registry[k]` threw `e` after the reads before it succeeded: `after` holds those
   * read providers, then `registry[k..]` unchanged.
   */
  predicate FailedAt(registry: seq<Provider>, after: seq<Provider>, res: Resources, k: int, e: Exception)
    requires |after| == |registry|
  {
    && 0 <= k < |registry|
    && ReadsSucceedBefore(registry, after, res, k)
    && ReadConfiguration(registry[k], res).result == Failure(e)
    && after[k..] == registry[k..]
  }

  /**
   * `getEnabledProviders`: reads every provider of the registry in order and returns those whose
   * enabled flag is true. `after` is the registry afterwards. If a read throws, the exception
   * propagates: the providers before it are read, it and those after it are unchanged.
   */
  method GetEnabledProviders(registry: seq<Provider>, res: Resources)
      returns (after: seq<Provider>, enabled: Result<seq<Provider>, Exception>)
    ensures |after| == |registry|
    ensures enabled.Success? <==> AllReadsSucceed(registry, res)
    ensures enabled.Success? ==> ReadsSucceedBefore(registry, after, res, |registry|)
    ensures enabled.Success? ==> forall i :: 0 <= i < |after| ==> after[i].state.Read?
    ensures enabled.Success? ==> enabled.value == EnabledOnly(after)
    ensures enabled.Failure? ==> exists k :: FailedAt(registry, after, res, k, enabled.error)
  {
    after := registry;
    var kept: seq<Provider> := [];
    var i := 0;
    while i < |registry|
      invariant 0 <= i <= |registry|
      invariant |after| == |registry|
      invariant after[i..] == registry[i..]
      invariant ReadsSucceedBefore(registry, after, res, i)
      invariant forall j :: 0 <= j < i ==> after[j].state.Read?
      invariant kept == EnabledOnly(after[..i])
    {
      var step := ReadConfiguration(registry[i], res);
      if step.result.Failure? {
        enabled := Failure(step.result.error);
        assert FailedAt(registry, after, res, i, enabled.error);
        return;
      }
      var previous := after;
      after := after[i := step.provider];
      assert after[..i] == previous[..i];
      assert after[..i + 1] == after[..i] + [step.provider];
      if IsEnabled(step.provider).value {
        kept := kept + [step.provider];
      }
      i := i + 1;
    }
    assert after[..i] == after;
    enabled := Success(kept);
  }
}
