/**
 * handlers/api_version_check.go: the bearer-realm cache filled by probing
 * `<registry>/v2/`, and the reply to `GET /v2/`. The probe's outcome is an
 * input of the model; the HTTP request itself is not modelled.
 */
module ApiVersionCheck {
  import opened Results
  import opened GoStrings
  import opened Config

  const StatusUnauthorized := 401

  /** A challenge piece naming the realm starts with this. */
  const BearerRealmPrefix := "Bearer realm="

  /** ... and this is stripped from its front before the closing quote is. */
  const QuotedRealmPrefix := "Bearer realm=\""

  /** What probing `<registry>/v2/` gave. */
  datatype Probe =
    | TransportError(reason: string)
    | Response(status: int, wwwAuthenticate: seq<string>)

  datatype RealmError =
    | ProbeFailed(reason: string)
    | NoAuthenticationInformation(registry: string)

  /**
   * The realm carried by a `Bearer realm="..."` piece: for a piece of the
   * form `Bearer realm="<realm>"`, exactly `<realm>`.
   */
  function RealmValue(piece: string): (realm: string)
    ensures |realm| <= |piece|
    ensures HasPrefix(piece, QuotedRealmPrefix) && |piece| > |QuotedRealmPrefix| && HasSuffix(piece, "\"") ==>
      QuotedRealmPrefix + realm + "\"" == piece
  {
    var t := TrimPrefix(piece, QuotedRealmPrefix);
    assert HasPrefix(piece, QuotedRealmPrefix) && |piece| > |QuotedRealmPrefix| && HasSuffix(piece, "\"") ==>
      HasSuffix(t, "\"") by {
      if HasPrefix(piece, QuotedRealmPrefix) && |piece| > |QuotedRealmPrefix| && HasSuffix(piece, "\"") {
        assert t == piece[|QuotedRealmPrefix|..];
        assert t[|t| - 1..] == piece[|piece| - 1..];
      }
    }
    TrimSuffix(t, "\"")
  }

  /** The realm of the first piece that starts with `Bearer realm=`, if any. */
  function FirstRealm(pieces: seq<string>): (realm: Option<string>)
    ensures realm.Some? ==>
      exists i :: 0 <= i < |pieces| && HasPrefix(pieces[i], BearerRealmPrefix) && realm.value == RealmValue(pieces[i])
  {
    if |pieces| == 0 then None
    else if HasPrefix(pieces[0], BearerRealmPrefix) then Some(RealmValue(pieces[0]))
    else FirstRealm(pieces[1..])
  }

  /**
   * FirstRealm finds nothing exactly when no piece starts with
   * `Bearer realm=`; otherwise it reads the first such piece.
   */
  lemma {:induction false} FirstRealmIsFirstMatch(pieces: seq<string>)
    ensures FirstRealm(pieces).None? <==> forall i :: 0 <= i < |pieces| ==> !HasPrefix(pieces[i], BearerRealmPrefix)
    ensures FirstRealm(pieces).Some? ==>
      exists i :: 0 <= i < |pieces| && HasPrefix(pieces[i], BearerRealmPrefix)
        && (forall j :: 0 <= j < i ==> !HasPrefix(pieces[j], BearerRealmPrefix))
        && FirstRealm(pieces).value == RealmValue(pieces[i])
  {
    if |pieces| > 0 && !HasPrefix(pieces[0], BearerRealmPrefix) {
      FirstRealmIsFirstMatch(pieces[1..]);
      assert forall i :: 1 <= i < |pieces| ==> pieces[i] == pieces[1..][i - 1];
      if FirstRealm(pieces[1..]).Some? {
        var i :| 0 <= i < |pieces[1..]| && HasPrefix(pieces[1..][i], BearerRealmPrefix)
          && (forall j :: 0 <= j < i ==> !HasPrefix(pieces[1..][j], BearerRealmPrefix))
          && FirstRealm(pieces[1..]).value == RealmValue(pieces[1..][i]);
        assert HasPrefix(pieces[i + 1], BearerRealmPrefix);
      }
    }
  }

  /**
   * The loop over the comma-separated pieces of a `WWW-Authenticate` value:
   * the first piece starting with `Bearer realm=` gives the realm, with
   * `Bearer realm="` stripped from its front and `"` from its end.
   */
  method ExtractRealm(header: string) returns (realm: Option<string>)
    ensures realm == FirstRealm(Split(header, ','))
    ensures realm.None? <==> forall i :: 0 <= i < |Split(header, ',')| ==> !HasPrefix(Split(header, ',')[i], BearerRealmPrefix)
  {
    var pieces := Split(header, ',');
    var i := 0;
    while i < |pieces|
      invariant 0 <= i <= |pieces|
      invariant FirstRealm(pieces) == FirstRealm(pieces[i..])
    {
      assert pieces[i..][1..] == pieces[i + 1..];
      if HasPrefix(pieces[i], BearerRealmPrefix) {
        FirstRealmIsFirstMatch(pieces);
        return Some(RealmValue(pieces[i]));
      }
      i := i + 1;
    }
    FirstRealmIsFirstMatch(pieces);
    return None;
  }

  /**
   * What a probe makes of the realm: the value to cache, or the error to
   * return. A failed request is its own error; any status other than 401
   * means "no bearer authentication" (`""`); a 401 gives a realm exactly when
   * it carries a single `WWW-Authenticate` value with a `Bearer realm=` piece.
   */
  function ProbeVerdict(registry: string, probe: Probe): (v: Result<string, RealmError>)
    ensures probe.TransportError? ==> v == Failure(ProbeFailed(probe.reason))
    ensures probe.Response? && probe.status != StatusUnauthorized ==> v == Success("")
    ensures probe.Response? && probe.status == StatusUnauthorized ==>
      (v.Success? <==>
        |probe.wwwAuthenticate| == 1 &&
        exists i :: 0 <= i < |Split(probe.wwwAuthenticate[0], ',')| && HasPrefix(Split(probe.wwwAuthenticate[0], ',')[i], BearerRealmPrefix))
    ensures probe.Response? && probe.status == StatusUnauthorized && v.Failure? ==>
      v.error == NoAuthenticationInformation(registry)
    ensures probe.Response? && probe.status == StatusUnauthorized && v.Success? ==>
      && |probe.wwwAuthenticate| == 1
      && FirstRealm(Split(probe.wwwAuthenticate[0], ',')).Some?
      && v.value == FirstRealm(Split(probe.wwwAuthenticate[0], ',')).value
  {
    var values := if probe.Response? then probe.wwwAuthenticate else [];
    assert |values| == 1 ==>
      (FirstRealm(Split(values[0], ',')).None? ==
        forall i :: 0 <= i < |Split(values[0], ',')| ==> !HasPrefix(Split(values[0], ',')[i], BearerRealmPrefix)) by {
      if |values| == 1 {
        FirstRealmIsFirstMatch(Split(values[0], ','));
      }
    }
    match probe
    case TransportError(reason) => Failure(ProbeFailed(reason))
    case Response(status, values) =>
      if status == StatusUnauthorized then
        if |values| == 1 && FirstRealm(Split(values[0], ',')).Some? then
          Success(FirstRealm(Split(values[0], ',')).value)
        else
          Failure(NoAuthenticationInformation(registry))
      else
        Success("")
  }

  /**
   * The RegistryBearerRealm table: registry identity to realm, where `""`
   * means "probed, no bearer authentication". `probes` records, for the
   * proofs, every registry the cache had to probe.
   */
  class RealmCache {
    var realms: map<string, string>
    ghost var probes: seq<string>

    constructor (initial: map<string, string>)
      ensures realms == initial && probes == []
    {
      realms := initial;
      probes := [];
    }

    /**
     * getRegistryBearerRealm: a cached value (even `""`) is returned without a
     * probe. Otherwise the registry is probed once: a 401 whose single
     * `WWW-Authenticate` value names a realm caches and returns it; any other
     * 401 and a failed request return an error and cache nothing; any other
     * status caches and returns `""`. No other entry is touched.
     */
    method GetRegistryBearerRealm(registry: string, probe: Probe) returns (r: Result<string, RealmError>)
      modifies this
      ensures registry in old(realms) ==>
        r == Success(old(realms)[registry]) && realms == old(realms) && probes == old(probes)
      ensures registry !in old(realms) ==>
        probes == old(probes) + [registry] && r == ProbeVerdict(registry, probe)
      ensures registry !in old(realms) ==>
        realms == if r.Success? then old(realms)[registry := r.value] else old(realms)
    {
      if registry in realms {
        return Success(realms[registry]);
      }
      probes := probes + [registry];
      match probe
      case TransportError(reason) =>
        return Failure(ProbeFailed(reason));
      case Response(status, values) =>
        if status == StatusUnauthorized {
          if |values| == 1 {
            var realm := ExtractRealm(values[0]);
            if realm.Some? {
              realms := realms[registry := realm.value];
              return Success(realms[registry]);
            }
          }
          return Failure(NoAuthenticationInformation(registry));
        }
        realms := realms[registry := ""];
        return Success(realms[registry]);
    }
  }

  /**
   * Two lookups of one registry from an empty cache: once the first has
   * succeeded the second returns the same value without probing; after a
   * failed first lookup the second probes again.
   */
  method RepeatedLookup(registry: string, first: Probe, second: Probe)
    returns (r1: Result<string, RealmError>, r2: Result<string, RealmError>, ghost probesMade: nat)
    ensures r1 == ProbeVerdict(registry, first)
    ensures r1.Success? ==> r2 == r1 && probesMade == 1
    ensures r1.Failure? ==> r2 == ProbeVerdict(registry, second) && probesMade == 2
  {
    var cache := new RealmCache(map[]);
    r1 := cache.GetRegistryBearerRealm(registry, first);
    r2 := cache.GetRegistryBearerRealm(registry, second);
    probesMade := |cache.probes|;
  }

  /** A realm wrapped as `Bearer realm="<realm>"` is read back unchanged. */
  lemma QuotedRealmPiece(realm: string)
    ensures HasPrefix(QuotedRealmPrefix + realm + "\"", BearerRealmPrefix)
    ensures RealmValue(QuotedRealmPrefix + realm + "\"") == realm
  {
    var a := QuotedRealmPrefix + realm + "\"";
    assert a[..|QuotedRealmPrefix|] == QuotedRealmPrefix;
    assert a[..|BearerRealmPrefix|] == QuotedRealmPrefix[..|BearerRealmPrefix|];
    var t := TrimPrefix(a, QuotedRealmPrefix);
    assert QuotedRealmPrefix + t == a;
    assert t == realm + "\"";
    assert t[..|realm|] + "\"" == t;
  }

  /** Wrapping a comma-free realm adds no comma. */
  lemma QuotedRealmHasNoComma(realm: string)
    requires ',' !in realm
    ensures ',' !in QuotedRealmPrefix + realm + "\""
  {
    var a := QuotedRealmPrefix + realm + "\"";
    forall i | 0 <= i < |a| ensures a[i] != ',' {
      if i < |QuotedRealmPrefix| {
        assert a[i] == QuotedRealmPrefix[i];
      } else if i < |QuotedRealmPrefix| + |realm| {
        assert a[i] == realm[i - |QuotedRealmPrefix|];
      }
    }
  }

  /** `Bearer realm="<realm>",service="<service>"`, the challenge form registries send. */
  function BearerChallenge(realm: string, service: string): string {
    QuotedRealmPrefix + realm + "\",service=\"" + service + "\""
  }

  /** The realm of a comma-free bearer challenge is read back unchanged. */
  lemma BearerChallengeRealm(realm: string, service: string)
    requires ',' !in realm
    ensures FirstRealm(Split(BearerChallenge(realm, service), ',')) == Some(realm)
  {
    var a := QuotedRealmPrefix + realm + "\"";
    var b := "service=\"" + service + "\"";
    assert BearerChallenge(realm, service) == a + [','] + b;
    QuotedRealmHasNoComma(realm);
    SplitAtFirst(a, b, ',');
    QuotedRealmPiece(realm);
  }

  /**
   * The `WWW-Authenticate` value the gateway sends for a realm: a bearer
   * challenge for the service `collage;<host>`, which its own realm
   * extraction reads back as long as the realm holds no comma.
   */
  function Challenge(realm: string, host: string): (c: string)
    ensures c == BearerChallenge(realm, "collage;" + host)
    ensures ',' !in realm ==> FirstRealm(Split(c, ',')) == Some(realm)
  {
    if ',' !in realm then
      BearerChallengeRealm(realm, "collage;" + host);
      BearerChallenge(realm, "collage;" + host)
    else
      BearerChallenge(realm, "collage;" + host)
  }

  /** A 401 carrying `Bearer realm="https://auth.example/token",service="x"` yields that URL. */
  lemma RealmOfExampleChallenge(registry: string)
    ensures ProbeVerdict(registry, Response(401, [BearerChallenge("https://auth.example/token", "x")]))
      == Success("https://auth.example/token")
  {
    BearerChallengeRealm("https://auth.example/token", "x");
  }

  /** The answer to `GET /v2/`. */
  datatype VersionCheckReply =
    | UpstreamError(error: RealmError)
    | Unauthorized(wwwAuthenticate: string)
    | RedirectToRegistry(registry: string)
    | VersionSupported

  /**
   * The registry behind a vhost that has a root mapping: the last entry the
   * loop visits, which is the scope's only entry whatever the order.
   */
  function RootRegistry(rules: Rules, host: string): (r: Option<string>)
    requires WellFormedRules(rules)
    ensures r.Some? <==> host in rules.vhosts && Root in rules.vhosts[host].mappings
    ensures r.Some? ==>
      |rules.vhosts[host].mountPointsByRegistry| == 1 && r.value == rules.vhosts[host].mountPointsByRegistry[0].registry
  {
    if host in rules.vhosts && Root in rules.vhosts[host].mappings then
      var entries := rules.vhosts[host].mountPointsByRegistry;
      Some(entries[|entries| - 1].registry)
    else
      None
  }

  /**
   * The reply for a root-mapped vhost: the realm lookup's error, a 401
   * challenge naming a non-empty realm and the service `collage;<host>`, or a
   * redirect to the registry when no authentication is required.
   */
  function RootReply(host: string, registry: string, realm: Result<string, RealmError>): (reply: VersionCheckReply)
    ensures realm.Failure? ==> reply == UpstreamError(realm.error)
    ensures realm.Success? && realm.value != "" ==>
      reply == Unauthorized(BearerChallenge(realm.value, "collage;" + host))
    ensures realm.Success? && realm.value != "" && ',' !in realm.value ==>
      FirstRealm(Split(reply.wwwAuthenticate, ',')) == Some(realm.value)
    ensures realm.Success? && realm.value == "" ==> reply == RedirectToRegistry(registry)
  {
    match realm
    case Failure(e) => UpstreamError(e)
    case Success(r) =>
      if r == "" then RedirectToRegistry(registry) else Unauthorized(Challenge(r, host))
  }

  /** The handler state GetApiVersionCheck reads: the compiled rules and the realm cache. */
  class App {
    const rules: Rules
    const cache: RealmCache

    constructor (rules: Rules)
      ensures this.rules == rules && fresh(cache)
      ensures cache.realms == rules.registryBearerRealm && cache.probes == []
    {
      this.rules := rules;
      this.cache := new RealmCache(rules.registryBearerRealm);
    }

    /**
     * GetApiVersionCheck: a vhost with a root mapping looks up the realm of
     * its single registry and answers with a challenge, a redirect or the
     * lookup's error; every other host gets the `{}` version answer and
     * leaves the cache alone.
     */
    method GetApiVersionCheck(host: string, probe: Probe) returns (reply: VersionCheckReply)
      requires WellFormedRules(rules)
      modifies cache
      ensures RootRegistry(rules, host).None? ==>
        reply == VersionSupported && cache.realms == old(cache.realms) && cache.probes == old(cache.probes)
      ensures RootRegistry(rules, host).Some? ==>
        var registry := RootRegistry(rules, host).value;
        var realm := if registry in old(cache.realms) then Success(old(cache.realms)[registry]) else ProbeVerdict(registry, probe);
        && reply == RootReply(host, registry, realm)
        && cache.realms == (if registry !in old(cache.realms) && realm.Success? then old(cache.realms)[registry := realm.value] else old(cache.realms))
        && cache.probes == (if registry in old(cache.realms) then old(cache.probes) else old(cache.probes) + [registry])
    {
      if host in rules.vhosts {
        if Root in rules.vhosts[host].mappings {
          var entries := rules.vhosts[host].mountPointsByRegistry;
          var realRegistry := "";
          var g := 0;
          while g < |entries|
            invariant 0 <= g <= |entries|
            invariant g > 0 ==> realRegistry == entries[g - 1].registry
          {
            realRegistry := entries[g].registry;
            g := g + 1;
          }
          var bearerRealm := cache.GetRegistryBearerRealm(realRegistry, probe);
          if bearerRealm.Failure? {
            return UpstreamError(bearerRealm.error);
          }
          if bearerRealm.value != "" {
            return RootReply(host, realRegistry, bearerRealm);
          }
          return RedirectToRegistry(realRegistry);
        }
      }
      return VersionSupported;
    }
  }
}
