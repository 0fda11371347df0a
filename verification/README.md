# collage: a Dafny model of the name-mapping core

collage is a read-only Docker registry gateway. A configuration maps
client-visible repository prefixes (mount-point Targets) to upstream
sources such as `index.docker.io/flavio`, per instance and per virtual
host. This project models and proves properties of:

- the rule compiler of `config/config.go`: the root-override purge, scheme
  defaulting and parsing of sources, mount-point derivation, and the
  assembly of the instance and vhost scopes (`Config.Rules`);
- the resolver of `handlers/utils.go`: `translateName` (a root mapping
  serves every name; otherwise the longest matching Target wins and is
  replaced once by its Source), and `GetRulesByHost`;
- the bearer-realm cache of `handlers/api_version_check.go`
  (`getRegistryBearerRealm`, with the outcome of the `/v2/` probe as an
  input) and the reply decision of `GetApiVersionCheck`;
- the reverse rewrite of `handlers/catalog.go`: upstream repository names
  become client-visible names, with every upstream catalog given as input;
- the older host-keyed compiler of `handlers/app.go`
  (`getMountPointsByRegistry`, `NewApp`).

Layout, one module per file:

- `results.dfy`: the Option and Result wrappers.
- `go_strings.dfy`: the parts of Go's `strings` package that are used:
  `HasPrefix`, `TrimPrefix`/`TrimSuffix`, `Index`, `Replace` with count 1,
  and `Split`.
- `urls.dfy`: scheme defaulting, a simplified `url.Parse`, and the registry
  identity `scheme://host`.
- `types.dfy`: `MountPoint`, used for both `config.MountPoint` and
  `types.MountPoint` (types/mappings.go).
- `config.dfy`, `resolver.dfy`, `api_version_check.dfy`, `catalog.dfy`,
  `legacy_app.dfy`: the core files.
- `scenarios.dfy`: the two configurations of handlers/utils_test.go. Each is
  compiled by `Config.Rules`, so the mount points come out in whatever order
  its loops pick. The translations the tests expect are proved for every
  such order.

Modelling choices:

- **Iteration order.** Go map iteration order is unspecified. A loop that
  builds something from a Go map is a method that picks an arbitrary
  unvisited key. This covers `validateMappings`, `parseMappings`,
  `getMountPointsByRegistry`, the vhost loop of `Rules`, the registry loop
  of `GetCatalog` and the loop of app.go. Where the result depends on the
  order, the method returns the visit order as a ghost value and its
  contract is stated against it. Three loops only read a compiled
  `MountPointsByRegistry`, and the model scans that sequence in its stored
  order: the root loop of `translateName` (handlers/utils.go:23), its
  longest-match loop (handlers/utils.go:32), and the registry loop of
  `GetApiVersionCheck` (handlers/api_version_check.go:26).
- **MountPointsByRegistry.** The Go map is keyed by a freshly parsed
  `*url.URL` per mapping, so entries never merge. The model keeps it as a
  sequence with one entry per mapping, each holding one mount point. The
  registry is kept as its `scheme://host` string. The resolver scans the
  entries in sequence order, so on equal-length matches the first entry
  scanned wins. The catalog visits them in an arbitrary order, which
  `GetCatalog` returns as a ghost value.
- **Realm cache.** The cache is keyed by the registry string instead of the
  URL pointer. It lives in a `RealmCache` object that the `App` of
  `GetApiVersionCheck` holds.

## Model

| member | source | states |
|---|---|---|
| GoStrings.TrimPrefix | handlers/api_version_check.go:98 | a matching prefix is removed exactly; otherwise the string is unchanged |
| GoStrings.TrimSuffix | handlers/api_version_check.go:98 | a matching suffix is removed exactly; otherwise the string is unchanged |
| GoStrings.Index | handlers/utils.go:50 | the result is the first position where the pattern occurs; None means it occurs nowhere |
| GoStrings.ReplacePrefixOnce | handlers/utils.go:50 | replacing once a pattern that prefixes the string replaces that prefix |
| GoStrings.Split | handlers/api_version_check.go:96 | at least one piece; no piece holds the separator; joining the pieces gives back the input |
| GoStrings.Replace1FirstOccurrence | handlers/utils.go:50 | replacing with count 1 replaces the first occurrence of the pattern only, and leaves a string without one unchanged |
| GoStrings.SplitAtFirst | handlers/api_version_check.go:96 | the first piece is everything before the first separator |
| Urls.WithDefaultScheme | config/config.go:102-104 | `https://` is prepended exactly when the source starts with neither `https://` nor `http://` |
| Urls.Parse | config/config.go:106-110 | a parsed URL has scheme http or https, and a path that is empty or starts with `/` |
| Urls.StripOneSlash | config/config.go:83-87 | exactly one leading `/` is removed, when there is one |
| Urls.CharScans | config/config.go:106 | the parser's scans find a control character before the first `#` exactly when one occurs there, and a character a host may not hold exactly when one occurs |
| Urls.TakeUntil | config/config.go:106 | the part before the first `c` is a prefix holding no `c`, cut exactly at a `c` when one occurs |
| Urls.TakeUntilAt | config/config.go:106 | when position `k` holds the first `c` (or is the end), the part before the first `c` is exactly `s[..k]` |
| Urls.NoControlBeforeHash | config/config.go:106 | a string the parser accepts has no control character before its first `#` |
| Urls.ParsePlain | config/config.go:102-110 | a scheme-less source of plain characters parses to `https`, with the host up to the first `/` and the rest as path |
| Urls.ParsedHostIsPlain | config/config.go:106 | a parsed host holds only plain characters and no `/` |
| Urls.ParseSchemeHost | config/config.go:82 | `scheme://host`, for a plain host and an http or https scheme, parses back to exactly that scheme and host with an empty path |
| Urls.RegistryReparses | config/config.go:82 | the registry URL rebuilt from any parsed source always parses, to the same scheme and host, so the ignored error cannot occur |
| Config.RootPurged | config/config.go:50-67 | the purge keeps a subset of the keys, each with its value; it keeps `"/"` exactly when it was there, and then nothing else; a table without `"/"` is unchanged |
| Config.RootPurgedIdempotent | config/config.go:50-67 | purging twice is the same as purging once |
| Config.PurgeKeepsRootless | config/config.go:50-53 | a table without `"/"` is left unchanged |
| Config.CompileVhosts | config/config.go:132-145 | the vhost loop succeeds exactly when every vhost's sources parse; it then holds every vhost, each compiled from its own table; a failure names a source of some vhost that does not parse |
| Config.ValidateMappings | config/config.go:50-67 | a table without `"/"` is unchanged; a table with it becomes exactly `{"/" ↦ its value}` |
| Config.PurgedVhosts | config/config.go:71-73 | purging the vhost tables keeps the set of vhosts |
| Config.ParseMappings | config/config.go:98-116 | succeeds exactly when every source parses; the result has the input's keys, each mapped to its scheme-defaulted parsed source; a failure names a source that does not parse |
| Config.MountPointOf | config/config.go:80-87 | Target is the mapping key; Source is the path with at most one leading `/` removed |
| Config.DerivingNext | config/config.go:79-93 | filing one more unvisited mapping keeps the entries one per visited mapping, in visit order |
| Config.InOrderIsDerived | config/config.go:76-96 | entries derived in a visit order are one per mapping, each derived from its own mapping |
| Config.GetMountPointsByRegistry | config/config.go:76-96 | exactly one entry per mapping, in visit order, filed under `scheme://host`; whatever the order, every entry comes from its own mapping and no mapping gives two; it never fails |
| Config.VhostsNext | config/config.go:132-145 | storing one more vhost, compiled from its own table, keeps every stored vhost compiled from its own table |
| Config.CompileScope | config/config.go:121-128 | a scope compiles exactly when all its sources parse; it fails with a source that does not parse |
| Config.RootScopeHasOneMount | config/config.go:119-141 | a scope whose raw table had `"/"` ends with exactly that mapping and exactly one mount point, taken from the root source |
| Config.RootMappingParsed | config/config.go:119-121 | the parsed mappings of a purged root table are exactly the root key with its parsed source |
| Config.RootEntries | config/config.go:126 | a scope whose one mapping is the root mapping has exactly the one matching entry |
| Config.Config.constructor | config/config.go:21-24 | the configuration holds the instance table and the per-vhost tables |
| Config.Config.Validate | config/config.go:69-74 | the instance table and every vhost table are purged in place |
| Config.Config.Rules | config/config.go:118-150 | purges in place; succeeds exactly when every source of every scope parses; on success every scope is compiled from its purged table, the vhosts are the configured ones, the realm table is empty and root scopes hold one mount; a failure names a source that does not parse |
| Resolver.Translate | handlers/utils.go:16-53 | a failure is always `Cannot find mount point` for the name; a success always sends the name to the registry of one of the scope's mount points |
| Resolver.Winner | handlers/utils.go:32-44 | the scan's winner is a mount point whose non-empty Target prefixes the name |
| Resolver.WinnerIsFirstLongest | handlers/utils.go:32-44 | nothing wins exactly when no non-empty Target prefixes the name; otherwise the winner is the longest match, and the first one scanned on a tie |
| Resolver.FirstLongestUnique | handlers/utils.go:37 | there is at most one first-longest match |
| Resolver.LongestMatch | handlers/utils.go:32-44 | the nested loops over entries and mount points end holding the scan winner's Target, Source and registry, or nothing when there is no winner |
| Resolver.TranslateName | handlers/utils.go:16-53 | the root-path loop and the nested scan compute `Translate` |
| Resolver.TranslateGeneralPath | handlers/utils.go:32-50 | without a root mapping, success happens exactly when the first-longest match has a non-empty Source; the name goes to its registry as `Source + name[len(Target):]` |
| Resolver.OnlyMatchServes | handlers/utils.go:32-50 | without a root mapping, when only one Target prefixes the name, the name goes to that mapping's registry as `Source + name[len(Target):]`, and fails when that Source is empty |
| Resolver.SingleRootEntryServesEveryName | handlers/utils.go:19-29 | a root scope whose one entry comes from the root source sends every name to that registry as `Source + "/" + name` |
| Resolver.RootMappingServesEveryName | handlers/utils.go:19-29 | with a root mapping, every name goes to the root registry as `Source + "/" + name` |
| Resolver.GetRulesByHost | handlers/utils.go:55-60 | a known vhost gets its own rules; any other host gets the instance rules |
| Resolver.SelectedScopeWellFormed | handlers/utils.go:55-60 | the selected scope of compiled rules keeps the one-mount root property |
| ApiVersionCheck.RealmValue | handlers/api_version_check.go:98 | the realm is no longer than the piece; a piece `Bearer realm="v"` gives back exactly `v` |
| ApiVersionCheck.FirstRealm | handlers/api_version_check.go:96-100 | a realm found is read from a piece starting with `Bearer realm=` |
| ApiVersionCheck.FirstRealmIsFirstMatch | handlers/api_version_check.go:96-100 | a realm is found exactly when some piece starts with `Bearer realm=`; it is read from the first such piece |
| ApiVersionCheck.ExtractRealm | handlers/api_version_check.go:96-100 | the loop over the comma-split pieces returns the first piece's realm, and nothing exactly when no piece starts with `Bearer realm=` |
| ApiVersionCheck.RealmCache.constructor | config/config.go:147 | the cache starts with the given table and no probes |
| ApiVersionCheck.ProbeVerdict | handlers/api_version_check.go:88-110 | a transport error is passed on; a status other than 401 gives `""`; a 401 succeeds exactly when there is one header value with a piece starting with `Bearer realm=`, and then gives the realm read from the first such piece (`Bearer realm="` cut from the front, `"` from the end); otherwise it fails for lack of authentication information |
| ApiVersionCheck.RealmCache.GetRegistryBearerRealm | handlers/api_version_check.go:66-111 | a hit returns the stored value (even `""`) without a probe and changes nothing. A miss probes once. Success stores the value for that registry only: the realm of a 401 with one header value, or `""` for any other status. Errors store nothing |
| ApiVersionCheck.RepeatedLookup | handlers/api_version_check.go:67-70 | after a successful lookup, a repeat lookup returns the same value without probing; after a failed one it probes again |
| ApiVersionCheck.QuotedRealmPiece | handlers/api_version_check.go:97-98 | a realm wrapped as `Bearer realm="…"` is read back unchanged |
| ApiVersionCheck.QuotedRealmHasNoComma | handlers/api_version_check.go:96 | wrapping a comma-free realm adds no comma |
| ApiVersionCheck.BearerChallengeRealm | handlers/api_version_check.go:93-99 | the realm of a comma-free `Bearer realm="…",service="…"` challenge is extracted exactly |
| ApiVersionCheck.Challenge | handlers/api_version_check.go:41-47 | the header is `Bearer realm="<realm>",service="collage;<host>"`; a comma-free realm is read back unchanged by the gateway's own extraction |
| ApiVersionCheck.RealmOfExampleChallenge | handlers/api_version_check.go:93-99 | a 401 with `Bearer realm="https://auth.example/token",service="x"` gives `https://auth.example/token` |
| ApiVersionCheck.RootRegistry | handlers/api_version_check.go:21-28 | a registry is picked exactly for a vhost with a root mapping; it is the registry of that vhost's single entry |
| ApiVersionCheck.RootReply | handlers/api_version_check.go:30-53 | a lookup error is passed through; a non-empty realm gives a 401 with exactly the header `Bearer realm="<realm>",service="collage;<host>"`, whose realm reads back unchanged when comma-free; an empty realm gives a redirect to the registry |
| ApiVersionCheck.App.constructor | handlers/api_version_check.go:30 | the handler starts from the compiled rules and their realm table |
| ApiVersionCheck.App.GetApiVersionCheck | handlers/api_version_check.go:21-63 | a vhost with a root mapping answers from the realm lookup of its registry: a cached realm is used without a probe, a miss probes that registry exactly once and caches a successful result; every other host gets the version answer and the cache is untouched |
| Catalog.RepoNames | handlers/catalog.go:39-44 | a repository yields at most one name per mount point |
| Catalog.RepoNamesMembers | handlers/catalog.go:39-44 | a repository yields exactly the names of the mount points whose Source prefixes it |
| Catalog.RegistryNamesMembers | handlers/catalog.go:38-45 | a registry yields exactly the names of its repositories |
| Catalog.RegistryNamesSound | handlers/catalog.go:38-45 | every name listed for a registry comes from one of its repositories |
| Catalog.RegistryNamesComplete | handlers/catalog.go:38-45 | every name one of its repositories yields is listed for the registry |
| Catalog.RegistryNamesBound | handlers/catalog.go:38-45 | a registry yields at most one name per repository and mount point |
| Catalog.CatalogNames | handlers/catalog.go:28-46 | every name in the catalog comes from a visited registry |
| Catalog.VisitNext | handlers/catalog.go:28 | visiting one more unvisited registry keeps the visits distinct and accounted for |
| Catalog.CatalogNamesMembers | handlers/catalog.go:28-46 | the catalog built in a visit order holds exactly the names of the visited registries |
| Catalog.CatalogContents | handlers/catalog.go:28-46 | whatever the visit order, a name is listed exactly when some registry's repository is listed under it by one of its mount points |
| Catalog.ListRegistry | handlers/catalog.go:38-46 | the repository and mount-point loops emit names repository by repository, in mount-list order |
| Catalog.GetCatalog | handlers/catalog.go:26-47 | every registry is visited once, in some order; the output is the concatenation of their names in that order and holds exactly the listed names |
| Catalog.ListedNameShape | handlers/catalog.go:40-43 | a listed name is `Target + repo[len(Source):]` |
| Catalog.RepoNamesCount | handlers/catalog.go:39-44 | a repository yields one name per mount point whose Source prefixes it |
| Catalog.EmptySourceListsEverything | handlers/catalog.go:40-43 | a mount point with an empty Source lists every repository as `Target + repo` |
| Catalog.ListedNameTranslatesBack | handlers/catalog.go:40-43 | without a root mapping, a name listed for a mount point translates back to the original repository on that registry, unless another Target prefixing the name is at least as long |
| Catalog.EmptySourceListedButNotServed | handlers/utils.go:45-48 | a name listed for an empty-Source mount point does not translate back |
| LegacyApp.MountsForHost | handlers/app.go:54-57 | a host's list holds at most one mount point per visit |
| LegacyApp.MountsForHostMembers | handlers/app.go:54-57 | a mount point is filed under a host exactly when it comes from a visited mapping naming that host |
| LegacyApp.MountsForHostCount | handlers/app.go:54-57 | a host's list holds one mount point per visited mapping naming that host |
| LegacyApp.MountsForUnnamedHost | handlers/app.go:54-56 | a host no source names has no mount points |
| LegacyApp.NamedHostsStep | handlers/app.go:47-57 | after one more visit, the hosts with a list are the earlier ones plus the new visit's host |
| LegacyApp.MountsForHostStep | handlers/app.go:54-57 | one more visit appends its mount point to its own host's list and to no other |
| LegacyApp.GroupedStep | handlers/app.go:54-57 | filing one more mount point appends it to its host's list and changes no other list |
| LegacyApp.VisitStep | handlers/app.go:34-45 | recording a newly parsed mapping keeps the visits faithful and distinct |
| LegacyApp.GetMountPointsByRegistry | handlers/app.go:31-61 | mount points are grouped by bare host, in visit order. Target is the key and Source is the path less one `/`. It succeeds exactly when every source parses; the first failure stops the loop and names a bad source |
| LegacyApp.NewApp | handlers/app.go:17-29 | on success the App holds the table and the host-keyed mount points; on failure it is the empty App, returned with the error |
| Scenarios.StuffSource | handlers/utils_test.go:13 | `index.docker.io/flavio` parses to `https`, host `index.docker.io`, path `/flavio` |
| Scenarios.DistroSource | handlers/utils_test.go:14 | `index.docker.io/opensuse` parses to `https`, host `index.docker.io`, path `/opensuse` |
| Scenarios.EtcdSource | handlers/utils_test.go:15 | `quay.io/coreos/etcd` parses to `https`, host `quay.io`, path `/coreos/etcd` |
| Scenarios.MirrorSource | handlers/utils_test.go:37 | `registry.local.lan/docker.io` parses to `https`, host `registry.local.lan`, path `/docker.io` |
| Scenarios.SampleSource | handlers/utils_test.go:12-16 | every source of the first test's table parses to its expected URL |
| Scenarios.CompileSample | handlers/utils_test.go:26 | compiling the first test's configuration succeeds, and its instance scope is compiled from that table |
| Scenarios.SampleMapping | handlers/utils_test.go:12-16 | a scope compiled from the table has its keys, each mapped to the expected URL |
| Scenarios.SampleScopeOf | handlers/utils_test.go:12-16 | a scope compiled from the table, in any visit order, has the expected mappings and one entry per key |
| Scenarios.StuffEntry | handlers/utils_test.go:13 | `cool/stuff ↦ index.docker.io/flavio` becomes Target `cool/stuff`, Source `flavio` on `https://index.docker.io` |
| Scenarios.DistroEntry | handlers/utils_test.go:14 | `cool/distro ↦ index.docker.io/opensuse` becomes Target `cool/distro`, Source `opensuse` on `https://index.docker.io` |
| Scenarios.EtcdEntry | handlers/utils_test.go:15 | `etcd ↦ quay.io/coreos/etcd` becomes Target `etcd`, Source `coreos/etcd` on `https://quay.io` |
| Scenarios.SampleEntry | handlers/utils_test.go:12-16 | each key's compiled mount point is the one expected for it, and is the only expected one with that Target |
| Scenarios.SampleMounts | handlers/utils_test.go:12-16 | whatever the visit order, the compiled table has exactly the three expected mount points |
| Scenarios.SampleMountAt | handlers/utils_test.go:12-16 | each compiled entry is one of the three expected mount points |
| Scenarios.SampleMountPresent | handlers/utils_test.go:12-16 | each expected mount point is one of the compiled entries |
| Scenarios.SampleKeys | handlers/utils_test.go:12-16 | the table has exactly the keys `cool/stuff`, `cool/distro` and `etcd` |
| Scenarios.SampleRootless | handlers/utils_test.go:12-16 | the first test's table has no root mapping and no empty Target |
| Scenarios.SamplePath | handlers/utils_test.go:12-16 | every Source of the table is non-empty |
| Scenarios.SamplePrefixes | handlers/utils_test.go:20-24 | only a name's own Target prefixes it |
| Scenarios.SampleTranslation | handlers/utils_test.go:20-24 | in a compiled sample scope, `<Target><rest>` goes to `<Source><rest>` on that mount's registry |
| Scenarios.StuffTranslation | handlers/utils_test.go:21 | in the compiled table, `cool/stuff<rest>` goes to `https://index.docker.io` as `flavio<rest>` |
| Scenarios.DistroTranslation | handlers/utils_test.go:22 | in the compiled table, `cool/distro<rest>` goes to `https://index.docker.io` as `opensuse<rest>` |
| Scenarios.EtcdTranslation | handlers/utils_test.go:23 | in the compiled table, `etcd<rest>` goes to `https://quay.io` as `coreos/etcd<rest>` |
| Scenarios.RootSampleParses | handlers/utils_test.go:33-38 | once purged, the second test's table holds only the root mapping, and it parses |
| Scenarios.CompileRootSample | handlers/utils_test.go:49 | compiling the second test's configuration succeeds, and its instance scope is compiled from the purged table |
| Scenarios.MirrorMapping | handlers/utils_test.go:33-38 | the compiled scope holds only the root mapping to `https://registry.local.lan/docker.io`, as one entry |
| Scenarios.MirrorRegistry | handlers/utils_test.go:43-46 | the root mapping's registry is `https://registry.local.lan` |
| Scenarios.MirrorPath | handlers/utils_test.go:43-46 | the root mapping's Source, followed by `/`, is `docker.io/` |
| Scenarios.RootSampleTranslations | handlers/utils_test.go:42-47 | in the compiled second table, every name goes to `https://registry.local.lan` as `docker.io/<name>` |

## Left out

- JSON decoding (`NewFromData`, `NewFromFile`), certificate loading (`LoadExtraCerts`), logging, the CLI and listeners of main.go, and the client-library wrappers `NewRegistry`/`upstreamCatalog`. They are I/O; their results are parameters where the core needs them.
- The HTTP probe in `getRegistryBearerRealm`. Its transport, TLS configuration and request are replaced by the `Probe` input, a transport error or a status plus the `WWW-Authenticate` values.
- The body and header bytes of the replies to `GET /v2/`. The redirect target `http://<registry>/v2/` is not modelled; only the decision to redirect is.
- Concurrency. The realm table is written without a lock, and the model treats it as a sequential object.
- `url.Parse` is simplified. Userinfo, port checks, IPv6 literals, percent-escapes and `;` handling are not modelled. The model drops the query and the fragment, splits the host from the path at the first `/`, and fails on a control character before the first `#` (Go cuts the fragment off first) and on characters a host may not hold.
- Pointer identity of `*url.URL` map keys. Registries are compared as `scheme://host` strings, and the realm cache is keyed by that string.
- Per-call iteration order. Go re-randomises map order on every `range`. The root loop and the longest-match loop of `translateName` and the registry loop of `GetApiVersionCheck` scan a scope's entries in the one order they were compiled in. For the two root loops the scope holds a single entry, so the order cannot matter. For the longest-match loop it matters only for equal-length matches.
- `parseMappings` in Go also returns its partial map together with the error. `Rules` discards it, and so does the model.
- handlers/app.go reads `cfg.Mappings`, which the Config of config/config.go does not have. `LegacyApp.NewApp` takes that table as a parameter.
- LegacyApp.MountsForHostCount: the count is stated per host. The total over all hosts (one mount point per mapping) follows from it but is not stated as a sum.
- Catalog.RepoNamesCount: the count is stated per repository. The count for a whole registry or catalog is not summed.
- handlers/tags.go, handlers/manifest.go and handlers/layer.go only call `GetRulesByHost` and `translateName`; they are not part of this model.

Where the code and its description differ, the model follows the code:

- A root mapping with an empty Source gives `"/" + name`.
- Only one leading `/` is removed from a Source.
- On equal-length matches the first mount scanned wins.
