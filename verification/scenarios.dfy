/**
 * The name translations exercised by handlers/utils_test.go. The sample
 * mapping tables are compiled by `Rules`, in whatever order the compiler
 * visits them, and the translations are stated for the scopes that result.
 */
module Scenarios {
  import opened Results
  import opened GoStrings
  import opened Urls
  import opened Types
  import opened Config
  import opened Resolver

  /** The mapping table of the three-mapping sample. */
  const SampleTable: map<string, string> :=
    map["cool/stuff" := "index.docker.io/flavio", "cool/distro" := "index.docker.io/opensuse", "etcd" := "quay.io/coreos/etcd"]

  /** The same table with a root mapping to a local mirror. */
  const RootSampleTable: map<string, string> := SampleTable[Root := "registry.local.lan/docker.io"]

  /** What the sample sources parse to. */
  const DockerHub := Url("https", "index.docker.io", "/flavio")
  const DockerHubDistro := Url("https", "index.docker.io", "/opensuse")
  const Quay := Url("https", "quay.io", "/coreos/etcd")
  const LocalMirror := Url("https", "registry.local.lan", "/docker.io")

  /** What each key of the sample table is meant to map to. */
  function SampleUrl(target: string): Url {
    if target == "cool/stuff" then DockerHub
    else if target == "cool/distro" then DockerHubDistro
    else Quay
  }

  /** A literal source the parse lemmas below apply to: no scheme, and only plain characters. */
  ghost predicate PlainSource(source: string) {
    && !HasScheme(source)
    && forall i :: 0 <= i < |source| ==> PlainChar(source[i])
  }

  /** Lower-case letters, dots and slashes: the characters of the sample sources. */
  predicate HostPathChar(c: char) {
    ('a' <= c <= 'z') || c == '.' || c == '/'
  }

  /** A source made of lower-case letters, dots and slashes, not starting with `h`, has no scheme and only plain characters. */
  lemma SourceIsPlain(source: string)
    requires |source| > 0 && source[0] != 'h'
    requires forall i :: 0 <= i < |source| ==> HostPathChar(source[i])
    ensures PlainSource(source)
  {
    assert source[0] != HttpsPrefix[0];
  }

  /** `index.docker.io/flavio` parses, after scheme defaulting, to `https://index.docker.io/flavio`. */
  lemma StuffSource(source: string)
    requires source == "index.docker.io/flavio"
    ensures ParsedSource(source) == Some(DockerHub)
  {
    assert PlainSource(source) by {
      forall i | 0 <= i < |source| ensures HostPathChar(source[i]) {}
      SourceIsPlain(source);
    }
    assert source[..15] == "index.docker.io" && source[15..] == "/flavio";
    ParsePlain(source, 15);
  }

  /** `index.docker.io/opensuse` parses to `https://index.docker.io/opensuse`. */
  lemma DistroSource(source: string)
    requires source == "index.docker.io/opensuse"
    ensures ParsedSource(source) == Some(DockerHubDistro)
  {
    assert PlainSource(source) by {
      forall i | 0 <= i < |source| ensures HostPathChar(source[i]) {}
      SourceIsPlain(source);
    }
    assert source[..15] == "index.docker.io" && source[15..] == "/opensuse";
    ParsePlain(source, 15);
  }

  /** `quay.io/coreos/etcd` parses to `https://quay.io/coreos/etcd`. */
  lemma EtcdSource(source: string)
    requires source == "quay.io/coreos/etcd"
    ensures ParsedSource(source) == Some(Quay)
  {
    assert PlainSource(source) by {
      forall i | 0 <= i < |source| ensures HostPathChar(source[i]) {}
      SourceIsPlain(source);
    }
    assert source[..7] == "quay.io" && source[7..] == "/coreos/etcd";
    ParsePlain(source, 7);
  }

  /** `registry.local.lan/docker.io` parses to `https://registry.local.lan/docker.io`. */
  lemma MirrorSource(source: string)
    requires source == "registry.local.lan/docker.io"
    ensures ParsedSource(source) == Some(LocalMirror)
  {
    assert PlainSource(source) by {
      forall i | 0 <= i < |source| ensures HostPathChar(source[i]) {}
      SourceIsPlain(source);
    }
    assert source[..18] == "registry.local.lan" && source[18..] == "/docker.io";
    ParsePlain(source, 18);
  }

  /** Each source of the sample table parses to its sample URL. */
  lemma SampleSource(target: string)
    requires target in SampleTable
    ensures ParsedSource(SampleTable[target]) == Some(SampleUrl(target))
  {
    if target == "cool/stuff" {
      StuffSource(SampleTable[target]);
    } else if target == "cool/distro" {
      DistroSource(SampleTable[target]);
    } else {
      EtcdSource(SampleTable[target]);
    }
  }

  /** In a scope compiled from the sample table, each key maps to its sample URL. */
  lemma SampleMapping(scope: MappingRules, target: string)
    requires CompiledFrom(scope, SampleTable) && target in SampleTable
    ensures scope.mappings.Keys == SampleTable.Keys
    ensures scope.mappings[target] == SampleUrl(target)
  {
    SampleSource(target);
  }

  /** A scope holding the parsed sample, with one entry per mapping in some order. */
  ghost predicate SampleScope(scope: MappingRules) {
    && scope.mappings.Keys == SampleTable.Keys
    && (forall t :: t in SampleTable ==> scope.mappings[t] == SampleUrl(t))
    && DerivedEntries(scope.mountPointsByRegistry, scope.mappings)
  }

  /** Compiling the sample table yields a sample scope. */
  lemma SampleScopeOf(scope: MappingRules)
    requires CompiledFrom(scope, SampleTable)
    ensures SampleScope(scope)
  {
    forall t | t in SampleTable ensures scope.mappings[t] == SampleUrl(t) {
      SampleMapping(scope, t);
    }
  }

  /** The entry each sample mapping compiles to. */
  lemma StuffEntry()
    ensures Registry(DockerHub) == "https://index.docker.io" && StripOneSlash(DockerHub.path) == "flavio"
    ensures EntryOf("cool/stuff", DockerHub) == RegistryMounts("https://index.docker.io", [MountPoint("flavio", "cool/stuff")])
  {
    assert Registry(DockerHub) == "https://index.docker.io";
    assert StripOneSlash("/flavio") == "flavio";
  }

  lemma DistroEntry()
    ensures Registry(DockerHubDistro) == "https://index.docker.io" && StripOneSlash(DockerHubDistro.path) == "opensuse"
    ensures EntryOf("cool/distro", DockerHubDistro) == RegistryMounts("https://index.docker.io", [MountPoint("opensuse", "cool/distro")])
  {
    assert Registry(DockerHubDistro) == "https://index.docker.io";
    assert StripOneSlash("/opensuse") == "opensuse";
  }

  lemma EtcdEntry()
    ensures Registry(Quay) == "https://quay.io" && StripOneSlash(Quay.path) == "coreos/etcd"
    ensures EntryOf("etcd", Quay) == RegistryMounts("https://quay.io", [MountPoint("coreos/etcd", "etcd")])
  {
    assert Registry(Quay) == "https://quay.io";
    assert StripOneSlash("/coreos/etcd") == "coreos/etcd";
  }

  /** The three mount points of the sample. */
  function SampleMountList(): seq<RegMount> {
    [ RegMount("https://index.docker.io", MountPoint("flavio", "cool/stuff")),
      RegMount("https://index.docker.io", MountPoint("opensuse", "cool/distro")),
      RegMount("https://quay.io", MountPoint("coreos/etcd", "etcd")) ]
  }

  /** The mount point each sample key compiles to is the one listed for it, and every listed one is some key's. */
  lemma SampleEntry(target: string)
    requires target in SampleTable
    ensures var u := SampleUrl(target); RegMount(Registry(u), MountPointOf(target, u)) in SampleMountList()
    ensures forall m :: m in SampleMountList() && m.point.target == target ==>
      m == RegMount(Registry(SampleUrl(target)), MountPointOf(target, SampleUrl(target)))
  {
    if target == "cool/stuff" {
      StuffEntry();
    } else if target == "cool/distro" {
      DistroEntry();
    } else {
      EtcdEntry();
    }
  }

  /**
   * The sample table compiles to exactly the three expected mount points,
   * one per entry, in whatever order the entries were visited.
   */
  lemma SampleMounts(scope: MappingRules)
    requires CompiledFrom(scope, SampleTable)
    ensures |Flatten(scope.mountPointsByRegistry)| == 3
    ensures forall m :: m in Flatten(scope.mountPointsByRegistry) <==> m in SampleMountList()
  {
    SampleScopeOf(scope);
    SampleScopeCount(scope);
    SampleScopeCovers(scope);
  }

  /** A sample scope has one mount point per key. */
  lemma SampleScopeCount(scope: MappingRules)
    requires SampleScope(scope)
    ensures |Flatten(scope.mountPointsByRegistry)| == 3
  {
    SampleKeys();
    FlattenSingles(scope.mountPointsByRegistry);
  }

  /** The mount points of a sample scope are the listed ones, in both directions. */
  lemma SampleScopeCovers(scope: MappingRules)
    requires SampleScope(scope)
    ensures forall m :: m in Flatten(scope.mountPointsByRegistry) <==> m in SampleMountList()
  {
    var flat := Flatten(scope.mountPointsByRegistry);
    FlattenSingles(scope.mountPointsByRegistry);
    forall g | 0 <= g < |flat| ensures flat[g] in SampleMountList() {
      SampleMountAt(scope, g);
    }
    forall m | m in SampleMountList() ensures m in flat {
      SampleMountPresent(scope, m);
    }
  }

  /** The sample's three keys. */
  lemma SampleKeys()
    ensures SampleTable.Keys == {"cool/stuff", "cool/distro", "etcd"}
    ensures |SampleTable.Keys| == 3
  {
  }

  /** Each compiled entry of the sample is one of the three expected mount points. */
  lemma SampleMountAt(scope: MappingRules, g: int)
    requires SampleScope(scope)
    requires 0 <= g < |scope.mountPointsByRegistry|
    ensures |Flatten(scope.mountPointsByRegistry)| == |scope.mountPointsByRegistry|
    ensures Flatten(scope.mountPointsByRegistry)[g] in SampleMountList()
  {
    var entries := scope.mountPointsByRegistry;
    var t := EntryTarget(entries[g]);
    var u := SampleUrl(t);
    assert t in SampleTable && entries[g] == EntryOf(t, u);
    SampleEntry(t);
    FlattenSingles(entries);
  }

  /** Each of the three expected mount points is some compiled entry of the sample. */
  lemma SampleMountPresent(scope: MappingRules, m: RegMount)
    requires SampleScope(scope)
    requires m in SampleMountList()
    ensures m in Flatten(scope.mountPointsByRegistry)
  {
    var entries := scope.mountPointsByRegistry;
    var t := m.point.target;
    SampleListed(m);
    SampleEntry(t);
    assert t in scope.mappings;
    var g :| 0 <= g < |entries| && EntryTarget(entries[g]) == t;
    FlattenSingles(entries);
    assert Flatten(entries)[g] == m;
  }

  /** Every listed mount point serves one of the sample's keys. */
  lemma SampleListed(m: RegMount)
    requires m in SampleMountList()
    ensures m.point.target in SampleTable
  {
  }

  /** The sample has no root mapping, and no empty key. */
  lemma SampleRootless()
    ensures Root !in SampleTable && "" !in SampleTable
  {
  }

  /** Every sample source names a non-empty path on its registry. */
  lemma SamplePath(target: string)
    requires target in SampleTable
    ensures StripOneSlash(SampleUrl(target).path) != ""
  {
    if target == "cool/stuff" {
      assert StripOneSlash(DockerHub.path) == "flavio";
    } else if target == "cool/distro" {
      assert StripOneSlash(DockerHubDistro.path) == "opensuse";
    } else {
      assert StripOneSlash(Quay.path) == "coreos/etcd";
    }
  }

  /** A name starting with one sample key starts with no other sample key. */
  lemma SamplePrefixes(target: string, rest: string, k: string)
    requires target in SampleTable && k in SampleTable && k != target
    ensures !HasPrefix(target + rest, k)
  {
    var name := target + rest;
    assert name[..|target|] == target;
    if |k| <= |name| {
      if target == "etcd" || k == "etcd" {
        assert name[..|k|][0] != k[0];
      } else {
        assert name[..|k|][5] != k[5];
      }
    }
  }

  /** In a scope compiled from the sample, `<key><rest>` goes to the key's Source followed by `rest`. */
  lemma SampleTranslation(scope: MappingRules, target: string, rest: string)
    requires SampleScope(scope) && target in SampleTable
    ensures var u := SampleUrl(target);
      Translate(scope, target + rest) == Success(Resolution(Registry(u), StripOneSlash(u.path) + rest))
  {
    var name := target + rest;
    forall k | k in scope.mappings && k != target ensures !HasPrefix(name, k) {
      SamplePrefixes(target, rest, k);
    }
    assert name[..|target|] == target;
    SampleRootless();
    OnlyMatchServes(scope, name, target);
    assert name[|target|..] == rest;
    SamplePath(target);
  }

  /** In a scope compiled from the sample, `cool/stuff<x>` goes to `flavio<x>` on `https://index.docker.io`. */
  lemma StuffTranslation(scope: MappingRules, rest: string)
    requires CompiledFrom(scope, SampleTable)
    ensures Translate(scope, "cool/stuff" + rest) == Success(Resolution("https://index.docker.io", "flavio" + rest))
  {
    SampleScopeOf(scope);
    SampleTranslation(scope, "cool/stuff", rest);
    StuffEntry();
  }

  /** In a scope compiled from the sample, `cool/distro<x>` goes to `opensuse<x>` on `https://index.docker.io`. */
  lemma DistroTranslation(scope: MappingRules, rest: string)
    requires CompiledFrom(scope, SampleTable)
    ensures Translate(scope, "cool/distro" + rest) == Success(Resolution("https://index.docker.io", "opensuse" + rest))
  {
    SampleScopeOf(scope);
    SampleTranslation(scope, "cool/distro", rest);
    DistroEntry();
  }

  /** In a scope compiled from the sample, `etcd<x>` goes to `coreos/etcd<x>` on `https://quay.io`. */
  lemma EtcdTranslation(scope: MappingRules, rest: string)
    requires CompiledFrom(scope, SampleTable)
    ensures Translate(scope, "etcd" + rest) == Success(Resolution("https://quay.io", "coreos/etcd" + rest))
  {
    SampleScopeOf(scope);
    SampleTranslation(scope, "etcd", rest);
    EtcdEntry();
  }

  /**
   * A scope compiled from the sample with a root mapping sends every name to
   * `https://registry.local.lan` as `docker.io/<name>`.
   */
  lemma RootSampleTranslations(scope: MappingRules, table: map<string, string>, name: string)
    requires table == RootSampleTable
    requires CompiledFrom(scope, RootPurged(table))
    ensures Translate(scope, name) == Success(Resolution("https://registry.local.lan", "docker.io/" + name))
  {
    MirrorMapping(scope, table);
    SingleRootEntryServesEveryName(scope, LocalMirror, name);
    MirrorRegistry();
    MirrorPath();
  }

  /** A scope compiled from the purged root sample holds the one root mapping to the mirror. */
  lemma MirrorMapping(scope: MappingRules, table: map<string, string>)
    requires table == RootSampleTable
    requires CompiledFrom(scope, RootPurged(table))
    ensures scope.mappings == map[Root := LocalMirror]
    ensures scope.mountPointsByRegistry == [EntryOf(Root, LocalMirror)]
  {
    var u := RootMappingParsed(scope.mappings, table);
    MirrorSource(table[Root]);
    RootEntries(scope, u);
  }

  /** Once purged, the root sample holds only the mirror source, which parses. */
  lemma RootSampleParses(table: map<string, string>)
    requires table == RootSampleTable
    ensures AllParse(RootPurged(table))
  {
    forall t | t in RootPurged(table) ensures ParsedSource(RootPurged(table)[t]).Some? {
      assert t == Root;
      MirrorSource(table[Root]);
    }
  }

  /** The registry of the root sample's mount point. */
  lemma MirrorRegistry()
    ensures Registry(LocalMirror) == "https://registry.local.lan"
  {
  }

  /** The path prefix of the root sample's mount point. */
  lemma MirrorPath()
    ensures StripOneSlash(LocalMirror.path) + "/" == "docker.io/"
  {
    assert StripOneSlash(LocalMirror.path) == "docker.io";
  }

  /**
   * The first test's set-up: a configuration holding the sample table as
   * its instance mappings compiles, to an instance scope compiled from that
   * table, so `StuffTranslation`, `DistroTranslation` and `EtcdTranslation` apply to it.
   */
  method CompileSample() returns (r: Result<Rules, ConfigError>)
    ensures r.Success?
    ensures r.Success? ==> CompiledFrom(r.value.instance, SampleTable)
  {
    var cfg := new Config(SampleTable, map[]);
    PurgeKeepsRootless(SampleTable);
    forall t | t in SampleTable ensures ParsedSource(SampleTable[t]).Some? {
      SampleSource(t);
    }
    r := cfg.Rules();
  }

  /**
   * The second test's set-up: with the root mapping added, the configuration
   * compiles, to an instance scope compiled from the purged table, so
   * `RootSampleTranslations` applies to it.
   */
  method CompileRootSample() returns (r: Result<Rules, ConfigError>)
    ensures r.Success?
    ensures r.Success? ==> CompiledFrom(r.value.instance, RootPurged(RootSampleTable))
  {
    var cfg := new Config(RootSampleTable, map[]);
    RootSampleParses(RootSampleTable);
    r := cfg.Rules();
  }
}
