/**
 * The rule compiler of config/config.go: the root-override purge, the
 * parsing of mapping sources, the derivation of mount points, and the
 * assembly of the instance scope and the per-virtual-host scopes.
 */
module Config {
  import opened Results
  import opened GoStrings
  import opened Urls
  import opened Types

  /** The root mapping target; it overrides every other mapping of its scope. */
  const Root := "/"

  /**
   * One entry of MountPointsByRegistry. Go keys that map by a freshly parsed
   * `*url.URL` per mapping, so entries are never merged: the model keeps the
   * entries as a sequence in iteration order, the registry as its
   * `scheme://host` string (two entries may carry the same string).
   */
  datatype RegistryMounts = RegistryMounts(registry: string, mounts: seq<MountPoint>)

  /** The compiled rules of one scope. */
  datatype MappingRules = MappingRules(mappings: map<string, Url>, mountPointsByRegistry: seq<RegistryMounts>)

  /** The compiled configuration: the instance scope, the vhost scopes, the realm cache. */
  datatype Rules = CompiledRules(instance: MappingRules, vhosts: map<string, MappingRules>, registryBearerRealm: map<string, string>)

  /** `Cannot parse url <source>`, naming the source after scheme defaulting. */
  datatype ConfigError = CannotParseUrl(source: string)

  // ---------------------------------------------------------------------
  // validateMappings / Validate
  // ---------------------------------------------------------------------

  /** What a mapping table looks like after the root-override purge. */
  function RootPurged(mappings: map<string, string>): (r: map<string, string>)
    ensures r.Keys <= mappings.Keys && forall k :: k in r ==> r[k] == mappings[k]
    ensures Root in r <==> Root in mappings
    ensures Root in r ==> r.Keys == {Root}
    ensures Root !in mappings ==> r == mappings
  {
    if Root in mappings then map[Root := mappings[Root]] else mappings
  }

  /** Purging twice is purging once. */
  lemma RootPurgedIdempotent(mappings: map<string, string>)
    ensures RootPurged(RootPurged(mappings)) == RootPurged(mappings)
  {
  }

  /**
   * validateMappings: when the table has a "/" key, every other key is
   * collected and then deleted, leaving exactly the root mapping; a table
   * without "/" is returned unchanged.
   */
  method ValidateMappings(mappings: map<string, string>) returns (kept: map<string, string>)
    ensures Root !in mappings ==> kept == mappings
    ensures Root in mappings ==> kept == map[Root := mappings[Root]]
    ensures kept == RootPurged(mappings)
  {
    if Root !in mappings {
      return mappings;
    }
    var routesToDelete: seq<string> := [];
    var unseen := mappings.Keys;
    while unseen != {}
      invariant unseen <= mappings.Keys
      invariant forall r :: r in routesToDelete <==> r in mappings && r !in unseen && r != Root
      decreases unseen
    {
      var route :| route in unseen;
      if route != Root {
        routesToDelete := routesToDelete + [route];
      }
      unseen := unseen - {route};
    }
    kept := mappings;
    var i := 0;
    while i < |routesToDelete|
      invariant 0 <= i <= |routesToDelete|
      invariant forall r :: r in kept <==> r in mappings && r !in routesToDelete[..i]
      invariant forall r :: r in kept ==> kept[r] == mappings[r]
    {
      assert routesToDelete[..i + 1] == routesToDelete[..i] + [routesToDelete[i]];
      kept := kept - {routesToDelete[i]};
      i := i + 1;
    }
    assert routesToDelete[..i] == routesToDelete;
    assert kept.Keys == {Root};
  }

  /** Every vhost table purged, the set of vhosts unchanged. */
  function PurgedVhosts(vhosts: map<string, map<string, string>>): (r: map<string, map<string, string>>)
    ensures r.Keys == vhosts.Keys
  {
    map v | v in vhosts :: RootPurged(vhosts[v])
  }

  // ---------------------------------------------------------------------
  // parseMappings
  // ---------------------------------------------------------------------

  /** The parsed form of a raw mapping source, after scheme defaulting. */
  function ParsedSource(source: string): Option<Url> {
    Parse(WithDefaultScheme(source))
  }

  /** Every source of the table parses. */
  ghost predicate AllParse(table: map<string, string>) {
    forall t :: t in table ==> ParsedSource(table[t]).Some?
  }

  /** `e` names a source of the table that does not parse. */
  ghost predicate FailsOn(table: map<string, string>, e: ConfigError) {
    exists t :: t in table && ParsedSource(table[t]).None? && e == CannotParseUrl(WithDefaultScheme(table[t]))
  }

  /**
   * parseMappings: on success a map with exactly the table's keys, each to
   * its parsed (scheme-defaulted) source; if any source fails to parse the
   * whole call fails, naming one such source.
   */
  method ParseMappings(mappings: map<string, string>) returns (r: Result<map<string, Url>, ConfigError>)
    ensures r.Success? <==> AllParse(mappings)
    ensures r.Success? ==> r.value.Keys == mappings.Keys
    ensures r.Success? ==> forall t :: t in mappings ==> ParsedSource(mappings[t]) == Some(r.value[t])
    ensures r.Failure? ==> FailsOn(mappings, r.error)
  {
    var ret: map<string, Url> := map[];
    var unseen := mappings.Keys;
    while unseen != {}
      invariant unseen <= mappings.Keys
      invariant ret.Keys == mappings.Keys - unseen
      invariant forall t :: t in ret ==> ParsedSource(mappings[t]) == Some(ret[t])
      decreases unseen
    {
      var target :| target in unseen;
      var source := WithDefaultScheme(mappings[target]);
      var url := Parse(source);
      if url.None? {
        return Failure(CannotParseUrl(source));
      }
      ret := ret[target := url.value];
      unseen := unseen - {target};
    }
    r := Success(ret);
  }

  // ---------------------------------------------------------------------
  // getMountPointsByRegistry
  // ---------------------------------------------------------------------

  /** The mount point of one mapping: Source is the path less one leading `/`, Target the key. */
  function MountPointOf(target: string, source: Url): (mp: MountPoint)
    ensures mp.target == target
    ensures HasPrefix(source.path, "/") ==> "/" + mp.source == source.path
    ensures !HasPrefix(source.path, "/") ==> mp.source == source.path
  {
    MountPoint(StripOneSlash(source.path), target)
  }

  /** The MountPointsByRegistry entry one mapping produces. */
  function EntryOf(target: string, source: Url): RegistryMounts {
    RegistryMounts(Registry(source), [MountPointOf(target, source)])
  }

  /** `order` lists every key of `keys` exactly once. */
  ghost predicate IsOrdering(order: seq<string>, keys: set<string>) {
    && |order| == |keys|
    && (forall i, j :: 0 <= i < j < |order| ==> order[i] != order[j])
    && (forall k :: k in keys <==> k in order)
  }

  /** `entries` holds one entry per mapping, visited in the order `order`. */
  ghost predicate DerivedInOrder(entries: seq<RegistryMounts>, mappings: map<string, Url>, order: seq<string>) {
    && IsOrdering(order, mappings.Keys)
    && |entries| == |order|
    && forall i :: 0 <= i < |order| ==> entries[i] == EntryOf(order[i], mappings[order[i]])
  }

  /** The mapping key an entry was derived from. */
  function EntryTarget(entry: RegistryMounts): string {
    if |entry.mounts| > 0 then entry.mounts[0].target else ""
  }

  /**
   * `entries` holds one entry per mapping, whatever the order: as many
   * entries as mappings, each derived from its own mapping, no mapping
   * twice, and every mapping present.
   */
  ghost predicate DerivedEntries(entries: seq<RegistryMounts>, mappings: map<string, Url>) {
    && |entries| == |mappings.Keys|
    && (forall i :: 0 <= i < |entries| ==>
          EntryTarget(entries[i]) in mappings && entries[i] == EntryOf(EntryTarget(entries[i]), mappings[EntryTarget(entries[i])]))
    && (forall i, j :: 0 <= i < j < |entries| ==> EntryTarget(entries[i]) != EntryTarget(entries[j]))
    && (forall t :: t in mappings ==> exists i :: 0 <= i < |entries| && EntryTarget(entries[i]) == t)
  }

  lemma InOrderIsDerived(entries: seq<RegistryMounts>, mappings: map<string, Url>, order: seq<string>)
    requires DerivedInOrder(entries, mappings, order)
    ensures DerivedEntries(entries, mappings)
  {
    forall i | 0 <= i < |entries| ensures EntryTarget(entries[i]) == order[i] {
    }
    forall t | t in mappings ensures exists i :: 0 <= i < |entries| && EntryTarget(entries[i]) == t {
      var i :| 0 <= i < |order| && order[i] == t;
      assert EntryTarget(entries[i]) == t;
    }
  }

  /** Loop state of the derivation: `order` visited, `unseen` still to go, one entry per visited key. */
  ghost predicate Deriving(entries: seq<RegistryMounts>, mappings: map<string, Url>, order: seq<string>, unseen: set<string>) {
    && unseen <= mappings.Keys
    && (forall k :: k in mappings ==> (k in order <==> k !in unseen))
    && (forall i, j :: 0 <= i < j < |order| ==> order[i] != order[j])
    && (forall k :: k in order ==> k in mappings)
    && |order| == |mappings.Keys - unseen|
    && |entries| == |order|
    && (forall i :: 0 <= i < |order| ==> entries[i] == EntryOf(order[i], mappings[order[i]]))
  }

  lemma DerivingNext(entries: seq<RegistryMounts>, mappings: map<string, Url>, order: seq<string>, unseen: set<string>, mount: string)
    requires Deriving(entries, mappings, order, unseen) && mount in unseen
    ensures Deriving(entries + [EntryOf(mount, mappings[mount])], mappings, order + [mount], unseen - {mount})
  {
    var entries' := entries + [EntryOf(mount, mappings[mount])];
    var order' := order + [mount];
    var unseen' := unseen - {mount};
    assert mount !in order;
    forall i, j | 0 <= i < j < |order'| ensures order'[i] != order'[j] {
      if j == |order| {
        assert order'[i] == order[i];
      }
    }
    forall i | 0 <= i < |order'| ensures entries'[i] == EntryOf(order'[i], mappings[order'[i]]) {
      if i < |order| {
        assert entries'[i] == entries[i] && order'[i] == order[i];
      }
    }
    assert mount !in mappings.Keys - unseen;
    assert mappings.Keys - unseen' == (mappings.Keys - unseen) + {mount};
  }

  lemma DerivingDone(entries: seq<RegistryMounts>, mappings: map<string, Url>, order: seq<string>)
    requires Deriving(entries, mappings, order, {})
    ensures DerivedInOrder(entries, mappings, order)
  {
    assert mappings.Keys - {} == mappings.Keys;
  }

  /**
   * getMountPointsByRegistry: exactly one entry per mapping, in iteration
   * order `order`; each entry's mount point has the mapping key as Target,
   * the URL path less one leading `/` as Source, and is filed under
   * `scheme://host`. It never fails.
   */
  method GetMountPointsByRegistry(mappings: map<string, Url>) returns (entries: seq<RegistryMounts>, ghost order: seq<string>)
    ensures DerivedInOrder(entries, mappings, order)
    ensures DerivedEntries(entries, mappings)
  {
    entries, order := [], [];
    var unseen := mappings.Keys;
    while unseen != {}
      invariant Deriving(entries, mappings, order, unseen)
      decreases unseen
    {
      var mount :| mount in unseen;
      var source := mappings[mount];
      var mp := MountPoint("", mount);
      var registry := Registry(source);
      if HasPrefix(source.path, "/") {
        mp := mp.(source := source.path[1..]);
      } else {
        mp := mp.(source := source.path);
      }
      DerivingNext(entries, mappings, order, unseen, mount);
      entries := entries + [RegistryMounts(registry, [mp])];
      order := order + [mount];
      unseen := unseen - {mount};
    }
    DerivingDone(entries, mappings, order);
    InOrderIsDerived(entries, mappings, order);
  }

  // ---------------------------------------------------------------------
  // Rules
  // ---------------------------------------------------------------------

  /** `mappings` is the parsed form of the raw table `table`: same keys, each source parsed. */
  ghost predicate ParsedFrom(mappings: map<string, Url>, table: map<string, string>) {
    && mappings.Keys == table.Keys
    && (forall t :: t in table ==> ParsedSource(table[t]) == Some(mappings[t]))
  }

  /** `scope` is what the compiler makes of the raw table `table`. */
  ghost predicate CompiledFrom(scope: MappingRules, table: map<string, string>) {
    && ParsedFrom(scope.mappings, table)
    && DerivedEntries(scope.mountPointsByRegistry, scope.mappings)
  }

  /** A scope with a root mapping has that one mapping and one mount point. */
  ghost predicate WellFormedScope(scope: MappingRules) {
    Root in scope.mappings ==>
      && scope.mappings.Keys == {Root}
      && |scope.mountPointsByRegistry| == 1
      && |scope.mountPointsByRegistry[0].mounts| == 1
      && scope.mountPointsByRegistry[0].mounts[0].target == Root
  }

  ghost predicate WellFormedRules(rules: Rules) {
    && WellFormedScope(rules.instance)
    && forall v :: v in rules.vhosts ==> WellFormedScope(rules.vhosts[v])
  }

  /** Parsing then deriving mount points for one scope. */
  method CompileScope(table: map<string, string>) returns (r: Result<MappingRules, ConfigError>)
    ensures r.Success? <==> AllParse(table)
    ensures r.Success? ==> CompiledFrom(r.value, table)
    ensures r.Failure? ==> FailsOn(table, r.error)
  {
    var mappings := ParseMappings(table);
    if mappings.Failure? {
      return Failure(mappings.error);
    }
    var entries, order := GetMountPointsByRegistry(mappings.value);
    InOrderIsDerived(entries, mappings.value, order);
    r := Success(MappingRules(mappings.value, entries));
  }

  /**
   * After the purge, a scope whose raw table held "/" has exactly the root
   * mapping and exactly one mount point, whose registry and Source come from
   * the root mapping's source.
   */
  lemma {:induction false} RootScopeHasOneMount(scope: MappingRules, table: map<string, string>)
    requires CompiledFrom(scope, RootPurged(table))
    ensures WellFormedScope(scope)
    ensures Root in table ==>
      && ParsedSource(table[Root]).Some?
      && scope.mappings == map[Root := ParsedSource(table[Root]).value]
      && scope.mountPointsByRegistry == [EntryOf(Root, ParsedSource(table[Root]).value)]
  {
    if Root in table {
      var u := RootMappingParsed(scope.mappings, table);
      RootEntries(scope, u);
    } else {
      assert RootPurged(table) == table;
      assert Root !in scope.mappings.Keys;
    }
  }

  /** The purged root table parses to the single parsed root mapping. */
  lemma RootMappingParsed(mappings: map<string, Url>, table: map<string, string>) returns (u: Url)
    requires ParsedFrom(mappings, RootPurged(table)) && Root in table
    ensures ParsedSource(table[Root]) == Some(u)
    ensures mappings == map[Root := u]
  {
    var purged := RootPurged(table);
    assert purged == map[Root := table[Root]];
    assert mappings.Keys == {Root};
    u := mappings[Root];
    assert ParsedSource(purged[Root]) == Some(u);
  }

  /** A scope whose one mapping is the root mapping has the one matching entry. */
  lemma RootEntries(scope: MappingRules, u: Url)
    requires scope.mappings == map[Root := u]
    requires DerivedEntries(scope.mountPointsByRegistry, scope.mappings)
    ensures scope.mountPointsByRegistry == [EntryOf(Root, u)]
  {
    assert |scope.mappings.Keys| == 1;
    assert EntryTarget(scope.mountPointsByRegistry[0]) in scope.mappings;
  }

  /** The purge keeps the table of a scope without a root mapping. */
  lemma PurgeKeepsRootless(table: map<string, string>)
    requires Root !in table
    ensures RootPurged(table) == table
  {
  }

  /** Loop state of the vhost loop: the vhosts outside `unseen` are compiled, each from its own table. */
  ghost predicate VhostsCompiled(vhosts: map<string, MappingRules>, tables: map<string, map<string, string>>, unseen: set<string>) {
    && unseen <= tables.Keys
    && vhosts.Keys == tables.Keys - unseen
    && forall v :: v in vhosts ==> CompiledFrom(vhosts[v], tables[v]) && AllParse(tables[v])
  }

  lemma VhostsNext(vhosts: map<string, MappingRules>, tables: map<string, map<string, string>>, unseen: set<string>, vhost: string, scope: MappingRules)
    requires VhostsCompiled(vhosts, tables, unseen) && vhost in unseen
    requires CompiledFrom(scope, tables[vhost]) && AllParse(tables[vhost])
    ensures VhostsCompiled(vhosts[vhost := scope], tables, unseen - {vhost})
  {
    var vhosts' := vhosts[vhost := scope];
    assert vhosts'.Keys == tables.Keys - (unseen - {vhost});
    forall v | v in vhosts' ensures CompiledFrom(vhosts'[v], tables[v]) && AllParse(tables[v]) {
      if v != vhost {
        assert v in vhosts && vhosts'[v] == vhosts[v];
      }
    }
  }

  /**
   * The vhost loop of Rules: every vhost table compiled into its scope; the
   * first table with a source that does not parse fails the whole loop.
   */
  method CompileVhosts(tables: map<string, map<string, string>>) returns (r: Result<map<string, MappingRules>, ConfigError>)
    ensures r.Success? <==> forall v :: v in tables ==> AllParse(tables[v])
    ensures r.Success? ==> r.value.Keys == tables.Keys
    ensures r.Success? ==> forall v :: v in tables ==> CompiledFrom(r.value[v], tables[v])
    ensures r.Failure? ==> exists v :: v in tables && FailsOn(tables[v], r.error)
  {
    var vhosts: map<string, MappingRules> := map[];
    var unseen := tables.Keys;
    while unseen != {}
      invariant VhostsCompiled(vhosts, tables, unseen)
      decreases unseen
    {
      var vhost :| vhost in unseen;
      var scope := CompileScope(tables[vhost]);
      if scope.Failure? {
        return Failure(scope.error);
      }
      VhostsNext(vhosts, tables, unseen, vhost, scope.value);
      vhosts := vhosts[vhost := scope.value];
      unseen := unseen - {vhost};
    }
    r := Success(vhosts);
  }

  /**
   * config.Config: the instance mapping table and, per virtual host, its
   * own mapping table (VHostSettings.InstanceMappings).
   */
  class Config {
    var instanceMappings: map<string, string>
    var virtualHostsMappings: map<string, map<string, string>>

    constructor (instance: map<string, string>, vhosts: map<string, map<string, string>>)
      ensures instanceMappings == instance && virtualHostsMappings == vhosts
    {
      instanceMappings := instance;
      virtualHostsMappings := vhosts;
    }

    /** Validate: the purge applied in place to the instance table and to every vhost table. */
    method Validate()
      modifies this
      ensures instanceMappings == RootPurged(old(instanceMappings))
      ensures virtualHostsMappings == PurgedVhosts(old(virtualHostsMappings))
    {
      instanceMappings := ValidateMappings(instanceMappings);
      var unseen := virtualHostsMappings.Keys;
      while unseen != {}
        invariant unseen <= virtualHostsMappings.Keys
        invariant instanceMappings == RootPurged(old(instanceMappings))
        invariant virtualHostsMappings.Keys == old(virtualHostsMappings).Keys
        invariant forall v :: v in virtualHostsMappings && v !in unseen ==>
          virtualHostsMappings[v] == RootPurged(old(virtualHostsMappings)[v])
        invariant forall v :: v in unseen ==> virtualHostsMappings[v] == old(virtualHostsMappings)[v]
        decreases unseen
      {
        var vhost :| vhost in unseen;
        var purged := ValidateMappings(virtualHostsMappings[vhost]);
        virtualHostsMappings := virtualHostsMappings[vhost := purged];
        unseen := unseen - {vhost};
      }
    }

    /**
     * Rules: validates the configuration in place, then compiles the
     * instance scope and every vhost scope. On success the vhosts are exactly
     * the configured ones, every scope is compiled from its purged table and
     * the realm cache is empty; a parse error in any scope fails the whole
     * call, naming a source that does not parse.
     */
    method Rules() returns (r: Result<Rules, ConfigError>)
      modifies this
      ensures instanceMappings == RootPurged(old(instanceMappings))
      ensures virtualHostsMappings == PurgedVhosts(old(virtualHostsMappings))
      ensures r.Success? <==>
        AllParse(instanceMappings) && forall v :: v in virtualHostsMappings ==> AllParse(virtualHostsMappings[v])
      ensures r.Success? ==>
        && CompiledFrom(r.value.instance, instanceMappings)
        && r.value.vhosts.Keys == old(virtualHostsMappings).Keys
        && (forall v :: v in virtualHostsMappings ==> CompiledFrom(r.value.vhosts[v], virtualHostsMappings[v]))
        && r.value.registryBearerRealm == map[]
        && WellFormedRules(r.value)
      ensures r.Failure? ==>
        FailsOn(instanceMappings, r.error) || exists v :: v in virtualHostsMappings && FailsOn(virtualHostsMappings[v], r.error)
    {
      Validate();
      var instance := CompileScope(instanceMappings);
      if instance.Failure? {
        return Failure(instance.error);
      }
      RootScopeHasOneMount(instance.value, old(instanceMappings));
      var vhosts := CompileVhosts(virtualHostsMappings);
      if vhosts.Failure? {
        return Failure(vhosts.error);
      }
      forall v | v in virtualHostsMappings ensures WellFormedScope(vhosts.value[v]) {
        RootScopeHasOneMount(vhosts.value[v], old(virtualHostsMappings)[v]);
      }
      r := Success(CompiledRules(instance.value, vhosts.value, map[]));
    }
  }
}
