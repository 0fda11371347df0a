/**
 * The resolver and scope selector of handlers/utils.go: `translateName`
 * maps a client repository name to an upstream registry and remote name,
 * `GetRulesByHost` picks the rules of the request's virtual host.
 */
module Resolver {
  import opened Results
  import opened GoStrings
  import opened Urls
  import opened Types
  import opened Config

  /** One mount point together with the registry it is filed under. */
  datatype RegMount = RegMount(registry: string, point: MountPoint)

  /** A successful translation: where to go and under which name. */
  datatype Resolution = Resolution(registry: string, remoteName: string)

  /** `Cannot find mount point`. */
  datatype ResolveError = CannotFindMountPoint(name: string)

  /** The mount points of one registry entry, each paired with that registry. */
  function MountsOf(entry: RegistryMounts): (r: seq<RegMount>)
    ensures |r| == |entry.mounts|
    ensures forall i :: 0 <= i < |r| ==> r[i] == RegMount(entry.registry, entry.mounts[i])
  {
    seq(|entry.mounts|, i requires 0 <= i < |entry.mounts| => RegMount(entry.registry, entry.mounts[i]))
  }

  /** Every mount point of a scope, in the order the nested loops visit them. */
  function Flatten(entries: seq<RegistryMounts>): seq<RegMount>
  {
    if |entries| == 0 then []
    else Flatten(entries[..|entries| - 1]) + MountsOf(entries[|entries| - 1])
  }

  lemma FlattenStep(entries: seq<RegistryMounts>, g: nat)
    requires g < |entries|
    ensures Flatten(entries[..g + 1]) == Flatten(entries[..g]) + MountsOf(entries[g])
  {
    assert entries[..g + 1][..g] == entries[..g];
  }

  /** A flattening of a prefix of the entries is a prefix of the whole flattening. */
  lemma {:induction false} FlattenPrefix(entries: seq<RegistryMounts>, g: nat)
    requires g <= |entries|
    ensures |Flatten(entries[..g])| <= |Flatten(entries)|
    ensures Flatten(entries[..g]) == Flatten(entries)[..|Flatten(entries[..g])|]
    decreases |entries| - g
  {
    if g == |entries| {
      assert entries[..g] == entries;
    } else {
      FlattenStep(entries, g);
      FlattenPrefix(entries, g + 1);
    }
  }

  /** Entries holding one mount point each flatten to those mount points, entry by entry. */
  lemma {:induction false} FlattenSingles(entries: seq<RegistryMounts>)
    requires forall g :: 0 <= g < |entries| ==> |entries[g].mounts| == 1
    ensures |Flatten(entries)| == |entries|
    ensures forall g :: 0 <= g < |entries| ==> Flatten(entries)[g] == RegMount(entries[g].registry, entries[g].mounts[0])
  {
    if |entries| > 0 {
      var init := entries[..|entries| - 1];
      FlattenSingles(init);
      assert forall g :: 0 <= g < |init| ==> init[g] == entries[g];
    }
  }

  /** `m` can win: its Target is a non-empty prefix of `name`. */
  predicate Candidate(m: RegMount, name: string) {
    HasPrefix(name, m.point.target) && |m.point.target| > 0
  }

  /**
   * The mount point the scan settles on: a later mount replaces the current
   * one only when its Target prefixes `name` and is strictly longer (the
   * current Target starts out empty).
   */
  function Winner(flat: seq<RegMount>, name: string): (w: Option<nat>)
    ensures w.Some? ==> w.value < |flat| && Candidate(flat[w.value], name)
  {
    if |flat| == 0 then None
    else
      var w0 := Winner(flat[..|flat| - 1], name);
      var last := flat[|flat| - 1];
      var bestLength := if w0.None? then 0 else |flat[w0.value].point.target|;
      if HasPrefix(name, last.point.target) && |last.point.target| > bestLength then Some(|flat| - 1)
      else w0
  }

  /**
   * `w` is the first among the longest matches: its non-empty Target
   * prefixes `name`, no Target prefixing `name` is longer, and every
   * earlier one prefixing `name` is strictly shorter.
   */
  ghost predicate FirstLongest(flat: seq<RegMount>, name: string, w: nat) {
    && w < |flat|
    && Candidate(flat[w], name)
    && (forall j :: 0 <= j < |flat| && HasPrefix(name, flat[j].point.target) ==>
          |flat[j].point.target| <= |flat[w].point.target|)
    && (forall j :: 0 <= j < w && HasPrefix(name, flat[j].point.target) ==>
          |flat[j].point.target| < |flat[w].point.target|)
  }

  /**
   * The scan picks the longest matching Target, the first scanned on a tie,
   * and finds nothing exactly when no mount has a non-empty Target that
   * prefixes `name` (an empty Target never wins).
   */
  lemma {:induction false} WinnerIsFirstLongest(flat: seq<RegMount>, name: string)
    ensures Winner(flat, name).None? <==> forall j :: 0 <= j < |flat| ==> !Candidate(flat[j], name)
    ensures Winner(flat, name).Some? ==> FirstLongest(flat, name, Winner(flat, name).value)
  {
    if |flat| > 0 {
      var init := flat[..|flat| - 1];
      WinnerIsFirstLongest(init, name);
      assert forall j :: 0 <= j < |init| ==> init[j] == flat[j];
    }
  }

  /** There is only one first-longest match. */
  lemma FirstLongestUnique(flat: seq<RegMount>, name: string, w1: nat, w2: nat)
    requires FirstLongest(flat, name, w1) && FirstLongest(flat, name, w2)
    ensures w1 == w2
  {
  }

  /** The result of translateName, as a function of the scope and the name. */
  function Translate(scope: MappingRules, name: string): (r: Result<Resolution, ResolveError>)
    ensures r.Failure? ==> r.error == CannotFindMountPoint(name)
    ensures r.Success? ==>
      exists i :: 0 <= i < |Flatten(scope.mountPointsByRegistry)| && r.value.registry == Flatten(scope.mountPointsByRegistry)[i].registry
  {
    var flat := Flatten(scope.mountPointsByRegistry);
    if Root in scope.mappings && |flat| > 0 then
      Success(Resolution(flat[0].registry, flat[0].point.source + "/" + name))
    else
      match Winner(flat, name)
      case None => Failure(CannotFindMountPoint(name))
      case Some(w) =>
        if flat[w].point.source == "" then Failure(CannotFindMountPoint(name))
        else Success(Resolution(flat[w].registry, Replace1(name, flat[w].point.target, flat[w].point.source)))
  }

  /** The loop state `(target, source, registry)` agrees with the scan's winner so far. */
  ghost predicate Tracks(w: Option<nat>, seen: seq<RegMount>, target: string, source: string, registry: Option<string>) {
    match w
    case None => registry.None? && target == "" && source == ""
    case Some(i) =>
      i < |seen| && registry == Some(seen[i].registry) && target == seen[i].point.target && source == seen[i].point.source
  }

  /**
   * The scan of translateName's general path: every mount point of every
   * entry, keeping the longest Target that prefixes `name` (strictly longer
   * replaces), with its Source and registry.
   */
  method LongestMatch(entries: seq<RegistryMounts>, name: string)
    returns (target: string, source: string, registry: Option<string>)
    ensures Tracks(Winner(Flatten(entries), name), Flatten(entries), target, source, registry)
  {
    target, source := "", "";
    registry := None;
    var g := 0;
    while g < |entries|
      invariant 0 <= g <= |entries|
      invariant Tracks(Winner(Flatten(entries[..g]), name), Flatten(entries[..g]), target, source, registry)
    {
      ghost var before := Flatten(entries[..g]);
      var mounts := entries[g].mounts;
      var j := 0;
      assert before + MountsOf(entries[g])[..0] == before;
      while j < |mounts|
        invariant 0 <= j <= |mounts|
        invariant Tracks(Winner(before + MountsOf(entries[g])[..j], name), before + MountsOf(entries[g])[..j], target, source, registry)
      {
        ghost var seen := before + MountsOf(entries[g])[..j];
        assert before + MountsOf(entries[g])[..j + 1] == seen + [RegMount(entries[g].registry, mounts[j])];
        assert (seen + [RegMount(entries[g].registry, mounts[j])])[..|seen|] == seen;
        var mp := mounts[j];
        if HasPrefix(name, mp.target) {
          if |mp.target| > |target| {
            target := mp.target;
            source := mp.source;
            registry := Some(entries[g].registry);
          }
        }
        j := j + 1;
      }
      assert MountsOf(entries[g])[..j] == MountsOf(entries[g]);
      FlattenStep(entries, g);
      g := g + 1;
    }
    assert entries[..g] == entries;
  }

  /**
   * translateName: with a root mapping, the first mount point of the scope
   * serves every name; otherwise a scan over every mount point of every
   * registry keeps the longest Target that prefixes the name, and that
   * prefix is replaced once by the winner's Source.
   */
  method TranslateName(scope: MappingRules, name: string) returns (r: Result<Resolution, ResolveError>)
    ensures r == Translate(scope, name)
  {
    var entries := scope.mountPointsByRegistry;
    if Root in scope.mappings {
      var g := 0;
      while g < |entries|
        invariant 0 <= g <= |entries|
        invariant Flatten(entries[..g]) == []
      {
        FlattenStep(entries, g);
        var mounts := entries[g].mounts;
        if |mounts| > 0 {
          FlattenPrefix(entries, g + 1);
          assert Flatten(entries)[0] == RegMount(entries[g].registry, mounts[0]);
          return Success(Resolution(entries[g].registry, mounts[0].source + "/" + name));
        }
        g := g + 1;
      }
      assert entries[..g] == entries;
    }
    var target, source, registry := LongestMatch(entries, name);
    if registry.None? || target == "" || source == "" {
      return Failure(CannotFindMountPoint(name));
    }
    r := Success(Resolution(registry.value, Replace1(name, target, source)));
  }

  /**
   * Without a root mapping, a translation succeeds exactly when the first
   * longest match exists and has a non-empty Source; it then goes to that
   * mount's registry, and the remote name is the Source followed by what
   * the name has after the Target.
   */
  lemma TranslateGeneralPath(scope: MappingRules, name: string)
    requires !(Root in scope.mappings && |Flatten(scope.mountPointsByRegistry)| > 0)
    ensures var flat := Flatten(scope.mountPointsByRegistry);
      Translate(scope, name).Success? <==>
        exists w: nat :: FirstLongest(flat, name, w) && flat[w].point.source != ""
    ensures var flat := Flatten(scope.mountPointsByRegistry);
      forall w: nat :: FirstLongest(flat, name, w) && flat[w].point.source != "" ==>
        Translate(scope, name) == Success(Resolution(flat[w].registry, flat[w].point.source + name[|flat[w].point.target|..]))
  {
    var flat := Flatten(scope.mountPointsByRegistry);
    WinnerIsFirstLongest(flat, name);
    forall w: nat | FirstLongest(flat, name, w)
      ensures Winner(flat, name) == Some(w)
    {
      FirstLongestUnique(flat, name, w, Winner(flat, name).value);
    }
    match Winner(flat, name)
    case None =>
    case Some(w) =>
      ReplacePrefixOnce(name, flat[w].point.target, flat[w].point.source);
  }

  /**
   * In a compiled scope without a root mapping, a name that exactly one
   * mapping key prefixes (a non-empty one) is served by that mapping,
   * whatever the order of the entries: the key is replaced by the mapping's
   * Source on its registry, and an empty Source is refused.
   */
  lemma OnlyMatchServes(scope: MappingRules, name: string, t: string)
    requires DerivedEntries(scope.mountPointsByRegistry, scope.mappings)
    requires Root !in scope.mappings
    requires t in scope.mappings && t != "" && HasPrefix(name, t)
    requires forall k :: k in scope.mappings && k != t ==> !HasPrefix(name, k)
    ensures var u := scope.mappings[t];
      Translate(scope, name) ==
        if StripOneSlash(u.path) == "" then Failure(CannotFindMountPoint(name))
        else Success(Resolution(Registry(u), StripOneSlash(u.path) + name[|t|..]))
  {
    var entries := scope.mountPointsByRegistry;
    var u := scope.mappings[t];
    FlattenSingles(entries);
    var flat := Flatten(entries);
    var w :| 0 <= w < |entries| && EntryTarget(entries[w]) == t;
    assert flat[w] == RegMount(Registry(u), MountPointOf(t, u));
    forall j | 0 <= j < |flat| && j != w ensures !HasPrefix(name, flat[j].point.target) {
      assert flat[j].point.target == EntryTarget(entries[j]);
    }
    assert FirstLongest(flat, name, w);
    WinnerIsFirstLongest(flat, name);
    FirstLongestUnique(flat, name, w, Winner(flat, name).value);
    ReplacePrefixOnce(name, t, StripOneSlash(u.path));
  }

  /** A scope with the root mapping and its single entry serves every name from that entry. */
  lemma SingleRootEntryServesEveryName(scope: MappingRules, u: Url, name: string)
    requires Root in scope.mappings && scope.mountPointsByRegistry == [EntryOf(Root, u)]
    ensures Translate(scope, name) == Success(Resolution(Registry(u), StripOneSlash(u.path) + "/" + name))
  {
    var entries := scope.mountPointsByRegistry;
    assert entries[..0] == [];
    FlattenStep(entries, 0);
    assert entries[..1] == entries;
  }

  /**
   * A scope compiled from a table with a root mapping sends every name to
   * the root mapping's registry, as `<Source>/<name>`.
   */
  lemma RootMappingServesEveryName(scope: MappingRules, table: map<string, string>, name: string)
    requires CompiledFrom(scope, RootPurged(table)) && Root in table
    ensures ParsedSource(table[Root]).Some?
    ensures var u := ParsedSource(table[Root]).value;
      Translate(scope, name) == Success(Resolution(Registry(u), StripOneSlash(u.path) + "/" + name))
  {
    RootScopeHasOneMount(scope, table);
    SingleRootEntryServesEveryName(scope, ParsedSource(table[Root]).value, name);
  }

  /** GetRulesByHost: the vhost's rules when the host is a configured vhost, the instance rules otherwise. */
  function GetRulesByHost(host: string, rules: Rules): (scope: MappingRules)
    ensures host in rules.vhosts ==> scope == rules.vhosts[host]
    ensures host !in rules.vhosts ==> scope == rules.instance
  {
    if host in rules.vhosts then rules.vhosts[host] else rules.instance
  }

  /** The selected scope of well-formed rules is well formed. */
  lemma SelectedScopeWellFormed(host: string, rules: Rules)
    requires WellFormedRules(rules)
    ensures WellFormedScope(GetRulesByHost(host, rules))
  {
  }
}
