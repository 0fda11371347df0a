/**
 * handlers/catalog.go: `GET /v2/_catalog` lists, for every registry of the
 * request's scope, every upstream repository that a mount point's Source
 * prefixes, renamed under that mount point's Target. Fetching the upstream
 * catalogs is not modelled: they are an input, one per registry entry (an
 * unreachable registry contributes an empty catalog).
 */
module Catalog {
  import opened Results
  import opened GoStrings
  import opened Types
  import opened Config
  import opened Resolver

  /** The name under which `repo` is listed for mount point `m`. */
  ghost predicate Listed(x: string, repo: string, m: MountPoint) {
    HasPrefix(repo, m.source) && x == Replace1(repo, m.source, m.target)
  }

  ghost predicate ListedUnder(x: string, repo: string, mounts: seq<MountPoint>) {
    exists i :: 0 <= i < |mounts| && Listed(x, repo, mounts[i])
  }

  ghost predicate ListedFrom(x: string, repos: seq<string>, mounts: seq<MountPoint>) {
    exists r :: 0 <= r < |repos| && ListedUnder(x, repos[r], mounts)
  }

  /** `x` is listed from some registry entry's upstream catalog. */
  ghost predicate InCatalog(x: string, entries: seq<RegistryMounts>, upstream: seq<seq<string>>)
    requires |upstream| == |entries|
  {
    exists k :: 0 <= k < |entries| && ListedFrom(x, upstream[k], entries[k].mounts)
  }

  /** The names one upstream repository contributes, mount point by mount point: at most one each. */
  function RepoNames(repo: string, mounts: seq<MountPoint>): (names: seq<string>)
    ensures |names| <= |mounts|
  {
    if |mounts| == 0 then []
    else
      var m := mounts[|mounts| - 1];
      RepoNames(repo, mounts[..|mounts| - 1])
        + (if HasPrefix(repo, m.source) then [Replace1(repo, m.source, m.target)] else [])
  }

  /** The names one registry entry contributes, repository by repository. */
  function RegistryNames(repos: seq<string>, mounts: seq<MountPoint>): seq<string>
  {
    if |repos| == 0 then []
    else RegistryNames(repos[..|repos| - 1], mounts) + RepoNames(repos[|repos| - 1], mounts)
  }

  /** A registry entry contributes at most one name per repository and mount point. */
  lemma {:induction false} RegistryNamesBound(repos: seq<string>, mounts: seq<MountPoint>)
    ensures |RegistryNames(repos, mounts)| <= |repos| * |mounts|
  {
    if |repos| > 0 {
      var n := |repos| - 1;
      RegistryNamesBound(repos[..n], mounts);
      assert |repos[..n]| * |mounts| + |mounts| == |repos| * |mounts| by {
        assert |repos| == n + 1;
      }
    }
  }

  /**
   * The catalog built by visiting the registry entries in `order`: every
   * name in it comes from the list of a visited entry.
   */
  function CatalogNames(order: seq<nat>, entries: seq<RegistryMounts>, upstream: seq<seq<string>>): (names: seq<string>)
    requires |upstream| == |entries|
    requires forall t :: 0 <= t < |order| ==> order[t] < |entries|
    ensures forall x :: x in names ==>
      exists t :: 0 <= t < |order| && x in RegistryNames(upstream[order[t]], entries[order[t]].mounts)
  {
    if |order| == 0 then []
    else
      var k := order[|order| - 1];
      CatalogNames(order[..|order| - 1], entries, upstream) + RegistryNames(upstream[k], entries[k].mounts)
  }

  /** The indices below `n`. */
  function Below(n: nat): (s: set<nat>)
    ensures forall k: nat :: k in s <==> k < n
    ensures |s| == n
  {
    if n == 0 then {} else Below(n - 1) + {n - 1}
  }

  /** `order` visits each of the `n` registry entries exactly once. */
  ghost predicate IsIndexOrdering(order: seq<nat>, n: nat) {
    && |order| == n
    && (forall t :: 0 <= t < |order| ==> order[t] < n)
    && (forall t, u :: 0 <= t < u < |order| ==> order[t] != order[u])
    && (forall k: nat :: k < n ==> k in order)
  }

  /** Loop state of a visit of `n` indices: `order` visited so far, `unseen` still to go. */
  ghost predicate Visiting(order: seq<nat>, unseen: set<nat>, n: nat) {
    && (forall k :: k in unseen ==> k < n)
    && (forall t :: 0 <= t < |order| ==> order[t] < n && order[t] !in unseen)
    && (forall t, u :: 0 <= t < u < |order| ==> order[t] != order[u])
    && (forall k: nat :: k < n ==> k in order || k in unseen)
    && |order| + |unseen| == n
  }

  lemma VisitStart(n: nat)
    ensures Visiting([], Below(n), n)
  {
  }

  lemma VisitNext(order: seq<nat>, unseen: set<nat>, n: nat, k: nat)
    requires Visiting(order, unseen, n) && k in unseen
    ensures Visiting(order + [k], unseen - {k}, n)
  {
  }

  lemma VisitDone(order: seq<nat>, n: nat)
    requires Visiting(order, {}, n)
    ensures IsIndexOrdering(order, n)
  {
  }

  lemma {:induction false} RepoNamesMembers(repo: string, mounts: seq<MountPoint>, x: string)
    ensures x in RepoNames(repo, mounts) <==> ListedUnder(x, repo, mounts)
  {
    if |mounts| > 0 {
      var init := mounts[..|mounts| - 1];
      RepoNamesMembers(repo, init, x);
      var m := mounts[|mounts| - 1];
      assert RepoNames(repo, mounts) ==
        RepoNames(repo, init) + (if HasPrefix(repo, m.source) then [Replace1(repo, m.source, m.target)] else []);
      if x in RepoNames(repo, init) {
        var i :| 0 <= i < |init| && Listed(x, repo, init[i]);
        assert mounts[i] == init[i];
      }
      if ListedUnder(x, repo, mounts) {
        var i :| 0 <= i < |mounts| && Listed(x, repo, mounts[i]);
        if i < |init| {
          assert init[i] == mounts[i];
          assert ListedUnder(x, repo, init);
        }
      }
    }
  }

  lemma RegistryNamesMembers(repos: seq<string>, mounts: seq<MountPoint>, x: string)
    ensures x in RegistryNames(repos, mounts) <==> ListedFrom(x, repos, mounts)
  {
    if x in RegistryNames(repos, mounts) {
      RegistryNamesSound(repos, mounts, x);
    }
    if ListedFrom(x, repos, mounts) {
      var r :| 0 <= r < |repos| && ListedUnder(x, repos[r], mounts);
      RegistryNamesComplete(repos, mounts, x, r);
    }
  }

  /** Every name listed for a registry comes from one of its repositories. */
  lemma {:induction false} RegistryNamesSound(repos: seq<string>, mounts: seq<MountPoint>, x: string)
    requires x in RegistryNames(repos, mounts)
    ensures ListedFrom(x, repos, mounts)
  {
    assert |repos| > 0;
    var init := repos[..|repos| - 1];
    var last := repos[|repos| - 1];
    assert RegistryNames(repos, mounts) == RegistryNames(init, mounts) + RepoNames(last, mounts);
    if x in RegistryNames(init, mounts) {
      RegistryNamesSound(init, mounts, x);
      var r :| 0 <= r < |init| && ListedUnder(x, init[r], mounts);
      assert repos[r] == init[r];
    } else {
      RepoNamesMembers(last, mounts, x);
      assert ListedUnder(x, repos[|repos| - 1], mounts);
    }
  }

  /** Every name a repository of the registry yields is listed for the registry. */
  lemma {:induction false} RegistryNamesComplete(repos: seq<string>, mounts: seq<MountPoint>, x: string, r: int)
    requires 0 <= r < |repos| && ListedUnder(x, repos[r], mounts)
    ensures x in RegistryNames(repos, mounts)
  {
    var init := repos[..|repos| - 1];
    var last := repos[|repos| - 1];
    assert RegistryNames(repos, mounts) == RegistryNames(init, mounts) + RepoNames(last, mounts);
    if r < |init| {
      assert init[r] == repos[r];
      RegistryNamesComplete(init, mounts, x, r);
    } else {
      RepoNamesMembers(last, mounts, x);
    }
  }

  lemma {:induction false} CatalogNamesMembers(order: seq<nat>, entries: seq<RegistryMounts>, upstream: seq<seq<string>>, x: string)
    requires |upstream| == |entries|
    requires forall t :: 0 <= t < |order| ==> order[t] < |entries|
    ensures x in CatalogNames(order, entries, upstream) <==>
      exists t :: 0 <= t < |order| && ListedFrom(x, upstream[order[t]], entries[order[t]].mounts)
  {
    if |order| > 0 {
      var init := order[..|order| - 1];
      var k := order[|order| - 1];
      CatalogNamesMembers(init, entries, upstream, x);
      RegistryNamesMembers(upstream[k], entries[k].mounts, x);
      assert forall t :: 0 <= t < |init| ==> init[t] == order[t];
    }
  }

  /**
   * Whatever order the registries are visited in, a name is in the catalog
   * exactly when some registry's upstream repository is listed under it by
   * one of that registry's mount points.
   */
  lemma CatalogContents(order: seq<nat>, entries: seq<RegistryMounts>, upstream: seq<seq<string>>, x: string)
    requires |upstream| == |entries| && IsIndexOrdering(order, |entries|)
    ensures x in CatalogNames(order, entries, upstream) <==> InCatalog(x, entries, upstream)
  {
    CatalogNamesMembers(order, entries, upstream, x);
    if InCatalog(x, entries, upstream) {
      var k :| 0 <= k < |entries| && ListedFrom(x, upstream[k], entries[k].mounts);
      assert k in order;
      var t :| 0 <= t < |order| && order[t] == k;
    }
  }

  /**
   * The two inner loops of GetCatalog: every upstream repository of one
   * registry entry against every mount point of that entry.
   */
  method ListRegistry(repos: seq<string>, mounts: seq<MountPoint>) returns (names: seq<string>)
    ensures names == RegistryNames(repos, mounts)
  {
    names := [];
    var r := 0;
    while r < |repos|
      invariant 0 <= r <= |repos|
      invariant names == RegistryNames(repos[..r], mounts)
    {
      ghost var beforeRepo := names;
      var i := 0;
      while i < |mounts|
        invariant 0 <= i <= |mounts|
        invariant names == beforeRepo + RepoNames(repos[r], mounts[..i])
      {
        assert mounts[..i + 1][..i] == mounts[..i];
        if HasPrefix(repos[r], mounts[i].source) {
          names := names + [Replace1(repos[r], mounts[i].source, mounts[i].target)];
        }
        i := i + 1;
      }
      assert mounts[..i] == mounts;
      assert repos[..r + 1][..r] == repos[..r];
      r := r + 1;
    }
    assert repos[..r] == repos;
  }

  /**
   * GetCatalog: the registry entries of the request's scope are visited in
   * an unspecified order (Go map iteration); for each, every upstream
   * repository is checked against every mount point of that entry.
   */
  method GetCatalog(rules: Rules, host: string, upstream: seq<seq<string>>)
    returns (names: seq<string>, ghost order: seq<nat>)
    requires |upstream| == |GetRulesByHost(host, rules).mountPointsByRegistry|
    ensures var entries := GetRulesByHost(host, rules).mountPointsByRegistry;
      && IsIndexOrdering(order, |entries|)
      && names == CatalogNames(order, entries, upstream)
    ensures forall x :: x in names <==> InCatalog(x, GetRulesByHost(host, rules).mountPointsByRegistry, upstream)
  {
    var entries := GetRulesByHost(host, rules).mountPointsByRegistry;
    var unseen := Below(|entries|);
    names, order := [], [];
    VisitStart(|entries|);
    while unseen != {}
      invariant Visiting(order, unseen, |entries|)
      invariant names == CatalogNames(order, entries, upstream)
      decreases unseen
    {
      var k :| k in unseen;
      var listed := ListRegistry(upstream[k], entries[k].mounts);
      VisitNext(order, unseen, |entries|, k);
      assert (order + [k])[..|order|] == order;
      names := names + listed;
      order := order + [k];
      unseen := unseen - {k};
    }
    VisitDone(order, |entries|);
    forall x ensures x in names <==> InCatalog(x, entries, upstream) {
      CatalogContents(order, entries, upstream, x);
    }
  }

  /** A listed name is the mount's Target followed by what the repository has after the Source. */
  lemma ListedNameShape(x: string, repo: string, m: MountPoint)
    requires Listed(x, repo, m)
    ensures x == m.target + repo[|m.source|..]
  {
    ReplacePrefixOnce(repo, m.source, m.target);
  }

  /** The indices of the mount points whose Source prefixes `repo`. */
  function MatchingMounts(repo: string, mounts: seq<MountPoint>): set<nat> {
    set i: nat | i < |mounts| && HasPrefix(repo, mounts[i].source)
  }

  /** One repository contributes one name per mount point whose Source prefixes it. */
  lemma {:induction false} RepoNamesCount(repo: string, mounts: seq<MountPoint>)
    ensures |RepoNames(repo, mounts)| == |MatchingMounts(repo, mounts)|
  {
    if |mounts| > 0 {
      var n := |mounts| - 1;
      var init := mounts[..n];
      RepoNamesCount(repo, init);
      var before := MatchingMounts(repo, init);
      assert forall i :: 0 <= i < n ==> init[i] == mounts[i];
      if HasPrefix(repo, mounts[n].source) {
        assert MatchingMounts(repo, mounts) == before + {n};
        assert n !in before;
      } else {
        assert MatchingMounts(repo, mounts) == before;
      }
    }
  }

  /** A mount point with an empty Source lists every repository, prefixed by its Target. */
  lemma EmptySourceListsEverything(repo: string, target: string)
    ensures Listed(target + repo, repo, MountPoint("", target))
  {
    ReplacePrefixOnce(repo, "", target);
  }

  /**
   * A name listed for mount point `w` of a scope without a root mapping
   * translates back to the upstream repository on that mount's registry,
   * provided no other mount point's Target prefixing the name is as long.
   */
  lemma ListedNameTranslatesBack(scope: MappingRules, w: nat, repo: string)
    requires Root !in scope.mappings
    requires w < |Flatten(scope.mountPointsByRegistry)|
    requires var m := Flatten(scope.mountPointsByRegistry)[w].point;
      m.source != "" && m.target != "" && HasPrefix(repo, m.source)
    requires var flat := Flatten(scope.mountPointsByRegistry);
      var m := flat[w].point;
      forall j :: 0 <= j < |flat| && j != w && HasPrefix(Replace1(repo, m.source, m.target), flat[j].point.target) ==>
        |flat[j].point.target| < |m.target|
    ensures var flat := Flatten(scope.mountPointsByRegistry);
      var m := flat[w].point;
      Translate(scope, Replace1(repo, m.source, m.target)) == Success(Resolution(flat[w].registry, repo))
  {
    var flat := Flatten(scope.mountPointsByRegistry);
    var m := flat[w].point;
    var x := Replace1(repo, m.source, m.target);
    ReplacePrefixOnce(repo, m.source, m.target);
    assert x[..|m.target|] == m.target;
    assert FirstLongest(flat, x, w);
    TranslateGeneralPath(scope, x);
    assert x[|m.target|..] == repo[|m.source|..];
    assert m.source + repo[|m.source|..] == repo;
  }

  /**
   * A mount point with an empty Source lists every repository (as
   * `<Target><repo>`), but translating such a name fails when that mount
   * point is its first-longest match: the resolver refuses an empty Source.
   */
  lemma EmptySourceListedButNotServed(scope: MappingRules, w: nat, repo: string)
    requires Root !in scope.mappings
    requires w < |Flatten(scope.mountPointsByRegistry)|
    requires var m := Flatten(scope.mountPointsByRegistry)[w].point;
      m.source == "" && m.target != ""
    requires var flat := Flatten(scope.mountPointsByRegistry);
      var m := flat[w].point;
      forall j :: 0 <= j < |flat| && j != w && HasPrefix(m.target + repo, flat[j].point.target) ==>
        |flat[j].point.target| < |m.target|
    ensures var m := Flatten(scope.mountPointsByRegistry)[w].point;
      Listed(m.target + repo, repo, m) && Translate(scope, m.target + repo).Failure?
  {
    var flat := Flatten(scope.mountPointsByRegistry);
    var m := flat[w].point;
    var x := m.target + repo;
    EmptySourceListsEverything(repo, m.target);
    assert x[..|m.target|] == m.target;
    assert FirstLongest(flat, x, w);
    TranslateGeneralPath(scope, x);
    forall w': nat | FirstLongest(flat, x, w') ensures flat[w'].point.source == "" {
      FirstLongestUnique(flat, x, w, w');
    }
  }
}
