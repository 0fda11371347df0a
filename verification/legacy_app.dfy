/**
 * handlers/app.go: the older, host-keyed construction of the handler state.
 * Mount points are grouped by the URL's host alone (a string key, so
 * mappings on one host share a group), and a source that fails to parse
 * aborts the construction. `NewApp` reads a single mapping table, which is
 * a parameter here.
 */
module LegacyApp {
  import opened Results
  import opened GoStrings
  import opened Urls
  import opened Types
  import opened Config

  /** The App record of handlers/app.go: the raw table and the mount points per host. */
  datatype App = App(mappings: map<string, string>, mountsByReg: map<string, seq<MountPoint>>)

  /** A mapping the loop has handled: its key and its parsed source. */
  datatype Visit = Visit(target: string, url: Url)

  /** Each visit is a mapping of the table with the URL its source parses to. */
  ghost predicate VisitsOf(visits: seq<Visit>, mappings: map<string, string>) {
    forall i :: 0 <= i < |visits| ==>
      visits[i].target in mappings && ParsedSource(mappings[visits[i].target]) == Some(visits[i].url)
  }

  /** The keys visited, in visit order. */
  function Targets(visits: seq<Visit>): (ts: seq<string>)
    ensures |ts| == |visits| && forall i :: 0 <= i < |visits| ==> ts[i] == visits[i].target
  {
    seq(|visits|, i requires 0 <= i < |visits| => visits[i].target)
  }

  ghost predicate Distinct(ts: seq<string>) {
    forall i, j :: 0 <= i < j < |ts| ==> ts[i] != ts[j]
  }

  /** The mount points filed under `host` after `visits`, in visit order: at most one per visit. */
  function MountsForHost(visits: seq<Visit>, host: string): (mounts: seq<MountPoint>)
    ensures |mounts| <= |visits|
  {
    if |visits| == 0 then []
    else
      var v := visits[|visits| - 1];
      MountsForHost(visits[..|visits| - 1], host) + (if v.url.host == host then [MountPointOf(v.target, v.url)] else [])
  }

  /**
   * `byReg` groups the mount points of `visits` by host: a host is a key
   * exactly when some visited source names it, and its list holds that
   * host's mount points in visit order.
   */
  ghost predicate Grouped(byReg: map<string, seq<MountPoint>>, visits: seq<Visit>) {
    && (forall h :: h in byReg <==> exists i :: 0 <= i < |visits| && visits[i].url.host == h)
    && (forall h :: h in byReg ==> byReg[h] == MountsForHost(visits, h))
  }

  /**
   * A mount point is filed under `host` exactly when it is the mount point
   * of a visited mapping whose source names that host.
   */
  lemma {:induction false} MountsForHostMembers(visits: seq<Visit>, host: string, mp: MountPoint)
    ensures mp in MountsForHost(visits, host) <==>
      exists i :: 0 <= i < |visits| && visits[i].url.host == host && mp == MountPointOf(visits[i].target, visits[i].url)
  {
    if |visits| > 0 {
      var init := visits[..|visits| - 1];
      MountsForHostMembers(init, host, mp);
      assert forall i :: 0 <= i < |init| ==> init[i] == visits[i];
    }
  }

  /** The visits whose source names `host`. */
  function VisitsNaming(visits: seq<Visit>, host: string): set<nat> {
    set i: nat | i < |visits| && visits[i].url.host == host
  }

  /** A host's list holds one mount point per visited mapping naming that host. */
  lemma {:induction false} MountsForHostCount(visits: seq<Visit>, host: string)
    ensures |MountsForHost(visits, host)| == |VisitsNaming(visits, host)|
  {
    if |visits| > 0 {
      var n := |visits| - 1;
      var init := visits[..n];
      MountsForHostCount(init, host);
      var before := VisitsNaming(init, host);
      assert forall i :: 0 <= i < n ==> init[i] == visits[i];
      if visits[n].url.host == host {
        assert VisitsNaming(visits, host) == before + {n};
        assert n !in before;
      } else {
        assert VisitsNaming(visits, host) == before;
      }
    }
  }

  /** A host no visited source names has no mount points. */
  lemma {:induction false} MountsForUnnamedHost(visits: seq<Visit>, host: string)
    requires forall i :: 0 <= i < |visits| ==> visits[i].url.host != host
    ensures MountsForHost(visits, host) == []
  {
    if |visits| > 0 {
      var init := visits[..|visits| - 1];
      assert forall i :: 0 <= i < |init| ==> init[i] == visits[i];
      MountsForUnnamedHost(init, host);
    }
  }

  /** After one more visit, the hosts named are the old ones and the new visit's host. */
  lemma NamedHostsStep(visits: seq<Visit>, v: Visit, h: string)
    ensures (exists i :: 0 <= i < |visits + [v]| && (visits + [v])[i].url.host == h) <==>
      (h == v.url.host || exists i :: 0 <= i < |visits| && visits[i].url.host == h)
  {
    var visits' := visits + [v];
    if h == v.url.host {
      assert visits'[|visits|].url.host == h;
    }
    if exists i :: 0 <= i < |visits| && visits[i].url.host == h {
      var i :| 0 <= i < |visits| && visits[i].url.host == h;
      assert visits'[i].url.host == h;
    }
    if h != v.url.host && exists i :: 0 <= i < |visits'| && visits'[i].url.host == h {
      var i :| 0 <= i < |visits'| && visits'[i].url.host == h;
      assert visits[i].url.host == h;
    }
  }

  /** One more visit appends its mount point to its own host's list and leaves the others alone. */
  lemma MountsForHostStep(visits: seq<Visit>, v: Visit, h: string)
    ensures MountsForHost(visits + [v], h) ==
      MountsForHost(visits, h) + (if v.url.host == h then [MountPointOf(v.target, v.url)] else [])
  {
    assert (visits + [v])[..|visits|] == visits;
  }

  /** Visiting one more parsed mapping appends its mount point to its host's list only. */
  lemma GroupedStep(byReg: map<string, seq<MountPoint>>, visits: seq<Visit>, v: Visit)
    requires Grouped(byReg, visits)
    ensures var old_ := if v.url.host in byReg then byReg[v.url.host] else [];
      Grouped(byReg[v.url.host := old_ + [MountPointOf(v.target, v.url)]], visits + [v])
  {
    var old_ := if v.url.host in byReg then byReg[v.url.host] else [];
    var byReg' := byReg[v.url.host := old_ + [MountPointOf(v.target, v.url)]];
    forall h ensures h in byReg' <==> exists i :: 0 <= i < |visits + [v]| && (visits + [v])[i].url.host == h {
      NamedHostsStep(visits, v, h);
    }
    if v.url.host !in byReg {
      MountsForUnnamedHost(visits, v.url.host);
    }
    forall h | h in byReg' ensures byReg'[h] == MountsForHost(visits + [v], h) {
      MountsForHostStep(visits, v, h);
    }
  }

  /** Recording one more parsed, not yet visited mapping keeps the visits faithful and distinct. */
  lemma VisitStep(visits: seq<Visit>, mappings: map<string, string>, v: Visit)
    requires VisitsOf(visits, mappings) && Distinct(Targets(visits))
    requires v.target in mappings && ParsedSource(mappings[v.target]) == Some(v.url)
    requires v.target !in Targets(visits)
    ensures VisitsOf(visits + [v], mappings) && Distinct(Targets(visits + [v]))
    ensures Targets(visits + [v]) == Targets(visits) + [v.target]
  {
    assert Targets(visits + [v]) == Targets(visits) + [v.target];
  }

  /**
   * getMountPointsByRegistry of handlers/app.go: visits the mappings in an
   * unspecified order, filing each mount point (Target the key, Source the
   * URL path less one leading `/`) under the URL's host. The first source
   * that fails to parse stops the loop with an error; what was built up to
   * then is returned with it.
   */
  method GetMountPointsByRegistry(mappings: map<string, string>)
    returns (byReg: map<string, seq<MountPoint>>, err: Option<ConfigError>, ghost visits: seq<Visit>)
    ensures VisitsOf(visits, mappings) && Distinct(Targets(visits)) && Grouped(byReg, visits)
    ensures err.None? <==> AllParse(mappings)
    ensures err.None? ==> forall t :: t in mappings <==> t in Targets(visits)
    ensures err.Some? ==> FailsOn(mappings, err.value)
  {
    byReg, err, visits := map[], None, [];
    var unseen := mappings.Keys;
    while unseen != {}
      invariant unseen <= mappings.Keys
      invariant forall t :: t in mappings ==> (t in Targets(visits) <==> t !in unseen)
      invariant forall t :: t in Targets(visits) ==> t in mappings
      invariant VisitsOf(visits, mappings) && Distinct(Targets(visits)) && Grouped(byReg, visits)
      decreases unseen
    {
      var mount :| mount in unseen;
      var mp := MountPoint("", mount);
      var source := WithDefaultScheme(mappings[mount]);
      var u := Parse(source);
      if u.None? {
        err := Some(CannotParseUrl(source));
        return;
      }
      var registry := u.value.host;
      if HasPrefix(u.value.path, "/") {
        mp := mp.(source := u.value.path[1..]);
      } else {
        mp := mp.(source := u.value.path);
      }
      assert mp == MountPointOf(mount, u.value);
      ghost var before := byReg;
      GroupedStep(before, visits, Visit(mount, u.value));
      VisitStep(visits, mappings, Visit(mount, u.value));
      var filed: seq<MountPoint> := [];
      if registry in byReg {
        filed := byReg[registry];
      }
      byReg := byReg[registry := filed + [mp]];
      visits := visits + [Visit(mount, u.value)];
      unseen := unseen - {mount};
    }
  }

  /**
   * NewApp: on success the App holds the table and its host-keyed mount
   * points; on failure it is the empty App, returned with the error.
   */
  method NewApp(mappings: map<string, string>) returns (app: App, err: Option<ConfigError>, ghost visits: seq<Visit>)
    ensures err.None? <==> AllParse(mappings)
    ensures err.Some? ==> app == App(map[], map[]) && FailsOn(mappings, err.value)
    ensures err.None? ==> app.mappings == mappings
    ensures err.None? ==>
      && VisitsOf(visits, mappings) && Distinct(Targets(visits))
      && (forall t :: t in mappings <==> t in Targets(visits)) && Grouped(app.mountsByReg, visits)
  {
    app := App(map[], map[]);
    var mountsByReg;
    mountsByReg, err, visits := GetMountPointsByRegistry(mappings);
    if err.Some? {
      return;
    }
    app := app.(mappings := mappings, mountsByReg := mountsByReg);
  }
}
