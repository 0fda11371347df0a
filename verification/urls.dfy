/**
 * Mapping sources as URLs: the `https://` defaulting the gateway applies to
 * every source, a simplified `url.Parse`, and the registry identity and
 * mount-point source derived from a parsed URL.
 */
module Urls {
  import opened Results
  import opened GoStrings

  /** The parts of a Go `url.URL` the gateway reads. `host` keeps any port. */
  datatype Url = Url(scheme: string, host: string, path: string)

  const HttpsPrefix := "https://"
  const HttpPrefix := "http://"

  predicate HasScheme(source: string) {
    HasPrefix(source, HttpsPrefix) || HasPrefix(source, HttpPrefix)
  }

  /**
   * A source is given `https://` exactly when it starts with neither
   * `https://` nor `http://`; one that has a scheme is left alone.
   */
  function WithDefaultScheme(source: string): (r: string)
    ensures HasScheme(r)
    ensures HasScheme(source) ==> r == source
    ensures !HasScheme(source) ==> r == HttpsPrefix + source
  {
    if !HasPrefix(source, HttpsPrefix) && !HasPrefix(source, HttpPrefix) then
      assert (HttpsPrefix + source)[..|HttpsPrefix|] == HttpsPrefix;
      HttpsPrefix + source
    else
      source
  }

  /** The part of `s` before the first `c` (all of `s` when there is none). */
  function TakeUntil(s: string, c: char): (r: string)
    ensures HasPrefix(s, r) && c !in r
    ensures |r| < |s| ==> s[|r|] == c
  {
    if |s| == 0 || s[0] == c then ""
    else
      var rest := TakeUntil(s[1..], c);
      assert ([s[0]] + rest) == s[..|rest| + 1];
      [s[0]] + rest
  }

  /** An ASCII control character, which Go rejects in a URL before its `#` fragment. */
  predicate IsControl(c: char) {
    c < ' ' || c == '\U{7F}'
  }

  /** Characters Go refuses, unescaped, in the host part of a URL. */
  predicate IsInvalidHostChar(c: char) {
    c == ' ' || c == '`' || c == '^' || c == '{' || c == '|' || c == '}' || c == '\\'
  }

  /** Some character of `s` before its first `#` is a control character. */
  predicate ControlBeforeHash(s: string) {
    |s| > 0 && s[0] != '#' && (IsControl(s[0]) || ControlBeforeHash(s[1..]))
  }

  /** Some character of `s` may not appear in a host. */
  predicate HasInvalidHostChar(s: string) {
    |s| > 0 && (IsInvalidHostChar(s[0]) || HasInvalidHostChar(s[1..]))
  }

  /** The scans find exactly the strings holding such a character. */
  lemma {:induction false} CharScans(s: string)
    ensures ControlBeforeHash(s) <==> exists i :: 0 <= i < |s| && IsControl(s[i]) && '#' !in s[..i]
    ensures HasInvalidHostChar(s) <==> exists i :: 0 <= i < |s| && IsInvalidHostChar(s[i])
  {
    if |s| > 0 {
      var tail := s[1..];
      CharScans(tail);
      assert forall i :: 1 <= i < |s| ==> s[i] == tail[i - 1] && s[..i] == [s[0]] + tail[..i - 1];
      if ControlBeforeHash(s) && !IsControl(s[0]) {
        var i :| 0 <= i < |tail| && IsControl(tail[i]) && '#' !in tail[..i];
        assert IsControl(s[i + 1]) && '#' !in s[..i + 1];
      }
      if exists i :: 0 <= i < |s| && IsControl(s[i]) && '#' !in s[..i] {
        var i :| 0 <= i < |s| && IsControl(s[i]) && '#' !in s[..i];
        assert s[0] in s[..i + 1];
        if i > 0 {
          assert IsControl(tail[i - 1]) && '#' !in tail[..i - 1];
        }
      }
    }
  }

  /**
   * `url.Parse` on a source that already carries its scheme: parsing fails
   * on a control character before the fragment; the fragment (from `#`)
   * and the query (from `?`) are dropped, the host runs up to the first `/`,
   * and the path is the rest, slash included. Parsing also fails on a
   * character a host name may not hold.
   */
  function Parse(raw: string): (u: Option<Url>)
    requires HasScheme(raw)
    ensures u.Some? ==> u.value.scheme == "https" || u.value.scheme == "http"
    ensures u.Some? ==> u.value.path == "" || u.value.path[0] == '/'
  {
    if ControlBeforeHash(raw) then None
    else
      var scheme := if HasPrefix(raw, HttpsPrefix) then "https" else "http";
      var rest := TakeUntil(TakeUntil(raw[|scheme| + 3..], '#'), '?');
      var host := TakeUntil(rest, '/');
      if HasInvalidHostChar(host) then None
      else Some(Url(scheme, host, rest[|host|..]))
  }

  /** TakeUntil stops at the first `c`, or takes everything when there is none. */
  lemma {:induction false} TakeUntilAt(s: string, c: char, k: nat)
    requires k <= |s|
    requires forall i :: 0 <= i < k ==> s[i] != c
    requires k == |s| || s[k] == c
    ensures TakeUntil(s, c) == s[..k]
  {
    if k > 0 {
      TakeUntilAt(s[1..], c, k - 1);
      assert [s[0]] + s[1..][..k - 1] == s[..k];
    }
  }

  /** A character that needs no special treatment anywhere in a URL. */
  predicate PlainChar(c: char) {
    !IsControl(c) && c != '#' && c != '?' && !IsInvalidHostChar(c)
  }

  /**
   * A source without a scheme, made of plain characters, parses as an
   * `https` URL whose host is everything before the first `/` (at `k`, or the
   * whole source when it has none) and whose path is the rest.
   */
  lemma ParsePlain(source: string, k: nat)
    requires !HasScheme(source)
    requires forall i :: 0 <= i < |source| ==> PlainChar(source[i])
    requires k <= |source|
    requires forall i :: 0 <= i < k ==> source[i] != '/'
    requires k == |source| || source[k] == '/'
    ensures Parse(WithDefaultScheme(source)) == Some(Url("https", source[..k], source[k..]))
  {
    var raw := HttpsPrefix + source;
    assert raw[..|HttpsPrefix|] == HttpsPrefix;
    assert raw[|HttpsPrefix|..] == source;
    TakeUntilAt(source, '#', |source|);
    TakeUntilAt(source, '?', |source|);
    TakeUntilAt(source, '/', k);
    assert source[..|source|] == source;
    DefaultSchemePlain(source);
    CharScans(raw);
    CharScans(source[..k]);
  }

  /** The registry identity of a parsed source: `scheme://host`. */
  function Registry(u: Url): string {
    u.scheme + "://" + u.host
  }

  /** Everything before the first `#` of a string the parser accepts is free of control characters. */
  lemma NoControlBeforeHash(raw: string, k: nat)
    requires !ControlBeforeHash(raw) && k <= |raw| && '#' !in raw[..k]
    ensures forall i :: 0 <= i < k ==> !IsControl(raw[i])
  {
    CharScans(raw);
    forall i | 0 <= i < k ensures !IsControl(raw[i]) {
      assert raw[..i] == raw[..k][..i];
      assert forall x :: x in raw[..i] ==> x in raw[..k];
    }
  }

  /** What comes before the host in a URL with a scheme: `https://` or `http://`. */
  lemma SchemePrefix(raw: string, scheme: string)
    requires HasScheme(raw)
    requires scheme == if HasPrefix(raw, HttpsPrefix) then "https" else "http"
    ensures |scheme| + 3 <= |raw| && raw[..|scheme| + 3] == scheme + "://"
    ensures '#' !in scheme + "://"
  {
  }

  /** Prefixing plain characters with the default scheme keeps them plain. */
  lemma DefaultSchemePlain(source: string)
    requires forall i :: 0 <= i < |source| ==> PlainChar(source[i])
    ensures forall i :: 0 <= i < |HttpsPrefix + source| ==> PlainChar((HttpsPrefix + source)[i])
  {
    var raw := HttpsPrefix + source;
    forall i | 0 <= i < |raw| ensures PlainChar(raw[i]) {
      if i >= |HttpsPrefix| {
        assert raw[i] == source[i - |HttpsPrefix|];
      }
    }
  }

  /** The host `Parse` returns is the scan of the text after the scheme up to `#`, `?` and `/`. */
  lemma ParsedHost(raw: string)
    requires HasScheme(raw) && Parse(raw).Some?
    ensures var n := |Parse(raw).value.scheme| + 3;
      && n <= |raw|
      && Parse(raw).value.scheme == (if HasPrefix(raw, HttpsPrefix) then "https" else "http")
      && Parse(raw).value.host == TakeUntil(TakeUntil(TakeUntil(raw[n..], '#'), '?'), '/')
      && !HasInvalidHostChar(Parse(raw).value.host)
      && !ControlBeforeHash(raw)
  {
  }

  /**
   * The host of a parsed URL holds no control character and none of `#`,
   * `?`, `/` or a character a host may not hold.
   */
  lemma ParsedHostIsPlain(raw: string)
    requires HasScheme(raw) && Parse(raw).Some?
    ensures forall j :: 0 <= j < |Parse(raw).value.host| ==> PlainChar(Parse(raw).value.host[j])
    ensures '/' !in Parse(raw).value.host
  {
    var u := Parse(raw).value;
    ParsedHost(raw);
    SchemePrefix(raw, u.scheme);
    HostScanIsPlain(raw, |u.scheme| + 3, u.host);
  }

  /** A host scanned after a clean prefix of a string free of control characters before `#`, and free of invalid host characters, is plain. */
  lemma HostScanIsPlain(raw: string, n: nat, host: string)
    requires n <= |raw| && '#' !in raw[..n] && !ControlBeforeHash(raw)
    requires host == TakeUntil(TakeUntil(TakeUntil(raw[n..], '#'), '?'), '/')
    requires !HasInvalidHostChar(host)
    ensures forall j :: 0 <= j < |host| ==> PlainChar(host[j])
    ensures '/' !in host
  {
    HostScanStops(raw[n..], host);
    HostCharsPlain(raw, n, host);
  }

  /** The scan up to `#`, `?` and `/` is a prefix holding none of them. */
  lemma HostScanStops(s: string, host: string)
    requires host == TakeUntil(TakeUntil(TakeUntil(s, '#'), '?'), '/')
    ensures HasPrefix(s, host)
    ensures '#' !in host && '?' !in host && '/' !in host
  {
    var a := TakeUntil(s, '#');
    var rest := TakeUntil(a, '?');
    ScanPrefix(s, a, rest, host);
    ScanExcludes(a, rest, host);
  }

  lemma ScanPrefix(s: string, a: string, rest: string, host: string)
    requires HasPrefix(s, a) && HasPrefix(a, rest) && HasPrefix(rest, host)
    ensures HasPrefix(s, host)
  {
    PrefixTrans(a, rest, host);
    PrefixTrans(s, a, host);
  }

  lemma ScanExcludes(a: string, rest: string, host: string)
    requires HasPrefix(a, rest) && HasPrefix(rest, host) && '#' !in a && '?' !in rest
    ensures '#' !in host && '?' !in host
  {
    PrefixTrans(a, rest, host);
    PrefixWithout(rest, host, '?');
    PrefixWithout(a, host, '#');
  }

  lemma PrefixTrans(s: string, p: string, q: string)
    requires HasPrefix(s, p) && HasPrefix(p, q)
    ensures HasPrefix(s, q)
  {
    assert s[..|q|] == p[..|q|];
  }

  lemma PrefixWithout(s: string, p: string, c: char)
    requires HasPrefix(s, p) && c !in s
    ensures c !in p
  {
  }

  /** A host following a clean prefix, before any `#`, with no `#`, `?` or invalid host character, is plain. */
  lemma HostCharsPlain(raw: string, n: nat, host: string)
    requires n <= |raw| && HasPrefix(raw[n..], host)
    requires '#' !in raw[..n] && '#' !in host && '?' !in host
    requires !ControlBeforeHash(raw) && !HasInvalidHostChar(host)
    ensures forall j :: 0 <= j < |host| ==> PlainChar(host[j])
  {
    assert raw[..n + |host|] == raw[..n] + host;
    assert '#' !in raw[..n + |host|];
    NoControlBeforeHash(raw, n + |host|);
    CharScans(host);
    forall j | 0 <= j < |host| ensures PlainChar(host[j]) {
      assert raw[n + j] == (raw[..n] + host)[n + j] == host[j];
    }
  }

  /** `scheme://host` with a plain, slash-free host parses to that scheme and host and an empty path. */
  lemma ParseSchemeHost(scheme: string, host: string)
    requires scheme == "https" || scheme == "http"
    requires forall j :: 0 <= j < |host| ==> PlainChar(host[j])
    requires '/' !in host
    ensures HasScheme(scheme + "://" + host)
    ensures Parse(scheme + "://" + host) == Some(Url(scheme, host, ""))
  {
    var r := scheme + "://" + host;
    var n := |scheme| + 3;
    assert r[..n] == scheme + "://" && r[n..] == host;
    if scheme == "http" {
      assert HasPrefix(r, HttpPrefix);
      if |HttpsPrefix| <= |r| {
        assert r[..|HttpsPrefix|][4] != HttpsPrefix[4];
      }
    } else {
      assert HasPrefix(r, HttpsPrefix);
    }
    forall i | 0 <= i < |r| ensures !IsControl(r[i]) {
      if i >= n {
        assert r[i] == host[i - n];
      }
    }
    CharScans(r);
    CharScans(host);
    TakeUntilAt(host, '#', |host|);
    TakeUntilAt(host, '?', |host|);
    TakeUntilAt(host, '/', |host|);
    assert host[..|host|] == host;
  }

  /**
   * Re-parsing the registry identity `scheme://host` of a parsed source
   * cannot fail: it gives back the scheme and the host, with an empty path.
   */
  lemma RegistryReparses(raw: string)
    requires HasScheme(raw) && Parse(raw).Some?
    ensures HasScheme(Registry(Parse(raw).value))
    ensures var u := Parse(raw).value; Parse(Registry(u)) == Some(Url(u.scheme, u.host, ""))
  {
    ParsedHostIsPlain(raw);
    var u := Parse(raw).value;
    ParseSchemeHost(u.scheme, u.host);
  }

  /** The URL path with at most one leading `/` removed. */
  function StripOneSlash(path: string): (r: string)
    ensures HasPrefix(path, "/") ==> "/" + r == path
    ensures !HasPrefix(path, "/") ==> r == path
  {
    if HasPrefix(path, "/") then path[1..] else path
  }
}
