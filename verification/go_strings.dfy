/**
 * The few functions of Go's `strings` package that the gateway relies on,
 * over `string` (a sequence of characters).
 */
module GoStrings {
  import opened Results

  /** strings.HasPrefix */
  predicate HasPrefix(s: string, prefix: string) {
    |prefix| <= |s| && s[..|prefix|] == prefix
  }

  /** strings.HasSuffix */
  predicate HasSuffix(s: string, suffix: string) {
    |suffix| <= |s| && s[|s| - |suffix|..] == suffix
  }

  /** strings.TrimPrefix: `s` without `prefix` when it starts with it, `s` otherwise. */
  function TrimPrefix(s: string, prefix: string): (r: string)
    ensures HasPrefix(s, prefix) ==> prefix + r == s
    ensures !HasPrefix(s, prefix) ==> r == s
  {
    if HasPrefix(s, prefix) then s[|prefix|..] else s
  }

  /** strings.TrimSuffix: `s` without `suffix` when it ends with it, `s` otherwise. */
  function TrimSuffix(s: string, suffix: string): (r: string)
    ensures HasSuffix(s, suffix) ==> r + suffix == s
    ensures !HasSuffix(s, suffix) ==> r == s
  {
    if HasSuffix(s, suffix) then s[..|s| - |suffix|] else s
  }

  /** `pat` occurs in `s` starting at position `j`. */
  predicate OccursAt(s: string, pat: string, j: nat) {
    j + |pat| <= |s| && s[j..j + |pat|] == pat
  }

  lemma OccursAtTail(s: string, pat: string, j: nat)
    requires |s| > 0
    ensures OccursAt(s[1..], pat, j) <==> OccursAt(s, pat, j + 1)
  {
    if j + 1 + |pat| <= |s| {
      assert s[1..][j..j + |pat|] == s[j + 1..j + 1 + |pat|];
    }
  }

  /** strings.Index: the first position at which `pat` occurs in `s`, if any. */
  function Index(s: string, pat: string): (r: Option<nat>)
    ensures r.Some? ==> OccursAt(s, pat, r.value)
    ensures r.Some? ==> forall j: nat :: j < r.value ==> !OccursAt(s, pat, j)
    ensures r.None? ==> forall j: nat :: j <= |s| ==> !OccursAt(s, pat, j)
    decreases |s|
  {
    if HasPrefix(s, pat) then Some(0)
    else if |s| == 0 then None
    else
      var rest := Index(s[1..], pat);
      assert forall j: nat :: 1 <= j ==> (OccursAt(s, pat, j) <==> OccursAt(s[1..], pat, j - 1)) by {
        forall j: nat | 1 <= j ensures OccursAt(s, pat, j) <==> OccursAt(s[1..], pat, j - 1) {
          OccursAtTail(s, pat, j - 1);
        }
      }
      assert !OccursAt(s, pat, 0);
      match rest
      case None => None
      case Some(i) => Some(i + 1)
  }

  /**
   * strings.Replace(s, old, new, 1): the first occurrence of `pattern` replaced by
   * `replacement`; an empty `pattern` matches at the very beginning.
   */
  function Replace1(s: string, pattern: string, replacement: string): string
  {
    match Index(s, pattern)
    case None => s
    case Some(i) => s[..i] + replacement + s[i + |pattern|..]
  }

  /**
   * The single replacement leaves `s` alone when `pattern` occurs nowhere,
   * and otherwise swaps exactly the first occurrence.
   */
  lemma Replace1FirstOccurrence(s: string, pattern: string, replacement: string)
    ensures (forall j: nat :: j <= |s| ==> !OccursAt(s, pattern, j)) ==> Replace1(s, pattern, replacement) == s
    ensures forall i: nat :: OccursAt(s, pattern, i) && (forall j: nat :: j < i ==> !OccursAt(s, pattern, j)) ==>
      Replace1(s, pattern, replacement) == s[..i] + replacement + s[i + |pattern|..]
  {
  }

  /**
   * When `s` starts with `pattern`, the single replacement hits that prefix,
   * so it swaps the prefix `pattern` for `replacement` and keeps the rest.
   */
  lemma ReplacePrefixOnce(s: string, pattern: string, replacement: string)
    requires HasPrefix(s, pattern)
    ensures Replace1(s, pattern, replacement) == replacement + s[|pattern|..]
  {
    assert Index(s, pattern) == Some(0);
  }

  /** strings.Join(pieces, string(sep)) */
  function Join(pieces: seq<string>, sep: char): string
  {
    if |pieces| == 0 then ""
    else if |pieces| == 1 then pieces[0]
    else pieces[0] + [sep] + Join(pieces[1..], sep)
  }

  /**
   * strings.Split(s, string(sep)): the pieces between separators; there is
   * always at least one piece, none holds a separator, and joining them with
   * the separator gives back `s`.
   */
  function Split(s: string, sep: char): (pieces: seq<string>)
    ensures |pieces| >= 1
    ensures forall i :: 0 <= i < |pieces| ==> sep !in pieces[i]
    ensures Join(pieces, sep) == s
    decreases |s|
  {
    if |s| == 0 then [""]
    else
      var rest := Split(s[1..], sep);
      if s[0] == sep then
        assert Join([""] + rest, sep) == [sep] + Join(rest, sep) by {
          assert ([""] + rest)[1..] == rest;
        }
        [""] + rest
      else
        var pieces := [[s[0]] + rest[0]] + rest[1..];
        assert Join(pieces, sep) == [s[0]] + Join(rest, sep) by {
          assert pieces[1..] == rest[1..];
        }
        pieces
  }

  /** Splitting at the first separator: the part before it is the first piece. */
  lemma {:induction false} SplitAtFirst(a: string, b: string, sep: char)
    requires sep !in a
    ensures Split(a + [sep] + b, sep) == [a] + Split(b, sep)
    decreases |a|
  {
    var s := a + [sep] + b;
    if |a| == 0 {
      assert s[1..] == b;
    } else {
      assert s[1..] == a[1..] + [sep] + b;
      SplitAtFirst(a[1..], b, sep);
      assert [s[0]] + a[1..] == a;
    }
  }
}
