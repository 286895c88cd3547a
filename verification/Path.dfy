/** Path names (kernel/fs.c: skipelem). */
module Path {
  import opened Common

  const DIRSIZ := 14

  // ---------- Components of a path ----------

  /** The pieces between slashes, some of them empty. */
  function Split(s: string): seq<string> {
    var n := SlashAt(s);
    if n == |s| then [s] else [s[..n]] + Split(s[n + 1..])
  }

  function SlashAt(s: string): (n: nat)
    ensures n <= |s| && (n < |s| ==> s[n] == '/')
    ensures forall k | 0 <= k < n :: s[k] != '/'
  {
    if s == "" || s[0] == '/' then 0 else SlashAt(s[1..]) + 1
  }

  function NonEmpty(pieces: seq<string>): seq<string> {
    if pieces == [] then []
    else (if pieces[0] == "" then [] else [pieces[0]]) + NonEmpty(pieces[1..])
  }

  function Components(path: string): seq<string> {
    NonEmpty(Split(path))
  }

  /** What fits in a directory entry. */
  function Trunc(name: string): (r: string)
    ensures r <= name && (if |name| < DIRSIZ then r == name else |r| == DIRSIZ)
  {
    if |name| >= DIRSIZ then name[..DIRSIZ] else name
  }

  /** The names agree as far as a directory entry goes: on character k if either has one, for k < DIRSIZ. */
  predicate SameName(s: string, t: string) {
    forall k: nat | k < DIRSIZ :: SameChar(s, t, k)
  }

  predicate SameChar(s: string, t: string, k: nat) {
    if k < |s| then k < |t| && s[k] == t[k] else k >= |t|
  }

  /** namecmp: strncmp of at most DIRSIZ characters. */
  method Namecmp(s: string, t: string) returns (same: bool)
    ensures same <==> SameName(s, t)
  {
    var k := 0;
    while k < DIRSIZ && k < |s| && k < |t| && s[k] == t[k]
      invariant k <= DIRSIZ && k <= |s| && k <= |t| && forall j: nat | j < k :: SameChar(s, t, j)
    {
      k := k + 1;
    }
    same := k == DIRSIZ || (k == |s| && k == |t|);
    assert same || !SameChar(s, t, k);
  }

  lemma TruncEqual(s: string, t: string)
    ensures SameName(s, t) <==> Trunc(s) == Trunc(t)
  {
    var a, b := Trunc(s), Trunc(t);
    if SameName(s, t) {
      assert |s| < DIRSIZ ==> SameChar(s, t, |s|);
      assert |t| < DIRSIZ ==> SameChar(s, t, |t|);
      forall k: nat | k < |a| && k < |b| ensures a[k] == b[k] {
        assert SameChar(s, t, k);
      }
    }
    if a == b {
      forall k: nat | k < DIRSIZ ensures SameChar(s, t, k) {
        assert k < |a| ==> a[k] == s[k] && b[k] == t[k];
      }
    }
  }

  // ---------- What the components are ----------

  /** The path is these names, none of them empty and none with a slash in it, with slashes between them and
      perhaps around them. */
  ghost predicate PathIs(path: string, names: seq<string>)
    decreases |names|
  {
    if names == [] then forall k | 0 <= k < |path| :: path[k] == '/'
    else exists a: nat, b: nat :: NameAt(path, a, b, names)
  }

  ghost predicate NameAt(path: string, a: nat, b: nat, names: seq<string>)
    requires names != []
    decreases |names|, 0
  {
    && a < b <= |path| && (forall k | 0 <= k < a :: path[k] == '/')
    && path[a..b] == names[0] && (forall k | a <= k < b :: path[k] != '/') && (b == |path| || path[b] == '/')
    && PathIs(path[b..], names[1..])
  }

  lemma {:induction false} AllSlashes(path: string)
    requires forall k | 0 <= k < |path| :: path[k] == '/'
    ensures Components(path) == []
    decreases |path|
  {
    if path == "" {
      assert Split("") == [""] && NonEmpty([""]) == [];
    } else {
      LeadingSlash(path);
      AllSlashes(path[1..]);
    }
  }

  lemma {:induction false} DropLeading(path: string, a: nat)
    requires a <= |path| && forall k | 0 <= k < a :: path[k] == '/'
    ensures Components(path) == Components(path[a..])
    decreases a
  {
    if a > 0 {
      LeadingSlash(path);
      DropLeading(path[1..], a - 1);
      assert path[1..][a - 1..] == path[a..];
    } else {
      assert path[0..] == path;
    }
  }

  lemma {:induction false} PathRead(path: string, names: seq<string>)
    requires PathIs(path, names)
    ensures Components(path) == names
    decreases |names|
  {
    if names == [] {
      AllSlashes(path);
    } else {
      var a: nat, b: nat :| NameAt(path, a, b, names);
      var p := path[a..];
      DropLeading(path, a);
      assert p[..b - a] == names[0] && p[b - a..] == path[b..];
      FirstComponent(p, b - a);
      PathRead(path[b..], names[1..]);
    }
  }

  lemma {:induction false} PathReads(path: string)
    ensures PathIs(path, Components(path))
    decreases |path|
  {
    if path == "" {
      AllSlashes(path);
    } else if path[0] == '/' {
      LeadingSlash(path);
      PathReads(path[1..]);
      SlashBefore(path, Components(path));
    } else {
      var n := SlashAt(path);
      FirstComponent(path, n);
      PathReads(path[n..]);
      var names := Components(path);
      assert names[1..] == Components(path[n..]) && path[0..n] == path[..n];
      assert NameAt(path, 0, n, names);
    }
  }

  lemma SlashBefore(path: string, names: seq<string>)
    requires path != "" && path[0] == '/' && PathIs(path[1..], names)
    ensures PathIs(path, names)
  {
    var p := path[1..];
    assert forall k | 0 <= k < |p| :: path[k + 1] == p[k];
    if names == [] {
      forall k | 0 <= k < |path| ensures path[k] == '/' {
        assert k > 0 ==> p[k - 1] == path[k];
      }
    } else {
      var a: nat, b: nat :| NameAt(p, a, b, names);
      assert path[a + 1..b + 1] == p[a..b] && path[b + 1..] == p[b..];
      forall k | 0 <= k < a + 1 ensures path[k] == '/' {
        assert k > 0 ==> p[k - 1] == path[k];
      }
      forall k | a + 1 <= k < b + 1 ensures path[k] != '/' {
        assert p[k - 1] == path[k];
      }
      assert NameAt(path, a + 1, b + 1, names);
    }
  }

  /** Every path is the names that skipelem takes from it, and no others. */
  lemma ComponentsArePath(path: string, names: seq<string>)
    ensures Components(path) == names <==> PathIs(path, names)
  {
    PathReads(path);
    if PathIs(path, names) {
      PathRead(path, names);
    }
  }

  lemma LeadingSlash(s: string)
    requires s != "" && s[0] == '/'
    ensures Components(s) == Components(s[1..])
  {
    assert s[..0] == "";
    assert Split(s) == [""] + Split(s[1..]);
    assert ([""] + Split(s[1..]))[1..] == Split(s[1..]);
  }

  lemma NoSlashes(s: string, n: nat)
    requires n <= |s| && (forall k | 0 <= k < n :: s[k] != '/') && (n == |s| || s[n] == '/')
    ensures SlashAt(s) == n
  {
  }

  lemma FirstComponent(s: string, n: nat)
    requires 0 < n <= |s| && (forall k | 0 <= k < n :: s[k] != '/') && (n == |s| || s[n] == '/')
    ensures Components(s) == [s[..n]] + Components(s[n..])
  {
    NoSlashes(s, n);
    if n == |s| {
      assert s[..n] == s && s[n..] == "";
      assert NonEmpty([s]) == [s] + NonEmpty([s][1..]);
      assert Split("") == [""] && NonEmpty([""]) == [];
    } else {
      assert s[n..][1..] == s[n + 1..];
      LeadingSlash(s[n..]);
      var t := Split(s[n + 1..]);
      assert ([s[..n]] + t)[1..] == t;
    }
  }

  /** skipelem: the next component, cut to DIRSIZ, and the path after it without leading slashes. */
  method SkipElem(path: string) returns (r: Option<(string, string)>)
    ensures r.None? <==> Components(path) == []
    ensures r.Some? ==> r.value.0 == Trunc(Components(path)[0]) && Components(r.value.1) == Components(path)[1..]
    ensures r.Some? ==> (r.value.1 == "" <==> |Components(path)| == 1) && |r.value.1| < |path|
  {
    var p := DropSlashes(path);
    if p == "" {
      assert Split("") == [""] && NonEmpty([""]) == [];
      return None;
    }
    var n := 0;
    while n < |p| && p[n] != '/'
      invariant n <= |p| && forall k | 0 <= k < n :: p[k] != '/'
    {
      n := n + 1;
    }
    var name := if n >= DIRSIZ then p[..DIRSIZ] else p[..n];
    FirstComponent(p, n);
    var rest := DropSlashes(p[n..]);
    if rest == "" {
      assert Split("") == [""] && NonEmpty([""]) == [];
    } else {
      SomeComponent(rest);
    }
    r := Some((name, rest));
  }

  lemma SomeComponent(s: string)
    requires s != "" && s[0] != '/'
    ensures Components(s) != []
  {
    FirstComponent(s, SlashAt(s));
  }

  method DropSlashes(path: string) returns (p: string)
    ensures Components(p) == Components(path) && |p| <= |path| && (p == "" || p[0] != '/')
  {
    p := path;
    while p != "" && p[0] == '/'
      invariant |p| <= |path| && Components(p) == Components(path)
      decreases |p|
    {
      LeadingSlash(p);
      p := p[1..];
    }
  }

  // Joining names with slashes gives a path with those components.

  predicate Name(s: string) {
    s != "" && forall k | 0 <= k < |s| :: s[k] != '/'
  }

  function Join(names: seq<string>): string {
    if names == [] then "" else "/" + names[0] + Join(names[1..])
  }

  lemma {:induction false} ComponentsJoin(names: seq<string>)
    requires forall k | 0 <= k < |names| :: Name(names[k])
    ensures Components(Join(names)) == names
    decreases |names|
  {
    if names == [] {
      assert Split("") == [""] && NonEmpty([""]) == [];
    } else {
      var a, rest := names[0], Join(names[1..]);
      ComponentsJoin(names[1..]);
      var s := Join(names);
      assert s[1..] == a + rest;
      LeadingSlash(s);
      assert Name(a);
      assert names[1..] != [] ==> rest == "/" + names[1..][0] + Join(names[1..][1..]);
      assert (a + rest)[..|a|] == a && (a + rest)[|a|..] == rest;
      FirstComponent(a + rest, |a|);
    }
  }
}
