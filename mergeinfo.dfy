/**
 * `_GetThirdPartyProjectMergeInfo`: the pinned (url, sha1) of every
 * whitelisted third-party project, read from the evaluated manifest.
 *
 * For a project at `path` the key `src/<path>` is looked up in `deps`, then in
 * `deps_os['unix']`, then in `deps_os['android']`; the first non-empty value
 * wins, and it is split at its first `@` into url and sha1.
 */
module MergeInfo {
  import opened Wrappers
  import opened Errors
  import opened Text
  import opened DepsFile

  datatype ProjectMergeInfo = ProjectMergeInfo(url: string, sha1: string)

  // ---------------------------------------------------------------------------
  // Splitting `url@sha1`: re.match('(.*?)@(.*)', s)

  /** The text up to (not including) the first newline. */
  function FirstLine(s: string): (line: string)
    ensures StartsWith(s, line) && '\n' !in line
    ensures |line| == |s| || s[|line|] == '\n'
    decreases |s|
  {
    if |s| == 0 || s[0] == '\n' then ""
    else
      [s[0]] + FirstLine(s[1..])
  }

  /** A text without newlines is its own first line. */
  lemma {:induction false} FirstLineOfNewlineFree(s: string)
    requires '\n' !in s
    ensures FirstLine(s) == s
    decreases |s|
  {
    if |s| > 0 {
      assert s[0] in s;
      assert forall c :: c in s[1..] ==> c in s;
      FirstLineOfNewlineFree(s[1..]);
      assert [s[0]] + s[1..] == s;
    }
  }

  /** The position of the first occurrence of `c`. */
  function IndexOf(s: string, c: char): (r: Option<nat>)
    ensures r.Some? ==> r.value < |s| && s[r.value] == c && c !in s[..r.value]
    ensures r.None? ==> c !in s
    decreases |s|
  {
    if |s| == 0 then None
    else if s[0] == c then Some(0)
    else match IndexOf(s[1..], c)
      case None => None
      case Some(i) => Some(i + 1)
  }

  /**
   * The groups of `re.match('(.*?)@(.*)', s)`: `.` does not match a newline,
   * so both groups lie on the first line; the lazy first group stops at the
   * first `@`, the greedy second group runs to the end of that line.
   */
  function SplitUrlSha1(s: string): (r: Option<(string, string)>)
    ensures r.Some? ==> '@' !in r.value.0 && '\n' !in r.value.0 && '\n' !in r.value.1
    ensures r.Some? ==> r.value.0 + "@" + r.value.1 == FirstLine(s)
    ensures r.None? <==> '@' !in FirstLine(s)
  {
    var line := FirstLine(s);
    match IndexOf(line, '@')
    case None => None
    case Some(i) => Some((line[..i], line[i + 1..]))
  }

  /** For an entry on one line the two parts reassemble exactly to the entry. */
  lemma SplitUrlSha1Reassembles(s: string)
    requires '\n' !in s && '@' in s
    ensures SplitUrlSha1(s).Some?
    ensures SplitUrlSha1(s).value.0 + "@" + SplitUrlSha1(s).value.1 == s
  {
    FirstLineOfNewlineFree(s);
  }

  /** Joining a url without `@` to a sha1 and splitting again gives both back. */
  lemma SplitUrlSha1OfJoin(url: string, sha1: string)
    requires '@' !in url && '\n' !in url && '\n' !in sha1
    ensures SplitUrlSha1(url + "@" + sha1) == Some((url, sha1))
  {
    var s := url + "@" + sha1;
    assert '\n' !in s by {
      forall i | 0 <= i < |s| ensures s[i] != '\n' {
        if i < |url| { assert s[i] == url[i]; }
        else if i > |url| { assert s[i] == sha1[i - |url| - 1]; }
      }
    }
    FirstLineOfNewlineFree(s);
    assert s[..|url|] == url;
    assert s[|url|] == '@';
    assert s[|url| + 1..] == sha1;
    IndexOfFirst(s, '@', |url|);
  }

  /** The position of `c` is any position holding `c` with none before it. */
  lemma IndexOfFirst(s: string, c: char, i: nat)
    requires i < |s| && s[i] == c && c !in s[..i]
    ensures IndexOf(s, c) == Some(i)
  {
    var r := IndexOf(s, c);
    assert s[i] in s;
    assert forall j :: 0 <= j < i ==> s[j] == s[..i][j];
    assert forall j :: 0 <= j < r.value ==> s[j] == s[..r.value][j];
  }

  // ---------------------------------------------------------------------------
  // Looking a project up in the fallback tables

  /** `os.path.join('src', path)`: an absolute `path` replaces the prefix. */
  function SrcPath(path: string): (key: string)
    ensures |path| > 0 && path[0] == '/' ==> key == path
    ensures !(|path| > 0 && path[0] == '/') ==> key == "src/" + path
  {
    if |path| > 0 && path[0] == '/' then path else "src/" + path
  }

  /**
   * `[deps_vars['deps'], deps_vars['deps_os']['unix'], deps_vars['deps_os']['android']]`,
   * failing with a KeyError on the first missing name.
   */
  function FallbackOrder(m: Manifest): (r: Result<seq<DepsTable>, MergeError>)
    ensures r.Success? <==>
      m.deps.Some? && m.depsOs.Some? && "unix" in m.depsOs.value && "android" in m.depsOs.value
    ensures r.Success? ==>
      r.value == [m.deps.value, m.depsOs.value["unix"], m.depsOs.value["android"]]
    ensures m.deps.None? ==> r == Failure(KeyMissing("deps"))
    ensures m.deps.Some? && m.depsOs.None? ==> r == Failure(KeyMissing("deps_os"))
    ensures m.deps.Some? && m.depsOs.Some? && "unix" !in m.depsOs.value ==> r == Failure(KeyMissing("unix"))
    ensures m.deps.Some? && m.depsOs.Some? && "unix" in m.depsOs.value && "android" !in m.depsOs.value ==>
      r == Failure(KeyMissing("android"))
  {
    if m.deps.None? then Failure(KeyMissing("deps"))
    else if m.depsOs.None? then Failure(KeyMissing("deps_os"))
    else if "unix" !in m.depsOs.value then Failure(KeyMissing("unix"))
    else if "android" !in m.depsOs.value then Failure(KeyMissing("android"))
    else Success([m.deps.value, m.depsOs.value["unix"], m.depsOs.value["android"]])
  }

  predicate HasEntry(table: DepsTable, key: string) {
    Truthy(Get(table, key))
  }

  /** The first of `tables` (from `start` on) whose value for `key` is non-empty. */
  function FirstTableWithEntry(tables: seq<DepsTable>, key: string, start: nat): (r: Option<nat>)
    requires start <= |tables|
    ensures r.Some? ==> start <= r.value < |tables| && HasEntry(tables[r.value], key)
    ensures r.Some? ==> forall j :: start <= j < r.value ==> !HasEntry(tables[j], key)
    ensures r.None? ==> forall j :: start <= j < |tables| ==> !HasEntry(tables[j], key)
    decreases |tables| - start
  {
    if start == |tables| then None
    else if HasEntry(tables[start], key) then Some(start)
    else FirstTableWithEntry(tables, key, start + 1)
  }

  /** Turns the chosen table value into the project's merge info. */
  function EntryMergeInfo(path: string, v: DepValue): (r: Result<ProjectMergeInfo, MergeError>)
    ensures r.Success? ==> v.Entry? && SplitUrlSha1(v.text) == Some((r.value.url, r.value.sha1))
    ensures r.Failure? ==> r.error == (if v.Entry? then EntryMalformed(path) else EntryNotString(path))
    ensures r.Success? <==> v.Entry? && SplitUrlSha1(v.text).Some?
  {
    if !v.Entry? then Failure(EntryNotString(path))
    else match SplitUrlSha1(v.text)
      case None => Failure(EntryMalformed(path))
      case Some((url, sha1)) => Success(ProjectMergeInfo(url, sha1))
  }

  /** One iteration of the outer loop, including its `for ... else` over the tables. */
  function ResolveProject(tables: seq<DepsTable>, path: string): (r: Result<ProjectMergeInfo, MergeError>)
    ensures FirstTableWithEntry(tables, SrcPath(path), 0).None? ==> r == Failure(EntryMissing(path))
  {
    var key := SrcPath(path);
    match FirstTableWithEntry(tables, key, 0)
    case None => Failure(EntryMissing(path))
    case Some(i) => EntryMergeInfo(path, Get(tables[i], key))
  }

  type Resolver = string -> Result<ProjectMergeInfo, MergeError>

  /**
   * The loop over the project list, as the dictionary built after each
   * prefix: each project is resolved in turn, the first failure ends the loop.
   */
  function CollectAll(resolve: Resolver, projects: seq<string>): (r: Result<map<string, ProjectMergeInfo>, MergeError>)
    ensures r.Success? ==> forall p :: p in r.value <==> p in projects
    decreases |projects|
  {
    if |projects| == 0 then Success(map[])
    else
      var last := projects[|projects| - 1];
      match CollectAll(resolve, projects[..|projects| - 1])
      case Failure(e) => Failure(e)
      case Success(result) =>
        match resolve(last)
        case Failure(e) => Failure(e)
        case Success(info) => Success(result[last := info])
  }

  function Resolve(tables: seq<DepsTable>): Resolver {
    (path: string) => ResolveProject(tables, path)
  }

  /** What `_GetThirdPartyProjectMergeInfo(projects, manifest)` returns or raises. */
  function MergeInfoSpec(projects: seq<string>, manifest: Manifest): (r: Result<map<string, ProjectMergeInfo>, MergeError>)
    ensures r.Success? ==> forall p :: p in r.value <==> p in projects
  {
    match FallbackOrder(manifest)
    case Failure(e) => Failure(e)
    case Success(tables) => CollectAll(Resolve(tables), projects)
  }

  /** The loop of `_GetThirdPartyProjectMergeInfo`, its `for ... else` and `break` included. */
  method GetThirdPartyProjectMergeInfo(projects: seq<string>, manifest: Manifest)
    returns (r: Result<map<string, ProjectMergeInfo>, MergeError>)
    ensures r == MergeInfoSpec(projects, manifest)
  {
    if manifest.deps.None? { return Failure(KeyMissing("deps")); }
    if manifest.depsOs.None? { return Failure(KeyMissing("deps_os")); }
    if "unix" !in manifest.depsOs.value { return Failure(KeyMissing("unix")); }
    if "android" !in manifest.depsOs.value { return Failure(KeyMissing("android")); }
    var fallback := [manifest.deps.value, manifest.depsOs.value["unix"], manifest.depsOs.value["android"]];
    var result: map<string, ProjectMergeInfo> := map[];
    assert FallbackOrder(manifest) == Success(fallback);
    var i := 0;
    while i < |projects|
      invariant 0 <= i <= |projects|
      invariant CollectAll(Resolve(fallback), projects[..i]) == Success(result)
    {
      var path := projects[i];
      var info := LookUpProject(fallback, path);
      if info.Failure? {
        CollectStopsAt(Resolve(fallback), projects, i, result);
        return Failure(info.error);
      }
      assert projects[..i + 1][..i] == projects[..i];
      result := result[path := info.value];
      i := i + 1;
    }
    assert projects[..i] == projects;
    r := Success(result);
  }

  /** The body of the outer loop: the `for ... else` over the tables, then the split. */
  method LookUpProject(fallback: seq<DepsTable>, path: string) returns (r: Result<ProjectMergeInfo, MergeError>)
    ensures r == ResolveProject(fallback, path)
  {
    var key := SrcPath(path);
    var found := false;
    var urlPlusSha1 := NoEntry;
    var j := 0;
    while j < |fallback|
      invariant 0 <= j <= |fallback|
      invariant forall k :: 0 <= k < j ==> !HasEntry(fallback[k], key)
      invariant !found
    {
      urlPlusSha1 := Get(fallback[j], key);
      if Truthy(urlPlusSha1) {
        found := true;
        break;
      }
      j := j + 1;
    }
    if !found {
      assert FirstTableWithEntry(fallback, key, 0).None?;
      return Failure(EntryMissing(path));
    }
    FirstTableWithEntryIs(fallback, key, j);
    if !urlPlusSha1.Entry? {
      return Failure(EntryNotString(path));
    }
    var split := SplitUrlSha1(urlPlusSha1.text);
    if split.None? {
      return Failure(EntryMalformed(path));
    }
    var (url, sha1) := split.value;
    r := Success(ProjectMergeInfo(url, sha1));
  }

  // ---------------------------------------------------------------------------
  // Properties

  /**
   * The value used for a project comes from the first table with a non-empty
   * entry for `src/<path>`.
   */
  lemma ResolveUsesFirstTableWithEntry(tables: seq<DepsTable>, path: string, i: nat)
    requires i < |tables| && HasEntry(tables[i], SrcPath(path))
    requires forall j :: 0 <= j < i ==> !HasEntry(tables[j], SrcPath(path))
    ensures ResolveProject(tables, path) == EntryMergeInfo(path, Get(tables[i], SrcPath(path)))
  {
    FirstTableWithEntryIs(tables, SrcPath(path), i);
  }

  /** The first table with an entry is any such table preceded only by tables without one. */
  lemma FirstTableWithEntryIs(tables: seq<DepsTable>, key: string, i: nat)
    requires i < |tables| && HasEntry(tables[i], key)
    requires forall j :: 0 <= j < i ==> !HasEntry(tables[j], key)
    ensures FirstTableWithEntry(tables, key, 0) == Some(i)
  {
    var f := FirstTableWithEntry(tables, key, 0);
    assert f.Some?;
    assert f.value <= i;
  }

  /**
   * Once a table has a non-empty entry for the project, the tables after it
   * are not consulted: replacing them changes nothing.
   */
  lemma ResolveIgnoresLaterTables(tables: seq<DepsTable>, later: seq<DepsTable>, path: string, i: nat)
    requires i < |tables| && HasEntry(tables[i], SrcPath(path))
    ensures ResolveProject(tables[..i + 1] + later, path) == ResolveProject(tables, path)
  {
    var key := SrcPath(path);
    var f := FirstTableWithEntry(tables, key, 0);
    var t := tables[..i + 1] + later;
    assert f.Some? && f.value <= i;
    assert forall j :: 0 <= j <= i ==> t[j] == tables[j];
    FirstTableWithEntryIs(t, key, f.value);
  }

  /** A failure on a prefix of the project list is the result for the whole list. */
  lemma {:induction false} CollectPrefixFailure(resolve: Resolver, projects: seq<string>, n: nat)
    requires n <= |projects| && CollectAll(resolve, projects[..n]).Failure?
    ensures CollectAll(resolve, projects) == CollectAll(resolve, projects[..n])
    decreases |projects| - n
  {
    if n < |projects| {
      var init := projects[..|projects| - 1];
      assert init[..n] == projects[..n];
      CollectPrefixFailure(resolve, init, n);
    } else {
      assert projects[..n] == projects;
    }
  }

  /** The loop stops at the first project that does not resolve, with its error. */
  lemma CollectStopsAt(resolve: Resolver, projects: seq<string>, i: nat, result: map<string, ProjectMergeInfo>)
    requires i < |projects| && CollectAll(resolve, projects[..i]) == Success(result)
    requires resolve(projects[i]).Failure?
    ensures CollectAll(resolve, projects) == Failure(resolve(projects[i]).error)
  {
    assert projects[..i + 1][..i] == projects[..i];
    CollectPrefixFailure(resolve, projects, i + 1);
  }

  /** On success the dictionary's keys are exactly the requested projects, each resolved. */
  lemma {:induction false} CollectAllKeys(resolve: Resolver, projects: seq<string>)
    requires CollectAll(resolve, projects).Success?
    ensures forall p :: p in CollectAll(resolve, projects).value <==> p in projects
    ensures forall p :: p in projects ==>
      resolve(p) == Success(CollectAll(resolve, projects).value[p])
    decreases |projects|
  {
    if |projects| > 0 {
      var n := |projects| - 1;
      var init := projects[..n];
      var last := projects[n];
      var prev := CollectAll(resolve, init);
      assert prev.Success?;
      var info := resolve(last);
      assert info.Success?;
      assert CollectAll(resolve, projects).value == prev.value[last := info.value];
      CollectAllKeys(resolve, init);
      assert projects == init + [last];
      assert forall p :: p in projects <==> p in init || p == last;
    }
  }

  /** The result is a success exactly when every requested project resolves. */
  lemma {:induction false} CollectAllSucceedsIff(resolve: Resolver, projects: seq<string>)
    ensures CollectAll(resolve, projects).Success? <==>
      forall k :: 0 <= k < |projects| ==> resolve(projects[k]).Success?
    decreases |projects|
  {
    if |projects| > 0 {
      var n := |projects| - 1;
      var init := projects[..n];
      var last := projects[n];
      CollectAllSucceedsIff(resolve, init);
      assert forall k :: 0 <= k < n ==> init[k] == projects[k];
      var prev := CollectAll(resolve, init);
      if prev.Failure? {
        assert CollectAll(resolve, projects).Failure?;
        var k :| 0 <= k < n && resolve(init[k]).Failure?;
        assert resolve(projects[k]).Failure?;
      } else if resolve(last).Failure? {
        assert CollectAll(resolve, projects).Failure?;
        assert resolve(projects[n]).Failure?;
      } else {
        assert CollectAll(resolve, projects).Success?;
        forall k | 0 <= k < |projects| ensures resolve(projects[k]).Success? {
          if k < n {
            assert resolve(init[k]).Success?;
          }
        }
      }
    }
  }

  /** A failure carries the error of the first requested project that does not resolve. */
  lemma {:induction false} CollectAllFirstError(resolve: Resolver, projects: seq<string>)
    requires CollectAll(resolve, projects).Failure?
    ensures exists k :: (0 <= k < |projects|
      && resolve(projects[k]) == Failure(CollectAll(resolve, projects).error)
      && forall j :: 0 <= j < k ==> resolve(projects[j]).Success?)
    decreases |projects|
  {
    var n := |projects| - 1;
    var init := projects[..n];
    var last := projects[n];
    var prev := CollectAll(resolve, init);
    assert forall k :: 0 <= k < n ==> init[k] == projects[k];
    if prev.Failure? {
      CollectAllFirstError(resolve, init);
      assert CollectAll(resolve, projects) == prev;
      var k :| 0 <= k < n && resolve(init[k]) == Failure(prev.error)
        && forall j :: 0 <= j < k ==> resolve(init[j]).Success?;
      assert resolve(projects[k]) == Failure(prev.error);
    } else {
      CollectAllSucceedsIff(resolve, init);
      assert CollectAll(resolve, projects) == Failure(resolve(last).error);
      assert forall j :: 0 <= j < n ==> resolve(projects[j]).Success?;
    }
  }

  /**
   * The whole operation: it fails before looking at any project when a
   * fallback table is missing; otherwise it succeeds exactly when every
   * project resolves, with the requested projects as its keys, and otherwise
   * fails with the error of the first project that does not resolve.
   */
  lemma MergeInfoSpecCharacterized(projects: seq<string>, manifest: Manifest)
    ensures FallbackOrder(manifest).Failure? ==>
      MergeInfoSpec(projects, manifest) == Failure(FallbackOrder(manifest).error)
    ensures FallbackOrder(manifest).Success? ==>
      var tables := FallbackOrder(manifest).value;
      && (MergeInfoSpec(projects, manifest).Success? <==>
           forall k :: 0 <= k < |projects| ==> ResolveProject(tables, projects[k]).Success?)
      && (MergeInfoSpec(projects, manifest).Success? ==>
           && (forall p :: p in MergeInfoSpec(projects, manifest).value <==> p in projects)
           && forall p :: p in projects ==>
                ResolveProject(tables, p) == Success(MergeInfoSpec(projects, manifest).value[p]))
      && (MergeInfoSpec(projects, manifest).Failure? ==>
           exists k :: 0 <= k < |projects|
             && ResolveProject(tables, projects[k]) == Failure(MergeInfoSpec(projects, manifest).error)
             && forall j :: 0 <= j < k ==> ResolveProject(tables, projects[j]).Success?)
  {
    if FallbackOrder(manifest).Success? {
      var resolve := Resolve(FallbackOrder(manifest).value);
      CollectAllSucceedsIff(resolve, projects);
      if CollectAll(resolve, projects).Success? {
        CollectAllKeys(resolve, projects);
      } else {
        CollectAllFirstError(resolve, projects);
      }
    }
  }

  /**
   * A project that resolves to (url, sha1) came from a one-line entry
   * `url@sha1` exactly: the url holds no `@` and they reassemble to the entry.
   */
  lemma ResolvedEntryReassembles(tables: seq<DepsTable>, path: string)
    ensures ResolveProject(tables, path).Success? ==>
      var key := SrcPath(path);
      var i := FirstTableWithEntry(tables, key, 0).value;
      var entry := Get(tables[i], key);
      var info := ResolveProject(tables, path).value;
      && entry.Entry?
      && '@' !in info.url
      && ('\n' !in entry.text ==> info.url + "@" + info.sha1 == entry.text)
  {
    if ResolveProject(tables, path).Success? {
      var key := SrcPath(path);
      var i := FirstTableWithEntry(tables, key, 0).value;
      var entry := Get(tables[i], key);
      if '\n' !in entry.text {
        FirstLineOfNewlineFree(entry.text);
      }
    }
  }
}
