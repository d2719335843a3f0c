/**
 * The evaluated `.DEPS.git` manifest of the Chromium tree.
 *
 * `_ParseDEPS` executes the manifest text with two callables in scope,
 * `From(module)` (an opaque marker) and `Var(name)` (a variable lookup), and
 * returns the dictionary of names the text assigned. Evaluating the text is not
 * modelled; the resulting dictionary is a `Manifest` value, and the dictionary
 * being filled while the text runs is the `LocalScope` object.
 */
module DepsFile {
  import opened Wrappers
  import opened Errors
  import opened Text

  /** A value in a `deps` table: a `url@sha1` string, a `From(...)` marker, or Python `None`. */
  datatype DepValue = Entry(text: string) | FromRef(moduleName: string) | NoEntry

  /** Python truthiness of a table value: a non-empty string or any marker object. */
  predicate Truthy(v: DepValue) {
    match v
    case Entry(t) => t != ""
    case FromRef(_) => true
    case NoEntry => false
  }

  type DepsTable = map<string, DepValue>

  /** `table.get(key)`: a missing key reads as `None`. */
  function Get(table: DepsTable, key: string): (v: DepValue)
    ensures key !in table ==> v == NoEntry
  {
    if key in table then table[key] else NoEntry
  }

  /**
   * The top-level names of an evaluated manifest that the merge uses; `None`
   * means the manifest did not assign that name.
   */
  datatype Manifest = Manifest(
    vars: Option<map<string, string>>,
    deps: Option<DepsTable>,
    depsOs: Option<map<string, DepsTable>>)

  // ---------------------------------------------------------------------------
  // From("<module>")

  const FromOpen: string := "From(\""
  const FromClose: string := "\")"

  /** `FromImpl.__str__`: the marker printed as `From("<module>")`. */
  function FromText(moduleName: string): (s: string)
    ensures StartsWith(s, FromOpen)
    ensures |s| == |FromOpen| + |moduleName| + |FromClose|
  {
    FromOpen + moduleName + FromClose
  }

  /** Reads the module name back out of a printed marker. */
  function FromModuleName(s: string): Option<string> {
    if |s| >= |FromOpen| + |FromClose| && StartsWith(s, FromOpen)
       && s[|s| - |FromClose|..] == FromClose
    then Some(s[|FromOpen|..|s| - |FromClose|])
    else None
  }

  /** The printed form of a marker determines its module name. */
  lemma FromTextRoundTrip(moduleName: string)
    ensures FromModuleName(FromText(moduleName)) == Some(moduleName)
  {
    var s := FromText(moduleName);
    assert s[|FromOpen|..|s| - |FromClose|] == moduleName;
    assert s[|s| - |FromClose|..] == FromClose;
  }

  /** Two markers print alike exactly when they name the same module. */
  lemma FromTextInjective(a: string, b: string)
    ensures FromText(a) == FromText(b) <==> a == b
  {
    if FromText(a) == FromText(b) {
      FromTextRoundTrip(a);
      FromTextRoundTrip(b);
    }
  }

  // ---------------------------------------------------------------------------
  // Var(name)

  /**
   * What `Var(name)` evaluates to, given the caller's overrides and the
   * manifest's `vars` table as it stands (`None` when not yet assigned).
   */
  function VarLookup(customVars: map<string, string>, vars: Option<map<string, string>>, name: string)
    : (r: Result<string, MergeError>)
    ensures name in customVars ==> r == Success(customVars[name])
    ensures name !in customVars && vars.Some? && name in vars.value ==> r == Success(vars.value[name])
    ensures name !in customVars && (vars.None? || name !in vars.value) ==> r == Failure(VarUndefined(name))
  {
    if name in customVars then Success(customVars[name])
    else if name in vars.GetOr(map[]) then Success(vars.value[name])
    else Failure(VarUndefined(name))
  }

  /**
   * The lookup agrees with a single table in which the overrides are laid
   * over the manifest's `vars`: overrides shadow, a missing `vars` is empty.
   */
  lemma VarLookupIsOverlay(customVars: map<string, string>, vars: Option<map<string, string>>, name: string)
    ensures var table := vars.GetOr(map[]) + customVars;
      VarLookup(customVars, vars, name) ==
        if name in table then Success(table[name]) else Failure(VarUndefined(name))
  {
  }

  /**
   * The dictionary the manifest's top-level assignments fill in while it runs
   * (`tmp_locals`), shared with the `Var` lookup created before the run.
   */
  class LocalScope {
    var vars: Option<map<string, string>>
    var deps: Option<DepsTable>
    var depsOs: Option<map<string, DepsTable>>

    /** `tmp_locals = {}`. */
    constructor ()
      ensures vars == None && deps == None && depsOs == None
    {
      vars, deps, depsOs := None, None, None;
    }

    /** The dictionary `_ParseDEPS` returns. */
    function Contents(): (m: Manifest)
      reads this
      ensures m.vars == vars && m.deps == deps && m.depsOs == depsOs
    {
      Manifest(vars, deps, depsOs)
    }

    /** The manifest text executes `vars = {...}`. */
    method AssignVars(v: map<string, string>)
      modifies this
      ensures vars == Some(v) && deps == old(deps) && depsOs == old(depsOs)
    {
      vars := Some(v);
    }

    /** The manifest text executes `deps = {...}`. */
    method AssignDeps(d: DepsTable)
      modifies this
      ensures deps == Some(d) && vars == old(vars) && depsOs == old(depsOs)
    {
      deps := Some(d);
    }

    /** The manifest text executes `deps_os = {...}`. */
    method AssignDepsOs(d: map<string, DepsTable>)
      modifies this
      ensures depsOs == Some(d) && vars == old(vars) && deps == old(deps)
    {
      depsOs := Some(d);
    }
  }

  /** `_VarImpl`: the object behind `Var`, holding the overrides and the shared scope. */
  class VarImpl {
    const customVars: map<string, string>
    const localScope: LocalScope

    constructor (customVars: map<string, string>, localScope: LocalScope)
      ensures this.customVars == customVars && this.localScope == localScope
    {
      this.customVars := customVars;
      this.localScope := localScope;
    }

    /** `_VarImpl.Lookup`: reads the scope as it is at the time of the call. */
    method Lookup(varName: string) returns (r: Result<string, MergeError>)
      ensures r == VarLookup(customVars, localScope.vars, varName)
    {
      if varName in customVars {
        r := Success(customVars[varName]);
      } else if localScope.vars.Some? && varName in localScope.vars.value {
        r := Success(localScope.vars.value[varName]);
      } else {
        r := Failure(VarUndefined(varName));
      }
    }
  }

  /**
   * `_ParseDEPS` creates `Var` with no overrides before the manifest runs, so a
   * lookup sees the `vars` table only once the text has assigned it. With
   * `vars = {'X': '1'}`, `Var('X')` is `'1'` and `Var('Y')` is undefined.
   */
  method VarSeesLaterAssignment() returns (before: Result<string, MergeError>,
                                          after: Result<string, MergeError>,
                                          undefined: Result<string, MergeError>)
    ensures before == Failure(VarUndefined("X"))
    ensures after == Success("1")
    ensures undefined == Failure(VarUndefined("Y"))
  {
    var scope := new LocalScope();
    var v := new VarImpl(map[], scope);
    before := v.Lookup("X");
    scope.AssignVars(map["X" := "1"]);
    after := v.Lookup("X");
    undefined := v.Lookup("Y");
  }
}
