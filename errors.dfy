/**
 * The ways a merge run can fail. The script distinguishes one recoverable
 * kind, merge_common.TemporaryMergeError (retrying after a table fix or a
 * later upstream state may succeed), from every other exception, which ends
 * the run for a human to inspect.
 */
module Errors {

  datatype MergeError =
    /** `Var(name)` with `name` in neither the overrides nor the manifest's `vars`. */
    | VarUndefined(name: string)
    /** KeyError: the evaluated manifest lacks `deps`, `deps_os`, `deps_os['unix']` or `deps_os['android']`. */
    | KeyMissing(key: string)
    /** TemporaryMergeError: no fallback table has a non-empty entry for the project. */
    | EntryMissing(path: string)
    /** TypeError: the chosen entry is a `From(...)` marker, not a string. */
    | EntryNotString(path: string)
    /** AttributeError: the chosen entry string does not match `(.*?)@(.*)`. */
    | EntryMalformed(path: string)
    /** AttributeError: no `git-svn-id: ...@N` line in a commit message. */
    | TrailerMissing
    /** IndexError: a `git log` output has no whitespace-separated token. */
    | NoLogToken
    /** TemporaryMergeError: `git log --grep` found no commit for the revision. */
    | RevisionNotFound(revision: string)
    /** TemporaryMergeError: incompatibly licensed directories remain after exclusion. */
    | IncompatibleDirectoriesRemain(directories: seq<string>)

  /**
   * The modelled failures that are raised as merge_common.TemporaryMergeError.
   * The makefile-generation failure of an unattended run is one too, but it
   * is not part of this model.
   */
  predicate IsTemporary(e: MergeError) {
    e.EntryMissing? || e.RevisionNotFound? || e.IncompatibleDirectoriesRemain?
  }
}
