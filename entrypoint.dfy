/**
 * The command line: which mode `main` enters for the parsed options, the
 * exit status it returns, and how `Snapshot` decides whether there is anything
 * to merge.
 */
module EntryPoint {
  import opened Wrappers
  import opened Errors
  import opened Revision

  /** The options `main` defines, after parsing. */
  datatype Options = Options(
    svnRevision: Option<string>,
    sha1: Option<string>,
    push: bool,
    getLkgr: bool,
    getHead: bool,
    unattended: bool,
    noChangesExit: int)

  const BuildTopVariable: string := "ANDROID_BUILD_TOP"

  /** What `main` goes on to do. */
  datatype Action =
    | PrintUsage
    | RequireEnvironment
    | PrintLkgr
    | PrintHead
    | RequirePushRevision
    | PushRevision(pushRevision: string)
    | TakeSnapshot(svnRevision: Option<string>, sha1: Option<string>, unattended: bool)

  /**
   * The checks of `main` in order: positional arguments, the Android build
   * environment, then `--get_lkgr`, `--get_head`, `--push` (which needs a
   * revision) and otherwise a snapshot. `environment` is the set of names in
   * `os.environ`.
   */
  function ChooseAction(options: Options, args: seq<string>, environment: set<string>): (a: Action)
    ensures a.PrintUsage? <==> |args| > 0
    ensures a.RequireEnvironment? <==> |args| == 0 && BuildTopVariable !in environment
    ensures (a.PrintUsage? || a.RequireEnvironment? || a.RequirePushRevision?) <==>
      IsUsageError(options, args, environment)
    ensures a.TakeSnapshot? <==> SnapshotRequested(options, args, environment)
    ensures a.TakeSnapshot? ==> a == TakeSnapshot(options.svnRevision, options.sha1, options.unattended)
    ensures a.PushRevision? ==> options.push && options.svnRevision == Some(a.pushRevision)
  {
    if |args| > 0 then PrintUsage
    else if BuildTopVariable !in environment then RequireEnvironment
    else if options.getLkgr then PrintLkgr
    else if options.getHead then PrintHead
    else if options.push then
      if options.svnRevision.None? then RequirePushRevision else PushRevision(options.svnRevision.value)
    else TakeSnapshot(options.svnRevision, options.sha1, options.unattended)
  }

  /** The value `main` returns once the action has run; `merged` is what `Snapshot` returned. */
  function ExitCode(action: Action, merged: bool, noChangesExit: int): (code: int)
    ensures (action.PrintUsage? || action.RequireEnvironment? || action.RequirePushRevision?) ==> code == 1
    ensures action.TakeSnapshot? ==> code == (if merged then 0 else noChangesExit)
    ensures (action.PrintLkgr? || action.PrintHead? || action.PushRevision?) ==> code == 0
  {
    match action
    case PrintUsage => 1
    case RequireEnvironment => 1
    case RequirePushRevision => 1
    case TakeSnapshot(_, _, _) => if merged then 0 else noChangesExit
    case _ => 0
  }


  /** The usage, setup and push-revision errors take precedence, in that order. */
  predicate IsUsageError(options: Options, args: seq<string>, environment: set<string>) {
    || |args| > 0
    || BuildTopVariable !in environment
    || (!options.getLkgr && !options.getHead && options.push && options.svnRevision.None?)
  }

  /** Neither a usage error nor a mode other than the snapshot. */
  predicate SnapshotRequested(options: Options, args: seq<string>, environment: set<string>) {
    !IsUsageError(options, args, environment) && !options.getLkgr && !options.getHead && !options.push
  }

  /**
   * `main`, given the parsed options, the positional arguments, the
   * environment and what `Snapshot` returned: 1 for positional arguments, a
   * missing build environment or a push without a revision;
   * `--no_changes_exit` when the snapshot found nothing new; and 0 in every
   * other case.
   */
  function Main(options: Options, args: seq<string>, environment: set<string>, merged: bool): (code: int)
    ensures IsUsageError(options, args, environment) ==> code == 1
    ensures SnapshotRequested(options, args, environment) && !merged ==> code == options.noChangesExit
    ensures (!IsUsageError(options, args, environment)
             && !(SnapshotRequested(options, args, environment) && !merged)) ==> code == 0
  {
    ExitCode(ChooseAction(options, args, environment), merged, options.noChangesExit)
  }

  /** The modes exclude each other in the order `--get_lkgr`, `--get_head`, `--push`. */
  lemma ModePrecedence(options: Options, environment: set<string>)
    requires BuildTopVariable in environment
    ensures options.getLkgr ==> ChooseAction(options, [], environment) == PrintLkgr
    ensures !options.getLkgr && options.getHead ==> ChooseAction(options, [], environment) == PrintHead
    ensures !options.getLkgr && !options.getHead && options.push && options.svnRevision.Some? ==>
      ChooseAction(options, [], environment) == PushRevision(options.svnRevision.value)
    ensures SnapshotRequested(options, [], environment) ==>
      ChooseAction(options, [], environment) == TakeSnapshot(options.svnRevision, options.sha1, options.unattended)
  {
  }

  // ---------------------------------------------------------------------------
  // Snapshot

  /**
   * The start of `Snapshot(svn_revision, root_sha1, unattended)`: locate the
   * upstream commit, then ask `git rev-list -1 HEAD..<sha1>` (whose output
   * is `pending(sha1)`) whether it brings anything new. `None` is the early
   * `return False`; `Some(loc)` is the commit the merge then proceeds with.
   */
  function SnapshotStart(up: Upstream, svnRevision: Option<string>, sha1: Option<string>,
                         pending: string -> string): (r: Result<Option<Located>, MergeError>)
    ensures r.Success? <==> GetSvnRevisionAndSha1(up, svnRevision, sha1).Success?
    ensures r.Failure? ==> r.error == GetSvnRevisionAndSha1(up, svnRevision, sha1).error
    ensures r.Success? ==>
      var loc := GetSvnRevisionAndSha1(up, svnRevision, sha1).value;
      && (r.value.Some? <==> pending(loc.sha1) != "")
      && (r.value.Some? ==> r.value.value == loc)
  {
    match GetSvnRevisionAndSha1(up, svnRevision, sha1)
    case Failure(e) => Failure(e)
    case Success(loc) => if pending(loc.sha1) == "" then Success(None) else Success(Some(loc))
  }

  /**
   * A snapshot merges exactly when the located commit has commits not yet
   * in the current branch, and then at that commit; with no upstream failure
   * the exit status is 0 after a merge and `--no_changes_exit` otherwise.
   */
  lemma SnapshotMergesOnlyNewCommits(up: Upstream, options: Options, environment: set<string>,
                                     pending: string -> string)
    requires SnapshotRequested(options, [], environment)
    requires GetSvnRevisionAndSha1(up, options.svnRevision, options.sha1).Success?
    ensures var loc := GetSvnRevisionAndSha1(up, options.svnRevision, options.sha1).value;
      var start := SnapshotStart(up, options.svnRevision, options.sha1, pending);
      && start.Success?
      && (start.value.Some? <==> pending(loc.sha1) != "")
      && (start.value.Some? ==> start.value.value == loc)
      && Main(options, [], environment, start.value.Some?) ==
           (if pending(loc.sha1) != "" then 0 else options.noChangesExit)
  {
  }

  /** A given sha1 is merged as given, whatever `--svn_revision` says. */
  lemma SnapshotMergesGivenSha1(up: Upstream, svnRevision: Option<string>, sha1: string,
                                pending: string -> string)
    requires sha1 != "" && pending(sha1) != ""
    requires ParseSvnRevision(up.show(sha1)).Success?
    ensures SnapshotStart(up, svnRevision, Some(sha1), pending) ==
      Success(Some(Located(ParseSvnRevision(up.show(sha1)).value, sha1)))
  {
  }
}
