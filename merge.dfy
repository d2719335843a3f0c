/**
 * The command sequences of a merge and of a push: the branch every project
 * is merged on, the flag that creates it, the remote each project tracks or
 * is pushed to, and which commands `_MergeProjects` and `Push` issue in which
 * order.
 *
 * Commands are not run. Each one becomes a `Step` in the trace a method
 * returns; what a command prints, where a later decision reads it, is a
 * parameter (`revList`, `status`, `leftOver`).
 */
module Merge {
  import opened Wrappers
  import opened Errors
  import opened Text
  import opened DepsFile
  import opened MergeInfo
  import opened Index

  const AutogenMessage: string := "This commit was generated by merge_from_chromium.py."
  const BranchPrefix: string := "merge-from-chromium-"
  /** The one project merged from a local mirror rather than fetched from its url. */
  const MirroredProject: string := "third_party/WebKit"
  /** `Push` updates these branches, in this order. */
  const PushTargets: seq<string> := ["master-chromium-merge", "master-chromium"]

  // ---------------------------------------------------------------------------
  // Names, flags and remotes

  /** `-B` (reset an existing branch) when unattended, `-b` (fail if it exists) otherwise. */
  function BranchCreateFlag(unattended: bool): (flag: string)
    ensures flag == "-B" <==> unattended
    ensures flag == "-b" <==> !unattended
  {
    if unattended then "-B" else "-b"
  }

  /** `'merge-from-chromium-%s' % svn_revision`, used by both the merge and the push. */
  function MergeBranchName(svnRevision: string): (name: string)
    ensures StartsWith(name, BranchPrefix)
    ensures |name| == |BranchPrefix| + |svnRevision|
  {
    BranchPrefix + svnRevision
  }

  /** The revision a merge branch is named after. */
  function MergeBranchRevision(name: string): Option<string> {
    if StartsWith(name, BranchPrefix) then Some(name[|BranchPrefix|..]) else None
  }

  /** Branch names and revisions correspond one to one. */
  lemma MergeBranchNameRoundTrip(svnRevision: string, name: string)
    ensures MergeBranchRevision(MergeBranchName(svnRevision)) == Some(svnRevision)
    ensures MergeBranchRevision(name) == Some(svnRevision) ==> MergeBranchName(svnRevision) == name
  {
    assert MergeBranchName(svnRevision)[|BranchPrefix|..] == svnRevision;
    if MergeBranchRevision(name) == Some(svnRevision) {
      assert name == name[..|BranchPrefix|] + name[|BranchPrefix|..];
    }
  }

  /** Different revisions are merged on different branches. */
  lemma MergeBranchNameInjective(a: string, b: string)
    ensures MergeBranchName(a) == MergeBranchName(b) <==> a == b
  {
    if MergeBranchName(a) == MergeBranchName(b) {
      MergeBranchNameRoundTrip(a, "");
      MergeBranchNameRoundTrip(b, "");
    }
  }

  /** The remote whose `master-chromium` a project's merge branch tracks. */
  function ProjectRemote(path: string): (remote: string)
    ensures remote == "history" <==> path == MirroredProject
    ensures remote == "goog" <==> path != MirroredProject
  {
    if path == MirroredProject then "history" else "goog"
  }

  /** The remote a project is pushed to: `history` for flat-history projects. */
  function PushRemote(path: string, flatHistory: set<string>): (remote: string)
    ensures remote == "history" <==> path in flatHistory
    ensures remote == "goog" <==> path !in flatHistory
  {
    if path in flatHistory then "history" else "goog"
  }

  // ---------------------------------------------------------------------------
  // Steps

  /**
   * One command: a git invocation in a directory (`None` is the current
   * directory, the repository root; `Some(p)` is project `p`'s checkout), or a
   * call of merge_common.CheckNoConflictsAndCommitMerge, whose body is not
   * part of this model.
   */
  datatype Step =
    | Git(cwd: Option<string>, args: seq<string>)
    | CommitMerge(cwd: Option<string>, message: string, unattended: bool)

  function ProjectMergeMessage(path: string, info: ProjectMergeInfo): string {
    "Merge " + path + " from " + info.url + " at " + info.sha1 + "\n\n" + AutogenMessage
  }

  /** The root commit message; the double space is in the original format string. */
  function RootMergeMessage(svnRevision: string, rootSha1: string): string {
    "Merge Chromium  at r" + svnRevision + " (" + rootSha1 + ")\n\n" + AutogenMessage
  }

  function CheckoutStep(cwd: Option<string>, flag: string, branch: string, remote: string): Step {
    Git(cwd, ["git", "checkout", flag, branch, "-t", remote + "/master-chromium"])
  }

  predicate IsCheckout(s: Step) {
    s.Git? && |s.args| >= 4 && s.args[1] == "checkout"
  }

  predicate IsFetch(s: Step) {
    s.Git? && |s.args| >= 2 && s.args[1] == "fetch"
  }

  predicate IsMerge(s: Step) {
    s.Git? && |s.args| >= 2 && s.args[1] == "merge"
  }

  predicate IsCommit(s: Step) {
    s.Git? && |s.args| >= 2 && s.args[1] == "commit"
  }

  /** The commands for one third-party project, as the body of the project loop issues them. */
  function ProjectSteps(path: string, info: ProjectMergeInfo, unattended: bool, branch: string,
                        revList: string -> string): seq<Step>
  {
    var cwd := Some(path);
    [CheckoutStep(cwd, BranchCreateFlag(unattended), branch, ProjectRemote(path))]
    + (if path == MirroredProject then [] else [Git(cwd, ["git", "fetch", info.url])])
    + [Git(cwd, ["git", "rev-list", "-1", "HEAD.." + info.sha1])]
    + (if revList(path) == "" then []
       else [Git(cwd, ["git", "merge", "--no-commit", info.sha1]),
             CommitMerge(cwd, ProjectMergeMessage(path, info), unattended)])
  }

  /** The project loop over `order`, the iteration order of the merge-info dictionary. */
  function ProjectsSteps(order: seq<string>, infos: map<string, ProjectMergeInfo>, unattended: bool,
                         branch: string, revList: string -> string): seq<Step>
    requires forall k :: 0 <= k < |order| ==> order[k] in infos
    decreases |order|
  {
    if |order| == 0 then []
    else
      var last := order[|order| - 1];
      ProjectsSteps(order[..|order| - 1], infos, unattended, branch, revList)
      + ProjectSteps(last, infos[last], unattended, branch, revList)
  }

  /** The commands for the Chromium root repository itself. */
  function RootSteps(svnRevision: string, rootSha1: string, unattended: bool, branch: string): (ss: seq<Step>)
    ensures |ss| == 3 && forall i :: 0 <= i < |ss| ==> ss[i].cwd == None
    ensures IsCheckout(ss[0]) && ss[0].args[2] == BranchCreateFlag(unattended) && ss[0].args[3] == branch
    ensures forall i :: 0 < i < |ss| ==> !IsCheckout(ss[i])
    ensures IsMerge(ss[1]) && ss[1].args[|ss[1].args| - 1] == rootSha1
    ensures ss[2].CommitMerge? && ss[2].unattended == unattended
  {
    [CheckoutStep(None, BranchCreateFlag(unattended), branch, "history"),
     Git(None, ["git", "merge", "--no-commit", rootSha1]),
     CommitMerge(None, RootMergeMessage(svnRevision, rootSha1), unattended)]
  }

  /**
   * The exclusion loop over known_issues.KNOWN_INCOMPATIBLE: remove the
   * listed paths, and commit only if that staged something. `status(path)` is
   * what `git status --porcelain` prints in that directory afterwards.
   */
  function ExclusionSteps(known: seq<(string, seq<string>)>, status: string -> string): seq<Step>
    decreases |known|
  {
    if |known| == 0 then []
    else ExclusionSteps(known[..|known| - 1], status) + ExclusionBlock(known[|known| - 1], status)
  }

  /** One iteration of the exclusion loop, for one directory and its excluded paths. */
  function ExclusionBlock(entry: (string, seq<string>), status: string -> string): seq<Step> {
    var (path, excludes) := entry;
    var cwd := Some(path);
    [Git(cwd, ["git", "rm", "-rf", "--ignore-unmatch"] + excludes),
     Git(cwd, ["git", "status", "--porcelain"])]
    + (if ModifiedFilesInIndex(status(path)) then [Git(cwd, ["git", "commit", "-m", "Exclude unwanted directories"])] else [])
  }

  /** `order` lists every project of the list once: how a dictionary keyed by them is iterated. */
  predicate IsIterationOrder(order: seq<string>, projects: seq<string>) {
    && (forall k :: 0 <= k < |order| ==> order[k] in projects)
    && (forall p :: p in projects ==> p in order)
    && (forall i, j :: 0 <= i < j < |order| ==> order[i] != order[j])
  }

  /** The read of `.DEPS.git` at the root sha1 (`_ReadGitFile` without a url). */
  function ReadDepsStep(rootSha1: string): Step {
    Git(None, ["git", "show", rootSha1 + ":.DEPS.git"])
  }

  /** Every project of `order` has merge info. */
  predicate Covers(mergeInfo: Result<map<string, ProjectMergeInfo>, MergeError>, order: seq<string>) {
    mergeInfo.Success? ==> forall k :: 0 <= k < |order| ==> order[k] in mergeInfo.value
  }

  /**
   * The commands `_MergeProjects` issues and the error it ends with, given
   * the outcome of `_GetThirdPartyProjectMergeInfo`.
   */
  function MergeProjectsSpec(svnRevision: string, rootSha1: string, unattended: bool,
                             mergeInfo: Result<map<string, ProjectMergeInfo>, MergeError>, order: seq<string>,
                             revList: string -> string, known: seq<(string, seq<string>)>,
                             status: string -> string, leftOver: seq<string>)
    : (seq<Step>, Option<MergeError>)
    requires Covers(mergeInfo, order)
  {
    var branch := MergeBranchName(svnRevision);
    match mergeInfo
    case Failure(e) => ([ReadDepsStep(rootSha1)], Some(e))
    case Success(infos) =>
      ([ReadDepsStep(rootSha1)]
       + ProjectsSteps(order, infos, unattended, branch, revList)
       + RootSteps(svnRevision, rootSha1, unattended, branch)
       + ExclusionSteps(known, status),
       if |leftOver| > 0 then Some(IncompatibleDirectoriesRemain(leftOver)) else None)
  }

  /**
   * `_MergeProjects(git_branch, svn_revision, root_sha1, unattended)`;
   * `leftOver` is what webview_licenses.GetIncompatibleDirectories reports
   * once the exclusions are committed.
   */
  method MergeProjects(svnRevision: string, rootSha1: string, unattended: bool,
                       projects: seq<string>, manifest: Manifest, order: seq<string>,
                       revList: string -> string, known: seq<(string, seq<string>)>,
                       status: string -> string, leftOver: seq<string>)
    returns (steps: seq<Step>, error: Option<MergeError>)
    requires IsIterationOrder(order, projects)
    ensures (steps, error) ==
      MergeProjectsSpec(svnRevision, rootSha1, unattended, MergeInfoSpec(projects, manifest), order,
                        revList, known, status, leftOver)
  {
    var flag := BranchCreateFlag(unattended);
    var branch := MergeBranchName(svnRevision);
    steps := [ReadDepsStep(rootSha1)];
    var r := GetThirdPartyProjectMergeInfo(projects, manifest);
    if r.Failure? {
      error := Some(r.error);
      return;
    }
    var projectSteps := MergeEachProject(order, r.value, unattended, branch, revList);
    steps := steps + projectSteps;
    steps := steps + [CheckoutStep(None, flag, branch, "history"),
                      Git(None, ["git", "merge", "--no-commit", rootSha1]),
                      CommitMerge(None, RootMergeMessage(svnRevision, rootSha1), unattended)];
    var exclusionSteps := ExcludeKnownIncompatible(known, status);
    steps := steps + exclusionSteps;
    if |leftOver| > 0 {
      error := Some(IncompatibleDirectoriesRemain(leftOver));
    } else {
      error := None;
    }
  }

  /** The loop of `_MergeProjects` over the merge-info dictionary. */
  method MergeEachProject(order: seq<string>, infos: map<string, ProjectMergeInfo>, unattended: bool,
                          branch: string, revList: string -> string)
    returns (steps: seq<Step>)
    requires forall k :: 0 <= k < |order| ==> order[k] in infos
    ensures steps == ProjectsSteps(order, infos, unattended, branch, revList)
  {
    steps := [];
    var i := 0;
    while i < |order|
      invariant 0 <= i <= |order|
      invariant steps == ProjectsSteps(order[..i], infos, unattended, branch, revList)
    {
      var projectSteps := MergeProject(order[i], infos[order[i]], unattended, branch, revList);
      assert order[..i + 1][..i] == order[..i];
      steps := steps + projectSteps;
      i := i + 1;
    }
    assert order[..i] == order;
  }

  /** The body of the project loop: checkout, fetch unless mirrored, rev-list, and merge if it printed anything. */
  method MergeProject(path: string, info: ProjectMergeInfo, unattended: bool, branch: string, revList: string -> string)
    returns (steps: seq<Step>)
    ensures steps == ProjectSteps(path, info, unattended, branch, revList)
  {
    var cwd := Some(path);
    var localMirrored := path == MirroredProject;
    var remote := if localMirrored then "history" else "goog";
    steps := [CheckoutStep(cwd, BranchCreateFlag(unattended), branch, remote)];
    if !localMirrored {
      steps := steps + [Git(cwd, ["git", "fetch", info.url])];
    }
    steps := steps + [Git(cwd, ["git", "rev-list", "-1", "HEAD.." + info.sha1])];
    if revList(path) != "" {
      steps := steps + [Git(cwd, ["git", "merge", "--no-commit", info.sha1]),
                        CommitMerge(cwd, ProjectMergeMessage(path, info), unattended)];
    }
  }

  /** The loop of `_MergeProjects` over known_issues.KNOWN_INCOMPATIBLE. */
  method ExcludeKnownIncompatible(known: seq<(string, seq<string>)>, status: string -> string)
    returns (steps: seq<Step>)
    ensures steps == ExclusionSteps(known, status)
  {
    steps := [];
    var j := 0;
    while j < |known|
      invariant 0 <= j <= |known|
      invariant steps == ExclusionSteps(known[..j], status)
    {
      var (path, excludes) := known[j];
      var cwd := Some(path);
      var exclusionSteps := [Git(cwd, ["git", "rm", "-rf", "--ignore-unmatch"] + excludes),
                             Git(cwd, ["git", "status", "--porcelain"])];
      if ModifiedFilesInIndex(status(path)) {
        exclusionSteps := exclusionSteps + [Git(cwd, ["git", "commit", "-m", "Exclude unwanted directories"])];
      }
      assert known[..j + 1][..j] == known[..j];
      steps := steps + exclusionSteps;
      j := j + 1;
    }
    assert known[..j] == known;
  }

  // ---------------------------------------------------------------------------
  // Properties of a merge

  /** Every checkout in `steps` creates `branch` with `flag`. */
  predicate CheckoutsOn(steps: seq<Step>, flag: string, branch: string) {
    forall i :: 0 <= i < |steps| && IsCheckout(steps[i]) ==>
      steps[i].args[2] == flag && steps[i].args[3] == branch
  }

  lemma CheckoutsOnAppend(a: seq<Step>, b: seq<Step>, flag: string, branch: string)
    requires CheckoutsOn(a, flag, branch) && CheckoutsOn(b, flag, branch)
    ensures CheckoutsOn(a + b, flag, branch)
  {
    forall i | 0 <= i < |a + b| && IsCheckout((a + b)[i])
      ensures (a + b)[i].args[2] == flag && (a + b)[i].args[3] == branch
    {
      if i >= |a| {
        assert (a + b)[i] == b[i - |a|];
      }
    }
  }

  lemma ProjectStepsCheckoutsOn(path: string, info: ProjectMergeInfo, unattended: bool, branch: string,
                                revList: string -> string)
    ensures CheckoutsOn(ProjectSteps(path, info, unattended, branch, revList), BranchCreateFlag(unattended), branch)
  {
    var ss := ProjectSteps(path, info, unattended, branch, revList);
    assert forall i :: 0 < i < |ss| ==> !IsCheckout(ss[i]);
  }

  lemma {:induction false} ProjectsStepsCheckoutsOn(order: seq<string>, infos: map<string, ProjectMergeInfo>,
                                                    unattended: bool, branch: string, revList: string -> string)
    requires forall k :: 0 <= k < |order| ==> order[k] in infos
    ensures CheckoutsOn(ProjectsSteps(order, infos, unattended, branch, revList), BranchCreateFlag(unattended), branch)
    decreases |order|
  {
    if |order| > 0 {
      var last := order[|order| - 1];
      ProjectsStepsCheckoutsOn(order[..|order| - 1], infos, unattended, branch, revList);
      ProjectStepsCheckoutsOn(last, infos[last], unattended, branch, revList);
      CheckoutsOnAppend(ProjectsSteps(order[..|order| - 1], infos, unattended, branch, revList),
                        ProjectSteps(last, infos[last], unattended, branch, revList),
                        BranchCreateFlag(unattended), branch);
    }
  }

  lemma {:induction false} ExclusionStepsHaveNoCheckout(known: seq<(string, seq<string>)>, status: string -> string,
                                                        flag: string, branch: string)
    ensures CheckoutsOn(ExclusionSteps(known, status), flag, branch)
    decreases |known|
  {
    if |known| > 0 {
      var (path, excludes) := known[|known| - 1];
      ExclusionStepsHaveNoCheckout(known[..|known| - 1], status, flag, branch);
      var tail := ExclusionSteps(known, status)[|ExclusionSteps(known[..|known| - 1], status)|..];
      assert ExclusionSteps(known, status) == ExclusionSteps(known[..|known| - 1], status) + tail;
      assert CheckoutsOn(tail, flag, branch) by {
        forall i | 0 <= i < |tail| ensures !IsCheckout(tail[i]) {
        }
      }
      CheckoutsOnAppend(ExclusionSteps(known[..|known| - 1], status), tail, flag, branch);
    }
  }
  /** Some step of `steps` is a `git commit` run in directory `path`. */
  predicate CommitsIn(steps: seq<Step>, path: string) {
    exists i :: 0 <= i < |steps| && IsCommit(steps[i]) && steps[i].cwd == Some(path)
  }

  lemma CommitsInAppend(a: seq<Step>, b: seq<Step>, path: string)
    ensures CommitsIn(a + b, path) <==> CommitsIn(a, path) || CommitsIn(b, path)
  {
    if CommitsIn(a, path) {
      var i :| 0 <= i < |a| && IsCommit(a[i]) && a[i].cwd == Some(path);
      assert (a + b)[i] == a[i];
    }
    if CommitsIn(a + b, path) {
      var i :| 0 <= i < |a + b| && IsCommit((a + b)[i]) && (a + b)[i].cwd == Some(path);
      if i >= |a| { assert b[i - |a|] == (a + b)[i]; }
    }
    if CommitsIn(b, path) {
      var i :| 0 <= i < |b| && IsCommit(b[i]) && b[i].cwd == Some(path);
      assert (a + b)[|a| + i] == b[i];
    }
  }

  /**
   * The exclusion loop commits in a directory exactly when that directory is
   * listed and its status afterwards shows a staged change.
   */
  lemma {:induction false} ExclusionCommitsOnlyStaged(known: seq<(string, seq<string>)>, status: string -> string,
                                                      path: string)
    ensures CommitsIn(ExclusionSteps(known, status), path) <==>
      (exists k :: 0 <= k < |known| && known[k].0 == path) && ModifiedFilesInIndex(status(path))
    decreases |known|
  {
    if |known| > 0 {
      var init := known[..|known| - 1];
      var p := known[|known| - 1].0;
      var block := ExclusionBlock(known[|known| - 1], status);
      ExclusionCommitsOnlyStaged(init, status, path);
      CommitsInAppend(ExclusionSteps(init, status), block, path);
      assert CommitsIn(block, path) <==> p == path && ModifiedFilesInIndex(status(p)) by {
        if ModifiedFilesInIndex(status(p)) && p == path { assert IsCommit(block[2]) && block[2].cwd == Some(path); }
      }
      assert (exists k :: 0 <= k < |known| && known[k].0 == path) <==>
             (exists k :: 0 <= k < |init| && init[k].0 == path) || p == path by {
        if exists k :: 0 <= k < |known| && known[k].0 == path {
          var k :| 0 <= k < |known| && known[k].0 == path;
          if k < |init| { assert init[k] == known[k]; }
        }
        if exists k :: 0 <= k < |init| && init[k].0 == path {
          var k :| 0 <= k < |init| && init[k].0 == path;
          assert known[k] == init[k];
        }
        if p == path { assert known[|known| - 1].0 == path; }
      }
    }
  }


  /**
   * Every checkout a merge issues, in a project or in the root, creates the
   * branch named after the revision, with the flag unattended mode selects.
   */
  lemma MergeChecksOutOneBranch(svnRevision: string, rootSha1: string, unattended: bool,
                                mergeInfo: Result<map<string, ProjectMergeInfo>, MergeError>, order: seq<string>,
                                revList: string -> string, known: seq<(string, seq<string>)>,
                                status: string -> string, leftOver: seq<string>)
    requires Covers(mergeInfo, order)
    ensures CheckoutsOn(
      MergeProjectsSpec(svnRevision, rootSha1, unattended, mergeInfo, order, revList, known, status, leftOver).0,
      BranchCreateFlag(unattended), MergeBranchName(svnRevision))
  {
    var flag := BranchCreateFlag(unattended);
    var branch := MergeBranchName(svnRevision);
    var read := [ReadDepsStep(rootSha1)];
    assert CheckoutsOn(read, flag, branch);
    match mergeInfo
    case Failure(_) =>
    case Success(infos) =>
      var ps := ProjectsSteps(order, infos, unattended, branch, revList);
      ProjectsStepsCheckoutsOn(order, infos, unattended, branch, revList);
      CheckoutsOnAppend(read, ps, flag, branch);
      CheckoutsOnAppend(read + ps, RootSteps(svnRevision, rootSha1, unattended, branch), flag, branch);
      ExclusionStepsHaveNoCheckout(known, status, flag, branch);
      CheckoutsOnAppend(read + ps + RootSteps(svnRevision, rootSha1, unattended, branch),
                        ExclusionSteps(known, status), flag, branch);
  }

  /**
   * Per project: its checkout tracks `history` only for the mirrored project,
   * it is fetched from its url exactly when not mirrored, and merged (and the
   * merge committed) exactly when rev-list reported new commits.
   */
  lemma ProjectStepsShape(path: string, info: ProjectMergeInfo, unattended: bool, branch: string,
                          revList: string -> string)
    ensures var ss := ProjectSteps(path, info, unattended, branch, revList);
      && ss[0] == CheckoutStep(Some(path), BranchCreateFlag(unattended), branch, ProjectRemote(path))
      && ((exists i :: 0 <= i < |ss| && IsFetch(ss[i])) <==> path != MirroredProject)
      && ((exists i :: 0 <= i < |ss| && IsMerge(ss[i])) <==> revList(path) != "")
      && ((exists i :: 0 <= i < |ss| && ss[i].CommitMerge?) <==> revList(path) != "")
      && (revList(path) != "" ==> ss[|ss| - 1] == CommitMerge(Some(path), ProjectMergeMessage(path, info), unattended))
      && (forall i :: 0 <= i < |ss| ==> ss[i].cwd == Some(path))
  {
    var ss := ProjectSteps(path, info, unattended, branch, revList);
    var cwd := Some(path);
    var fetch := if path == MirroredProject then [] else [Git(cwd, ["git", "fetch", info.url])];
    var merge := if revList(path) == "" then []
       else [Git(cwd, ["git", "merge", "--no-commit", info.sha1]),
             CommitMerge(cwd, ProjectMergeMessage(path, info), unattended)];
    var revListStep := Git(cwd, ["git", "rev-list", "-1", "HEAD.." + info.sha1]);
    var checkout := CheckoutStep(cwd, BranchCreateFlag(unattended), branch, ProjectRemote(path));
    assert ss == [checkout] + fetch + [revListStep] + merge;
    if path != MirroredProject {
      assert IsFetch(ss[1]);
    } else {
      assert ss == [checkout, revListStep] + merge;
    }
    if revList(path) != "" {
      assert IsMerge(ss[|ss| - 2]);
      assert ss[|ss| - 1].CommitMerge?;
    } else {
      assert ss == [checkout] + fetch + [revListStep];
      assert forall i :: 0 <= i < |ss| ==> ss[i].Git?;
    }
  }

  /** The trace of the first `n` iterations is a prefix of the whole loop's trace. */
  lemma {:induction false} ProjectsStepsPrefix(order: seq<string>, infos: map<string, ProjectMergeInfo>,
                                               unattended: bool, branch: string, revList: string -> string, n: nat)
    requires forall j :: 0 <= j < |order| ==> order[j] in infos
    requires n <= |order|
    ensures ProjectsSteps(order[..n], infos, unattended, branch, revList) <= ProjectsSteps(order, infos, unattended, branch, revList)
    decreases |order|
  {
    if n < |order| {
      var init := order[..|order| - 1];
      assert init[..n] == order[..n];
      ProjectsStepsPrefix(init, infos, unattended, branch, revList, n);
    } else {
      assert order[..n] == order;
    }
  }

  /** The project loop checks out `order[k]` on `branch`, tracking its remote. */
  lemma ProjectsStepsCheckOut(order: seq<string>, infos: map<string, ProjectMergeInfo>,
                              unattended: bool, branch: string, revList: string -> string, k: nat)
    requires forall j :: 0 <= j < |order| ==> order[j] in infos
    requires k < |order|
    ensures CheckoutStep(Some(order[k]), BranchCreateFlag(unattended), branch, ProjectRemote(order[k]))
      in ProjectsSteps(order, infos, unattended, branch, revList)
  {
    var p := order[k];
    var ps := ProjectsSteps(order, infos, unattended, branch, revList);
    var pre := ProjectsSteps(order[..k], infos, unattended, branch, revList);
    var block := ProjectSteps(p, infos[p], unattended, branch, revList);
    var upto := ProjectsSteps(order[..k + 1], infos, unattended, branch, revList);
    assert order[..k + 1][..k] == order[..k];
    assert upto == pre + block;
    assert block[0] == CheckoutStep(Some(p), BranchCreateFlag(unattended), branch, ProjectRemote(p));
    ProjectsStepsPrefix(order, infos, unattended, branch, revList, k + 1);
    assert upto <= ps;
    assert ps[|pre|] == upto[|pre|] == block[0];
  }

  /**
   * When the merge info resolves, every listed project is checked out on the
   * merge branch in its own directory, and the run fails exactly when
   * incompatibly licensed directories remain, with the recoverable error.
   */
  lemma MergeVisitsEveryProject(svnRevision: string, rootSha1: string, unattended: bool,
                                projects: seq<string>, infos: map<string, ProjectMergeInfo>, order: seq<string>,
                                revList: string -> string, known: seq<(string, seq<string>)>,
                                status: string -> string, leftOver: seq<string>, p: string)
    requires IsIterationOrder(order, projects)
    requires forall q :: q in infos <==> q in projects
    requires p in projects
    ensures CheckoutStep(Some(p), BranchCreateFlag(unattended), MergeBranchName(svnRevision), ProjectRemote(p))
      in MergeProjectsSpec(svnRevision, rootSha1, unattended, Success(infos), order, revList, known, status, leftOver).0
    ensures var error := MergeProjectsSpec(svnRevision, rootSha1, unattended, Success(infos), order, revList, known, status, leftOver).1;
      && (error.Some? <==> |leftOver| > 0)
      && (error.Some? ==> IsTemporary(error.value))
  {
    var branch := MergeBranchName(svnRevision);
    var k :| 0 <= k < |order| && order[k] == p;
    ProjectsStepsCheckOut(order, infos, unattended, branch, revList, k);
    var ps := ProjectsSteps(order, infos, unattended, branch, revList);
    var rest := RootSteps(svnRevision, rootSha1, unattended, branch) + ExclusionSteps(known, status);
    InMiddle(CheckoutStep(Some(p), BranchCreateFlag(unattended), branch, ProjectRemote(p)),
             [ReadDepsStep(rootSha1)], ps, rest);
  }

  lemma InMiddle(x: Step, a: seq<Step>, b: seq<Step>, c: seq<Step>)
    requires x in b
    ensures x in a + b + c
  {
    var i :| 0 <= i < |b| && b[i] == x;
    assert (a + b + c)[|a| + i] == x;
  }

  // ---------------------------------------------------------------------------
  // Push

  /** `git push -f <remote> <src>:<target>` in the project's directory. */
  function PushStep(path: string, src: string, target: string, flatHistory: set<string>): Step {
    Git(Some(path), ["git", "push", "-f", PushRemote(path, flatHistory), src + ":" + target])
  }

  /** The inner loop of `Push`: every project, to one target branch. */
  function PushRound(src: string, target: string, projects: seq<string>, flatHistory: set<string>): (ss: seq<Step>)
    ensures |ss| == |projects|
    decreases |projects|
  {
    if |projects| == 0 then []
    else PushRound(src, target, projects[..|projects| - 1], flatHistory)
         + [PushStep(projects[|projects| - 1], src, target, flatHistory)]
  }

  lemma {:induction false} PushRoundAt(src: string, target: string, projects: seq<string>, flatHistory: set<string>)
    ensures forall i :: 0 <= i < |projects| ==>
      PushRound(src, target, projects, flatHistory)[i] == PushStep(projects[i], src, target, flatHistory)
    decreases |projects|
  {
    if |projects| > 0 {
      var init := projects[..|projects| - 1];
      PushRoundAt(src, target, init, flatHistory);
      forall i | 0 <= i < |projects|
        ensures PushRound(src, target, projects, flatHistory)[i] == PushStep(projects[i], src, target, flatHistory)
      {
        if i < |init| {
          assert init[i] == projects[i];
        }
      }
    }
  }

  /**
   * `Push(svn_revision)`: every project is force-pushed from the merge branch
   * of that revision, first to `master-chromium-merge` and then, for every
   * project again, to `master-chromium`.
   */
  method Push(svnRevision: string, allProjects: seq<string>, flatHistory: set<string>) returns (steps: seq<Step>)
    ensures |steps| == |PushTargets| * |allProjects|
    ensures forall i :: 0 <= i < |allProjects| ==>
      steps[i] == PushStep(allProjects[i], MergeBranchName(svnRevision), "master-chromium-merge", flatHistory)
    ensures forall i :: 0 <= i < |allProjects| ==>
      steps[|allProjects| + i] == PushStep(allProjects[i], MergeBranchName(svnRevision), "master-chromium", flatHistory)
  {
    var src := MergeBranchName(svnRevision);
    var rounds: seq<seq<Step>> := [];
    var b := 0;
    while b < |PushTargets|
      invariant 0 <= b <= |PushTargets|
      invariant |rounds| == b
      invariant forall c :: 0 <= c < b ==> rounds[c] == PushRound(src, PushTargets[c], allProjects, flatHistory)
    {
      var target := PushTargets[b];
      var round: seq<Step> := [];
      var i := 0;
      while i < |allProjects|
        invariant 0 <= i <= |allProjects|
        invariant round == PushRound(src, target, allProjects[..i], flatHistory)
      {
        var path := allProjects[i];
        var remote := if path in flatHistory then "history" else "goog";
        assert allProjects[..i + 1][..i] == allProjects[..i];
        round := round + [Git(Some(path), ["git", "push", "-f", remote, src + ":" + target])];
        i := i + 1;
      }
      assert allProjects[..i] == allProjects;
      rounds := rounds + [round];
      b := b + 1;
    }
    steps := rounds[0] + rounds[1];
    PushRoundAt(src, PushTargets[0], allProjects, flatHistory);
    PushRoundAt(src, PushTargets[1], allProjects, flatHistory);
  }

  /**
   * The branch every push reads from is the one a merge of the same
   * revision created, and its name gives the revision back.
   */
  lemma PushReadsMergeBranch(svnRevision: string, path: string, target: string, flatHistory: set<string>)
    ensures var refspec := PushStep(path, MergeBranchName(svnRevision), target, flatHistory).args[4];
      && refspec == MergeBranchName(svnRevision) + ":" + target
      && MergeBranchRevision(refspec[..|refspec| - |target| - 1]) == Some(svnRevision)
  {
    var refspec := PushStep(path, MergeBranchName(svnRevision), target, flatHistory).args[4];
    assert refspec[..|refspec| - |target| - 1] == MergeBranchName(svnRevision);
    MergeBranchNameRoundTrip(svnRevision, "");
  }
}
