# merge_from_chromium, modelled in Dafny

`chromium/tools/merge_from_chromium.py` merges a snapshot of the Chromium tree
into the Android WebView repository. Most of it drives git. The decisions it
takes between commands are modelled here, together with the command sequences
of the merge and push loops. Git output, the LKGR value and the evaluated
`.DEPS.git` manifest are parameters.

- **DepsFile** (`depsfile.dfy`) covers three things:
  - the evaluated manifest (`vars`, `deps`, `deps_os`);
  - the `From("<module>")` marker;
  - `Var` lookup. `_VarImpl` is a class over the scope the manifest fills, and the scope is shared with the lookup object.
- **MergeInfo** (`mergeinfo.dfy`) is `_GetThirdPartyProjectMergeInfo`:
  - the fallback tables `deps`, `deps_os['unix']`, `deps_os['android']`;
  - the first non-empty entry for `src/<path>`;
  - the split of `url@sha1` at the first `@`.

  It is an imperative method with the loop, `for ... else` and `break` of the source. It is proved equal to a fold whose properties are proved separately.
- **Revision** (`revision.dfy`) holds:
  - `git-svn-id:` trailer parsing;
  - `_GetSVNRevisionAndSHA1`: a given sha1 first, then `HEAD`, then a given or LKGR revision, where the oldest matching commit wins;
  - `GetHEAD`.
- **Index** (`index.dfy`) holds:
  - `_ModifiedFilesInIndex` over `git status --porcelain` text;
  - the `LASTCHANGE` file format.
- **Merge** (`merge.dfy`) holds:
  - the branch name and create flag, and the per-project remotes;
  - the commands `_MergeProjects` issues: a read of `.DEPS.git`, then per project checkout, fetch, rev-list, merge and commit; the root merge; the exclusion loop; the final licence check;
  - the commands of `Push`.

  Each command loop is a method that returns its trace of `Step`s.
- **EntryPoint** (`entrypoint.dfy`) covers the mode and exit status of `main`, and the early decision in `Snapshot`.
- **Text** (`text.dfy`) covers the Python string behaviour relied on:
  - a MULTILINE regex sees a text as lines split at `\n`;
  - `str.split()` with no argument splits at whitespace;
  - `'%s' % n` and `int(s)`.
- **Errors**, **Wrappers**: the failure kinds, and `Option`/`Result`.

Behaviour of the code that a reader might not expect, as modelled:

- For `HEAD`, an empty `git log` output makes `commit.split()[0]` raise IndexError. That error is fatal; the model's `NoLogToken` is not the recoverable TemporaryMergeError. Only an empty output for a given or LKGR revision is recoverable (`RevisionNotFound`).
- On the first matching line, the trailer regex `^git-svn-id: .*@([0-9]+)` takes the digits after the last `@` that a digit follows, because `.*` is greedy.
- `(.*?)@(.*)` splits at the first `@` of the entry's first line: `.` does not match a newline. An entry with no `@` on its first line is an AttributeError (`EntryMalformed`). A `From(...)` marker as the chosen entry is a TypeError (`EntryNotString`).
- Missing `deps`, `deps_os`, `deps_os['unix']` or `deps_os['android']` raise KeyError before any project is looked at. The `deps_os` default given to `exec` sits in the globals, not in the returned locals.
- `if sha1:` treats an empty `--sha1` as absent. `--push` checks only `svn_revision is None`, so an empty revision is pushed as given.
- `os.path.join('src', path)` is `path` itself when `path` is absolute.
- `--push` pushes `merge-from-chromium-<rev>` for the revision string exactly as given. `--push --svn_revision HEAD` pushes `merge-from-chromium-HEAD`, which no merge creates, because a merge of `HEAD` names its branch after the parsed revision number. `Merge.PushReadsMergeBranch` relates a push to a merge only when the push's revision string equals the merge's resolved revision.
- `git log --grep=git-svn-id: .*@<rev>` is not anchored after the revision, so `@123` also matches `@1230` or `@12345`. When r123 has no commit on the branch but a later revision with that prefix does, the later commit's hash is returned paired with `123`, not RevisionNotFound. The model takes the grep output as the parameter `Upstream.grepLog` and so does not constrain which commits it lists.

## Model

| member | source | states |
|---|---|---|
| DepsFile.VarLookup | chromium/tools/merge_from_chromium.py:81-87 | an override wins; otherwise the manifest's `vars` entry; otherwise VarUndefined, with a missing `vars` counting as empty |
| DepsFile.VarLookupIsOverlay | chromium/tools/merge_from_chromium.py:83-87 | the lookup equals one table with the overrides laid over `vars` |
| DepsFile.VarImpl.Lookup | chromium/tools/merge_from_chromium.py:81-87 | the method reads the shared scope as it is at call time, and returns what VarLookup specifies |
| DepsFile.VarImpl.constructor | chromium/tools/merge_from_chromium.py:77-79 | keeps the overrides and a reference to the scope |
| DepsFile.LocalScope.constructor | chromium/tools/merge_from_chromium.py:89 | the scope starts with none of `vars`, `deps` or `deps_os` |
| DepsFile.LocalScope.AssignVars | chromium/tools/merge_from_chromium.py:93 | the manifest assigning `vars` changes `vars` and nothing else |
| DepsFile.LocalScope.AssignDeps | chromium/tools/merge_from_chromium.py:93 | the manifest assigning `deps` changes `deps` and nothing else |
| DepsFile.LocalScope.AssignDepsOs | chromium/tools/merge_from_chromium.py:93 | the manifest assigning `deps_os` changes `deps_os` and nothing else |
| DepsFile.LocalScope.Contents | chromium/tools/merge_from_chromium.py:94 | the returned dictionary is the scope's current contents |
| DepsFile.VarSeesLaterAssignment | chromium/tools/merge_from_chromium.py:89-93 | a lookup made before `vars` is assigned fails, the same lookup afterwards sees the new table, and an unknown name stays undefined |
| DepsFile.FromText | chromium/tools/merge_from_chromium.py:73-74 | the marker prints as `From("` + module + `")` |
| DepsFile.FromTextRoundTrip | chromium/tools/merge_from_chromium.py:73-74 | the module name can be read back from the printed marker |
| DepsFile.FromTextInjective | chromium/tools/merge_from_chromium.py:73-74 | two markers print alike exactly when they name the same module |
| MergeInfo.FallbackOrder | chromium/tools/merge_from_chromium.py:108-112 | the tables are `deps`, `deps_os['unix']`, `deps_os['android']` in that order; otherwise the KeyError names the first missing key in the order `deps`, `deps_os`, `unix`, `android` |
| MergeInfo.SrcPath | chromium/tools/merge_from_chromium.py:116 | the key is `src/<path>`, or the path itself when it is absolute |
| MergeInfo.FirstTableWithEntry | chromium/tools/merge_from_chromium.py:115-118 | the index of the first table whose entry is non-empty; no earlier table has one |
| MergeInfo.EntryMergeInfo | chromium/tools/merge_from_chromium.py:124-126 | it succeeds exactly for a string entry whose first line has an `@`, split into url and sha1 there; a marker is a TypeError and a string without `@` an AttributeError |
| MergeInfo.ResolveProject | chromium/tools/merge_from_chromium.py:115-123 | no table with a non-empty entry means the recoverable EntryMissing naming the path |
| MergeInfo.ResolveUsesFirstTableWithEntry | chromium/tools/merge_from_chromium.py:114-126 | the value used comes from the first table with a non-empty entry |
| MergeInfo.ResolveIgnoresLaterTables | chromium/tools/merge_from_chromium.py:115-118 | tables after the first with a non-empty entry can be replaced by anything without changing the result |
| MergeInfo.FirstLine | chromium/tools/merge_from_chromium.py:124 | the text up to its first newline, which `.` cannot cross |
| MergeInfo.SplitUrlSha1 | chromium/tools/merge_from_chromium.py:124-126 | the url has no `@`, url + `@` + sha1 is the entry's first line, and there is no match exactly when that line has no `@` |
| MergeInfo.SplitUrlSha1Reassembles | chromium/tools/merge_from_chromium.py:124-126 | a one-line entry with an `@` always splits and reassembles to itself |
| MergeInfo.SplitUrlSha1OfJoin | chromium/tools/merge_from_chromium.py:124-126 | splitting url + `@` + sha1, for an `@`-free url, gives back url and sha1 |
| MergeInfo.CollectAll | chromium/tools/merge_from_chromium.py:113-128 | a successful result has exactly the listed projects as keys |
| MergeInfo.MergeInfoSpec | chromium/tools/merge_from_chromium.py:108-129 | a successful result has exactly the listed projects as keys |
| MergeInfo.GetThirdPartyProjectMergeInfo | chromium/tools/merge_from_chromium.py:97-129 | the loop with `for ... else` and `break` returns exactly the specified map, or the specified error |
| MergeInfo.LookUpProject | chromium/tools/merge_from_chromium.py:115-126 | the body of the outer loop, with its inner loop, `break` and `else`, returns exactly the project's resolution or its error |
| MergeInfo.CollectPrefixFailure | chromium/tools/merge_from_chromium.py:114-123 | once a prefix of the list fails, the whole list fails with that error |
| MergeInfo.CollectStopsAt | chromium/tools/merge_from_chromium.py:114-123 | the first project that does not resolve decides the error, and no partial result is returned |
| MergeInfo.CollectAllKeys | chromium/tools/merge_from_chromium.py:113-128 | the keys are the listed projects, and each value is that project's own resolution |
| MergeInfo.CollectAllSucceedsIff | chromium/tools/merge_from_chromium.py:114-128 | the fold succeeds exactly when every listed project resolves |
| MergeInfo.CollectAllFirstError | chromium/tools/merge_from_chromium.py:114-123 | a failure is the error of the first project that does not resolve |
| MergeInfo.MergeInfoSpecCharacterized | chromium/tools/merge_from_chromium.py:108-129 | a missing table fails for any project list; otherwise it succeeds iff all projects resolve, with those keys and values, and else fails with the first project's error |
| MergeInfo.ResolvedEntryReassembles | chromium/tools/merge_from_chromium.py:124-128 | a resolved url has no `@`, and url + `@` + sha1 is exactly the one-line entry it came from |
| Revision.LastAtDigit | chromium/tools/merge_from_chromium.py:358 | finds the last `@` followed by a digit, which greedy `.*@` backs off to |
| Revision.DigitRun | chromium/tools/merge_from_chromium.py:358 | the maximal digit run at the start, which `[0-9]+` takes |
| Revision.DigitRunOf | chromium/tools/merge_from_chromium.py:358 | digits followed by a non-digit are taken whole |
| Revision.LineRevision | chromium/tools/merge_from_chromium.py:358-359 | a line matches only if it starts with `git-svn-id: `, and what it yields is non-empty digits |
| Revision.FirstTrailerLine | chromium/tools/merge_from_chromium.py:358-359 | the first line on which the pattern matches; no earlier line does |
| Revision.ParseSvnRevision | chromium/tools/merge_from_chromium.py:357-359 | the result is non-empty digits; a failure is TrailerMissing |
| Revision.ParseSvnRevisionIsFirstTrailer | chromium/tools/merge_from_chromium.py:357-359 | the parse fails exactly when no line carries a trailer, and otherwise yields the first trailer line's revision |
| Revision.TrailerLineRevision | chromium/tools/merge_from_chromium.py:358-359 | `git-svn-id: <url>@<rev><tail>` yields `<rev>` even when the url contains `@` |
| Revision.LastAtDigitBeforeRest | chromium/tools/merge_from_chromium.py:358 | an `@` followed only by `@`-free text that starts with a digit is the one the greedy match stops at |
| Revision.ParseFindsFirstTrailer | chromium/tools/merge_from_chromium.py:357-359 | with no trailer before a line, that line's revision is the result, whatever follows |
| Revision.ParseSkipsLeadingLine | chromium/tools/merge_from_chromium.py:357-359 | a first line without a trailer does not change the result |
| Revision.WordIsNotTrailer | chromium/tools/merge_from_chromium.py:376-380 | a commit hash line is never a trailer line |
| Revision.GetSvnRevisionAndSha1 | chromium/tools/merge_from_chromium.py:368-396 | a given sha1 is returned unchanged with its message's revision; `HEAD` pairs the first token with the message's revision, and an empty log is the fatal NoLogToken; otherwise the given or LKGR revision is searched for, empty output is the recoverable RevisionNotFound, and else the last token is returned |
| Revision.SearchSelectsOldestMatch | chromium/tools/merge_from_chromium.py:386-396 | for a newest-first hash list, the result is the oldest hash; an empty list is RevisionNotFound |
| Revision.OldestListedOfLog | chromium/tools/merge_from_chromium.py:389-395 | of a hash-per-line listing the last hash is taken; an empty listing is RevisionNotFound |
| Revision.OldestListed | chromium/tools/merge_from_chromium.py:389-395 | an empty output is RevisionNotFound, a blank one the IndexError; otherwise the searched revision is paired with the last token, a whitespace-free word |
| Revision.LkgrIsSearched | chromium/tools/merge_from_chromium.py:383-387 | with neither a revision nor a sha1, the decimal LKGR is searched for; a located commit carries that text as its revision, and it reads back as the LKGR |
| Revision.SearchedRevision | chromium/tools/merge_from_chromium.py:383-385 | a given revision is searched as given; otherwise the LKGR's decimal form, which reads back as the LKGR and has no leading zero |
| Revision.EmptySha1IsAbsent | chromium/tools/merge_from_chromium.py:371 | `if sha1:` (the predicate `Given`) treats an empty sha1 exactly as a missing one |
| Revision.HeadSelectsLatestCommit | chromium/tools/merge_from_chromium.py:374-381 | for `HEAD` the latest commit's hash is paired with the revision in its body |
| Revision.GetHead | chromium/tools/merge_from_chromium.py:345-354 | succeeds exactly when the latest log names a commit and carries a trailer, returning `int()` of the first trailer's revision; an empty log is the IndexError, a log without a trailer the AttributeError |
| Revision.GetHeadReadsTrailer | chromium/tools/merge_from_chromium.py:345-354 | when the latest trailer names n, GetHEAD returns n |
| Text.Lines | chromium/tools/merge_from_chromium.py:358 | a MULTILINE regex sees the text as at least one newline-free line |
| Text.JoinLinesOfLines | chromium/tools/merge_from_chromium.py:358 | joining the lines gives back the text |
| Text.LinesOfJoinLines | chromium/tools/merge_from_chromium.py:358 | newline-free lines, joined and split again, come back unchanged |
| Text.Tokens | chromium/tools/merge_from_chromium.py:379 | `split()` returns non-empty whitespace-free words, beginning where the text begins when it starts with a non-space |
| Text.TokensOfWordLine | chromium/tools/merge_from_chromium.py:379 | a hash on the first line is the first token |
| Text.TokensOfLogOutput | chromium/tools/merge_from_chromium.py:395 | `split()` of a hash-per-line listing gives the hashes in order |
| Text.NatToString | chromium/tools/merge_from_chromium.py:387 | a number prints as non-empty digits, with a leading `0` only for zero itself |
| Text.DigitsValueOfNatToString | chromium/tools/merge_from_chromium.py:354 | `int()` of a printed number gives the number back |
| Index.ModifiedFilesInIndex | chromium/tools/merge_from_chromium.py:283-287 | true exactly when some line of the status text begins with M, A, D, R or C |
| Index.ScanForChangeIsPerLine | chromium/tools/merge_from_chromium.py:287 | the `^[MADRC]` scan matches exactly at the starts of lines |
| Index.ScanForChange | chromium/tools/merge_from_chromium.py:287 | the scan finds a letter exactly when some position holds M, A, D, R or C at a line start |
| Index.ModifiedFilesInIndexOfLines | chromium/tools/merge_from_chromium.py:283-287 | a status of given lines reports a change iff one of those lines does |
| Index.LastChangeContents | chromium/tools/merge_from_chromium.py:325 | the file is `LASTCHANGE=` + revision + newline |
| Index.LastChangeRoundTrip | chromium/tools/merge_from_chromium.py:325 | the revision reads back from the file, and a one-line revision gives one line and a final newline |
| Merge.BranchCreateFlag | chromium/tools/merge_from_chromium.py:149-152 | `-B` exactly when unattended, `-b` exactly when not |
| Merge.MergeBranchName | chromium/tools/merge_from_chromium.py:153 | the name is `merge-from-chromium-` + revision |
| Merge.MergeBranchNameRoundTrip | chromium/tools/merge_from_chromium.py:153 | the revision reads back from the name, and only that name reads back as that revision |
| Merge.MergeBranchNameInjective | chromium/tools/merge_from_chromium.py:153 | different revisions give different branches |
| Merge.ProjectRemote | chromium/tools/merge_from_chromium.py:163-170 | `history` exactly for third_party/WebKit, `goog` for every other project |
| Merge.PushRemote | chromium/tools/merge_from_chromium.py:447-450 | `history` exactly for flat-history projects, `goog` otherwise |
| Merge.MergeProjects | chromium/tools/merge_from_chromium.py:132-229 | for the merge-info outcome, and with every git command and conflict check returning normally, the trace and the modelled error are exactly the specified ones |
| Merge.MergeEachProject | chromium/tools/merge_from_chromium.py:160-189 | the project loop issues each project's commands in dictionary order |
| Merge.MergeProject | chromium/tools/merge_from_chromium.py:162-189 | one project's commands: checkout, a fetch unless mirrored, rev-list, and a merge and commit when it printed anything |
| Merge.ExcludeKnownIncompatible | chromium/tools/merge_from_chromium.py:214-223 | the exclusion loop removes each listed path, and commits only when the index then shows a change |
| Merge.ProjectStepsShape | chromium/tools/merge_from_chromium.py:162-189 | a project's checkout tracks its remote; it is fetched iff not mirrored and merged and committed iff rev-list printed something, all in its own directory |
| Merge.ProjectsStepsPrefix | chromium/tools/merge_from_chromium.py:160-189 | the commands of earlier projects come before those of later ones |
| Merge.ProjectsStepsCheckOut | chromium/tools/merge_from_chromium.py:160-174 | every project in the order is checked out on the merge branch |
| Merge.ProjectStepsCheckoutsOn | chromium/tools/merge_from_chromium.py:171-174 | a project's only checkout uses the flag and merge branch |
| Merge.RootSteps | chromium/tools/merge_from_chromium.py:191-200 | three root-directory steps: a checkout of the merge branch with the mode's flag, the only checkout; a merge of the root sha1; a commit in the same mode |
| Merge.ProjectsStepsCheckoutsOn | chromium/tools/merge_from_chromium.py:171-174 | every project checkout uses the one flag and branch |
| Merge.ExclusionStepsHaveNoCheckout | chromium/tools/merge_from_chromium.py:214-223 | the exclusion loop checks nothing out |
| Merge.ExclusionCommitsOnlyStaged | chromium/tools/merge_from_chromium.py:214-223 | the exclusion loop commits in a directory exactly when the directory is listed and its status then shows a staged change |
| Merge.MergeChecksOutOneBranch | chromium/tools/merge_from_chromium.py:148-193 | every checkout of a merge, in the projects and the root, creates the revision's merge branch with the unattended-mode flag |
| Merge.MergeVisitsEveryProject | chromium/tools/merge_from_chromium.py:157-229 | once merge info resolves, each listed project is checked out on the merge branch, and the modelled error is present exactly when incompatible directories remain, and is recoverable |
| Merge.PushRound | chromium/tools/merge_from_chromium.py:446-454 | one push per project |
| Merge.PushRoundAt | chromium/tools/merge_from_chromium.py:446-454 | the i-th push is project i's |
| Merge.Push | chromium/tools/merge_from_chromium.py:441-454 | first every project is force-pushed to `master-chromium-merge`, then every project to `master-chromium`, from the merge branch and to the project's remote |
| Merge.PushReadsMergeBranch | chromium/tools/merge_from_chromium.py:443-454 | a push's source is the branch the merge of that revision created, and it names the revision |
| EntryPoint.Main | chromium/tools/merge_from_chromium.py:499-525 | 1 for positional arguments, missing ANDROID_BUILD_TOP or push without a revision; `--no_changes_exit` when the snapshot found nothing new; 0 otherwise |
| EntryPoint.ChooseAction | chromium/tools/merge_from_chromium.py:499-523 | usage is printed exactly for positional arguments, the environment error exactly without ANDROID_BUILD_TOP; the three error actions are exactly the usage errors; a snapshot is taken exactly when requested, with the given options; a push pushes the given revision |
| EntryPoint.ExitCode | chromium/tools/merge_from_chromium.py:499-525 | 1 after an error action, 0 after printing or pushing, and after a snapshot 0 or `--no_changes_exit` depending on whether it merged |
| EntryPoint.ModePrecedence | chromium/tools/merge_from_chromium.py:510-523 | `--get_lkgr` wins over `--get_head`, which wins over `--push`, which wins over a snapshot |
| EntryPoint.SnapshotMergesOnlyNewCommits | chromium/tools/merge_from_chromium.py:412-438 | a snapshot merges exactly when rev-list reports new commits, at the located commit, and the exit status follows |
| EntryPoint.SnapshotStart | chromium/tools/merge_from_chromium.py:414-421 | fails exactly as locating the commit fails, with the same error; otherwise it proceeds exactly when rev-list prints something, at the located commit |
| EntryPoint.SnapshotMergesGivenSha1 | chromium/tools/merge_from_chromium.py:371-372 | a given sha1 is merged as given, whatever the revision option says |

## Left out

- Running git is not modelled: `GetCommandStdout` and every fetch, checkout, merge, rm, add, commit, push and reset. Commands appear as trace steps, and outputs a decision reads are parameters: `Upstream`, `revList`, `status`, `pending`.
- `GetLKGR` fetches over HTTP. Its integer result is `Upstream.lkgr`.
- The `exec` of `.DEPS.git` runs arbitrary Python. The evaluated manifest is a `Manifest` value, and `LocalScope` stands for the dictionary it fills.
- `webview_licenses`, `known_issues` and `merge_common` are not part of this model. Their project lists, `KNOWN_INCOMPATIBLE`, `GetIncompatibleDirectories` and `CheckNoConflictsAndCommitMerge` are parameters or opaque `CommitMerge` steps.
- `_GenerateMakefiles` and `_GenerateNoticeFile` are not modelled. They are gyp runs, file writes and git calls; `_ModifiedFilesInIndex`, which they use, is modelled.
- The rollback decision of `_GenerateMakefiles` is left out. When gyp fails, an attended run re-raises the MergeError, while an unattended run resets every project with `git reset --hard` and raises the recoverable TemporaryMergeError `Makefile generation failed`. `MergeError` has no kind for it, and `IsTemporary` covers only the modelled temporary failures.
- Writing `LASTCHANGE` and `NOTICE` is file I/O. Only the LASTCHANGE text is stated.
- Logging, printing and optparse parsing are library wrappers. `main` starts from parsed `Options`.
- Merge.MergeProjects: the iteration order of the merge-info dictionary is the parameter `order`, which lists each project once. Python 2 leaves that order unspecified.
- Merge.MergeProjects: the trace and error are those of a run in which every git command and every `CheckNoConflictsAndCommitMerge` returns normally. In the source a raising one ends the run at that step with a fatal error: `checkout -b` when the branch exists, a failed fetch, or a merge conflict. The model's trace goes on past those steps, and `MergeError` has no kind for them.
- Merge.MergeVisitsEveryProject: assumes the same normally-returning run as `Merge.MergeProjects`. A checkout, fetch or conflict failure would end the merge before later projects are visited.
- Merge.MergeProjects: `rev-list` and `status` outputs are keyed by project path alone. The repository state they read is not modelled.
- Revision.GetSvnRevisionAndSha1: the branch argument is fixed to the one branch whose outputs `Upstream` holds. A failing or non-numeric LKGR response is not modelled.
- EntryPoint.Main: does not model uncaught exceptions, which exit with status 1 and a traceback. It does not model the reduction of `sys.exit` status values modulo 256.
- EntryPoint.SnapshotMergesOnlyNewCommits: the rest of `Snapshot` after the early return is not modelled as one function. It is the merge, NOTICE, LASTCHANGE and makefile steps; the first is `Merge.MergeProjects`.
- The `.` of the trailer regex never meets a newline, because the message is taken line by line. Characters outside ASCII are compared as code points, and there is no Unicode-specific regex behaviour.
