# godzkilla link reconciler, in Dafny

godzkilla installs "skills" into a destination directory. A skill is a
directory holding a SKILL.md. The program links each skill into the
destination as a symbolic link with a flat name. This project models the
core of that program:

- **the linker** (`Linker.Sync`, `Linker.Install`, `installOne`). `Sync` makes
  the destination hold exactly the desired links: it creates, updates, skips
  and removes them, and it has a dry mode. `Install` only adds links;
- **the `sync` command** (`runSync`). It folds the skills of every source into
  one desired map, where a later source overrides an earlier one. It runs the
  linker, sorts the results by name, and fails exactly when some result
  carries an error;
- **naming and source resolution**: `SkillName`, `skill.Name`, `IsRemote`,
  `toHTTPS`, `storageName`, `storageDir` and `Resolve`, in both the root
  package and `internal/source`. `NormalizeSource` and `ParseRemote` are
  reconstructed from their test cases.

The destination directory is a value: `Missing`, or `Present` with a map from
entry name to `Symlink(target)` or `Other`. Each system call that can fail is
governed by a fault set given as input (`MkdirFails`, `ReadDirFails`,
`ReadlinkFails(n)`, `RemoveFails(n)`, `SymlinkFails(n)`). Go iterates maps in
an unspecified order, so `SyncWith` takes the two iteration orders as
parameters. `Linker.Sync` picks any orders, and every law below holds for all
orders. `SyncPost` is the order-free description of a run: one result per
reported name, each being what that name gets when handled alone, and every
entry left as its own name's handling leaves it. Environment variables,
`filepath`, `os.Stat`, cloning and skill discovery are inputs (`Platform.Env`,
`SyncCommand.Collaborators`).

Files: `wrappers.dfy` (Option, Result), `strings.dfy` (`ReplaceAll` of "/",
`HasPrefix`, Go's string order), `platform.dfy`, `namer.dfy`,
`skill_namer.dfy`, `resolver.dfy`, `source_resolver.dfy`, `normalize.dfy`,
`linker.dfy`, `sync_command.dfy`.

Two behaviours follow the code where a reader might expect otherwise:

- **A desired name held by a non-link entry.** In `Sync` this surfaces as a
  failed `os.Symlink` ("symlink:" error), not as "unexpected file". Only
  `installOne` reports "unexpected file" (linker.go:56-58 against
  linker.go:123-125). The entry is left untouched either way.
- **The resolved source.** It has only `LocalDir`, `Remote` and `Name`; there
  are no repository, subpath or repository-directory fields. A local source is
  named by the last element of its absolute path.

## Model

| member | source | states |
|---|---|---|
| Namer.SkillName | namer.go:14-21 | The name contains no "/"; each character of `src` and of `relPath` keeps its position with "/" turned into "_"; a non-empty `relPath` follows one "_", so the length is that of `src`, plus one and the length of `relPath` when it is non-empty |
| Namer.SkillNameReflatten | namer.go:15 | Naming with an already-flattened source gives the same name: `SkillName(SkillName(s, ""), r) == SkillName(s, r)` |
| Namer.SkillNameOfSegments | namer.go:14-21 | A four-segment source and a slash-free relative path give the segments joined by "_" |
| Namer.SkillNameCollides | namer.go:14-21 | Names are not injective: ("a", "b/c") and ("a_b", "c") both give "a_b_c" |
| Namer.SkillNameRepoExamples | namer_test.go:11-13 | The three repository cases of the test table hold |
| Namer.SkillNameSubpathExample | namer_test.go:14 | The sub-pathed source case of the test table holds |
| Namer.SkillNameLocalExamples | namer_test.go:15-16 | The slash-free source cases of the test table hold |
| SkillNamer.Name | internal/skill/namer.go:13-19 | An empty relative path returns the base name unchanged; otherwise the base name is a prefix, followed by one "_" and the relative path with every "/" made "_"; nothing after the base name contains "/" |
| SkillNamer.NameAgreesWithSkillName | internal/skill/namer.go:13-19 | The two namers agree: `SkillName(src, r) == Name(flat(src), r)` for all inputs |
| SkillNamer.NameRepoExamples | internal/skill/namer_test.go:13-15 | The three repository cases of the test table hold |
| SkillNamer.NameSubpathExamples | internal/skill/namer_test.go:16-17 | The longer base-name cases of the test table hold |
| SkillNamer.NameLocalExamples | internal/skill/namer_test.go:18-19 | The short base-name cases of the test table hold |
| Resolver.IsRemote | resolver.go:19-26 | True exactly when some entry of the host list is a prefix of the source |
| Resolver.IsRemoteHosts | resolver.go:10-15 | The host list is exactly "github.com/", "gitlab.com/", "bitbucket.org/" and "codeberg.org/", each with its trailing slash |
| Resolver.RemoteExamples | resolver.go:17-18 | Identifiers under a known host are remote |
| Resolver.BareHostIsLocal | resolver.go:10-15 | "github.com" without the slash is not remote |
| Resolver.SchemeUrlIsLocal | resolver.go:19-26 | An https URL of a known host is not remote, because the test is by prefix only |
| Resolver.ToHTTPS | resolver.go:30-32 | The URL starts with "https://", ends with ".git", holds the source between them, and is 12 characters longer |
| Resolver.ToHTTPSInjective | resolver.go:30-32 | Distinct sources give distinct clone URLs |
| Resolver.StorageName | resolver.go:38-40 | Same length, each "/" made "_", and every other character kept in place |
| Resolver.StorageNameIdempotent | resolver.go:38-40 | Applying the storage name twice equals applying it once |
| Resolver.StorageDir | resolver.go:45-64 | An empty SKILLA_PATH gives home/.skilla; a "~/" value is expanded against home; any other value is used verbatim; a failing home lookup is returned as the error in the first two cases only |
| Resolver.StorageDirFailsOnlyWithoutHome | resolver.go:45-64 | Fails exactly when the home lookup fails and the root needs it |
| Resolver.Resolve | resolver.go:82-95 | A remote source succeeds exactly when its storage dir does, with that dir, `Remote` set and the storage name; a local source succeeds exactly when `Abs` does, with the absolute path and its base name |
| Resolver.RemoteNameIsRootSkillName | resolver.go:83-88 | A remote source's base name is the skill name of its root skill, and it holds no "/" |
| SourceResolver.IsRemote | internal/source/resolver.go:19-26 | Prefix test against the package's own host list, equal to the root package's `IsRemote` |
| SourceResolver.ToHTTPS | internal/source/resolver.go:30-32 | Scheme, source, ".git"; equal to the root package's `toHTTPS` |
| SourceResolver.StorageName | internal/source/resolver.go:38-40 | Same length, no "/", each "/" made "_"; equal to the root package's `storageName` |
| SourceResolver.StorageDir | internal/source/resolver.go:45-64 | Fails exactly when the home lookup fails and the root needs it; equal to the root package's `storageDir` |
| SourceResolver.Resolve | internal/source/resolver.go:82-95 | Same fields as in the root package, and equal to its `Resolve` |
| Normalize.ParseRemoteSegments | resolver_test.go:40-44 | With at most three segments the whole identifier is the repository; otherwise the repository splits into the first three segments and the subpath into the rest |
| Normalize.ParseRemoteRoundTrip | resolver_test.go:40-44 | Repository, "/" and subpath put back together give the identifier; with at most three segments the repository alone does |
| Normalize.ParseRemoteOfPrefix | resolver_test.go:40-44 | Three joined separator-free leading segments (host, owner, repo) and any separator-free subpath segments parse back into repository and subpath |
| Normalize.ParseRemoteRepoOnly | resolver_test.go:40 | host/owner/repo alone has an empty subpath |
| Normalize.ParseRemoteWithSubpath | resolver_test.go:41-44 | The segments after the third form the subpath |
| Normalize.ParseRemoteBareRepo | resolver_test.go:40 | The test case holds |
| Normalize.ParseRemoteFoo | resolver_test.go:41 | The test case holds |
| Normalize.ParseRemoteFooBar | resolver_test.go:42 | The test case holds |
| Normalize.ParseRemoteGitlab | resolver_test.go:43 | The test case holds |
| Normalize.ParseRemoteDeepPath | resolver_test.go:44 | The test case holds |
| Normalize.NormalizeKeepsUnschemed | resolver_test.go:19-24 | Anything without an http or https scheme is left unchanged |
| Normalize.NormalizeTreeUrl | resolver_test.go:10-14 | A scheme URL of host/owner/repo/tree/branch, with or without a path, becomes host/owner/repo followed by the path |
| Normalize.NormalizePlainUrl | resolver_test.go:15-16 | A scheme URL without "tree" after the repository only loses its scheme |
| Normalize.NormalizeThenParse | resolver_test.go:11-12 | Normalizing a directory URL and then parsing gives the repository and the directory inside it |
| Normalize.NormalizeTreeSkills | resolver_test.go:11 | The test case holds |
| Normalize.NormalizeTreeFooBar | resolver_test.go:12 | The test case holds |
| Normalize.NormalizeTreeBranchOnly | resolver_test.go:14 | The test case holds |
| Normalize.NormalizeHttpsRepo | resolver_test.go:16 | The test case holds |
| Normalize.NormalizeHttpTree | resolver_test.go:18 | The test case holds |
| Normalize.NormalizeUnschemedCases | resolver_test.go:20-24 | The bare-identifier and local-path cases hold |
| Linker.Scan | linker.go:88-97 | A name is scanned exactly when its entry is a symlink whose target can be read; its value is that target; non-links and unreadable links are left out |
| Linker.SyncOne | linker.go:102-129 | Per desired name: a successful result is create, update or skip as the scan dictates; a dry run never fails and leaves the entry; a successful real run leaves the link to the target; a real run on a non-skip fails exactly when removing the scanned old link fails (entry intact), or the symlink call fails by a fault or because a non-scanned entry occupies the name (old link gone); a failure is recorded on the result and never happens otherwise |
| Linker.PruneOne | linker.go:132-144 | A stale link is reported removed and disappears in a real run, stays in a dry run, and fails with "remove" exactly when its removal fails, staying in place |
| Linker.RunAllPerName | linker.go:101-144 | Loop order does not matter: each name's result and final entry are those of that name handled alone against the initial entries; names outside the loop are untouched |
| Linker.SyncWithMeetsPost | linker.go:75-147 | Every pair of iteration orders gives a run that meets `SyncPost` |
| Linker.Sync | linker.go:75-147 | The run meets `SyncPost`: a single error for a failed mkdir or readdir; otherwise one result per desired name and per scanned link, each what that name gets alone, and every entry as its own name leaves it |
| Linker.SyncClassification | linker.go:102-144 | Every desired name and every scanned link is reported; a desired name is never removed, and on success it is created, updated or skipped with its desired target; a name not desired was a scanned link and is removed or fails with "remove" |
| Linker.SyncOneResultPerName | linker.go:102-144 | No two results of one run share a name |
| Linker.LinkedNameSkipped | linker.go:106-108 | A desired name already linked to its target is skipped and left alone |
| Linker.SyncDryRunLeavesStateAlone | linker.go:76-144 | A dry run leaves the directory exactly as it was, and past the directory read no result carries an error |
| Linker.SyncDryRunPredictsWetRun | linker.go:111-128 | A dry run reports the same names as a real run, and every successful real result appears verbatim in the dry report |
| Linker.SyncConverges | linker.go:72-74 | After an error-free real run, each desired name links to its target, each scanned stale link is gone, and every other entry is unchanged |
| Linker.SyncConvergesExactly | linker.go:72-147 | With all links readable, an error-free real run leaves exactly the desired links, and the entries that are not links are untouched |
| Linker.ConvergedScan | linker.go:83-97 | After an error-free real run, a new scan finds exactly the desired map |
| Linker.SyncIdempotent | linker.go:106-108 | Repeating an error-free real run reports one skip per desired name and changes nothing |
| Linker.SyncConflictReported | linker.go:123-125 | A non-link entry at a desired name yields a failed symlink result and stays in place |
| Linker.FailureIsLocal | linker.go:118-141 | Faults at other names do not change what a name gets |
| Linker.SyncFailureIsLocal | linker.go:118-141 | Adding per-entry faults changes no result for an entry they do not concern: one failure never stops the others |
| Linker.Enumerate | linker.go:102 | Returns some order listing every map key exactly once |
| Linker.InstallOne | linker.go:36-70 | An Abs failure is reported; a readable link to the target is skipped; an entry that is not a readable link is "unexpected file" and untouched; success leaves a link to the absolute target, as update only when a non-empty old target differed, otherwise as create; on failure the entry is either untouched or gone |
| Linker.InstallOneOutcomes | linker.go:46-69 | An absent name is linked and reported as create; a readable link to another target is removed and relinked, reported as update when its old target was non-empty; a failing remove keeps the old link, and a failing symlink leaves the name empty; the result carries an error exactly when Abs, the remove or the symlink call fails, or the name holds something that is not a readable link |
| Linker.InstallCollisionUpdates | linker.go:29-70 | When two skills share a link name, the later one's link replaces the earlier one's, so a second install reports the earlier skill as update, not skip |
| Linker.InstallCollisionExample | linker.go:29-70 | Skills at relative paths "b/c" and "b_c" under base name "a" install without error, and a second install reports an update |
| Linker.InstallAll | linker.go:29-32 | One result per skill, in order and under the skill's name; entries under other names are unchanged |
| Linker.Install | linker.go:24-34 | A failed mkdir gives one error result and no change; otherwise one result per skill, and nothing outside the skills' names is touched (additive only) |
| Linker.InstallAllPerName | linker.go:29-32 | With distinct names, each skill's result and link are those of that skill installed alone |
| Linker.LinkedSkillSkipped | linker.go:47-51 | A skill whose link is already in place is skipped and its link stays |
| Linker.InstallIdempotent | cli/install.go:17-18 | When the skills have distinct link names and those links are readable, a second install after a fully successful one skips every skill and leaves the directory as it was |
| SyncCommand.Discover | cli/sync.go:49-65 | A source passes exactly when resolve, clone, the existence check and discovery all succeed, and the first failing check gives its own error: resolving, cloning, "source directory not found" with the resolved directory, or finding skills |
| SyncCommand.SkillLinks | cli/sync.go:67-75 | Succeeds exactly when every skill's directory can be made absolute, giving one write per skill, in order, of its skill name and absolute directory; otherwise the error names the first skill that failed |
| SyncCommand.AllLinks | cli/sync.go:48-78 | Succeeds exactly when every source does; otherwise the error is that of the first failing source |
| SyncCommand.BuildDesired | cli/sync.go:46-75 | The gathering loop fails exactly when some source does, with that error; otherwise it is the overlay of all sources' writes in order |
| SyncCommand.GatherIsOverlay | cli/sync.go:46-78 | The loop that writes into one map as it goes equals the overlay of the concatenated writes |
| SyncCommand.OverlayLastWrite | cli/sync.go:74 | A name's value is the target of the last write to it |
| SyncCommand.DesiredFromSkills | cli/sync.go:67-74 | The desired map holds exactly the names of the sources' skills, each with the absolute directory of a skill linked under it |
| SyncCommand.LaterSourceWins | cli/sync.go:48-75 | When two sources give a skill the same name, the later source's target is the one desired |
| SyncCommand.SortByName | cli/sync.go:88-90 | The results come out in ascending name order, as a permutation of the input |
| SyncCommand.SortedOrderUnique | cli/sync.go:87-90 | Two name-sorted reports with distinct names and the same members are equal, so the unstable sort cannot make the report ambiguous |
| SyncCommand.SyncReportDetermined | cli/sync.go:84-90 | Whatever Go's map order, two runs on the same inputs print the same sorted report and leave the same directory |
| SyncCommand.SyncPostPermutation | cli/sync.go:88-90 | Sorting keeps every property of the report; only its order changes |
| SyncCommand.CountErrors | cli/sync.go:94-99 | The count is zero exactly when no result carries an error |
| SyncCommand.ErrorCount | cli/sync.go:94-99 | The loop counts the results carrying an error, and the count is positive exactly when one exists |
| SyncCommand.RunSync | cli/sync.go:44-104 | A failing source stops the command before the destination is touched, with that error; otherwise the linker runs with `dry` unchanged, the results are sorted by name, and the command fails exactly when some result carries an error, giving their number |

## Left out

- Cloning, sparse checkout and fetching (clone.go, internal/source/clone.go) are git subprocesses. `EnsureCloned` is an input that either succeeds or fails.
- Skill discovery (finder.go) walks the directory tree. Its list of found skills is an input.
- `PrintResults` (linker.go:149-158) and the other progress output only print formatted text.
- The `install`, `list` and `update` commands and the cobra wiring (cli/*.go apart from `runSync`, cmd/update.go, main.go) are flag and process plumbing. The install command's `--name` override only replaces the base name, which `Linker.Install` already takes as a parameter.
- `filepath.Join`, `filepath.Abs`, `filepath.Base`, `os.Getenv`, `os.UserHomeDir` and `os.Stat` are uninterpreted parameters. Path cleaning is not modelled.
- Link paths are entry names. `filepath.Join(DestDir, name)` is not modelled, so a name that holds "/" or ".." would address another directory in Go but not here.
- Go's map iteration order is an input to `Linker.SyncWith`. `Linker.Sync` chooses it arbitrarily, and no property depends on the choice.
- Concurrent runs against one destination are not modelled; the code takes no lock.
- The precise reason behind a system-call failure is not modelled: a failure is present or absent per name. `os.Symlink` also fails when the name is still occupied, as it does on a real filesystem.
- Unreadable links are skipped by the scan and therefore never removed. The convergence laws (`Linker.SyncConvergesExactly`, `Linker.ConvergedScan`, `Linker.SyncIdempotent`) require the links involved to be readable.
- Linker.InstallIdempotent: holds only when the skills of the source have distinct link names and those links are readable. Distinct relative paths can flatten to the same name ("b/c" and "b_c"). Then the help text's idempotence promise (cli/install.go:17-18) fails: a second install reports an update, as `Linker.InstallCollisionUpdates` and `Linker.InstallCollisionExample` show. An unreadable link is reported as "unexpected file" on every run.
- Normalize.NormalizeSource and Normalize.ParseRemote: their Go bodies are not part of this model. The definitions are reconstructed from resolver_test.go and proved against each of its cases. Only "http://" and "https://" URLs are rewritten, and "tree" is recognised only as the fourth segment. Behaviour outside the shapes resolver_test.go covers (query strings, ".git" suffixes, other schemes) is not claimed.
- Strings.Below compares characters, where Go's `<` compares UTF-8 bytes. The two orders agree on code points.
- No integer width matters: counts and lengths are unbounded.
