# petrel core, modelled in Dafny

petrel is a small command-line tool that runs the Codex CLI inside a
container managed by Apple's `container` engine. This project models the decision logic
under its subprocess and Click plumbing, all of it in `src/petrel/main.py`:

- **Engine reconciliation** (`ensure_container_running`). It checks the
  status of the container subsystem and, when allowed, starts it once.
- **Version resolution** (`get_codex_version`). It returns the first
  `\d+\.\d+\.\d+` substring that `codex --version` prints, or nothing.
- **Tag reconciliation** (`_ensure_tags`). It inspects the expected tags
  `repo:version` (when a version is known) and `repo:latest`. Then it tags
  every missing one from the first one that exists.
- **`build`.** It lays out the `container build` argument list. The pinned
  tag comes before `latest`, and `--no-cache` is inserted at index 2. The
  temporary Dockerfile is removed on every path.
- **`codex`.** It covers the missing-image prompt, the `needs_build` rule
  for an outdated image, and the `container run` argument list that the
  process replaces itself with.

Nothing external is run. What the host answers is an `Engine.Answers`
value:
- whether `container` can be executed;
- the exit status of `container system start`;
- the result of `codex --version`;
- the exit status of `container build` for the `build` command or for a
  missing image, and, separately, for the rebuild of an outdated image;
- the tags a successful build leaves the image under;
- the name of the temporary file;
- the parsed `RepoTags` of the latest image;
- the two confirmation answers.

The engine as petrel sees it is an `Engine.World`: whether the
subsystem runs, the set of image tags it knows, and the log of every
command issued. The engine follows three conventions:
- `container images inspect r` exits 0 exactly when `r` names a known tag.
  A reference without a tag is read as `r:latest`.
- A successful `container build` leaves the image under those of its
  `--tag`s that are among the `builtTags` of the answers. `_ensure_tags`
  completes the rest.
- Tag commands succeed.

The model has two layers:

- **Step functions** (modules `Engine`, `Images`, `Session`). Each maps
  the answers and a world to a result and the world it leaves. The
  lemmas about them state what the source promises.
- **Class `Cli.Host`.** It runs the same procedures imperatively over
  mutable fields: the running flag, the tag set, the command log, and
  whether the temporary Dockerfile exists. Each method's contract equates
  its result and new state with the step function for the old state.

`Commands` builds the argument lists. It pairs each assembled list with a
parser that reads it the way the receiving CLI does, so a round-trip lemma
states what each argument means.

Points worth knowing about the code:
- "running" is decided by the exit status of `container system status`,
  not by its output;
- the version is the leftmost regular-expression match, not the last word
  of the output;
- a pinned tag that exists does not prevent a rebuild. `needs_build` also
  holds when the latest image's `RepoTags` lack the pinned tag;
- only the uv cache is mounted in the container. The per-repository venv
  directory is created but not mounted;
- `container run` uses the image exactly as given, not the pinned tag;
- the version is queried afresh by each step that needs it.

Two consequences are proved as lemmas:
- `Session.UnreadableTagsBuildTwice`: when the latest image's tags cannot
  be read, `codex` builds a missing image twice.
- `Session.TaggedImageStaysMissing`: a missing image named with its own
  tag, such as `codex:1.0`, is built only as `codex:<version>` and
  `codex:latest`, and then launched by a name that still does not exist.

## Model

| member | source | states |
|---|---|---|
| Version.RunEnd | src/petrel/main.py:65 | each `\d+` of the pattern is a maximal run of ASCII digits: every position from the start up to the end is a digit, and the run stops at a non-digit or at the end of the output |
| Version.ExtractVersion | src/petrel/main.py:65-67 | no version exactly when no substring of the output matches `\d+\.\d+\.\d+`; otherwise the leftmost match, taken as long as possible, which is what `re.search` returns |
| Version.CodexVersion | src/petrel/main.py:57-68 | no version when `codex` cannot be started or exits non-zero; on exit 0, the first match in its standard output; any version returned matches the pattern and has at least five characters |
| Version.MatchEndCorrect | src/petrel/main.py:65 | the match attempted at one position ends where the pattern, matched greedily, ends; no longer substring from there matches, and when it fails no substring from there matches |
| Version.FindFromCorrect | src/petrel/main.py:65-66 | the left-to-right search returns the leftmost-longest match from its starting point, and returns nothing only when no substring from there on matches |
| Version.LeftmostLongestUnique | src/petrel/main.py:65-66 | the leftmost-longest match is unique, so the contract of `ExtractVersion` fixes its result |
| Version.FindFromSkips | src/petrel/main.py:65 | positions holding no digit start no match |
| Version.ExtractVersionExample | tests/test_main.py:51-60 | the output `codex-cli X.Y.Z` with one-digit components, for example `codex-cli 9.9.9`, yields `X.Y.Z` |
| Version.ExtractVersionFirstMatch | src/petrel/main.py:65-67 | only the first match counts: `1.2.3 (4.5.6)` yields `1.2.3` |
| Commands.ExpectedTags | src/petrel/main.py:73-75 | the expected tags are `repo:version` then `repo:latest` when a version is known, and `repo:latest` alone otherwise |
| Commands.BaseRepo | src/petrel/main.py:410 | `tag.split(":", maxsplit=1)[0]`: a colon-free prefix of the tag, followed in the tag by a colon or by nothing |
| Commands.BuildCommand | src/petrel/main.py:410-422 | the build command starts with `container build`; it has `--no-cache` at index 2 exactly when rebuilding; then `--tag repo:version` before `--tag repo:latest` when a version is known, or `--tag repo:latest` alone; it ends with `--file <tmp> <context>` |
| Commands.TagArgsParse | src/petrel/main.py:411-418 | the `--tag` pairs are read back as the expected tags, in order |
| Commands.BaseRepoOfTagged | src/petrel/main.py:410 | the repository of `repo:tag` is `repo` when `repo` has no colon |
| Commands.BuildFileParse | src/petrel/main.py:417-419 | `--file <tmp> <context>` is read as the Dockerfile and the one operand |
| Commands.BuildCommandMeaning | src/petrel/main.py:410-422 | read as `container build` reads options, the command asks for no cache exactly when rebuilding, the tags `[repo:version?, repo:latest]`, the temporary file as Dockerfile, and the context as its only operand |
| Commands.RunCommand | src/petrel/main.py:297-320 | the run command starts with `container run`; the image is at index 12; after it comes `/bin/bash` in shell mode, otherwise the Codex path followed by the passthrough arguments |
| Commands.RunOptionsParse | src/petrel/main.py:297-320 | the options up to the image are read as the name, removal on exit, interactive mode, one volume and the two mounts in order; everything after the image is the container's command |
| Commands.RunCommandMeaning | src/petrel/main.py:297-320 | read as `container run` reads options, the command names the container, removes it on exit, is interactive, binds the repository to `/home/linuxbrew/repo`, mounts the persistent directory and the uv cache, runs the given image, and passes every extra argument through unchanged |
| Engine.Message | src/petrel/main.py:107-129 | the three error texts in full, as tests/test_main.py:104-107 and :146 pin down: the missing-CLI error names the missing `container` CLI and asks for macOS with the Apple container subsystem; the not-running error ends with the command `container system start`; the failed-start error says the start of the subsystem failed |
| Engine.QueryVersion | src/petrel/main.py:57-68 | the version query issues one `codex --version` and changes nothing else; it returns the version `CodexVersion` resolves from the probe, the first match in its standard output, which matches the pattern |
| Engine.Reconcile | src/petrel/main.py:92-129 | reconciling never changes the image tags, and succeeds only with the subsystem running |
| Engine.RunningIsNoOp | src/petrel/main.py:112-113 | a status query that exits 0 ends reconciliation without error and without a start, whatever the auto-start setting |
| Engine.MissingCliIsReported | src/petrel/main.py:102-110 | a missing `container` program is reported as the missing-CLI error after the one status query, with nothing else issued |
| Engine.StoppedWithoutAutoStart | src/petrel/main.py:115-119 | a stopped subsystem without auto-start is the not-running error, after the one status query, and no start is issued |
| Engine.StoppedWithAutoStart | src/petrel/main.py:121-129 | a stopped subsystem with auto-start gets exactly one start; it runs afterwards exactly when the start exits 0, and a failure is reported as StartFailed |
| Engine.ReconcileIssues | src/petrel/main.py:102-129 | reconciliation issues the status query first, then at most one start, and a start exactly when the CLI exists, the subsystem is stopped and auto-start is on |
| Engine.ReconcileTwice | src/petrel/main.py:393 | after a successful reconciliation, the second one that `build` runs when called from `codex` succeeds without a start |
| Images.Present | src/petrel/main.py:77-83 | the existing tags are exactly the expected tags whose inspection succeeds, and never more than the expected ones |
| Images.PresentFirst | src/petrel/main.py:77-85 | the first existing tag, `existing[0]`, is the first expected tag whose inspection succeeds: every expected tag before it fails inspection |
| Images.Missing | src/petrel/main.py:86-88 | the tags to fill are exactly the expected tags not among the existing ones |
| Images.InspectCommands | src/petrel/main.py:77-80 | one inspection per expected tag, in order |
| Images.TagCommands | src/petrel/main.py:85-89 | one tag command per missing tag, each from the same source, in order |
| Images.TagPlan | src/petrel/main.py:85-89 | every tag command copies the first existing expected tag onto an expected tag that did not exist; every such tag gets one when some expected tag exists; there are none when no expected tag exists |
| Images.NothingToTag | src/petrel/main.py:85-89 | when every expected tag exists, or none does, nothing is tagged |
| Images.TagsReconciled | src/petrel/main.py:71-89 | `_ensure_tags` leaves the running state alone, removes no tag, and first inspects every expected tag in order |
| Images.ReconciledImages | src/petrel/main.py:71-89 | the tags after `_ensure_tags`, as sets: every expected tag is added when one of them existed; otherwise nothing changes |
| Images.TagsReconciledCompletes | src/petrel/main.py:71-89 | after `_ensure_tags`, if some expected tag existed, every expected tag exists; no tag outside the expected ones is added; with none existing, the tags are unchanged |
| Images.TagsReconciledWhenComplete | tests/test_main.py:360-390 | when every expected tag exists, `_ensure_tags` only inspects them |
| Images.TaggedDistinct | src/petrel/main.py:73-75 | two tags of one repository are distinct when their tag parts are |
| Images.LatestOnlyPlan | src/petrel/main.py:77-88 | with only `repo:latest` present at a pinned version, the tag source is `repo:latest` and the one tag to add is the pinned one |
| Images.TagsReconciledLatestOnly | tests/test_main.py:324-357 | with only `repo:latest` present at a pinned version, for example `codex:latest` at 1.2.3, exactly the two inspections and the one command `container image tag repo:latest repo:version` are issued, and only the pinned tag is added |
| Session.NeedsBuild | src/petrel/main.py:269 | no build is needed exactly when the pinned tag exists, the latest inspection succeeded and parsed, and its `RepoTags` contain the pinned tag |
| Session.TemplateVersion | src/petrel/main.py:402-404 | the template sees a non-empty version exactly when one was found, and then sees that version |
| Session.BuildEnding | src/petrel/main.py:392-431 | `build` returns normally exactly when the build was made; otherwise it exits or raises |
| Session.AfterBuild | src/petrel/main.py:231-238 | `codex` goes on after calling `build` exactly when the build was made; otherwise it ends by exiting or by the uncaught error |
| Session.BuildRunAborted | src/petrel/main.py:392-396 | when the subsystem cannot be made to run, `build` stops with that error before the version query; it issues no build and changes no tag |
| Session.BuildRunFailed | src/petrel/main.py:409-428 | a build that exits non-zero leaves the tags unchanged, after the status query, the version query and the one build command |
| Session.BuildRun | src/petrel/main.py:392-431 | `build` aborts exactly when the engine cannot be made to run, with that error, and fails exactly when the engine runs and the build exits non-zero; a successful build leaves the engine running; no tag is removed |
| Session.BuildMain | src/petrel/main.py:384-431 | the `build` command exits or raises, exits 0 exactly when the engine runs and the build succeeds, and removes no tag |
| Session.ImagesAfterBuild | src/petrel/main.py:428-429 | after a successful build and `_ensure_tags`, the image has every expected tag when the build, or an earlier one, left at least one of them; otherwise the old tags; never a tag outside the expected ones |
| Session.BuildRunSucceeded | src/petrel/main.py:409-429 | a successful build is followed by an inspection of every expected tag and one tag command per missing one, copied from the first existing tag; the resulting tags are those of `ImagesAfterBuild` |
| Session.BuildSkipsTagsWhenPresent | tests/test_main.py:360-390 | when every expected tag existed or was left by the build, `build` ends normally after the build and the inspections, with no tag command |
| Session.BuildAppliesMissingTag | tests/test_main.py:324-357 | when the build leaves `repo:latest` but not `repo:version`, `build` issues the two inspections and then `container image tag repo:latest repo:version`, and the image ends with both tags |
| Session.BuildRunBuildsOnce | src/petrel/main.py:428 | once the subsystem runs, `build` issues exactly one `container build`, whatever its exit |
| Session.BuildMainEnds | src/petrel/main.py:392-431 | `build` returns normally exactly when the subsystem runs and the build succeeds; it exits with status 1 when the subsystem cannot be made to run; a failed build escapes uncaught |
| Session.ImageCheck | src/petrel/main.py:224-247 | an image that exists lets `codex` go on with no tag changed; a missing one the user declines ends it with status 1; any other end is an exit or the uncaught build error; no tag is removed |
| Session.VersionCheck | src/petrel/main.py:249-279 | when no rebuild is wanted the version check lets `codex` go on with no tag changed; otherwise it ends only by exiting or by the uncaught build error; no tag is removed |
| Session.LaunchCommand | src/petrel/main.py:294-320 | read as `container run` reads options, the launch command names the container, binds the repository, mounts the persistent directory and `<home>/.cache/petrel/uv_cache` at `/home/linuxbrew/.uv_cache`, and runs the image as given with the entry command |
| Session.CodexRun | src/petrel/main.py:201-328 | `codex` launches only the launch command, and only with the engine running; every exit it makes has status 1, including the one when the engine cannot be made to run; no tag is removed |
| Session.VersionCheckEffects | src/petrel/main.py:249-279 | with the subsystem running, the version check builds exactly once when a version is found, `needs_build` holds and the user agrees, and never otherwise; it lets `codex` go on unless that build failed, and removes no tag |
| Session.CodexEngineDown | src/petrel/main.py:218-222 | when the subsystem cannot be made to run, `codex` exits with status 1 before any inspection, build or launch |
| Session.CodexImageDeclined | src/petrel/main.py:224-247 | a missing image the user declines to build ends `codex` with status 1 right after its inspection, with no build and no version query |
| Session.CodexImagePresent | src/petrel/main.py:224-279 | with the image present, `codex` builds exactly when a version is found, `needs_build` holds and the user agrees; declining still launches; it launches the command for the given image unless that build failed, which escapes uncaught |
| Session.CodexImageBuildFailed | src/petrel/main.py:228-238 | a missing image the user agrees to build, whose build fails, ends `codex` uncaught after that one build, with no tag added |
| Session.CodexImageBuilt | src/petrel/main.py:228-279 | a missing image the user agrees to build, whose build succeeds, gets the tags of `ImagesAfterBuild` for its repository; the version check runs against them, and asks for a second build exactly when it wants a rebuild; `codex` launches exactly when no rebuild is wanted or the rebuild succeeds, and otherwise ends with the rebuild's uncaught error |
| Session.LatestOutdatedRebuildsOnce | tests/test_main.py:476-507 | with an untagged image whose pinned and `latest` tags exist but whose latest `RepoTags` lack the pinned one, as with `codex:1.2.3` against `["codex:latest", "codex:1.2.0"]`, `codex` rebuilds once when the user agrees and launches |
| Session.UnreadableTagsBuildTwice | tests/test_main.py:296-321 | with the image missing, every prompt accepted, a version found and the latest image's `RepoTags` unreadable, `codex` builds, builds again for the unreadable `RepoTags`, and, when both builds succeed, launches |
| Session.TaggedImageStaysMissing | src/petrel/main.py:228-238 | a missing `repo:tag`, such as `codex:1.0`, whose build the user accepts and that leaves one of `repo:version` and `repo:latest` ends with exactly those two tags added; when the latest tags list the version no second build follows, and `codex` launches `repo:tag`, which still does not exist |
| Cli.BuildCommandAssembled | src/petrel/main.py:410-422 | growing the list with `extend` and then inserting `--no-cache` at index 2 gives exactly the build command |
| Cli.AssembleBuildCommand | src/petrel/main.py:410-422 | the list `build` assembles step by step is the build command |
| Cli.Host.EnsureContainerRunning | src/petrel/main.py:92-129 | the error returned and the new engine state are those of the reconciler for the old state |
| Cli.Host.GetCodexVersion | src/petrel/main.py:57-68 | returns the resolved version and logs one `codex --version` |
| Cli.Host.Inspect | src/petrel/main.py:78-80 | reports whether the reference names a known tag, logs the inspection, changes nothing else |
| Cli.Host.Tag | src/petrel/main.py:89 | adds the target tag and logs the tag command |
| Cli.Host.InspectAll | src/petrel/main.py:77-83 | the first loop of `_ensure_tags` collects exactly the existing expected tags, in order, inspecting each |
| Cli.Host.TagAllMissing | src/petrel/main.py:85-89 | the second loop tags exactly the missing expected tags from the source, in order |
| Cli.Host.EnsureTags | src/petrel/main.py:71-89 | the new state is that of `_ensure_tags` for the old state |
| Cli.Host.Build | src/petrel/main.py:392-431 | the outcome and the new state are those of `build` for the old state, with the given exit status for its `container build`; the temporary Dockerfile no longer exists afterwards unless the run stopped before creating it |
| Cli.Host.BuildCommandMain | src/petrel/main.py:384-431 | how the `build` command ends and the state it leaves; no temporary Dockerfile exists afterwards that did not exist before |
| Cli.Host.EnsureImage | src/petrel/main.py:224-247 | the image check of `codex`, as specified for the old state |
| Cli.Host.RefreshImage | src/petrel/main.py:249-279 | the version check of `codex`, as specified for the old state |
| Cli.Host.Codex | src/petrel/main.py:201-328 | how `codex` ends, the command it launches, and the state it leaves, as specified for the old state; no temporary Dockerfile exists afterwards that did not exist before |

## Left out

- Process spawning (`_run`, `subprocess.run`) is a foreign call. Its results are the fields of `Answers`, and every command is recorded in the log instead of being run.
- The engine itself is not modelled, only the three conventions above. In particular, tag commands are taken to succeed. Under `check=True` a failing tag command would raise, and this is not modelled.
- The latest image's `RepoTags` are one oracle value per invocation. They are not derived from the tag set, which does not record which tags share an image. `None` stands for a failed inspection or unparseable output. A parsed value that is not a list of strings is not modelled. Such values are: a string `RepoTags`, for which `in` at main.py:269 is a substring test; a dict, for which it is a key test; `null` or a number, for which `in` raises `TypeError` when the pinned inspection succeeded; and a top-level JSON number or `null`, for which `[0]` at main.py:266 raises a `TypeError` that the `except` does not catch.
- The same `Answers` serve every repeated query in one invocation: whether the CLI exists, the start, the version query and each confirmation. Builds get one exit status for the `build` command or a missing image, and another for the rebuild of an outdated image. The status query is answered by the running flag of the `World`.
- A build's `builtTags` are one set per invocation: in `codex`, a second build leaves the same expected tags as the first.
- JSON decoding of the inspection output is left out. The parsed `RepoTags` are an input.
- Template rendering (`render_template`, Jinja2, `os.environ`) is a foreign library, and the packaged template lookup (`resources.files`) is left out. The temporary Dockerfile is modelled only by whether it exists. `Session.TemplateVersion` gives the version value the template would see.
- Click wiring is left out: option parsing, defaults, help text, `click.echo`, `click.style`, and the `shutil.which` guard in `main`. `click.confirm` answers are boolean inputs.
- `os.execvp` is left out. The model returns only the argument list that would replace the process.
- Filesystem bootstrapping in `codex` (main.py:281-295) is left out: the `mkdir` calls, `Path.home()` and `Path.cwd()`, and the venv cache path keyed by a SHA-256 of the repository path. The home directory is a parameter. The uv cache path is that directory followed by `/.cache/petrel/uv_cache`.
- Paths are the strings they print as; `Path` normalisation is left out.
- `shlex.quote` logging of the executed commands is left out.
- Exceptions other than the ones modelled are left out, such as an `OSError` other than `FileNotFoundError` from `codex --version`, or a keyboard interrupt. The modelled ones are: a missing `container` program, a failed start, and a failed build, which escapes uncaught.
- Version.ExtractVersion: `\d` is modelled as the ASCII digits `0`-`9`, while Python's `\d` on `str` also matches other Unicode decimal digits.
- Cli.Host.Build: the temporary file's unique name is an input (`tmpPath`). The flag tracks only the file this invocation creates.
