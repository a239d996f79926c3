/**
 * The two commands that drive the engine: `build`, which renders the
 * Dockerfile to a temporary file, builds it under the expected tags and
 * completes the tags; and `codex`, which makes sure the engine runs and
 * the image exists and is current, then replaces itself with
 * `container run`.
 *
 * Each is a function from the host's answers and a world to a `Step`
 * whose result is how the command ends.
 */
module Session {
  import opened Wrappers
  import opened Commands
  import opened Engine
  import opened Images
  import Version

  /** How one invocation of petrel ends. */
  datatype Ending =
    | Launched(argv: Command)  // the process is replaced by `argv`
    | Exited(code: int)        // `sys.exit(code)`, or a normal return (0)
    | Crashed                  // an uncaught `CalledProcessError` from `container build`

  /** How the body of `build` ends. */
  datatype BuildOutcome = Built | Aborted(error: EngineError) | BuildFailed

  /** The latest image's `RepoTags`: the parsed list when the inspection
      succeeded and its output parsed, otherwise empty. */
  function LatestTags(latestFound: bool, parsed: Option<seq<string>>): (r: seq<string>)
    ensures r != [] ==> latestFound && parsed == Some(r)
    ensures latestFound && parsed.Some? ==> r == parsed.value
  {
    if latestFound && parsed.Some? then parsed.value else []
  }

  /** `needs_build`: the pinned tag is missing, or the latest image does
      not carry it. */
  function NeedsBuild(pinnedFound: bool, pinned: string, latestFound: bool,
                      parsed: Option<seq<string>>): (r: bool)
    ensures !r <==> pinnedFound && latestFound && parsed.Some? && pinned in parsed.value
  {
    !pinnedFound || pinned !in LatestTags(latestFound, parsed)
  }

  /** The value the Dockerfile template sees as `codex_version`. */
  function TemplateVersion(version: Option<string>): (r: string)
    ensures Pinned(version) <==> r != ""
    ensures r != "" ==> version == Some(r)
  {
    if version.Some? then version.value else ""
  }

  /** The body of `build`: reconcile the engine, query the version, issue
      one `container build` of the temporary Dockerfile under the expected
      tags, and on success let `_ensure_tags` complete whichever of them
      the build did not leave. */
  function BuildRun(a: Answers, w: World, tag: string, context: string, rebuild: bool,
                    autoStart: bool): (b: Step<BuildOutcome>)
    ensures b.result.Aborted? <==> Reconcile(a, w, autoStart).result.Some?
    ensures b.result.Aborted? ==> Reconcile(a, w, autoStart).result == Some(b.result.error)
    ensures b.result == BuildFailed <==> Reconcile(a, w, autoStart).result.None? && a.buildExit != 0
    ensures b.result == Built ==> b.world.running
    ensures w.running ==> b.world.running
    ensures w.images <= b.world.images
  {
    var r := Reconcile(a, w, autoStart);
    if r.result.Some? then Step(Aborted(r.result.value), r.world)
    else
      var q := QueryVersion(a, r.world);
      var repo := BaseRepo(tag);
      var issued := q.world.(log := q.world.log + [BuildCommand(repo, q.result, a.tmpPath, context, rebuild)]);
      if a.buildExit != 0 then Step(BuildFailed, issued)
      else
        var built := issued.(images := issued.images + Elements(ExpectedTags(repo, q.result)) * a.builtTags);
        Step(Built, TagsReconciled(built, repo, q.result))
  }

  /** How a `build` run as its own command ends. */
  function BuildEnding(o: BuildOutcome): (e: Ending)
    ensures e == Exited(0) <==> o == Built
    ensures e.Exited? || e.Crashed?
  {
    match o
    case Built => Exited(0)
    case Aborted(_) => Exited(1)
    case BuildFailed => Crashed
  }

  /** How `codex` goes on after it called the body of `build`: past a
      successful build it continues (`None`), otherwise it ends. */
  function AfterBuild(o: BuildOutcome): (r: Option<Ending>)
    ensures r.None? <==> o == Built
    ensures r.Some? ==> r.value.Exited? || r.value.Crashed?
  {
    match o
    case Built => None
    case Aborted(_) => Some(Exited(1))
    case BuildFailed => Some(Crashed)
  }

  /** The `build` command with the built-in template. */
  function BuildMain(a: Answers, w: World, tag: string, context: string, rebuild: bool,
                     noAutoStart: bool): (b: Step<Ending>)
    ensures b.result.Exited? || b.result.Crashed?
    ensures b.result == Exited(0) <==> Reconcile(a, w, !noAutoStart).result.None? && a.buildExit == 0
    ensures w.images <= b.world.images
  {
    var b := BuildRun(a, w, tag, context, rebuild, !noAutoStart);
    Step(BuildEnding(b.result), b.world)
  }

  /** `codex`: the image must exist; when it does not, ask, and build it
      under its own name or stop with status 1. */
  function ImageCheck(a: Answers, w: World, image: string, autoStart: bool): (i: Step<Option<Ending>>)
    ensures InspectOk(image, w.images) ==> i.result.None? && i.world.images == w.images
    ensures !InspectOk(image, w.images) && !a.confirmMissing ==> i.result == Some(Exited(1)) && i.world.images == w.images
    ensures i.result.Some? ==> i.result.value.Exited? || i.result.value.Crashed?
    ensures w.running ==> i.world.running
    ensures w.images <= i.world.images
  {
    var w1 := w.(log := w.log + [InspectCommand(image)]);
    if InspectOk(image, w.images) then Step(None, w1)
    else if !a.confirmMissing then Step(Some(Exited(1)), w1)
    else
      var b := BuildRun(a, w1, image, ".", false, autoStart);
      Step(AfterBuild(b.result), b.world)
  }

  /** `codex`: with a known version, inspect the pinned and the latest tag
      of the image's repository, and when a build is needed and the user
      agrees, build the repository. */
  function VersionCheck(a: Answers, w: World, image: string, autoStart: bool): (c: Step<Option<Ending>>)
    ensures !WantsRebuild(a, w.images, image) ==> c.result.None? && c.world.images == w.images
    ensures c.result.Some? ==> c.result.value.Exited? || c.result.value.Crashed?
    ensures w.running ==> c.world.running
    ensures w.images <= c.world.images
  {
    var q := QueryVersion(a, w);
    match q.result
    case None => Step(None, q.world)
    case Some(v) =>
      var repo := BaseRepo(image);
      var pinned := repo + ":" + v;
      var latest := repo + ":latest";
      var w1 := q.world.(log := q.world.log + [InspectCommand(pinned), InspectCommand(latest)]);
      var needs := NeedsBuild(InspectOk(pinned, w.images), pinned, InspectOk(latest, w.images), a.latestRepoTags);
      if needs && a.confirmOutdated then
        var b := BuildRun(Rebuilding(a), w1, repo, ".", false, autoStart);
        Step(AfterBuild(b.result), b.world)
      else Step(None, w1)
  }

  /** The answers the rebuild of an outdated image gets: its own exit
      status, everything else as for the first build. */
  function Rebuilding(a: Answers): Answers {
    a.(buildExit := a.rebuildExit)
  }

  /** The options of `codex`, with paths as the strings they print as. */
  datatype CodexOptions = CodexOptions(
    name: string, persistentDir: string, destDir: string, repoDir: string,
    image: string, codexPath: string, shell: bool, noAutoStart: bool, extra: seq<string>)

  /** `~/.cache/petrel/uv_cache` under the home directory `home`. */
  function UvCacheDir(home: string): string {
    home + "/.cache/petrel/uv_cache"
  }

  /** The command `codex` replaces itself with. */
  function LaunchCommand(o: CodexOptions, home: string): (cmd: Command)
    ensures |cmd| > 2 && cmd[..2] == ["container", "run"]
    ensures !IsRunOption(o.image) ==>
      ParseRunArgs(cmd[2..]) ==
        Some(RunRequest(Some(o.name), true, true,
                        [o.repoDir + ":/home/linuxbrew/repo"],
                        [MountSpec(o.persistentDir, o.destDir),
                         MountSpec(UvCacheDir(home), "/home/linuxbrew/.uv_cache")],
                        o.image, if o.shell then ["/bin/bash"] else [o.codexPath] + o.extra))
  {
    var cmd := RunCommand(o.name, o.repoDir, o.persistentDir, o.destDir, UvCacheDir(home),
                          o.image, o.codexPath, o.shell, o.extra);
    if IsRunOption(o.image) then cmd
    else
      RunCommandMeaning(o.name, o.repoDir, o.persistentDir, o.destDir, UvCacheDir(home),
                        o.image, o.codexPath, o.shell, o.extra);
      cmd
  }

  /** The `codex` command. */
  function CodexRun(a: Answers, w: World, o: CodexOptions, home: string): (c: Step<Ending>)
    ensures c.result.Launched? ==> c.result.argv == LaunchCommand(o, home) && c.world.running
    ensures c.result.Exited? ==> c.result.code == 1
    ensures Reconcile(a, w, !o.noAutoStart).result.Some? ==> c.result == Exited(1)
    ensures w.images <= c.world.images
  {
    var autoStart := !o.noAutoStart;
    var r := Reconcile(a, w, autoStart);
    if r.result.Some? then Step(Exited(1), r.world)
    else
      var i := ImageCheck(a, r.world, o.image, autoStart);
      if i.result.Some? then Step(i.result.value, i.world)
      else
        var c := VersionCheck(a, i.world, o.image, autoStart);
        if c.result.Some? then Step(c.result.value, c.world)
        else Step(Launched(LaunchCommand(o, home)), c.world)
  }

  /** The reconciler issues no build and leaves the tags alone. */
  lemma ReconcileBuildsNothing(a: Answers, w: World, autoStart: bool)
    ensures BuildCount(Reconcile(a, w, autoStart).world.log) == BuildCount(w.log)
  {
    ReconcileIssues(a, w, autoStart);
    var log := Reconcile(a, w, autoStart).world.log;
    if log == w.log + [StatusCommand] {
      BuildCountAppend(w.log, [StatusCommand]);
    } else {
      BuildCountAppend(w.log, [StatusCommand, StartCommand]);
    }
  }

  lemma InspectionsBuildNothing(tags: seq<string>)
    ensures BuildCount(InspectCommands(tags)) == 0
  {
    var cmds := InspectCommands(tags);
    forall k | 0 <= k < |cmds|
      ensures !IsBuildCommand(cmds[k])
    {
      assert cmds[k][1] == "images";
    }
  }

  lemma TagsBuildNothing(source: string, targets: seq<string>)
    ensures BuildCount(TagCommands(source, targets)) == 0
  {
    var cmds := TagCommands(source, targets);
    forall k | 0 <= k < |cmds|
      ensures !IsBuildCommand(cmds[k])
    {
      assert cmds[k][1] == "image";
    }
  }

  /** When the engine cannot be made to run, the body of `build` stops
      with that error before the version query: no build, no tag. */
  lemma BuildRunAborted(a: Answers, w: World, tag: string, context: string, rebuild: bool,
                        autoStart: bool)
    requires Reconcile(a, w, autoStart).result.Some?
    ensures var r := Reconcile(a, w, autoStart);
      var b := BuildRun(a, w, tag, context, rebuild, autoStart);
      b.result == Aborted(r.result.value) && b.world.images == w.images &&
      BuildCount(b.world.log) == BuildCount(w.log) && VersionCommand !in b.world.log[|w.log|..]
  {
    ReconcileBuildsNothing(a, w, autoStart);
    ReconcileIssues(a, w, autoStart);
  }

  /** The commands the body of `build` issues once the engine runs: the
      version query and one `container build` of the temporary Dockerfile
      under the tags for the repository of `tag`. */
  function BuildIssued(a: Answers, w: World, tag: string, context: string, rebuild: bool,
                       autoStart: bool): seq<Command>
  {
    var v := Version.CodexVersion(a.versionProbe);
    Reconcile(a, w, autoStart).world.log + [VersionCommand, BuildCommand(BaseRepo(tag), v, a.tmpPath, context, rebuild)]
  }

  /** A build that exits non-zero changes no tag. */
  lemma BuildRunFailed(a: Answers, w: World, tag: string, context: string, rebuild: bool,
                       autoStart: bool)
    requires Reconcile(a, w, autoStart).result.None? && a.buildExit != 0
    ensures BuildRun(a, w, tag, context, rebuild, autoStart) ==
      Step(BuildFailed, World(true, w.images, BuildIssued(a, w, tag, context, rebuild, autoStart)))
  {
  }

  /** The engine once a successful build is through, before
      `_ensure_tags`: the expected tags the build left are added. */
  function BuiltWorld(a: Answers, w: World, tag: string, context: string, rebuild: bool,
                      autoStart: bool): World
  {
    var tags := ExpectedTags(BaseRepo(tag), Version.CodexVersion(a.versionProbe));
    World(true, w.images + Elements(tags) * a.builtTags, BuildIssued(a, w, tag, context, rebuild, autoStart))
  }

  /** A successful build is followed by `_ensure_tags` on what it left. */
  lemma BuildRunBuilt(a: Answers, w: World, tag: string, context: string, rebuild: bool,
                      autoStart: bool)
    requires Reconcile(a, w, autoStart).result.None? && a.buildExit == 0
    ensures BuildRun(a, w, tag, context, rebuild, autoStart) ==
      Step(Built, TagsReconciled(BuiltWorld(a, w, tag, context, rebuild, autoStart),
                                 BaseRepo(tag), Version.CodexVersion(a.versionProbe)))
  {
    var r := Reconcile(a, w, autoStart);
    var q := QueryVersion(a, r.world);
    var repo := BaseRepo(tag);
    var issued := q.world.(log := q.world.log + [BuildCommand(repo, q.result, a.tmpPath, context, rebuild)]);
    assert issued.log == BuildIssued(a, w, tag, context, rebuild, autoStart);
  }

  /** The tags the image exists under once a successful build of `repo`
      and `_ensure_tags` are through: every expected tag when the build,
      or an earlier one, left at least one of them; otherwise the old tags.
      No tag outside the expected ones is added. */
  function ImagesAfterBuild(a: Answers, images: set<string>, repo: string, version: Option<string>): (r: set<string>)
    ensures var e := Elements(ExpectedTags(repo, version));
      && images <= r <= images + e
      && (e * (images + a.builtTags) != {} ==> r == images + e)
      && (e * (images + a.builtTags) == {} ==> r == images)
  {
    var e := Elements(ExpectedTags(repo, version));
    var made := World(true, images + e * a.builtTags, []);
    ReconciledImages(made, repo, version);
    MeetBuilt(e, images, a.builtTags);
    TagsReconciled(made, repo, version).images
  }

  /** After a successful build, `_ensure_tags` inspects each expected tag
      and copies the first existing one onto each missing one; the tags
      the image ends up with are those of `ImagesAfterBuild`. */
  lemma BuildRunSucceeded(a: Answers, w: World, tag: string, context: string, rebuild: bool,
                          autoStart: bool)
    requires Reconcile(a, w, autoStart).result.None? && a.buildExit == 0
    ensures var v := Version.CodexVersion(a.versionProbe);
      var tags := ExpectedTags(BaseRepo(tag), v);
      var made := w.images + Elements(tags) * a.builtTags;
      var b := BuildRun(a, w, tag, context, rebuild, autoStart);
      && b.result == Built && b.world.running
      && b.world.log == BuildIssued(a, w, tag, context, rebuild, autoStart) + InspectCommands(tags) +
                        TagCommands(TagSource(tags, made), TagsToAdd(tags, made))
      && b.world.images == ImagesAfterBuild(a, w.images, BaseRepo(tag), v)
  {
    BuildRunBuilt(a, w, tag, context, rebuild, autoStart);
  }

  /** When the build leaves every expected tag, or they existed already,
      `_ensure_tags` only inspects them. */
  lemma BuildSkipsTagsWhenPresent(a: Answers, w: World, tag: string, context: string, rebuild: bool,
                                  noAutoStart: bool)
    requires Reconcile(a, w, !noAutoStart).result.None? && a.buildExit == 0
    requires Elements(ExpectedTags(BaseRepo(tag), Version.CodexVersion(a.versionProbe))) <= w.images + a.builtTags
    ensures var tags := ExpectedTags(BaseRepo(tag), Version.CodexVersion(a.versionProbe));
      BuildMain(a, w, tag, context, rebuild, noAutoStart) ==
        Step(Exited(0), World(true, w.images + Elements(tags),
                              BuildIssued(a, w, tag, context, rebuild, !noAutoStart) + InspectCommands(tags)))
  {
    var repo := BaseRepo(tag);
    var v := Version.CodexVersion(a.versionProbe);
    var tags := ExpectedTags(repo, v);
    var made := w.images + Elements(tags) * a.builtTags;
    BuildRunSucceeded(a, w, tag, context, rebuild, !noAutoStart);
    AllPresent(tags, w.images, a.builtTags);
    ExpectedAreNormal(repo, v);
    NothingToTag(tags, made);
    assert TagCommands(TagSource(tags, made), []) == [];
    MeetEmpty(tags, w.images + a.builtTags);
    assert tags[|tags| - 1] in tags;
  }

  /** Every tag of `tags` is among `images` plus the ones of `tags` in `built`. */
  lemma AllPresent(tags: seq<string>, images: set<string>, built: set<string>)
    requires Elements(tags) <= images + built
    ensures forall t :: t in tags ==> t in images + Elements(tags) * built
  {
    forall t | t in tags
      ensures t in images + Elements(tags) * built
    {
      assert t in Elements(tags);
    }
  }

  /** The case of a build that leaves only `latest`, or finds only it: the
      pinned tag is copied from it by one `container image tag`. */
  lemma BuildAppliesMissingTag(a: Answers, w: World, tag: string, context: string, rebuild: bool,
                               noAutoStart: bool)
    requires Reconcile(a, w, !noAutoStart).result.None? && a.buildExit == 0
    requires Version.CodexVersion(a.versionProbe).Some?
    requires var v := Version.CodexVersion(a.versionProbe).value;
      var repo := BaseRepo(tag);
      v != "latest" && repo + ":latest" in w.images + a.builtTags && repo + ":" + v !in w.images + a.builtTags
    ensures var v := Version.CodexVersion(a.versionProbe).value;
      var pinned := BaseRepo(tag) + ":" + v;
      var latest := BaseRepo(tag) + ":latest";
      BuildMain(a, w, tag, context, rebuild, noAutoStart) ==
        Step(Exited(0), World(true, w.images + {pinned, latest},
                              BuildIssued(a, w, tag, context, rebuild, !noAutoStart) +
                              [InspectCommand(pinned), InspectCommand(latest), TagCommand(latest, pinned)]))
  {
    var v := Version.CodexVersion(a.versionProbe).value;
    var repo := BaseRepo(tag);
    var pinned := repo + ":" + v;
    var latest := repo + ":latest";
    var built := BuiltWorld(a, w, tag, context, rebuild, !noAutoStart);
    BuildRunBuilt(a, w, tag, context, rebuild, !noAutoStart);
    BuiltLatestOnly(repo, v, w.images, a.builtTags);
    TagsReconciledLatestOnly(built, repo, v);
  }

  /** The build left `latest` but not the pinned tag, or found `latest`. */
  lemma BuiltLatestOnly(repo: string, v: string, images: set<string>, built: set<string>)
    requires v != "" && repo + ":latest" in images + built && repo + ":" + v !in images + built
    ensures var made := images + Elements(ExpectedTags(repo, Some(v))) * built;
      && repo + ":latest" in made && repo + ":" + v !in made
      && made + {repo + ":" + v} == images + {repo + ":" + v, repo + ":latest"}
  {
    assert ExpectedTags(repo, Some(v)) == [repo + ":" + v, repo + ":latest"];
    assert Elements(ExpectedTags(repo, Some(v))) == {repo + ":" + v, repo + ":latest"};
  }

  /** Once the engine runs, the body of `build` issues exactly one
      `container build`, whatever the build's exit. */
  lemma BuildRunBuildsOnce(a: Answers, w: World, tag: string, context: string, rebuild: bool,
                           autoStart: bool)
    requires Reconcile(a, w, autoStart).result.None?
    ensures BuildCount(BuildRun(a, w, tag, context, rebuild, autoStart).world.log) == BuildCount(w.log) + 1
  {
    var r := Reconcile(a, w, autoStart);
    var v := Version.CodexVersion(a.versionProbe);
    var repo := BaseRepo(tag);
    var tags := ExpectedTags(repo, v);
    var cmd := BuildCommand(repo, v, a.tmpPath, context, rebuild);
    var log := BuildIssued(a, w, tag, context, rebuild, autoStart);
    ReconcileBuildsNothing(a, w, autoStart);
    assert IsBuildCommand(cmd) by {
      assert cmd[..2] == ["container", "build"];
      assert cmd[0] == cmd[..2][0] && cmd[1] == cmd[..2][1];
    }
    assert BuildCount([VersionCommand]) == 0 by {
      assert !IsBuildCommand([VersionCommand][0]);
    }
    assert BuildCount([VersionCommand, cmd]) == 1 by {
      assert [VersionCommand, cmd][..1] == [VersionCommand];
    }
    BuildCountAppend(r.world.log, [VersionCommand, cmd]);
    if a.buildExit == 0 {
      var made := w.images + Elements(tags) * a.builtTags;
      BuildRunSucceeded(a, w, tag, context, rebuild, autoStart);
      InspectionsBuildNothing(tags);
      TagsBuildNothing(TagSource(tags, made), TagsToAdd(tags, made));
      BuildCountAppend(log, InspectCommands(tags));
      BuildCountAppend(log + InspectCommands(tags), TagCommands(TagSource(tags, made), TagsToAdd(tags, made)));
    } else {
      BuildRunFailed(a, w, tag, context, rebuild, autoStart);
    }
  }

  /** The `build` command returns normally exactly when the engine runs
      and the build succeeds; it exits with status 1 when the engine cannot
      be made to run, and a failed build escapes uncaught. */
  lemma BuildMainEnds(a: Answers, w: World, tag: string, context: string, rebuild: bool,
                      noAutoStart: bool)
    ensures var e := BuildMain(a, w, tag, context, rebuild, noAutoStart).result;
      var up := Reconcile(a, w, !noAutoStart).result.None?;
      && (e == Exited(0) <==> up && a.buildExit == 0)
      && (e == Exited(1) <==> !up)
      && (e == Crashed <==> up && a.buildExit != 0)
  {
    if Reconcile(a, w, !noAutoStart).result.Some? {
      BuildRunAborted(a, w, tag, context, rebuild, !noAutoStart);
    } else if a.buildExit == 0 {
      BuildRunSucceeded(a, w, tag, context, rebuild, !noAutoStart);
    } else {
      BuildRunFailed(a, w, tag, context, rebuild, !noAutoStart);
    }
  }

  /** The rebuild `codex` performs once the version is known: a build is
      needed and the user agrees. */
  predicate WantsRebuild(a: Answers, images: set<string>, image: string) {
    match Version.CodexVersion(a.versionProbe)
    case None => false
    case Some(v) =>
      var repo := BaseRepo(image);
      NeedsBuild(InspectOk(repo + ":" + v, images), repo + ":" + v,
                 InspectOk(repo + ":latest", images), a.latestRepoTags) && a.confirmOutdated
  }

  /** The version check of `codex` against a running engine: it builds
      exactly once when a rebuild is wanted and never otherwise, and it
      lets `codex` go on unless that build failed. */
  lemma VersionCheckEffects(a: Answers, w: World, image: string, autoStart: bool)
    requires a.cliInstalled && w.running
    ensures var c := VersionCheck(a, w, image, autoStart);
      && BuildCount(c.world.log) == BuildCount(w.log) + (if WantsRebuild(a, w.images, image) then 1 else 0)
      && (c.result.None? <==> !WantsRebuild(a, w.images, image) || a.rebuildExit == 0)
      && (c.result.Some? ==> c.result == Some(Crashed))
      && c.world.running && w.images <= c.world.images
      && (!WantsRebuild(a, w.images, image) ==> c.world.images == w.images)
  {
    var q := QueryVersion(a, w);
    BuildCountAppend(w.log, [VersionCommand]);
    assert !IsBuildCommand([VersionCommand][0]);
    if q.result.Some? {
      var v := q.result.value;
      var repo := BaseRepo(image);
      var pinned := repo + ":" + v;
      var latest := repo + ":latest";
      var inspections := [InspectCommand(pinned), InspectCommand(latest)];
      var w1 := q.world.(log := q.world.log + inspections);
      InspectionsBuildNothing([pinned, latest]);
      assert InspectCommands([pinned, latest]) == inspections by {
        assert InspectCommands([pinned, latest])[0] == InspectCommand(pinned);
        assert InspectCommands([pinned, latest])[1] == InspectCommand(latest);
      }
      BuildCountAppend(q.world.log, inspections);
      if WantsRebuild(a, w.images, image) {
        var ra := Rebuilding(a);
        RunningIsNoOp(ra, w1, autoStart);
        BuildRunBuildsOnce(ra, w1, repo, ".", false, autoStart);
        if a.rebuildExit == 0 {
          BuildRunSucceeded(ra, w1, repo, ".", false, autoStart);
        } else {
          BuildRunFailed(ra, w1, repo, ".", false, autoStart);
        }
      }
    }
  }

  /** `codex` with an engine that cannot be made to run ends with status 1
      before it inspects, builds or launches anything. */
  lemma CodexEngineDown(a: Answers, w: World, o: CodexOptions, home: string)
    requires Reconcile(a, w, !o.noAutoStart).result.Some?
    ensures var c := CodexRun(a, w, o, home);
      c == Step(Exited(1), Reconcile(a, w, !o.noAutoStart).world) &&
      c.world.images == w.images && BuildCount(c.world.log) == BuildCount(w.log)
  {
    ReconcileBuildsNothing(a, w, !o.noAutoStart);
  }

  /** A missing image the user declines to build ends `codex` with status
      1 right after the inspection: no build, no version query, no launch. */
  lemma CodexImageDeclined(a: Answers, w: World, o: CodexOptions, home: string)
    requires Reconcile(a, w, !o.noAutoStart).result.None?
    requires !InspectOk(o.image, w.images) && !a.confirmMissing
    ensures var c := CodexRun(a, w, o, home);
      c == Step(Exited(1), Reconcile(a, w, !o.noAutoStart).world.(
                 log := Reconcile(a, w, !o.noAutoStart).world.log + [InspectCommand(o.image)])) &&
      BuildCount(c.world.log) == BuildCount(w.log)
  {
    var r := Reconcile(a, w, !o.noAutoStart);
    ReconcileBuildsNothing(a, w, !o.noAutoStart);
    BuildCountAppend(r.world.log, [InspectCommand(o.image)]);
    assert !IsBuildCommand([InspectCommand(o.image)][0]);
  }

  /** With the image present, `codex` builds exactly when the version is
      known, a build is needed and the user agrees, and launches the image
      it was given unless that build failed. Declining the rebuild still
      launches. */
  lemma CodexImagePresent(a: Answers, w: World, o: CodexOptions, home: string)
    requires Reconcile(a, w, !o.noAutoStart).result.None?
    requires InspectOk(o.image, w.images)
    ensures var c := CodexRun(a, w, o, home);
      && BuildCount(c.world.log) == BuildCount(w.log) + (if WantsRebuild(a, w.images, o.image) then 1 else 0)
      && (c.result == Launched(LaunchCommand(o, home)) <==> !WantsRebuild(a, w.images, o.image) || a.rebuildExit == 0)
      && (c.result != Launched(LaunchCommand(o, home)) ==> c.result == Crashed)
  {
    var autoStart := !o.noAutoStart;
    var r := Reconcile(a, w, autoStart);
    ReconcileBuildsNothing(a, w, autoStart);
    var w1 := r.world.(log := r.world.log + [InspectCommand(o.image)]);
    BuildCountAppend(r.world.log, [InspectCommand(o.image)]);
    assert !IsBuildCommand([InspectCommand(o.image)][0]);
    assert ImageCheck(a, r.world, o.image, autoStart) == Step(None, w1);
    VersionCheckEffects(a, w1, o.image, autoStart);
  }

  /** A missing image the user agrees to build, whose build fails, ends
      `codex` uncaught after that one build, with no tag added. */
  lemma CodexImageBuildFailed(a: Answers, w: World, o: CodexOptions, home: string)
    requires Reconcile(a, w, !o.noAutoStart).result.None?
    requires !InspectOk(o.image, w.images) && a.confirmMissing && a.buildExit != 0
    ensures var c := CodexRun(a, w, o, home);
      c.result == Crashed && c.world.images == w.images && BuildCount(c.world.log) == BuildCount(w.log) + 1
  {
    var autoStart := !o.noAutoStart;
    var r := Reconcile(a, w, autoStart);
    ReconcileBuildsNothing(a, w, autoStart);
    var w1 := r.world.(log := r.world.log + [InspectCommand(o.image)]);
    BuildCountAppend(r.world.log, [InspectCommand(o.image)]);
    assert !IsBuildCommand([InspectCommand(o.image)][0]);
    RunningIsNoOp(a, w1, autoStart);
    BuildRunBuildsOnce(a, w1, o.image, ".", false, autoStart);
    BuildRunFailed(a, w1, o.image, ".", false, autoStart);
  }

  /** A missing image the user agrees to build, whose build succeeds, gets
      the tags of its repository that the build and `_ensure_tags` give it,
      and the version check then runs against them: `codex` launches unless
      it wants a second build and that build fails, which escapes uncaught. */
  lemma CodexImageBuilt(a: Answers, w: World, o: CodexOptions, home: string)
    requires Reconcile(a, w, !o.noAutoStart).result.None?
    requires !InspectOk(o.image, w.images) && a.confirmMissing && a.buildExit == 0
    ensures var c := CodexRun(a, w, o, home);
      var images := ImagesAfterBuild(a, w.images, BaseRepo(o.image), Version.CodexVersion(a.versionProbe));
      && images <= c.world.images
      && BuildCount(c.world.log) == BuildCount(w.log) + 1 + (if WantsRebuild(a, images, o.image) then 1 else 0)
      && (!WantsRebuild(a, images, o.image) ==> c.world.images == images)
      && (c.result == Launched(LaunchCommand(o, home)) <==> !WantsRebuild(a, images, o.image) || a.rebuildExit == 0)
      && (c.result != Launched(LaunchCommand(o, home)) ==> c.result == Crashed)
  {
    var autoStart := !o.noAutoStart;
    var r := Reconcile(a, w, autoStart);
    ReconcileBuildsNothing(a, w, autoStart);
    var w1 := r.world.(log := r.world.log + [InspectCommand(o.image)]);
    BuildCountAppend(r.world.log, [InspectCommand(o.image)]);
    assert !IsBuildCommand([InspectCommand(o.image)][0]);
    RunningIsNoOp(a, w1, autoStart);
    BuildRunBuildsOnce(a, w1, o.image, ".", false, autoStart);
    BuildRunSucceeded(a, w1, o.image, ".", false, autoStart);
    var b := BuildRun(a, w1, o.image, ".", false, autoStart);
    assert ImageCheck(a, r.world, o.image, autoStart) == Step(None, b.world);
    VersionCheckEffects(a, b.world, o.image, autoStart);
  }

  /** When every tag of an untagged image exists but the latest image's
      tags do not list the pinned one, the user is asked, the image is
      rebuilt once, and `codex` launches. */
  lemma LatestOutdatedRebuildsOnce(a: Answers, w: World, o: CodexOptions, home: string)
    requires Reconcile(a, w, !o.noAutoStart).result.None?
    requires ':' !in o.image && o.image + ":latest" in w.images
    requires Version.CodexVersion(a.versionProbe).Some?
    requires var v := Version.CodexVersion(a.versionProbe).value;
      v != "" && o.image + ":" + v in w.images && a.latestRepoTags.Some? && o.image + ":" + v !in a.latestRepoTags.value
    requires a.confirmOutdated && a.rebuildExit == 0
    ensures var c := CodexRun(a, w, o, home);
      c.result == Launched(LaunchCommand(o, home)) && BuildCount(c.world.log) == BuildCount(w.log) + 1
  {
    var v := Version.CodexVersion(a.versionProbe).value;
    assert BaseRepo(o.image) == o.image;
    TaggedIsNormal(o.image, v);
    assert Normalize(o.image) == o.image + ":latest";
    assert WantsRebuild(a, w.images, o.image);
    CodexImagePresent(a, w, o, home);
  }

  /** When no image exists, the user agrees to every prompt and the
      latest image's tags cannot be read, the image is built, the version
      check then finds no tags on the latest image and has it built a
      second time, and `codex` launches. */
  lemma UnreadableTagsBuildTwice(a: Answers, w: World, o: CodexOptions, home: string)
    requires Reconcile(a, w, !o.noAutoStart).result.None?
    requires !InspectOk(o.image, w.images) && Version.CodexVersion(a.versionProbe).Some?
    requires a.latestRepoTags == None
    requires a.confirmMissing && a.confirmOutdated && a.buildExit == 0 && a.rebuildExit == 0
    ensures var c := CodexRun(a, w, o, home);
      c.result == Launched(LaunchCommand(o, home)) && BuildCount(c.world.log) == BuildCount(w.log) + 2
  {
    var images := ImagesAfterBuild(a, w.images, BaseRepo(o.image), Version.CodexVersion(a.versionProbe));
    assert WantsRebuild(a, images, o.image);
    CodexImageBuilt(a, w, o, home);
  }

  /** An image named with its own tag, `repo:tag`, that is missing and
      that the user agrees to build is built only as the current version
      and `latest` of `repo`. When the build leaves one of those and the
      latest image's tags list that version, no second build follows, and
      `codex` launches `repo:tag`, which still does not exist unless the
      tag is the version or `latest`. */
  lemma TaggedImageStaysMissing(a: Answers, w: World, o: CodexOptions, home: string, repo: string, tag: string)
    requires Reconcile(a, w, !o.noAutoStart).result.None?
    requires ':' !in repo && o.image == repo + ":" + tag && o.image !in w.images
    requires a.confirmMissing && a.buildExit == 0
    requires Version.CodexVersion(a.versionProbe).Some?
    requires var v := Version.CodexVersion(a.versionProbe).value;
      && tag != v && tag != "latest" && a.latestRepoTags.Some? && repo + ":" + v in a.latestRepoTags.value
      && (repo + ":" + v in a.builtTags || repo + ":latest" in a.builtTags)
    ensures var c := CodexRun(a, w, o, home);
      var v := Version.CodexVersion(a.versionProbe).value;
      && c.result == Launched(LaunchCommand(o, home)) && LaunchCommand(o, home)[12] == o.image
      && c.world.images == w.images + {repo + ":" + v, repo + ":latest"}
      && !InspectOk(o.image, c.world.images) && BuildCount(c.world.log) == BuildCount(w.log) + 1
  {
    var v := Version.CodexVersion(a.versionProbe).value;
    BaseRepoOfTagged(repo, tag);
    TaggedIsNormal(repo, tag);
    TaggedIsNormal(repo, v);
    TaggedIsNormal(repo, "latest");
    TaggedDistinct(repo, tag, v);
    TaggedDistinct(repo, tag, "latest");
    assert repo + ":" + "latest" == repo + ":latest";
    var tags := ExpectedTags(repo, Some(v));
    assert Pinned(Some(v)) && tags == [repo + ":" + v, repo + ":latest"];
    assert Elements(tags) == {repo + ":" + v, repo + ":latest"};
    assert Elements(tags) * (w.images + a.builtTags) != {} by {
      if repo + ":" + v in a.builtTags {
        assert repo + ":" + v in Elements(tags) * (w.images + a.builtTags);
      } else {
        assert repo + ":latest" in Elements(tags) * (w.images + a.builtTags);
      }
    }
    var images := ImagesAfterBuild(a, w.images, repo, Some(v));
    assert images == w.images + {repo + ":" + v, repo + ":latest"};
    assert !InspectOk(o.image, images);
    assert InspectOk(repo + ":" + v, images) && InspectOk(repo + ":latest", images);
    assert !WantsRebuild(a, images, o.image);
    CodexImageBuilt(a, w, o, home);
  }
}
