/**
 * The commands as petrel runs them, step by step, against a host whose
 * engine state and temporary Dockerfile live in mutable fields. Every
 * method is tied to the step function that specifies it: the result and
 * the new state are what that function gives for the old state.
 */
module Cli {
  import opened Wrappers
  import opened Commands
  import opened Engine
  import opened Images
  import opened Session
  import Version

  /** `insert(2, "--no-cache")` on the list `build` grows with `extend`
      yields the build command. */
  lemma BuildCommandAssembled(repo: string, version: Option<string>, file: string, context: string,
                              rebuild: bool)
    ensures var pinned := if Pinned(version) then ["--tag", repo + ":" + version.value] else [];
      var grown := ["container", "build"] + pinned + ["--tag", repo + ":latest", "--file", file, context];
      (if rebuild then grown[..2] + ["--no-cache"] + grown[2..] else grown) ==
        BuildCommand(repo, version, file, context, rebuild)
  {
    var latest := repo + ":latest";
    var pinned := if Pinned(version) then ["--tag", repo + ":" + version.value] else [];
    var grown := ["container", "build"] + pinned + ["--tag", latest, "--file", file, context];
    var tags := ExpectedTags(repo, version);
    assert TagArgs([latest]) == ["--tag", latest];
    if Pinned(version) {
      assert tags == [repo + ":" + version.value, latest] && tags[1..] == [latest];
      assert TagArgs(tags) == pinned + ["--tag", latest];
    } else {
      assert tags == [latest];
    }
    assert grown[..2] == ["container", "build"];
    assert grown[2..] == TagArgs(tags) + ["--file", file, context];
  }

  /** The list `build` grows with `extend`, with `--no-cache` inserted at
      index 2 when rebuilding. */
  method AssembleBuildCommand(repo: string, version: Option<string>, file: string, context: string,
                              rebuild: bool) returns (cmd: Command)
    ensures cmd == BuildCommand(repo, version, file, context, rebuild)
  {
    cmd := ["container", "build"];
    if Pinned(version) {
      cmd := cmd + ["--tag", repo + ":" + version.value];
    }
    cmd := cmd + ["--tag", repo + ":latest", "--file", file, context];
    if rebuild {
      cmd := cmd[..2] + ["--no-cache"] + cmd[2..];
    }
    BuildCommandAssembled(repo, version, file, context, rebuild);
  }

  class Host {
    const answers: Answers   // what the host answers during this invocation
    var running: bool        // the container subsystem runs
    var images: set<string>  // the image tags the engine knows
    var log: seq<Command>    // every command issued, in order
    var tmpExists: bool      // the temporary Dockerfile of `build` exists

    function State(): World
      reads this
    {
      World(running, images, log)
    }

    constructor(a: Answers, w: World)
      ensures answers == a && State() == w && !tmpExists
    {
      answers := a;
      running, images, log := w.running, w.images, w.log;
      tmpExists := false;
    }

    /** `ensure_container_running`. */
    method EnsureContainerRunning(autoStart: bool) returns (err: Option<EngineError>)
      modifies this
      ensures Step(err, State()) == Reconcile(answers, old(State()), autoStart)
      ensures tmpExists == old(tmpExists)
    {
      log := log + [StatusCommand];
      if !answers.cliInstalled {
        return Some(CliNotFound);
      }
      if running {
        return None;
      }
      if !autoStart {
        return Some(NotRunning);
      }
      log := log + [StartCommand];
      if answers.startExit != 0 {
        return Some(StartFailed);
      }
      running := true;
      return None;
    }

    /** `get_codex_version`. */
    method GetCodexVersion() returns (version: Option<string>)
      modifies this
      ensures Step(version, State()) == QueryVersion(answers, old(State()))
      ensures tmpExists == old(tmpExists)
    {
      log := log + [VersionCommand];
      version := Version.CodexVersion(answers.versionProbe);
    }

    /** `container images inspect reference`, reporting a zero exit. */
    method Inspect(reference: string) returns (found: bool)
      modifies this
      ensures found == InspectOk(reference, old(images))
      ensures State() == old(State()).(log := old(log) + [InspectCommand(reference)])
      ensures tmpExists == old(tmpExists)
    {
      log := log + [InspectCommand(reference)];
      found := InspectOk(reference, images);
    }

    /** `container image tag source target`. */
    method Tag(source: string, target: string)
      modifies this
      ensures State() == old(State()).(images := old(images) + {target},
                                      log := old(log) + [TagCommand(source, target)])
      ensures tmpExists == old(tmpExists)
    {
      log := log + [TagCommand(source, target)];
      images := images + {target};
    }

    /** The first loop of `_ensure_tags`: inspect each tag in order and
        collect those that exist. */
    method InspectAll(expected: seq<string>) returns (existing: seq<string>)
      modifies this
      ensures existing == Present(expected, old(images))
      ensures State() == old(State()).(log := old(log) + InspectCommands(expected))
      ensures tmpExists == old(tmpExists)
    {
      existing := [];
      var i := 0;
      assert expected[..0] == [];
      while i < |expected|
        invariant 0 <= i <= |expected|
        invariant existing == Present(expected[..i], old(images))
        invariant running == old(running) && images == old(images)
        invariant log == old(log) + InspectCommands(expected[..i])
        invariant tmpExists == old(tmpExists)
      {
        InspectStep(expected, i, old(images));
        var found := Inspect(expected[i]);
        if found {
          existing := existing + [expected[i]];
        }
        i := i + 1;
      }
      assert expected[..i] == expected;
    }

    /** The second loop of `_ensure_tags`: tag each expected tag that is
        not among the existing ones from `source`. */
    method TagAllMissing(source: string, expected: seq<string>, existing: seq<string>)
      modifies this
      ensures var added := Missing(expected, existing);
        State() == old(State()).(images := old(images) + Elements(added),
                                 log := old(log) + TagCommands(source, added))
      ensures tmpExists == old(tmpExists)
    {
      var j := 0;
      assert expected[..0] == [];
      while j < |expected|
        invariant 0 <= j <= |expected|
        invariant State() == TagsApplied(old(State()), source, Missing(expected[..j], existing))
        invariant tmpExists == old(tmpExists)
      {
        ghost var added := Missing(expected[..j], existing);
        var target := expected[j];
        MissingStep(expected, j, existing);
        if target !in existing {
          TagsAppliedSnoc(old(State()), source, added, target);
          Tag(source, target);
        }
        j := j + 1;
      }
      assert expected[..j] == expected;
    }

    /** `_ensure_tags`: inspect each expected tag, then tag every missing
        one from the first that exists. */
    method EnsureTags(repo: string, version: Option<string>)
      modifies this
      ensures State() == TagsReconciled(old(State()), repo, version)
      ensures tmpExists == old(tmpExists)
    {
      var expected := [repo + ":latest"];
      if Pinned(version) {
        expected := [repo + ":" + version.value] + expected;
      }
      assert expected == ExpectedTags(repo, version);
      ghost var w0 := State();
      var existing := InspectAll(expected);
      ghost var w1 := w0.(log := w0.log + InspectCommands(expected));
      assert State() == w1;
      if existing != [] {
        TagAllMissing(existing[0], expected, existing);
        assert State() == TagsApplied(w1, existing[0], Missing(expected, existing));
      } else {
        assert TagsApplied(w1, "", []) == w1 by {
          assert Elements([]) == {};
        }
      }
    }

    /** The body of `build`, whose `container build` exits with `exit`: the
        temporary Dockerfile exists from after the version query until the
        end, whether or not the build succeeds. */
    method Build(tag: string, context: string, rebuild: bool, autoStart: bool, exit: int)
      returns (outcome: BuildOutcome)
      modifies this
      ensures Step(outcome, State()) ==
        BuildRun(answers.(buildExit := exit), old(State()), tag, context, rebuild, autoStart)
      ensures outcome.Aborted? ==> tmpExists == old(tmpExists)
      ensures !outcome.Aborted? ==> !tmpExists
    {
      ghost var w0 := State();
      ghost var a := answers.(buildExit := exit);
      assert Reconcile(a, w0, autoStart) == Reconcile(answers, w0, autoStart);
      var err := EnsureContainerRunning(autoStart);
      if err.Some? {
        return Aborted(err.value);
      }
      var version := GetCodexVersion();
      ghost var q := QueryVersion(answers, Reconcile(answers, w0, autoStart).world);
      assert q == QueryVersion(a, Reconcile(a, w0, autoStart).world);
      assert State() == q.world && version == q.result;
      tmpExists := true;
      var repo := BaseRepo(tag);
      var cmd := AssembleBuildCommand(repo, version, answers.tmpPath, context, rebuild);
      log := log + [cmd];
      ghost var issued := q.world.(log := q.world.log + [BuildCommand(repo, q.result, answers.tmpPath, context, rebuild)]);
      assert State() == issued;
      if exit != 0 {
        tmpExists := false;
        return BuildFailed;
      }
      images := images + Elements(ExpectedTags(repo, version)) * answers.builtTags;
      assert State() == issued.(images := issued.images + Elements(ExpectedTags(repo, q.result)) * answers.builtTags);
      EnsureTags(repo, version);
      tmpExists := false;
      return Built;
    }

    /** The `build` command. */
    method BuildCommandMain(tag: string, context: string, rebuild: bool, noAutoStart: bool)
      returns (ending: Ending)
      modifies this
      ensures Step(ending, State()) == BuildMain(answers, old(State()), tag, context, rebuild, noAutoStart)
      ensures tmpExists ==> old(tmpExists)
    {
      var outcome := Build(tag, context, rebuild, !noAutoStart, answers.buildExit);
      assert answers.(buildExit := answers.buildExit) == answers;
      ending := BuildEnding(outcome);
    }

    /** The image check of `codex`. */
    method EnsureImage(image: string, autoStart: bool) returns (stop: Option<Ending>)
      modifies this
      ensures Step(stop, State()) == ImageCheck(answers, old(State()), image, autoStart)
      ensures tmpExists ==> old(tmpExists)
    {
      var found := Inspect(image);
      if found {
        return None;
      }
      if !answers.confirmMissing {
        return Some(Exited(1));
      }
      var outcome := Build(image, ".", false, autoStart, answers.buildExit);
      assert answers.(buildExit := answers.buildExit) == answers;
      stop := AfterBuild(outcome);
    }

    /** The version check of `codex`. */
    method RefreshImage(image: string, autoStart: bool) returns (stop: Option<Ending>)
      modifies this
      ensures Step(stop, State()) == VersionCheck(answers, old(State()), image, autoStart)
      ensures tmpExists ==> old(tmpExists)
    {
      ghost var w0 := State();
      var version := GetCodexVersion();
      if version.None? {
        return None;
      }
      var repo := BaseRepo(image);
      var pinned := repo + ":" + version.value;
      var pinnedFound := Inspect(pinned);
      var latestFound := Inspect(repo + ":latest");
      ghost var w1 := w0.(log := w0.log + [VersionCommand] + [InspectCommand(pinned), InspectCommand(repo + ":latest")]);
      assert State() == w1;
      assert pinnedFound == InspectOk(pinned, w0.images) && latestFound == InspectOk(repo + ":latest", w0.images);
      var needed := NeedsBuild(pinnedFound, pinned, latestFound, answers.latestRepoTags);
      if needed && answers.confirmOutdated {
        var outcome := Build(repo, ".", false, autoStart, answers.rebuildExit);
        return AfterBuild(outcome);
      }
      return None;
    }

    /** The `codex` command: on success, the command it would replace
        itself with. */
    method Codex(o: CodexOptions, home: string) returns (ending: Ending)
      modifies this
      ensures Step(ending, State()) == CodexRun(answers, old(State()), o, home)
      ensures tmpExists ==> old(tmpExists)
    {
      var autoStart := !o.noAutoStart;
      ghost var w0 := State();
      var err := EnsureContainerRunning(autoStart);
      if err.Some? {
        return Exited(1);
      }
      ghost var r := Reconcile(answers, w0, autoStart);
      var stop := EnsureImage(o.image, autoStart);
      if stop.Some? {
        return stop.value;
      }
      ghost var i := ImageCheck(answers, r.world, o.image, autoStart);
      assert State() == i.world;
      stop := RefreshImage(o.image, autoStart);
      if stop.Some? {
        return stop.value;
      }
      var argv: Command := [
        "container", "run", "--name", o.name, "--rm", "-it",
        "-v", o.repoDir + ":/home/linuxbrew/repo",
        "--mount", MountSpec(o.persistentDir, o.destDir),
        "--mount", MountSpec(UvCacheDir(home), "/home/linuxbrew/.uv_cache"),
        o.image];
      ghost var prefix := argv;
      if o.shell {
        argv := argv + ["/bin/bash"];
      } else {
        argv := argv + [o.codexPath] + o.extra;
        assert argv == prefix + ([o.codexPath] + o.extra);
      }
      ghost var entry := if o.shell then ["/bin/bash"] else [o.codexPath] + o.extra;
      assert argv == prefix + entry;
      assert argv == LaunchCommand(o, home);
      return Launched(argv);
    }
  }
}
