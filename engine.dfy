/**
 * The engine reconciler (`ensure_container_running`) and the state every
 * step of petrel acts on.
 *
 * Nothing external is run: what the host would answer is an `Answers`
 * value, and what petrel changes or leaves behind (whether the engine
 * runs, which image tags exist, every command it issued) is a `World`.
 * Each step is a function from a world to a `Step`: its result together
 * with the world it leaves.
 */
module Engine {
  import opened Wrappers
  import opened Commands
  import Version

  /** What the host answers during one invocation of petrel. */
  datatype Answers = Answers(
    cliInstalled: bool,                     // the `container` program can be executed
    startExit: int,                         // exit status of `container system start`
    versionProbe: Version.Probe,            // result of `codex --version`
    buildExit: int,                         // exit status of `container build` for `build`, or for a missing image
    rebuildExit: int,                       // exit status of the `container build` for an outdated image
    builtTags: set<string>,                 // tags an image exists under after a successful build, besides the old ones
    tmpPath: string,                        // name of the temporary Dockerfile
    latestRepoTags: Option<seq<string>>,    // `RepoTags` parsed from inspecting `<repo>:latest`; None if unparseable
    confirmMissing: bool,                   // answer to "image not found. Build it now?"
    confirmOutdated: bool)                  // answer to "image is outdated. Build it now?"

  /** The engine as petrel sees it, and the log of commands issued to it. */
  datatype World = World(running: bool, images: set<string>, log: seq<Command>)

  datatype Step<+R> = Step(result: R, world: World)

  /** The three ways `ensure_container_running` raises `ContainerError`. */
  datatype EngineError = CliNotFound | NotRunning | StartFailed

  const CliMissingText := "The 'container' CLI was not found"
  const StartHint := "Start it with: container system start"

  /** The text of each `ContainerError`, in full: the missing CLI is named,
      a stopped engine comes with the command that starts it, and a failed
      start says so. The `Contains` clauses follow from the full texts; they
      are the substring checks tests/test_main.py:75, 104-107 and 146 make. */
  function Message(e: EngineError): (m: string)
    ensures e == CliNotFound ==>
      m == CliMissingText + ". Ensure you are running macOS with the new Apple container subsystem."
    ensures e == NotRunning ==> m == "Apple container subsystem is not running. " + StartHint
    ensures e == StartFailed ==> m == "Failed to start the Apple container subsystem."
    ensures e == CliNotFound ==> Contains(m, CliMissingText)
    ensures e == NotRunning ==> Contains(m, StartHint)
    ensures e == StartFailed ==> Contains(m, "Failed to start")
  {
    match e
    case CliNotFound =>
      var text := CliMissingText + ". Ensure you are running macOS with the new Apple container subsystem.";
      assert text[0..] == text;
      text
    case NotRunning =>
      var lead := "Apple container subsystem is not running. ";
      assert (lead + StartHint)[|lead|..] == StartHint;
      lead + StartHint
    case StartFailed =>
      var text := "Failed to start the Apple container subsystem.";
      assert text[0..] == text;
      text
  }

  predicate Contains(s: string, t: string) {
    exists i :: 0 <= i <= |s| && t <= s[i..]
  }

  /** `ensure_container_running`: query the status; a zero exit means
      running. Otherwise fail, or issue a single start when `autoStart`. */
  function Reconcile(a: Answers, w: World, autoStart: bool): (s: Step<Option<EngineError>>)
    ensures s.world.images == w.images
    ensures s.result.None? ==> s.world.running
  {
    var queried := w.(log := w.log + [StatusCommand]);
    if !a.cliInstalled then Step(Some(CliNotFound), queried)
    else if w.running then Step(None, queried)
    else if !autoStart then Step(Some(NotRunning), queried)
    else
      var started := queried.(log := queried.log + [StartCommand]);
      if a.startExit != 0 then Step(Some(StartFailed), started)
      else Step(None, started.(running := true))
  }

  /** `get_codex_version` as a step: one `codex --version`, nothing else changes. */
  function QueryVersion(a: Answers, w: World): (q: Step<Option<string>>)
    ensures q.world.running == w.running && q.world.images == w.images
    ensures q.world.log == w.log + [VersionCommand]
    ensures q.result == Version.CodexVersion(a.versionProbe)
    ensures q.result.Some? ==> Version.IsVersion(q.result.value) && |q.result.value| >= 5
  {
    Step(Version.CodexVersion(a.versionProbe), w.(log := w.log + [VersionCommand]))
  }

  /** An engine that answers the status query with exit 0 is left alone,
      whether or not auto-start is on. */
  lemma RunningIsNoOp(a: Answers, w: World, autoStart: bool)
    requires a.cliInstalled && w.running
    ensures Reconcile(a, w, autoStart) == Step(None, w.(log := w.log + [StatusCommand]))
  {
  }

  /** A missing `container` program is reported, after the one status
      query that found it missing. */
  lemma MissingCliIsReported(a: Answers, w: World, autoStart: bool)
    requires !a.cliInstalled
    ensures var s := Reconcile(a, w, autoStart);
      s.result == Some(CliNotFound) && s.world == w.(log := w.log + [StatusCommand])
  {
  }

  /** A stopped engine without auto-start is an error that tells the user
      the command to start it, and no start is issued. */
  lemma StoppedWithoutAutoStart(a: Answers, w: World)
    requires a.cliInstalled && !w.running
    ensures var s := Reconcile(a, w, false);
      s.result == Some(NotRunning) && s.world == w.(log := w.log + [StatusCommand])
  {
  }

  /** A stopped engine with auto-start gets exactly one start attempt; it
      runs afterwards exactly when the start exits 0, and a failed start is
      reported as such. */
  lemma StoppedWithAutoStart(a: Answers, w: World)
    requires a.cliInstalled && !w.running
    ensures var s := Reconcile(a, w, true);
      && s.world.log == w.log + [StatusCommand, StartCommand]
      && (s.result.None? <==> a.startExit == 0)
      && s.world.running == (a.startExit == 0)
      && (s.result.Some? ==> s.result == Some(StartFailed))
  {
  }

  /** Whatever happens, the reconciler issues the status query first and
      issues `container system start` at most once, after it. */
  lemma ReconcileIssues(a: Answers, w: World, autoStart: bool)
    ensures var s := Reconcile(a, w, autoStart);
      s.world.log == w.log + [StatusCommand] ||
      s.world.log == w.log + [StatusCommand, StartCommand]
    ensures var s := Reconcile(a, w, autoStart);
      StartCommand in s.world.log[|w.log|..] <==> a.cliInstalled && !w.running && autoStart
  {
  }

  /** Once the reconciler has succeeded, a second reconciliation succeeds
      without a start: `build`, called from `codex`, checks again. */
  lemma ReconcileTwice(a: Answers, w: World, autoStart: bool)
    requires Reconcile(a, w, autoStart).result.None?
    ensures var w1 := Reconcile(a, w, autoStart).world;
      Reconcile(a, w1, autoStart) == Step(None, w1.(log := w1.log + [StatusCommand]))
  {
  }
}
