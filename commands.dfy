/**
 * The argument lists petrel hands to the `container` and `codex`
 * programs, with the two it assembles piece by piece: the command of
 * `build` and the command of `codex` that replaces the process.
 *
 * Each assembled list is paired with a parser that reads it the way the
 * receiving CLI reads options (`--tag VALUE`, a flag such as `--rm`, then
 * operands), and a round-trip lemma says what the list means to it.
 */
module Commands {
  import opened Wrappers

  type Command = seq<string>

  const StatusCommand: Command := ["container", "system", "status"]
  const StartCommand: Command := ["container", "system", "start"]
  const VersionCommand: Command := ["codex", "--version"]

  function InspectCommand(reference: string): Command {
    ["container", "images", "inspect", reference]
  }

  function TagCommand(source: string, target: string): Command {
    ["container", "image", "tag", source, target]
  }

  predicate IsBuildCommand(c: Command) {
    |c| >= 2 && c[0] == "container" && c[1] == "build"
  }

  /** The number of `container build` commands in `cmds`. */
  function BuildCount(cmds: seq<Command>): (n: nat)
    ensures n <= |cmds|
    ensures n == 0 <==> forall k :: 0 <= k < |cmds| ==> !IsBuildCommand(cmds[k])
    decreases |cmds|
  {
    if cmds == [] then 0
    else BuildCount(cmds[..|cmds| - 1]) + (if IsBuildCommand(cmds[|cmds| - 1]) then 1 else 0)
  }

  /** Counting builds distributes over concatenation of logs. */
  lemma {:induction false} BuildCountAppend(xs: seq<Command>, ys: seq<Command>)
    ensures BuildCount(xs + ys) == BuildCount(xs) + BuildCount(ys)
    decreases |ys|
  {
    if ys == [] {
      assert xs + ys == xs;
    } else {
      var init := ys[..|ys| - 1];
      BuildCountAppend(xs, init);
      assert (xs + ys)[..|xs + ys| - 1] == xs + init;
    }
  }

  /** `tag.split(":", maxsplit=1)[0]`: the text before the first colon. */
  function BaseRepo(tag: string): (r: string)
    ensures ':' !in r
    ensures |r| <= |tag| && r == tag[..|r|]
    ensures |r| == |tag| || tag[|r|] == ':'
  {
    if tag == [] || tag[0] == ':' then [] else [tag[0]] + BaseRepo(tag[1..])
  }

  /** The repository of `repo:tag` is `repo`. */
  lemma {:induction false} BaseRepoOfTagged(repo: string, tag: string)
    requires ':' !in repo
    ensures BaseRepo(repo + ":" + tag) == repo
  {
    var t := repo + ":" + tag;
    if repo == [] {
      assert t[0] == ':';
    } else {
      assert t[0] == repo[0] && t[1..] == repo[1..] + ":" + tag;
      BaseRepoOfTagged(repo[1..], tag);
      assert [repo[0]] + repo[1..] == repo;
    }
  }

  /** Python's truth value of the version: present and not empty. */
  predicate Pinned(version: Option<string>) {
    version.Some? && version.value != ""
  }

  /** The tags an image of `repo` should carry: the pinned one first when
      there is a version, then `latest`. */
  function ExpectedTags(repo: string, version: Option<string>): (r: seq<string>)
    ensures |r| == if Pinned(version) then 2 else 1
    ensures r[|r| - 1] == repo + ":latest"
    ensures Pinned(version) ==> r[0] == repo + ":" + version.value
  {
    (if Pinned(version) then [repo + ":" + version.value] else []) + [repo + ":latest"]
  }

  /** `--tag t` for each tag, in order. */
  function TagArgs(tags: seq<string>): seq<string> {
    if tags == [] then [] else ["--tag", tags[0]] + TagArgs(tags[1..])
  }

  /** The `container build` command: `--no-cache` when rebuilding, one
      `--tag` per expected tag, the rendered file and the context. */
  function BuildCommand(repo: string, version: Option<string>, file: string, context: string, rebuild: bool): (cmd: Command)
    ensures |cmd| > 2 && cmd[..2] == ["container", "build"]
    ensures rebuild <==> cmd[2] == "--no-cache"
    ensures var k := if rebuild then 3 else 2;
      if Pinned(version) then
        |cmd| == k + 7 &&
        cmd[k..k + 4] == ["--tag", repo + ":" + version.value, "--tag", repo + ":latest"]
      else
        |cmd| == k + 5 && cmd[k..k + 2] == ["--tag", repo + ":latest"]
    ensures cmd[|cmd| - 3..] == ["--file", file, context]
  {
    var tags := ExpectedTags(repo, version);
    var latest := repo + ":latest";
    assert TagArgs([latest]) == ["--tag", latest];
    assert !Pinned(version) ==> tags == [latest];
    assert Pinned(version) ==> tags == [tags[0], latest] && tags[1..] == [latest];
    ["container", "build"] + (if rebuild then ["--no-cache"] else [])
      + TagArgs(tags) + ["--file", file, context]
  }

  /** What `container build` reads from its arguments. */
  datatype BuildRequest = BuildRequest(noCache: bool, tags: seq<string>, file: Option<string>, operands: seq<string>)

  predicate IsBuildOption(a: string) {
    a == "--no-cache" || a == "--tag" || a == "--file"
  }

  /** Reads `--no-cache`, `--tag VALUE` and `--file VALUE`; anything else
      is an operand. An option missing its value fails. */
  function ParseBuildArgs(args: seq<string>): Option<BuildRequest>
    decreases |args|
  {
    if args == [] then Some(BuildRequest(false, [], None, []))
    else if args[0] == "--no-cache" then
      match ParseBuildArgs(args[1..])
      case None => None
      case Some(q) => Some(q.(noCache := true))
    else if args[0] == "--tag" || args[0] == "--file" then
      if |args| < 2 then None
      else
        match ParseBuildArgs(args[2..])
        case None => None
        case Some(q) =>
          if args[0] == "--tag" then Some(q.(tags := [args[1]] + q.tags))
          else Some(q.(file := Some(args[1])))
    else
      match ParseBuildArgs(args[1..])
      case None => None
      case Some(q) => Some(q.(operands := [args[0]] + q.operands))
  }

  /** Prepends `f` to the request `r` parsed from the remaining arguments. */
  function WithBuildArg(f: string, v: string, r: Option<BuildRequest>): Option<BuildRequest> {
    match r
    case None => None
    case Some(q) =>
      if f == "--no-cache" then Some(q.(noCache := true))
      else if f == "--tag" then Some(q.(tags := [v] + q.tags))
      else if f == "--file" then Some(q.(file := Some(v)))
      else Some(q.(operands := [f] + q.operands))
  }

  lemma ParseBuildOne(a: string, rest: seq<string>)
    requires a != "--tag" && a != "--file"
    ensures ParseBuildArgs([a] + rest) == WithBuildArg(a, "", ParseBuildArgs(rest))
  {
    var args := [a] + rest;
    assert args[0] == a && args[1..] == rest;
  }

  lemma ParseBuildTwo(a: string, v: string, rest: seq<string>)
    requires a == "--tag" || a == "--file"
    ensures ParseBuildArgs([a, v] + rest) == WithBuildArg(a, v, ParseBuildArgs(rest))
  {
    var args := [a, v] + rest;
    assert args[0] == a && args[1] == v && args[2..] == rest;
  }

  lemma {:induction false} TagArgsParse(tags: seq<string>, rest: seq<string>)
    ensures ParseBuildArgs(TagArgs(tags) + rest) ==
      match ParseBuildArgs(rest)
      case None => None
      case Some(q) => Some(q.(tags := tags + q.tags))
  {
    if tags != [] {
      assert TagArgs(tags) + rest == ["--tag", tags[0]] + (TagArgs(tags[1..]) + rest);
      ParseBuildTwo("--tag", tags[0], TagArgs(tags[1..]) + rest);
      TagArgsParse(tags[1..], rest);
      match ParseBuildArgs(rest)
      case None =>
      case Some(q) =>
        assert tags + q.tags == [tags[0]] + (tags[1..] + q.tags);
    } else {
      assert TagArgs(tags) + rest == rest;
      match ParseBuildArgs(rest)
      case None =>
      case Some(q) =>
        assert tags + q.tags == q.tags;
    }
  }

  /** The build command asks for exactly the expected tags, in order, the
      rendered file, the context as its only operand, and no cache exactly
      when rebuilding. */
  lemma BuildCommandMeaning(repo: string, version: Option<string>, file: string, context: string, rebuild: bool)
    requires !IsBuildOption(context)
    ensures ParseBuildArgs(BuildCommand(repo, version, file, context, rebuild)[2..]) ==
      Some(BuildRequest(rebuild, ExpectedTags(repo, version), Some(file), [context]))
  {
    var tail := ["--file", file, context];
    var tags := ExpectedTags(repo, version);
    BuildFileParse(file, context);
    TagArgsParse(tags, tail);
    assert tags + [] == tags;
    BuildCommandArgs(repo, version, file, context, rebuild);
    if rebuild {
      ParseBuildOne("--no-cache", TagArgs(tags) + tail);
    } else {
      assert [] + (TagArgs(tags) + tail) == TagArgs(tags) + tail;
    }
  }

  /** The file option and the context alone. */
  lemma BuildFileParse(file: string, context: string)
    requires !IsBuildOption(context)
    ensures ParseBuildArgs(["--file", file, context]) == Some(BuildRequest(false, [], Some(file), [context]))
  {
    ParseBuildOne(context, []);
    assert [context] + [] == [context];
    ParseBuildTwo("--file", file, [context]);
    assert ["--file", file] + [context] == ["--file", file, context];
  }

  /** The arguments after `container build`. */
  lemma BuildCommandArgs(repo: string, version: Option<string>, file: string, context: string, rebuild: bool)
    ensures BuildCommand(repo, version, file, context, rebuild)[2..] ==
      (if rebuild then ["--no-cache"] else []) + (TagArgs(ExpectedTags(repo, version)) + ["--file", file, context])
  {
    var opts := (if rebuild then ["--no-cache"] else []) + (TagArgs(ExpectedTags(repo, version)) + ["--file", file, context]);
    assert ["container", "build"] + (if rebuild then ["--no-cache"] else []) + TagArgs(ExpectedTags(repo, version)) + ["--file", file, context]
      == ["container", "build"] + opts;
  }

  function MountSpec(source: string, target: string): string {
    "src=" + source + ",dst=" + target
  }

  /** The command `codex` executes: a named, interactive, self-removing
      container with the repository bound and two mounts, running either
      a shell or the Codex binary followed by the passthrough arguments. */
  function RunCommand(name: string, repoDir: string, persistentDir: string, destDir: string,
                      uvCacheDir: string, image: string, codexPath: string, shell: bool,
                      extra: seq<string>): (cmd: Command)
    ensures |cmd| > 13 && cmd[..2] == ["container", "run"]
    ensures cmd[12] == image
    ensures shell ==> cmd[13..] == ["/bin/bash"]
    ensures !shell ==> cmd[13..] == [codexPath] + extra
  {
    var prefix: Command :=
      ["container", "run", "--name", name, "--rm", "-it",
       "-v", repoDir + ":/home/linuxbrew/repo",
       "--mount", MountSpec(persistentDir, destDir),
       "--mount", MountSpec(uvCacheDir, "/home/linuxbrew/.uv_cache"),
       image];
    var entry := if shell then ["/bin/bash"] else [codexPath] + extra;
    assert |prefix| == 13 && prefix[12] == image;
    assert (prefix + entry)[13..] == entry;
    prefix + entry
  }

  /** What `container run` reads from its arguments. */
  datatype RunRequest = RunRequest(
    name: Option<string>, remove: bool, interactive: bool,
    volumes: seq<string>, mounts: seq<string>,
    image: string, command: seq<string>)

  predicate IsRunOption(a: string) {
    a == "--name" || a == "--rm" || a == "-it" || a == "-v" || a == "--mount"
  }

  /** Reads `--name VALUE`, `--rm`, `-it`, `-v VALUE` and `--mount VALUE`
      up to the first operand, the image; every argument after the image is
      the command to run in the container, taken as it is. */
  function ParseRunArgs(args: seq<string>): Option<RunRequest>
    decreases |args|
  {
    if args == [] then None
    else if args[0] == "--rm" || args[0] == "-it" then
      match ParseRunArgs(args[1..])
      case None => None
      case Some(q) => if args[0] == "--rm" then Some(q.(remove := true)) else Some(q.(interactive := true))
    else if args[0] == "--name" || args[0] == "-v" || args[0] == "--mount" then
      if |args| < 2 then None
      else
        match ParseRunArgs(args[2..])
        case None => None
        case Some(q) =>
          if args[0] == "--name" then Some(q.(name := Some(args[1])))
          else if args[0] == "-v" then Some(q.(volumes := [args[1]] + q.volumes))
          else Some(q.(mounts := [args[1]] + q.mounts))
    else Some(RunRequest(None, false, false, [], [], args[0], args[1..]))
  }

  /** The options part of the run command, read up to the image. */
  lemma RunOptionsParse(name: string, v: string, m1: string, m2: string, image: string, entry: seq<string>)
    requires !IsRunOption(image)
    ensures ParseRunArgs(["--name", name, "--rm", "-it", "-v", v, "--mount", m1, "--mount", m2, image] + entry) ==
      Some(RunRequest(Some(name), true, true, [v], [m1, m2], image, entry))
  {
    var t := ["--name", name, "--rm", "-it", "-v", v, "--mount", m1, "--mount", m2, image] + entry;
    assert t[10] == image && t[11..] == entry;
    assert ParseRunArgs(t[10..]) == Some(RunRequest(None, false, false, [], [], image, entry)) by {
      assert t[10..][0] == image && t[10..][1..] == t[11..];
    }
    assert ParseRunArgs(t[8..]) == Some(RunRequest(None, false, false, [], [m2], image, entry)) by {
      assert t[8..][0] == "--mount" && t[8..][1] == m2 && t[8..][2..] == t[10..];
      assert [m2] + [] == [m2];
    }
    assert ParseRunArgs(t[6..]) == Some(RunRequest(None, false, false, [], [m1, m2], image, entry)) by {
      assert t[6..][0] == "--mount" && t[6..][1] == m1 && t[6..][2..] == t[8..];
      assert [m1] + [m2] == [m1, m2];
    }
    assert ParseRunArgs(t[4..]) == Some(RunRequest(None, false, false, [v], [m1, m2], image, entry)) by {
      assert t[4..][0] == "-v" && t[4..][1] == v && t[4..][2..] == t[6..];
      assert [v] + [] == [v];
    }
    assert ParseRunArgs(t[3..]) == Some(RunRequest(None, false, true, [v], [m1, m2], image, entry)) by {
      assert t[3..][0] == "-it" && t[3..][1..] == t[4..];
    }
    assert ParseRunArgs(t[2..]) == Some(RunRequest(None, true, true, [v], [m1, m2], image, entry)) by {
      assert t[2..][0] == "--rm" && t[2..][1..] == t[3..];
    }
    assert t[0] == "--name" && t[1] == name;
  }

  /** The run command names the container, removes it on exit, attaches a
      terminal, binds the repository, mounts the persistent and cache
      directories, and hands every passthrough argument to the entry
      command unchanged, whatever it looks like. */
  lemma RunCommandMeaning(name: string, repoDir: string, persistentDir: string, destDir: string,
                          uvCacheDir: string, image: string, codexPath: string, shell: bool,
                          extra: seq<string>)
    requires !IsRunOption(image)
    ensures ParseRunArgs(RunCommand(name, repoDir, persistentDir, destDir, uvCacheDir, image, codexPath, shell, extra)[2..]) ==
      Some(RunRequest(Some(name), true, true,
                      [repoDir + ":/home/linuxbrew/repo"],
                      [MountSpec(persistentDir, destDir), MountSpec(uvCacheDir, "/home/linuxbrew/.uv_cache")],
                      image, if shell then ["/bin/bash"] else [codexPath] + extra))
  {
    var entry := if shell then ["/bin/bash"] else [codexPath] + extra;
    var m2 := MountSpec(uvCacheDir, "/home/linuxbrew/.uv_cache");
    var m1 := MountSpec(persistentDir, destDir);
    var v := repoDir + ":/home/linuxbrew/repo";
    RunOptionsParse(name, v, m1, m2, image, entry);
    RunCommandArgs(name, repoDir, persistentDir, destDir, uvCacheDir, image, codexPath, shell, extra);
  }

  /** The arguments after `container run`: the options, the image and the
      entry command. */
  lemma RunCommandArgs(name: string, repoDir: string, persistentDir: string, destDir: string,
                       uvCacheDir: string, image: string, codexPath: string, shell: bool,
                       extra: seq<string>)
    ensures RunCommand(name, repoDir, persistentDir, destDir, uvCacheDir, image, codexPath, shell, extra)[2..] ==
      ["--name", name, "--rm", "-it", "-v", repoDir + ":/home/linuxbrew/repo",
       "--mount", MountSpec(persistentDir, destDir), "--mount", MountSpec(uvCacheDir, "/home/linuxbrew/.uv_cache"),
       image] + (if shell then ["/bin/bash"] else [codexPath] + extra)
  {
    var entry := if shell then ["/bin/bash"] else [codexPath] + extra;
    var prefix: Command :=
      ["container", "run", "--name", name, "--rm", "-it",
       "-v", repoDir + ":/home/linuxbrew/repo",
       "--mount", MountSpec(persistentDir, destDir),
       "--mount", MountSpec(uvCacheDir, "/home/linuxbrew/.uv_cache"),
       image];
    assert (prefix + entry)[2..] == prefix[2..] + entry;
  }
}
