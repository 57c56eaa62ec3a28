/** The string-level core of ctxflow/cli.py: the `gitingest` commands the
    CLI builds, the `--new-digest` walk and its exit rule, the
    initialisation report, and the two agent wrappers that forward the
    agent's exit code. Processes, the directory walk and `os.path.relpath`
    are parameters. */
module Cli {
  import opened Wrappers
  import opened Text
  import opened CommandBuilder
  import opened Digest

  const OcAlias: string := "opencode"
  const ClaudeAlias: string := "claude"
  const GiAlias: string := "gitingest"
  const Succeed: int := 0
  const Fail: int := 1

  const DigestName: string := "digest.txt"
  /** The `-e` patterns passed to every `gitingest` run. */
  const ExcludePatterns: seq<string> := ["logs/", "*.log*", "*.env*", "*.claude*", "ai_docs/", "specs/"]

  const UpdatingMsg: string := "updating the git digest file..."
  const NotFoundMsg: string := "no git digest file found"
  const CreatingMsg: string := "Creating the necessary directories/files..."
  const MakingMsg: string := "\nMaking a git digest file..."
  const CompleteMsg: string := "\nInitialization complete!"

  /** One `(root, dirs, files)` triple of `os.walk`; `dirs` plays no part. */
  datatype WalkStep = WalkStep(root: string, files: seq<string>)

  /** What `proc.communicate()` returns for a finished command. */
  datatype ProcessOutput = ProcessOutput(stdout: string, stderr: string)

  /** `os.path.join(a, b)` on POSIX: an absolute `b` replaces `a`; otherwise a
      `/` separates them unless `a` is empty or already ends in one. */
  function PathJoin(a: string, b: string): (r: string)
    ensures |b| <= |r| && r[|r| - |b|..] == b
    ensures (|b| > 0 && b[0] == '/') || a <= r
  {
    if |b| > 0 && b[0] == '/' then b
    else if a == "" || a[|a| - 1] == '/' then a + b
    else a + "/" + b
  }

  /** The flag dictionary of the `--new-digest` run of `gitingest`. */
  function UpdateFlags(output: string): Flags
  {
    [("--output", Str(output)), ("--exclude-pattern", Str("logs/")), ("-e", List(ExcludePatterns))]
  }

  /** The flag dictionary of the `gitingest` run during initialisation: no
      `--exclude-pattern`. */
  function InitFlags(output: string): Flags
  {
    [("--output", Str(output)), ("-e", List(ExcludePatterns))]
  }

  function UpdateCommand(output: string): string
  {
    Command(GiAlias, Some(["."]), Some(UpdateFlags(output)), true)
  }

  function InitCommand(output: string): string
  {
    Command(GiAlias, Some(["."]), Some(InitFlags(output)), true)
  }

  /** The words the exclude patterns render as: `-e p` for each. */
  lemma ExcludeWords()
    ensures FlagWords("-e", List(ExcludePatterns))
         == ["-e", "logs/", "-e", "*.log*", "-e", "*.env*", "-e", "*.claude*", "-e", "ai_docs/", "-e", "specs/"]
  {
    var ws := ["-e", "logs/", "-e", "*.log*", "-e", "*.env*", "-e", "*.claude*", "-e", "ai_docs/", "-e", "specs/"];
    ListFlagRepeats("-e", ExcludePatterns);
    assert RepeatedWords("-e", ExcludePatterns) == ws;
  }

  /** The words of the `--new-digest` run of `gitingest`, for a non-empty
      output path (the joined path always is one): the program, `.`, the
      output path, the `logs/` exclusion, then the exclude patterns. */
  lemma UpdateCommandWords(output: string)
    requires output != ""
    ensures Words(GiAlias, Some(["."]), Some(UpdateFlags(output)), true)
         == [GiAlias, ".", "--output", output, "--exclude-pattern", "logs/"] + FlagWords("-e", List(ExcludePatterns))
  {
    var strs := [("--output", output), ("--exclude-pattern", "logs/")];
    assert StrFlags(strs) == [("--output", Str(output))] + StrFlags(strs[1..]);
    assert StrFlags(strs[1..]) == [("--exclude-pattern", Str("logs/"))] + StrFlags([]);
    assert Pairs(strs) == ["--output", output] + Pairs(strs[1..]);
    assert Pairs(strs[1..]) == ["--exclude-pattern", "logs/"] + Pairs([]);
    StrFlagsWords(GiAlias, ".", strs, "-e", List(ExcludePatterns));
    assert StrFlags(strs) + [("-e", List(ExcludePatterns))] == UpdateFlags(output);
    assert [GiAlias, "."] + Pairs(strs) == [GiAlias, ".", "--output", output, "--exclude-pattern", "logs/"];
  }

  /** The words of the initialisation run: the same without `--exclude-pattern`. */
  lemma InitCommandWords(output: string)
    requires output != ""
    ensures Words(GiAlias, Some(["."]), Some(InitFlags(output)), true)
         == [GiAlias, ".", "--output", output] + FlagWords("-e", List(ExcludePatterns))
  {
    var strs := [("--output", output)];
    assert StrFlags(strs) == [("--output", Str(output))] + StrFlags([]);
    assert Pairs(strs) == ["--output", output] + Pairs([]);
    StrFlagsWords(GiAlias, ".", strs, "-e", List(ExcludePatterns));
  }

  /** Leading flags with non-empty string values render as `flag value`
      pairs, in order, ahead of the words of the last flag. */
  lemma {:induction false} StrFlagsWords(prog: string, arg: string, strs: seq<(string, string)>, last: string, v: FlagValue)
    requires forall i :: 0 <= i < |strs| ==> strs[i].1 != ""
    ensures Words(prog, Some([arg]), Some(StrFlags(strs) + [(last, v)]), true)
         == [prog, arg] + Pairs(strs) + FlagWords(last, v)
  {
    var fs := StrFlags(strs) + [(last, v)];
    PairsWords(strs);
    FlagsWordsSnoc(StrFlags(strs), (last, v));
    var tail := FlagsWords(fs);
    assert tail == Pairs(strs) + FlagWords(last, v);
    OneArgWords(prog, arg, fs);
    SeqAssoc([prog, arg], Pairs(strs), FlagWords(last, v));
  }

  lemma SeqAssoc(a: seq<string>, b: seq<string>, c: seq<string>)
    ensures a + (b + c) == a + b + c
  {
  }

  lemma OneArgWords(prog: string, arg: string, fs: Flags)
    ensures Words(prog, Some([arg]), Some(fs), true) == [prog, arg] + FlagsWords(fs)
  {
    assert Words(prog, Some([arg]), Some(fs), true) == [prog] + [arg] + FlagsWords(fs) + [];
  }

  lemma {:induction false} PairsWords(strs: seq<(string, string)>)
    requires forall i :: 0 <= i < |strs| ==> strs[i].1 != ""
    ensures FlagsWords(StrFlags(strs)) == Pairs(strs)
  {
    if strs != [] {
      PairsWords(strs[1..]);
      assert StrFlags(strs)[1..] == StrFlags(strs[1..]);
    }
  }

  /** Flag entries with string values. */
  function StrFlags(strs: seq<(string, string)>): (r: Flags)
    ensures |r| == |strs|
  {
    if strs == [] then [] else [(strs[0].0, Str(strs[0].1))] + StrFlags(strs[1..])
  }

  function Pairs(strs: seq<(string, string)>): seq<string>
  {
    if strs == [] then [] else [strs[0].0, strs[0].1] + Pairs(strs[1..])
  }

  /** The path of the first `digest.txt` the walk meets, in walk order. */
  function FirstDigest(walk: seq<WalkStep>): Option<string>
  {
    if walk == [] then None
    else if DigestName in walk[0].files then Some(PathJoin(walk[0].root, DigestName))
    else FirstDigest(walk[1..])
  }

  /** A digest file is found exactly when some directory of the walk holds
      one, and the path found is that of the first such directory. */
  lemma {:induction false} FirstDigestCharacterised(walk: seq<WalkStep>)
    ensures FirstDigest(walk).Some? <==> exists i :: 0 <= i < |walk| && DigestName in walk[i].files
    ensures FirstDigest(walk).Some? ==>
      exists i :: 0 <= i < |walk| && DigestName in walk[i].files
        && (forall k :: 0 <= k < i ==> DigestName !in walk[k].files)
        && FirstDigest(walk).value == PathJoin(walk[i].root, DigestName)
  {
    if walk != [] && DigestName !in walk[0].files {
      FirstDigestCharacterised(walk[1..]);
      if FirstDigest(walk[1..]).Some? {
        var i :| 0 <= i < |walk[1..]| && DigestName in walk[1..][i].files
          && (forall k :: 0 <= k < i ==> DigestName !in walk[1..][k].files)
          && FirstDigest(walk[1..]).value == PathJoin(walk[1..][i].root, DigestName);
        assert forall k :: 0 <= k < i + 1 ==> DigestName !in walk[k].files by {
          forall k | 0 <= k < i + 1 ensures DigestName !in walk[k].files {
            if k > 0 { assert walk[k] == walk[1..][k - 1]; }
          }
        }
      }
      forall i | 0 <= i < |walk| && DigestName in walk[i].files
        ensures FirstDigest(walk[1..]).Some?
      {
        assert walk[1..][i - 1] == walk[i];
      }
    }
  }

  /** The lines the tool's report adds: nothing when it printed nothing,
      otherwise what the digest parser echoes. */
  function ReportLines(out: ProcessOutput): seq<string>
  {
    if out.stdout != "" then EchoLines(ParseDigest(out.stdout)) else []
  }

  /** What `ctx --new-digest` echoes and the code it exits with. */
  function NewDigestOutcome(walk: seq<WalkStep>, run: string -> ProcessOutput, relpath: string -> string)
    : (seq<string>, int)
  {
    match FirstDigest(walk)
    case None => ([UpdatingMsg, NotFoundMsg], Fail)
    case Some(path) => ([UpdatingMsg] + ReportLines(run(UpdateCommand(path))) + [relpath(path) + " updated"], Succeed)
  }

  /** The `--new-digest` branch of `ctx`: walks the tree, and at the first
      `digest.txt` regenerates it, echoes the report and exits; exits with
      FAIL when the walk ends without one. */
  method NewDigest(walk: seq<WalkStep>, run: string -> ProcessOutput, relpath: string -> string)
    returns (echoed: seq<string>, exitCode: int)
    ensures (echoed, exitCode) == NewDigestOutcome(walk, run, relpath)
  {
    echoed := [UpdatingMsg];
    var i := 0;
    while i < |walk|
      invariant 0 <= i <= |walk|
      invariant FirstDigest(walk) == FirstDigest(walk[i..])
      invariant echoed == [UpdatingMsg]
    {
      var step := walk[i];
      var j := 0;
      while j < |step.files|
        invariant 0 <= j <= |step.files|
        invariant DigestName !in step.files[..j]
        invariant echoed == [UpdatingMsg]
      {
        var name := step.files[j];
        if name == DigestName {
          assert walk[i..][0] == step;
          var path := PathJoin(step.root, name);
          assert FirstDigest(walk) == Some(path);
          var cmd := CmdBuilder(GiAlias, Some(["."]), Some(UpdateFlags(path)), true);
          var out := run(cmd);
          if out.stdout != "" {
            var parsed, lines := ParseAndEcho(out.stdout);
            echoed := echoed + lines;
          } else {
            assert ReportLines(out) == [];
            assert echoed == echoed + [];
          }
          echoed := echoed + [relpath(path) + " updated"];
          return echoed, Succeed;
        }
        assert step.files[..j + 1] == step.files[..j] + [name];
        j := j + 1;
      }
      assert step.files[..j] == step.files;
      assert walk[i..][1..] == walk[i + 1..];
      i := i + 1;
    }
    assert walk[i..] == [];
    assert FirstDigest(walk) == None;
    echoed := echoed + [NotFoundMsg];
    exitCode := Fail;
    assert echoed == [UpdatingMsg, NotFoundMsg];
    assert NewDigestOutcome(walk, run, relpath) == ([UpdatingMsg, NotFoundMsg], Fail);
  }

  /** `--new-digest` exits with SUCCEED exactly when the walk holds a
      `digest.txt`, whatever the tool printed and however the parse went,
      and with FAIL otherwise. */
  lemma NewDigestExit(walk: seq<WalkStep>, run: string -> ProcessOutput, relpath: string -> string)
    ensures NewDigestOutcome(walk, run, relpath).1
         == if exists i :: 0 <= i < |walk| && DigestName in walk[i].files then Succeed else Fail
    ensures NewDigestOutcome(walk, run, relpath).0[0] == UpdatingMsg
  {
    FirstDigestCharacterised(walk);
  }

  /** The update names the file it regenerated last, after the report; a
      failed parse leaves only the two status lines. */
  lemma NewDigestReport(walk: seq<WalkStep>, run: string -> ProcessOutput, relpath: string -> string)
    requires FirstDigest(walk).Some?
    ensures var path := FirstDigest(walk).value;
      var echoed := NewDigestOutcome(walk, run, relpath).0;
      echoed[|echoed| - 1] == relpath(path) + " updated"
      && (ParseDigest(run(UpdateCommand(path)).stdout).None? ==> echoed == [UpdatingMsg, relpath(path) + " updated"])
  {
    var path := FirstDigest(walk).value;
    if ParseDigest(run(UpdateCommand(path)).stdout).None? {
      assert ReportLines(run(UpdateCommand(path))) == [];
    }
  }

  /** Where the initialisation writes its digest: `cwd/ai_docs/digest.txt`. */
  function InitDigestPath(cwd: string): string
  {
    PathJoin(PathJoin(cwd, "ai_docs"), DigestName)
  }

  /** What `ctx` run without a subcommand echoes once the user has confirmed:
      the creating line, the lines `initial` echoes (one `… was created` or
      `… already exists` per directory or copy, given here as they come),
      the making line, the report of the `gitingest` run and the closing
      line. */
  function InitEcho(cwd: string, initialLines: seq<string>, run: string -> ProcessOutput): seq<string>
  {
    var report := ReportLines(run(InitCommand(InitDigestPath(cwd))));
    [CreatingMsg] + initialLines + [MakingMsg] + report + [CompleteMsg]
  }

  /** The initialisation echoes `initial`'s lines right after the creating
      line, and carries, between the making line and the closing one,
      exactly what the digest parser echoes for the tool's output. */
  lemma InitEchoReport(cwd: string, initialLines: seq<string>, run: string -> ProcessOutput)
    ensures var r := InitEcho(cwd, initialLines, run);
      var n := |initialLines|;
      var out := run(InitCommand(InitDigestPath(cwd)));
      && (|r| == n + 3 || |r| == n + 5)
      && r[0] == CreatingMsg && r[1..n + 1] == initialLines && r[n + 1] == MakingMsg
      && r[n + 2..|r| - 1] == (if out.stdout != "" then EchoLines(ParseDigest(out.stdout)) else [])
      && r[|r| - 1] == CompleteMsg
  {
    var out := run(InitCommand(InitDigestPath(cwd)));
    var report := ReportLines(out);
    ReportLength(out);
    Framed(CreatingMsg, initialLines, MakingMsg, report, CompleteMsg);
    assert InitEcho(cwd, initialLines, run) == [CreatingMsg] + initialLines + [MakingMsg] + report + [CompleteMsg];
  }

  /** The tool's report adds two lines or none. */
  lemma ReportLength(out: ProcessOutput)
    ensures |ReportLines(out)| == 0 || |ReportLines(out)| == 2
  {
  }

  /** Where the pieces of a framed echo sit. */
  lemma Framed<T>(a: T, xs: seq<T>, b: T, ys: seq<T>, c: T)
    ensures var r := [a] + xs + [b] + ys + [c];
      var n := |xs|;
      && |r| == n + |ys| + 3
      && r[0] == a && r[1..n + 1] == xs && r[n + 1] == b && r[n + 2..|r| - 1] == ys && r[|r| - 1] == c
  {
  }

  /** The positional arguments of `opencode`: `.` when none are given. */
  function OpencodeArgs(args: seq<string>): (r: seq<string>)
    ensures r != []
    ensures args != [] ==> r == args
  {
    if args == [] then ["."] else args
  }

  function OpencodeCommand(args: seq<string>): string
  {
    Command(OcAlias, Some(OpencodeArgs(args)), None, false)
  }

  function ClaudeCommand(args: seq<string>): string
  {
    Command(ClaudeAlias, Some(args), None, true)
  }

  /** `opencode` with no extra arguments opens the current directory and
      keeps its logs on. */
  lemma OpencodeNoArgs()
    ensures OpencodeCommand([]) == "opencode . --print-logs"
  {
    assert Words(OcAlias, Some(["."]), None, false) == [OcAlias, ".", PrintLogs];
  }

  /** `claude` with no extra arguments is the bare program name. */
  lemma ClaudeNoArgs()
    ensures ClaudeCommand([]) == "claude"
  {
    assert Words(ClaudeAlias, Some([]), None, true) == [ClaudeAlias];
  }

  /** The extra arguments are passed through in order after the program name;
      only `opencode` adds `--print-logs`. */
  lemma AgentCommandsShape(args: seq<string>)
    ensures ClaudeCommand(args) == Join([ClaudeAlias] + args, " ")
    ensures args != [] ==> OpencodeCommand(args) == Join([OcAlias] + args, " ") + " " + PrintLogs
  {
    assert Words(ClaudeAlias, Some(args), None, true) == [ClaudeAlias] + args;
    PrintLogsLast(OcAlias, Some(OpencodeArgs(args)), None);
    assert Words(OcAlias, Some(OpencodeArgs(args)), None, true) == [OcAlias] + OpencodeArgs(args);
  }

  /** The `opencode` subcommand: runs the agent on the built command and exits
      with the agent's exit code, unchanged. */
  method Opencode(args: seq<string>, runAgent: (string, string) -> int) returns (exitCode: int)
    ensures exitCode == runAgent(OcAlias, OpencodeCommand(args))
  {
    var allArgs := args;
    if allArgs == [] {
      allArgs := ["."];
    }
    var cmd := CmdBuilder(OcAlias, Some(allArgs), None, false);
    exitCode := runAgent(OcAlias, cmd);
  }

  /** The `claude` subcommand: the same, without `--print-logs`. */
  method Claude(args: seq<string>, runAgent: (string, string) -> int) returns (exitCode: int)
    ensures exitCode == runAgent(ClaudeAlias, ClaudeCommand(args))
  {
    var cmd := CmdBuilder(ClaudeAlias, Some(args), None, true);
    exitCode := runAgent(ClaudeAlias, cmd);
  }
}
