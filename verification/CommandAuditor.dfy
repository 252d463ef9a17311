/**
 The audit of command lines against the allowlist, down through the commands
 nested in sandbox wrappers.
 */
module CommandAuditor {
  import opened Wrappers
  import opened ShellWords
  import Text

  datatype Reason =
    | TooLong | Empty | ForbiddenChar(c: char) | Subshell | NoArguments
    | ForbiddenBinary(name: string)
    | ShellNeedsScript | ScriptNotAllowed(script: string)
    | Nested(inner: Reason)
    | NpmNeedsCommand | PackageInstall | ScriptsNotIgnored | RunNeedsTarget | TargetNotAllowed(target: string)
    | NodeNeedsScript | NodeScriptNotAllowed(script: string)
    | TurboNeedsCommand | TurboNeedsTask | TaskNotAllowed(task: string)
    | BinaryNotAllowed(name: string)

  datatype Autofix = Autofix(target: string, replacement: string)

  datatype AuditResult = Secure | Insecure(reason: Reason, autofix: Option<Autofix>)

  /** What the checks on one command line come to, before any nested command is looked at. */
  datatype Check = Accept | Reject(reason: Reason, autofix: Option<Autofix>) | Descend(nested: string)

  const FLAG := "--ignore-scripts"
  const SANDBOX := "scripts/sandbox-execute.sh"

  // ---------- the binary ----------

  function DropSlashes(s: string): (r: string)
    ensures |r| <= |s|
  {
    if s != "" && s[|s| - 1] == '/' then DropSlashes(s[..|s| - 1]) else s
  }

  function Basename(path: string): (r: string)
    ensures |r| <= |path|
  {
    var parts := Text.Split(DropSlashes(path), '/');
    parts[|parts| - 1]
  }

  function ToLower(s: string): (r: string)
    ensures |r| == |s|
  {
    if s == "" then "" else [if 'A' <= s[0] <= 'Z' then (s[0] as int + 32) as char else s[0]] + ToLower(s[1..])
  }

  function DropExe(s: string): (r: string)
    ensures |r| <= |s|
  {
    if Text.EndsWith(s, ".exe") then s[..|s| - 4] else s
  }

  function BinaryName(word: string): (r: string)
    ensures |r| <= |word|
  {
    DropExe(ToLower(Basename(word)))
  }

  function DropDotSlash(s: string): (r: string)
    ensures |r| <= |s|
  {
    if Text.StartsWith(s, "./") then s[2..] else s
  }

  predicate IsShell(name: string) { name == "bash" || name == "sh" || name == "zsh" }

  predicate IsAllowedBinary(name: string) { IsShell(name) || name == "npm" || name == "node" || name == "turbo" }

  predicate IsToolchain(name: string) {
    || name == "pip" || name == "pip3" || name == "python" || name == "python3"
    || name == "go" || name == "cargo" || name == "rustc"
  }

  predicate IsForbiddenBinary(name: string) {
    || IsToolchain(name)
    || name == "curl" || name == "wget" || name == "gcc" || name == "g++" || name == "clang"
    || name == "ssh" || name == "scp" || name == "ftp" || name == "telnet"
  }

  const SCRIPTS := {SANDBOX, "scripts/ci-verify.sh", "scripts/bootstrap.sh", "scripts/setup-git-hooks.sh",
                    "scripts/ham-drift-watcher.sh"}
  const INSTALLS := {"install", "i", "add", "update", "upgrade"}
  const RUN_TARGETS := {"build", "dev", "test", "lint", "bootstrap", "sandbox", "ci", "memory:context",
                        "policy:dry-run"}
  const TURBO_TASKS := {"build", "dev", "test", "lint"}
  const NODE_SCRIPTS := ["packages/crypto-utils/dist/index.js", "packages/crypto-utils/src/index.ts",
                         "packages/crypto-utils/dist/index.ts", "scripts/workflow-scanner.js"]

  // ---------- the checks on one level ----------

  const FORBIDDEN := [';', '|', '>', '<', '`', '&']

  /** The first of these characters, in this order, that the text contains. */
  function FirstIncluded(chars: seq<char>, s: string): (r: Option<char>)
    ensures r.None? <==> forall i | 0 <= i < |chars| :: chars[i] !in s
    ensures r.Some? ==>
              && r.value in s
              && exists k | 0 <= k < |chars| :: chars[k] == r.value && forall j | 0 <= j < k :: chars[j] !in s
  {
    if chars == [] then None else if chars[0] in s then Some(chars[0]) else FirstIncluded(chars[1..], s)
  }

  function SandboxFix(command: string, cwd: string): string {
    "bash" + " " + SANDBOX + " " + Quoted(command) + " " + Quoted(cwd)
  }

  function CheckShell(args: seq<string>): Check {
    if |args| < 2 then Reject(ShellNeedsScript, None)
    else
      var script := DropDotSlash(args[1]);
      if script !in SCRIPTS then Reject(ScriptNotAllowed(args[1]), None)
      else if script == SANDBOX && |args| > 2 then Descend(args[2])
      else Accept
  }

  function CheckNpm(args: seq<string>, command: string): Check {
    if |args| < 2 then Reject(NpmNeedsCommand, None)
    else if args[1] in INSTALLS && exists i | 2 <= i < |args| :: !Text.StartsWith(args[i], "-")
    then Reject(PackageInstall, Some(Autofix(command, "npm run bootstrap")))
    else
      var safeRun := args[1] == "run" && |args| > 2 && (args[2] == "memory:context" || args[2] == "policy:dry-run");
      if FLAG !in args && !safeRun
      then Reject(ScriptsNotIgnored, Some(Autofix(command, command + " " + FLAG)))
      else if args[1] == "run" && |args| < 3 then Reject(RunNeedsTarget, None)
      else if args[1] == "run" && args[2] !in RUN_TARGETS then Reject(TargetNotAllowed(args[2]), None)
      else Accept
  }

  function CheckNode(args: seq<string>): Check {
    if |args| < 2 then Reject(NodeNeedsScript, None)
    else
      var script := DropDotSlash(args[1]);
      if exists i | 0 <= i < |NODE_SCRIPTS| :: Text.EndsWith(script, NODE_SCRIPTS[i])
      then Accept
      else Reject(NodeScriptNotAllowed(args[1]), None)
  }

  function CheckTurbo(args: seq<string>): Check {
    if |args| < 2 then Reject(TurboNeedsCommand, None)
    else if args[1] != "run" then Accept
    else if |args| < 3 then Reject(TurboNeedsTask, None)
    else if args[2] !in TURBO_TASKS then Reject(TaskNotAllowed(args[2]), None)
    else Accept
  }

  function CheckBinary(args: seq<string>, command: string, cwd: string): Check
    requires args != []
  {
    var name := BinaryName(args[0]);
    if IsForbiddenBinary(name)
    then Reject(ForbiddenBinary(name),
                if IsToolchain(name) then Some(Autofix(command, SandboxFix(command, cwd))) else None)
    else if IsShell(name) then CheckShell(args)
    else if name == "npm" then CheckNpm(args, command)
    else if name == "node" then CheckNode(args)
    else if name == "turbo" then CheckTurbo(args)
    else Reject(BinaryNotAllowed(args[0]), None)
  }

  function CheckLevel(commandLine: string, cwd: string): Check {
    if |commandLine| > MAX_COMMAND_LINE_LENGTH then Reject(TooLong, None)
    else
      var command := Text.Trim(commandLine);
      if command == "" then Reject(Empty, None)
      else if FirstIncluded(FORBIDDEN, command).Some?
      then Reject(ForbiddenChar(FirstIncluded(FORBIDDEN, command).value), None)
      else if Text.Includes(command, "$(") then Reject(Subshell, None)
      else if Words(command) == [] then Reject(NoArguments, None)
      else CheckBinary(Words(command), command, cwd)
  }

  // ---------- the recursive audit ----------

  lemma {:induction false} TotalOfThree(words: seq<string>)
    requires |words| >= 3
    ensures Total(words) >= |words[0]| + |words[1]| + |words[2]|
    decreases |words|
  {
    if |words| == 3 {
      assert words[..2][..1] == words[..1] && words[..1][..0] == [];
      assert Total(words[..1]) == |words[0]|;
      assert Total(words[..2]) == |words[0]| + |words[1]|;
    } else {
      TotalOfThree(words[..|words| - 1]);
    }
  }

  /** A nested command is at least 30 characters shorter than the line that wraps it. */
  lemma NestedIsShorter(commandLine: string, cwd: string)
    requires CheckLevel(commandLine, cwd).Descend?
    ensures |CheckLevel(commandLine, cwd).nested| + 30 <= |commandLine|
  {
    LevelDescends(commandLine, cwd);
    DescendShape(Words(Text.Trim(commandLine)), Text.Trim(commandLine), cwd);
    ThreeWordsFit(Text.Trim(commandLine));
  }

  lemma LevelDescends(commandLine: string, cwd: string)
    requires CheckLevel(commandLine, cwd).Descend?
    ensures Words(Text.Trim(commandLine)) != []
    ensures CheckLevel(commandLine, cwd) == CheckBinary(Words(Text.Trim(commandLine)), Text.Trim(commandLine), cwd)
  {
  }

  lemma ThreeWordsFit(line: string)
    requires |Words(line)| > 2
    ensures |Words(line)[0]| + |Words(line)[1]| + |Words(line)[2]| + 2 <= |line|
  {
    WordsFit(line);
    TotalOfThree(Words(line));
  }

  /** Only a shell with the sandbox script and a further argument leads down. */
  lemma DescendShape(args: seq<string>, command: string, cwd: string)
    requires args != [] && CheckBinary(args, command, cwd).Descend?
    ensures |args| > 2 && CheckBinary(args, command, cwd).nested == args[2]
    ensures |args[0]| >= 2 && |args[1]| >= 26
  {
    OnlyShellDescends(args, command, cwd);
    ShellNameLength(BinaryName(args[0]));
    ScriptDescends(args);
  }

  lemma OnlyShellDescends(args: seq<string>, command: string, cwd: string)
    requires args != [] && CheckBinary(args, command, cwd).Descend?
    ensures IsShell(BinaryName(args[0])) && CheckBinary(args, command, cwd) == CheckShell(args)
  {
    OthersReject(args, command);
  }

  lemma OthersReject(args: seq<string>, command: string)
    ensures !CheckNpm(args, command).Descend? && !CheckNode(args).Descend? && !CheckTurbo(args).Descend?
  {
  }

  lemma ShellNameLength(name: string)
    requires IsShell(name)
    ensures |name| >= 2
  {
  }

  lemma ScriptDescends(args: seq<string>)
    requires CheckShell(args).Descend?
    ensures |args| > 2 && CheckShell(args).nested == args[2] && |args[1]| >= 26
  {
    assert |SANDBOX| == 26;
  }

  /** The checks of every level share the working directory. */
  function Checks(cwd: string): string -> Check {
    line => CheckLevel(line, cwd)
  }

  ghost predicate Shrinking(check: string -> Check) {
    forall line :: check(line).Descend? ==> |check(line).nested| + 30 <= |line|
  }

  lemma ChecksShrink(cwd: string)
    ensures Shrinking(Checks(cwd))
  {
    forall line | Checks(cwd)(line).Descend? ensures |Checks(cwd)(line).nested| + 30 <= |line| {
      NestedIsShorter(line, cwd);
    }
  }

  function Audit(check: string -> Check, commandLine: string): AuditResult
    requires Shrinking(check)
    decreases |commandLine|
  {
    match check(commandLine)
    case Accept => Secure
    case Reject(reason, fix) => Insecure(reason, fix)
    case Descend(nested) =>
      match Audit(check, nested)
      case Secure => Secure
      case Insecure(reason, _) => Insecure(Nested(reason), None)
  }

  /** `isCommandLineSecure`; `cwd` is the working directory that a suggested fix mentions. */
  function IsCommandLineSecure(commandLine: string, cwd: string): AuditResult {
    ChecksShrink(cwd);
    Audit(Checks(cwd), commandLine)
  }

  // ---------- what acceptance means ----------

  /** The command `depth` wrappers down. */
  function Level(check: string -> Check, commandLine: string, depth: nat): Option<string>
    decreases depth
  {
    if depth == 0 then Some(commandLine)
    else
      match check(commandLine)
      case Descend(nested) => Level(check, nested, depth - 1)
      case _ => None
  }

  /** Within the limit, free of chaining and redirection, and run by an allowed binary. */
  ghost predicate IsPlain(commandLine: string) {
    var command := Text.Trim(commandLine);
    && |commandLine| <= MAX_COMMAND_LINE_LENGTH
    && (forall i | 0 <= i < |FORBIDDEN| :: FORBIDDEN[i] !in command)
    && !Text.Includes(command, "$(")
    && Words(command) != []
    && IsAllowedBinary(BinaryName(Words(command)[0]))
  }

  lemma UnrejectedIsPlain(commandLine: string, cwd: string)
    requires !CheckLevel(commandLine, cwd).Reject?
    ensures IsPlain(commandLine)
  {
  }

  predicate NpmAllowed(args: seq<string>)
    requires |args| >= 2
  {
    && (args[1] in INSTALLS ==> forall i | 2 <= i < |args| :: Text.StartsWith(args[i], "-"))
    && (args[1] == "run" ==> |args| > 2 && args[2] in RUN_TARGETS)
    && (FLAG in args || (args[1] == "run" && (args[2] == "memory:context" || args[2] == "policy:dry-run")))
  }

  predicate NodeAllowed(args: seq<string>)
    requires |args| >= 2
  {
    exists i | 0 <= i < |NODE_SCRIPTS| :: Text.EndsWith(DropDotSlash(args[1]), NODE_SCRIPTS[i])
  }

  predicate TurboAllowed(args: seq<string>)
    requires |args| >= 2
  {
    args[1] == "run" ==> |args| > 2 && args[2] in TURBO_TASKS
  }

  /** What the policy allows a plain command to do, binary by binary. */
  predicate AllowedInvocation(args: seq<string>)
    requires args != []
  {
    var name := BinaryName(args[0]);
    && |args| >= 2
    && (IsShell(name) ==> DropDotSlash(args[1]) in SCRIPTS)
    && (name == "npm" ==> NpmAllowed(args))
    && (name == "node" ==> NodeAllowed(args))
    && (name == "turbo" ==> TurboAllowed(args))
  }

  ghost predicate IsAllowed(commandLine: string) {
    IsPlain(commandLine) && AllowedInvocation(Words(Text.Trim(commandLine)))
  }

  lemma NamesApart(name: string)
    requires IsAllowedBinary(name)
    ensures !IsForbiddenBinary(name)
    ensures IsShell(name) ==> name != "npm" && name != "node" && name != "turbo"
    ensures name == "npm" ==> name != "node" && name != "turbo"
    ensures name == "node" ==> name != "turbo"
    ensures IsShell(name) || name == "npm" || name == "node" || name == "turbo"
  {
    if name == "bash" {
      assert name[0] == 'b';
    } else if name == "sh" {
      assert |name| == 2 && name[0] == 's';
    } else if name == "zsh" {
      assert name[0] == 'z';
    } else if name == "npm" || name == "node" {
      assert name[0] == 'n';
    } else {
      assert name == "turbo";
      assert name[0] == 't' && name[1] == 'u';
    }
  }

  lemma ForbiddenIsRejected(args: seq<string>, command: string, cwd: string)
    requires args != [] && !IsAllowedBinary(BinaryName(args[0]))
    ensures CheckBinary(args, command, cwd).Reject?
  {
  }

  lemma AllowedIsDispatched(args: seq<string>, command: string, cwd: string)
    requires args != [] && IsAllowedBinary(BinaryName(args[0]))
    ensures var name := BinaryName(args[0]);
            CheckBinary(args, command, cwd) ==
            if IsShell(name) then CheckShell(args)
            else if name == "npm" then CheckNpm(args, command)
            else if name == "node" then CheckNode(args)
            else CheckTurbo(args)
  {
    NamesApart(BinaryName(args[0]));
  }

  lemma BinaryPassesIff(args: seq<string>, command: string, cwd: string)
    requires args != [] && IsAllowedBinary(BinaryName(args[0]))
    ensures !CheckBinary(args, command, cwd).Reject? <==> AllowedInvocation(args)
  {
    AllowedIsDispatched(args, command, cwd);
    NamesApart(BinaryName(args[0]));
    ShellPassesIff(args);
    NpmPassesIff(args, command);
    NodePassesIff(args);
    TurboPassesIff(args);
    InvocationOf(args);
  }

  lemma InvocationOf(args: seq<string>)
    requires args != [] && IsAllowedBinary(BinaryName(args[0]))
    ensures var name := BinaryName(args[0]);
            AllowedInvocation(args) <==>
            && |args| >= 2
            && if IsShell(name) then DropDotSlash(args[1]) in SCRIPTS
               else if name == "npm" then NpmAllowed(args)
               else if name == "node" then NodeAllowed(args)
               else TurboAllowed(args)
  {
    NamesApart(BinaryName(args[0]));
  }

  lemma ShellPassesIff(args: seq<string>)
    ensures !CheckShell(args).Reject? <==> |args| >= 2 && DropDotSlash(args[1]) in SCRIPTS
  {
  }

  lemma NpmPassesIff(args: seq<string>, command: string)
    ensures !CheckNpm(args, command).Reject? <==> |args| >= 2 && NpmAllowed(args)
  {
  }

  lemma NodePassesIff(args: seq<string>)
    ensures !CheckNode(args).Reject? <==> |args| >= 2 && NodeAllowed(args)
  {
  }

  lemma TurboPassesIff(args: seq<string>)
    ensures !CheckTurbo(args).Reject? <==> |args| >= 2 && TurboAllowed(args)
  {
  }

  /** The checks of one level pass exactly the plain command lines that the policy allows. */
  lemma LevelPassesIff(commandLine: string, cwd: string)
    ensures !CheckLevel(commandLine, cwd).Reject? <==> IsAllowed(commandLine)
  {
    var command := Text.Trim(commandLine);
    var args := Words(command);
    if args != [] && IsAllowedBinary(BinaryName(args[0])) {
      BinaryPassesIff(args, command, cwd);
    } else if args != [] {
      ForbiddenIsRejected(args, command, cwd);
    }
    EmptyHasNoWords();
  }

  lemma EmptyHasNoWords()
    ensures Words("") == []
  {
  }

  ghost predicate NoLevelRejected(check: string -> Check, commandLine: string) {
    forall depth: nat | Level(check, commandLine, depth).Some? :: !check(Level(check, commandLine, depth).value).Reject?
  }

  lemma LevelsBelow(check: string -> Check, commandLine: string)
    requires check(commandLine).Descend?
    ensures NoLevelRejected(check, commandLine) <==> NoLevelRejected(check, check(commandLine).nested)
  {
    var nested := check(commandLine).nested;
    forall depth: nat ensures Level(check, commandLine, depth + 1) == Level(check, nested, depth) {
    }
    if NoLevelRejected(check, nested) {
      forall depth: nat | Level(check, commandLine, depth).Some?
        ensures !check(Level(check, commandLine, depth).value).Reject?
      {
        assert depth > 0 ==> Level(check, commandLine, depth) == Level(check, nested, depth - 1);
      }
    }
  }

  lemma {:induction false} AuditMeans(check: string -> Check, commandLine: string)
    requires Shrinking(check)
    ensures Audit(check, commandLine) == Secure <==> NoLevelRejected(check, commandLine)
    decreases |commandLine|
  {
    assert Level(check, commandLine, 0) == Some(commandLine);
    if check(commandLine).Descend? {
      AuditMeans(check, check(commandLine).nested);
      LevelsBelow(check, commandLine);
    }
  }

  lemma {:induction false} AuditReaches(check: string -> Check, commandLine: string, depth: nat)
    requires Shrinking(check) && Audit(check, commandLine) == Secure && Level(check, commandLine, depth).Some?
    ensures var inner := Level(check, commandLine, depth).value;
            Audit(check, inner) == Secure && !check(inner).Reject? && |inner| + 30 * depth <= |commandLine|
    decreases depth
  {
    if depth > 0 {
      AuditReaches(check, check(commandLine).nested, depth - 1);
    }
  }

  /** A command line is accepted exactly when no level of it, however deep, is rejected. */
  lemma AcceptedIffEveryLevel(commandLine: string, cwd: string)
    ensures IsCommandLineSecure(commandLine, cwd) == Secure <==> NoLevelRejected(Checks(cwd), commandLine)
  {
    ChecksShrink(cwd);
    AuditMeans(Checks(cwd), commandLine);
  }

  /** ... that is, exactly when every level, however deep, is plain and allowed. */
  lemma AcceptedIffEveryLevelAllowed(commandLine: string, cwd: string)
    ensures IsCommandLineSecure(commandLine, cwd) == Secure <==>
            forall depth: nat | Level(Checks(cwd), commandLine, depth).Some? ::
              IsAllowed(Level(Checks(cwd), commandLine, depth).value)
  {
    AcceptedIffEveryLevel(commandLine, cwd);
    var check := Checks(cwd);
    forall depth: nat | Level(check, commandLine, depth).Some?
      ensures !check(Level(check, commandLine, depth).value).Reject? <==>
              IsAllowed(Level(check, commandLine, depth).value)
    {
      LevelPassesIff(Level(check, commandLine, depth).value, cwd);
    }
    if forall depth: nat | Level(check, commandLine, depth).Some? :: IsAllowed(Level(check, commandLine, depth).value) {
      assert NoLevelRejected(check, commandLine);
    } else {
      var depth: nat :| Level(check, commandLine, depth).Some? && !IsAllowed(Level(check, commandLine, depth).value);
      assert check(Level(check, commandLine, depth).value).Reject?;
    }
  }

  /** Acceptance reaches every nested level: each is itself accepted and plain, and 30 characters shorter. */
  lemma AcceptanceIsDeep(commandLine: string, cwd: string, depth: nat)
    requires IsCommandLineSecure(commandLine, cwd) == Secure && Level(Checks(cwd), commandLine, depth).Some?
    ensures var inner := Level(Checks(cwd), commandLine, depth).value;
            IsCommandLineSecure(inner, cwd) == Secure && IsPlain(inner) && |inner| + 30 * depth <= |commandLine|
  {
    ChecksShrink(cwd);
    AuditReaches(Checks(cwd), commandLine, depth);
    UnrejectedIsPlain(Level(Checks(cwd), commandLine, depth).value, cwd);
  }

  // ---------- the suggested sandbox wrapper ----------

  lemma Regroup(a: string, b: string, c: string, d: string, e: string)
    ensures a + b + c + d + e == a + (b + (c + d + e))
  {
  }

  lemma FixShape(command: string, cwd: string)
    ensures SandboxFix(command, cwd) == "bash" + " " + (SANDBOX + " " + QuotedLine([command, cwd]))
  {
    assert [command, cwd][1..] == [cwd];
    assert QuotedLine([cwd]) == Quoted(cwd);
    assert QuotedLine([command, cwd]) == Quoted(command) + " " + Quoted(cwd);
    Regroup("bash" + " ", SANDBOX + " ", Quoted(command), " ", Quoted(cwd));
    assert SandboxFix(command, cwd) == ("bash" + " ") + (SANDBOX + " ") + Quoted(command) + " " + Quoted(cwd);
  }

  lemma FixReads(command: string, cwd: string)
    requires command != "" && cwd != ""
    ensures ReadAll(START, "bash" + " " + (SANDBOX + " " + QuotedLine([command, cwd]))) ==
            State(["bash", SANDBOX, command], cwd, false, false, false)
  {
    var line := QuotedLine([command, cwd]);
    BareThen(START, "bash", SANDBOX + " " + line);
    assert [] + ["bash"] == ["bash"] && ["bash"] + [SANDBOX] == ["bash", SANDBOX];
    SandboxIsBare();
    BareThen(State(["bash"], "", false, false, false), SANDBOX, line);
    LineReads(State(["bash", SANDBOX], "", false, false, false), [command, cwd]);
    assert ["bash", SANDBOX] + [command, cwd][..1] == ["bash", SANDBOX, command];
  }

  lemma SandboxIsBare()
    ensures IsBare(SANDBOX)
  {
  }

  /** Within the length limit the wrapper splits back into the command and the working directory. */
  lemma SandboxFixSplitsBack(command: string, cwd: string)
    requires command != "" && cwd != "" && |SandboxFix(command, cwd)| <= MAX_COMMAND_LINE_LENGTH
    ensures Words(SandboxFix(command, cwd)) == ["bash", SANDBOX, command, cwd]
  {
    FixShape(command, cwd);
    FixReads(command, cwd);
    assert Bounded(SandboxFix(command, cwd)) == SandboxFix(command, cwd);
    assert ["bash", SANDBOX, command] + [cwd] == ["bash", SANDBOX, command, cwd];
  }

  lemma TrimOfTrimmed(s: string)
    requires s != "" && !Text.IsWhiteSpace(s[0]) && !Text.IsWhiteSpace(s[|s| - 1])
    ensures Text.Trim(s) == s
  {
  }

  /** A wrapper that fits the limit is either refused at once or leads down to the wrapped command. */
  lemma SandboxFixDescends(command: string, cwd: string)
    requires command != "" && cwd != "" && |SandboxFix(command, cwd)| <= MAX_COMMAND_LINE_LENGTH
    ensures var c := CheckLevel(SandboxFix(command, cwd), cwd); c.Reject? || c == Descend(command)
  {
    SandboxFixSplitsBack(command, cwd);
    FixIsTrimmed(command, cwd);
    SandboxLineDescends(SandboxFix(command, cwd), command, cwd);
  }

  lemma FixIsTrimmed(command: string, cwd: string)
    ensures SandboxFix(command, cwd) != "" && Text.Trim(SandboxFix(command, cwd)) == SandboxFix(command, cwd)
  {
    var fix := SandboxFix(command, cwd);
    assert fix[0] == 'b' && fix[|fix| - 1] == '\"';
    TrimOfTrimmed(fix);
  }

  lemma SandboxLineDescends(line: string, command: string, cwd: string)
    requires line != "" && Text.Trim(line) == line && |line| <= MAX_COMMAND_LINE_LENGTH
    requires Words(line) == ["bash", SANDBOX, command, cwd]
    ensures CheckLevel(line, cwd).Reject? || CheckLevel(line, cwd) == Descend(command)
  {
    WrapperDescends(Words(line), line, cwd);
  }

  lemma WrapperDescends(args: seq<string>, line: string, cwd: string)
    requires |args| > 2 && args[0] == "bash" && args[1] == SANDBOX
    ensures CheckBinary(args, line, cwd) == Descend(args[2])
  {
    ShellNameItself();
    BashIsShell();
    ShellBinary(args, line, cwd);
    ShellDescends(args);
  }

  lemma ShellBinary(args: seq<string>, line: string, cwd: string)
    requires args != [] && IsShell(BinaryName(args[0])) && !IsForbiddenBinary(BinaryName(args[0]))
    ensures CheckBinary(args, line, cwd) == CheckShell(args)
  {
  }

  lemma BashIsShell()
    ensures IsShell("bash") && !IsForbiddenBinary("bash")
  {
    assert "bash"[0] == 'b';
  }

  lemma ShellDescends(args: seq<string>)
    requires |args| > 2 && args[1] == SANDBOX
    ensures CheckShell(args) == Descend(args[2])
  {
    assert SANDBOX[..2][0] == 's';
    assert DropDotSlash(SANDBOX) == SANDBOX;
  }

  lemma CheckOfTrimmed(commandLine: string, cwd: string)
    requires Text.Trim(commandLine) != "" && |commandLine| <= MAX_COMMAND_LINE_LENGTH
    ensures CheckLevel(Text.Trim(commandLine), cwd) == CheckLevel(commandLine, cwd)
  {
    TrimOfTrimmed(Text.Trim(commandLine));
  }

  /**
   The wrapper suggested for a forbidden toolchain does not get past the auditor either: the command
   inside it is audited again and refused for the same binary.
   */
  lemma SuggestedFixIsRefused(commandLine: string, cwd: string)
    requires cwd != "" && CheckLevel(commandLine, cwd).Reject?
    requires CheckLevel(commandLine, cwd).reason.ForbiddenBinary? && CheckLevel(commandLine, cwd).autofix.Some?
    ensures CheckLevel(commandLine, cwd).autofix ==
            Some(Autofix(Text.Trim(commandLine), SandboxFix(Text.Trim(commandLine), cwd)))
    ensures IsCommandLineSecure(SandboxFix(Text.Trim(commandLine), cwd), cwd).Insecure?
  {
    var command := Text.Trim(commandLine);
    BinaryFix(Words(command), command, cwd);
    ChecksShrink(cwd);
    CheckOfTrimmed(commandLine, cwd);
    assert Audit(Checks(cwd), command).Insecure?;
    if |SandboxFix(command, cwd)| <= MAX_COMMAND_LINE_LENGTH {
      SandboxFixDescends(command, cwd);
    }
  }

  lemma BinaryFix(args: seq<string>, command: string, cwd: string)
    requires args != [] && CheckBinary(args, command, cwd).Reject?
    requires CheckBinary(args, command, cwd).reason.ForbiddenBinary? && CheckBinary(args, command, cwd).autofix.Some?
    ensures CheckBinary(args, command, cwd).autofix == Some(Autofix(command, SandboxFix(command, cwd)))
  {
    if !IsForbiddenBinary(BinaryName(args[0])) {
      NotForbiddenReason(args, command, cwd);
    }
  }

  lemma NotForbiddenReason(args: seq<string>, command: string, cwd: string)
    requires args != [] && !IsForbiddenBinary(BinaryName(args[0])) && CheckBinary(args, command, cwd).Reject?
    ensures !CheckBinary(args, command, cwd).reason.ForbiddenBinary?
  {
    if IsAllowedBinary(BinaryName(args[0])) {
      AllowedIsDispatched(args, command, cwd);
      OtherReasons(args, command);
    }
  }

  lemma OtherReasons(args: seq<string>, command: string)
    ensures CheckShell(args).Reject? ==> !CheckShell(args).reason.ForbiddenBinary?
    ensures CheckNpm(args, command).Reject? ==> !CheckNpm(args, command).reason.ForbiddenBinary?
    ensures CheckNode(args).Reject? ==> !CheckNode(args).reason.ForbiddenBinary?
    ensures CheckTurbo(args).Reject? ==> !CheckTurbo(args).reason.ForbiddenBinary?
  {
  }

  lemma ShellNameItself()
    ensures BinaryName("bash") == "bash"
  {
    PlainNameItself("bash");
  }

  // ---------- the suggested flag ----------

  predicate RunsAllowedTarget(args: seq<string>) {
    |args| >= 2 && (args[1] == "run" ==> |args| > 2 && args[2] in RUN_TARGETS)
  }

  /** The command is npm's, and nothing but the missing flag and the target of a run stands against it. */
  predicate LacksFlag(args: seq<string>) {
    && |args| >= 2 && BinaryName(args[0]) == "npm" && FLAG !in args
    && !(args[1] == "run" && |args| > 2 && (args[2] == "memory:context" || args[2] == "policy:dry-run"))
    && (args[1] in INSTALLS ==> forall i | 2 <= i < |args| :: Text.StartsWith(args[i], "-"))
  }

  lemma ScriptsReason(args: seq<string>, command: string, cwd: string)
    requires args != [] && CheckBinary(args, command, cwd).Reject?
    requires CheckBinary(args, command, cwd).reason.ScriptsNotIgnored?
    ensures LacksFlag(args) && CheckBinary(args, command, cwd).autofix == Some(Autofix(command, command + " " + FLAG))
  {
    var name := BinaryName(args[0]);
    assert IsAllowedBinary(name);
    AllowedIsDispatched(args, command, cwd);
    NamesApart(name);
    NotScriptsReason(args);
    assert name == "npm";
  }

  lemma NotScriptsReason(args: seq<string>)
    ensures CheckShell(args).Reject? ==> !CheckShell(args).reason.ScriptsNotIgnored?
    ensures CheckNode(args).Reject? ==> !CheckNode(args).reason.ScriptsNotIgnored?
    ensures CheckTurbo(args).Reject? ==> !CheckTurbo(args).reason.ScriptsNotIgnored?
  {
  }

  lemma FlagIsBare()
    ensures IsBare(FLAG) && FLAG !in RUN_TARGETS && Text.StartsWith(FLAG, "-")
    ensures forall i | 0 <= i < |FORBIDDEN| :: FORBIDDEN[i] !in FLAG
    ensures '(' !in FLAG && !Text.IsWhiteSpace(FLAG[|FLAG| - 1])
  {
    assert FLAG[0] == '-' && FLAG[|FLAG| - 1] == 's';
    assert FLAG[0..1] == "-";
  }

  lemma FlagNotNamed(args: seq<string>)
    requires LacksFlag(args)
    ensures NpmAllowed(args + [FLAG]) <==> RunsAllowedTarget(args)
  {
    var more := args + [FLAG];
    FlagIsBare();
    assert more[1] == args[1] && more[|args|] == FLAG;
    assert |args| > 2 ==> more[2] == args[2];
    assert forall i | 2 <= i < |args| :: more[i] == args[i];
  }

  /** A word that swallowed the flag has a blank in it, so it names neither the flag nor a safe target. */
  lemma SwallowedFlag(args: seq<string>, word: string)
    requires LacksFlag(args)
    ensures !NpmAllowed(args[..|args| - 1] + [word + " " + FLAG]) && !NpmAllowed(args + [word + " " + FLAG])
  {
    HasBlank(word);
    var swallowed := word + " " + FLAG;
    NotNamed(args[..|args| - 1], swallowed);
    NotNamed(args, swallowed);
    assert forall i | 0 <= i < |args| - 1 :: args[..|args| - 1][i] == args[i];
    var a, b := args[..|args| - 1] + [swallowed], args + [swallowed];
    assert a[1] == args[1] || a[1] == swallowed;
    assert |a| > 2 ==> a[2] == args[2] || a[2] == swallowed;
    assert b[1] == args[1] && (b[2] == swallowed || b[2] == args[2]);
  }

  lemma HasBlank(word: string)
    ensures var s := word + " " + FLAG; s != FLAG && s != "run" && s != "memory:context" && s != "policy:dry-run"
  {
    var s := word + " " + FLAG;
    assert |s| > |FLAG| == 16;
    assert |"memory:context"| == 14 && |"policy:dry-run"| == 14 && |"run"| == 3;
  }

  lemma NotNamed(args: seq<string>, word: string)
    requires FLAG !in args && word != FLAG
    ensures FLAG !in args + [word]
  {
  }

  lemma FlagKeepsPlain(command: string, fixed: string)
    requires fixed == command + " " + FLAG
    requires (forall i | 0 <= i < |FORBIDDEN| :: FORBIDDEN[i] !in command) && !Text.Includes(command, "$(")
    ensures (forall i | 0 <= i < |FORBIDDEN| :: FORBIDDEN[i] !in fixed) && !Text.Includes(fixed, "$(")
  {
    FlagIsBare();
    forall i | 0 <= i < |FORBIDDEN| ensures FORBIDDEN[i] !in fixed {
      assert FORBIDDEN[i] != ' ';
    }
    if Text.Includes(fixed, "$(") {
      var k := Text.IndexOf(fixed, "$(").value;
      Text.HasAtChar(fixed, k, "$(", 1);
      assert fixed[k + 1] == '(';
      assert k + 1 < |command|;
      assert command[k..k + 2] == fixed[k..k + 2];
      assert Text.HasAt(command, k, "$(");
    }
  }

  /**
   The suggestion to append `--ignore-scripts` helps exactly where the command ends outside quotes and escapes,
   so that the flag becomes a word of its own, does not run a target that is not allowed, and leaves room for
   the flag within the length limit.
   */
  lemma SuggestedFlagHelpsIff(commandLine: string, cwd: string)
    requires CheckLevel(commandLine, cwd).Reject? && CheckLevel(commandLine, cwd).reason.ScriptsNotIgnored?
    ensures var command := Text.Trim(commandLine);
            && CheckLevel(commandLine, cwd).autofix == Some(Autofix(command, command + " " + FLAG))
            && (!CheckLevel(command + " " + FLAG, cwd).Reject? <==>
                  && Outside(AtEnd(command)) && RunsAllowedTarget(Words(command))
                  && |command| + |" " + FLAG| <= MAX_COMMAND_LINE_LENGTH)
  {
    var command := Text.Trim(commandLine);
    ScriptsReason(Words(command), command, cwd);
    if |command + " " + FLAG| <= MAX_COMMAND_LINE_LENGTH {
      FlagKeepsPlain(command, command + " " + FLAG);
      TrimmedWithFlag(command);
      FlaggedWords(command);
      LevelPassesIff(command + " " + FLAG, cwd);
    }
  }

  lemma TrimmedWithFlag(command: string)
    requires command != "" && !Text.IsWhiteSpace(command[0])
    ensures Text.Trim(command + " " + FLAG) == command + " " + FLAG
  {
    FlagIsBare();
    var fixed := command + " " + FLAG;
    assert fixed[0] == command[0] && fixed[|fixed| - 1] == FLAG[|FLAG| - 1];
    TrimOfTrimmed(fixed);
  }

  lemma FlaggedWords(command: string)
    requires LacksFlag(Words(command)) && |command + " " + FLAG| <= MAX_COMMAND_LINE_LENGTH
    ensures PassesAsWords(Words(command + " " + FLAG)) <==> Outside(AtEnd(command)) && RunsAllowedTarget(Words(command))
  {
    FlagIsBare();
    AppendedWord(command, FLAG);
    LastWord(command);
    FlaggedCases(Words(command), Words(command + " " + FLAG), AtEnd(command));
  }

  lemma FlaggedCases(args: seq<string>, words: seq<string>, s: State)
    requires LacksFlag(args) && words == if Outside(s) then args + [FLAG] else s.words + [s.current + " " + FLAG]
    requires s.words == if s.current == "" then args else args[..|args| - 1]
    ensures PassesAsWords(words) <==> Outside(s) && RunsAllowedTarget(args)
  {
    if Outside(s) {
      FlagAdded(args);
    } else {
      FlagSwallowed(args, words, s.current);
    }
  }

  /** The words of a plain command that the policy allows. */
  ghost predicate PassesAsWords(words: seq<string>) {
    words != [] && IsAllowedBinary(BinaryName(words[0])) && AllowedInvocation(words)
  }

  lemma FlagAdded(args: seq<string>)
    requires LacksFlag(args)
    ensures PassesAsWords(args + [FLAG]) <==> RunsAllowedTarget(args)
  {
    FlagNotNamed(args);
    NpmInvocation(args + [FLAG]);
  }

  lemma FlagSwallowed(args: seq<string>, words: seq<string>, word: string)
    requires LacksFlag(args)
    requires words == args + [word + " " + FLAG] || words == args[..|args| - 1] + [word + " " + FLAG]
    ensures !PassesAsWords(words)
  {
    SwallowedFlag(args, word);
    assert words[0] == args[0];
    NpmInvocation(words);
  }

  lemma LastWord(command: string)
    requires Words(command) != [] && |command| <= MAX_COMMAND_LINE_LENGTH
    ensures var s := AtEnd(command);
            s.words == if s.current == "" then Words(command) else Words(command)[..|Words(command)| - 1]
  {
    var s := AtEnd(command);
    assert Bounded(command) == command;
    assert (s.words + [s.current])[..|s.words|] == s.words;
  }

  lemma NpmInvocation(args: seq<string>)
    requires |args| >= 2 && BinaryName(args[0]) == "npm"
    ensures IsAllowedBinary(BinaryName(args[0])) && (AllowedInvocation(args) <==> NpmAllowed(args))
  {
    NamesApart("npm");
    InvocationOf(args);
  }

  // ---------- a refused command of each kind ----------

  /** Lower-case letters only: neither a path nor the name of an executable file. */
  predicate IsPlainName(word: string) {
    word != "" && forall i | 0 <= i < |word| :: 'a' <= word[i] <= 'z'
  }

  lemma {:induction false} LowerIsKept(word: string)
    requires forall i | 0 <= i < |word| :: 'a' <= word[i] <= 'z'
    ensures ToLower(word) == word
  {
    if word != "" {
      LowerIsKept(word[1..]);
    }
  }

  lemma PlainNameItself(word: string)
    requires IsPlainName(word)
    ensures BinaryName(word) == word && IsBare(word) && Text.Trim(word) == word
  {
    Text.SplitJoin([word], '/');
    assert DropSlashes(word) == word;
    LowerIsKept(word);
    NoDotNoExe(word);
    TrimOfTrimmed(word);
  }

  lemma NoDotNoExe(word: string)
    requires '.' !in word
    ensures !Text.EndsWith(word, ".exe")
  {
    assert ".exe"[0] == '.';
  }

  lemma NoSubshell(s: string)
    requires '$' !in s
    ensures !Text.Includes(s, "$(")
  {
    if Text.Includes(s, "$(") {
      Text.HasAtChar(s, Text.IndexOf(s, "$(").value, "$(", 0);
    }
  }

  ghost predicate IsPlainLine(line: string) {
    && line != "" && |line| <= MAX_COMMAND_LINE_LENGTH && Text.Trim(line) == line
    && (forall i | 0 <= i < |FORBIDDEN| :: FORBIDDEN[i] !in line) && '$' !in line
  }

  /** The checks of a line that holds none of the characters that are refused at once. */
  lemma PlainLineChecks(line: string, cwd: string)
    ensures IsPlainLine(line) ==>
              CheckLevel(line, cwd) ==
                if Words(line) == [] then Reject(NoArguments, None) else CheckBinary(Words(line), line, cwd)
  {
    if IsPlainLine(line) {
      NoSubshell(line);
    }
  }

  lemma OneBareWord(word: string)
    requires IsBare(word) && |word| <= MAX_COMMAND_LINE_LENGTH
    ensures Words(word) == [word]
  {
    BareReads(START, word);
    assert "" + word == word && Bounded(word) == word && [] + [word] == [word];
  }

  lemma NameIsPlainLine(word: string)
    requires IsPlainName(word) && |word| <= MAX_COMMAND_LINE_LENGTH
    ensures IsPlainLine(word)
  {
    TrimOfTrimmed(word);
  }

  lemma ToolIsRefused(word: string, cwd: string)
    requires IsPlainName(word) && IsToolchain(word) && |word| <= MAX_COMMAND_LINE_LENGTH
    ensures CheckLevel(word, cwd) == Reject(ForbiddenBinary(word), Some(Autofix(word, SandboxFix(word, cwd))))
  {
    PlainNameItself(word);
    OneBareWord(word);
    NameIsPlainLine(word);
    PlainLineChecks(word, cwd);
    ToolchainIsRejected(Words(word), word, cwd);
  }

  lemma ToolchainIsRejected(args: seq<string>, command: string, cwd: string)
    requires args != [] && IsToolchain(BinaryName(args[0]))
    ensures CheckBinary(args, command, cwd) ==
            Reject(ForbiddenBinary(BinaryName(args[0])), Some(Autofix(command, SandboxFix(command, cwd))))
  {
  }

  /** `go` is refused, and so is the wrapper that is suggested for it. */
  lemma SuggestedFixForGoIsRefused()
    ensures CheckLevel("go", "/w") == Reject(ForbiddenBinary("go"), Some(Autofix("go", SandboxFix("go", "/w"))))
    ensures IsCommandLineSecure(SandboxFix("go", "/w"), "/w").Insecure?
  {
    ToolIsRefused("go", "/w");
    PlainNameItself("go");
    SuggestedFixIsRefused("go", "/w");
  }

  const OPEN_QUOTE := "npm test \""

  lemma OpenQuoteWords()
    ensures AtEnd(OPEN_QUOTE) == State(["npm", "test"], "", true, false, false) && Words(OPEN_QUOTE) == ["npm", "test"]
  {
    assert OPEN_QUOTE == "npm" + " " + ("test" + " " + "\"");
    BareThen(START, "npm", "test" + " " + "\"");
    BareThen(State(["npm"], "", false, false, false), "test", "\"");
    OneReads(State(["npm", "test"], "", false, false, false), '\"');
    assert [] + ["npm"] == ["npm"] && ["npm"] + ["test"] == ["npm", "test"] && ['\"'] == "\"";
    assert Bounded(OPEN_QUOTE) == OPEN_QUOTE;
  }

  lemma OpenQuoteIsPlain()
    ensures IsPlainLine(OPEN_QUOTE)
  {
    assert OPEN_QUOTE[0] == 'n' && OPEN_QUOTE[|OPEN_QUOTE| - 1] == '\"';
    TrimOfTrimmed(OPEN_QUOTE);
  }

  lemma TestLineLacksFlag(line: string, cwd: string)
    requires Words(line) == ["npm", "test"]
    ensures IsPlainLine(line) ==>
              CheckLevel(line, cwd) == Reject(ScriptsNotIgnored, Some(Autofix(line, line + " " + FLAG)))
  {
    PlainLineChecks(line, cwd);
    PlainNameItself("npm");
    NamesApart("npm");
    AllowedIsDispatched(Words(line), line, cwd);
    TestLacksFlag(Words(line), line);
  }

  lemma TestLacksFlag(args: seq<string>, command: string)
    requires |args| == 2 && args[0] == "npm" && args[1] == "test"
    ensures CheckNpm(args, command) == Reject(ScriptsNotIgnored, Some(Autofix(command, command + " " + FLAG)))
  {
    assert args[0][0] == 'n' && args[1][0] == 't' && FLAG[0] == '-';
  }

  /** An npm command that ends inside a quote is refused with the suggested flag as without it. */
  lemma SuggestedFlagDoesNotHelp(cwd: string)
    ensures CheckLevel(OPEN_QUOTE, cwd) == Reject(ScriptsNotIgnored, Some(Autofix(OPEN_QUOTE, OPEN_QUOTE + " " + FLAG)))
    ensures CheckLevel(OPEN_QUOTE + " " + FLAG, cwd).Reject?
  {
    OpenQuoteIsPlain();
    OpenQuoteWords();
    TestLineLacksFlag(OPEN_QUOTE, cwd);
    SuggestedFlagHelpsIff(OPEN_QUOTE, cwd);
  }
}
