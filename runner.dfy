/** The process runner of the `yu` command line (`run_command`,
    `execute_command`, `info`). Spawning a child and waiting for it is
    replaced by an oracle that says whether a command string succeeds; what
    the program prints and runs is recorded as a trace of events. */
module Runner {

  datatype Option<T> = None | Some(value: T)

  /** One observable effect: a line said on the console, or a command
      spawned in a child process and waited for. */
  datatype Event = Said(line: string) | Ran(command: string)

  /** How a subcommand ends: it returns normally (exit status 0), the
      program exits with a code, or the process image is replaced by a
      command (`exec`, which does not return). */
  datatype Outcome = Returned | Exited(code: int) | Replaced(command: string)

  /** What the runner reads from its surroundings: the `--verbose` global
      option and, for every command string, whether running it succeeds. */
  datatype Env = Env(verbose: bool, succeeds: string -> bool)

  /** A block handed to `run_command`: the messages it reports with `info`
      and, if it calls `exit`, the exit code. */
  datatype Block = Block(messages: seq<string>, exitCode: Option<int>)

  const REDIRECT := " &>/dev/null"

  /** `info message`: said with the program's prefix, after which the
      message reads unchanged. */
  function Info(message: string): (r: Event)
    ensures r.Said? && |r.line| == |message| + 5
    ensures r.line[..5] == "[yu] " && r.line[5..] == message
  {
    Said("[yu] " + message)
  }

  /** One `info` line per message, in order. */
  function InfoLines(messages: seq<string>): (r: seq<Event>)
    ensures |r| == |messages|
    ensures forall i :: 0 <= i < |r| ==> r[i].Said? && |r[i].line| >= 5 && r[i].line[5..] == messages[i]
  {
    seq(|messages|, i requires 0 <= i < |messages| => Info(messages[i]))
  }

  /** What `execute_command` says before it replaces the process image:
      one said line in verbose mode, nothing otherwise. */
  function Echo(verbose: bool, command: string): (r: seq<Event>)
    ensures |r| == if verbose then 1 else 0
    ensures forall i :: 0 <= i < |r| ==> r[i].Said?
  {
    if verbose then [Info("Executing: " + command)] else []
  }

  /** The default failure path of `run_command`. */
  function FailureNotice(command: string): (r: seq<Event>)
  {
    [Info("Command failed: " + command), Info("Exiting...")]
  }

  /** The command string `run_command` actually runs: the command itself,
      or the command with its output discarded. */
  function Effective(verbose: bool, command: string, showingOutput: bool): (r: string)
    ensures r == command || r == command + REDIRECT
  {
    if showingOutput || verbose then command else command + REDIRECT
  }

  /** The commands a trace spawns, in order. */
  function Commands(trace: seq<Event>): (cmds: seq<string>)
    ensures |cmds| <= |trace|
  {
    if trace == [] then []
    else (if trace[0].Ran? then [trace[0].command] else []) + Commands(trace[1..])
  }

  lemma {:induction false} CommandsAppend(a: seq<Event>, b: seq<Event>)
    ensures Commands(a + b) == Commands(a) + Commands(b)
  {
    if a != [] {
      assert (a + b)[1..] == a[1..] + b;
      CommandsAppend(a[1..], b);
    } else {
      assert a + b == b;
    }
  }

  lemma {:induction false} CommandsOfSaid(lines: seq<Event>)
    requires forall i :: 0 <= i < |lines| ==> lines[i].Said?
    ensures Commands(lines) == []
  {
    if lines != [] {
      CommandsOfSaid(lines[1..]);
    }
  }

  /** What the forked child says and runs: `execute_command(run)`. Its last
      event runs `run`, and everything before it is said. */
  function Launch(verbose: bool, run: string): (r: seq<Event>)
    ensures |r| >= 1 && r[|r| - 1] == Ran(run)
    ensures forall i :: 0 <= i < |r| - 1 ==> r[i].Said?
  {
    Echo(verbose, run) + [Ran(run)]
  }

  /** What the parent says once the child has failed: the block's messages
      if a block is given, otherwise the default notice when failures are
      fatal, otherwise nothing. */
  function FailureReport(run: string, exitOnFailure: bool, block: Option<Block>): (r: seq<Event>)
  {
    if block.Some? then InfoLines(block.value.messages)
    else if exitOnFailure then FailureNotice(run)
    else []
  }

  /** Everything one `run_command` call says and runs. */
  function RunTrace(env: Env, command: string, showingOutput: bool, exitOnFailure: bool, block: Option<Block>): (r: seq<Event>)
  {
    var run := Effective(env.verbose, command, showingOutput);
    Launch(env.verbose, run) + (if env.succeeds(run) then [] else FailureReport(run, exitOnFailure, block))
  }

  /** The code a `run_command` call exits the program with, if it does. */
  function RunExit(env: Env, command: string, showingOutput: bool, exitOnFailure: bool, block: Option<Block>): (r: Option<int>)
  {
    var run := Effective(env.verbose, command, showingOutput);
    if env.succeeds(run) then None
    else if block.Some? then block.value.exitCode
    else if exitOnFailure then Some(1)
    else None
  }

  /** `run_command(command, showing_output:, exit_on_failure:) { block }`:
      rebind the command to discard its output unless it is shown or the
      program is verbose, run it in a child and wait, and on failure either
      yield to the block or take the default path. */
  method RunCommand(env: Env, command: string, showingOutput: bool, exitOnFailure: bool, block: Option<Block>)
    returns (events: seq<Event>, success: bool, exit: Option<int>)
    ensures success == env.succeeds(Effective(env.verbose, command, showingOutput))
    ensures events == RunTrace(env, command, showingOutput, exitOnFailure, block)
    ensures exit == RunExit(env, command, showingOutput, exitOnFailure, block)
  {
    var cmd := command;
    if !(showingOutput || env.verbose) {
      cmd := cmd + REDIRECT;
    }
    // the forked child: execute_command(cmd)
    events := Echo(env.verbose, cmd) + [Ran(cmd)];
    success := env.succeeds(cmd);
    exit := None;
    if !success {
      if block.Some? {
        events := events + InfoLines(block.value.messages);
        exit := block.value.exitCode;
      } else if exitOnFailure {
        events := events + FailureNotice(cmd);
        exit := Some(1);
      }
    }
  }

  /** Output suppression: the command gains the redirect exactly when its
      output is not shown and the program is not verbose; otherwise it runs
      unchanged. */
  lemma SuppressionRule(verbose: bool, command: string, showingOutput: bool)
    ensures Effective(verbose, command, showingOutput) == command + REDIRECT <==> !showingOutput && !verbose
    ensures Effective(verbose, command, showingOutput) == command <==> showingOutput || verbose
  {
    if showingOutput || verbose {
      assert |command + REDIRECT| != |command|;
    }
  }

  lemma CommandsOfLaunch(verbose: bool, run: string)
    ensures Commands(Launch(verbose, run)) == [run]
  {
    CommandsAppend(Echo(verbose, run), [Ran(run)]);
    CommandsOfSaid(Echo(verbose, run));
    assert [Ran(run)][1..] == [];
  }

  lemma CommandsAfterSaid(line: string, rest: seq<Event>)
    ensures Commands([Said(line)] + rest) == Commands(rest)
  {
    assert ([Said(line)] + rest)[1..] == rest;
  }

  /** A `run_command` call spawns exactly one child, for the effective
      command; in verbose mode the child first says the caller's command
      (never redirected then), otherwise the run comes first. Everything
      after the run is said, not run. */
  lemma {:induction false} RunSpawnsOnce(env: Env, command: string, showingOutput: bool, exitOnFailure: bool, block: Option<Block>)
    ensures var run := Effective(env.verbose, command, showingOutput);
            var t := RunTrace(env, command, showingOutput, exitOnFailure, block);
      && Commands(t) == [run]
      && t[..|Launch(env.verbose, run)|] == Launch(env.verbose, run)
      && (forall k :: |Launch(env.verbose, run)| <= k < |t| ==> t[k].Said?)
      && (env.verbose ==> run == command && |t| >= 2 && t[0] == Info("Executing: " + command) && t[1] == Ran(command))
      && (!env.verbose ==> t[0] == Ran(run))
  {
    var run := Effective(env.verbose, command, showingOutput);
    var tail := if env.succeeds(run) then [] else FailureReport(run, exitOnFailure, block);
    CommandsAppend(Launch(env.verbose, run), tail);
    CommandsAppend(Echo(env.verbose, run), [Ran(run)]);
    CommandsOfSaid(Echo(env.verbose, run));
    CommandsOfSaid(tail);
  }

  /** The failure policy: a successful command never exits; a failing one
      with a block exits only as the block says; without a block, a failing
      command exits 1 exactly when failures are fatal, after saying which
      command failed. */
  lemma FailurePolicy(env: Env, command: string, showingOutput: bool, exitOnFailure: bool, block: Option<Block>)
    ensures var run := Effective(env.verbose, command, showingOutput);
            var t := RunTrace(env, command, showingOutput, exitOnFailure, block);
            var e := RunExit(env, command, showingOutput, exitOnFailure, block);
      && (env.succeeds(run) ==> e == None && t == Launch(env.verbose, run))
      && (!env.succeeds(run) && block.Some? ==>
            e == block.value.exitCode && t == Launch(env.verbose, run) + InfoLines(block.value.messages))
      && (!env.succeeds(run) && block.None? ==>
            (e.Some? <==> exitOnFailure)
            && (exitOnFailure ==>
                  e == Some(1) && t[|t| - 2..] == [Info("Command failed: " + run), Info("Exiting...")])
            && (!exitOnFailure ==> t == Launch(env.verbose, run)))
  {
  }

  // ---------------------------------------------------------------------
  // A sequence of steps that stops at the first fatal failure
  // ---------------------------------------------------------------------

  /** One step of a recipe: an `info` message, or a `run_command` call that
      ends the program on failure, either through the default notice
      (`remedy == None`) or through a block that reports a remedy and
      exits 1. */
  datatype Action = Say(message: string) | Sh(command: string, showingOutput: bool, remedy: Option<string>)

  /** What a recipe has done so far, and whether it has exited (with 1). */
  datatype Progress = Progress(trace: seq<Event>, exited: bool)

  /** The block a step hands to `run_command`: report the remedy, exit 1. */
  function RemedyBlock(remedy: Option<string>): (r: Option<Block>)
  {
    if remedy.Some? then Some(Block([remedy.value], Some(1))) else None
  }

  /** Whether the step ends the program. */
  predicate StepFails(env: Env, a: Action)
  {
    a.Sh? && RunExit(env, a.command, a.showingOutput, true, RemedyBlock(a.remedy)).Some?
  }

  /** The events one step produces. */
  function StepEvents(env: Env, a: Action): (r: seq<Event>)
  {
    match a
    case Say(m) => [Info(m)]
    case Sh(c, showing, remedy) => RunTrace(env, c, showing, true, RemedyBlock(remedy))
  }

  /** A command step fails exactly when its effective command fails. */
  lemma StepFailsWhenCommandFails(env: Env, a: Action)
    requires a.Sh?
    ensures StepFails(env, a) <==> !env.succeeds(Effective(env.verbose, a.command, a.showingOutput))
  {
  }

  /** Performing a recipe: every step in order, up to and including the
      first one that fails. */
  function Perform(env: Env, acts: seq<Action>): (r: Progress)
  {
    if acts == [] then Progress([], false)
    else if StepFails(env, acts[0]) then Progress(StepEvents(env, acts[0]), true)
    else
      var rest := Perform(env, acts[1..]);
      Progress(StepEvents(env, acts[0]) + rest.trace, rest.exited)
  }

  /** The commands a recipe would run if every one of them succeeded. */
  function Planned(verbose: bool, acts: seq<Action>): (r: seq<string>)
  {
    if acts == [] then []
    else
      (if acts[0].Sh? then [Effective(verbose, acts[0].command, acts[0].showingOutput)] else [])
      + Planned(verbose, acts[1..])
  }

  /** The position of the first command that fails, |cmds| if none does. */
  function FirstFailure(succeeds: string -> bool, cmds: seq<string>): (n: nat)
    ensures n <= |cmds|
    ensures forall i :: 0 <= i < n ==> succeeds(cmds[i])
    ensures n < |cmds| ==> !succeeds(cmds[n])
  {
    if cmds == [] then 0
    else if !succeeds(cmds[0]) then 0
    else 1 + FirstFailure(succeeds, cmds[1..])
  }

  /** Performing two recipes one after the other is performing their
      concatenation: the second one runs only if the first did not exit. */
  lemma {:induction false} PerformAppend(env: Env, a: seq<Action>, b: seq<Action>)
    ensures Perform(env, a + b)
         == if Perform(env, a).exited then Perform(env, a)
            else Progress(Perform(env, a).trace + Perform(env, b).trace, Perform(env, b).exited)
  {
    if a != [] {
      assert (a + b)[0] == a[0];
      assert (a + b)[1..] == a[1..] + b;
      PerformAppend(env, a[1..], b);
    } else {
      assert a + b == b;
    }
  }

  lemma StepCommands(env: Env, a: Action)
    ensures Commands(StepEvents(env, a)) == if a.Sh? then [Effective(env.verbose, a.command, a.showingOutput)] else []
  {
    if a.Sh? {
      RunSpawnsOnce(env, a.command, a.showingOutput, true, RemedyBlock(a.remedy));
    } else {
      CommandsOfSaid(StepEvents(env, a));
    }
  }

  /** The commands up to and including the first failing one. */
  function UpToFailure(succeeds: string -> bool, cmds: seq<string>): (r: seq<string>)
  {
    if cmds == [] then []
    else if !succeeds(cmds[0]) then [cmds[0]]
    else [cmds[0]] + UpToFailure(succeeds, cmds[1..])
  }

  lemma {:induction false} UpToFailureIsPrefix(succeeds: string -> bool, cmds: seq<string>)
    ensures var n := FirstFailure(succeeds, cmds);
            UpToFailure(succeeds, cmds) == cmds[..if n < |cmds| then n + 1 else |cmds|]
  {
    if cmds != [] && succeeds(cmds[0]) {
      UpToFailureIsPrefix(succeeds, cmds[1..]);
      var n' := FirstFailure(succeeds, cmds[1..]);
      assert cmds[1..][..if n' < |cmds| - 1 then n' + 1 else |cmds| - 1]
          == cmds[1..if n' + 1 < |cmds| then n' + 2 else |cmds|];
    }
  }

  lemma {:induction false} PerformRunsUpToFailure(env: Env, acts: seq<Action>)
    ensures var cmds := Planned(env.verbose, acts);
            && Commands(Perform(env, acts).trace) == UpToFailure(env.succeeds, cmds)
            && (Perform(env, acts).exited <==> FirstFailure(env.succeeds, cmds) < |cmds|)
  {
    if acts != [] {
      var a := acts[0];
      PerformRunsUpToFailure(env, acts[1..]);
      StepCommands(env, a);
      var rest := Perform(env, acts[1..]);
      var cmds := Planned(env.verbose, acts);
      var cmds' := Planned(env.verbose, acts[1..]);
      if !a.Sh? {
        assert cmds == cmds';
        CommandsAppend(StepEvents(env, a), rest.trace);
      } else {
        var run := Effective(env.verbose, a.command, a.showingOutput);
        StepFailsWhenCommandFails(env, a);
        assert cmds == [run] + cmds';
        assert cmds[1..] == cmds';
        if !StepFails(env, a) {
          CommandsAppend(StepEvents(env, a), rest.trace);
        }
      }
    }
  }

  /** The fatal-failure rule: a recipe runs its planned commands in order up
      to and including the first failing one, and exits exactly when one of
      them fails. */
  lemma PerformStopsAtFirstFailure(env: Env, acts: seq<Action>)
    ensures var cmds := Planned(env.verbose, acts);
            var n := FirstFailure(env.succeeds, cmds);
            && Commands(Perform(env, acts).trace) == cmds[..if n < |cmds| then n + 1 else |cmds|]
            && (Perform(env, acts).exited <==> n < |cmds|)
  {
    PerformRunsUpToFailure(env, acts);
    UpToFailureIsPrefix(env.succeeds, Planned(env.verbose, acts));
  }

  lemma {:induction false} PlannedAppend(verbose: bool, a: seq<Action>, b: seq<Action>)
    ensures Planned(verbose, a + b) == Planned(verbose, a) + Planned(verbose, b)
  {
    if a != [] {
      assert (a + b)[0] == a[0];
      assert (a + b)[1..] == a[1..] + b;
      PlannedAppend(verbose, a[1..], b);
    } else {
      assert a + b == b;
    }
  }

  lemma PerformSingle(env: Env, a: Action)
    ensures Perform(env, [a]) == Progress(StepEvents(env, a), StepFails(env, a))
  {
    assert [a][1..] == [];
  }

  /** One more step after a recipe that has not exited. */
  lemma PerformSnoc(env: Env, done: seq<Action>, a: Action)
    requires !Perform(env, done).exited
    ensures Perform(env, done + [a]) == Progress(Perform(env, done).trace + StepEvents(env, a), StepFails(env, a))
  {
    PerformAppend(env, done, [a]);
    PerformSingle(env, a);
  }
}
