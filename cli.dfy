/** The five subcommands of the `yu` command line (`test`, `build`,
    `shell`, `reset`, `doctor`) and `package_gems_for_container`. Each
    subcommand is a method that performs its steps in `yu`'s order and
    returns the trace of what it said and ran together with how it ended. */
module Cli {
  import opened Paths
  import opened Runner

  lemma ConcatAssoc<T>(a: seq<T>, b: seq<T>, c: seq<T>)
    ensures a + (b + c) == a + b + c
  {
  }

  // ---------------------------------------------------------------------
  // Fatal steps and package_gems_for_container
  // ---------------------------------------------------------------------

  /** An announcement followed by a command whose output is shown and whose
      failure ends the program (`info m; run_command c`). */
  function FatalStep(message: string, command: string): (r: seq<Action>)
  {
    [Say(message), Sh(command, true, None)]
  }

  lemma PlannedFatalStep(verbose: bool, message: string, command: string)
    ensures Planned(verbose, FatalStep(message, command)) == [command]
  {
    var s := FatalStep(message, command);
    assert s[1..] == [Sh(command, true, None)];
    assert s[1..][1..] == [];
    assert Planned(verbose, s[1..][1..]) == [];
    assert Planned(verbose, s[1..]) == [command];
  }

  /** Performing an announced fatal command after a recipe that has not
      exited: the announcement, then the run, which exits exactly when the
      run does. */
  lemma FatalStepDone(env: Env, done: seq<Action>, message: string, command: string)
    requires !Perform(env, done).exited
    ensures Perform(env, done + FatalStep(message, command))
         == Progress(Perform(env, done).trace + [Info(message)] + RunTrace(env, command, true, true, None),
                     RunExit(env, command, true, true, None).Some?)
  {
    var s := FatalStep(message, command);
    var run := Sh(command, true, None);
    assert s[1..] == [run];
    PerformSingle(env, run);
    var t := RunTrace(env, command, true, true, None);
    assert Perform(env, s) == Progress([Info(message)] + t, RunExit(env, command, true, true, None).Some?);
    PerformAppend(env, done, s);
    ConcatAssoc(Perform(env, done).trace, [Info(message)], t);
  }

  function PackageCommand(container: string): (r: string)
  {
    "cd " + container + " && bundle package --all"
  }

  /** The two steps of packaging one container. */
  function PackageStep(container: string): (r: seq<Action>)
  {
    FatalStep("Packaging gems for " + container, PackageCommand(container))
  }

  /** `containers.each(&method(:package_gems_for_container))` as a recipe. */
  function PackageActions(containers: seq<string>): (r: seq<Action>)
  {
    if containers == [] then []
    else PackageActions(containers[..|containers| - 1]) + PackageStep(containers[|containers| - 1])
  }

  lemma {:induction false} PackageActionsSplit(containers: seq<string>, k: nat)
    requires k <= |containers|
    ensures PackageActions(containers) == PackageActions(containers[..k]) + PackageActions(containers[k..])
  {
    if k < |containers| {
      var n := |containers|;
      var init := containers[..n - 1];
      PackageActionsSplit(init, k);
      assert init[..k] == containers[..k];
      assert containers[k..][..|containers[k..]| - 1] == init[k..];
      assert containers[k..][|containers[k..]| - 1] == containers[n - 1];
    } else {
      assert containers[..k] == containers;
      assert containers[k..] == [];
    }
  }

  /** Packaging runs `cd <c> && bundle package --all` for every container in
      order, each with its output shown. */
  lemma {:induction false} PlannedPackaging(verbose: bool, containers: seq<string>)
    ensures Planned(verbose, PackageActions(containers))
         == seq(|containers|, i requires 0 <= i < |containers| => PackageCommand(containers[i]))
  {
    if containers != [] {
      var n := |containers|;
      PlannedPackaging(verbose, containers[..n - 1]);
      PlannedAppend(verbose, PackageActions(containers[..n - 1]), PackageStep(containers[n - 1]));
      PlannedFatalStep(verbose, "Packaging gems for " + containers[n - 1], PackageCommand(containers[n - 1]));
    }
  }

  /** `info message; run_command command`: announce, then run the command
      with its output shown, exiting 1 if it fails. */
  method InfoThenRun(env: Env, message: string, command: string) returns (events: seq<Event>, exit: Option<int>)
    ensures Perform(env, FatalStep(message, command)) == Progress(events, exit.Some?)
    ensures exit.Some? ==> exit == Some(1)
  {
    var ran, success;
    events := [Info(message)];
    ran, success, exit := RunCommand(env, command, true, true, None);
    events := events + ran;
    FatalStepDone(env, [], message, command);
    assert [] + FatalStep(message, command) == FatalStep(message, command);
  }

  /** package_gems_for_container */
  method PackageGems(env: Env, container: string) returns (events: seq<Event>, exit: Option<int>)
    ensures Perform(env, PackageStep(container)) == Progress(events, exit.Some?)
    ensures exit.Some? ==> exit == Some(1)
  {
    events, exit := InfoThenRun(env, "Packaging gems for " + container, PackageCommand(container));
  }

  /** `containers.each(&method(:package_gems_for_container))`: package the
      containers in order; the first failure ends the program. */
  method PackageEach(env: Env, containers: seq<string>) returns (trace: seq<Event>, exit: Option<int>)
    ensures Perform(env, PackageActions(containers)) == Progress(trace, exit.Some?)
    ensures exit.Some? ==> exit == Some(1)
  {
    trace := [];
    exit := None;
    var i := 0;
    while i < |containers|
      invariant 0 <= i <= |containers|
      invariant Perform(env, PackageActions(containers[..i])) == Progress(trace, false)
      invariant exit == None
    {
      var events;
      events, exit := PackageGems(env, containers[i]);
      assert containers[..i + 1][..i] == containers[..i];
      assert PackageActions(containers[..i + 1]) == PackageActions(containers[..i]) + PackageStep(containers[i]);
      PerformAppend(env, PackageActions(containers[..i]), PackageStep(containers[i]));
      trace := trace + events;
      if exit.Some? {
        PackageActionsSplit(containers, i + 1);
        PerformAppend(env, PackageActions(containers[..i + 1]), PackageActions(containers[i + 1..]));
        return;
      }
      i := i + 1;
    }
    assert containers[..i] == containers;
  }

  // ---------------------------------------------------------------------
  // test
  // ---------------------------------------------------------------------

  function TestCommand(container: string): (r: string)
  {
    "docker-compose run --rm " + container + " bin/test"
  }

  /** The containers `test` runs: those holding `bin/test` when no argument
      is given, otherwise the arguments' basenames. */
  function TestTargets(listing: seq<Entry>, args: seq<string>): (r: seq<string>)
    ensures args == [] && ValidListing(listing) ==> r == DirsHolding(listing, "bin/test")
    ensures args != [] ==> |r| == |args| && forall i :: 0 <= i < |args| ==> r[i] == Basename(args[i])
  {
    if |args| == 0 then TestableContainers(listing) else Normalised(args)
  }

  /** What testing one container says and runs. */
  function TestEvents(verbose: bool, container: string): (r: seq<Event>)
  {
    [Info("Running tests for " + container + "...")] + Launch(verbose, TestCommand(container))
  }

  /** What testing all the containers says and runs. */
  function TestTrace(verbose: bool, containers: seq<string>): (r: seq<Event>)
  {
    if containers == [] then []
    else TestTrace(verbose, containers[..|containers| - 1]) + TestEvents(verbose, containers[|containers| - 1])
  }

  lemma TestTraceSnoc(verbose: bool, containers: seq<string>, i: nat)
    requires i < |containers|
    ensures TestTrace(verbose, containers[..i + 1]) == TestTrace(verbose, containers[..i]) + TestEvents(verbose, containers[i])
  {
    assert containers[..i + 1][..i] == containers[..i];
  }

  /** A run that is not fatal and has no block says nothing more when it
      fails and never exits: its failing status goes back to the caller. */
  lemma NonFatalRun(env: Env, command: string)
    ensures RunTrace(env, command, true, false, None) == Launch(env.verbose, command)
    ensures RunExit(env, command, true, false, None) == None
  {
  }

  /** Every target is tested, in order, even after an earlier failure. */
  lemma {:induction false} TestTraceRunsEveryTarget(verbose: bool, containers: seq<string>)
    ensures Commands(TestTrace(verbose, containers))
         == seq(|containers|, i requires 0 <= i < |containers| => TestCommand(containers[i]))
  {
    if containers != [] {
      var n := |containers|;
      var c := containers[n - 1];
      var init := containers[..n - 1];
      TestTraceRunsEveryTarget(verbose, init);
      CommandsAppend(TestTrace(verbose, init), TestEvents(verbose, c));
      CommandsAfterSaid("[yu] Running tests for " + c + "...", Launch(verbose, TestCommand(c)));
      CommandsOfLaunch(verbose, TestCommand(c));
      assert Commands(TestTrace(verbose, containers))
          == seq(n - 1, i requires 0 <= i < n - 1 => TestCommand(init[i])) + [TestCommand(c)];
    }
  }

  /** Target selection: with no arguments, exactly the directories holding
      `bin/test`; with arguments, their basenames in argument order, whatever
      the listing holds. */
  lemma TestSelection(listing: seq<Entry>, args: seq<string>)
    requires ValidListing(listing)
    ensures args == [] ==>
      forall c :: c in TestTargets(listing, args) <==>
        exists i :: 0 <= i < |listing| && listing[i].dir == c && listing[i].file == "bin/test"
    ensures args != [] ==>
      && |TestTargets(listing, args)| == |args|
      && (forall i :: 0 <= i < |args| ==> TestTargets(listing, args)[i] == Basename(args[i]))
      && TestTargets(listing, args) == TestTargets([], args)
  {
  }

  /** Whether the tests of one container pass. */
  predicate TestPasses(env: Env, container: string)
  {
    env.succeeds(TestCommand(container))
  }

  /** The `results.all?(&:success?)` verdict. */
  predicate AllPass(env: Env, containers: seq<string>)
  {
    forall i :: 0 <= i < |containers| ==> TestPasses(env, containers[i])
  }

  /** `target_containers.map { ... run_command(..., exit_on_failure: false) }`:
      announce and run the tests of every container in order, collecting
      whether each passed; a failure does not stop the others. */
  method RunEachTest(env: Env, targets: seq<string>) returns (trace: seq<Event>, results: seq<bool>)
    ensures trace == TestTrace(env.verbose, targets)
    ensures |results| == |targets|
    ensures forall j :: 0 <= j < |targets| ==> results[j] == TestPasses(env, targets[j])
  {
    results := [];
    trace := [];
    var i := 0;
    while i < |targets|
      invariant 0 <= i <= |targets|
      invariant trace == TestTrace(env.verbose, targets[..i])
      invariant |results| == i
      invariant forall j :: 0 <= j < i ==> results[j] == TestPasses(env, targets[j])
    {
      var container := targets[i];
      ghost var before := trace;
      trace := trace + [Info("Running tests for " + container + "...")];
      var events, success, exit := RunCommand(env, TestCommand(container), true, false, None);
      NonFatalRun(env, TestCommand(container));
      assert success == TestPasses(env, container);
      trace := trace + events;
      ConcatAssoc(before, [Info("Running tests for " + container + "...")], events);
      TestTraceSnoc(env.verbose, targets, i);
      ghost var previous := results;
      results := results + [success];
      assert forall j :: 0 <= j < i ==> results[j] == previous[j];
      i := i + 1;
    }
    assert targets[..i] == targets;
  }

  /** `test`: run the tests of every target without stopping at a failure,
      then exit 1 unless all of them passed. */
  method Test(env: Env, listing: seq<Entry>, args: seq<string>) returns (trace: seq<Event>, outcome: Outcome)
    ensures var targets := TestTargets(listing, args);
      && trace == TestTrace(env.verbose, targets)
      && Commands(trace) == seq(|targets|, i requires 0 <= i < |targets| => TestCommand(targets[i]))
      && outcome == (if AllPass(env, targets) then Returned else Exited(1))
  {
    var targets;
    if |args| == 0 {
      targets := TestableContainers(listing);
    } else {
      targets := Normalised(args);
    }
    var results;
    trace, results := RunEachTest(env, targets);
    TestTraceRunsEveryTarget(env.verbose, targets);
    if forall j | 0 <= j < |results| :: results[j] {
      outcome := Returned;
    } else {
      outcome := Exited(1);
    }
  }

  // ---------------------------------------------------------------------
  // build
  // ---------------------------------------------------------------------

  /** The command `build` replaces the process with: the build prefix,
      then the targets, ending with the last one. */
  function BuildCommand(targets: seq<string>): (r: string)
    ensures |r| >= 21 && r[..21] == "docker-compose build "
    ensures targets != [] ==> |targets[|targets| - 1]| <= |r| - 21 && r[|r| - |targets[|targets| - 1]|..] == targets[|targets| - 1]
  {
    "docker-compose build " + Join(targets, " ")
  }

  /** The containers `build` packages: every Gemfile directory when no target
      is named, otherwise the Gemfile directories among the targets. */
  function BuildPackaging(listing: seq<Entry>, targets: seq<string>): (r: seq<string>)
    ensures forall c :: c in r ==> c in GemfiledContainers(listing)
    ensures targets != [] ==> forall c :: c in r <==> c in GemfiledContainers(listing) && c in targets
    ensures targets == [] ==> r == GemfiledContainers(listing)
  {
    if |targets| == 0 then GemfiledContainers(listing)
    else Intersect(GemfiledContainers(listing), targets)
  }

  /** What `build` does before replacing itself. */
  function BuildActions(listing: seq<Entry>, targets: seq<string>): (r: seq<Action>)
  {
    PackageActions(BuildPackaging(listing, targets)) + [Say("Building images...")]
  }

  /** Packaging selection: a container is packaged exactly when it holds a
      Gemfile and either no target is named or it is among the targets; with
      targets, the order is that of the Gemfile directories, each once. */
  lemma BuildSelection(listing: seq<Entry>, args: seq<string>)
    requires ValidListing(listing)
    ensures var targets := Normalised(args);
            var packaging := BuildPackaging(listing, targets);
      && (forall c :: c in packaging <==>
            (exists i :: 0 <= i < |listing| && listing[i].dir == c && listing[i].file == "Gemfile")
            && (args == [] || c in targets))
      && (args != [] ==> forall i, j :: 0 <= i < j < |packaging| ==>
            FirstIndex(GemfiledContainers(listing), packaging[i]) < FirstIndex(GemfiledContainers(listing), packaging[j]))
  {
  }

  /** `build`'s commands: the packaging commands in order up to the first
      failing one, which exits 1; otherwise the recipe does not exit. */
  lemma BuildRunsPackagingThenBuild(env: Env, listing: seq<Entry>, targets: seq<string>)
    ensures var packaging := BuildPackaging(listing, targets);
            var cmds := seq(|packaging|, i requires 0 <= i < |packaging| => PackageCommand(packaging[i]));
            var n := FirstFailure(env.succeeds, cmds);
            var p := Perform(env, BuildActions(listing, targets));
      && Commands(p.trace) == cmds[..if n < |cmds| then n + 1 else |cmds|]
      && (p.exited <==> n < |cmds|)
  {
    var packaging := BuildPackaging(listing, targets);
    var acts := BuildActions(listing, targets);
    var cmds := seq(|packaging|, i requires 0 <= i < |packaging| => PackageCommand(packaging[i]));
    PlannedAppend(env.verbose, PackageActions(packaging), [Say("Building images...")]);
    PlannedPackaging(env.verbose, packaging);
    assert Planned(env.verbose, [Say("Building images...")]) == [];
    assert Planned(env.verbose, acts) == cmds + [];
    assert cmds + [] == cmds;
    PerformStopsAtFirstFailure(env, acts);
  }

  /** With no target, the build command names none; with one, it names
      exactly that one. */
  lemma BuildCommandTargets(name: string)
    ensures BuildCommand([]) == "docker-compose build "
    ensures BuildCommand([name]) == "docker-compose build " + name
  {
  }

  /** The build command names exactly the targets, in order, when none of
      them contains a space. */
  lemma BuildCommandNamesTargets(targets: seq<string>)
    requires targets != []
    requires forall i :: 0 <= i < |targets| ==> ' ' !in targets[i]
    ensures var prefix := "docker-compose build ";
      && BuildCommand(targets)[..|prefix|] == prefix
      && Split(BuildCommand(targets)[|prefix|..], ' ') == targets
  {
    var prefix := "docker-compose build ";
    assert BuildCommand(targets)[|prefix|..] == Join(targets, " ");
    SplitJoin(targets, ' ');
  }

  /** `build`: package the selected containers (fatal on failure), then
      replace the process with the build of the named targets. */
  method Build(env: Env, listing: seq<Entry>, args: seq<string>) returns (trace: seq<Event>, outcome: Outcome)
    ensures var targets := Normalised(args);
            var p := Perform(env, BuildActions(listing, targets));
      && trace == (if p.exited then p.trace else p.trace + Echo(env.verbose, BuildCommand(targets)))
      && outcome == (if p.exited then Exited(1) else Replaced(BuildCommand(targets)))
  {
    var targets := Normalised(args);
    var packaging;
    if |targets| == 0 {
      packaging := GemfiledContainers(listing);
    } else {
      packaging := Intersect(GemfiledContainers(listing), targets);
    }
    var exit;
    trace, exit := PackageEach(env, packaging);
    PerformAppend(env, PackageActions(packaging), [Say("Building images...")]);
    if exit.Some? {
      outcome := Exited(exit.value);
      return;
    }
    PerformSingle(env, Say("Building images..."));
    trace := trace + [Info("Building images...")];
    var command := "docker-compose build " + Join(targets, " ");
    trace := trace + Echo(env.verbose, command);
    outcome := Replaced(command);
  }

  // ---------------------------------------------------------------------
  // shell
  // ---------------------------------------------------------------------

  /** The shell `shell` replaces the process with; without `--test` the
      empty environment option still leaves its separating space. */
  function ShellCommand(container: string, testEnv: bool): (r: string)
    ensures testEnv ==> r == "docker-compose run --rm -e APP_ENV=test " + container + " bash"
    ensures !testEnv ==> r == "docker-compose run --rm  " + container + " bash"
  {
    "docker-compose run --rm " + (if testEnv then "-e APP_ENV=test" else "") + " " + container + " bash"
  }

  /** The announcement before the shell starts; without `--test` the
      interpolated nil leaves two spaces after "Loading". */
  function ShellBanner(container: string, testEnv: bool): (r: string)
    ensures testEnv ==> r == "Loading test shell for " + container + "..."
    ensures !testEnv ==> r == "Loading  shell for " + container + "..."
  {
    "Loading " + (if testEnv then "test" else "") + " shell for " + container + "..."
  }

  /** `shell`: exactly one argument replaces the process with a shell in
      that container (with the test environment when `--test` is given);
      any other count is a usage error that exits 1. No child is spawned. */
  method Shell(env: Env, args: seq<string>, testEnv: bool) returns (trace: seq<Event>, outcome: Outcome)
    ensures Commands(trace) == []
    ensures outcome.Replaced? <==> |args| == 1
    ensures |args| == 1 ==>
      var container := Basename(args[0]);
      && outcome == Replaced(ShellCommand(container, testEnv))
      && trace == [Info(ShellBanner(container, testEnv))] + Echo(env.verbose, ShellCommand(container, testEnv))
    ensures |args| == 0 ==> trace == [Info("Please provide container")] && outcome == Exited(1)
    ensures |args| >= 2 ==> trace == [Info("One at a time please!")] && outcome == Exited(1)
  {
    if |args| == 0 {
      trace := [Info("Please provide container")];
      outcome := Exited(1);
      CommandsOfSaid(trace);
    } else if |args| == 1 {
      var container := Basename(args[0]);
      trace := [Info(ShellBanner(container, testEnv))];
      var command := ShellCommand(container, testEnv);
      trace := trace + Echo(env.verbose, command);
      outcome := Replaced(command);
      CommandsOfSaid(trace);
    } else {
      trace := [Info("One at a time please!")];
      outcome := Exited(1);
      CommandsOfSaid(trace);
    }
  }

  /** The container a shell opens in is the argument's basename, so a
      directory path and its last component open the same shell. */
  lemma ShellOpensBasename(dir: string, name: string, testEnv: bool)
    requires IsSegment(name)
    ensures ShellCommand(Basename(dir + "/" + name), testEnv) == ShellCommand(Basename(name), testEnv)
    ensures ShellCommand(Basename(name), testEnv) == ShellCommand(name, testEnv)
  {
    BasenameOfNestedPath(dir, name);
    BasenameOfSegment(name);
  }

  // ---------------------------------------------------------------------
  // reset
  // ---------------------------------------------------------------------

  const RESET_BANNER := "Packaging gems in all services containing a Gemfile"

  /** The steps of `reset` after packaging; the seed step is there only when
      the seed script exists. */
  function ResetTail(seedExists: bool): (r: seq<Action>)
  {
    FatalStep("Killing any running containers", "docker-compose kill")
    + (FatalStep("Removing all existing containers", "docker-compose rm --force")
    + (FatalStep("Building fresh images", "docker-compose build")
    + ((if seedExists then FatalStep("Seeding system state", "./seed") else [])
    + FatalStep("Bringing all containers up", "docker-compose up -d --no-recreate"))))
  }

  /** Everything `reset` does, in order. */
  function ResetActions(listing: seq<Entry>, seedExists: bool): (r: seq<Action>)
  {
    [Say(RESET_BANNER)] + PackageActions(GemfiledContainers(listing)) + ResetTail(seedExists)
  }

  /** The commands `reset` runs when all of them succeed. */
  function ResetCommands(listing: seq<Entry>, seedExists: bool): (r: seq<string>)
  {
    var g := GemfiledContainers(listing);
    seq(|g|, i requires 0 <= i < |g| => PackageCommand(g[i]))
    + ["docker-compose kill", "docker-compose rm --force", "docker-compose build"]
    + (if seedExists then ["./seed"] else [])
    + ["docker-compose up -d --no-recreate"]
  }

  /** The commands of four announced fatal commands around an optional
      middle part. */
  lemma PlannedFatalChain(verbose: bool, m1: string, c1: string, m2: string, c2: string, m3: string, c3: string,
                          middle: seq<Action>, middleCmds: seq<string>, m4: string, c4: string)
    requires Planned(verbose, middle) == middleCmds
    ensures Planned(verbose, FatalStep(m1, c1) + (FatalStep(m2, c2) + (FatalStep(m3, c3) + (middle + FatalStep(m4, c4)))))
         == [c1, c2, c3] + middleCmds + [c4]
  {
    PlannedFatalStep(verbose, m1, c1);
    PlannedFatalStep(verbose, m2, c2);
    PlannedFatalStep(verbose, m3, c3);
    PlannedFatalStep(verbose, m4, c4);
    PlannedAppend(verbose, middle, FatalStep(m4, c4));
    PlannedAppend(verbose, FatalStep(m3, c3), middle + FatalStep(m4, c4));
    PlannedAppend(verbose, FatalStep(m2, c2), FatalStep(m3, c3) + (middle + FatalStep(m4, c4)));
    PlannedAppend(verbose, FatalStep(m1, c1), FatalStep(m2, c2) + (FatalStep(m3, c3) + (middle + FatalStep(m4, c4))));
  }

  /** The commands of the steps after packaging. */
  lemma PlannedResetTail(verbose: bool, seedExists: bool)
    ensures Planned(verbose, ResetTail(seedExists))
         == ["docker-compose kill", "docker-compose rm --force", "docker-compose build"]
            + (if seedExists then ["./seed"] else []) + ["docker-compose up -d --no-recreate"]
  {
    var seed := if seedExists then FatalStep("Seeding system state", "./seed") else [];
    PlannedFatalStep(verbose, "Seeding system state", "./seed");
    PlannedFatalChain(verbose, "Killing any running containers", "docker-compose kill",
      "Removing all existing containers", "docker-compose rm --force",
      "Building fresh images", "docker-compose build",
      seed, if seedExists then ["./seed"] else [],
      "Bringing all containers up", "docker-compose up -d --no-recreate");
  }

  /** The commands of the whole recipe. */
  lemma PlannedReset(verbose: bool, listing: seq<Entry>, seedExists: bool)
    ensures Planned(verbose, ResetActions(listing, seedExists)) == ResetCommands(listing, seedExists)
  {
    var g := GemfiledContainers(listing);
    var head := [Say(RESET_BANNER)];
    assert Planned(verbose, head) == [];
    PlannedAppend(verbose, head, PackageActions(g));
    PlannedAppend(verbose, head + PackageActions(g), ResetTail(seedExists));
    PlannedPackaging(verbose, g);
    PlannedResetTail(verbose, seedExists);
    var pkg := seq(|g|, i requires 0 <= i < |g| => PackageCommand(g[i]));
    assert Planned(verbose, ResetActions(listing, seedExists)) == [] + pkg + Planned(verbose, ResetTail(seedExists));
  }

  /** `reset`'s order: package every Gemfile directory, kill, remove,
      rebuild, seed only when the seed script exists, then bring everything
      up; it stops with exit 1 at the first command that fails. */
  lemma ResetStopsAtFirstFailure(env: Env, listing: seq<Entry>, seedExists: bool)
    ensures var cmds := ResetCommands(listing, seedExists);
            var n := FirstFailure(env.succeeds, cmds);
            var p := Perform(env, ResetActions(listing, seedExists));
      && Planned(env.verbose, ResetActions(listing, seedExists)) == cmds
      && Commands(p.trace) == cmds[..if n < |cmds| then n + 1 else |cmds|]
      && (p.exited <==> n < |cmds|)
  {
    PlannedReset(env.verbose, listing, seedExists);
    PerformStopsAtFirstFailure(env, ResetActions(listing, seedExists));
  }

  /** The seed step is planned exactly when the seed script exists, so a
      missing seed can neither run nor fail. */
  lemma ResetSeedsOnlyWithSeed(listing: seq<Entry>, seedExists: bool)
    ensures "./seed" in ResetCommands(listing, seedExists) <==> seedExists
  {
    var g := GemfiledContainers(listing);
    var pkg := seq(|g|, i requires 0 <= i < |g| => PackageCommand(g[i]));
    forall i | 0 <= i < |pkg| ensures pkg[i] != "./seed" {
      assert pkg[i][0] == 'c';
    }
  }

  /** A recipe `plan == done + (next + rest)` in which `done` has run without
      exiting and `next` runs as given: afterwards `done + next` has run, and
      if `next` exited, so did the whole plan. */
  lemma Advance(env: Env, done: seq<Action>, trace: seq<Event>, next: seq<Action>, rest: seq<Action>,
                events: seq<Event>, failed: bool)
    requires Perform(env, done) == Progress(trace, false)
    requires Perform(env, next) == Progress(events, failed)
    ensures done + (next + rest) == done + next + rest
    ensures Perform(env, done + next) == Progress(trace + events, failed)
    ensures failed ==> Perform(env, done + next + rest) == Progress(trace + events, true)
  {
    PerformAppend(env, done, next);
    PerformAppend(env, done + next, rest);
    ConcatAssoc(done, next, rest);
  }

  /** `reset`: every step is fatal, so it stops at the first failing one. */
  method Reset(env: Env, listing: seq<Entry>, seedExists: bool) returns (trace: seq<Event>, outcome: Outcome)
    ensures var p := Perform(env, ResetActions(listing, seedExists));
      && trace == p.trace
      && outcome == (if p.exited then Exited(1) else Returned)
  {
    ghost var done := [Say(RESET_BANNER)];
    ghost var rest := ResetTail(seedExists);
    PerformSingle(env, Say(RESET_BANNER));
    trace := [Info(RESET_BANNER)];

    var gemfiled := GemfiledContainers(listing);
    var events, exit := PackageEach(env, gemfiled);
    Advance(env, done, trace, PackageActions(gemfiled), rest, events, exit.Some?);
    done := done + PackageActions(gemfiled);
    trace := trace + events;
    if exit.Some? {
      outcome := Exited(exit.value);
      return;
    }

    events, exit := InfoThenRun(env, "Killing any running containers", "docker-compose kill");
    Advance(env, done, trace, FatalStep("Killing any running containers", "docker-compose kill"), rest[2..], events, exit.Some?);
    done, rest := done + FatalStep("Killing any running containers", "docker-compose kill"), rest[2..];
    trace := trace + events;
    if exit.Some? {
      outcome := Exited(exit.value);
      return;
    }

    events, exit := InfoThenRun(env, "Removing all existing containers", "docker-compose rm --force");
    Advance(env, done, trace, FatalStep("Removing all existing containers", "docker-compose rm --force"), rest[2..], events, exit.Some?);
    done, rest := done + FatalStep("Removing all existing containers", "docker-compose rm --force"), rest[2..];
    trace := trace + events;
    if exit.Some? {
      outcome := Exited(exit.value);
      return;
    }

    events, exit := InfoThenRun(env, "Building fresh images", "docker-compose build");
    Advance(env, done, trace, FatalStep("Building fresh images", "docker-compose build"), rest[2..], events, exit.Some?);
    done, rest := done + FatalStep("Building fresh images", "docker-compose build"), rest[2..];
    trace := trace + events;
    if exit.Some? {
      outcome := Exited(exit.value);
      return;
    }

    if seedExists {
      events, exit := InfoThenRun(env, "Seeding system state", "./seed");
      Advance(env, done, trace, FatalStep("Seeding system state", "./seed"), rest[2..], events, exit.Some?);
      done, rest := done + FatalStep("Seeding system state", "./seed"), rest[2..];
      trace := trace + events;
      if exit.Some? {
        outcome := Exited(exit.value);
        return;
      }
    } else {
      assert rest == [] + FatalStep("Bringing all containers up", "docker-compose up -d --no-recreate");
    }
    assert rest == FatalStep("Bringing all containers up", "docker-compose up -d --no-recreate");

    events, exit := InfoThenRun(env, "Bringing all containers up", "docker-compose up -d --no-recreate");
    Advance(env, done, trace, rest, [], events, exit.Some?);
    assert rest + [] == rest;
    trace := trace + events;
    outcome := if exit.Some? then Exited(exit.value) else Returned;
  }

  // ---------------------------------------------------------------------
  // doctor
  // ---------------------------------------------------------------------

  const PROBES: seq<string> := ["docker", "docker-compose --version", "docker-compose ps"]

  const REMEDIES: seq<string> := [
    "Please ensure you have docker working",
    "Please ensure you have docker-compose working",
    "Your current directory does not contain a docker-compose.yml"
  ]

  /** Probe `k`: quiet, with a block that reports its remedy and exits 1. */
  function Probe(k: nat): (r: Action)
    requires k < 3
  {
    Sh(PROBES[k], false, Some(REMEDIES[k]))
  }

  /** The three probes, in order. */
  function DoctorActions(): (r: seq<Action>)
  {
    [Probe(0), Probe(1), Probe(2)]
  }

  /** The commands of the probes: each probe's command, redirected unless
      verbose. */
  lemma PlannedProbes(verbose: bool)
    ensures Planned(verbose, DoctorActions())
         == [Effective(verbose, PROBES[0], false), Effective(verbose, PROBES[1], false), Effective(verbose, PROBES[2], false)]
  {
    var acts := DoctorActions();
    assert acts[1..][1..][1..] == [];
    assert Planned(verbose, acts[1..][1..]) == [Effective(verbose, PROBES[2], false)];
  }

  /** When probe `n` is the first to fail, doctor's last words are its
      remedy. */
  lemma RemedyOfFirstFailure(env: Env)
    ensures var n := FirstFailure(env.succeeds, Planned(env.verbose, DoctorActions()));
            var p := Perform(env, DoctorActions());
            n < 3 ==> p.trace != [] && p.trace[|p.trace| - 1] == Info(REMEDIES[n])
  {
    var acts := DoctorActions();
    PlannedProbes(env.verbose);
    var n := FirstFailure(env.succeeds, Planned(env.verbose, acts));
    StepFailsWhenCommandFails(env, acts[0]);
    StepFailsWhenCommandFails(env, acts[1]);
    StepFailsWhenCommandFails(env, acts[2]);
    if n < 3 {
      RemedyIsLastWord(env, acts[n]);
      var last := StepEvents(env, acts[n]);
      if n == 0 {
        assert Perform(env, acts).trace == last;
      } else if n == 1 {
        assert Perform(env, acts).trace == StepEvents(env, acts[0]) + last;
      } else {
        assert acts[1..][1..][0] == acts[2];
        assert Perform(env, acts[1..][1..]) == Progress(last, true);
        assert Perform(env, acts[1..]).trace == StepEvents(env, acts[1]) + last;
        assert Perform(env, acts).trace == StepEvents(env, acts[0]) + (StepEvents(env, acts[1]) + last);
      }
    }
  }

  /** `doctor` runs the probes in order with their output discarded (unless
      verbose), stops at the first one that fails, and its last words are
      then that probe's remedy. */
  lemma DoctorReportsFirstFailure(env: Env)
    ensures var probes := Planned(env.verbose, DoctorActions());
            var n := FirstFailure(env.succeeds, probes);
            var p := Perform(env, DoctorActions());
      && |probes| == 3
      && (forall k :: 0 <= k < 3 ==> probes[k] == if env.verbose then PROBES[k] else PROBES[k] + REDIRECT)
      && Commands(p.trace) == probes[..if n < 3 then n + 1 else 3]
      && (p.exited <==> n < 3)
      && (n < 3 ==> p.trace != [] && p.trace[|p.trace| - 1] == Info(REMEDIES[n]))
  {
    PlannedProbes(env.verbose);
    PerformStopsAtFirstFailure(env, DoctorActions());
    RemedyOfFirstFailure(env);
  }

  /** A failing step with a remedy ends by reporting the remedy. */
  lemma RemedyIsLastWord(env: Env, a: Action)
    requires a.Sh? && a.remedy.Some? && StepFails(env, a)
    ensures StepEvents(env, a) != [] && StepEvents(env, a)[|StepEvents(env, a)| - 1] == Info(a.remedy.value)
  {
  }

  /** Running probe `k` after the earlier ones have passed. */
  lemma DoctorStep(env: Env, k: nat, trace: seq<Event>)
    requires k < 3
    requires Perform(env, DoctorActions()[..k]) == Progress(trace, false)
    ensures Perform(env, DoctorActions()[..k + 1])
         == Progress(trace + RunTrace(env, PROBES[k], false, true, Some(Block([REMEDIES[k]], Some(1)))),
                     RunExit(env, PROBES[k], false, true, Some(Block([REMEDIES[k]], Some(1)))).Some?)
    ensures RunExit(env, PROBES[k], false, true, Some(Block([REMEDIES[k]], Some(1)))).Some? ==>
            Perform(env, DoctorActions()) == Perform(env, DoctorActions()[..k + 1])
  {
    var acts := DoctorActions();
    assert acts[..k + 1] == acts[..k] + [Probe(k)];
    PerformSnoc(env, acts[..k], Probe(k));
    PerformAppend(env, acts[..k + 1], acts[k + 1..]);
    assert acts[..k + 1] + acts[k + 1..] == acts;
  }

  /** `doctor`: the three probes, then "Everything looks good." */
  method Doctor(env: Env) returns (trace: seq<Event>, outcome: Outcome)
    ensures var p := Perform(env, DoctorActions());
      && trace == (if p.exited then p.trace else p.trace + [Info("Everything looks good.")])
      && outcome == (if p.exited then Exited(1) else Returned)
  {
    var events, success, exit;
    trace := [];
    assert DoctorActions()[..0] == [];

    events, success, exit := RunCommand(env, PROBES[0], false, true, Some(Block([REMEDIES[0]], Some(1))));
    DoctorStep(env, 0, trace);
    trace := trace + events;
    if exit.Some? {
      outcome := Exited(exit.value);
      return;
    }

    events, success, exit := RunCommand(env, PROBES[1], false, true, Some(Block([REMEDIES[1]], Some(1))));
    DoctorStep(env, 1, trace);
    trace := trace + events;
    if exit.Some? {
      outcome := Exited(exit.value);
      return;
    }

    events, success, exit := RunCommand(env, PROBES[2], false, true, Some(Block([REMEDIES[2]], Some(1))));
    DoctorStep(env, 2, trace);
    trace := trace + events;
    if exit.Some? {
      outcome := Exited(exit.value);
      return;
    }

    assert DoctorActions()[..3] == DoctorActions();
    trace := trace + [Info("Everything looks good.")];
    outcome := Returned;
  }
}
