# yu: command planning and failure policy

`yu` is a small command line for a project made of several service
directories run with `docker-compose`. It has five subcommands:

- `test` runs each service's `bin/test` in its container.
- `build` packages the gems of the services that have a `Gemfile`, then
  becomes `docker-compose build`.
- `shell` opens a shell in one service's container.
- `reset` repackages, kills, removes, rebuilds, optionally seeds and
  restarts everything.
- `doctor` checks that docker, docker-compose and a compose file are there.

This project models what each subcommand says, which commands it runs, in
which order, and how it ends. The outside world is an input:

- the directory listing of the project root;
- whether the `seed` script exists;
- the `--verbose` and `--test` flags;
- an oracle that says, for every command string, whether running it succeeds.

The project has three modules:

- `Paths` (`paths.dfy`) chooses targets:
  - Ruby's `File.basename` on POSIX paths;
  - the first path component of each glob hit (`split("/").first`);
  - `Array#&` (which removes duplicates and keeps the first array's order);
  - `Array#join`.
- `Runner` (`runner.dfy`) holds `run_command`, `execute_command` and `info`.
  - `RunCommand` is an imperative method, proved against the specification
    functions `RunTrace` and `RunExit`.
  - `Perform` specifies a recipe of steps that stops at the first fatal
    failure. `PerformStopsAtFirstFailure` proves that rule once for all
    recipes.
- `Cli` (`cli.dfy`) holds the five subcommands and
  `package_gems_for_container`. Each is a method that does the steps of the
  Ruby method of the same name, in `yu`'s order.
  - Each method returns the trace of events (`Said` lines and `Ran` commands)
    and an `Outcome`: `Returned`, `Exited(code)`, or `Replaced(cmd)` for
    `exec`.
  - `Build`, `Reset` and `Doctor` are proved equal to a recipe (`Perform` of
    `BuildActions`, `ResetActions` or `DoctorActions`), `Test` to the
    function `TestTrace`, and `PackageEach` to `Perform` of
    `PackageActions`. `Shell` runs no child; its contract gives its trace
    and outcome outright.
  - Lemmas then state, about those recipes, the commands that run and when
    the program exits.

The oracle sees the *effective* command: when output is discarded, that is
the command with ` &>/dev/null` appended, because that is the string the
forked child runs. The verbose `Executing: …` line is said by the child
(`execute_command`), so it is part of the trace too.

## Model

| member | source | states |
|---|---|---|
| `Paths.Basename` | lib/yu.rb:171-173 | the name is empty exactly when the path is; it is "/" or has no separator |
| `Paths.BasenameOfSegment` | lib/yu.rb:171-173 | a bare directory name is its own container name |
| `Paths.BasenameOfNestedPath` | lib/yu.rb:171-173 | `dir/name` and `dir/name/` both normalise to `name`, whatever `dir` is |
| `Paths.BasenameIdempotent` | lib/yu.rb:171-173 | normalising a normalised name changes nothing |
| `Paths.Normalised` | lib/yu.rb:59 | one name per argument, in order; a name is empty only for an empty argument, is "/" or has no separator, and a bare directory name is kept unchanged |
| `Paths.FirstSegment` | lib/yu.rb:176 | `split("/").first` is a prefix of the path with no separator, ending at the first separator |
| `Paths.FirstSegmentOfPath` | lib/yu.rb:176 | the first component of `dir/rest` is `dir` when `dir` has no separator |
| `Paths.Glob` | lib/yu.rb:176 | the hits are exactly `dir/file` for the listing entries whose directory holds `file`, no more hits than entries |
| `Paths.DirsHolding` | lib/yu.rb:175-177 | reference definition: a name is a holder exactly when some listing entry has that directory and the file |
| `Paths.ContainersWithFileAreHolders` | lib/yu.rb:175-177 | mapping glob hits to their first component gives exactly the directories holding the file, in listing order |
| `Paths.ContainersWithFile` | lib/yu.rb:175-177 | one name per glob hit, in the hits' order; each is a prefix of its hit and has no separator |
| `Paths.GemfiledContainers` | lib/yu.rb:163-165 | on a valid listing, exactly the directories holding a `Gemfile`, in listing order |
| `Paths.TestableContainers` | lib/yu.rb:167-169 | on a valid listing, exactly the directories holding `bin/test`, in listing order |
| `Paths.FirstIndex` | lib/yu.rb:78 | the position of an element's first occurrence, or the length when it is absent |
| `Paths.Intersect` | lib/yu.rb:78 | `xs & ys` holds exactly the elements in both, without repeats, in order of first occurrence in `xs` |
| `Paths.Join` | lib/yu.rb:83 | joining nothing gives ""; otherwise the result starts with the first piece and ends with the last |
| `Paths.Split` | lib/yu.rb:83 | reference definition for reading back a joined list: splitting always yields at least one piece |
| `Paths.SplitJoin` | lib/yu.rb:83 | joining pieces that do not contain the separator is undone by splitting on it |
| `Runner.RunCommand` | lib/yu.rb:135-156 | the run's success, trace and exit code are those of `RunTrace` and `RunExit` for the effective command |
| `Runner.Effective` | lib/yu.rb:136-138 | the command that runs is the given command, or that command with ` &>/dev/null` appended |
| `Runner.Info` | lib/yu.rb:184-186 | `info` says one line: the `[yu] ` prefix followed by the message, as `info` hands it to `say` |
| `Runner.InfoLines` | lib/yu.rb:184-186 | one said line per message, in order, each carrying its message after the prefix |
| `Runner.Echo` | lib/yu.rb:180 | `execute_command` says one line in verbose mode and nothing otherwise (its text is pinned by `RunSpawnsOnce`) |
| `Runner.Launch` | lib/yu.rb:179-182 | `execute_command` ends by running its command, and says everything before that |
| `Runner.FailureNotice` | lib/yu.rb:149-150 | definition: "Command failed: <effective command>" then "Exiting...", both through `info` |
| `Runner.FailureReport` | lib/yu.rb:143-155 | definition: after a failure, the block's messages if a block is given, else the default notice when failures are fatal, else nothing |
| `Runner.RunTrace` | lib/yu.rb:135-156 | definition: the child's events for the effective command, followed by the failure report when that command fails |
| `Runner.RunExit` | lib/yu.rb:143-155 | definition: no exit on success; on failure, the block's exit code if a block is given, else 1 when failures are fatal, else none |
| `Runner.RemedyBlock` | lib/yu.rb:120-131 | definition: a step's remedy becomes a block that says it and exits 1 |
| `Runner.SuppressionRule` | lib/yu.rb:136-138 | the command gains ` &>/dev/null` exactly when output is not shown and the program is not verbose, and is unchanged otherwise |
| `Runner.RunSpawnsOnce` | lib/yu.rb:140-141 | one call spawns exactly one child, for the effective command; in verbose mode it is first announced as `[yu] Executing: <command>` with the caller's own command, otherwise the run comes first; all later events are said lines |
| `Runner.FailurePolicy` | lib/yu.rb:143-155 | success never exits; a failing run with a block reports the block's messages and exits only as the block does; with no block it exits 1 after "Command failed"/"Exiting..." exactly when failures are fatal, and otherwise says nothing more |
| `Runner.CommandsOfLaunch` | lib/yu.rb:179-182 | `execute_command` runs exactly its command (the echo is only said) |
| `Runner.StepFailsWhenCommandFails` | lib/yu.rb:143-155 | a fatal step, or a step with an exiting block, ends the program exactly when its effective command fails |
| `Runner.StepFails` | lib/yu.rb:143-155 | definition: a step ends the program when it is a command whose `run_command` call (fatal, with the step's block) exits |
| `Runner.StepEvents` | lib/yu.rb:143-155 | definition: an announcement says one `info` line; a command step does everything its `run_command` call says and runs |
| `Runner.Perform` | lib/yu.rb:143-155 | definition: the steps in order, each adding its events, stopping after the first step that ends the program |
| `Runner.Planned` | lib/yu.rb:143-155 | definition: the effective commands of a recipe's command steps, in order, as they run when none fails |
| `Runner.FirstFailure` | lib/yu.rb:143-155 | every command before the returned position succeeds, and the one at it fails |
| `Runner.PerformAppend` | lib/yu.rb:143-155 | performing two recipes in a row performs their concatenation: the second runs only if the first did not exit |
| `Runner.PerformRunsUpToFailure` | lib/yu.rb:143-155 | a recipe runs its planned commands up to and including the first failing one, and exits exactly when one fails |
| `Runner.UpToFailureIsPrefix` | lib/yu.rb:143-155 | the commands up to the first failure are the prefix of the plan that ends at that failure |
| `Runner.PerformStopsAtFirstFailure` | lib/yu.rb:143-155 | the commands that run are the plan's prefix that ends at the first failing command; the recipe exits exactly when a command fails |
| `Runner.PlannedAppend` | lib/yu.rb:102-117 | the plan of two recipes in a row is the concatenation of their plans |
| `Runner.PerformSnoc` | lib/yu.rb:143-155 | a step after a recipe that has not exited adds its events and decides whether the whole exits |
| `Cli.PlannedFatalStep` | lib/yu.rb:158-161 | an announced fatal step plans exactly its command, unchanged because its output is shown |
| `Cli.FatalStep` | lib/yu.rb:158-161 | definition: `info m` followed by `run_command c` with output shown, fatal on failure and without a block |
| `Cli.FatalStepDone` | lib/yu.rb:158-161 | an announced fatal step after a recipe that has not exited says the announcement, runs the command and exits exactly when the run does |
| `Cli.InfoThenRun` | lib/yu.rb:158-161 | `info m; run_command c` does what the announced fatal step specifies, and can exit only with 1 |
| `Cli.PackageGems` | lib/yu.rb:158-161 | packaging one container does its recipe step and can exit only with 1 |
| `Cli.PackageCommand` | lib/yu.rb:160 | definition: `cd <c> && bundle package --all` |
| `Cli.PackageStep` | lib/yu.rb:158-161 | definition: the announced fatal step "Packaging gems for <c>" with the packaging command |
| `Cli.PackageActions` | lib/yu.rb:104 | definition: the packaging steps of every container, in order |
| `Cli.PackageActionsSplit` | lib/yu.rb:104 | the packaging recipe of a list splits at any position |
| `Cli.PlannedPackaging` | lib/yu.rb:81 | packaging plans `cd <c> && bundle package --all` for every container in order |
| `Cli.PackageEach` | lib/yu.rb:104 | packaging each container in order does the packaging recipe, stopping at the first failure with exit 1 |
| `Cli.NonFatalRun` | lib/yu.rb:64-67 | a shown, non-fatal run without a block only echoes and runs its command, and never exits |
| `Cli.TestCommand` | lib/yu.rb:65 | definition: `docker-compose run --rm <c> bin/test` |
| `Cli.TestEvents` | lib/yu.rb:63-67 | definition: "Running tests for <c>...", then the child's echo and run of the test command, shown and not fatal |
| `Cli.TestTrace` | lib/yu.rb:62-68 | definition: the test events of every target, in order |
| `Cli.TestPasses` | lib/yu.rb:64-67 | definition: a target passes when its test command succeeds |
| `Cli.AllPass` | lib/yu.rb:70 | definition: `results.all?(&:success?)`, every target passes |
| `Cli.TestTargets` | lib/yu.rb:56-60 | with no argument, on a valid listing, the targets are exactly the directories holding `bin/test`; with arguments, one target per argument, its basename, in order |
| `Cli.TestTraceSnoc` | lib/yu.rb:62-69 | testing one more container appends its announcement and run |
| `Cli.TestTraceRunsEveryTarget` | lib/yu.rb:62-69 | testing runs `docker-compose run --rm <c> bin/test` for every target, in order, even after a failure |
| `Cli.TestSelection` | lib/yu.rb:56-60 | with no argument the targets are exactly the directories holding `bin/test`; with arguments they are the arguments' basenames in order, whatever the listing holds |
| `Cli.RunEachTest` | lib/yu.rb:62-69 | the map over the targets produces the test trace and one status per target, each telling whether that target's tests pass |
| `Cli.Test` | lib/yu.rb:55-71 | `test` says and runs the test trace of the selected targets, runs one test command per target, and exits 1 exactly when some target fails |
| `Cli.BuildSelection` | lib/yu.rb:74-79 | a container is packaged exactly when it holds a Gemfile and either no target is named or it is a target; with targets, packaging follows the Gemfile directories' order |
| `Cli.BuildPackaging` | lib/yu.rb:74-79 | packaging covers only Gemfile directories; with no target it is all of them, with targets exactly those that are also targets |
| `Cli.BuildCommand` | lib/yu.rb:83 | the build command starts with `docker-compose build ` and ends with the last target |
| `Cli.BuildActions` | lib/yu.rb:81-82 | definition: the packaging steps of the selected containers, then "Building images..." |
| `Cli.BuildRunsPackagingThenBuild` | lib/yu.rb:81-82 | build runs the packaging commands in order up to the first failure, and its recipe exits exactly when one fails |
| `Cli.BuildCommandTargets` | lib/yu.rb:83 | with no target the build command names none; with one target it names exactly that one |
| `Cli.BuildCommandNamesTargets` | lib/yu.rb:83 | when no target contains a space, the build command is `docker-compose build ` followed by exactly the targets, in order |
| `Cli.Build` | lib/yu.rb:73-84 | build does its packaging recipe; on failure it exits 1, otherwise it announces and becomes `docker-compose build` with the targets |
| `Cli.Shell` | lib/yu.rb:86-100 | no child is spawned; the process is replaced exactly when there is one argument, by the shell of its basename (with `-e APP_ENV=test` under `--test`); 0 or 2+ arguments exit 1 with their usage message |
| `Cli.ShellCommand` | lib/yu.rb:93-95 | under `--test` the shell runs with `-e APP_ENV=test`; without it the empty option leaves two spaces before the container name |
| `Cli.ShellBanner` | lib/yu.rb:94 | the announcement names the test shell under `--test`; without it the missing word leaves two spaces after "Loading" |
| `Cli.ShellOpensBasename` | lib/yu.rb:92 | a directory path and its last component open the same shell |
| `Cli.ResetTail` | lib/yu.rb:105-116 | definition: announced fatal steps for kill, rm --force, build, `./seed` only when the seed script exists, then up -d --no-recreate |
| `Cli.ResetActions` | lib/yu.rb:102-117 | definition: the banner, the packaging steps of every Gemfile directory, then the tail |
| `Cli.ResetCommands` | lib/yu.rb:104-116 | definition: the packaging commands of every Gemfile directory, then kill, rm, build, the seed when it exists, and up |
| `Cli.PlannedFatalChain` | lib/yu.rb:105-116 | a chain of announced fatal steps plans exactly their commands in order |
| `Cli.PlannedResetTail` | lib/yu.rb:105-116 | after packaging, reset plans kill, rm, build, the seed only when it exists, then up |
| `Cli.PlannedReset` | lib/yu.rb:102-117 | reset plans packaging of every Gemfile directory, then the fixed tail |
| `Cli.ResetStopsAtFirstFailure` | lib/yu.rb:102-117 | reset runs its planned commands up to and including the first failing one, and exits exactly when one fails |
| `Cli.ResetSeedsOnlyWithSeed` | lib/yu.rb:111-114 | `./seed` is planned exactly when the seed script exists, so a missing seed can neither run nor fail |
| `Cli.Advance` | lib/yu.rb:102-117 | when a prefix of the recipe has run without exiting, running the next part either continues it or ends the whole recipe |
| `Cli.Reset` | lib/yu.rb:102-117 | reset says and runs exactly what its recipe specifies, exits 1 exactly when the recipe does, and otherwise returns |
| `Cli.Probe` | lib/yu.rb:120-131 | definition: probe k runs the k-th command of `PROBES` (`docker`, `docker-compose --version`, `docker-compose ps`) without showing output, with a block that says the k-th line of `REMEDIES` and exits 1 |
| `Cli.DoctorActions` | lib/yu.rb:119-131 | definition: the three probes in order |
| `Cli.PlannedProbes` | lib/yu.rb:120-128 | the probes plan `docker`, `docker-compose --version` and `docker-compose ps` in that order, each redirected unless verbose |
| `Cli.RemedyIsLastWord` | lib/yu.rb:120-131 | a failing probe ends by reporting its remedy |
| `Cli.RemedyOfFirstFailure` | lib/yu.rb:120-131 | when probe n is the first to fail, doctor's last line is probe n's remedy |
| `Cli.DoctorReportsFirstFailure` | lib/yu.rb:119-133 | doctor runs the probes in order up to the first failing one, exits exactly when one fails, and then reports that probe's remedy |
| `Cli.DoctorStep` | lib/yu.rb:120-131 | running probe k after the earlier ones passed adds its events; if it fails, the whole recipe has ended |
| `Cli.Doctor` | lib/yu.rb:119-133 | doctor does its probe recipe; on failure it exits 1, otherwise it says "Everything looks good." and returns |

## Left out

- Forking, `exec` and `waitpid` (lib/yu.rb:140-141, 181) are not modelled. The oracle `Env.succeeds` gives each command's result, and `Replaced(cmd)` stands for `exec`. A failing `exec` inside the child is not modelled apart from counting as a failure. The exit status of an `exec`'d `build` or `shell` belongs to the new program and does not appear here.
- The oracle is a function of the command string. The same command therefore always gets the same answer, and the model cannot say that a command's result depends on earlier commands (for example, `docker-compose build` after packaging).
- The Commander wiring and option parsing (lib/yu.rb:8-51) are not modelled. Arguments, `--test` and `--verbose` are plain parameters, and the global `$verbose_mode` is `Env.verbose`.
- The filesystem is an input. `Dir.glob` becomes a listing of `(dir, file)` entries in the glob's order, and `ValidListing` says that each `dir` is a single non-empty component, which is all that `*` can match. Dotfiles and symbolic links are not modelled. `File.exists? 'seed'` becomes the input `seedExists`.
- `say` and `info` are recorded as `Said` lines holding the text as given. Commander's `say` is HighLine's, which renders the text as an ERB template (so `<%= … %>` in a container name or a command would be evaluated) and prints no line break after text ending in a space (verbose `build` with no target says `[yu] Executing: docker-compose build `); neither effect is modelled, and neither are terminal colours.
- `Paths.FirstSegment` gives "" for a path that starts with a separator or is empty, where Ruby gives `nil` or "", because glob hits under the star pattern never start that way.
- `Paths.Basename` follows Ruby's POSIX `File.basename`. It removes trailing separators, gives "/" for a path of separators only, and "" for "". It does not treat Windows separators or alternative separators.
- Commands are run by `exec` with one string, and Ruby hands a string holding shell metacharacters to `/bin/sh -c`. `&>` is a bash operator: under a POSIX `sh` such as dash, `docker &>/dev/null` runs `docker` in the background and the shell then exits 0, so the redirected doctor probes (lib/yu.rb:120-128, 137) would pass whatever docker does. The model does not interpret the shell: `Env.succeeds` of a redirected command is whatever status the shell reports for that string.
- `Cli.BuildCommandNamesTargets` requires that no target contains a space. A name with a space would be split into two words by the shell, and the model does not capture shell word splitting.
