# clixon-pyapi command-line parsing, modelled in Dafny

This project models `parse_args` in `clixon/args.py`, the start-up routine of the
clixon Python server. It also models `usage`, the helper that `parse_args` calls.

`parse_args` hands the argument vector to getopt with the option string
`"ds:f:p:m:Fz"`. It then folds the resulting `(opt, arg)` pairs over five defaults:

- socket path `/usr/local/var/controller.sock`
- module path `./modules/`
- module filter `""`
- pidfile `/tmp/clixon_pyserver.pid`
- foreground `False`

It returns these five values as a tuple. The side effects are modelled as values:

- `-d` sets a `debug` flag, which is not part of the returned tuple. In the source it sets the logger level to DEBUG.
- `-z` appends the pidfile value current at that point to a list of kill targets. Parsing continues after it.
- Each call to `usage` ends the fold with `Exited`. That outcome records what the loop printed first, the `err` that `usage` received, exit status 0, and the state as it was at that moment. `Output` renders the lines written to standard output from it.

Files:

- `usage.dfy` (module `Usage`): the lines `usage(err)` prints, and its exit status.
- `args.dfy` (module `Args`):
  - the option pair, settings, state and outcome types;
  - one loop step `Step`;
  - the fold `Run`;
  - `Parse`, which is `parse_args` as a function;
  - the method `ParseArgs`, which is the source's loop with an early exit, proved equal to `Parse`.
- `properties.dfy` (module `ArgsProperties`): reference definitions that do not mention the fold, and lemmas relating the fold to them. The references are:
  - `LastArg`, the argument of the last occurrence of an option;
  - `Occurs`;
  - `Positions`, the indices of an option;
  - `PidfileBefore`;
  - `WithoutDebug`.

Three facts about the code shape the model:

- **`-z` does not exit.** The code calls `kill(pidfile)` and carries on with the remaining options (clixon/args.py:63-64). `Step` therefore returns `Returned` for `-z`.
- **`-h` arrives as a getopt error.** `h` is not in the option string, so getopt raises for `-h` and for every unknown letter, and `usage(err=e)` runs before the loop (clixon/args.py:45-48). The loop's own `else` branch (clixon/args.py:65-67) is then unreachable on getopt's output. The model keeps both paths: `Parse` proves the `else` branch is taken exactly when some pair is not one of the seven option names.
- **Absent options keep their defaults.** The code starts from the defaults at clixon/args.py:39-43, so `-f ""` and no `-f` give the same result.

## Model

| member | source | states |
|---|---|---|
| Usage.ErrorLineIffNonEmpty | clixon/args.py:12-27 | For a string `err`, `usage` prints the line `name: err` and a blank line if and only if `err` is non-empty; otherwise it prints exactly the help text. The help text always ends the output. |
| Usage.RaisedErrorAlwaysShown | clixon/args.py:46-48 | `usage(err=e)` gets the getopt exception object, which never equals `""`. So a getopt error always prints `name: message`, a blank line and then the help text. |
| Args.FlagsMatchOptString | clixon/args.py:46 | There are exactly seven recognised option names. Each is `-` followed by an option letter of `"ds:f:p:m:Fz"`, never the `:` marker, and every option letter yields one. |
| Args.Step | clixon/args.py:50-67 | One loop pass goes on exactly when the option is one of the seven. `-s`, `-m`, `-f` and `-p` replace only their own field, with the argument verbatim. `-F` only ever sets foreground. `-d` only sets debug. `-z` appends the current pidfile to the kill list. An unknown option echoes its name, calls `usage()` with no error, and exits 0 with the state unchanged. |
| Args.Run | clixon/args.py:50-67 | The fold returns exactly when every pair is recognised. Any exit it takes has status 0. |
| Args.ExitIsFinal | clixon/args.py:65-67 | Once `usage` has exited, later pairs change nothing. |
| Args.Parse | clixon/args.py:38-69 | With no options the result is the default tuple `("/usr/local/var/controller.sock", "./modules/", "", "/tmp/clixon_pyserver.pid", False)`, with no kill and no debug. A getopt error exits 0 before any option takes effect, and passes `usage` an error that is always shown and renders as its message. Otherwise the `else`/usage branch is reached if and only if some option is unrecognised. Every exit has status 0. |
| Args.ParseArgs | clixon/args.py:45-69 | The loop with its early return computes the same outcome as `Parse` on every input. |
| Args.GetoptErrorOutput | clixon/args.py:45-48 | A getopt error, which is how `-h` arrives, exits 0 after printing `name: message`, a blank line and the help text. |
| Args.UnknownOptionOutput | clixon/args.py:65-67 | The loop's `else` branch prints the option name and then the help text with no error line, because `usage()` gets the default `err`. |
| ArgsProperties.LastArgIsLastOccurrence | clixon/args.py:50-60 | The "last occurrence" reference returns the argument at the last index that carries the option. |
| ArgsProperties.LastWins | clixon/args.py:53-60 | Each of `-s`, `-m`, `-f`, `-p` leaves the argument of its last occurrence, or the default when it never occurs. |
| ArgsProperties.LastOccurrenceStored | clixon/args.py:53-60 | The returned field equals, verbatim, the argument at the last index where its option appears. |
| ArgsProperties.AbsentKeepsDefault | clixon/args.py:39-42 | A field whose option never occurs keeps its default. |
| ArgsProperties.ForegroundIffOccurs | clixon/args.py:61-62 | Foreground is true if and only if some `-F` occurs. Nothing resets it. |
| ArgsProperties.DebugIffOccurs | clixon/args.py:51-52 | The debug level is set if and only if some `-d` occurs. |
| ArgsProperties.KillTargets | clixon/args.py:57-64 | There is one kill target per `-z`, in order. Each target is the pidfile set by the last `-p` before that `-z`, or the default pidfile if there is none. |
| ArgsProperties.KillsOnlyGrow | clixon/args.py:63-64 | On every input, options appended after a prefix only add kill targets at the end. They never change the targets the prefix produced, so a `-p` after a `-z` does not change that kill, and kills performed before a usage exit stay performed. |
| ArgsProperties.DebugIrrelevant | clixon/args.py:51-52 | Removing every `-d` pair changes nothing except the debug flag: the tuple, the kills, and any usage output stay the same. |
| ArgsProperties.StepIgnoresDebug | clixon/args.py:53-67 | No option other than `-d` reads or writes the debug flag. |
| ArgsProperties.FirstUnknownExits | clixon/args.py:65-67 | The first unrecognised pair ends the run: its name is echoed, `usage()` is called with no error, and the exit status is 0. The effects of the pairs before it remain performed. |
| ArgsProperties.FilterListUnsplit | clixon/args.py:55-56 | `-f a,b` stores `"a,b"` as one unsplit string. |
| ArgsProperties.KillOrderExample | clixon/args.py:57-64 | For `-z -p /run/p -z` the kill targets are the default pidfile and then `/run/p`. |
| ArgsProperties.ExitOutput | clixon/args.py:45-67 | Whenever `parse_args` reaches `usage`, it exits 0. It prints either the getopt error line and a blank line, or the first unrecognised option's name, followed by the help text. |

## Left out

- getopt tokenisation of `sys.argv[1:]`: it is the Python standard library and is not part of this model. The input is getopt's result, either the list of `(opt, arg)` pairs or the error it raised with its message.
- The positional arguments that getopt returns alongside the pairs: `parse_args` never reads them.
- `kill` internals: opening and reading the pidfile, `int()` parsing and `os.kill` with SIGTERM are file and OS I/O. Only the kill target is modelled. Every exception is caught inside `kill`, so a kill never raises into `parse_args`.
- A kill that signals this process itself is not modelled. `os.kill` passes the pid straight to kill(2). So a pidfile holding, for example, `0`, this process's own pid, or minus its process-group id sends SIGTERM to this process. No handler is installed, so the process ends inside `kill` and `parse_args` never returns. In the model, `Step` always returns `Returned` for `-z`.
- Logger mutation and the global logger: modelled only as the `debug` flag.
- `print` and `sys.exit`: modelled as the output lines and the exit status carried by `Exited`. `sys.argv[0]` becomes the parameter `name` of `Output`.
- `parse_config` and `parse_file`: clixon/args.py as modelled has no `parse_config`, although tests/test_configfile.py:2 imports it from `clixon.args`, and `parse_file` comes from `clixon.parser`, which is not part of this model. That also covers reading the XML configuration file and merging it with command-line values.
