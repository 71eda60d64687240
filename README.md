# cycle_manager in Dafny

This project models `cycle_manager.py`, a command-line tool that runs Python
scripts on a timed on/off duty cycle. The model covers the one piece of real
logic in the tool, the `--complexcycle` task-list parser. It also covers the
schedules of its three cycling loops and the small filters behind `--list`,
`--listprocs` and `--kill`.

- `task_parsing.dfy` (module `TaskParsing`): `parse_complex_cycle_arg`. Each
  `FILE:ON:OFF` entry is split on `:` exactly as `str.split(':')` does. It must
  give three fields. ON and OFF must be integers (here: an optional `-` and
  decimal digits). They are in hours and are stored in seconds (times 3600).
  The first bad entry makes the whole parse fail. The loop that appends the
  tasks one by one is a method with invariants.
- `schedule.dfy` (module `Schedule`): `run_with_cycle`, `cycle_with_switch`
  and `run_complex_cycle`. Each one is a method that builds its list of
  actions: `Start(file)`, `Sleep(seconds)`, `Terminate(file)` and
  `RunToCompletion(file)`. The source's loops run until Ctrl-C. In the model,
  the interrupt comes after `budget` actions have been issued, so a run is the
  first `budget` actions of an unbounded schedule. `Cycled(tasks, p)` is `p`
  passes over the task list. The lemmas say four things:
  - the schedule's order, by index;
  - stopping earlier gives a prefix;
  - the runner sends Terminate to each started child before it starts the next
    one (the `Slot` state machine tracks the runner's actions, not the processes);
  - one pass sleeps for the sum of the tasks' durations.
- `process_queries.dfy` (module `ProcessQueries`): the list comprehensions of
  `list_python_files` and `list_running_processes` as order-preserving
  filters, and the exit-status branch of `kill_process_by_name`. The
  operating system's answers are inputs: each directory entry paired with
  whether it is a regular file, the `ps -fA` output lines, and the `pkill`
  exit status or raised exception.

`run_with_cycle` is given the schedule of `run_complex_cycle` over a
one-task list, so `--cycle FILE ON OFF` behaves like a one-entry
`--complexcycle` whose durations are already in seconds.

## Model

| member | source | states |
|---|---|---|
| `TaskParsing.Split` | cycle_manager.py:116 | `str.split(':')`: there is always at least one field. Definition; see `JoinSplit`, `SplitJoin`, `SplitCount`, `SplitHead` and `SplitFieldsHaveNoColon`. |
| `TaskParsing.ParseEntry` | cycle_manager.py:116-120 | One entry. An accepted task has a colon-free file name and durations that are whole hours in seconds. A field-count error carries the entry and a count other than 3. An entry is accepted exactly when its split has three fields and both ON and OFF convert (so `s.py:02:03` and `s.py:-0:1` are accepted). An integer error comes from an entry with three fields, and carries the ON field when ON does not convert and the OFF field otherwise. See `EntryFields`, `EntryFieldCount` and `EntryRoundTrip`. |
| `TaskParsing.ParseComplexCycleArg` | cycle_manager.py:113-122 | The parse succeeds exactly when every entry parses. The result then has one task per entry, in entry order, each the parse of its entry. Otherwise the error is that of the first malformed entry, every earlier entry parsed, and no list is returned. |
| `TaskParsing.EntryFields` | cycle_manager.py:116-120 | An accepted entry is FILE, ON and OFF joined by `:`. FILE is the text before the first `:` and contains no `:`. ON and OFF parse as integers equal to the stored seconds divided by 3600, and both stored durations are multiples of 3600. |
| `TaskParsing.EntryFieldCount` | cycle_manager.py:116 | An entry is rejected for its field count exactly when it does not contain exactly two `:` characters. |
| `TaskParsing.EntryRoundTrip` | cycle_manager.py:116-120 | Writing `FILE:ON:OFF` from a colon-free file name and two integers and then parsing it gives back the task `(FILE, 3600*ON, 3600*OFF)`. |
| `TaskParsing.ExampleEntry` | cycle_manager.py:119-120 | `script.py:2:3` parses to `(script.py, 7200, 10800)`. |
| `TaskParsing.ParseInt` | cycle_manager.py:119-120 | Integer conversion succeeds exactly on a nonempty digit string, or on `-` followed by a nonempty digit string. |
| `TaskParsing.ParseIntToString` | cycle_manager.py:119-120 | Converting the decimal text of any integer gives that integer back, and the text has no `:`. |
| `TaskParsing.JoinSplit` | cycle_manager.py:116 | Joining the `:`-split fields with `:` gives the original text back. |
| `TaskParsing.SplitJoin` | cycle_manager.py:116 | Splitting colon-free fields joined by `:` gives those fields back. |
| `TaskParsing.SplitCount` | cycle_manager.py:116 | The split has one field more than the text has `:` characters. |
| `TaskParsing.SplitHead` | cycle_manager.py:116 | The first field is a colon-free prefix of the text, followed by a `:` or by the end of the text. |
| `TaskParsing.SplitFieldsHaveNoColon` | cycle_manager.py:116 | No field of the split contains `:`. |
| `Schedule.Quartet` | cycle_manager.py:104-109 | Reference trace of one phase: start, sleep on, terminate, sleep off. Definition; see `PassAt`, `QuartetRestores` and `QuartetSleepTime`. |
| `Schedule.SwitchTrace` | cycle_manager.py:63-70 | Reference trace of `cycle_with_switch`: one phase of `file1`, then `RunToCompletion(after_file)`. Definition; see `CycleWithSwitch` and `SwitchOneChildAtATime`. |
| `Schedule.PerformPhase` | cycle_manager.py:104-109 | The loop body. The interrupt is checked before each of the four actions. If it comes, the result is a prefix of the phase with exactly `budget` actions out. Otherwise all four actions are added. |
| `Schedule.PerformPass` | cycle_manager.py:102-109 | The `for task in tasks` loop. The result is a prefix of the trace followed by one full pass. It is exactly that when no interrupt comes, and it has `budget` actions when one does. |
| `Schedule.RunWithCycle` | cycle_manager.py:48-58 | A run interrupted after `budget` actions is exactly the first `budget` actions of the start/sleep/terminate/sleep cycle of the one file, repeated. |
| `Schedule.CycleWithSwitch` | cycle_manager.py:60-73 | The run is a prefix of length `min(budget, 5)` of one phase of `file1` followed by one `RunToCompletion(after_file)`, so even without an interrupt there is nothing after the follow-up file. |
| `Schedule.RunComplexCycle` | cycle_manager.py:99-111 | A run interrupted after `budget` actions is exactly the first `budget` actions of repeated passes over the task list. With an empty list it issues nothing. |
| `Schedule.Pass` | cycle_manager.py:102-109 | One pass issues four actions per task. |
| `Schedule.Cycled` | cycle_manager.py:101-109 | `p` passes over a nonempty list issue at least `4p` actions, so `budget` passes always cover the first `budget` actions. |
| `Schedule.PassAt` | cycle_manager.py:102-109 | Action `i` of a pass is phase `i % 4` of task `i / 4`: the tasks are visited in list order, each as start, sleep on, terminate, sleep off. |
| `Schedule.CycledAt` | cycle_manager.py:101-109 | In pass `p`, task `j` fills actions `4(p*n + j)` to `4(p*n + j) + 3` with its four phase actions. After the last task, the next pass begins again with the first. |
| `Schedule.CycledLength` | cycle_manager.py:101-109 | `p` passes issue exactly `4 * p * n` actions, `n` being the list length. |
| `Schedule.CycledPrefix` | cycle_manager.py:101-111 | Fewer passes are a prefix of more passes. |
| `Schedule.InterruptIsPrefix` | cycle_manager.py:101-111 | A run interrupted earlier is a prefix of a run interrupted later, so every interrupted run is a prefix of a single unbounded schedule. |
| `Schedule.OneChildAtATime` | cycle_manager.py:101-109 | Take any prefix of any number of passes. Every `Start(f)` in it is followed by `Terminate(f)` before the next `Start`: the runner never starts a child while the previous one has not been sent terminate. Whole passes leave no child unterminated. |
| `Schedule.SwitchOneChildAtATime` | cycle_manager.py:62-71 | Take any prefix of the switch trace. The cycled child is sent terminate before the follow-up file runs, and the whole trace leaves no child unterminated. |
| `Schedule.RunAppend` | cycle_manager.py:101-109 | Running the start/terminate state machine over two traces in a row is the same as running it over their concatenation. |
| `Schedule.QuartetRestores` | cycle_manager.py:104-109 | One phase (start, sleep, terminate, sleep) starting with no unterminated child ends with none. |
| `Schedule.PassSleepTime` | cycle_manager.py:102-109 | One pass sleeps for the sum of the tasks' on and off durations. |
| `Schedule.QuartetSleepTime` | cycle_manager.py:106-109 | One phase of a task sleeps for its on duration plus its off duration. |
| `ProcessQueries.EndsWith` | cycle_manager.py:43 | `f.endswith('.py')`: the suffix is the last characters of the name. Definition; see `ListPythonFilesExample`. |
| `ProcessQueries.Contains` | cycle_manager.py:82 | `'python' in line`. Definition; see `ContainsWindow`. |
| `ProcessQueries.ListPythonFiles` | cycle_manager.py:43 | The result has at most as many names as the directory has entries, and every name ends in `.py`. |
| `ProcessQueries.ListPythonFilesMembers` | cycle_manager.py:43 | A name is listed exactly when some regular-file entry whose name ends in `.py` carries it. |
| `ProcessQueries.ListPythonFilesAppend` | cycle_manager.py:43 | The filter keeps listing order: filtering a concatenation concatenates the filtered parts. |
| `ProcessQueries.ListPythonFilesExample` | cycle_manager.py:41-46 | Entries `a.py`, `b.py`, `c.txt` list exactly `["a.py", "b.py"]`. |
| `ProcessQueries.ContainsWindow` | cycle_manager.py:82 | The substring test holds exactly when the pattern occurs in the line at some index. |
| `ProcessQueries.PythonProcessLines` | cycle_manager.py:82 | At most as many lines are kept as are given, and every kept line contains `python`. |
| `ProcessQueries.PythonProcessLinesMembers` | cycle_manager.py:82 | A line is kept exactly when it is one of the output lines and contains `python`. |
| `ProcessQueries.PythonProcessLinesAppend` | cycle_manager.py:82 | The filter keeps output order: filtering a concatenation concatenates the filtered parts. |
| `ProcessQueries.ListRunningProcesses` | cycle_manager.py:79-87 | An exception from `ps` becomes the reported error, and only then. Otherwise the listing holds exactly the output lines that contain `python`. |
| `ProcessQueries.KillProcessByName` | cycle_manager.py:89-97 | Exit status 0 gives "killed", and only it. Any other exit status gives "not found". A raised exception gives the error outcome with that error. |

## Left out

- `run_once` (cycle_manager.py:75-77) is not modelled. It is a single spawn-and-wait with no decision in it. Its trace would be the one action `RunToCompletion(file)`, the same action `CycleWithSwitch` ends with.
- `get_language`, the `LANGUAGES` table and every `print` are not modelled. They only choose and format messages. The outcomes that choose a message are modelled: `KillOutcome`, `ProcessListing` and the end of a trace.
- `main` and `argparse` are not modelled. `--cycle` and `--aftercycle` pass ON and OFF to the runners as plain seconds (`int(...)` without the factor 3600). Only `--complexcycle` entries are in hours.
- Process control is not modelled: `subprocess.Popen`, `process.terminate`, `subprocess.run` and `time.sleep` exist only as trace actions. Wall-clock time is only the integer inside `Sleep`.
- The OS queries are inputs: `os.listdir` and `os.path.isfile` are given as `DirEntry` values. `ps -fA` is given as its output lines, so `str.splitlines` is not modelled. `pkill -f` is given as its exit status, so its regular-expression matching on command lines is not modelled.
- Ctrl-C is not delivered asynchronously. The interrupt is a count of actions issued before it. Once it arrives nothing more is issued: a child started just before it is neither terminated nor awaited, and the trace then ends with that child never sent terminate. The "interrupted" message is not modelled.
- A negative ON or OFF value is accepted, as in the code. Python's `time.sleep` would then raise `ValueError` at run time, which is library behaviour outside this file.
- `ParseInt` accepts only an optional `-` followed by ASCII digits. Python's `int()` also accepts surrounding whitespace, a leading `+`, underscores between digits and non-ASCII decimal digits. Python 3.11 and later also reject more than 4300 digits; the model has no length limit.
- `RunComplexCycle` returns an empty trace at once for an empty task list. The Python loop spins forever without doing anything until the interrupt, which produces the same empty trace.
- `kill_process_by_name` reports "not found" for every nonzero `pkill` status, including 2 (syntax error) and 3 (fatal error). It reports an error only when running `pkill` raises. The model does the same.
- Neither the code nor the model checks that durations are non-negative.
- A failing `os.listdir('.')` (for example `PermissionError`, or `FileNotFoundError` when the working directory was removed) is not modelled: the code does not catch it, so it would end the program with an uncaught exception, while `ListPythonFiles` always returns a listing.
- `ps -fA`'s own exit status is not checked by the code, and the model also lists whatever output it gives.
- `process.terminate()` only sends a termination signal, and the runner never waits for the child to exit. A child that ignores or is slow to handle the signal keeps running into the idle sleep and past the next `Popen`. `Slot`, `OneChildAtATime` and `SwitchOneChildAtATime` track the runner's own actions, not the lifetimes of the operating system's processes.
- RunWithCycle, CycleWithSwitch and RunComplexCycle assume that every `Start` and `RunToCompletion` succeeds. In the code, `subprocess.Popen` or `subprocess.run` raises `FileNotFoundError` or `OSError` when `python` cannot be spawned. Only `KeyboardInterrupt` is caught, so such an error would end the run with an uncaught exception right after the actions before it.
