/** The duty-cycle loops of cycle_manager.py — `run_with_cycle`,
    `cycle_with_switch` and `run_complex_cycle` — as the sequence of process
    and sleep actions each one performs. The loops run until Ctrl-C; here the
    interrupt arrives after `budget` actions have been issued, so a run is the
    first `budget` actions of the loop's unbounded schedule. */
module Schedule {
  import opened TaskParsing

  /** One action of a runner: spawn `python file`, block for some seconds,
      terminate the child spawned last, or spawn and wait for natural exit. */
  datatype Event =
    | Start(file: string)
    | Sleep(seconds: int)
    | Terminate(file: string)
    | RunToCompletion(file: string)

  /** One on/off phase of a task. */
  function Quartet(t: Task): seq<Event> {
    [Start(t.file), Sleep(t.onSec), Terminate(t.file), Sleep(t.offSec)]
  }

  /** One pass of the `for task in tasks` loop: the tasks' phases in list order. */
  function Pass(tasks: seq<Task>): (r: seq<Event>)
    ensures |r| == 4 * |tasks|
  {
    if tasks == [] then [] else Pass(tasks[..|tasks| - 1]) + Quartet(tasks[|tasks| - 1])
  }

  /** `passes` rounds of the `while True` loop around the task list. */
  function Cycled(tasks: seq<Task>, passes: nat): (r: seq<Event>)
    ensures tasks != [] ==> |r| >= 4 * passes
  {
    if passes == 0 then [] else Cycled(tasks, passes - 1) + Pass(tasks)
  }

  /** The trace of `cycle_with_switch`: one phase of the first file, then the follow-up file. */
  function SwitchTrace(file1: string, onSec: int, offSec: int, afterFile: string): seq<Event> {
    Quartet(Task(file1, onSec, offSec)) + [RunToCompletion(afterFile)]
  }

  function Min(a: nat, b: nat): nat {
    if a <= b then a else b
  }

  // ---------------------------------------------------------------------
  // The runners
  // ---------------------------------------------------------------------

  /** The five lines every loop body repeats: start the file, sleep `onSec`,
      terminate it, sleep `offSec` — each reached only if the interrupt has
      not come yet. */
  method PerformPhase(trace: seq<Event>, t: Task, budget: nat) returns (next: seq<Event>, interrupted: bool)
    requires |trace| <= budget
    ensures next <= trace + Quartet(t)
    ensures trace <= next
    ensures interrupted <==> |trace| + 4 > budget
    ensures interrupted ==> |next| == budget
    ensures !interrupted ==> next == trace + Quartet(t)
  {
    // the interrupt is looked for before each action: it has come once `budget` actions are out
    next, interrupted := trace, |trace| >= budget;
    if !interrupted { next := next + [Start(t.file)]; interrupted := |next| >= budget; }
    if !interrupted { next := next + [Sleep(t.onSec)]; interrupted := |next| >= budget; }
    if !interrupted { next := next + [Terminate(t.file)]; interrupted := |next| >= budget; }
    if !interrupted { next := next + [Sleep(t.offSec)]; }
  }

  /** `run_with_cycle`: the same file started, given `onSec`, terminated and
      rested `offSec`, over and over, until the interrupt. */
  method RunWithCycle(file: string, onSec: int, offSec: int, budget: nat) returns (trace: seq<Event>)
    ensures trace == Cycled([Task(file, onSec, offSec)], budget)[..budget]
  {
    ghost var tasks := [Task(file, onSec, offSec)];
    assert Pass(tasks) == Quartet(tasks[0]) by { assert tasks[..0] == []; }
    trace := [];
    var stop := false;
    ghost var passes: nat := 0;
    while !stop
      invariant |trace| <= budget
      invariant !stop ==> trace == Cycled(tasks, passes)
      invariant stop ==> |trace| == budget && trace <= Cycled(tasks, passes)
      decreases budget - |trace|, !stop
    {
      trace, stop := PerformPhase(trace, Task(file, onSec, offSec), budget);
      passes := passes + 1;
    }
    FirstEventsOfCycled(tasks, passes, budget, trace);
  }

  /** `cycle_with_switch`: its `while True` body ends in `break`, so it runs
      once: one phase of `file1`, then `after_file` to completion. */
  method CycleWithSwitch(file1: string, onSec: int, offSec: int, afterFile: string, budget: nat)
    returns (trace: seq<Event>)
    ensures trace == SwitchTrace(file1, onSec, offSec, afterFile)[..Min(budget, 5)]
  {
    var stop;
    trace, stop := PerformPhase([], Task(file1, onSec, offSec), budget);
    if !stop && |trace| < budget {
      trace := trace + [RunToCompletion(afterFile)];
    }
  }

  /** The `for task in tasks` loop: one phase per task, in list order, until
      the interrupt. */
  method PerformPass(trace: seq<Event>, tasks: seq<Task>, budget: nat) returns (next: seq<Event>, interrupted: bool)
    requires |trace| <= budget
    ensures trace <= next && next <= trace + Pass(tasks) && |next| <= budget
    ensures interrupted ==> |next| == budget
    ensures !interrupted ==> next == trace + Pass(tasks)
  {
    next, interrupted := trace, false;
    var j := 0;
    while j < |tasks| && !interrupted
      invariant 0 <= j <= |tasks|
      invariant |next| <= budget && trace <= next
      invariant !interrupted ==> next == trace + Pass(tasks[..j])
      invariant interrupted ==> |next| == budget && next <= trace + Pass(tasks[..j])
      decreases |tasks| - j
    {
      ghost var before := next;
      next, interrupted := PerformPhase(next, tasks[j], budget);
      assert tasks[..j + 1][..j] == tasks[..j];
      assert before + Quartet(tasks[j]) == trace + Pass(tasks[..j + 1]);
      j := j + 1;
    }
    PassPrefix(tasks, j);
    if !interrupted {
      assert tasks[..j] == tasks;
    }
  }

  /** `run_complex_cycle`: pass after pass over the task list, one phase per
      task, until the interrupt. With no tasks the loop spins without issuing
      anything, so whenever the interrupt comes nothing has happened. */
  method RunComplexCycle(tasks: seq<Task>, budget: nat) returns (trace: seq<Event>)
    ensures tasks == [] ==> trace == []
    ensures tasks != [] ==> trace == Cycled(tasks, budget)[..budget]
  {
    trace := [];
    if tasks == [] {
      return;
    }
    var stop := false;
    ghost var passes: nat := 0;
    while !stop
      invariant |trace| <= budget
      invariant !stop ==> trace == Cycled(tasks, passes)
      invariant stop ==> |trace| == budget && trace <= Cycled(tasks, passes)
      decreases budget - |trace|, !stop
    {
      trace, stop := PerformPass(trace, tasks, budget);
      passes := passes + 1;
    }
    FirstEventsOfCycled(tasks, passes, budget, trace);
  }

  // ---------------------------------------------------------------------
  // Order of the schedule
  // ---------------------------------------------------------------------

  /** A pass over a prefix of the list is a prefix of the pass over the list. */
  lemma {:induction false} PassPrefix(tasks: seq<Task>, j: nat)
    requires j <= |tasks|
    ensures Pass(tasks[..j]) <= Pass(tasks)
    decreases |tasks| - j
  {
    if j < |tasks| {
      PassPrefix(tasks, j + 1);
      assert tasks[..j + 1][..j] == tasks[..j];
    } else {
      assert tasks[..j] == tasks;
    }
  }

  /** Fewer rounds are a prefix of more rounds: stopping early is a prefix. */
  lemma {:induction false} CycledPrefix(tasks: seq<Task>, p: nat, q: nat)
    requires p <= q
    ensures Cycled(tasks, p) <= Cycled(tasks, q)
    decreases q - p
  {
    if p < q {
      CycledPrefix(tasks, p, q - 1);
    }
  }

  /** A trace of `budget` actions that is a prefix of some number of rounds is
      the first `budget` actions of `budget` rounds. */
  lemma FirstEventsOfCycled(tasks: seq<Task>, passes: nat, budget: nat, trace: seq<Event>)
    requires tasks != []
    requires |trace| == budget && trace <= Cycled(tasks, passes)
    ensures trace == Cycled(tasks, budget)[..budget]
  {
    if passes <= budget {
      CycledPrefix(tasks, passes, budget);
    } else {
      CycledPrefix(tasks, budget, passes);
    }
  }

  /** An interrupted run is a prefix of any later-interrupted run. */
  lemma InterruptIsPrefix(tasks: seq<Task>, k: nat, m: nat)
    requires tasks != [] && k <= m
    ensures Cycled(tasks, k)[..k] <= Cycled(tasks, m)[..m]
  {
    CycledPrefix(tasks, k, m);
  }

  /** The j-th phase of a pass is the j-th task's phase. */
  lemma {:induction false} PassAt(tasks: seq<Task>, i: nat)
    requires i < 4 * |tasks|
    ensures Pass(tasks)[i] == Quartet(tasks[i / 4])[i % 4]
    decreases |tasks|
  {
    var n := |tasks| - 1;
    if i < 4 * n {
      PassAt(tasks[..n], i);
    }
  }

  /** Random access into the schedule: in pass `p`, task `j` of the list
      contributes actions `4 * (p * |tasks| + j)` to `4 * (p * |tasks| + j) + 3`,
      its four phase actions in order; pass `p + 1` starts again at task 0. */
  lemma {:induction false} CycledAt(tasks: seq<Task>, passes: nat, p: nat, j: nat, r: nat)
    requires p < passes && j < |tasks| && r < 4
    ensures 4 * (p * |tasks| + j) + r < |Cycled(tasks, passes)|
    ensures Cycled(tasks, passes)[4 * (p * |tasks| + j) + r] == Quartet(tasks[j])[r]
    decreases passes
  {
    if p == passes - 1 {
      CycledAtLastPass(tasks, p, j, r);
    } else {
      CycledAt(tasks, passes - 1, p, j, r);
      assert Cycled(tasks, passes) == Cycled(tasks, passes - 1) + Pass(tasks);
    }
  }

  /** The case of `CycledAt` where `p` is the last pass. */
  lemma CycledAtLastPass(tasks: seq<Task>, p: nat, j: nat, r: nat)
    requires j < |tasks| && r < 4
    ensures 4 * (p * |tasks| + j) + r < |Cycled(tasks, p + 1)|
    ensures Cycled(tasks, p + 1)[4 * (p * |tasks| + j) + r] == Quartet(tasks[j])[r]
  {
    var rest := Cycled(tasks, p);
    assert Cycled(tasks, p + 1) == rest + Pass(tasks);
    CycledLength(tasks, p);
    var m := p * |tasks|;
    var k := 4 * j + r;
    assert 4 * (m + j) + r == |rest| + k;
    PassAt(tasks, k);
    assert k / 4 == j && k % 4 == r;
  }

  lemma {:induction false} CycledLength(tasks: seq<Task>, passes: nat)
    ensures |Cycled(tasks, passes)| == 4 * (passes * |tasks|)
    decreases passes
  {
    if passes > 0 {
      CycledLength(tasks, passes - 1);
      assert passes * |tasks| == (passes - 1) * |tasks| + |tasks|;
    }
  }

  // ---------------------------------------------------------------------
  // At most one child not yet sent Terminate
  // ---------------------------------------------------------------------

  /** What the runner holds by its own actions (not by the processes'
      lifetimes): no child, the child of `file` not yet sent Terminate, or a
      trace that broke the discipline (a second spawn while a child has not
      yet been sent Terminate, or a terminate that names another file or no
      child). */
  datatype Slot = Idle | Running(file: string) | Broken

  function Step(s: Slot, e: Event): Slot {
    match e
    case Sleep(_) => s
    case Start(f) => if s == Idle then Running(f) else Broken
    case Terminate(f) => if s == Running(f) then Idle else Broken
    case RunToCompletion(_) => if s == Idle then Idle else Broken
  }

  /** The slot after a trace, action by action. */
  function Run(s: Slot, trace: seq<Event>): Slot {
    if trace == [] then s else Step(Run(s, trace[..|trace| - 1]), trace[|trace| - 1])
  }

  lemma {:induction false} RunAppend(s: Slot, a: seq<Event>, b: seq<Event>)
    ensures Run(s, a + b) == Run(Run(s, a), b)
    decreases |b|
  {
    if b == [] {
      assert a + b == a;
    } else {
      var b' := b[..|b| - 1];
      assert (a + b)[..|a + b| - 1] == a + b';
      RunAppend(s, a, b');
    }
  }

  /** Once broken, a trace stays broken; so an unbroken trace has only unbroken prefixes. */
  lemma {:induction false} UnbrokenPrefix(s: Slot, trace: seq<Event>, k: nat)
    requires k <= |trace|
    requires Run(s, trace) != Broken
    ensures Run(s, trace[..k]) != Broken
    decreases |trace| - k
  {
    if k < |trace| {
      var t := trace[..k + 1];
      assert t[..k] == trace[..k];
      assert trace[..k + 1][..k + 1] == t;
      UnbrokenPrefix(s, trace, k + 1);
    } else {
      assert trace[..k] == trace;
    }
  }

  lemma QuartetRestores(t: Task)
    ensures Run(Idle, Quartet(t)) == Idle
  {
    var q := Quartet(t);
    assert q[..3][..2] == q[..2] && q[..2][..1] == q[..1] && q[..1][..0] == [];
    assert Run(Idle, q[..1]) == Running(t.file);
    assert Run(Idle, q[..2]) == Running(t.file);
    assert Run(Idle, q[..3]) == Idle;
  }

  lemma {:induction false} PassRestores(tasks: seq<Task>)
    ensures Run(Idle, Pass(tasks)) == Idle
    decreases |tasks|
  {
    if tasks != [] {
      var n := |tasks| - 1;
      PassRestores(tasks[..n]);
      RunAppend(Idle, Pass(tasks[..n]), Quartet(tasks[n]));
      QuartetRestores(tasks[n]);
    }
  }

  lemma {:induction false} CycledRestores(tasks: seq<Task>, passes: nat)
    ensures Run(Idle, Cycled(tasks, passes)) == Idle
    decreases passes
  {
    if passes > 0 {
      CycledRestores(tasks, passes - 1);
      RunAppend(Idle, Cycled(tasks, passes - 1), Pass(tasks));
      PassRestores(tasks);
    }
  }

  /** However the cycle is interrupted, the runner has sent Terminate to the
      file of every Start before issuing the next Start, and a completed round
      leaves no Start without its Terminate. This is the runner's own
      discipline: terminate is not awaited, so it says nothing about when the
      operating system's processes actually exit. */
  lemma OneChildAtATime(tasks: seq<Task>, passes: nat, k: nat)
    requires k <= |Cycled(tasks, passes)|
    ensures Run(Idle, Cycled(tasks, passes)[..k]) != Broken
    ensures Run(Idle, Cycled(tasks, passes)) == Idle
  {
    CycledRestores(tasks, passes);
    UnbrokenPrefix(Idle, Cycled(tasks, passes), k);
  }

  /** The same for `cycle_with_switch`: the follow-up file runs with no cycled child not yet sent Terminate. */
  lemma SwitchOneChildAtATime(file1: string, onSec: int, offSec: int, afterFile: string, k: nat)
    requires k <= 5
    ensures Run(Idle, SwitchTrace(file1, onSec, offSec, afterFile)[..k]) != Broken
    ensures Run(Idle, SwitchTrace(file1, onSec, offSec, afterFile)) == Idle
  {
    var t := Task(file1, onSec, offSec);
    QuartetRestores(t);
    RunAppend(Idle, Quartet(t), [RunToCompletion(afterFile)]);
    assert [RunToCompletion(afterFile)][..0] == [];
    UnbrokenPrefix(Idle, SwitchTrace(file1, onSec, offSec, afterFile), k);
  }

  // ---------------------------------------------------------------------
  // Time spent
  // ---------------------------------------------------------------------

  /** Seconds slept along a trace. */
  function SleepTime(trace: seq<Event>): int {
    if trace == [] then 0
    else SleepTime(trace[..|trace| - 1]) + (if trace[|trace| - 1].Sleep? then trace[|trace| - 1].seconds else 0)
  }

  /** The sum of the tasks' on and off durations. */
  function DutyTotal(tasks: seq<Task>): int {
    if tasks == [] then 0 else DutyTotal(tasks[..|tasks| - 1]) + tasks[|tasks| - 1].onSec + tasks[|tasks| - 1].offSec
  }

  lemma {:induction false} SleepTimeAppend(a: seq<Event>, b: seq<Event>)
    ensures SleepTime(a + b) == SleepTime(a) + SleepTime(b)
    decreases |b|
  {
    if b == [] {
      assert a + b == a;
    } else {
      var b' := b[..|b| - 1];
      assert (a + b)[..|a + b| - 1] == a + b';
      SleepTimeAppend(a, b');
    }
  }

  /** One pass sleeps for the sum of the tasks' on and off durations. */
  lemma {:induction false} PassSleepTime(tasks: seq<Task>)
    ensures SleepTime(Pass(tasks)) == DutyTotal(tasks)
    decreases |tasks|
  {
    if tasks != [] {
      var n := |tasks| - 1;
      PassSleepTime(tasks[..n]);
      SleepTimeAppend(Pass(tasks[..n]), Quartet(tasks[n]));
      QuartetSleepTime(tasks[n]);
    }
  }

  lemma QuartetSleepTime(t: Task)
    ensures SleepTime(Quartet(t)) == t.onSec + t.offSec
  {
    var q := Quartet(t);
    assert q[..3][..2] == q[..2] && q[..2][..1] == q[..1] && q[..1][..0] == [];
    assert SleepTime(q[..1]) == 0;
    assert SleepTime(q[..2]) == t.onSec;
    assert SleepTime(q[..3]) == t.onSec;
  }
}
