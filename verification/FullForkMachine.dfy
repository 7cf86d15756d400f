/** Every interleaving of one call of the whole-group fork: the caller, the new leader, and
    the threads the pass makes, all of which run the same hook.

    Task 0 is the new leader; the tasks after it are the threads made by a pass, in order of
    creation.  The two tests of the hook's guard and the assignment behind them are separate
    steps.
 */
module FullForkMachine {
  import opened ProcessTree
  import opened ThreadRing

  datatype Caller = Forking | AwaitingPass | Returned(err: int)

  /** A task in the hook.  `Born`: made, not yet woken.  `AtPid`, `AtClone`: before the first and
      the second test of the guard.  `Entered`: behind the guard.  `Looping(i)`: at ring position
      `i`.  `Copying`, `Waking`: behind the clone call for position `i` that made task `child`.
      `Finishing`, `Clearing`: before the release of the caller and before `clone = false`. */
  datatype Hook =
    | Born | AtPid | AtClone | Entered
    | Looping(i: nat) | Copying(i: nat, child: nat) | Waking(i: nat, child: nat)
    | Finishing | Clearing | Gone

  /** `end` is a history variable: the ring position at which the leader left its loop. */
  datatype Config = Config(
    tracked: int, clone: bool, errorCheck: int, caller: Caller,
    hooks: seq<Hook>, made: seq<Copy>, end: nat)

  /** `RunCaller` and `RunHook` take one step of the caller and of a task; the last argument is
      what the kernel answers if that step is a fork. */
  datatype Step = RunCaller(result: int) | RunHook(k: nat, result: int)

  function Start(ring: seq<Thread>, errorCheck: int): Config
    requires ring != []
  {
    Config(ring[0].pid, false, errorCheck, Forking, [], [], 0)
  }

  function Next(ring: seq<Thread>, c: Config, step: Step): Config
    requires ring != []
  {
    match step
    case RunCaller(result) => CallerNext(c, result)
    case RunHook(k, result) => if k < |c.hooks| then HookNext(ring, c, k, result) else c
  }

  function CallerNext(c: Config, result: int): Config {
    match c.caller
    case Forking => if result < 0 then c.(caller := Returned(result)) else c.(caller := AwaitingPass, hooks := [AtPid])
    case AwaitingPass => if c.tracked == -1 then c.(caller := Returned(c.errorCheck)) else c
    case Returned(_) => c
  }

  /** A thread as the clone call makes it: the registers are still to be copied. */
  function Blank(t: Thread, pid: Pid): Copy {
    CopyOf(t, pid).(regs := Regs([]))
  }

  function HookNext(ring: seq<Thread>, c: Config, k: nat, result: int): Config
    requires ring != [] && k < |c.hooks|
  {
    match c.hooks[k]
    case Born => c
    case AtPid => Go(c, k, if ring[0].pid == c.tracked then AtClone else Gone)
    case AtClone => Go(c, k, if c.clone then Gone else Entered)
    case Entered => Go(c, k, Looping(1)).(clone := true)
    case Looping(i) =>
      if i >= |ring| then Go(c, k, Finishing).(end := if k == 0 then i else c.end)
      else if ring[i].exiting then Go(c, k, Looping(i + 1))
      else if result < 0 then Go(c, k, Finishing).(errorCheck := -1, end := if k == 0 then i else c.end)
      else c.(hooks := c.hooks[k := Copying(i, |c.hooks|)] + [Born], made := c.made + [Blank(ring[i], result)])
    case Copying(i, child) =>
      if 0 < child <= |c.made| && i < |ring| then
        Go(c, k, Waking(i, child)).(made := c.made[child - 1 := c.made[child - 1].(regs := ring[i].regs)])
      else c
    case Waking(i, child) =>
      if child < |c.hooks| then c.(hooks := c.hooks[k := Looping(i + 1)][child := AtPid]) else c
    case Finishing => Go(c, k, Clearing).(tracked := -1)
    case Clearing => Go(c, k, Gone).(clone := false)
    case Gone => c
  }

  function Go(c: Config, k: nat, h: Hook): Config
    requires k < |c.hooks|
  {
    c.(hooks := c.hooks[k := h])
  }

  function Run(ring: seq<Thread>, c: Config, steps: seq<Step>): Config
    requires ring != []
    decreases |steps|
  {
    if steps == [] then c else Next(ring, Run(ring, c, steps[..|steps| - 1]), steps[|steps| - 1])
  }

  /** No task is between the two tests of the guard when `clone` is cleared. */
  ghost predicate Clean(c: Config, step: Step) {
    step.RunHook? && step.k < |c.hooks| && c.hooks[step.k] == Clearing ==> NoneInGuard(c)
  }

  ghost predicate NoneInGuard(c: Config) {
    forall j :: 0 <= j < |c.hooks| ==> c.hooks[j] != AtClone
  }

  ghost predicate CleanRun(ring: seq<Thread>, c: Config, steps: seq<Step>)
    requires ring != []
  {
    forall n {:trigger steps[n]} :: 0 <= n < |steps| ==> Clean(Run(ring, c, steps[..n]), steps[n])
  }

  /** Nobody runs between the two tests of a task's guard: the guard is atomic. */
  ghost predicate GuardAtomic(c: Config, step: Step) {
    forall j :: 0 <= j < |c.hooks| && c.hooks[j] == AtClone ==> step.RunHook? && step.k == j
  }

  ghost predicate AtomicRun(ring: seq<Thread>, c: Config, steps: seq<Step>)
    requires ring != []
  {
    forall n {:trigger steps[n]} :: 0 <= n < |steps| ==> GuardAtomic(Run(ring, c, steps[..n]), steps[n])
  }

  /** With an atomic guard every run is clean. */
  lemma AtomicRunsAreClean(ring: seq<Thread>, c: Config, steps: seq<Step>)
    requires ring != [] && AtomicRun(ring, c, steps)
    ensures CleanRun(ring, c, steps)
  {
    forall n | 0 <= n < |steps| ensures Clean(Run(ring, c, steps[..n]), steps[n]) {
      assert GuardAtomic(Run(ring, c, steps[..n]), steps[n]);
    }
  }

  /** A task other than the leader is behind the guard. */
  ghost predicate SecondPass(c: Config) {
    exists k :: 0 < k < |c.hooks| && !Outside(c.hooks[k])
  }

  predicate Outside(h: Hook) {
    h == Born || h == AtPid || h == AtClone || h == Gone
  }

  // ---------- the invariant of clean runs ----------

  ghost predicate Others(c: Config) {
    forall k {:trigger c.hooks[k]} :: 0 < k < |c.hooks| ==> Outside(c.hooks[k])
  }

  /** All threads made so far are copies of the live threads before position `i`. */
  ghost predicate MadeUpTo(ring: seq<Thread>, c: Config, i: nat) {
    0 < i <= |ring| && Copies(c.made, Live(Before(ring, i))) && |c.hooks| == |c.made| + 1
  }

  /** As before, with one more thread that lacks its registers. */
  ghost predicate MadeOneMore(ring: seq<Thread>, c: Config, i: nat) {
    && 0 < i < |ring| && !ring[i].exiting && c.made != [] && |c.hooks| == |c.made| + 1
    && Copies(c.made[..|c.made| - 1], Live(Before(ring, i)))
    && c.made[|c.made| - 1] == Blank(ring[i], c.made[|c.made| - 1].pid)
    && c.hooks[|c.hooks| - 1] == Born
  }

  ghost predicate PassEnded(ring: seq<Thread>, c: Config, e0: int) {
    && MadeUpTo(ring, c, c.end)
    && (c.end == |ring| ==> c.errorCheck == e0)
    && (c.end < |ring| ==> c.errorCheck == -1 && !ring[c.end].exiting)
  }

  ghost predicate Leader(ring: seq<Thread>, c: Config, e0: int)
    requires ring != [] && c.hooks != []
  {
    var busy := c.tracked == ring[0].pid && c.clone && c.errorCheck == e0;
    match c.hooks[0]
    case Born => false
    case AtPid => Fresh(ring, c, e0)
    case AtClone => Fresh(ring, c, e0)
    case Entered => Fresh(ring, c, e0)
    case Looping(i) => busy && MadeUpTo(ring, c, i)
    case Copying(i, child) => busy && MadeOneMore(ring, c, i) && child == |c.hooks| - 1
    case Waking(i, child) =>
      busy && i < |ring| && MadeUpTo(ring, c, i + 1) && 0 < child == |c.hooks| - 1 && c.hooks[child] == Born
    case Finishing => c.tracked == ring[0].pid && c.clone && PassEnded(ring, c, e0)
    case Clearing => c.tracked == -1 && c.clone && PassEnded(ring, c, e0)
    case Gone => c.tracked == -1 && !c.clone && PassEnded(ring, c, e0) && NoneInGuard(c)
  }

  /** Before the leader's pass. */
  ghost predicate Fresh(ring: seq<Thread>, c: Config, e0: int)
    requires ring != []
  {
    c.tracked == ring[0].pid && !c.clone && c.errorCheck == e0 && |c.hooks| == 1 && c.made == []
  }

  ghost predicate Inv(ring: seq<Thread>, c: Config, e0: int)
    requires ring != []
  {
    match c.caller
    case Forking => c.hooks == [] && c.tracked == ring[0].pid && !c.clone && c.made == [] && c.errorCheck == e0
    case AwaitingPass => c.hooks != [] && Others(c) && Leader(ring, c, e0)
    case Returned(err) =>
      if c.hooks == [] then err < 0 && c.made == [] && c.errorCheck == e0
      else Others(c) && Leader(ring, c, e0) && c.tracked == -1 && err == c.errorCheck
  }

  /** Steps of the threads the pass has made. */
  lemma OtherKeeps(ring: seq<Thread>, c: Config, k: nat, result: int, e0: int)
    requires ring != [] && c.hooks != [] && Others(c) && Leader(ring, c, e0) && 0 < k < |c.hooks|
    ensures var c1 := HookNext(ring, c, k, result);
            Others(c1) && Leader(ring, c1, e0) && c1.tracked == c.tracked && c1.errorCheck == c.errorCheck
  {
    var c1 := HookNext(ring, c, k, result);
    assert Outside(c.hooks[k]);
    if c.hooks[k] == AtPid || c.hooks[k] == AtClone {
      assert c1 == c.(hooks := c1.hooks) && c1.hooks[0] == c.hooks[0];
      assert c.hooks[k] == AtClone ==> c.hooks[0] != Gone;
    }
  }

  ghost predicate LeaderLoops(ring: seq<Thread>, c: Config, e0: int)
    requires ring != []
  {
    c.hooks != [] && c.hooks[0].Looping? && Others(c) && Leader(ring, c, e0)
  }

  lemma LeaderForks(ring: seq<Thread>, c: Config, result: int, e0: int)
    requires ring != [] && LeaderLoops(ring, c, e0)
    requires var i := c.hooks[0].i; i < |ring| && !ring[i].exiting && result >= 0
    ensures var c1 := HookNext(ring, c, 0, result);
            Others(c1) && Leader(ring, c1, e0) && c1.tracked == c.tracked
  {
    var c1 := HookNext(ring, c, 0, result);
    assert c1.made[..|c1.made| - 1] == c.made;
  }

  lemma LeaderMovesOn(ring: seq<Thread>, c: Config, result: int, e0: int)
    requires ring != [] && LeaderLoops(ring, c, e0)
    requires var i := c.hooks[0].i; i >= |ring| || ring[i].exiting || result < 0
    ensures var c1 := HookNext(ring, c, 0, result);
            Others(c1) && Leader(ring, c1, e0) && c1.tracked == c.tracked
  {
    if c.hooks[0].i < |ring| { BeforeNext(ring, c.hooks[0].i); }
  }

  lemma LeaderCopies(ring: seq<Thread>, c: Config, result: int, e0: int)
    requires ring != [] && c.hooks != [] && Others(c) && Leader(ring, c, e0) && c.hooks[0].Copying?
    ensures var c1 := HookNext(ring, c, 0, result);
            Others(c1) && Leader(ring, c1, e0) && c1.tracked == c.tracked
  {
    var i, child, n := c.hooks[0].i, c.hooks[0].child, |c.made|;
    BeforeNext(ring, i);
    assert c.hooks[child] == Born;
    var m := CopyOf(ring[i], c.made[n - 1].pid);
    CopiesSnoc(c.made[..n - 1], Live(Before(ring, i)), m, ring[i]);
    LastChanged(c.made, m);
  }

  lemma CopiesSnoc(made: seq<Copy>, ts: seq<Thread>, m: Copy, t: Thread)
    requires Copies(made, ts) && m == CopyOf(t, m.pid)
    ensures Copies(made + [m], ts + [t])
  {
  }

  lemma LastChanged(made: seq<Copy>, m: Copy)
    requires made != []
    ensures made[|made| - 1 := m] == made[..|made| - 1] + [m]
  {
  }

  /** Steps of the leader. */
  lemma LeaderKeeps(ring: seq<Thread>, c: Config, result: int, e0: int)
    requires ring != [] && c.hooks != [] && Others(c) && Leader(ring, c, e0) && Clean(c, RunHook(0, result))
    ensures var c1 := HookNext(ring, c, 0, result);
            && Others(c1) && Leader(ring, c1, e0)
            && (c.tracked == -1 ==> c1.tracked == -1 && c1.errorCheck == c.errorCheck)
  {
    if c.hooks[0].Looping? {
      var i := c.hooks[0].i;
      if i < |ring| && !ring[i].exiting && result >= 0 {
        LeaderForks(ring, c, result, e0);
      } else {
        LeaderMovesOn(ring, c, result, e0);
      }
    } else if c.hooks[0].Copying? {
      LeaderCopies(ring, c, result, e0);
    } else {
      var c1 := HookNext(ring, c, 0, result);
      assert Before(ring, 1) == [];
    }
  }

  lemma NextKeeps(ring: seq<Thread>, c: Config, step: Step, e0: int)
    requires ring != [] && Inv(ring, c, e0) && Clean(c, step)
    ensures Inv(ring, Next(ring, c, step), e0)
  {
    match step
    case RunCaller(result) => CallerKeeps(ring, c, result, e0);
    case RunHook(k, result) => if k < |c.hooks| { HookKeeps(ring, c, k, result, e0); }
  }

  lemma CallerKeeps(ring: seq<Thread>, c: Config, result: int, e0: int)
    requires ring != [] && Inv(ring, c, e0)
    ensures Inv(ring, CallerNext(c, result), e0)
  {
  }

  lemma HookKeeps(ring: seq<Thread>, c: Config, k: nat, result: int, e0: int)
    requires ring != [] && Inv(ring, c, e0) && k < |c.hooks| && Clean(c, RunHook(k, result))
    ensures Inv(ring, HookNext(ring, c, k, result), e0)
  {
    if k == 0 { LeaderKeeps(ring, c, result, e0); } else { OtherKeeps(ring, c, k, result, e0); }
  }

  lemma {:induction false} RunKeeps(ring: seq<Thread>, e0: int, steps: seq<Step>)
    requires ring != [] && CleanRun(ring, Start(ring, e0), steps)
    ensures Inv(ring, Run(ring, Start(ring, e0), steps), e0)
    decreases |steps|
  {
    if steps != [] {
      var n := |steps| - 1;
      var c := Start(ring, e0);
      forall m | 0 <= m < n ensures Clean(Run(ring, c, steps[..n][..m]), steps[..n][m]) {
        assert steps[..n][..m] == steps[..m] && steps[..n][m] == steps[m];
      }
      RunKeeps(ring, e0, steps[..n]);
      assert Clean(Run(ring, c, steps[..n]), steps[n]);
      NextKeeps(ring, Run(ring, c, steps[..n]), steps[n], e0);
    }
  }

  // ---------- main results ----------

  /** In every clean run the clone loop is run by the new leader only. */
  lemma {:induction false} OnlyTheLeaderClones(ring: seq<Thread>, e0: int, steps: seq<Step>)
    requires ring != [] && CleanRun(ring, Start(ring, e0), steps)
    ensures !SecondPass(Run(ring, Start(ring, e0), steps))
  {
    RunKeeps(ring, e0, steps);
    var c := Run(ring, Start(ring, e0), steps);
    assert c.hooks != [] ==> Others(c);
  }

  /** With an atomic guard no interleaving lets a second task into the clone loop. */
  lemma {:induction false} AtomicGuardSuffices(ring: seq<Thread>, e0: int, steps: seq<Step>)
    requires ring != [] && AtomicRun(ring, Start(ring, e0), steps)
    ensures !SecondPass(Run(ring, Start(ring, e0), steps))
    ensures CleanRun(ring, Start(ring, e0), steps)
  {
    AtomicRunsAreClean(ring, Start(ring, e0), steps);
    OnlyTheLeaderClones(ring, e0, steps);
  }

  // ---------- the call can always be completed ----------

  function Left(n: nat, i: nat): nat {
    if i <= n then n - i else 0
  }

  /** An upper bound on the steps of caller and leader until the caller returns. */
  function Distance(ring: seq<Thread>, c: Config): nat
    requires ring != []
  {
    var n := |ring|;
    match c.caller
    case Returned(_) => 0
    case Forking => 3 * n + 10
    case AwaitingPass =>
      if c.tracked == -1 || c.hooks == [] then 1
      else
        match c.hooks[0]
        case AtPid => 3 * n + 8
        case AtClone => 3 * n + 7
        case Entered => 3 * n + 6
        case Looping(i) => 3 * Left(n, i) + 5
        case Copying(i, _) => 3 * Left(n, i) + 4
        case Waking(i, _) => 3 * Left(n, i) + 3
        case _ => 2
  }

  function Helpful(c: Config): Step {
    if c.caller.AwaitingPass? && c.tracked != -1 then RunHook(0, 0) else RunCaller(0)
  }

  lemma HelpfulCloser(ring: seq<Thread>, c: Config, e0: int)
    requires ring != [] && Inv(ring, c, e0) && !c.caller.Returned?
    ensures Clean(c, Helpful(c)) && Distance(ring, Next(ring, c, Helpful(c))) < Distance(ring, c)
  {
    if c.caller.AwaitingPass? && c.tracked != -1 { assert c.hooks[0] != Gone && c.hooks[0] != Born; }
  }

  /** Whatever has run so far, caller and leader can go on until the caller returns. */
  lemma CallerCanAlwaysReturn(ring: seq<Thread>, c: Config, e0: int) returns (steps: seq<Step>)
    requires ring != [] && Inv(ring, c, e0)
    ensures CleanRun(ring, c, steps) && Run(ring, c, steps).caller.Returned? && |steps| <= Distance(ring, c)
    decreases Distance(ring, c)
  {
    if c.caller.Returned? {
      steps := [];
    } else {
      var step := Helpful(c);
      HelpfulCloser(ring, c, e0);
      NextKeeps(ring, c, step, e0);
      var rest := CallerCanAlwaysReturn(ring, Next(ring, c, step), e0);
      steps := [step] + rest;
      RunCons(ring, c, step, rest);
      CleanCons(ring, c, step, rest);
    }
  }

  lemma CleanCons(ring: seq<Thread>, c: Config, step: Step, rest: seq<Step>)
    requires ring != [] && Clean(c, step) && CleanRun(ring, Next(ring, c, step), rest)
    ensures CleanRun(ring, c, [step] + rest)
  {
    var steps := [step] + rest;
    forall n | 0 <= n < |steps| ensures Clean(Run(ring, c, steps[..n]), steps[n]) {
      if n > 0 {
        PrefixOfAppend([step], rest, n - 1);
        RunCons(ring, c, step, rest[..n - 1]);
        assert Clean(Run(ring, Next(ring, c, step), rest[..n - 1]), rest[n - 1]);
      } else {
        assert steps[..0] == [];
      }
    }
  }

  lemma {:induction false} RunCons(ring: seq<Thread>, c: Config, step: Step, steps: seq<Step>)
    requires ring != []
    ensures Run(ring, c, [step] + steps) == Run(ring, Next(ring, c, step), steps)
    decreases |steps|
  {
    var all := [step] + steps;
    if steps == [] {
      assert all[..0] == [] && all[0] == step;
    } else {
      var n := |steps| - 1;
      PrefixOfAppend([step], steps, n);
      RunCons(ring, c, step, steps[..n]);
    }
  }

  // ---------- all runs ----------

  /** What holds in all runs, clean or not. */
  ghost predicate Basics(c: Config) {
    (c.caller.Forking? ==> c.hooks == []) && AllMakeOthers(c.hooks)
  }

  /** The thread a task has made is not the leader. */
  predicate MakesOthers(h: Hook) {
    h.Copying? || h.Waking? ==> h.child > 0
  }

  ghost predicate AllMakeOthers(hooks: seq<Hook>) {
    forall k :: 0 <= k < |hooks| ==> MakesOthers(hooks[k])
  }

  lemma BasicsKept(ring: seq<Thread>, c: Config, step: Step)
    requires ring != [] && Basics(c)
    ensures Basics(Next(ring, c, step))
  {
    match step
    case RunCaller(_) =>
    case RunHook(k, result) => if k < |c.hooks| { HookBasics(ring, c, k, result); }
  }

  lemma HookBasics(ring: seq<Thread>, c: Config, k: nat, result: int)
    requires ring != [] && Basics(c) && k < |c.hooks|
    ensures Basics(HookNext(ring, c, k, result))
  {
    var hooks := c.hooks;
    assert MakesOthers(hooks[k]);
    match hooks[k]
    case Looping(i) =>
      BasicsSet(hooks, k, Copying(i, |hooks|));
      BasicsSet(hooks, k, Looping(i + 1));
      BasicsSet(hooks, k, Finishing);
    case Waking(i, child) =>
      BasicsSet(hooks, k, Looping(i + 1));
      if child < |hooks| { BasicsSet(hooks[k := Looping(i + 1)], child, AtPid); }
    case _ => BasicsSet(hooks, k, HookNext(ring, c, k, result).hooks[k]);
  }

  lemma BasicsSet(hooks: seq<Hook>, k: nat, h: Hook)
    requires k < |hooks| && AllMakeOthers(hooks) && MakesOthers(h)
    ensures AllMakeOthers(hooks[k := h])
  {
  }

  /** A leader that is out of the hook stays out. */
  lemma GoneForGood(ring: seq<Thread>, c: Config, step: Step)
    requires ring != [] && Basics(c) && LeaderGone(c)
    ensures LeaderGone(Next(ring, c, step))
  {
    if step.RunHook? && step.k < |c.hooks| { assert MakesOthers(c.hooks[step.k]); }
  }

  ghost predicate LeaderGone(c: Config) {
    c.hooks != [] && c.hooks[0] == Gone
  }

  /** Every run is clean until the leader has cleared `clone`. */
  lemma {:induction false} CleanUntilCleared(ring: seq<Thread>, e0: int, steps: seq<Step>)
    requires ring != []
    ensures var c := Run(ring, Start(ring, e0), steps);
            Basics(c) && (!LeaderGone(c) ==> Inv(ring, c, e0) && CleanRun(ring, Start(ring, e0), steps))
    decreases |steps|
  {
    if steps != [] {
      var n := |steps| - 1;
      var c0 := Start(ring, e0);
      var c := Run(ring, c0, steps[..n]);
      CleanUntilCleared(ring, e0, steps[..n]);
      BasicsKept(ring, c, steps[n]);
      if LeaderGone(c) { GoneForGood(ring, c, steps[n]); }
      if !LeaderGone(Next(ring, c, steps[n])) {
        NotYetCleared(ring, c, steps[n], e0);
        NextKeeps(ring, c, steps[n], e0);
        CleanLonger(ring, c0, steps);
      }
    }
  }

  lemma NotYetCleared(ring: seq<Thread>, c: Config, step: Step, e0: int)
    requires ring != [] && Inv(ring, c, e0) && !LeaderGone(Next(ring, c, step))
    ensures Clean(c, step)
  {
    if step.RunHook? && 0 < step.k < |c.hooks| { assert Outside(c.hooks[step.k]); }
  }

  lemma {:induction false} CleanLonger(ring: seq<Thread>, c0: Config, steps: seq<Step>)
    requires ring != [] && steps != []
    requires var n := |steps| - 1; CleanRun(ring, c0, steps[..n]) && Clean(Run(ring, c0, steps[..n]), steps[n])
    ensures CleanRun(ring, c0, steps)
  {
    var n := |steps| - 1;
    forall m | 0 <= m < |steps| ensures Clean(Run(ring, c0, steps[..m]), steps[m]) {
      if m < n {
        assert steps[..n][..m] == steps[..m] && steps[..n][m] == steps[m];
        assert Clean(Run(ring, c0, steps[..n][..m]), steps[..n][m]);
      }
    }
  }
}
