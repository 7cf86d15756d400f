/** What holds of every run of one call of the whole-group fork, also of runs in which the guard
    of the hook is not atomic and a second task gets behind it.
 */
module FullForkRuns {
  import opened ProcessTree
  import opened ThreadRing
  import opened FullForkMachine

  // ---------- after the leader has left the hook ----------

  /** The number of threads made by the leader's own pass. */
  function OwnPass(ring: seq<Thread>, c: Config): nat {
    |Live(Before(ring, c.end))|
  }

  /** The threads of the leader's own pass stay as they are; later clones lie behind them. */
  ghost predicate Late(ring: seq<Thread>, c: Config, e0: int) {
    && LeaderGone(c) && c.tracked == -1 && !c.caller.Forking?
    && 0 < c.end <= |ring| && OwnPass(ring, c) <= |c.made| && |c.hooks| == |c.made| + 1
    && Copies(c.made[..OwnPass(ring, c)], Live(Before(ring, c.end)))
    && AllBehind(c.hooks, OwnPass(ring, c))
    && (c.end < |ring| ==> c.errorCheck == -1 && !ring[c.end].exiting)
    && (c.errorCheck == e0 || c.errorCheck == -1)
    && (c.caller.Returned? ==>
          (c.caller.err == e0 || c.caller.err == -1) && (c.end < |ring| ==> c.caller.err == -1))
  }

  /** Whoever copies registers does so to a thread made after the first `n`. */
  predicate Behind(h: Hook, n: nat) {
    h.Copying? || h.Waking? ==> h.child > n
  }

  ghost predicate AllBehind(hooks: seq<Hook>, n: nat) {
    forall k :: 0 <= k < |hooks| ==> Behind(hooks[k], n)
  }

  lemma BehindSet(hooks: seq<Hook>, k: nat, h: Hook, n: nat)
    requires k < |hooks| && AllBehind(hooks, n) && Behind(h, n)
    ensures AllBehind(hooks[k := h], n)
  {
  }

  lemma PrefixKept(made: seq<Copy>, n: nat, i: nat, m: Copy)
    requires n <= i < |made|
    ensures made[i := m][..n] == made[..n]
  {
  }

  lemma PrefixOfLonger(made: seq<Copy>, n: nat, m: Copy)
    requires n <= |made|
    ensures (made + [m])[..n] == made[..n]
  {
  }

  /** A later task that only moves on, and may set `error_check`. */
  lemma LateMoves(ring: seq<Thread>, c: Config, c1: Config, k: nat, h: Hook, e0: int)
    requires ring != [] && Late(ring, c, e0) && 0 < k < |c.hooks| && Behind(h, OwnPass(ring, c))
    requires c1 == c.(hooks := c.hooks[k := h], clone := c1.clone, errorCheck := c1.errorCheck)
    requires c1.errorCheck == c.errorCheck || c1.errorCheck == -1
    ensures Late(ring, c1, e0)
  {
    BehindSet(c.hooks, k, h, OwnPass(ring, c));
  }

  lemma LateForks(ring: seq<Thread>, c: Config, k: nat, i: nat, pid: Pid, e0: int)
    requires ring != [] && Late(ring, c, e0) && 0 < k < |c.hooks| && i < |ring|
    ensures var hooks, made := c.hooks[k := Copying(i, |c.hooks|)] + [Born], c.made + [Blank(ring[i], pid)];
            Late(ring, c.(hooks := hooks, made := made), e0)
  {
    BehindSet(c.hooks, k, Copying(i, |c.hooks|), OwnPass(ring, c));
    PrefixOfLonger(c.made, OwnPass(ring, c), Blank(ring[i], pid));
  }

  lemma LateCopies(ring: seq<Thread>, c: Config, k: nat, e0: int)
    requires ring != [] && Late(ring, c, e0) && 0 < k < |c.hooks| && c.hooks[k].Copying?
    ensures Late(ring, HookNext(ring, c, k, 0), e0)
  {
    var i, child, n := c.hooks[k].i, c.hooks[k].child, OwnPass(ring, c);
    assert Behind(c.hooks[k], n);
    if child <= |c.made| && i < |ring| {
      BehindSet(c.hooks, k, Waking(i, child), n);
      PrefixKept(c.made, n, child - 1, c.made[child - 1].(regs := ring[i].regs));
    }
  }

  lemma LateWakes(ring: seq<Thread>, c: Config, k: nat, e0: int)
    requires ring != [] && Late(ring, c, e0) && 0 < k < |c.hooks| && c.hooks[k].Waking?
    ensures Late(ring, HookNext(ring, c, k, 0), e0)
  {
    var i, child, n := c.hooks[k].i, c.hooks[k].child, OwnPass(ring, c);
    assert Behind(c.hooks[k], n);
    BehindSet(c.hooks, k, Looping(i + 1), n);
    if child < |c.hooks| { BehindSet(c.hooks[k := Looping(i + 1)], child, AtPid, n); }
  }

  lemma LateHook(ring: seq<Thread>, c: Config, k: nat, result: int, e0: int)
    requires ring != [] && Late(ring, c, e0) && 0 < k < |c.hooks|
    ensures Late(ring, HookNext(ring, c, k, result), e0)
  {
    var c1 := HookNext(ring, c, k, result);
    match c.hooks[k]
    case Copying(_, _) => LateCopies(ring, c, k, e0);
    case Waking(_, _) => LateWakes(ring, c, k, e0);
    case Looping(i) =>
      if i < |ring| && !ring[i].exiting && result >= 0 {
        LateForks(ring, c, k, i, result, e0);
      } else {
        LateMoves(ring, c, c1, k, c1.hooks[k], e0);
      }
    case _ => LateMoves(ring, c, c1, k, c1.hooks[k], e0);
  }

  lemma LateKeeps(ring: seq<Thread>, c: Config, step: Step, e0: int)
    requires ring != [] && Late(ring, c, e0)
    ensures Late(ring, Next(ring, c, step), e0)
  {
    match step
    case RunCaller(_) =>
    case RunHook(k, result) =>
      if 0 < k < |c.hooks| { LateHook(ring, c, k, result, e0); }
  }

  /** The step with which the leader leaves the hook. */
  lemma LateStarts(ring: seq<Thread>, c: Config, step: Step, e0: int)
    requires ring != [] && Inv(ring, c, e0) && !LeaderGone(c) && LeaderGone(Next(ring, c, step))
    ensures Late(ring, Next(ring, c, step), e0)
  {
    assert step.RunHook? && c.hooks != [];
    if step.k > 0 {
      OtherKeeps(ring, c, step.k, step.result, e0);
    } else {
      var c1 := Next(ring, c, step);
      assert PassEnded(ring, c, e0);
      assert c.made[..|c.made|] == c.made;
      forall k | 0 <= k < |c1.hooks| ensures Behind(c1.hooks[k], OwnPass(ring, c1)) {
        if k > 0 { assert Outside(c.hooks[k]); }
      }
    }
  }

  lemma {:induction false} RunIsLate(ring: seq<Thread>, e0: int, steps: seq<Step>)
    requires ring != []
    ensures var c := Run(ring, Start(ring, e0), steps); LeaderGone(c) ==> Late(ring, c, e0)
    decreases |steps|
  {
    if steps != [] {
      var n := |steps| - 1;
      var c := Run(ring, Start(ring, e0), steps[..n]);
      CleanUntilCleared(ring, e0, steps[..n]);
      RunIsLate(ring, e0, steps[..n]);
      if LeaderGone(c) {
        LateKeeps(ring, c, steps[n], e0);
      } else if LeaderGone(Next(ring, c, steps[n])) {
        LateStarts(ring, c, steps[n], e0);
      }
    }
  }

  // ---------- every thread is woken ----------

  /** The task with this hook is on its way from making `child` to waking it. */
  predicate Makes(h: Hook, child: nat) {
    (h.Copying? || h.Waking?) && h.child == child
  }

  /** Who is being made has not been woken, and has one maker. */
  ghost predicate MakerOk(hooks: seq<Hook>, k: nat)
    requires k < |hooks|
  {
    hooks[k].Copying? || hooks[k].Waking? ==>
      && 0 < hooks[k].child < |hooks| && hooks[hooks[k].child] == Born
      && forall j :: 0 <= j < |hooks| && Makes(hooks[j], hooks[k].child) ==> j == k
  }

  ghost predicate HasMaker(hooks: seq<Hook>, k: nat) {
    exists j :: 0 <= j < |hooks| && Makes(hooks[j], k)
  }

  /** A thread that has not been woken has a maker that is about to wake it. */
  ghost predicate Paired(hooks: seq<Hook>) {
    && (forall k {:trigger MakerOk(hooks, k)} :: 0 <= k < |hooks| ==> MakerOk(hooks, k))
    && (forall k :: 0 <= k < |hooks| && hooks[k] == Born ==> HasMaker(hooks, k))
  }

  /** A task that is neither unborn nor a maker moves on. */
  lemma PairedMove(hooks: seq<Hook>, k: nat, h: Hook)
    requires Paired(hooks) && k < |hooks| && hooks[k] != Born && !hooks[k].Copying? && !hooks[k].Waking?
    requires h != Born && !h.Copying? && !h.Waking?
    ensures Paired(hooks[k := h])
  {
    var hooks1 := hooks[k := h];
    forall j | 0 <= j < |hooks1| ensures MakerOk(hooks1, j) { assert MakerOk(hooks, j); }
    forall j | 0 <= j < |hooks1| && hooks1[j] == Born ensures HasMaker(hooks1, j) {
      var m :| 0 <= m < |hooks| && Makes(hooks[m], j);
      assert Makes(hooks1[m], j);
    }
  }

  lemma PairedFork(hooks: seq<Hook>, k: nat, i: nat)
    requires Paired(hooks) && k < |hooks| && hooks[k].Looping?
    ensures Paired(hooks[k := Copying(i, |hooks|)] + [Born])
  {
    var n := |hooks|;
    var hooks1 := hooks[k := Copying(i, n)] + [Born];
    forall j | 0 <= j < |hooks1| ensures MakerOk(hooks1, j) {
      if j < n {
        assert MakerOk(hooks, j);
        forall m | 0 <= m < |hooks1| && Makes(hooks1[m], n) ensures m == k {
          if m < n { assert MakerOk(hooks, m); }
        }
      }
    }
    forall j | 0 <= j < |hooks1| && hooks1[j] == Born ensures HasMaker(hooks1, j) {
      if j == n {
        assert Makes(hooks1[k], n);
      } else {
        var m :| 0 <= m < |hooks| && Makes(hooks[m], j);
        assert Makes(hooks1[m], j);
      }
    }
  }

  lemma PairedCopy(hooks: seq<Hook>, k: nat)
    requires Paired(hooks) && k < |hooks| && hooks[k].Copying?
    ensures Paired(hooks[k := Waking(hooks[k].i, hooks[k].child)])
  {
    var hooks1 := hooks[k := Waking(hooks[k].i, hooks[k].child)];
    assert forall j, m :: 0 <= j < |hooks| ==> (Makes(hooks1[j], m) <==> Makes(hooks[j], m));
    forall j | 0 <= j < |hooks1| ensures MakerOk(hooks1, j) { assert MakerOk(hooks, j); }
    forall j | 0 <= j < |hooks1| && hooks1[j] == Born ensures HasMaker(hooks1, j) {
      var m :| 0 <= m < |hooks| && Makes(hooks[m], j);
      assert Makes(hooks1[m], j);
    }
  }

  lemma PairedWake(hooks: seq<Hook>, k: nat)
    requires Paired(hooks) && k < |hooks| && hooks[k].Waking?
    ensures hooks[k].child < |hooks| && Paired(hooks[k := Looping(hooks[k].i + 1)][hooks[k].child := AtPid])
  {
    assert MakerOk(hooks, k);
    var child := hooks[k].child;
    var hooks1 := hooks[k := Looping(hooks[k].i + 1)][child := AtPid];
    assert Makes(hooks[k], child);
    forall j | 0 <= j < |hooks1| ensures MakerOk(hooks1, j) {
      assert MakerOk(hooks, j);
      if hooks[j].Copying? || hooks[j].Waking? { assert Makes(hooks[j], hooks[j].child); }
    }
    forall j | 0 <= j < |hooks1| && hooks1[j] == Born ensures HasMaker(hooks1, j) {
      var m :| 0 <= m < |hooks| && Makes(hooks[m], j);
      assert Makes(hooks1[m], j);
    }
  }

  lemma PairedHook(ring: seq<Thread>, c: Config, k: nat, result: int)
    requires ring != [] && Paired(c.hooks) && k < |c.hooks|
    ensures Paired(HookNext(ring, c, k, result).hooks)
  {
    match c.hooks[k]
    case Born =>
    case Looping(i) =>
      if i < |ring| && !ring[i].exiting && result >= 0 {
        PairedFork(c.hooks, k, i);
      } else {
        PairedMove(c.hooks, k, HookNext(ring, c, k, result).hooks[k]);
      }
    case Copying(_, _) => PairedCopy(c.hooks, k);
    case Waking(_, _) => PairedWake(c.hooks, k);
    case _ => PairedMove(c.hooks, k, HookNext(ring, c, k, result).hooks[k]);
  }

  lemma {:induction false} RunIsPaired(ring: seq<Thread>, e0: int, steps: seq<Step>)
    requires ring != []
    ensures Paired(Run(ring, Start(ring, e0), steps).hooks)
    decreases |steps|
  {
    if steps != [] {
      var n := |steps| - 1;
      var c := Run(ring, Start(ring, e0), steps[..n]);
      RunIsPaired(ring, e0, steps[..n]);
      CleanUntilCleared(ring, e0, steps[..n]);
      if steps[n].RunHook? && steps[n].k < |c.hooks| { PairedHook(ring, c, steps[n].k, steps[n].result); }
    }
  }

  lemma NobodyMakes(ring: seq<Thread>, c: Config, e0: int, j: nat, k: nat)
    requires ring != [] && c.hooks != [] && c.caller.Returned? && j < |c.hooks| && 0 < k <= OwnPass(ring, c)
    requires if LeaderGone(c) then Late(ring, c, e0) else Inv(ring, c, e0)
    ensures !Makes(c.hooks[j], k)
  {
    if LeaderGone(c) {
      assert Behind(c.hooks[j], OwnPass(ring, c));
    } else if j > 0 {
      assert Outside(c.hooks[j]);
    }
  }

  /** The threads of the leader's own pass have all been woken. */
  ghost predicate OwnThreadsWoken(ring: seq<Thread>, c: Config) {
    OwnPass(ring, c) < |c.hooks| && forall k :: 0 < k <= OwnPass(ring, c) ==> c.hooks[k] != Born
  }

  lemma OwnWoken(ring: seq<Thread>, c: Config, e0: int)
    requires ring != [] && c.hooks != [] && c.caller.Returned? && Paired(c.hooks)
    requires if LeaderGone(c) then Late(ring, c, e0) else Inv(ring, c, e0)
    ensures OwnThreadsWoken(ring, c)
  {
    assert !LeaderGone(c) ==> PassEnded(ring, c, e0);
    forall k | 0 < k <= OwnPass(ring, c) ensures c.hooks[k] != Born {
      if c.hooks[k] == Born {
        var j :| 0 <= j < |c.hooks| && Makes(c.hooks[j], k);
        NobodyMakes(ring, c, e0, j, k);
      }
    }
  }

  /** In every run: when the caller has returned, every thread of the leader's own pass has been
      woken; and at any time a thread that has not been woken is being made. */
  lemma {:induction false} ThreadsAreWoken(ring: seq<Thread>, e0: int, steps: seq<Step>)
    requires ring != []
    ensures var c := Run(ring, Start(ring, e0), steps);
            && (forall k :: 0 <= k < |c.hooks| && c.hooks[k] == Born ==> HasMaker(c.hooks, k))
            && (c.caller.Returned? && c.hooks != [] ==> OwnThreadsWoken(ring, c))
  {
    var c := Run(ring, Start(ring, e0), steps);
    RunIsPaired(ring, e0, steps);
    CleanUntilCleared(ring, e0, steps);
    RunIsLate(ring, e0, steps);
    if c.caller.Returned? && c.hooks != [] { OwnWoken(ring, c, e0); }
  }

  /** In every run a task that is out of the hook stays out: each runs it once. */
  lemma {:induction false} TasksLeaveOnce(ring: seq<Thread>, e0: int, steps: seq<Step>, step: Step, k: nat)
    requires ring != []
    requires var c := Run(ring, Start(ring, e0), steps); k < |c.hooks| && c.hooks[k] == Gone
    ensures var c1 := Next(ring, Run(ring, Start(ring, e0), steps), step);
            k < |c1.hooks| && c1.hooks[k] == Gone
  {
    var c := Run(ring, Start(ring, e0), steps);
    RunIsPaired(ring, e0, steps);
    CleanUntilCleared(ring, e0, steps);
    if step.RunHook? && step.k < |c.hooks| { assert MakerOk(c.hooks, step.k); }
  }

  // ---------- what the caller knows ----------

  /** What the caller knows when it returns, in every run.  No leader was made: nothing was done.
      Zero: every live sibling has been copied, with its registers, by the leader's own pass,
      and the copies have been woken.
      In a clean run nothing else has been made; then, with `error_check` zero at the start, the
      result is zero exactly when all siblings were copied, and otherwise the threads made are
      copies of a proper prefix of the live siblings. */
  lemma {:induction false} ReturnedMeans(ring: seq<Thread>, e0: int, steps: seq<Step>)
    requires ring != []
    ensures var c := Run(ring, Start(ring, e0), steps);
            var live := Live(ring[1..]);
            c.caller.Returned? ==>
              && (c.hooks == [] ==> c.caller.err < 0 && c.made == [])
              && (c.hooks != [] ==> c.tracked == -1 && (c.caller.err == e0 || c.caller.err == -1))
              && (c.hooks != [] && c.caller.err == 0 ==>
                    && e0 == 0 && |live| <= |c.made| && Copies(c.made[..|live|], live)
                    && |live| < |c.hooks| && forall k :: 0 < k <= |live| ==> c.hooks[k] != Born)
              && (c.hooks != [] && CleanRun(ring, Start(ring, e0), steps) ==>
                    && c.caller.err == c.errorCheck
                    && (c.caller.err == 0 ==> Copies(c.made, live))
                    && (c.caller.err != 0 && e0 == 0 ==>
                          c.caller.err == -1 && |c.made| < |live| && Copies(c.made, live[..|c.made|])))
  {
    var c := Run(ring, Start(ring, e0), steps);
    CleanUntilCleared(ring, e0, steps);
    RunIsLate(ring, e0, steps);
    ThreadsAreWoken(ring, e0, steps);
    assert Before(ring, |ring|) == ring[1..];
    if c.hooks != [] && CleanRun(ring, Start(ring, e0), steps) { CleanReturnMeans(ring, e0, steps); }
    if c.hooks != [] && !LeaderGone(c) {
      assert c.made[..|c.made|] == c.made;
    }
  }

  lemma {:induction false} CleanReturnMeans(ring: seq<Thread>, e0: int, steps: seq<Step>)
    requires ring != [] && CleanRun(ring, Start(ring, e0), steps)
    ensures var c := Run(ring, Start(ring, e0), steps);
            var live := Live(ring[1..]);
            c.caller.Returned? && c.hooks != [] ==>
              && c.tracked == -1
              && c.caller.err == c.errorCheck
              && (c.caller.err == 0 ==> e0 == 0 && Copies(c.made, live))
              && (c.caller.err != 0 && e0 == 0 ==>
                    c.caller.err == -1 && |c.made| < |live| && Copies(c.made, live[..|c.made|]))
  {
    RunKeeps(ring, e0, steps);
    var c := Run(ring, Start(ring, e0), steps);
    if c.caller.Returned? && c.hooks != [] {
      assert PassEnded(ring, c, e0);
      assert Before(ring, |ring|) == ring[1..];
      if c.end < |ring| { StrictPrefix(ring, c.end); }
    }
  }

  /** Until the leader releases it the caller waits, whatever else runs. */
  lemma {:induction false} CallerWaitsForThePass(ring: seq<Thread>, e0: int, steps: seq<Step>)
    requires ring != []
    ensures var c := Run(ring, Start(ring, e0), steps);
            c.hooks != [] && c.caller.Returned? ==> c.hooks[0] == Clearing || c.hooks[0] == Gone
  {
    CleanUntilCleared(ring, e0, steps);
  }

  /** No run is a dead end for the caller: at most three steps for each thread of the ring and
      ten more complete the call, without clearing `clone` while a task is inside the guard. */
  lemma {:induction false} CallerIsNeverStuck(ring: seq<Thread>, e0: int, steps: seq<Step>)
    requires ring != []
    ensures exists more :: CleanRun(ring, Run(ring, Start(ring, e0), steps), more)
                           && Run(ring, Run(ring, Start(ring, e0), steps), more).caller.Returned?
                           && |more| <= 3 * |ring| + 10
  {
    var c := Run(ring, Start(ring, e0), steps);
    CleanUntilCleared(ring, e0, steps);
    RunIsLate(ring, e0, steps);
    if LeaderGone(c) {
      var more := [RunCaller(0)];
      assert more[..0] == [] && Run(ring, c, more) == Next(ring, c, more[0]);
      assert CleanRun(ring, c, more);
    } else {
      var more := CallerCanAlwaysReturn(ring, c, e0);
    }
  }

  // ---------- a second pass ----------

  /** Once `tracked_pid` is released nobody enters the guard any more. */
  lemma {:induction false} NoLateEntry(ring: seq<Thread>, c: Config, e0: int, steps: seq<Step>)
    requires ring != [] && c.hooks != [] && Inv(ring, c, e0) && c.tracked == -1 && NoneInGuard(c)
    ensures var c1 := Run(ring, c, steps);
            c1.hooks != [] && Inv(ring, c1, e0) && c1.tracked == -1 && NoneInGuard(c1)
    decreases |steps|
  {
    if steps != [] {
      var n := |steps| - 1;
      NoLateEntry(ring, c, e0, steps[..n]);
      LateStep(ring, Run(ring, c, steps[..n]), steps[n], e0);
    }
  }

  lemma LateStep(ring: seq<Thread>, c: Config, step: Step, e0: int)
    requires ring != [] && c.hooks != [] && Inv(ring, c, e0) && c.tracked == -1 && NoneInGuard(c)
    ensures var c1 := Next(ring, c, step);
            c1.hooks != [] && Inv(ring, c1, e0) && c1.tracked == -1 && NoneInGuard(c1)
  {
    NextKeeps(ring, c, step, e0);
    assert c.hooks[0] == Clearing || c.hooks[0] == Gone;
    if step.RunHook? && 0 < step.k < |c.hooks| { assert Outside(c.hooks[step.k]); }
  }

  ghost predicate EndsInSecondPass(ring: seq<Thread>, c: Config, steps: seq<Step>)
    requires ring != []
  {
    SecondPass(Run(ring, c, steps))
  }

  /** In every run that brings the leader to the point where it clears `clone`: a second task
      can still get behind the guard if and only if one is between the guard's two tests. */
  lemma {:induction false} SecondPassExactlyWhenInGuard(ring: seq<Thread>, e0: int, steps: seq<Step>)
    requires ring != []
    requires var c := Run(ring, Start(ring, e0), steps); c.hooks != [] && c.hooks[0] == Clearing
    ensures var c := Run(ring, Start(ring, e0), steps);
            (exists more :: EndsInSecondPass(ring, c, more)) <==> !NoneInGuard(c)
  {
    CleanUntilCleared(ring, e0, steps);
    SecondPassFrom(ring, Run(ring, Start(ring, e0), steps), e0);
  }

  lemma SecondPassFrom(ring: seq<Thread>, c: Config, e0: int)
    requires ring != [] && c.hooks != [] && Inv(ring, c, e0) && c.hooks[0] == Clearing
    ensures (exists steps :: EndsInSecondPass(ring, c, steps)) <==> !NoneInGuard(c)
  {
    if NoneInGuard(c) {
      forall steps ensures !EndsInSecondPass(ring, c, steps) {
        NoLateEntry(ring, c, e0, steps);
        assert Others(Run(ring, c, steps));
      }
    } else {
      var steps := StraddlerEnters(ring, c, e0);
      assert EndsInSecondPass(ring, c, steps);
    }
  }

  lemma StraddlerEnters(ring: seq<Thread>, c: Config, e0: int) returns (steps: seq<Step>)
    requires ring != [] && c.hooks != [] && c.hooks[0] == Clearing && !NoneInGuard(c)
    ensures SecondPass(Run(ring, c, steps))
  {
    var k :| 0 <= k < |c.hooks| && c.hooks[k] == AtClone;
    var a, b := RunHook(0, 0), RunHook(k, 0);
    steps := [a, b];
    assert steps[..1] == [a] && [a][..0] == [] && steps[1] == b;
    assert Run(ring, c, [a]) == Next(ring, c, a);
    assert Run(ring, c, steps).hooks[k] == Entered;
  }

  // ---------- when a second pass is possible at all ----------

  /** No thread was made, and the leader stays behind the caller's position of the ring. */
  ghost predicate Alone(c: Config) {
    && (c.caller.Forking? ==> c.hooks == []) && |c.hooks| <= 1
    && (c.hooks != [] ==> !c.hooks[0].Copying? && !c.hooks[0].Waking? && (c.hooks[0].Looping? ==> c.hooks[0].i > 0))
  }

  lemma {:induction false} NobodyToCopy(ring: seq<Thread>, e0: int, steps: seq<Step>)
    requires ring != [] && Live(ring[1..]) == []
    ensures Alone(Run(ring, Start(ring, e0), steps))
    decreases |steps|
  {
    NoneLive(ring);
    if steps != [] { NobodyToCopy(ring, e0, steps[..|steps| - 1]); }
  }

  /** Once a task is inside the guard the leader can end its pass and leave that task to enter. */
  lemma PassEndsAround(ring: seq<Thread>, c: Config, k: nat) returns (steps: seq<Step>)
    requires ring != [] && 0 < k < |c.hooks| && c.hooks[k] == AtClone
    requires c.hooks[0].Looping? || c.hooks[0] == Finishing || c.hooks[0] == Clearing
    ensures SecondPass(Run(ring, c, steps))
    decreases match c.hooks[0] case Looping(i) => 3 + Left(|ring|, i) case Finishing => 2 case _ => 1
  {
    if c.hooks[0] == Clearing {
      steps := StraddlerEnters(ring, c, 0);
    } else {
      var step := RunHook(0, -1);
      var rest := PassEndsAround(ring, Next(ring, c, step), k);
      RunCons(ring, c, step, rest);
      steps := [step] + rest;
    }
  }

  lemma Prepend(ring: seq<Thread>, c: Config, step: Step, rest: seq<Step>)
    returns (steps: seq<Step>)
    requires ring != []
    ensures Run(ring, c, steps) == Run(ring, Next(ring, c, step), rest)
  {
    RunCons(ring, c, step, rest);
    steps := [step] + rest;
  }

  /** The leader makes a copy of the first live thread, and that copy goes inside the guard. */
  lemma FirstCopyStraddles(ring: seq<Thread>, c: Config, i: nat) returns (steps: seq<Step>)
    requires 0 < i <= |ring| && Live(ring[i..]) != []
    requires c.hooks == [Looping(i)] && c.made == [] && c.tracked == ring[0].pid
    ensures SecondPass(Run(ring, c, steps))
    decreases |ring| - i
  {
    var l, h := RunHook(0, 7), RunHook(1, 0);
    SliceStep(ring, i);
    var c1 := Next(ring, c, l);
    if ring[i].exiting {
      steps := FirstCopyStraddles(ring, c1, i + 1);
    } else {
      var c2 := Next(ring, c1, l);
      var c3 := Next(ring, c2, l);
      var c4 := Next(ring, c3, h);
      assert c1.hooks == [Copying(i, 1), Born] && c2.hooks == [Waking(i, 1), Born];
      assert c3.hooks == [Looping(i + 1), AtPid] && c4.hooks == [Looping(i + 1), AtClone];
      steps := PassEndsAround(ring, c4, 1);
      steps := Prepend(ring, c3, h, steps);
      steps := Prepend(ring, c2, l, steps);
      steps := Prepend(ring, c1, l, steps);
    }
    steps := Prepend(ring, c, l, steps);
  }

  lemma LiveSiblingMeansSecondPass(ring: seq<Thread>, e0: int) returns (steps: seq<Step>)
    requires ring != [] && Live(ring[1..]) != []
    ensures SecondPass(Run(ring, Start(ring, e0), steps))
  {
    var c0, l := Start(ring, e0), RunHook(0, 0);
    var c1 := Next(ring, c0, RunCaller(0));
    var c2 := Next(ring, c1, l);
    var c3 := Next(ring, c2, l);
    var c4 := Next(ring, c3, l);
    assert c1.hooks == [AtPid] && c2.hooks == [AtClone] && c3.hooks == [Entered] && c4.hooks == [Looping(1)];
    steps := FirstCopyStraddles(ring, c4, 1);
    steps := Prepend(ring, c3, l, steps);
    steps := Prepend(ring, c2, l, steps);
    steps := Prepend(ring, c1, l, steps);
    steps := Prepend(ring, c0, RunCaller(0), steps);
  }

  /** Without an atomic guard a second pass is possible in a call if and only if the caller has
      a live sibling. */
  lemma SecondPassExactlyWhenSiblingLives(ring: seq<Thread>, e0: int)
    requires ring != []
    ensures (exists steps :: EndsInSecondPass(ring, Start(ring, e0), steps)) <==> Live(ring[1..]) != []
  {
    if Live(ring[1..]) == [] {
      forall steps ensures !EndsInSecondPass(ring, Start(ring, e0), steps) { NobodyToCopy(ring, e0, steps); }
    } else {
      var steps := LiveSiblingMeansSecondPass(ring, e0);
      assert EndsInSecondPass(ring, Start(ring, e0), steps);
    }
  }

  // ---------- a sibling copied twice ----------

  lemma {:induction false} OneMore(ring: seq<Thread>, c: Config, steps: seq<Step>, step: Step)
    requires ring != []
    ensures Run(ring, c, steps + [step]) == Next(ring, Run(ring, c, steps), step)
  {
    assert (steps + [step])[..|steps|] == steps;
  }

  /** The leader of a group of two makes one thread and wakes it. */
  lemma LeaderMakesOne(t: Thread, u: Thread) returns (steps: seq<Step>)
    requires !u.exiting
    ensures var c := Run([t, u], Start([t, u], 0), steps);
            && c.hooks == [Looping(2), AtPid] && c.clone && c.tracked == t.pid && c.made == [CopyOf(u, 7)]
  {
    var ring, c0 := [t, u], Start([t, u], 0);
    var l := RunHook(0, 7);
    steps := StepOn(ring, c0, [], RunCaller(1));
    assert Run(ring, c0, steps).hooks == [AtPid];
    steps := StepOn(ring, c0, steps, l);
    steps := StepOn(ring, c0, steps, l);
    assert Run(ring, c0, steps).hooks == [Entered];
    steps := StepOn(ring, c0, steps, l);
    assert Run(ring, c0, steps).hooks == [Looping(1)];
    steps := StepOn(ring, c0, steps, l);
    assert Run(ring, c0, steps).hooks == [Copying(1, 1), Born];
    steps := StepOn(ring, c0, steps, l);
    assert Run(ring, c0, steps).hooks == [Waking(1, 1), Born];
    steps := StepOn(ring, c0, steps, l);
  }

  lemma StepOn(ring: seq<Thread>, c: Config, steps: seq<Step>, step: Step) returns (more: seq<Step>)
    requires ring != []
    ensures more == steps + [step] && Run(ring, c, more) == Next(ring, Run(ring, c, steps), step)
  {
    more := steps + [step];
    OneMore(ring, c, steps, step);
  }

  /** That thread passes the first test of the guard; then the leader clears `clone`. */
  lemma Straddle(t: Thread, u: Thread) returns (steps: seq<Step>)
    requires !u.exiting
    ensures var c := Run([t, u], Start([t, u], 0), steps);
            && c.hooks == [Gone, AtClone] && !c.clone && c.tracked == -1 && c.made == [CopyOf(u, 7)]
  {
    var ring, c0 := [t, u], Start([t, u], 0);
    var l := RunHook(0, 7);
    steps := LeaderMakesOne(t, u);
    steps := StepOn(ring, c0, steps, RunHook(1, 0));
    assert Run(ring, c0, steps).hooks == [Looping(2), AtClone];
    steps := StepOn(ring, c0, steps, l);
    assert Run(ring, c0, steps).hooks == [Finishing, AtClone];
    steps := StepOn(ring, c0, steps, l);
    assert Run(ring, c0, steps).hooks == [Clearing, AtClone];
    steps := StepOn(ring, c0, steps, l);
  }

  /** The thread reads `clone` after it was cleared. */
  lemma LateEntry(t: Thread, u: Thread) returns (steps: seq<Step>)
    requires !u.exiting
    ensures var c := Run([t, u], Start([t, u], 0), steps);
            c.hooks == [Gone, Looping(1)] && c.made == [CopyOf(u, 7)]
  {
    var ring, c0 := [t, u], Start([t, u], 0);
    var h := RunHook(1, 8);
    steps := Straddle(t, u);
    steps := StepOn(ring, c0, steps, h);
    assert Run(ring, c0, steps).hooks == [Gone, Entered];
    steps := StepOn(ring, c0, steps, h);
  }

  /** A run with a non-atomic guard in which the first thread made, having passed the first test
      in time, reads `clone` after it was cleared and makes a second copy of the same sibling,
      registers and all. */
  lemma UncleanRunCopiesTwice(t: Thread, u: Thread)
    requires !u.exiting
    ensures exists steps :: EndsInSecondPass([t, u], Start([t, u], 0), steps)
                            && Run([t, u], Start([t, u], 0), steps).made == [CopyOf(u, 7), CopyOf(u, 8)]
  {
    var ring, c0 := [t, u], Start([t, u], 0);
    var h := RunHook(1, 8);
    var steps := LateEntry(t, u);
    steps := StepOn(ring, c0, steps, h);
    assert Run(ring, c0, steps).made == [CopyOf(u, 7), Blank(u, 8)];
    assert Run(ring, c0, steps).hooks[1] == Copying(1, 2);
    steps := StepOn(ring, c0, steps, h);
    assert Run(ring, c0, steps).hooks[1] == Waking(1, 2);
    assert EndsInSecondPass(ring, c0, steps);
  }
}
