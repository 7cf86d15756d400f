/** The machine of the whole-group fork against the sequential functions: a task that runs the
    hook without being interrupted, in whatever state, does what `MyPullBack` promises, and a
    call in which caller and leader take turns does what `LeaderClone` promises.
 */
module FullForkTasks {
  import opened ProcessTree
  import opened ThreadRing
  import opened FullForkMachine
  import opened FullForkRuns

  /** `n` threads that have been woken and have not run yet. */
  function Woken(n: nat): (r: seq<Hook>)
    ensures |r| == n && forall k :: 0 <= k < n ==> r[k] == AtPid
  {
    seq(n, _ => AtPid)
  }

  /** The threads `p.made` have been made and woken, and a failure is recorded. */
  function AfterPass(c: Config, k: nat, h: Hook, p: Pass): Config
    requires k < |c.hooks|
  {
    c.(hooks := c.hooks[k := h] + Woken(|p.made|), made := c.made + p.made,
       errorCheck := if p.failed then -1 else c.errorCheck)
  }

  /** One live thread: clone it, copy its registers, wake the clone. */
  lemma {:induction false} OneThread(ring: seq<Thread>, c: Config, k: nat, i: nat, pid: Pid) returns (steps: seq<Step>)
    requires k < |c.hooks| && c.hooks[k] == Looping(i) && i < |ring| && !ring[i].exiting
    requires |c.hooks| == |c.made| + 1
    ensures |steps| == 3
    ensures Run(ring, c, steps)
            == c.(hooks := c.hooks[k := Looping(i + 1)] + [AtPid], made := c.made + [CopyOf(ring[i], pid)])
  {
    var n := |c.hooks|;
    var s := RunHook(k, pid);
    var c1 := c.(hooks := c.hooks[k := Copying(i, n)] + [Born], made := c.made + [Blank(ring[i], pid)]);
    var c2 := c.(hooks := c.hooks[k := Waking(i, n)] + [Born], made := c.made + [CopyOf(ring[i], pid)]);
    var c3 := c.(hooks := c.hooks[k := Looping(i + 1)] + [AtPid], made := c.made + [CopyOf(ring[i], pid)]);
    assert Next(ring, c, s) == c1;
    assert c1.hooks[k := Waking(i, n)] == c2.hooks;
    LastOf(c.made, Blank(ring[i], pid), CopyOf(ring[i], pid));
    assert Next(ring, c1, s) == c2;
    assert c2.hooks[k := Looping(i + 1)][n := AtPid] == c3.hooks;
    assert Next(ring, c2, s) == c3;
    steps := Chain3(ring, c, s, s, s);
  }

  lemma LastOf(made: seq<Copy>, a: Copy, b: Copy)
    ensures (made + [a])[|made| := b] == made + [b]
  {
  }

  lemma {:induction false} Chain3(ring: seq<Thread>, c: Config, a: Step, b: Step, d: Step) returns (steps: seq<Step>)
    requires ring != []
    ensures |steps| == 3 && Run(ring, c, steps) == Next(ring, Next(ring, Next(ring, c, a), b), d)
  {
    steps := StepOn(ring, c, [], a);
    steps := StepOn(ring, c, steps, b);
    steps := StepOn(ring, c, steps, d);
  }

  lemma {:induction false} RunAppend(ring: seq<Thread>, c: Config, a: seq<Step>, b: seq<Step>)
    requires ring != []
    ensures Run(ring, c, a + b) == Run(ring, Run(ring, c, a), b)
    decreases |b|
  {
    if b == [] {
      assert a + b == a;
    } else {
      var n := |b| - 1;
      PrefixOfAppend(a, b, n);
      var all := a + b;
      assert |all| - 1 == |a| + n && all != [];
      assert Run(ring, c, all) == Next(ring, Run(ring, c, all[..|a| + n]), all[|a| + n]);
      RunAppend(ring, c, a, b[..n]);
    }
  }

  /** The clone loop of any task, from ring position `i` on. */
  lemma {:induction false} PassAlone(ring: seq<Thread>, c: Config, k: nat, i: nat, results: seq<int>)
    returns (steps: seq<Step>, end: nat)
    requires k < |c.hooks| && c.hooks[k] == Looping(i) && 0 < i <= |ring| && |c.hooks| == |c.made| + 1
    ensures Run(ring, c, steps) == AfterPass(c, k, Finishing, CopyAll(ring[i..], results)).(end := end)
    decreases |ring| - i
  {
    var step := RunHook(k, Answer(results));
    if i == |ring| || (!ring[i].exiting && Answer(results) < 0) {
      steps := StepOn(ring, c, [], step);
      end := if k == 0 then i else c.end;
      assert c.hooks[k := Finishing] + Woken(0) == c.hooks[k := Finishing] && c.made + [] == c.made;
      if i < |ring| { SliceStep(ring, i); } else { assert ring[i..] == []; }
    } else {
      SliceStep(ring, i);
      if ring[i].exiting {
        var c1 := Next(ring, c, step);
        steps, end := PassAlone(ring, c1, k, i + 1, results);
        RunCons(ring, c, step, steps);
        steps := [step] + steps;
        HookSetTwice(c.hooks, k, Looping(i + 1), Finishing);
      } else {
        var first := OneThread(ring, c, k, i, results[0]);
        var c1 := Run(ring, c, first);
        var rest;
        rest, end := PassAlone(ring, c1, k, i + 1, results[1..]);
        RunAppend(ring, c, first, rest);
        steps := first + rest;
        var p := CopyAll(ring[i + 1..], results[1..]);
        HookSetPast(c.hooks, k, Looping(i + 1), Finishing, |p.made|);
        AppendMade(c.made, CopyOf(ring[i], results[0]), p.made);
      }
    }
  }

  lemma HookSetTwice(hooks: seq<Hook>, k: nat, a: Hook, b: Hook)
    requires k < |hooks|
    ensures hooks[k := a][k := b] == hooks[k := b]
  {
  }

  lemma HookSetPast(hooks: seq<Hook>, k: nat, a: Hook, b: Hook, n: nat)
    requires k < |hooks|
    ensures (hooks[k := a] + [AtPid])[k := b] + Woken(n) == hooks[k := b] + Woken(n + 1)
  {
  }

  lemma AppendMade(made: seq<Copy>, m: Copy, rest: seq<Copy>)
    ensures (made + [m]) + rest == made + ([m] + rest)
  {
  }

  /** A task that runs the hook in one go, in any state.  Either it is kept out and changes
      nothing, or it makes the threads of the pass, records a failure, and releases the caller. */
  lemma {:induction false} HookAlone(ring: seq<Thread>, c: Config, k: nat, results: seq<int>)
    returns (steps: seq<Step>, end: nat)
    requires ring != [] && k < |c.hooks| && c.hooks[k] == AtPid && |c.hooks| == |c.made| + 1
    ensures Run(ring, c, steps)
            == if ring[0].pid == c.tracked && !c.clone then
                 AfterPass(c, k, Gone, CopyAll(ring[1..], results)).(tracked := -1, clone := false, end := end)
               else
                 c.(hooks := c.hooks[k := Gone])
  {
    var step := RunHook(k, 0);
    if ring[0].pid != c.tracked {
      steps := StepOn(ring, c, [], step);
      end := 0;
    } else if c.clone {
      steps := StepOn(ring, c, [], step);
      steps := StepOn(ring, c, steps, step);
      HookSetTwice(c.hooks, k, AtClone, Gone);
      end := 0;
    } else {
      steps, end := EnterAndLeave(ring, c, k, results);
    }
  }

  lemma {:induction false} EnterAndLeave(ring: seq<Thread>, c: Config, k: nat, results: seq<int>)
    returns (steps: seq<Step>, end: nat)
    requires ring != [] && k < |c.hooks| && c.hooks[k] == AtPid && |c.hooks| == |c.made| + 1
    requires ring[0].pid == c.tracked && !c.clone
    ensures Run(ring, c, steps)
            == AfterPass(c, k, Gone, CopyAll(ring[1..], results)).(tracked := -1, clone := false, end := end)
  {
    var step := RunHook(k, 0);
    var first := Chain3(ring, c, step, step, step);
    var c1 := c.(hooks := c.hooks[k := Looping(1)], clone := true);
    HookSetTwice(c.hooks, k, AtClone, Entered);
    HookSetTwice(c.hooks, k, Entered, Looping(1));
    assert Run(ring, c, first) == c1;
    var pass;
    pass, end := PassAlone(ring, c1, k, 1, results);
    RunAppend(ring, c, first, pass);
    steps := first + pass;
    steps := StepOn(ring, c, steps, step);
    steps := StepOn(ring, c, steps, step);
    var p := CopyAll(ring[1..], results);
    HookLeaves(c.hooks, k, Woken(|p.made|));
  }

  lemma HookLeaves(hooks: seq<Hook>, k: nat, more: seq<Hook>)
    requires k < |hooks|
    ensures var h := hooks[k := Looping(1)][k := Finishing] + more;
            && h[k := Clearing][k := Gone] == hooks[k := Gone] + more
            && h[k] == Finishing && h[k := Clearing][k] == Clearing
  {
  }

  /** In every run the tasks are the leader and the threads made. */
  lemma {:induction false} TasksAreThreads(ring: seq<Thread>, e0: int, steps: seq<Step>)
    requires ring != []
    ensures var c := Run(ring, Start(ring, e0), steps);
            if c.hooks == [] then c.made == [] else |c.hooks| == |c.made| + 1
  {
    CleanUntilCleared(ring, e0, steps);
    RunIsLate(ring, e0, steps);
  }

  /** A whole call, the leader's pass running in one go: what `leader_clone` returns and makes. */
  lemma {:induction false} CallAlone(ring: seq<Thread>, e0: int, leader: int, results: seq<int>)
    returns (steps: seq<Step>, end: nat)
    requires ring != []
    ensures var c, p := Run(ring, Start(ring, e0), steps), CopyAll(ring[1..], results);
            if leader < 0 then c == Start(ring, e0).(caller := Returned(leader))
            else
              && c.caller == Returned(c.errorCheck) && c.errorCheck == (if p.failed then -1 else e0)
              && c.made == p.made && c.hooks == [Gone] + Woken(|p.made|) && c.tracked == -1 && !c.clone
  {
    var c0 := Start(ring, e0);
    end := 0;
    var first := StepOn(ring, c0, [], RunCaller(leader));
    steps := first;
    if leader >= 0 {
      var c1 := Run(ring, c0, first);
      var hook;
      hook, end := HookAlone(ring, c1, 0, results);
      RunAppend(ring, c0, first, hook);
      steps := StepOn(ring, c0, first + hook, RunCaller(0));
      assert c1.hooks == [AtPid] && [AtPid][0 := Gone] == [Gone] && c1.made == [];
      assert [] + CopyAll(ring[1..], results).made == CopyAll(ring[1..], results).made;
    }
  }
}
