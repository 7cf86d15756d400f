/** The variant of the tree clone in which every cloned leader copies its parent's threads and
    then parks until system call 548 opens the barrier.

    Any number of processes are targeted one after another by the part of the kernel that is
    not shown.  The guard of the hook with the assignment behind it is one step, and so is the
    end of the pass from the release of `tracked_pid` to the park.
 */
module PtreeBarrier {
  import opened ProcessTree
  import opened ThreadRing

  /** A cloned leader: at the guard of the hook; at ring position `i` of its pass; parked; past
      its park point; or out of the hook without a pass. */
  datatype Stage = AtGuard | Looping(i: nat) | Parked | Past | Skipped

  /** A cloned leader, and the threads of its pass. */
  datatype Leader = Leader(pid: Pid, parent: Pid, stage: Stage, made: seq<Copy>)

  /** `announced` and `woken` are history variables: the processes announced so far, and the
      tasks that have been made runnable, by the fork of a leader or otherwise. */
  datatype Config = Config(
    tracked: int, pidToFork: int, clone: bool, errorCheck: int, everythingDone: bool, leaders: seq<Leader>,
    announced: seq<Pid>, woken: seq<Pid>)

  /** `Target`: a process is announced, as soon as the last one has been released.  `Schedule`:
      a process enters the probe.  `RunLeader`: a cloned leader takes a step.  `Open`: the
      handler of system call 548. */
  datatype Step = Target(p: Pid) | Schedule(current: Pid, result: int) | RunLeader(k: nat, result: int) | Open

  const START := Config(-1, -1, false, 0, false, [], [], [])

  type Rings = Pid -> seq<Thread>

  function Next(rings: Rings, c: Config, step: Step): Config {
    match step
    case Target(p) => if c.tracked == -1 then c.(tracked := p, pidToFork := p, announced := c.announced + [p]) else c
    case Schedule(current, result) =>
      if current != c.pidToFork || result < 0 then c
      else
        c.(leaders := c.leaders + [Leader(result, current, AtGuard, [])], pidToFork := -1, woken := c.woken + [result])
    case RunLeader(k, result) => if k < |c.leaders| then LeaderNext(rings, c, k, result) else c
    case Open => c.(everythingDone := true)
  }

  function LeaderNext(rings: Rings, c: Config, k: nat, result: int): Config
    requires k < |c.leaders|
  {
    var l := c.leaders[k];
    var ring := rings(l.parent);
    match l.stage
    case AtGuard =>
      if l.parent == c.tracked && !c.clone then Go(c, k, l.(stage := Looping(1))).(clone := true)
      else Go(c, k, l.(stage := Skipped))
    case Looping(i) =>
      if i >= |ring| then EndPass(c, k)
      else if ring[i].exiting then Go(c, k, l.(stage := Looping(i + 1)))
      else if result < 0 then EndPass(c, k).(errorCheck := -1)
      else Go(c, k, l.(stage := Looping(i + 1), made := l.made + [CopyOf(ring[i], result)]))
    case Parked => if c.everythingDone then Go(c, k, l.(stage := Past)) else c
    case Past => c
    case Skipped => c
  }

  function Go(c: Config, k: nat, l: Leader): Config
    requires k < |c.leaders|
  {
    c.(leaders := c.leaders[k := l])
  }

  function EndPass(c: Config, k: nat): Config
    requires k < |c.leaders|
  {
    Go(c, k, c.leaders[k].(stage := Parked)).(tracked := -1, clone := false)
  }

  function Run(rings: Rings, c: Config, steps: seq<Step>): Config
    decreases |steps|
  {
    if steps == [] then c else Next(rings, Run(rings, c, steps[..|steps| - 1]), steps[|steps| - 1])
  }

  // ---------- the invariant ----------

  ghost predicate LeaderOk(rings: Rings, c: Config, k: nat)
    requires k < |c.leaders|
  {
    var l := c.leaders[k];
    var live := Live(Before(rings(l.parent), |rings(l.parent)|));
    match l.stage
    case AtGuard => l.made == []
    case Skipped => l.made == []
    case Looping(i) => c.clone && c.tracked == l.parent && 0 < i <= |rings(l.parent)|
      && Copies(l.made, Live(Before(rings(l.parent), i)))
    case Parked => Ended(l, live, c)
    case Past => c.everythingDone && Ended(l, live, c)
  }

  /** The pass of `l` is over: all live siblings copied, or a prefix of them and an error kept. */
  ghost predicate Ended(l: Leader, live: seq<Thread>, c: Config) {
    || Copies(l.made, live)
    || (c.errorCheck == -1 && |l.made| < |live| && Copies(l.made, live[..|l.made|]))
  }

  ghost predicate Inv(rings: Rings, c: Config) {
    && (forall k {:trigger LeaderOk(rings, c, k)} :: 0 <= k < |c.leaders| ==> LeaderOk(rings, c, k))
    && (forall j, k :: 0 <= j < k < |c.leaders| ==> !(c.leaders[j].stage.Looping? && c.leaders[k].stage.Looping?))
    && (c.clone ==> exists k :: 0 <= k < |c.leaders| && c.leaders[k].stage.Looping?)
  }

  ghost predicate HasLeaders(rings: Rings) {
    forall p {:trigger rings(p)} :: rings(p) != []
  }

  /** What a step of leader `k` leaves for the others. */
  lemma OthersKept(rings: Rings, c: Config, c1: Config, k: nat)
    requires Inv(rings, c) && k < |c.leaders|
    requires |c1.leaders| == |c.leaders| && c1.leaders == c.leaders[k := c1.leaders[k]]
    requires c1.everythingDone == c.everythingDone && (c1.errorCheck == c.errorCheck || c1.errorCheck == -1)
    requires (c1.clone == c.clone && c1.tracked == c.tracked) || c.leaders[k].stage.Looping? || !c.clone
    ensures forall j :: 0 <= j < |c.leaders| && j != k ==> LeaderOk(rings, c1, j)
  {
    forall j | 0 <= j < |c.leaders| && j != k ensures LeaderOk(rings, c1, j) {
      assert LeaderOk(rings, c, j);
    }
  }

  lemma LoopStep(rings: Rings, c: Config, k: nat, result: int)
    requires HasLeaders(rings) && Inv(rings, c) && k < |c.leaders| && c.leaders[k].stage.Looping?
    ensures var c1 := LeaderNext(rings, c, k, result);
            && LeaderOk(rings, c1, k)
            && |c1.leaders| == |c.leaders| && c1.leaders == c.leaders[k := c1.leaders[k]]
            && c1.everythingDone == c.everythingDone && (c1.errorCheck == c.errorCheck || c1.errorCheck == -1)
            && (c1.clone <==> c1.leaders[k].stage.Looping?)
  {
    var l := c.leaders[k];
    var ring := rings(l.parent);
    var i := l.stage.i;
    assert LeaderOk(rings, c, k);
    if i < |ring| {
      BeforeNext(ring, i);
      if !ring[i].exiting && result < 0 { StrictPrefix(ring, i); }
    }
    assert Before(ring, |ring|) == ring[1..];
  }

  lemma LeaderKeeps(rings: Rings, c: Config, k: nat, result: int)
    requires HasLeaders(rings) && Inv(rings, c) && k < |c.leaders|
    ensures Inv(rings, LeaderNext(rings, c, k, result))
  {
    var c1 := LeaderNext(rings, c, k, result);
    assert LeaderOk(rings, c, k);
    if c.leaders[k].stage.Looping? {
      LoopStep(rings, c, k, result);
    } else {
      assert Before(rings(c.leaders[k].parent), 1) == [];
      assert rings(c.leaders[k].parent) != [];
    }
    OthersKept(rings, c, c1, k);
    assert c1.clone && c.clone ==> exists j :: 0 <= j < |c.leaders| && c.leaders[j].stage.Looping?;
    LoopingKept(rings, c, c1, k);
  }

  lemma LoopingKept(rings: Rings, c: Config, c1: Config, k: nat)
    requires Inv(rings, c) && k < |c.leaders|
    requires |c1.leaders| == |c.leaders| && c1.leaders == c.leaders[k := c1.leaders[k]]
    requires c1.leaders[k].stage.Looping? ==> c.leaders[k].stage.Looping? || !c.clone
    requires c1.clone ==> (c1.leaders[k].stage.Looping? || (c.clone && !c.leaders[k].stage.Looping?))
    ensures forall i, j :: 0 <= i < j < |c1.leaders| ==> !(c1.leaders[i].stage.Looping? && c1.leaders[j].stage.Looping?)
    ensures c1.clone ==> exists j :: 0 <= j < |c1.leaders| && c1.leaders[j].stage.Looping?
  {
    forall i | 0 <= i < |c.leaders| && c.leaders[i].stage.Looping? ensures c.clone { assert LeaderOk(rings, c, i); }
    if c1.clone && !c1.leaders[k].stage.Looping? {
      var j :| 0 <= j < |c.leaders| && c.leaders[j].stage.Looping?;
      assert c1.leaders[j] == c.leaders[j];
    }
  }

  lemma NextKeeps(rings: Rings, c: Config, step: Step)
    requires HasLeaders(rings) && Inv(rings, c)
    ensures Inv(rings, Next(rings, c, step))
  {
    var c1 := Next(rings, c, step);
    match step
    case RunLeader(k, result) => if k < |c.leaders| { LeaderKeeps(rings, c, k, result); }
    case _ =>
      forall k | 0 <= k < |c1.leaders| ensures LeaderOk(rings, c1, k) {
        if k < |c.leaders| { assert LeaderOk(rings, c, k); }
      }
      if c1.clone {
        var k :| 0 <= k < |c.leaders| && c.leaders[k].stage.Looping?;
        assert c1.leaders[k] == c.leaders[k];
      }
  }

  lemma {:induction false} RunKeeps(rings: Rings, steps: seq<Step>)
    requires HasLeaders(rings)
    ensures Inv(rings, Run(rings, START, steps))
    decreases |steps|
  {
    if steps != [] {
      RunKeeps(rings, steps[..|steps| - 1]);
      NextKeeps(rings, Run(rings, START, steps[..|steps| - 1]), steps[|steps| - 1]);
    }
  }

  // ---------- one leader at a time ----------

  predicate Active(l: Leader) {
    l.stage == AtGuard || l.stage.Looping?
  }

  /** No leader was ever kept out, at most one is before or in its pass, and that one is a clone
      of the target, which is no longer to be forked. */
  ghost predicate Turns(c: Config) {
    && (forall k :: 0 <= k < |c.leaders| ==> c.leaders[k].stage != Skipped)
    && (forall j, k :: 0 <= j < k < |c.leaders| ==> !(Active(c.leaders[j]) && Active(c.leaders[k])))
    && (forall k :: 0 <= k < |c.leaders| && Active(c.leaders[k]) ==>
          c.leaders[k].parent == c.tracked && c.pidToFork == -1)
    && (c.clone ==> exists k :: 0 <= k < |c.leaders| && c.leaders[k].stage.Looping?)
    && (forall k :: 0 <= k < |c.leaders| && c.leaders[k].stage.Looping? ==> c.clone)
    && (c.pidToFork != -1 ==> c.tracked == c.pidToFork)
  }

  lemma LeaderTurns(rings: Rings, c: Config, k: nat, result: int)
    requires Turns(c) && k < |c.leaders|
    ensures Turns(LeaderNext(rings, c, k, result))
  {
    var c1 := LeaderNext(rings, c, k, result);
    assert |c1.leaders| == |c.leaders| && forall j :: 0 <= j < |c.leaders| && j != k ==> c1.leaders[j] == c.leaders[j];
    if c.clone {
      var j :| 0 <= j < |c.leaders| && c.leaders[j].stage.Looping?;
      assert c1.leaders[j].stage.Looping? || j == k;
    }
    assert c1.leaders[k].stage.Looping? || !Active(c1.leaders[k]);
  }

  lemma NextTurns(rings: Rings, c: Config, step: Step)
    requires Turns(c)
    ensures Turns(Next(rings, c, step))
  {
    match step
    case RunLeader(k, result) => if k < |c.leaders| { LeaderTurns(rings, c, k, result); }
    case Schedule(current, result) =>
      var c1 := Next(rings, c, step);
      if c1.clone {
        var k :| 0 <= k < |c.leaders| && c.leaders[k].stage.Looping?;
        assert c1.leaders[k] == c.leaders[k];
      }
    case _ =>
  }

  lemma {:induction false} RunTurns(rings: Rings, steps: seq<Step>)
    ensures Turns(Run(rings, START, steps))
    decreases |steps|
  {
    if steps != [] {
      RunTurns(rings, steps[..|steps| - 1]);
      NextTurns(rings, Run(rings, START, steps[..|steps| - 1]), steps[|steps| - 1]);
    }
  }

  // ---------- main results ----------

  /** The tasks made runnable are the leaders, each once, in order of their forks. */
  ghost predicate WokenAreLeaders(c: Config) {
    |c.woken| == |c.leaders| && forall k :: 0 <= k < |c.leaders| ==> c.woken[k] == c.leaders[k].pid
  }

  lemma WokenStay(rings: Rings, c: Config, step: Step)
    requires WokenAreLeaders(c)
    ensures WokenAreLeaders(Next(rings, c, step))
  {
    if step.RunLeader? && step.k < |c.leaders| {
      var c1 := LeaderNext(rings, c, step.k, step.result);
      assert c1.woken == c.woken && c1.leaders == c.leaders[step.k := c1.leaders[step.k]];
    }
  }

  /** Only leaders are ever made runnable, each by its fork: no step of the module, also not the
      opening of the barrier, wakes a thread of a pass. */
  lemma {:induction false} OnlyLeadersAreWoken(rings: Rings, steps: seq<Step>)
    ensures WokenAreLeaders(Run(rings, START, steps))
    decreases |steps|
  {
    if steps != [] {
      OnlyLeadersAreWoken(rings, steps[..|steps| - 1]);
      WokenStay(rings, Run(rings, START, steps[..|steps| - 1]), steps[|steps| - 1]);
    }
  }

  /** Each announced process has its leader, in order, but for the last one as long as its fork
      is awaited. */
  ghost predicate LeaderEach(c: Config) {
    && |c.announced| == |c.leaders| + (if c.pidToFork == -1 then 0 else 1)
    && (forall k :: 0 <= k < |c.leaders| ==> c.leaders[k].parent == c.announced[k])
    && (c.pidToFork != -1 ==> c.announced[|c.leaders|] == c.pidToFork == c.tracked)
  }

  lemma LeaderEachStays(rings: Rings, c: Config, step: Step)
    requires LeaderEach(c) && Turns(c)
    ensures LeaderEach(Next(rings, c, step))
  {
    if step.RunLeader? && step.k < |c.leaders| {
      var c1 := LeaderNext(rings, c, step.k, step.result);
      assert c1.leaders == c.leaders[step.k := c1.leaders[step.k]];
      assert c.pidToFork != -1 ==> !Active(c.leaders[step.k]);
    }
  }

  /** In every reachable state every announced process but one that still awaits its fork has
      exactly one leader. */
  lemma {:induction false} EveryProcessHasItsLeader(rings: Rings, steps: seq<Step>)
    ensures LeaderEach(Run(rings, START, steps))
    decreases |steps|
  {
    if steps != [] {
      var n := |steps| - 1;
      EveryProcessHasItsLeader(rings, steps[..n]);
      RunTurns(rings, steps[..n]);
      LeaderEachStays(rings, Run(rings, START, steps[..n]), steps[n]);
    }
  }

  /** Without a call of 548 no leader gets past its park point. */
  lemma {:induction false} BarrierHolds(rings: Rings, steps: seq<Step>)
    requires HasLeaders(rings) && forall n :: 0 <= n < |steps| ==> steps[n] != Open
    ensures var c := Run(rings, START, steps);
            !c.everythingDone && forall k :: 0 <= k < |c.leaders| ==> c.leaders[k].stage != Past
    decreases |steps|
  {
    RunKeeps(rings, steps);
    var c := Run(rings, START, steps);
    if steps != [] { BarrierHolds(rings, steps[..|steps| - 1]); }
    forall k | 0 <= k < |c.leaders| ensures c.leaders[k].stage != Past { assert LeaderOk(rings, c, k); }
  }

  /** However many leaders are parked, and whether or not 548 has been called, no cloned leader
      is ever kept out of its pass: none has left the hook without one, and one that is at the
      guard enters with its next step.  No other leader is then before or in its pass. */
  lemma {:induction false} ParkedLeadersNeverBlock(rings: Rings, steps: seq<Step>, k: nat, result: int)
    requires k < |Run(rings, START, steps).leaders|
    ensures var c := Run(rings, START, steps);
            && c.leaders[k].stage != Skipped
            && (c.leaders[k].stage == AtGuard ==>
                  && c.leaders[k].parent == c.tracked && !c.clone
                  && LeaderNext(rings, c, k, result).leaders[k].stage == Looping(1)
                  && forall j :: 0 <= j < |c.leaders| && j != k ==> !Active(c.leaders[j]))
  {
    RunTurns(rings, steps);
    NobodyElse(Run(rings, START, steps), k);
  }

  lemma NobodyElse(c: Config, k: nat)
    requires Turns(c) && k < |c.leaders|
    ensures Active(c.leaders[k]) ==> forall j :: 0 <= j < |c.leaders| && j != k ==> !Active(c.leaders[j])
  {
  }

  /** `clone` is set exactly while a leader is in its pass, and then only one is. */
  lemma {:induction false} CloneMarksThePass(rings: Rings, steps: seq<Step>)
    ensures var c := Run(rings, START, steps);
            && (c.clone <==> exists k :: 0 <= k < |c.leaders| && c.leaders[k].stage.Looping?)
            && (forall j, k :: 0 <= j < k < |c.leaders| ==> !(Active(c.leaders[j]) && Active(c.leaders[k])))
  {
    RunTurns(rings, steps);
  }

  /** A leader that has run its pass owns a copy of every live sibling of its parent, or of a
      proper prefix of them, and then `error_check` shows it. */
  lemma {:induction false} ParkedLeaderHasItsThreads(rings: Rings, steps: seq<Step>, k: nat)
    requires HasLeaders(rings)
    requires var c := Run(rings, START, steps);
             k < |c.leaders| && (c.leaders[k].stage == Parked || c.leaders[k].stage == Past)
    ensures var c := Run(rings, START, steps);
            var live := Live(rings(c.leaders[k].parent)[1..]);
            && (Copies(c.leaders[k].made, live)
                || (c.errorCheck == -1 && |c.leaders[k].made| < |live|
                  && Copies(c.leaders[k].made, live[..|c.leaders[k].made|])))
            && (c.errorCheck == 0 ==> Copies(c.leaders[k].made, live))
  {
    RunKeeps(rings, steps);
    var c := Run(rings, START, steps);
    assert LeaderOk(rings, c, k);
    var ring := rings(c.leaders[k].parent);
    assert ring != [] && Before(ring, |ring|) == ring[1..];
  }

  /** One call of 548 opens the barrier for good: from then on a parked leader, also one that
      parks later, passes with its next step. */
  lemma {:induction false} BarrierNeverClosesAgain(rings: Rings, steps: seq<Step>, n: nat, k: nat, result: int)
    requires n < |steps| && steps[n] == Open
    requires var c := Run(rings, START, steps); k < |c.leaders| && c.leaders[k].stage == Parked
    ensures LeaderNext(rings, Run(rings, START, steps), k, result).leaders[k].stage == Past
  {
    StaysOpen(rings, steps, n);
  }

  lemma {:induction false} StaysOpen(rings: Rings, steps: seq<Step>, n: nat)
    requires n < |steps| && steps[n] == Open
    ensures Run(rings, START, steps).everythingDone
    decreases |steps|
  {
    if n < |steps| - 1 { StaysOpen(rings, steps[..|steps| - 1], n); }
  }

  // ---------- the barrier can always be passed ----------

  lemma {:induction false} RunCons(rings: Rings, c: Config, step: Step, steps: seq<Step>)
    ensures Run(rings, c, [step] + steps) == Run(rings, Next(rings, c, step), steps)
    decreases |steps|
  {
    var all := [step] + steps;
    if steps == [] {
      assert all[..0] == [] && all[0] == step;
    } else {
      var n := |steps| - 1;
      PrefixOfAppend([step], steps, n);
      RunCons(rings, c, step, steps[..n]);
    }
  }

  lemma {:induction false} RunAppend(rings: Rings, c: Config, a: seq<Step>, b: seq<Step>)
    ensures Run(rings, c, a + b) == Run(rings, Run(rings, c, a), b)
    decreases |b|
  {
    if b == [] {
      assert a + b == a;
    } else {
      var n := |b| - 1;
      PrefixOfAppend(a, b, n);
      var all := a + b;
      assert |all| - 1 == |a| + n && all != [];
      assert Run(rings, c, all) == Next(rings, Run(rings, c, all[..|a| + n]), all[|a| + n]);
      RunAppend(rings, c, a, b[..n]);
    }
  }

  function Left(n: nat, i: nat): nat {
    if i <= n then n - i else 0
  }

  /** The steps a leader is away from being past its park point. */
  function ToGo(rings: Rings, l: Leader): nat {
    match l.stage
    case AtGuard => Left(|rings(l.parent)|, 1) + 3
    case Looping(i) => Left(|rings(l.parent)|, i) + 2
    case Parked => 1
    case _ => 0
  }

  /** From `c` to `c1` only leader `k` has moved, and it is past its park point. */
  ghost predicate Driven(c: Config, c1: Config, k: nat) {
    && Turns(c1) && c1.everythingDone && k < |c.leaders| == |c1.leaders|
    && c1.leaders[k].stage == Past && c1.errorCheck == c.errorCheck
    && forall j :: 0 <= j < |c.leaders| && j != k ==> c1.leaders[j] == c.leaders[j]
  }

  /** One step of leader `k`, whose clone calls succeed. */
  lemma LeaderCloser(rings: Rings, c: Config, k: nat)
    requires Turns(c) && c.everythingDone && k < |c.leaders| && c.leaders[k].stage != Past
    ensures var c1 := LeaderNext(rings, c, k, 0);
            && c1.everythingDone && |c1.leaders| == |c.leaders| && c1.errorCheck == c.errorCheck
            && ToGo(rings, c1.leaders[k]) < ToGo(rings, c.leaders[k])
            && forall j :: 0 <= j < |c.leaders| && j != k ==> c1.leaders[j] == c.leaders[j]
  {
    assert c.leaders[k].stage == AtGuard ==> !c.clone by { NobodyElse(c, k); }
  }

  lemma Drive(rings: Rings, c: Config, k: nat) returns (steps: seq<Step>)
    requires Turns(c) && c.everythingDone && k < |c.leaders|
    ensures Driven(c, Run(rings, c, steps), k)
    decreases ToGo(rings, c.leaders[k])
  {
    if c.leaders[k].stage == Past {
      steps := [];
    } else {
      var step := RunLeader(k, 0);
      LeaderCloser(rings, c, k);
      LeaderTurns(rings, c, k, 0);
      var rest := Drive(rings, Next(rings, c, step), k);
      RunCons(rings, c, step, rest);
      steps := [step] + rest;
    }
  }

  /** The first `n` leaders are past their park points. */
  ghost predicate PastUpTo(c: Config, n: nat) {
    n <= |c.leaders| && forall k :: 0 <= k < n ==> c.leaders[k].stage == Past
  }

  lemma DriveAll(rings: Rings, c: Config, n: nat) returns (steps: seq<Step>)
    requires Turns(c) && c.everythingDone && n <= |c.leaders|
    ensures var c1 := Run(rings, c, steps);
            && Turns(c1) && c1.everythingDone && |c1.leaders| == |c.leaders| && c1.errorCheck == c.errorCheck
            && PastUpTo(c1, n)
    decreases n
  {
    if n == 0 {
      steps := [];
    } else {
      var first := DriveAll(rings, c, n - 1);
      var last := Drive(rings, Run(rings, c, first), n - 1);
      RunAppend(rings, c, first, last);
      steps := first + last;
    }
  }

  /** Whatever has happened so far, one call of 548 and steps of the leaders bring every cloned
      leader past its park point, without a further failed clone. */
  lemma AllLeadersCanPass(rings: Rings, steps: seq<Step>) returns (more: seq<Step>)
    ensures var c, c1 := Run(rings, START, steps), Run(rings, START, steps + more);
            |c1.leaders| == |c.leaders| && PastUpTo(c1, |c.leaders|) && c1.errorCheck == c.errorCheck
  {
    var c := Run(rings, START, steps);
    RunTurns(rings, steps);
    NextTurns(rings, c, Open);
    var rest := DriveAll(rings, Next(rings, c, Open), |c.leaders|);
    RunCons(rings, c, Open, rest);
    more := [Open] + rest;
    RunAppend(rings, START, steps, more);
  }
}
