/** What a process gets from the variant with the barrier: a leader that copies its threads and
    parks.  Every pass is the clone pass of `ThreadRing`, and from every reachable state every
    process can be given its leader.
 */
module PtreeBarrierPass {
  import opened ProcessTree
  import opened ThreadRing
  import opened PtreeBarrier

  /** Leader `k` has parked behind the pass `p`; the next process can be announced. */
  function AfterPass(c: Config, k: nat, p: Pass): Config
    requires k < |c.leaders|
  {
    var l := c.leaders[k];
    c.(leaders := c.leaders[k := l.(stage := Parked, made := l.made + p.made)],
       tracked := -1, clone := false, errorCheck := if p.failed then -1 else c.errorCheck)
  }

  lemma {:induction false} StepFirst(rings: Rings, c: Config, step: Step, rest: seq<Step>) returns (steps: seq<Step>)
    ensures steps == [step] + rest && Run(rings, c, steps) == Run(rings, Next(rings, c, step), rest)
  {
    RunCons(rings, c, step, rest);
    steps := [step] + rest;
  }

  lemma LeaderSetTwice(ls: seq<Leader>, k: nat, a: Leader, b: Leader)
    requires k < |ls|
    ensures ls[k := a][k := b] == ls[k := b]
  {
  }

  lemma AppendMade(made: seq<Copy>, m: Copy, rest: seq<Copy>)
    ensures (made + [m]) + rest == made + ([m] + rest) && made + [] == made
  {
  }

  /** The clone loop of a leader from ring position `i` on, in any state. */
  lemma {:induction false} PassAlone(rings: Rings, c: Config, k: nat, i: nat, results: seq<int>)
    returns (steps: seq<Step>)
    requires k < |c.leaders| && c.leaders[k].stage == Looping(i) && 0 < i <= |rings(c.leaders[k].parent)|
    ensures Run(rings, c, steps) == AfterPass(c, k, CopyAll(rings(c.leaders[k].parent)[i..], results))
    ensures Open !in steps
    decreases |rings(c.leaders[k].parent)| - i
  {
    var l := c.leaders[k];
    var ring := rings(l.parent);
    var step := RunLeader(k, Answer(results));
    var rest := [];
    if i < |ring| { SliceStep(ring, i); } else { assert ring[i..] == []; }
    if i < |ring| && (ring[i].exiting || Answer(results) >= 0) {
      var l1 := l.(stage := Looping(i + 1));
      var left := results;
      if !ring[i].exiting {
        l1 := l1.(made := l.made + [CopyOf(ring[i], results[0])]);
        left := results[1..];
        AppendMade(l.made, CopyOf(ring[i], results[0]), CopyAll(ring[i + 1..], left).made);
      }
      var c1 := c.(leaders := c.leaders[k := l1]);
      assert Next(rings, c, step) == c1;
      rest := PassAlone(rings, c1, k, i + 1, left);
      var p := CopyAll(ring[i + 1..], left);
      LeaderSetTwice(c.leaders, k, l1, l1.(stage := Parked, made := l1.made + p.made));
    } else {
      assert l.made + [] == l.made;
    }
    steps := StepFirst(rings, c, step, rest);
  }

  /** A leader at the guard: it runs its pass, or is kept out and changes nothing. */
  lemma {:induction false} LeaderAlone(rings: Rings, c: Config, k: nat, results: seq<int>) returns (steps: seq<Step>)
    requires k < |c.leaders| && c.leaders[k].stage == AtGuard && rings(c.leaders[k].parent) != []
    ensures Run(rings, c, steps)
            == if c.leaders[k].parent == c.tracked && !c.clone then
                 AfterPass(c, k, CopyAll(rings(c.leaders[k].parent)[1..], results))
               else
                 c.(leaders := c.leaders[k := c.leaders[k].(stage := Skipped)])
    ensures Open !in steps
  {
    var step := RunLeader(k, 0);
    var c1 := Next(rings, c, step);
    var rest := [];
    if c.leaders[k].parent == c.tracked && !c.clone {
      rest := PassAlone(rings, c1, k, 1, results);
      LeaderSetTwice(c.leaders, k, c1.leaders[k], Run(rings, c1, rest).leaders[k]);
    }
    steps := StepFirst(rings, c, step, rest);
  }

  // ---------- from the announcement to the park point ----------

  /** Nobody forks for `p`: the steps are entries of others, or failed forks. */
  ghost predicate Fruitless(steps: seq<Step>, p: Pid) {
    forall n :: 0 <= n < |steps| ==> steps[n].Schedule? && (steps[n].current != p || steps[n].result < 0)
  }

  lemma {:induction false} FruitlessStays(rings: Rings, c: Config, steps: seq<Step>, p: Pid)
    requires c.pidToFork == p && Fruitless(steps, p)
    ensures Run(rings, c, steps) == c
    decreases |steps|
  {
    if steps != [] { FruitlessStays(rings, c, steps[..|steps| - 1], p); }
  }

  /** The state in which process `p` has its leader `q`, parked behind the pass `a`. */
  function Cloned(c: Config, p: Pid, q: Pid, a: Pass): Config {
    c.(leaders := c.leaders + [Leader(q, p, Parked, a.made)], errorCheck := if a.failed then -1 else c.errorCheck,
       announced := c.announced + [p], woken := c.woken + [q])
  }

  /** A process is announced; others and failed forks pass through the probe; then its fork makes
      the leader `q`, which copies its threads and parks. */
  lemma {:induction false} CloneProcess(rings: Rings, steps: seq<Step>, p: Pid, q: Pid, between: seq<Step>,
                                        results: seq<int>)
    returns (more: seq<Step>)
    requires rings(p) != [] && Run(rings, START, steps).tracked == -1 && Fruitless(between, p)
    ensures var c := Run(rings, START, steps);
            Run(rings, c, [Target(p)] + between + [Schedule(p, q)] + more)
            == Cloned(c, p, q, CopyAll(rings(p)[1..], results))
    ensures Open !in more
  {
    var c := Run(rings, START, steps);
    RunTurns(rings, steps);
    assert c.pidToFork == -1;
    var c1 := Next(rings, c, Target(p));
    FruitlessStays(rings, c1, between, p);
    var c2 := Next(rings, c1, Schedule(p, q));
    var n := |c.leaders|;
    NobodyLoops(c);
    more := LeaderAlone(rings, c2, n, results);
    var first := [Target(p)];
    assert Run(rings, c, first) == c1 by { RunCons(rings, c, Target(p), []); assert [Target(p)] + [] == first; }
    RunAppend(rings, c, first, between);
    RunAppend(rings, c, first + between, [Schedule(p, q)]);
    assert Run(rings, c1, [Schedule(p, q)]) == c2 by {
      RunCons(rings, c1, Schedule(p, q), []);
      assert [Schedule(p, q)] + [] == [Schedule(p, q)];
    }
    RunAppend(rings, c, first + between + [Schedule(p, q)], more);
    var made := CopyAll(rings(p)[1..], results).made;
    assert [] + made == made;
    LastSet(c.leaders, Leader(q, p, AtGuard, []), Leader(q, p, Parked, made));
  }

  lemma LastSet(ls: seq<Leader>, a: Leader, b: Leader)
    ensures (ls + [a])[|ls| := b] == ls + [b]
  {
  }

  lemma NobodyLoops(c: Config)
    requires Turns(c) && c.tracked == -1
    ensures !c.clone
  {
  }

  // ---------- every process can be given its leader ----------

  /** A process that has been announced and not released waits for its fork or has a leader that
      has not parked yet. */
  ghost predicate Pursued(c: Config) {
    c.tracked != -1 && c.pidToFork == -1 ==> exists k :: 0 <= k < |c.leaders| && Active(c.leaders[k])
  }

  lemma LeaderPursues(rings: Rings, c: Config, k: nat, result: int)
    requires Turns(c) && Pursued(c) && k < |c.leaders|
    ensures Pursued(LeaderNext(rings, c, k, result))
  {
    var c1 := LeaderNext(rings, c, k, result);
    if c1.tracked != -1 && c1.pidToFork == -1 {
      var j :| 0 <= j < |c.leaders| && Active(c.leaders[j]);
      NobodyElse(c, j);
      assert Active(c1.leaders[j]) || j == k;
      if j == k && c.leaders[k].stage == AtGuard { assert !c.clone; }
      assert Active(c1.leaders[j]);
    }
  }

  lemma {:induction false} RunPursues(rings: Rings, steps: seq<Step>)
    ensures Pursued(Run(rings, START, steps))
    decreases |steps|
  {
    if steps != [] {
      var n := |steps| - 1;
      RunPursues(rings, steps[..n]);
      RunTurns(rings, steps[..n]);
      StepPursues(rings, Run(rings, START, steps[..n]), steps[n]);
    }
  }

  lemma StepPursues(rings: Rings, c: Config, step: Step)
    requires Turns(c) && Pursued(c)
    ensures Pursued(Next(rings, c, step))
  {
    var c1 := Next(rings, c, step);
    match step
    case RunLeader(k, result) => if k < |c.leaders| { LeaderPursues(rings, c, k, result); }
    case Schedule(_, _) =>
      if c1 != c {
        assert Active(c1.leaders[|c.leaders|]);
      }
    case _ =>
      if c1.tracked != -1 && c1.pidToFork == -1 {
        var k :| 0 <= k < |c.leaders| && Active(c.leaders[k]);
        assert Active(c1.leaders[k]);
      }
  }

  /** Answers with which every clone call of a ring of `n` threads succeeds. */
  function Zeros(n: nat): seq<int> {
    seq(n, _ => 0)
  }

  lemma {:induction false} ZerosSucceed(ts: seq<Thread>, n: nat)
    requires |ts| <= n
    ensures !CopyAll(ts, Zeros(n)).failed
    decreases |ts|
  {
    if ts != [] {
      if ts[0].exiting {
        ZerosSucceed(ts[1..], n);
      } else {
        assert Zeros(n)[1..] == Zeros(n - 1);
        ZerosSucceed(ts[1..], n - 1);
      }
    }
  }

  /** The process that is being cloned, if any, can be brought to its end. */
  lemma {:induction false} Release(rings: Rings, steps: seq<Step>) returns (more: seq<Step>)
    requires HasLeaders(rings)
    ensures var c, c1 := Run(rings, START, steps), Run(rings, START, steps + more);
            c1.tracked == -1 && c1.errorCheck == c.errorCheck && c1.everythingDone == c.everythingDone
    ensures Open !in more
  {
    var c := Run(rings, START, steps);
    RunTurns(rings, steps);
    RunPursues(rings, steps);
    EveryProcessHasItsLeader(rings, steps);
    more := [];
    assert steps + [] == steps;
    if c.pidToFork != -1 {
      var step := Schedule(c.pidToFork, 0);
      var c1 := Next(rings, c, step);
      NextTurns(rings, c, step);
      NobodyElse(c1, |c.leaders|);
      more := ReleaseLeader(rings, c1, |c.leaders|);
      more := StepFirst(rings, c, step, more);
      RunAppend(rings, START, steps, more);
    } else if c.tracked != -1 {
      var k :| 0 <= k < |c.leaders| && Active(c.leaders[k]);
      RunKeeps(rings, steps);
      assert LeaderOk(rings, c, k);
      more := ReleaseLeader(rings, c, k);
      RunAppend(rings, START, steps, more);
    }
  }

  lemma {:induction false} ReleaseLeader(rings: Rings, c: Config, k: nat) returns (steps: seq<Step>)
    requires HasLeaders(rings) && Turns(c) && k < |c.leaders| && Active(c.leaders[k])
    requires c.leaders[k].stage.Looping? ==> 0 < c.leaders[k].stage.i <= |rings(c.leaders[k].parent)|
    ensures var c1 := Run(rings, c, steps);
            c1.tracked == -1 && c1.errorCheck == c.errorCheck && c1.everythingDone == c.everythingDone
    ensures Open !in steps
  {
    var ring := rings(c.leaders[k].parent);
    NobodyElse(c, k);
    if c.leaders[k].stage == AtGuard {
      ZerosSucceed(ring[1..], |ring|);
      steps := LeaderAlone(rings, c, k, Zeros(|ring|));
    } else {
      var i := c.leaders[k].stage.i;
      ZerosSucceed(ring[i..], |ring|);
      steps := PassAlone(rings, c, k, i, Zeros(|ring|));
    }
  }

  /** From every reachable state every process `p` can be brought to a leader `q` of its own that
      is parked behind a complete pass; the barrier stays as it is. */
  lemma {:induction false} EveryProcessCanBeCloned(rings: Rings, steps: seq<Step>, p: Pid, q: Pid)
    returns (more: seq<Step>)
    requires HasLeaders(rings)
    ensures var c, c1 := Run(rings, START, steps), Run(rings, START, steps + more);
            && c1.leaders != [] && c1.tracked == -1
            && c1.errorCheck == c.errorCheck && c1.everythingDone == c.everythingDone
            && var l := c1.leaders[|c1.leaders| - 1];
               l.pid == q && l.parent == p && l.stage == Parked && Copies(l.made, Live(rings(p)[1..]))
    ensures Open !in more
  {
    var first := Release(rings, steps);
    var ring := rings(p);
    assert ring != [];
    ZerosSucceed(ring[1..], |ring|);
    CopyAllResult(ring[1..], Zeros(|ring|));
    var last := CloneProcess(rings, steps + first, p, q, [], Zeros(|ring|));
    var tail := [Target(p)] + [] + [Schedule(p, q)] + last;
    RunAppend(rings, START, steps + first, tail);
    assert steps + first + tail == steps + (first + tail);
    more := first + tail;
  }
}
