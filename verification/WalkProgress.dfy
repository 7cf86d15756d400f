/** Two further facts about every interleaving of the tree walk: where each clone hangs at
    any moment, and that the walk can always be brought to its end.
 */
module WalkProgress {
  import opened ProcessTree
  import opened WalkResult
  import opened WalkMachine

  // ---------- where the clones are ----------

  /** The clone of `x` is a child of `x` or of the clone of the original parent of `x`. */
  ghost predicate ClonePlaced(x: Pid, c: Config, s0: System)
    requires x in c.clones
  {
    var q := c.clones[x];
    && q in c.sys.parent
    && (c.sys.parent[q] == x
        || (x in s0.parent && s0.parent[x] in c.clones && c.sys.parent[q] == c.clones[s0.parent[x]]))
  }

  ghost predicate Placed(c: Config, s0: System) {
    && (forall x {:trigger ClonePlaced(x, c, s0)} :: x in c.clones ==> ClonePlaced(x, c, s0))
    && (forall x :: x in c.clones ==> c.clones[x] in c.sys.listed || c.probe == Forked(c.clones[x]))
  }

  lemma ForkPlaces(c: Config, shapes: List<Tree>, root: Tree, s0: System, current: Pid, result: int)
    requires Inv(c, shapes, root, s0) && Placed(c, s0) && ScheduleNext(c, current, result) != c
    ensures Placed(ScheduleNext(c, current, result), s0)
  {
    ForkHits(c, shapes, root, s0, current, result);
    PlacedAfterFork(c, ScheduleNext(c, current, result), current, result, s0);
  }

  lemma PlacedAfterFork(c: Config, c1: Config, current: Pid, result: Pid, s0: System)
    requires Placed(c, s0) && Forest(c.sys) && c.probe.Idle? && result !in c.sys.children && current !in c.clones
    requires c1 == c.(sys := Born(c.sys, current, result), probe := Forked(result),
            clones := c.clones[current := result])
    ensures Placed(c1, s0)
  {
    forall x | x in c1.clones ensures ClonePlaced(x, c1, s0) {
      if x != current {
        assert ClonePlaced(x, c, s0);
        assert UpLink(c.sys, c.clones[x]);
      }
    }
  }

  /** A `reparent` of the walk moves a clone only from its original to the clone of the parent. */
  lemma MovePlaces(c: Config, c1: Config, s0: System, k: Pid, g: Pid)
    requires Placed(c, s0) && Forest(c.sys) && Forest(s0) && c.probe.Idle?
    requires c1 == c.(sys := Reparent(c.sys, g, c.sys.pPrime))
    requires k in c.sys.children && g in c.sys.children[k] && k !in c.sys.listed
    requires k in s0.parent && s0.parent[k] in c.clones && c.clones[s0.parent[k]] == c.sys.pPrime
    requires forall x, y :: x in c.clones && y in c.clones && x != y ==> c.clones[x] != c.clones[y]
    ensures Placed(c1, s0)
  {
    assert DownLinks(c.sys, k);
    forall x | x in c1.clones ensures ClonePlaced(x, c1, s0) {
      assert ClonePlaced(x, c, s0);
    }
  }

  lemma MoveStepPlaces(c: Config, shapes: List<Tree>, root: Tree, s0: System)
    requires OnTop(c, shapes, root, s0) && Placed(c, s0) && Forest(s0) && ManagerNext(c).sys != c.sys
    ensures Placed(ManagerNext(c), s0)
  {
    var f, t := c.stack.head, shapes.head;
    assert f.phase.Moving?;
    var k := KidPids(t.kids)[f.phase.ci];
    MoveEffect(f, t, c, k);
    assert DownLinks(s0, t.pid);
    SplitAt(Kids(c.sys, k), f.phase.gi);
    MovePlaces(c, ManagerNext(c), s0, k, Kids(c.sys, k)[f.phase.gi]);
  }

  lemma StepPlaces(c: Config, step: Step, shapes: List<Tree>, root: Tree, s0: System)
    requires Inv(c, shapes, root, s0) && Placed(c, s0) && Forest(s0)
    ensures Placed(Next(c, step), s0)
  {
    match step
    case Probe => ProbePlaces(c, s0);
    case Schedule(current, result) =>
      if ScheduleNext(c, current, result) != c { ForkPlaces(c, shapes, root, s0, current, result); }
    case Manager =>
      if c.stack.Cons? && ManagerNext(c).sys != c.sys {
        MoveStepPlaces(c, shapes, root, s0);
      } else {
        ClonesAfter(c, step);
        QuietProbe(c);
        SamePlaces(c, ManagerNext(c), s0);
      }
  }

  lemma QuietProbe(c: Config)
    ensures ManagerNext(c).probe == c.probe
    ensures c.stack.Nil? ==> ManagerNext(c).sys == c.sys
  {
    match c.stack { case Nil => case Cons(Frame(p, phase), rest) => }
  }

  lemma ProbePlaces(c: Config, s0: System)
    requires Placed(c, s0)
    ensures Placed(ProbeNext(c), s0)
  {
    forall x | x in c.clones ensures ClonePlaced(x, ProbeNext(c), s0) { assert ClonePlaced(x, c, s0); }
  }

  lemma SamePlaces(c: Config, c1: Config, s0: System)
    requires Placed(c, s0) && c1.clones == c.clones && c1.sys == c.sys && c1.probe == c.probe
    ensures Placed(c1, s0)
  {
    forall x | x in c1.clones ensures ClonePlaced(x, c1, s0) { assert ClonePlaced(x, c, s0); }
  }

  lemma {:induction false} RunPlaces(root: Tree, s: System, steps: seq<Step>)
    requires Forest(s) && Intact(root, s)
    ensures Placed(Run(Start(root.pid, s), steps), s)
    decreases |steps|
  {
    if steps != [] {
      var n := |steps| - 1;
      RunPlaces(root, s, steps[..n]);
      var shapes := RunKeeps(root, s, steps[..n], map[]);
      StepPlaces(Run(Start(root.pid, s), steps[..n]), steps[n], shapes, root, s);
    }
  }

  /** In every reachable state every clone is a child of its original or of the clone of its
      original's parent. */
  lemma {:induction false} EveryClonePlaced(root: Tree, s: System, steps: seq<Step>, x: Pid)
    requires Forest(s) && Intact(root, s)
    requires x in Run(Start(root.pid, s), steps).clones
    ensures ClonePlaced(x, Run(Start(root.pid, s), steps), s)
  {
    RunPlaces(root, s, steps);
  }

  // ---------- the walk is never stuck ----------

  ghost function Unentered(stack: List<Frame>, shapes: List<Tree>): set<Pid>
    decreases stack
  {
    match stack
    case Nil => {}
    case Cons(f, rest) =>
      if shapes.Nil? then {}
      else
        var here := if f.phase.Descending? then NodesOf(DropTrees(shapes.head.kids, f.phase.i)) else {};
        here + Unentered(rest, shapes.tail)
  }

  function Height(stack: List<Frame>): nat {
    match stack case Nil => 0 case Cons(_, rest) => 1 + Height(rest)
  }

  /** How far the call on top is from its return, once nobody calls `dfs` or forks any more. */
  function TopStage(c: Config): nat {
    match c.stack
    case Nil => 0
    case Cons(f, _) =>
      match f.phase
      case Descending(_) => 9
      case Waiting =>
        (match c.probe
         case Idle => if c.done then 3 else 8
         case Forked(_) => 7
         case Listed(_) => 6
         case Published(_) => 5
         case Cleared(_) => 4)
      case Woken => 2
      case _ => 1
  }

  function Left(n: nat, i: nat): nat {
    if i <= n then n - i else 0
  }

  function OuterLeft(c: Config): nat {
    match c.stack
    case Nil => 0
    case Cons(f, _) =>
      match f.phase
      case Rewiring(ci) => 2 * Left(|Kids(c.sys, f.pid)|, ci)
      case Moving(ci, _) => 2 * Left(|Kids(c.sys, f.pid)|, ci + 1) + 1
      case _ => 0
  }

  function InnerLeft(c: Config): nat {
    match c.stack
    case Nil => 0
    case Cons(f, _) =>
      match f.phase
      case Moving(ci, gi) =>
        if ci < |Kids(c.sys, f.pid)| then Left(|Kids(c.sys, Kids(c.sys, f.pid)[ci])|, gi) else 0
      case _ => 0
  }

  /** The step that brings the walk forward: the target schedules and its fork succeeds, the
      probe goes on, or the manager does. */
  function Helpful(c: Config, unused: Pid): Step {
    if !c.probe.Idle? then Step.Probe
    else if c.target >= 0 then Schedule(c.target, unused)
    else Manager
  }

  /** Fewer tasks to fork; or fewer to enter; or fewer calls; or less left in the top call. */
  ghost predicate Closer(c1: Config, shapes1: List<Tree>, c: Config, shapes: List<Tree>) {
    || Pending(c1, shapes1) < Pending(c, shapes)
    || (Pending(c1, shapes1) == Pending(c, shapes) &&
        (|| Unentered(c1.stack, shapes1) < Unentered(c.stack, shapes)
         || (Unentered(c1.stack, shapes1) == Unentered(c.stack, shapes) &&
             (|| Height(c1.stack) < Height(c.stack)
              || (Height(c1.stack) == Height(c.stack) && CloserTop(c1, c))))))
  }

  ghost predicate CloserTop(c1: Config, c: Config) {
    || TopStage(c1) < TopStage(c)
    || (TopStage(c1) == TopStage(c) &&
        (|| OuterLeft(c1) < OuterLeft(c)
         || (OuterLeft(c1) == OuterLeft(c) && InnerLeft(c1) < InnerLeft(c))))
  }

  lemma {:induction false} UnenteredIsFrozen(stack: List<Frame>, shapes: List<Tree>, child: Tree, root: Tree,
                                             s: System, s0: System)
    requires Below(stack, shapes, child, root, s, s0)
    ensures Unentered(stack, shapes) <= Frozen(stack, shapes)
    decreases stack
  {
    match stack
    case Nil =>
    case Cons(f, rest) => UnenteredIsFrozen(rest, shapes.tail, shapes.head, root, s, s0);
  }

  lemma DescendCloser(c: Config, shapes: List<Tree>, root: Tree, s0: System)
    requires OnTop(c, shapes, root, s0)
    requires var f := c.stack.head; f.phase.Descending? && f.phase.i < |Kids(c.sys, f.pid)|
    ensures var k := shapes.head.kids[c.stack.head.phase.i];
            Closer(ManagerNext(c), Cons(k, shapes), c, shapes)
  {
    var f, t := c.stack.head, shapes.head;
    var i := f.phase.i;
    var k := t.kids[i];
    DescendShape(f, t, root, c.sys, s0);
    DescendNext(c, shapes, root, s0);
    DescendPending(c, shapes, root, s0);
    ChildShape(t, i, s0);
    UnenteredIsFrozen(c.stack.tail, shapes.tail, t, root, c.sys, s0);
    assert k.pid in Nodes(k) && k.pid in Nodes(t);
    ChildEntered(f, t, c.stack.tail, shapes.tail);
    EnteringIsCloser(ManagerNext(c), Cons(k, shapes), c, shapes);
  }

  lemma {:induction false} EnteringIsCloser(c1: Config, shapes1: List<Tree>, c: Config, shapes: List<Tree>)
    requires Pending(c1, shapes1) == Pending(c, shapes)
    requires Unentered(c1.stack, shapes1) < Unentered(c.stack, shapes)
    ensures Closer(c1, shapes1, c, shapes)
  {
  }

  /** The child that is entered is no longer among the tasks to enter. */
  lemma ChildEntered(f: Frame, t: Tree, rest: List<Frame>, shapes: List<Tree>)
    requires f.phase.Descending? && f.phase.i < |t.kids|
    requires var i, k := f.phase.i, t.kids[f.phase.i];
             && NodesOf(t.kids[i..]) == Nodes(k) + NodesOf(t.kids[i + 1..])
             && k.pid !in NodesOf(k.kids) && k.pid !in NodesOf(t.kids[i + 1..]) && k.pid !in Unentered(rest, shapes)
    ensures var k := t.kids[f.phase.i];
            var entered := Cons(Frame(k.pid, Descending(0)), Cons(f.(phase := Descending(f.phase.i + 1)), rest));
            Unentered(entered, Cons(k, Cons(t, shapes))) < Unentered(Cons(f, rest), Cons(t, shapes))
  {
    var i := f.phase.i;
    var k := t.kids[i];
    UnenteredCons(Frame(k.pid, Descending(0)), k, Cons(f.(phase := Descending(i + 1)), rest), Cons(t, shapes));
    UnenteredCons(f.(phase := Descending(i + 1)), t, rest, shapes);
    UnenteredCons(f, t, rest, shapes);
    OneFewer(k.pid, NodesOf(k.kids), NodesOf(t.kids[i + 1..]), Unentered(rest, shapes));
  }

  lemma {:induction false} UnenteredCons(f: Frame, t: Tree, rest: List<Frame>, shapes: List<Tree>)
    requires f.phase.Descending? && f.phase.i <= |t.kids|
    ensures Unentered(Cons(f, rest), Cons(t, shapes)) == NodesOf(t.kids[f.phase.i..]) + Unentered(rest, shapes)
    ensures f.phase.i == 0 ==> t.kids[f.phase.i..] == t.kids
  {
  }

  lemma OneFewer(k: Pid, a: set<Pid>, b: set<Pid>, u: set<Pid>)
    requires k !in a && k !in b && k !in u
    ensures a + (b + u) < ({k} + a + b) + u
  {
    assert k in ({k} + a + b) + u;
  }

  lemma ReturnCloser(c: Config, shapes: List<Tree>, root: Tree, s0: System)
    requires OnTop(c, shapes, root, s0)
    requires var f := c.stack.head; f.phase.Rewiring? && f.phase.ci >= |Kids(c.sys, f.pid)|
    ensures Closer(ManagerNext(c), shapes.tail, c, shapes)
  {
    assert Pending(ManagerNext(c), shapes.tail) == Pending(c, shapes);
  }

  lemma TopCloser(c: Config, c1: Config, shapes: List<Tree>)
    requires c.stack.Cons? && c1.stack.Cons? && shapes.Cons? && c1.stack.tail == c.stack.tail
    requires TopPending(c1.stack.head, shapes.head, c1) == TopPending(c.stack.head, shapes.head, c)
    requires c.stack.head.phase.Descending? ==> DropTrees(shapes.head.kids, c.stack.head.phase.i) == []
    requires !c1.stack.head.phase.Descending? && CloserTop(c1, c)
    ensures Closer(c1, shapes, c, shapes)
  {
    assert Pending(c1, shapes) == Pending(c, shapes);
    assert Unentered(c1.stack, shapes) == Unentered(c.stack, shapes);
  }

  lemma QuietCloser(f: Frame, t: Tree, c: Config)
    requires Quiet(c) && c.stack.head == f && TopOk(f, t, c)
    ensures CloserTop(ManagerNext(c), c)
    ensures !ManagerNext(c).stack.head.phase.Descending?
    ensures f.phase.Descending? ==> DropTrees(t.kids, f.phase.i) == []
  {
    if f.phase.Moving? {
      InnerCloser(f, t, c);
    } else if f.phase.Descending? {
      assert DropTrees(t.kids, f.phase.i) == [];
    }
  }

  lemma InnerCloser(f: Frame, t: Tree, c: Config)
    requires Quiet(c) && c.stack.head == f && TopOk(f, t, c) && f.phase.Moving?
    ensures CloserTop(ManagerNext(c), c) && !ManagerNext(c).stack.head.phase.Descending?
  {
    var gi := f.phase.gi;
    assert Kids(c.sys, f.pid)[f.phase.ci] == KidPids(t.kids)[f.phase.ci];
    var gcs := Kids(c.sys, KidPids(t.kids)[f.phase.ci]);
    if gi < |gcs| { ReparentCounts(c.sys, gcs[gi], c.sys.pPrime); }
  }

  lemma MoveCloser(f: Frame, t: Tree, c: Config)
    requires c.stack.Cons? && c.stack.head == f && Forest(c.sys)
    requires f.phase.Moving? && TopOk(f, t, c) && ManagerNext(c).sys != c.sys
    ensures CloserTop(ManagerNext(c), c)
  {
    var k := KidPids(t.kids)[f.phase.ci];
    MoveEffect(f, t, c, k);
    MoveTopOk(f, t, c, ManagerNext(c), k);
  }

  lemma ProbeCloser(c: Config, shapes: List<Tree>, root: Tree, s0: System)
    requires OnTop(c, shapes, root, s0) && !c.probe.Idle?
    ensures Inv(ProbeNext(c), shapes, root, s0)
    ensures Closer(ProbeNext(c), shapes, c, shapes)
  {
    ProbeKeeps(c, shapes, root, s0, map[]);
    ProbeTop(c.stack.head, shapes.head, c, map[]);
    TopCloser(c, ProbeNext(c), shapes);
  }

  lemma ForkCloser(c: Config, shapes: List<Tree>, root: Tree, s0: System, unused: Pid)
    requires OnTop(c, shapes, root, s0) && c.probe.Idle? && c.target >= 0 && unused !in c.sys.children
    ensures ScheduleNext(c, c.target, unused) != c
    ensures Inv(ScheduleNext(c, c.target, unused), shapes, root, s0)
    ensures Closer(ScheduleNext(c, c.target, unused), shapes, c, shapes)
  {
    var c1 := ScheduleNext(c, c.target, unused);
    ForkHits(c, shapes, root, s0, c.target, unused);
    ForkInv(c, shapes, root, s0, c.target, unused);
    var p := c.stack.head.pid;
    assert p in TopPending(c.stack.head, shapes.head, c);
    assert p in Nodes(shapes.head);
    assert p !in Pending(c1, shapes);
  }

  lemma MoveStepCloser(c: Config, shapes: List<Tree>, root: Tree, s0: System)
    requires OnTop(c, shapes, root, s0) && ManagerNext(c).sys != c.sys
    ensures Closer(ManagerNext(c), shapes, c, shapes)
    ensures c.stack.head.phase.Moving?
  {
    var f, t := c.stack.head, shapes.head;
    assert f.phase.Moving?;
    MoveTop(f, t, c, map[]);
    MoveCloser(f, t, c);
    TopCloser(c, ManagerNext(c), shapes);
  }

  lemma QuietStepCloser(c: Config, shapes: List<Tree>, root: Tree, s0: System)
    requires OnTop(c, shapes, root, s0) && Quiet(c)
    ensures Inv(ManagerNext(c), shapes, root, s0)
    ensures Closer(ManagerNext(c), shapes, c, shapes)
  {
    var f, t := c.stack.head, shapes.head;
    QuietTop(f, t, c, map[]);
    TopStep(c, ManagerNext(c), shapes, root, s0, map[]);
    QuietCloser(f, t, c);
    TopCloser(c, ManagerNext(c), shapes);
  }

  lemma NobodyWaited(c: Config, shapes: List<Tree>, root: Tree, s0: System)
    requires OnTop(c, shapes, root, s0) && c.probe.Idle? && c.target < 0
    ensures c.stack.head.phase.Waiting? ==> c.done
  {
  }

  lemma ManagerCloser(c: Config, shapes: List<Tree>, root: Tree, s0: System)
    returns (next: List<Tree>)
    requires OnTop(c, shapes, root, s0) && (c.stack.head.phase.Waiting? ==> c.done)
    ensures Inv(ManagerNext(c), next, root, s0)
    ensures Closer(ManagerNext(c), next, c, shapes)
  {
    next := shapes;
    var f, n := c.stack.head, |Kids(c.sys, c.stack.head.pid)|;
    if f.phase.Descending? && f.phase.i < n {
      next := DescendKeeps(c, shapes, root, s0, map[]);
      DescendCloser(c, shapes, root, s0);
      assert next == Cons(shapes.head.kids[f.phase.i], shapes);
    } else if f.phase.Rewiring? && f.phase.ci >= n {
      next := shapes.tail;
      ReturnKeeps(c, shapes, root, s0, map[]);
      ReturnCloser(c, shapes, root, s0);
    } else if ManagerNext(c).sys != c.sys {
      MoveStepCloser(c, shapes, root, s0);
      MoveInv(c, shapes, root, s0);
    } else {
      QuietStepCloser(c, shapes, root, s0);
    }
  }

  lemma HelpfulCloser(c: Config, shapes: List<Tree>, root: Tree, s0: System, unused: Pid)
    returns (next: List<Tree>)
    requires OnTop(c, shapes, root, s0) && unused !in c.sys.children
    ensures Inv(Next(c, Helpful(c, unused)), next, root, s0)
    ensures Closer(Next(c, Helpful(c, unused)), next, c, shapes)
  {
    next := shapes;
    if !c.probe.Idle? {
      assert Next(c, Helpful(c, unused)) == ProbeNext(c);
      ProbeCloser(c, shapes, root, s0);
    } else if c.target >= 0 {
      assert Next(c, Helpful(c, unused)) == ScheduleNext(c, c.target, unused);
      ForkCloser(c, shapes, root, s0, unused);
    } else {
      assert Next(c, Helpful(c, unused)) == ManagerNext(c);
      NobodyWaited(c, shapes, root, s0);
      next := ManagerCloser(c, shapes, root, s0);
    }
  }

  lemma {:induction false} RunCons(c: Config, step: Step, steps: seq<Step>)
    ensures Run(c, [step] + steps) == Run(Next(c, step), steps)
    decreases |steps|
  {
    var all := [step] + steps;
    if steps == [] {
      assert all[..0] == [] && all[0] == step;
    } else {
      var n := |steps| - 1;
      PrefixOfAppend([step], steps, n);
      RunCons(c, step, steps[..n]);
    }
  }

  lemma {:induction false} RunAppend(c: Config, a: seq<Step>, b: seq<Step>)
    ensures Run(c, a + b) == Run(Run(c, a), b)
    decreases |b|
  {
    if b == [] {
      assert a + b == a;
    } else {
      var n := |b| - 1;
      PrefixOfAppend(a, b, n);
      var all := a + b;
      assert |all| - 1 == |a| + n && all != [];
      assert Run(c, all) == Next(Run(c, all[..|a| + n]), all[|a| + n]);
      RunAppend(c, a, b[..n]);
    }
  }

  lemma CanFinish(c: Config, shapes: List<Tree>, root: Tree, s0: System) returns (steps: seq<Step>)
    requires Inv(c, shapes, root, s0)
    ensures Run(c, steps).stack.Nil?
    decreases Pending(c, shapes), Unentered(c.stack, shapes), Height(c.stack), TopStage(c), OuterLeft(c), InnerLeft(c)
  {
    if c.stack.Nil? {
      steps := [];
    } else {
      var unused := NumberAbove(c.sys.children.Keys);
      var step := Helpful(c, unused);
      var next := HelpfulCloser(c, shapes, root, s0, unused);
      var rest := CanFinish(Next(c, step), next, root, s0);
      RunCons(c, step, rest);
      steps := [step] + rest;
    }
  }

  lemma AppendTwice(a: seq<Step>, b: seq<Step>, step: Step)
    ensures (a + b) + [step] == a + (b + [step])
  {
  }

  /** Behind the walk, the handler's next step wakes the clone of the root. */
  lemma {:induction false} RootIsWoken(root: Tree, s: System, steps: seq<Step>)
    requires Forest(s) && Intact(root, s)
    ensures var c := Run(Start(root.pid, s), steps);
            c.stack.Nil? ==>
              && root.pid in c.clones
              && Run(Start(root.pid, s), steps + [Manager]) == c.(woken := [c.clones[root.pid]])
  {
    var shapes := RunKeeps(root, s, steps, map[]);
    PrefixOfAppend(steps, [Manager], 0);
    assert steps + [] == steps;
  }

  /** Whatever has happened so far, including failed forks, the walk can still be completed and
      the clone of the root woken. */
  lemma {:induction false} WalkIsNeverStuck(root: Tree, s: System, steps: seq<Step>)
    requires Forest(s) && Intact(root, s)
    ensures exists more :: Completed(root, Run(Start(root.pid, s), steps + more))
  {
    var shapes := RunKeeps(root, s, steps, map[]);
    var more := CanFinish(Run(Start(root.pid, s), steps), shapes, root, s);
    RunAppend(Start(root.pid, s), steps, more);
    RootIsWoken(root, s, steps + more);
    AppendTwice(steps, more, Manager);
    assert Completed(root, Run(Start(root.pid, s), steps + (more + [Manager])));
  }

  ghost predicate Completed(root: Tree, c: Config) {
    c.stack.Nil? && root.pid in c.clones && c.woken == [c.clones[root.pid]]
  }

  // ---------- every sequential walk is a run ----------

  /** A new task that `cl` names for the target does not exist yet. */
  lemma {:induction false} TargetIsFree(c: Config, shapes: List<Tree>, root: Tree, s0: System, cl: map<Pid, Pid>)
    requires Inv(c, shapes, root, s0) && FreshClones(Nodes(root), cl, s0) && Extends(cl, c.clones)
    requires c.probe.Idle? && c.target >= 0
    ensures c.target in cl && cl[c.target] !in c.sys.children
  {
    TargetWaits(c, shapes, root, s0);
  }

  lemma {:induction false} StepWith(c: Config, shapes: List<Tree>, root: Tree, s0: System, cl: map<Pid, Pid>)
    returns (step: Step, next: List<Tree>)
    requires OnTop(c, shapes, root, s0) && FreshClones(Nodes(root), cl, s0) && Extends(cl, c.clones)
    ensures Inv(Next(c, step), next, root, s0) && Extends(cl, Next(c, step).clones)
    ensures Closer(Next(c, step), next, c, shapes)
  {
    var unused := NumberAbove(c.sys.children.Keys);
    if c.probe.Idle? && c.target >= 0 {
      TargetIsFree(c, shapes, root, s0, cl);
      unused := cl[c.target];
    }
    step := Helpful(c, unused);
    next := HelpfulCloser(c, shapes, root, s0, unused);
    ClonesAfter(c, step);
  }

  lemma {:induction false} CanFinishWith(c: Config, shapes: List<Tree>, root: Tree, s0: System, cl: map<Pid, Pid>)
    returns (steps: seq<Step>)
    requires Inv(c, shapes, root, s0) && FreshClones(Nodes(root), cl, s0) && Extends(cl, c.clones)
    ensures Run(c, steps).stack.Nil? && Extends(cl, Run(c, steps).clones)
    decreases Pending(c, shapes), Unentered(c.stack, shapes), Height(c.stack), TopStage(c), OuterLeft(c), InnerLeft(c)
  {
    if c.stack.Nil? {
      steps := [];
    } else {
      var step, next := StepWith(c, shapes, root, s0, cl);
      var rest := CanFinishWith(Next(c, step), next, root, s0, cl);
      RunCons(c, step, rest);
      steps := [step] + rest;
    }
  }

  /** The state `c` at the end of a run that has made the clones `cl`. */
  ghost predicate EndsAs(root: Tree, s: System, cl: map<Pid, Pid>, c: Config) {
    && Completed(root, c) && c.clones.Keys == Nodes(root) && Extends(cl, c.clones)
    && c.sys == WalkTree(root, s, cl)
  }

  /** Every successful fork of the target is accepted: whatever clones the kernel has still to
      give, in whatever state, the walk can be completed with exactly these. */
  lemma {:induction false} EveryWalkIsARun(root: Tree, s: System, steps: seq<Step>, cl: map<Pid, Pid>)
    requires Forest(s) && Intact(root, s) && FreshClones(Nodes(root), cl, s)
    requires Extends(cl, Run(Start(root.pid, s), steps).clones)
    ensures exists more :: EndsAs(root, s, cl, Run(Start(root.pid, s), steps + more))
  {
    var shapes := RunKeeps(root, s, steps, map[]);
    var more := CanFinishWith(Run(Start(root.pid, s), steps), shapes, root, s, cl);
    RunAppend(Start(root.pid, s), steps, more);
    RootIsWoken(root, s, steps + more);
    AppendTwice(steps, more, Manager);
    var c := Run(Start(root.pid, s), steps + more);
    RunRefinesWalk(root, s, steps + more);
    WalkAgrees(root, s, c.clones, cl);
    assert EndsAs(root, s, cl, Run(Start(root.pid, s), steps + (more + [Manager])));
  }
}
