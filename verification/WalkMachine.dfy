/** Every interleaving of the manager that runs `dfs` with the probe on `schedule`.

    One `Manager` step is one statement of `dfs`; one `Schedule` step is the entry of some
    process into the probe, with the result the kernel gives to its fork; one `Probe` step is
    one later statement of the probe.  The manager's recursion is an explicit stack whose
    cursors are positions in the live children lists.
 */
module WalkMachine {
  import opened ProcessTree
  import opened WalkResult

  datatype List<T> = Nil | Cons(head: T, tail: List<T>)

  /** `Descending(i)`: at position `i` of the first loop.  `Waiting`: inside the wait.
      `Woken`: behind the wait.  `Rewiring(ci)`: at position `ci` of the outer of the last two
      loops.  `Moving(ci, gi)`: at position `gi` of the inner one. */
  datatype Phase = Descending(i: nat) | Waiting | Woken | Rewiring(ci: nat) | Moving(ci: nat, gi: nat)

  datatype Frame = Frame(pid: Pid, phase: Phase)

  /** How far the probe has come since its fork returned the task `q`. */
  datatype Probe = Idle | Forked(q: Pid) | Listed(q: Pid) | Published(q: Pid) | Cleared(q: Pid)

  /** `clones` is a history variable: which task each process has forked through the probe.
      `woken` are the tasks the handler has made runnable. */
  datatype Config = Config(
    sys: System, target: int, done: bool, probe: Probe,
    stack: List<Frame>, clones: map<Pid, Pid>, woken: seq<Pid>)

  datatype Step = Manager | Schedule(current: Pid, result: int) | Probe

  function Start(root: Pid, s: System): Config {
    Config(s, -1, false, Idle, Cons(Frame(root, Descending(0)), Nil), map[], [])
  }

  function Next(c: Config, step: Step): Config {
    match step
    case Manager => ManagerNext(c)
    case Schedule(current, result) => ScheduleNext(c, current, result)
    case Probe => ProbeNext(c)
  }

  /** A pid that is in use is never the result of a successful fork. */
  function ScheduleNext(c: Config, current: Pid, result: int): Config {
    if current != c.target || !c.probe.Idle? || result < 0 || result in c.sys.children then c
    else c.(sys := Born(c.sys, current, result), probe := Forked(result), clones := c.clones[current := result])
  }

  function ProbeNext(c: Config): Config {
    match c.probe
    case Idle => c
    case Forked(q) => c.(sys := AddToList(c.sys, q), probe := Listed(q))
    case Listed(q) => c.(sys := Publish(c.sys, q), probe := Published(q))
    case Published(q) => c.(target := -1, probe := Cleared(q))
    case Cleared(q) => c.(done := true, probe := Idle)
  }

  function ManagerNext(c: Config): Config {
    match c.stack
    case Nil => if c.woken == [] then c.(woken := [c.sys.pPrime]) else c
    case Cons(Frame(p, phase), rest) =>
      var kids := Kids(c.sys, p);
      match phase
      case Descending(i) =>
        if i < |kids| then
          c.(stack := Cons(Frame(kids[i], Descending(0)), Cons(Frame(p, Descending(i + 1)), rest)))
        else
          c.(target := p, stack := Cons(Frame(p, Waiting), rest))
      case Waiting => if c.done then c.(stack := Cons(Frame(p, Woken), rest)) else c
      case Woken => c.(done := false, stack := Cons(Frame(p, Rewiring(0)), rest))
      case Rewiring(ci) =>
        if ci < |kids| then
          c.(stack := Cons(Frame(p, if kids[ci] in c.sys.listed then Rewiring(ci + 1) else Moving(ci, 0)), rest))
        else
          c.(target := -1, stack := rest)
      case Moving(ci, gi) =>
        var gcs := if ci < |kids| then Kids(c.sys, kids[ci]) else [];
        if gi >= |gcs| then
          c.(stack := Cons(Frame(p, Rewiring(ci + 1)), rest))
        else if gcs[gi] in c.sys.listed then
          c.(sys := Reparent(c.sys, gcs[gi], c.sys.pPrime))
        else
          c.(stack := Cons(Frame(p, Moving(ci, gi + 1)), rest))
  }

  function Run(c: Config, steps: seq<Step>): Config
    decreases |steps|
  {
    if steps == [] then c else Next(Run(c, steps[..|steps| - 1]), steps[|steps| - 1])
  }

  // ---------- what remains to be done ----------

  function Drop(xs: seq<Pid>, n: nat): seq<Pid> {
    if n <= |xs| then xs[n..] else []
  }

  function DropTrees(ts: seq<Tree>, n: nat): seq<Tree> {
    if n <= |ts| then ts[n..] else []
  }

  /** The state once the fork the manager waits for is over. */
  function AfterFork(s: System, p: Pid, probe: Probe, done: bool, cl: map<Pid, Pid>): System {
    match probe
    case Idle => if done then s else Fork(s, p, CloneOf(cl, p))
    case Forked(q) => Publish(AddToList(s, q), q)
    case Listed(q) => Publish(s, q)
    case Published(_) => s
    case Cleared(_) => s
  }

  /** The state in which the call of `dfs` on top of the stack will return. */
  function FinishTop(f: Frame, t: Tree, c: Config, cl: map<Pid, Pid>): System {
    var s, p := c.sys, f.pid;
    match f.phase
    case Descending(i) => ForkAndRewire(WalkKids(DropTrees(t.kids, i), s, cl), p, CloneOf(cl, p))
    case Waiting => var s1 := AfterFork(s, p, c.probe, c.done, cl); Rewire(s1, Kids(s1, p))
    case Woken => Rewire(s, Kids(s, p))
    case Rewiring(ci) => Rewire(s, Drop(Kids(s, p), ci))
    case Moving(ci, gi) =>
      var kids := Kids(s, p);
      if ci < |kids| then Rewire(MoveListed(s, Drop(Kids(s, kids[ci]), gi)), kids[ci + 1..]) else s
  }

  /** The state in which the outermost call will return, once the calls above have left `s`. */
  function FinishBelow(stack: List<Frame>, shapes: List<Tree>, s: System, cl: map<Pid, Pid>): System
    decreases stack
  {
    match stack
    case Nil => s
    case Cons(f, rest) =>
      if shapes.Nil? || !f.phase.Descending? then s
      else
        var kidsDone := WalkKids(DropTrees(shapes.head.kids, f.phase.i), s, cl);
        FinishBelow(rest, shapes.tail, ForkAndRewire(kidsDone, f.pid, CloneOf(cl, f.pid)), cl)
  }

  function Finish(c: Config, shapes: List<Tree>, cl: map<Pid, Pid>): System {
    match c.stack
    case Nil => c.sys
    case Cons(f, rest) =>
      if shapes.Nil? then c.sys else FinishBelow(rest, shapes.tail, FinishTop(f, shapes.head, c, cl), cl)
  }

  // ---------- the invariant ----------

  /** The tasks that calls below the top have yet to fork; nothing touches their lists. */
  ghost function Frozen(stack: List<Frame>, shapes: List<Tree>): set<Pid>
    decreases stack
  {
    match stack
    case Nil => {}
    case Cons(f, rest) =>
      if shapes.Nil? || !f.phase.Descending? then {}
      else {f.pid} + NodesOf(DropTrees(shapes.head.kids, f.phase.i)) + Frozen(rest, shapes.tail)
  }

  ghost predicate FrameDescends(f: Frame, t: Tree, s: System) {
    && f.phase.Descending? && f.phase.i <= |t.kids|
    && f.pid in s.children && s.children[f.pid] == KidPids(t.kids)
    && IntactOf(t.kids[f.phase.i..], s)
  }

  /** `t` is a part of the original tree below `f.pid`. */
  ghost predicate ShapeOf(f: Frame, t: Tree, root: Tree, s0: System) {
    f.pid == t.pid && Distinct(t) && Intact(t, s0) && Nodes(t) <= Nodes(root)
  }

  /** The calls below the top: each is inside its first loop, at the tree `child` of the call above. */
  ghost predicate Below(stack: List<Frame>, shapes: List<Tree>, child: Tree, root: Tree, s: System, s0: System)
    decreases stack
  {
    match stack
    case Nil => shapes.Nil? && child == root
    case Cons(f, rest) =>
      && shapes.Cons? && ShapeOf(f, shapes.head, root, s0) && FrameDescends(f, shapes.head, s)
      && 0 < f.phase.i && shapes.head.kids[f.phase.i - 1] == child
      && Nodes(child) !! Frozen(stack, shapes)
      && Below(rest, shapes.tail, shapes.head, root, s, s0)
  }

  /** The clone of `p` exists and the list of `p` ends with it. */
  ghost predicate HasClone(p: Pid, t: Tree, c: Config) {
    && p in c.clones && p in c.sys.children && c.clones[p] in c.sys.children
    && c.sys.children[p] == KidPids(t.kids) + [c.clones[p]]
    && p in c.sys.rank && c.clones[p] in c.sys.rank
    && c.sys.rank[c.clones[p]] == c.sys.rank[p] + 1
  }

  ghost predicate CloneReady(p: Pid, t: Tree, c: Config) {
    HasClone(p, t, c) && c.sys.pPrime == c.clones[p] && c.clones[p] in c.sys.listed
  }

  ghost predicate TopOk(f: Frame, t: Tree, c: Config) {
    var quiet := c.target == -1 && c.probe.Idle?;
    match f.phase
    case Descending(i) => quiet && !c.done && FrameDescends(f, t, c.sys)
    case Waiting =>
      (match c.probe
       case Idle =>
         if c.done then c.target == -1 && CloneReady(f.pid, t, c)
         else c.target == f.pid && f.pid in c.sys.children && c.sys.children[f.pid] == KidPids(t.kids)
       case Forked(q) => c.target == f.pid && !c.done && HasClone(f.pid, t, c) && q == c.clones[f.pid]
       case Listed(q) => c.target == f.pid && !c.done && HasClone(f.pid, t, c) && q == c.clones[f.pid]
         && q in c.sys.listed
       case Published(q) => c.target == f.pid && !c.done && CloneReady(f.pid, t, c)
       case Cleared(q) => c.target == -1 && !c.done && CloneReady(f.pid, t, c))
    case Woken => quiet && c.done && CloneReady(f.pid, t, c)
    case Rewiring(ci) => quiet && !c.done && CloneReady(f.pid, t, c) && ci <= |t.kids| + 1
    case Moving(ci, gi) =>
      && quiet && !c.done && CloneReady(f.pid, t, c)
      && ci < |t.kids| && KidPids(t.kids)[ci] !in c.sys.listed
      && gi <= |Kids(c.sys, KidPids(t.kids)[ci])|
  }

  ghost function TopPending(f: Frame, t: Tree, c: Config): set<Pid> {
    match f.phase
    case Descending(i) => {f.pid} + NodesOf(DropTrees(t.kids, i))
    case Waiting => if c.probe.Idle? && !c.done then {f.pid} else {}
    case _ => {}
  }

  /** The tasks still to be forked. */
  ghost function Pending(c: Config, shapes: List<Tree>): set<Pid> {
    match c.stack
    case Nil => {}
    case Cons(f, rest) =>
      if shapes.Nil? then {} else TopPending(f, shapes.head, c) + Frozen(rest, shapes.tail)
  }

  /** Only tasks of the tree have been forked, each into a new task of its own. */
  ghost predicate CloneMap(clones: map<Pid, Pid>, tasks: set<Pid>, root: Tree, s0: System) {
    && clones.Keys <= Nodes(root)
    && FreshClones(clones.Keys, clones, s0)
    && tasks == s0.children.Keys + Images(clones.Keys, clones)
  }

  ghost predicate Inv(c: Config, shapes: List<Tree>, root: Tree, s0: System) {
    && Forest(c.sys)
    && CloneMap(c.clones, c.sys.children.Keys, root, s0)
    && c.clones.Keys == Nodes(root) - Pending(c, shapes)
    && Pending(c, shapes) <= Nodes(root)
    && match c.stack
       case Nil => c.target == -1 && !c.done && c.probe.Idle? && shapes.Nil?
                   && root.pid in c.clones && c.sys.pPrime == c.clones[root.pid]
                   && (c.woken == [] || c.woken == [c.clones[root.pid]])
       case Cons(f, rest) =>
         && c.woken == [] && shapes.Cons?
         && ShapeOf(f, shapes.head, root, s0) && TopOk(f, shapes.head, c)
         && Below(rest, shapes.tail, shapes.head, root, c.sys, s0)
         && Nodes(shapes.head) !! Frozen(rest, shapes.tail) && Nodes(root) <= s0.children.Keys
  }

  // ---------- shapes ----------

  /** What holds of all children holds of those from position `i` on. */
  lemma {:induction false} SuffixShapes(ts: seq<Tree>, i: nat, s: System)
    requires i <= |ts| && DistinctOf(ts) && IntactOf(ts, s)
    ensures DistinctOf(ts[i..]) && IntactOf(ts[i..], s) && NodesOf(ts[i..]) <= NodesOf(ts)
  {
    if i > 0 {
      assert ts[i..] == ts[1..][i - 1..];
      SuffixShapes(ts[1..], i - 1, s);
    } else {
      assert ts[0..] == ts;
    }
  }

  lemma {:induction false} ChildShape(t: Tree, i: nat, s: System)
    requires i < |t.kids| && Distinct(t) && Intact(t, s)
    ensures var k := t.kids[i];
            && Distinct(k) && Intact(k, s) && Nodes(k) <= Nodes(t)
            && Nodes(k) !! {t.pid} + NodesOf(t.kids[i + 1..])
            && NodesOf(t.kids[i..]) == Nodes(k) + NodesOf(t.kids[i + 1..])
            && NodesOf(t.kids[i..]) <= Nodes(t)
  {
    SuffixShapes(t.kids, i, s);
    SliceStep(t.kids, i);
  }

  lemma {:induction false} BelowFrame(stack: List<Frame>, shapes: List<Tree>, child: Tree, root: Tree, s: System,
                                      s1: System, s0: System)
    requires Below(stack, shapes, child, root, s, s0)
    requires forall u :: u in Frozen(stack, shapes) && u in s.children ==>
              u in s1.children && s1.children[u] == s.children[u]
    ensures Below(stack, shapes, child, root, s1, s0)
    decreases stack
  {
    match stack
    case Nil =>
    case Cons(f, rest) =>
      IntactFrame(shapes.head.kids[f.phase.i..], s, s1);
      BelowFrame(rest, shapes.tail, shapes.head, root, s, s1, s0);
  }

  /** Frozen tasks belong to the original tree. */
  lemma {:induction false} FrozenNodes(stack: List<Frame>, shapes: List<Tree>, child: Tree, root: Tree, s: System,
                                       s0: System)
    requires Below(stack, shapes, child, root, s, s0)
    ensures Frozen(stack, shapes) <= Nodes(root)
    decreases stack
  {
    match stack
    case Nil =>
    case Cons(f, rest) =>
      SuffixShapes(shapes.head.kids, f.phase.i, s0);
      FrozenNodes(rest, shapes.tail, shapes.head, root, s, s0);
  }

  // ---------- manager steps ----------

  ghost predicate OnTop(c: Config, shapes: List<Tree>, root: Tree, s0: System) {
    Inv(c, shapes, root, s0) && c.stack.Cons?
  }

  /** Calling `dfs` on the child under the cursor. */
  lemma DescendKeeps(c: Config, shapes: List<Tree>, root: Tree, s0: System, cl: map<Pid, Pid>)
    returns (next: List<Tree>)
    requires OnTop(c, shapes, root, s0)
    requires var f := c.stack.head; f.phase.Descending? && f.phase.i < |Kids(c.sys, f.pid)|
    ensures next == Cons(shapes.head.kids[c.stack.head.phase.i], shapes)
    ensures Inv(ManagerNext(c), next, root, s0)
    ensures Finish(ManagerNext(c), next, cl) == Finish(c, shapes, cl)
  {
    var f, t := c.stack.head, shapes.head;
    next := Cons(t.kids[f.phase.i], shapes);
    DescendInv(c, shapes, root, s0);
    DescendNext(c, shapes, root, s0);
    DescendSame(c, shapes, cl);
  }

  /** The configuration inside the new call. */
  lemma DescendNext(c: Config, shapes: List<Tree>, root: Tree, s0: System)
    requires OnTop(c, shapes, root, s0)
    requires var f := c.stack.head; f.phase.Descending? && f.phase.i < |shapes.head.kids|
    ensures ManagerNext(c) == Entered(c, shapes.head)
  {
    DescendShape(c.stack.head, shapes.head, root, c.sys, s0);
  }

  function Entered(c: Config, t: Tree): Config
    requires c.stack.Cons? && c.stack.head.phase.Descending? && c.stack.head.phase.i < |t.kids|
  {
    var f, rest := c.stack.head, c.stack.tail;
    var i := f.phase.i;
    c.(stack := Cons(Frame(t.kids[i].pid, Descending(0)), Cons(f.(phase := Descending(i + 1)), rest)))
  }

  lemma DescendSame(c: Config, shapes: List<Tree>, cl: map<Pid, Pid>)
    requires c.stack.Cons? && shapes.Cons?
    requires var f := c.stack.head; f.phase.Descending? && f.phase.i < |shapes.head.kids|
    ensures var k := shapes.head.kids[c.stack.head.phase.i];
            Finish(Entered(c, shapes.head), Cons(k, shapes), cl) == Finish(c, shapes, cl)
  {
    DescendFinish(c.stack.head, shapes.head, c.sys, cl);
  }

  lemma DescendInv(c: Config, shapes: List<Tree>, root: Tree, s0: System)
    requires OnTop(c, shapes, root, s0)
    requires var f := c.stack.head; f.phase.Descending? && f.phase.i < |shapes.head.kids|
    ensures Inv(ManagerNext(c), Cons(shapes.head.kids[c.stack.head.phase.i], shapes), root, s0)
  {
    var f, t := c.stack.head, shapes.head;
    DescendNext(c, shapes, root, s0);
    DescendShape(f, t, root, c.sys, s0);
    DescendBelow(f, t, c.stack.tail, shapes.tail, root, c.sys, s0);
    EnteredPending(c, shapes);
  }

  lemma {:induction false} EnteredPending(c: Config, shapes: List<Tree>)
    requires c.stack.Cons? && shapes.Cons?
    requires var f := c.stack.head; f.phase.Descending? && f.phase.i < |shapes.head.kids|
    requires var f, t, k := c.stack.head, shapes.head, shapes.head.kids[c.stack.head.phase.i];
             Nodes(k) + Frozen(Cons(f.(phase := Descending(f.phase.i + 1)), c.stack.tail), shapes)
             == {f.pid} + NodesOf(DropTrees(t.kids, f.phase.i)) + Frozen(c.stack.tail, shapes.tail)
    ensures Pending(Entered(c, shapes.head), Cons(shapes.head.kids[c.stack.head.phase.i], shapes)) == Pending(c, shapes)
  {
    var k := shapes.head.kids[c.stack.head.phase.i];
    assert DropTrees(k.kids, 0) == k.kids;
  }

  lemma DescendPending(c: Config, shapes: List<Tree>, root: Tree, s0: System)
    requires OnTop(c, shapes, root, s0)
    requires var f := c.stack.head; f.phase.Descending? && f.phase.i < |shapes.head.kids|
    ensures Pending(ManagerNext(c), Cons(shapes.head.kids[c.stack.head.phase.i], shapes)) == Pending(c, shapes)
  {
    DescendNext(c, shapes, root, s0);
    DescendBelow(c.stack.head, shapes.head, c.stack.tail, shapes.tail, root, c.sys, s0);
    EnteredPending(c, shapes);
  }

  lemma DescendShape(f: Frame, t: Tree, root: Tree, s: System, s0: System)
    requires ShapeOf(f, t, root, s0) && FrameDescends(f, t, s) && f.phase.i < |t.kids|
    ensures var k := t.kids[f.phase.i];
            && Kids(s, f.pid)[f.phase.i] == k.pid
            && ShapeOf(Frame(k.pid, Descending(0)), k, root, s0)
            && FrameDescends(Frame(k.pid, Descending(0)), k, s)
            && FrameDescends(f.(phase := Descending(f.phase.i + 1)), t, s)
            && DropTrees(k.kids, 0) == k.kids
  {
    var i := f.phase.i;
    KidPidAt(t.kids, i);
    ChildShape(t, i, s0);
    var ts, k := t.kids[i..], t.kids[i];
    assert ts[0] == k && ts[1..] == t.kids[i + 1..] && k.kids[0..] == k.kids;
    assert Intact(ts[0], s) && IntactOf(ts[1..], s);
  }

  lemma DescendBelow(f: Frame, t: Tree, rest: List<Frame>, shapes: List<Tree>, root: Tree, s: System, s0: System)
    requires ShapeOf(f, t, root, s0) && FrameDescends(f, t, s) && f.phase.i < |t.kids|
    requires Below(rest, shapes, t, root, s, s0) && Nodes(t) !! Frozen(rest, shapes)
    ensures var k := t.kids[f.phase.i];
            var stack := Cons(f.(phase := Descending(f.phase.i + 1)), rest);
            && Below(stack, Cons(t, shapes), k, root, s, s0)
            && Nodes(k) !! Frozen(stack, Cons(t, shapes))
            && Nodes(k) + Frozen(stack, Cons(t, shapes))
               == {f.pid} + NodesOf(DropTrees(t.kids, f.phase.i)) + Frozen(rest, shapes)
  {
    var i := f.phase.i;
    ChildShape(t, i, s0);
    DescendShape(f, t, root, s, s0);
  }

  lemma {:induction false} DescendFinish(f: Frame, t: Tree, s: System, cl: map<Pid, Pid>)
    requires f.phase.Descending? && f.phase.i < |t.kids|
    ensures var i, k := f.phase.i, t.kids[f.phase.i];
            && WalkKids(DropTrees(t.kids, i), s, cl) == WalkKids(DropTrees(t.kids, i + 1), WalkTree(k, s, cl), cl)
            && WalkTree(k, s, cl) == ForkAndRewire(WalkKids(DropTrees(k.kids, 0), s, cl), k.pid, CloneOf(cl, k.pid))
  {
    var i := f.phase.i;
    SliceStep(t.kids, i);
    assert t.kids[i].kids[0..] == t.kids[i].kids;
  }

  /** A step that changes nothing below the top of the stack. */
  lemma TopStep(c: Config, c1: Config, shapes: List<Tree>, root: Tree, s0: System, cl: map<Pid, Pid>)
    requires OnTop(c, shapes, root, s0) && c1.stack.Cons?
    requires c1 == c.(stack := Cons(c1.stack.head, c.stack.tail), target := c1.target, done := c1.done)
    requires c1.stack.head.pid == c.stack.head.pid
    requires TopOk(c1.stack.head, shapes.head, c1)
    requires TopPending(c1.stack.head, shapes.head, c1) == TopPending(c.stack.head, shapes.head, c)
    requires FinishTop(c1.stack.head, shapes.head, c1, cl) == FinishTop(c.stack.head, shapes.head, c, cl)
    ensures Inv(c1, shapes, root, s0)
    ensures Finish(c1, shapes, cl) == Finish(c, shapes, cl)
  {
    assert Pending(c1, shapes) == Pending(c, shapes);
  }

  /** The end of the first loop, and the two statements around the wait. */
  lemma WaitSteps(f: Frame, t: Tree, c: Config, cl: map<Pid, Pid>)
    requires c.stack.Cons? && c.stack.head == f && TopOk(f, t, c)
    requires f.phase.Descending? ==> f.phase.i == |t.kids|
    requires f.phase.Waiting? ==> c.done
    requires f.phase.Descending? || f.phase.Waiting? || f.phase.Woken?
    ensures var c1 := ManagerNext(c);
            && c1.stack.Cons?
            && TopOk(c1.stack.head, t, c1)
            && TopPending(c1.stack.head, t, c1) == TopPending(f, t, c)
            && FinishTop(c1.stack.head, t, c1, cl) == FinishTop(f, t, c, cl)
  {
    assert DropTrees(t.kids, |t.kids|) == [];
    assert Drop(Kids(c.sys, f.pid), 0) == Kids(c.sys, f.pid);
  }

  /** The steps of the last two loops that move nothing. */
  lemma OuterSteps(f: Frame, t: Tree, c: Config, cl: map<Pid, Pid>)
    requires c.stack.Cons? && c.stack.head == f && TopOk(f, t, c)
    requires f.phase.Rewiring? && f.phase.ci < |Kids(c.sys, f.pid)|
    ensures var c1 := ManagerNext(c);
            && c1.stack.Cons? && c1.sys == c.sys
            && TopOk(c1.stack.head, t, c1)
            && TopPending(c1.stack.head, t, c1) == TopPending(f, t, c)
            && FinishTop(c1.stack.head, t, c1, cl) == FinishTop(f, t, c, cl)
  {
    var kids, ci := Kids(c.sys, f.pid), f.phase.ci;
    assert kids[ci] == if ci < |t.kids| then KidPids(t.kids)[ci] else c.sys.pPrime;
    SliceStep(kids, ci);
    assert Drop(Kids(c.sys, kids[ci]), 0) == Kids(c.sys, kids[ci]);
  }

  lemma InnerSteps(f: Frame, t: Tree, c: Config, cl: map<Pid, Pid>)
    requires c.stack.Cons? && c.stack.head == f && TopOk(f, t, c)
    requires f.phase.Moving? && ManagerNext(c).sys == c.sys
    ensures var c1 := ManagerNext(c);
            && c1.stack.Cons? && c1.sys == c.sys
            && TopOk(c1.stack.head, t, c1)
            && TopPending(c1.stack.head, t, c1) == TopPending(f, t, c)
            && FinishTop(c1.stack.head, t, c1, cl) == FinishTop(f, t, c, cl)
  {
    var next := InnerNext(f, c);
    var c1 := c.(stack := Cons(f.(phase := next), c.stack.tail));
    assert ManagerNext(c) == c1;
    assert Kids(c.sys, f.pid)[f.phase.ci] == KidPids(t.kids)[f.phase.ci];
    if next.Moving? {
      MoveListedSkip(c.sys, Kids(c.sys, Kids(c.sys, f.pid)[f.phase.ci]), f.phase.gi);
    } else {
      InnerOver(f, t, c, cl);
    }
  }

  /** Where the cursor goes when it does not move the task under it. */
  lemma InnerNext(f: Frame, c: Config) returns (next: Phase)
    requires c.stack.Cons? && c.stack.head == f && f.phase.Moving? && ManagerNext(c).sys == c.sys
    requires f.phase.ci < |Kids(c.sys, f.pid)|
    ensures ManagerNext(c) == c.(stack := Cons(f.(phase := next), c.stack.tail))
    ensures var gcs := Kids(c.sys, Kids(c.sys, f.pid)[f.phase.ci]);
            if f.phase.gi < |gcs| then gcs[f.phase.gi] !in c.sys.listed && next == Moving(f.phase.ci, f.phase.gi + 1)
            else next == Rewiring(f.phase.ci + 1)
  {
    var gcs := Kids(c.sys, Kids(c.sys, f.pid)[f.phase.ci]);
    if f.phase.gi < |gcs| { ReparentCounts(c.sys, gcs[f.phase.gi], c.sys.pPrime); }
    next := if f.phase.gi < |gcs| then Moving(f.phase.ci, f.phase.gi + 1) else Rewiring(f.phase.ci + 1);
  }

  lemma InnerOver(f: Frame, t: Tree, c: Config, cl: map<Pid, Pid>)
    requires f.phase.Moving? && f.phase.ci < |Kids(c.sys, f.pid)|
    requires f.phase.gi >= |Kids(c.sys, Kids(c.sys, f.pid)[f.phase.ci])|
    ensures FinishTop(f.(phase := Rewiring(f.phase.ci + 1)), t, c, cl) == FinishTop(f, t, c, cl)
  {
    MoveListedOver(c.sys, Kids(c.sys, Kids(c.sys, f.pid)[f.phase.ci]), f.phase.gi);
  }

  lemma {:induction false} MoveListedSkip(s: System, gcs: seq<Pid>, gi: nat)
    requires gi < |gcs| && gcs[gi] !in s.listed
    ensures MoveListed(s, Drop(gcs, gi)) == MoveListed(s, Drop(gcs, gi + 1))
  {
    SliceStep(gcs, gi);
  }

  lemma {:induction false} MoveListedOver(s: System, gcs: seq<Pid>, gi: nat)
    requires gi >= |gcs|
    ensures MoveListed(s, Drop(gcs, gi)) == s
  {
    assert Drop(gcs, gi) == [];
  }

  /** The return from `dfs` into the call below. */
  lemma ReturnKeeps(c: Config, shapes: List<Tree>, root: Tree, s0: System, cl: map<Pid, Pid>)
    requires OnTop(c, shapes, root, s0)
    requires var f := c.stack.head; f.phase.Rewiring? && f.phase.ci >= |Kids(c.sys, f.pid)|
    ensures Inv(ManagerNext(c), shapes.tail, root, s0)
    ensures Finish(ManagerNext(c), shapes.tail, cl) == Finish(c, shapes, cl)
  {
    ReturnInv(c, shapes, root, s0);
    assert Drop(Kids(c.sys, c.stack.head.pid), c.stack.head.phase.ci) == [];
  }

  lemma ReturnInv(c: Config, shapes: List<Tree>, root: Tree, s0: System)
    requires OnTop(c, shapes, root, s0)
    requires var f := c.stack.head; f.phase.Rewiring? && f.phase.ci >= |Kids(c.sys, f.pid)|
    ensures Inv(ManagerNext(c), shapes.tail, root, s0)
  {
    var c1 := c.(target := -1, stack := c.stack.tail);
    assert ManagerNext(c) == c1;
    assert Pending(c1, shapes.tail) == Pending(c, shapes);
  }

  // ---------- steps that change the forest ----------

  /** The task under the cursor of the inner loop leaves the list of the child `k`. */
  lemma MoveEffect(f: Frame, t: Tree, c: Config, k: Pid)
    requires c.stack.Cons? && c.stack.head == f && Forest(c.sys)
    requires f.phase.Moving? && TopOk(f, t, c) && ManagerNext(c).sys != c.sys
    requires k == KidPids(t.kids)[f.phase.ci]
    ensures var s, gcs, gi := c.sys, Kids(c.sys, k), f.phase.gi;
            && f.phase.ci < |Kids(s, f.pid)| && Kids(s, f.pid)[f.phase.ci] == k && k in s.children && k != f.pid
            && gi < |gcs| && gcs[gi] in s.listed
            && ManagerNext(c) == c.(sys := Reparent(s, gcs[gi], s.pPrime))
            && MovedFrom(s, ManagerNext(c).sys, k, gcs[..gi], gcs[gi + 1..])
  {
    var s, gcs, gi := c.sys, Kids(c.sys, k), f.phase.gi;
    RewireApplies(s, f.pid, s.pPrime);
    assert k in s.children[f.pid];
    SplitAt(gcs, gi);
    MoveOne(s, k, gcs[..gi], gcs[gi], gcs[gi + 1..]);
  }

  /** `reparent` has taken one task out of the list of `k`, from behind `kept`. */
  ghost predicate MovedFrom(s: System, s1: System, k: Pid, kept: seq<Pid>, rest: seq<Pid>) {
    && Forest(s1) && SameElsewhere(s, s1, {k, s.pPrime})
    && Kids(s1, k) == kept + rest && k != s.pPrime
  }

  /** A `reparent` of the inner loop, seen from the call on top. */
  lemma MoveTop(f: Frame, t: Tree, c: Config, cl: map<Pid, Pid>)
    requires c.stack.Cons? && c.stack.head == f && Forest(c.sys)
    requires f.phase.Moving? && TopOk(f, t, c) && ManagerNext(c).sys != c.sys
    ensures var c1 := ManagerNext(c);
            && c1 == c.(sys := c1.sys)
            && Forest(c1.sys)
            && SameElsewhere(c.sys, c1.sys, {KidPids(t.kids)[f.phase.ci], c.sys.pPrime})
            && TopOk(f, t, c1)
            && FinishTop(f, t, c1, cl) == FinishTop(f, t, c, cl)
  {
    var k := KidPids(t.kids)[f.phase.ci];
    MoveEffect(f, t, c, k);
    MoveTopOk(f, t, c, ManagerNext(c), k);
    MoveTopFinish(f, t, c, ManagerNext(c), k, cl);
  }

  lemma MoveTopOk(f: Frame, t: Tree, c: Config, c1: Config, k: Pid)
    requires f.phase.Moving? && TopOk(f, t, c) && k == KidPids(t.kids)[f.phase.ci] && k != f.pid
    requires c1 == c.(sys := c1.sys) && f.pid != c.sys.pPrime
    requires var gcs := Kids(c.sys, k);
             && f.phase.gi < |gcs|
             && MovedFrom(c.sys, c1.sys, k, gcs[..f.phase.gi], gcs[f.phase.gi + 1..])
    ensures TopOk(f, t, c1) && c1.sys.children[f.pid] == c.sys.children[f.pid]
  {
  }

  lemma MoveTopFinish(f: Frame, t: Tree, c: Config, c1: Config, k: Pid, cl: map<Pid, Pid>)
    requires f.phase.Moving? && f.pid in c.sys.children && f.phase.ci < |Kids(c.sys, f.pid)|
             && k == Kids(c.sys, f.pid)[f.phase.ci]
    requires var gcs, gi := Kids(c.sys, k), f.phase.gi;
             && gi < |gcs| && gcs[gi] in c.sys.listed
             && c1 == c.(sys := Reparent(c.sys, gcs[gi], c.sys.pPrime))
             && MovedFrom(c.sys, c1.sys, k, gcs[..gi], gcs[gi + 1..])
    requires Kids(c1.sys, f.pid) == Kids(c.sys, f.pid)
    ensures FinishTop(f, t, c1, cl) == FinishTop(f, t, c, cl)
  {
    var gcs, gi := Kids(c.sys, k), f.phase.gi;
    SliceStep(gcs, gi);
    DropMoved(gcs[..gi], gcs[gi + 1..], gi);
  }

  lemma DropMoved(kept: seq<Pid>, rest: seq<Pid>, gi: nat)
    requires |kept| == gi
    ensures Drop(kept + rest, gi) == rest
  {
  }

  /** The calls below the top do not care about the two lists a `reparent` changes. */
  lemma MovesAbove(c: Config, shapes: List<Tree>, root: Tree, s0: System)
    requires OnTop(c, shapes, root, s0) && c.stack.head.phase.Moving?
    ensures KidPids(shapes.head.kids)[c.stack.head.phase.ci] !in Frozen(c.stack.tail, shapes.tail)
    ensures c.sys.pPrime !in Frozen(c.stack.tail, shapes.tail)
  {
    var t := shapes.head;
    KidPidAt(t.kids, c.stack.head.phase.ci);
    NodesOfRoots(t.kids);
    FrozenNodes(c.stack.tail, shapes.tail, t, root, c.sys, s0);
  }

  lemma MoveInv(c: Config, shapes: List<Tree>, root: Tree, s0: System)
    requires OnTop(c, shapes, root, s0)
    requires c.stack.head.phase.Moving? && ManagerNext(c).sys != c.sys
    ensures Inv(ManagerNext(c), shapes, root, s0)
  {
    MoveTop(c.stack.head, shapes.head, c, map[]);
    MovesAbove(c, shapes, root, s0);
    MoveBelow(c, ManagerNext(c), shapes, root, s0, KidPids(shapes.head.kids)[c.stack.head.phase.ci]);
  }

  lemma MoveBelow(c: Config, c1: Config, shapes: List<Tree>, root: Tree, s0: System, k: Pid)
    requires OnTop(c, shapes, root, s0) && c.stack.head.phase.Moving?
    requires c1 == c.(sys := c1.sys) && Forest(c1.sys) && TopOk(c.stack.head, shapes.head, c1)
    requires SameElsewhere(c.sys, c1.sys, {k, c.sys.pPrime})
    requires k !in Frozen(c.stack.tail, shapes.tail) && c.sys.pPrime !in Frozen(c.stack.tail, shapes.tail)
    ensures Inv(c1, shapes, root, s0)
  {
    BelowFrame(c.stack.tail, shapes.tail, shapes.head, root, c.sys, c1.sys, s0);
    SamePending(c, c1, shapes);
  }

  lemma SamePending(c: Config, c1: Config, shapes: List<Tree>)
    requires c.stack.Cons? && c1.stack == c.stack && c1.stack.head.phase.Moving?
    ensures Pending(c1, shapes) == Pending(c, shapes)
  {
  }

  lemma MoveFinish(c: Config, shapes: List<Tree>, root: Tree, s0: System, cl: map<Pid, Pid>)
    requires OnTop(c, shapes, root, s0)
    requires c.stack.head.phase.Moving? && ManagerNext(c).sys != c.sys
    ensures Finish(ManagerNext(c), shapes, cl) == Finish(c, shapes, cl)
  {
    MoveTop(c.stack.head, shapes.head, c, cl);
  }

  lemma {:induction false} CloneMapGrows(clones: map<Pid, Pid>, tasks: set<Pid>, root: Tree, s0: System,
                                         p: Pid, q: Pid)
    requires CloneMap(clones, tasks, root, s0) && p in Nodes(root) && p !in clones && q !in tasks && p in tasks
    ensures CloneMap(clones[p := q], tasks + {q}, root, s0)
  {
    var m := clones[p := q];
    forall x | x in clones ensures m[x] == clones[x] && m[x] != q {
      assert CloneOf(clones, x) in Images(clones.Keys, clones);
    }
    assert Images(m.Keys, m) == Images(clones.Keys, clones) + {q} by {
      forall x | x in clones ensures CloneOf(m, x) == CloneOf(clones, x) {}
      assert CloneOf(m, p) == q;
    }
  }

  /** A fork that takes effect: the process that schedules is the target, and the call on top
      of the stack is waiting for it. */
  lemma {:induction false} ForkHits(c: Config, shapes: List<Tree>, root: Tree, s0: System, current: Pid, result: int)
    requires Inv(c, shapes, root, s0) && ScheduleNext(c, current, result) != c
    ensures c.stack.Cons? && c.stack.head == Frame(current, Waiting) && c.probe.Idle? && !c.done && c.target == current
    ensures shapes.head.pid == current && current in c.sys.children
    ensures c.sys.children[current] == KidPids(shapes.head.kids)
    ensures TopPending(c.stack.head, shapes.head, c) == {current}
    ensures current !in c.clones && current in Nodes(root)
    ensures 0 <= result && result !in c.sys.children
    ensures ScheduleNext(c, current, result)
            == c.(sys := Born(c.sys, current, result), probe := Forked(result), clones := c.clones[current := result])
  {
    TargetWaits(c, shapes, root, s0);
  }

  /** A target that nobody has met yet is the task of the call on top. */
  lemma {:induction false} TargetWaits(c: Config, shapes: List<Tree>, root: Tree, s0: System)
    requires Inv(c, shapes, root, s0) && c.target >= 0 && c.probe.Idle?
    ensures c.stack.Cons? && c.stack.head == Frame(c.target, Waiting) && !c.done
    ensures shapes.head.pid == c.target && c.target in c.sys.children
    ensures c.sys.children[c.target] == KidPids(shapes.head.kids)
    ensures TopPending(c.stack.head, shapes.head, c) == {c.target as Pid}
    ensures c.target !in c.clones && c.target in Nodes(root)
  {
    assert c.target in TopPending(c.stack.head, shapes.head, c);
  }

  /** The same fork, seen from the call on top. */
  lemma ForkTop(f: Frame, t: Tree, c: Config, q: Pid)
    requires f == Frame(t.pid, Waiting) && TopOk(f, t, c) && c.probe.Idle? && !c.done
    requires c.sys.rank.Keys == c.sys.children.Keys && q !in c.sys.children
    ensures var c1 := c.(sys := Born(c.sys, t.pid, q), probe := Forked(q), clones := c.clones[t.pid := q]);
            TopOk(f, t, c1) && TopPending(f, t, c1) == {}
  {
  }

  lemma {:induction false} ForkKeeps(c: Config, shapes: List<Tree>, root: Tree, s0: System, current: Pid,
                                     result: int, cl: map<Pid, Pid>)
    requires Inv(c, shapes, root, s0) && ScheduleNext(c, current, result) != c
    ensures c.stack.Cons? && c.stack.head == Frame(current, Waiting) && current !in c.clones && current in Nodes(root)
    ensures Inv(ScheduleNext(c, current, result), shapes, root, s0)
    ensures Extends(cl, ScheduleNext(c, current, result).clones)
            ==> Finish(ScheduleNext(c, current, result), shapes, cl) == Finish(c, shapes, cl)
  {
    ForkHits(c, shapes, root, s0, current, result);
    ForkInv(c, shapes, root, s0, current, result);
    if Extends(cl, ScheduleNext(c, current, result).clones) { ForkFinish(c, shapes, current, result, cl); }
  }

  lemma ForkInv(c: Config, shapes: List<Tree>, root: Tree, s0: System, current: Pid, result: int)
    requires Inv(c, shapes, root, s0) && ScheduleNext(c, current, result) != c
    ensures Inv(ScheduleNext(c, current, result), shapes, root, s0)
  {
    ForkHits(c, shapes, root, s0, current, result);
    ForkInvAt(c, shapes, root, s0, current, result);
  }

  lemma {:induction false} ForkInvAt(c: Config, shapes: List<Tree>, root: Tree, s0: System, p: Pid, q: Pid)
    requires OnTop(c, shapes, root, s0) && c.stack.head == Frame(p, Waiting) && shapes.head.pid == p
    requires c.probe.Idle? && !c.done && p in c.sys.children && q !in c.sys.children
    requires p !in c.clones && p in Nodes(root) && TopPending(c.stack.head, shapes.head, c) == {p}
    ensures Inv(c.(sys := Born(c.sys, p, q), probe := Forked(q), clones := c.clones[p := q]), shapes, root, s0)
  {
    var c1 := c.(sys := Born(c.sys, p, q), probe := Forked(q), clones := c.clones[p := q]);
    ForkTop(c.stack.head, shapes.head, c, q);
    ForkKeepsForest(c.sys, p, q);
    CloneMapGrows(c.clones, c.sys.children.Keys, root, s0, p, q);
    BornApart(c.sys, p, q);
    assert p in Nodes(shapes.head);
    ForkBelow(c, c1, shapes, root, s0, p);
  }

  lemma ForkFinish(c: Config, shapes: List<Tree>, p: Pid, q: Pid, cl: map<Pid, Pid>)
    requires c.stack.Cons? && shapes.Cons? && c.stack.head == Frame(p, Waiting) && shapes.head.pid == p
    requires c.probe.Idle? && !c.done && CloneOf(cl, p) == q
    ensures var c1 := c.(sys := Born(c.sys, p, q), probe := Forked(q), clones := c.clones[p := q]);
            Finish(c1, shapes, cl) == Finish(c, shapes, cl)
  {
  }

  lemma BornApart(s: System, p: Pid, q: Pid)
    requires q !in s.children
    ensures var s1 := Born(s, p, q);
            && (p in s.children ==> s1.children.Keys == s.children.Keys + {q})
            && forall u :: u in s.children && u != p ==> u in s1.children && s1.children[u] == s.children[u]
  {
  }

  lemma ForkBelow(c: Config, c1: Config, shapes: List<Tree>, root: Tree, s0: System, current: Pid)
    requires OnTop(c, shapes, root, s0)
    requires TopPending(c.stack.head, shapes.head, c) == {current} && current in Nodes(shapes.head)
    requires c1 == c.(sys := c1.sys, probe := c1.probe, clones := c1.clones)
    requires c1.clones.Keys == c.clones.Keys + {current} && Forest(c1.sys)
    requires CloneMap(c1.clones, c1.sys.children.Keys, root, s0)
    requires forall u :: u in c.sys.children && u != current ==>
              u in c1.sys.children && c1.sys.children[u] == c.sys.children[u]
    requires TopOk(c.stack.head, shapes.head, c1) && TopPending(c.stack.head, shapes.head, c1) == {}
    ensures Inv(c1, shapes, root, s0)
  {
    BelowFrame(c.stack.tail, shapes.tail, shapes.head, root, c.sys, c1.sys, s0);
    assert current in Nodes(root) && current !in Frozen(c.stack.tail, shapes.tail);
    ForkPending(c, c1, shapes, Nodes(root), current);
  }

  lemma ForkPending(c: Config, c1: Config, shapes: List<Tree>, all: set<Pid>, p: Pid)
    requires c.stack.Cons? && shapes.Cons? && c1.stack == c.stack
    requires TopPending(c.stack.head, shapes.head, c) == {p} && TopPending(c.stack.head, shapes.head, c1) == {}
    requires p in all && p !in Frozen(c.stack.tail, shapes.tail)
    requires c.clones.Keys == all - Pending(c, shapes) && Pending(c, shapes) <= all
    requires c1.clones.Keys == c.clones.Keys + {p}
    ensures c1.clones.Keys == all - Pending(c1, shapes) && Pending(c1, shapes) <= all
  {
    OneLess(c.clones.Keys, all, p, Frozen(c.stack.tail, shapes.tail));
    assert Pending(c1, shapes) == Frozen(c.stack.tail, shapes.tail);
  }

  lemma OneLess(done: set<Pid>, all: set<Pid>, p: Pid, rest: set<Pid>)
    requires done == all - ({p} + rest) && p in all && p !in rest
    ensures done + {p} == all - rest
  {
  }

  /** One later statement of the probe, seen from the call on top. */
  lemma ProbeTop(f: Frame, t: Tree, c: Config, cl: map<Pid, Pid>)
    requires TopOk(f, t, c) && !c.probe.Idle?
    ensures TopOk(f, t, ProbeNext(c))
    ensures TopPending(f, t, ProbeNext(c)) == TopPending(f, t, c)
    ensures FinishTop(f, t, ProbeNext(c), cl) == FinishTop(f, t, c, cl)
  {
  }

  lemma ProbeKeeps(c: Config, shapes: List<Tree>, root: Tree, s0: System, cl: map<Pid, Pid>)
    requires Inv(c, shapes, root, s0)
    ensures Inv(ProbeNext(c), shapes, root, s0)
    ensures Finish(ProbeNext(c), shapes, cl) == Finish(c, shapes, cl)
  {
    if !c.probe.Idle? {
      ProbeTop(c.stack.head, shapes.head, c, cl);
      ProbeStep(c, ProbeNext(c), shapes, root, s0, cl);
    }
  }

  lemma ProbeStep(c: Config, c1: Config, shapes: List<Tree>, root: Tree, s0: System, cl: map<Pid, Pid>)
    requires OnTop(c, shapes, root, s0)
    requires c1 == c.(sys := c1.sys, target := c1.target, done := c1.done, probe := c1.probe)
    requires c1.sys == c.sys.(listed := c1.sys.listed, pPrime := c1.sys.pPrime)
    requires TopOk(c.stack.head, shapes.head, c1)
    requires TopPending(c.stack.head, shapes.head, c1) == TopPending(c.stack.head, shapes.head, c)
    requires FinishTop(c.stack.head, shapes.head, c1, cl) == FinishTop(c.stack.head, shapes.head, c, cl)
    ensures Inv(c1, shapes, root, s0)
    ensures Finish(c1, shapes, cl) == Finish(c, shapes, cl)
  {
    ForestOf(c.sys, c1.sys);
    BelowFrame(c.stack.tail, shapes.tail, shapes.head, root, c.sys, c1.sys, s0);
    assert Pending(c1, shapes) == Pending(c, shapes);
  }

  lemma ForestOf(s: System, s1: System)
    requires Forest(s) && s1.children == s.children && s1.parent == s.parent && s1.rank == s.rank
    ensures Forest(s1)
  {
    forall c | c in s1.parent ensures UpLink(s1, c) { assert UpLink(s, c); }
    forall p | p in s1.children ensures DownLinks(s1, p) { assert DownLinks(s, p); }
  }

  /** The manager steps that leave the forest and the calls below alone. */
  ghost predicate Quiet(c: Config) {
    && c.stack.Cons? && ManagerNext(c).sys == c.sys
    && var f := c.stack.head;
       && (f.phase.Descending? ==> f.phase.i >= |Kids(c.sys, f.pid)|)
       && (f.phase.Rewiring? ==> f.phase.ci < |Kids(c.sys, f.pid)|)
       && (f.phase.Waiting? ==> c.done)
  }

  lemma QuietTop(f: Frame, t: Tree, c: Config, cl: map<Pid, Pid>)
    requires Quiet(c) && c.stack.head == f && TopOk(f, t, c)
    ensures var c1 := ManagerNext(c);
            && c1.stack.Cons? && c1.stack.head.pid == f.pid
            && c1 == c.(stack := Cons(c1.stack.head, c.stack.tail), target := c1.target, done := c1.done)
            && TopOk(c1.stack.head, t, c1)
            && TopPending(c1.stack.head, t, c1) == TopPending(f, t, c)
            && FinishTop(c1.stack.head, t, c1, cl) == FinishTop(f, t, c, cl)
  {
    if f.phase.Rewiring? {
      OuterSteps(f, t, c, cl);
    } else if f.phase.Moving? {
      InnerSteps(f, t, c, cl);
    } else {
      WaitSteps(f, t, c, cl);
    }
  }

  lemma ManagerKeeps(c: Config, shapes: List<Tree>, root: Tree, s0: System, cl: map<Pid, Pid>)
    returns (next: List<Tree>)
    requires OnTop(c, shapes, root, s0)
    ensures Inv(ManagerNext(c), next, root, s0)
    ensures Finish(ManagerNext(c), next, cl) == Finish(c, shapes, cl)
  {
    next := shapes;
    var f, n := c.stack.head, |Kids(c.sys, c.stack.head.pid)|;
    if f.phase.Descending? && f.phase.i < n {
      next := DescendKeeps(c, shapes, root, s0, cl);
    } else if f.phase.Rewiring? && f.phase.ci >= n {
      next := shapes.tail;
      ReturnKeeps(c, shapes, root, s0, cl);
    } else if f.phase.Waiting? && !c.done {
      assert ManagerNext(c) == c;
    } else if ManagerNext(c).sys != c.sys {
      MoveInv(c, shapes, root, s0);
      MoveFinish(c, shapes, root, s0, cl);
    } else {
      QuietTop(f, shapes.head, c, cl);
      TopStep(c, ManagerNext(c), shapes, root, s0, cl);
    }
  }

  /** The handler's step after the walk. */
  lemma HandlerKeeps(c: Config, shapes: List<Tree>, root: Tree, s0: System, cl: map<Pid, Pid>)
    requires Inv(c, shapes, root, s0) && c.stack.Nil?
    ensures Inv(ManagerNext(c), shapes, root, s0)
    ensures Finish(ManagerNext(c), shapes, cl) == Finish(c, shapes, cl)
  {
  }

  /** Only an effective entry into the probe adds to `clones`. */
  lemma ClonesAfter(c: Config, step: Step)
    ensures Next(c, step).clones == c.clones
            || (step.Schedule? && ScheduleNext(c, step.current, step.result) != c
                && Next(c, step).clones == c.clones[step.current := step.result])
  {
    match step
    case Manager => match c.stack { case Nil => case Cons(Frame(p, phase), rest) => }
    case Probe =>
    case Schedule(current, result) =>
  }

  lemma ClonesGrow(c: Config, shapes: List<Tree>, root: Tree, s0: System, step: Step)
    requires Inv(c, shapes, root, s0)
    ensures Extends(Next(c, step).clones, c.clones)
  {
    ClonesAfter(c, step);
    if Next(c, step).clones != c.clones { ForkKeeps(c, shapes, root, s0, step.current, step.result, map[]); }
  }

  lemma NextKeeps(c: Config, step: Step, shapes: List<Tree>, root: Tree, s0: System, cl: map<Pid, Pid>)
    returns (next: List<Tree>)
    requires Inv(c, shapes, root, s0)
    ensures Inv(Next(c, step), next, root, s0)
    ensures Extends(cl, Next(c, step).clones) ==> Finish(Next(c, step), next, cl) == Finish(c, shapes, cl)
  {
    next := shapes;
    match step
    case Manager =>
      if c.stack.Cons? {
        next := ManagerKeeps(c, shapes, root, s0, cl);
      } else {
        HandlerKeeps(c, shapes, root, s0, cl);
      }
    case Schedule(current, result) =>
      if ScheduleNext(c, current, result) != c { ForkKeeps(c, shapes, root, s0, current, result, cl); }
    case Probe => ProbeKeeps(c, shapes, root, s0, cl);
  }

  lemma {:induction false} StartInv(root: Tree, s: System, cl: map<Pid, Pid>)
    requires Forest(s) && Intact(root, s)
    ensures Inv(Start(root.pid, s), Cons(root, Nil), root, s)
    ensures Finish(Start(root.pid, s), Cons(root, Nil), cl) == WalkTree(root, s, cl)
  {
    TreesAreDistinct(root, s);
    IntactNodes([root], s);
    assert root.kids[0..] == root.kids;
    assert Pending(Start(root.pid, s), Cons(root, Nil)) == Nodes(root);
  }

  lemma RunKeeps(root: Tree, s: System, steps: seq<Step>, cl: map<Pid, Pid>)
    returns (shapes: List<Tree>)
    requires Forest(s) && Intact(root, s)
    ensures var c := Run(Start(root.pid, s), steps);
            && Inv(c, shapes, root, s)
            && (Extends(cl, c.clones) ==> Finish(c, shapes, cl) == WalkTree(root, s, cl))
    decreases |steps|
  {
    if steps == [] {
      shapes := Cons(root, Nil);
      StartInv(root, s, cl);
    } else {
      var n := |steps| - 1;
      var before := RunKeeps(root, s, steps[..n], cl);
      ClonesGrow(Run(Start(root.pid, s), steps[..n]), before, root, s, steps[n]);
      shapes := NextKeeps(Run(Start(root.pid, s), steps[..n]), steps[n], before, root, s, cl);
    }
  }

  // ---------- main results ----------

  /** Every interleaving that lets `dfs` return ends in the state of the sequential walk with
      atomic forks, and every task of the tree has been forked, each into a fresh task. */
  lemma {:induction false} RunRefinesWalk(root: Tree, s: System, steps: seq<Step>)
    requires Forest(s) && Intact(root, s)
    ensures var c := Run(Start(root.pid, s), steps);
            c.stack.Nil? ==>
              && c.sys == WalkTree(root, s, c.clones)
              && c.clones.Keys == Nodes(root)
              && FreshClones(Nodes(root), c.clones, s)
  {
    var c := Run(Start(root.pid, s), steps);
    var shapes := RunKeeps(root, s, steps, c.clones);
  }

  /** For every interleaving in which `dfs` returns: it leaves a copy of the tree if and only
      if no task of the tree but the root was listed at the start. */
  lemma {:induction false} RunCopiesTree(root: Tree, s: System, steps: seq<Step>, c: Config)
    requires Forest(s) && Intact(root, s)
    requires c == Run(Start(root.pid, s), steps) && c.stack.Nil?
    ensures NoneListed(NodesOf(root.kids), s.listed) <==> IsCopy(root, s, c.sys, c.clones)
  {
    RunRefinesWalk(root, s, steps);
    CopiesExactlyWhenNoneListed(root, s, c.clones, c.sys);
  }

  /** In every reachable state: the tasks form a forest, the only new tasks are clones of tasks
      of the tree, a target is announced only while `done` is false, `done` means that `p_prime`
      is the clone of the process waited for, and nothing is woken before the walk is over. */
  lemma {:induction false} RunIsSafe(root: Tree, s: System, steps: seq<Step>)
    requires Forest(s) && Intact(root, s)
    ensures var c := Run(Start(root.pid, s), steps);
            && Forest(c.sys)
            && c.clones.Keys <= Nodes(root) && FreshClones(c.clones.Keys, c.clones, s)
            && c.sys.children.Keys == s.children.Keys + Images(c.clones.Keys, c.clones)
            && !(c.target != -1 && c.done)
            && (c.target != -1 ==> c.stack.Cons? && c.stack.head.pid == c.target && c.stack.head.phase.Waiting?)
            && (c.done ==> c.stack.Cons? && c.stack.head.pid in c.clones && c.sys.pPrime == c.clones[c.stack.head.pid])
            && (c.woken != [] ==> c.stack.Nil? && root.pid in c.clones && c.woken == [c.clones[root.pid]])
  {
    var shapes := RunKeeps(root, s, steps, map[]);
  }

  /** A step forks at most one task: the target, which was never forked before; any step
      leaves all earlier clones as they are. */
  lemma {:induction false} StepForksTargetOnce(root: Tree, s: System, steps: seq<Step>, step: Step)
    requires Forest(s) && Intact(root, s)
    ensures var c := Run(Start(root.pid, s), steps);
            var c1 := Next(c, step);
            (c1.clones != c.clones || c1.sys.children.Keys != c.sys.children.Keys) ==>
              && step.Schedule? && step.current == c.target && step.current in Nodes(root) && step.current !in c.clones
              && 0 <= step.result && step.result !in c.sys.children
              && c1.clones == c.clones[step.current := step.result]
              && c1.sys.children.Keys == c.sys.children.Keys + {step.result}
  {
    var c := Run(Start(root.pid, s), steps);
    var shapes := RunKeeps(root, s, steps, map[]);
    StepForks(c, step, shapes, root, s);
  }

  lemma {:induction false} StepForks(c: Config, step: Step, shapes: List<Tree>, root: Tree, s0: System)
    requires Inv(c, shapes, root, s0)
    ensures var c1 := Next(c, step);
            (c1.clones != c.clones || c1.sys.children.Keys != c.sys.children.Keys) ==>
              && step.Schedule? && step.current == c.target && step.current in Nodes(root) && step.current !in c.clones
              && 0 <= step.result && step.result !in c.sys.children
              && c1.clones == c.clones[step.current := step.result]
              && c1.sys.children.Keys == c.sys.children.Keys + {step.result}
  {
    var next := NextKeeps(c, step, shapes, root, s0, map[]);
    ClonesAfter(c, step);
    if step.Schedule? && ScheduleNext(c, step.current, step.result) != c {
      ScheduleForks(c, shapes, root, s0, step.current, step.result);
    } else {
      TasksOf(c, Next(c, step), root, s0, shapes, next);
    }
  }

  lemma {:induction false} ScheduleForks(c: Config, shapes: List<Tree>, root: Tree, s0: System, current: Pid,
                                         result: int)
    requires Inv(c, shapes, root, s0) && ScheduleNext(c, current, result) != c
    ensures current == c.target && 0 <= result && result !in c.sys.children
    ensures current !in c.clones && current in Nodes(root)
    ensures ScheduleNext(c, current, result).sys.children.Keys == c.sys.children.Keys + {result}
  {
    ForkHits(c, shapes, root, s0, current, result);
  }

  /** The same clones mean the same tasks. */
  lemma TasksOf(c: Config, c1: Config, root: Tree, s0: System, shapes: List<Tree>, next: List<Tree>)
    requires Inv(c, shapes, root, s0) && Inv(c1, next, root, s0) && c1.clones == c.clones
    ensures c1.sys.children.Keys == c.sys.children.Keys
  {
  }
}
