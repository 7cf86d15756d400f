/** Tasks, their children lists and the globals of the tree-clone module, as values.

    A task is named by its pid.  `System` is what `dfs` reads and writes: the kernel's
    children lists and parent links, `pid_list_head`, and `p_prime`.  `WalkTree` is the
    sequential walk with an atomic fork that both the imperative module and the
    interleaved machine are proved to follow.
 */
module ProcessTree {
  type Pid = nat

  /** The shape of a process tree: a task and the trees of its children, in list order. */
  datatype Tree = Node(pid: Pid, kids: seq<Tree>)

  /** `moves` counts calls of `reparent`; `rank` is a history variable that grows from
      parent to child and so witnesses that the parent links have no cycle. */
  datatype System = System(
    children: map<Pid, seq<Pid>>,
    parent: map<Pid, Pid>,
    listed: seq<Pid>,
    pPrime: Pid,
    rank: map<Pid, nat>,
    moves: nat)

  // ---------- sequences ----------

  lemma SliceStep<T>(xs: seq<T>, i: nat)
    requires i < |xs|
    ensures xs[i..] != [] && xs[i..][0] == xs[i] && xs[i..][1..] == xs[i + 1..]
  {
  }

  lemma SplitAt<T>(xs: seq<T>, i: nat)
    requires i < |xs|
    ensures xs == xs[..i] + ([xs[i]] + xs[i + 1..]) && xs[..i + 1] == xs[..i] + [xs[i]]
    ensures xs[i..] == [xs[i]] + xs[i + 1..]
  {
  }

  lemma HeadAndTail<T>(xs: seq<T>)
    requires xs != []
    ensures xs == [xs[0]] + xs[1..]
  {
  }

  lemma TailOfAppend<T>(a: seq<T>, b: seq<T>)
    requires a != []
    ensures (a + b)[0] == a[0] && (a + b)[1..] == a[1..] + b
  {
  }

  lemma PrefixOfAppend<T>(a: seq<T>, b: seq<T>, n: nat)
    requires n < |b|
    ensures (a + b)[..|a| + n] == a + b[..n] && (a + b)[|a| + n] == b[n]
  {
  }

  // ---------- shapes ----------

  function Nodes(t: Tree): set<Pid>
    decreases t, 1
  {
    {t.pid} + NodesOf(t.kids)
  }

  function NodesOf(ts: seq<Tree>): set<Pid>
    decreases ts, 0
  {
    if ts == [] then {} else Nodes(ts[0]) + NodesOf(ts[1..])
  }

  function PostOrder(t: Tree): seq<Pid>
    decreases t, 1
  {
    PostOrderOf(t.kids) + [t.pid]
  }

  function PostOrderOf(ts: seq<Tree>): seq<Pid>
    decreases ts, 0
  {
    if ts == [] then [] else PostOrder(ts[0]) + PostOrderOf(ts[1..])
  }

  function KidPids(ts: seq<Tree>): (r: seq<Pid>)
    ensures |r| == |ts|
    ensures ts != [] ==> r == [ts[0].pid] + KidPids(ts[1..])
  {
    if ts == [] then [] else [ts[0].pid] + KidPids(ts[1..])
  }

  /** No pid occurs twice in the shape. */
  ghost predicate Distinct(t: Tree)
    decreases t, 1
  {
    t.pid !in NodesOf(t.kids) && DistinctOf(t.kids)
  }

  ghost predicate DistinctOf(ts: seq<Tree>)
    decreases ts, 0
  {
    ts != [] ==> Distinct(ts[0]) && DistinctOf(ts[1..]) && Nodes(ts[0]) !! NodesOf(ts[1..])
  }

  // ---------- the forest of tasks ----------

  function Kids(s: System, p: Pid): seq<Pid> {
    if p in s.children then s.children[p] else []
  }

  ghost predicate NoDup(xs: seq<Pid>) {
    forall i, j :: 0 <= i < j < |xs| ==> xs[i] != xs[j]
  }

  /** The parent of `c` lists it and lies strictly above it. */
  ghost predicate UpLink(s: System, c: Pid)
    requires c in s.parent && s.rank.Keys == s.children.Keys
  {
    var p := s.parent[c];
    c in s.children && p in s.children && c in s.children[p] && s.rank[p] < s.rank[c]
  }

  /** The list of `p` has no repetition and holds only tasks whose parent is `p`. */
  ghost predicate DownLinks(s: System, p: Pid)
    requires p in s.children
  {
    NoDup(s.children[p]) && forall c :: c in s.children[p] ==> c in s.parent && s.parent[c] == p
  }

  /** Parent and child links agree, no task is in two lists or twice in one, and the
      parent links have no cycle. */
  ghost predicate Forest(s: System) {
    && s.rank.Keys == s.children.Keys
    && (forall c {:trigger UpLink(s, c)} :: c in s.parent ==> UpLink(s, c))
    && (forall p {:trigger DownLinks(s, p)} :: p in s.children ==> DownLinks(s, p))
  }

  /** The tree `t` is the part of the forest below its root. */
  ghost predicate Intact(t: Tree, s: System)
    decreases t, 1
  {
    t.pid in s.children && s.children[t.pid] == KidPids(t.kids) && IntactOf(t.kids, s)
  }

  ghost predicate IntactOf(ts: seq<Tree>, s: System)
    decreases ts, 0
  {
    ts != [] ==> Intact(ts[0], s) && IntactOf(ts[1..], s)
  }

  // ---------- kernel calls ----------

  /** `my_kernel_clone` as called by `p`: a new task `q`, last among the children of `p`. */
  function Born(s: System, p: Pid, q: Pid): System {
    s.(children := s.children[p := Kids(s, p) + [q]][q := []],
       parent := s.parent[q := p],
       rank := s.rank[q := (if p in s.rank then s.rank[p] else 0) + 1])
  }

  function AddToList(s: System, q: Pid): System {
    s.(listed := [q] + s.listed)
  }

  function Publish(s: System, q: Pid): System {
    s.(pPrime := q)
  }

  /** A successful pass of the probe, taken as one step. */
  function Fork(s: System, p: Pid, q: Pid): System {
    Publish(AddToList(Born(s, p, q), q), q)
  }

  function Without(xs: seq<Pid>, x: Pid): seq<Pid> {
    if xs == [] then [] else if xs[0] == x then xs[1..] else [xs[0]] + Without(xs[1..], x)
  }

  /** `reparent`: unlink `c` from its parent's list and append it to the list of `np`. */
  function Reparent(s: System, c: Pid, np: Pid): System {
    var op := if c in s.parent then s.parent[c] else np;
    var cut := s.(children := s.children[op := Without(Kids(s, op), c)]);
    cut.(children := cut.children[np := Kids(cut, np) + [c]],
         parent := s.parent[c := np],
         moves := s.moves + 1)
  }

  lemma ReparentCounts(s: System, c: Pid, np: Pid)
    ensures Reparent(s, c, np) != s
  {
    assert Reparent(s, c, np).moves == s.moves + 1;
  }

  // ---------- the sequential walk ----------

  /** The inner loop over the children `gcs` of one child. */
  function MoveListed(s: System, gcs: seq<Pid>): System
    decreases gcs
  {
    if gcs == [] then s
    else MoveListed(if gcs[0] in s.listed then Reparent(s, gcs[0], s.pPrime) else s, gcs[1..])
  }

  /** The outer loop over the children `cs`. */
  function Rewire(s: System, cs: seq<Pid>): System
    decreases cs
  {
    if cs == [] then s
    else Rewire(if cs[0] in s.listed then s else MoveListed(s, Kids(s, cs[0])), cs[1..])
  }

  function CloneOf(cl: map<Pid, Pid>, p: Pid): Pid {
    if p in cl then cl[p] else 0
  }

  /** What follows the descent into the children: fork `p`, then rewire its grandchildren. */
  function ForkAndRewire(s: System, p: Pid, q: Pid): System {
    var s1 := Fork(s, p, q);
    Rewire(s1, Kids(s1, p))
  }

  /** `dfs`, with `cl` naming the clone that each successful fork returns. */
  function WalkTree(t: Tree, s: System, cl: map<Pid, Pid>): System
    decreases t, 1
  {
    ForkAndRewire(WalkKids(t.kids, s, cl), t.pid, CloneOf(cl, t.pid))
  }

  function WalkKids(ts: seq<Tree>, s: System, cl: map<Pid, Pid>): System
    decreases ts, 0
  {
    if ts == [] then s else WalkKids(ts[1..], WalkTree(ts[0], s, cl), cl)
  }

  /** The tasks `xs`, one after the other: fork each and rewire its grandchildren. */
  function WalkList(xs: seq<Pid>, s: System, cl: map<Pid, Pid>): System
    decreases xs
  {
    if xs == [] then s else WalkList(xs[1..], ForkAndRewire(s, xs[0], CloneOf(cl, xs[0])), cl)
  }

  lemma {:induction false} WalkListSplit(a: seq<Pid>, b: seq<Pid>, s: System, cl: map<Pid, Pid>)
    ensures WalkList(a + b, s, cl) == WalkList(b, WalkList(a, s, cl), cl)
  {
    if a == [] {
      assert a + b == b;
    } else {
      TailOfAppend(a, b);
      WalkListSplit(a[1..], b, ForkAndRewire(s, a[0], CloneOf(cl, a[0])), cl);
    }
  }

  /** The recursion of `dfs` forks and rewires the tasks of the tree in post-order. */
  lemma {:induction false} WalkIsPostOrder(t: Tree, s: System, cl: map<Pid, Pid>)
    ensures WalkTree(t, s, cl) == WalkList(PostOrder(t), s, cl)
    decreases t, 1
  {
    WalkKidsIsPostOrder(t.kids, s, cl);
    WalkListSplit(PostOrderOf(t.kids), [t.pid], s, cl);
    WalkListOne(t.pid, WalkList(PostOrderOf(t.kids), s, cl), cl);
  }

  lemma {:induction false} WalkListOne(p: Pid, s: System, cl: map<Pid, Pid>)
    ensures WalkList([p], s, cl) == ForkAndRewire(s, p, CloneOf(cl, p))
  {
    SliceStep([p], 0);
    assert WalkList([p], s, cl) == WalkList([], ForkAndRewire(s, p, CloneOf(cl, p)), cl);
  }

  lemma {:induction false} WalkKidsIsPostOrder(ts: seq<Tree>, s: System, cl: map<Pid, Pid>)
    ensures WalkKids(ts, s, cl) == WalkList(PostOrderOf(ts), s, cl)
    decreases ts, 0
  {
    if ts != [] {
      WalkIsPostOrder(ts[0], s, cl);
      WalkKidsIsPostOrder(ts[1..], WalkTree(ts[0], s, cl), cl);
      WalkListSplit(PostOrder(ts[0]), PostOrderOf(ts[1..]), s, cl);
    }
  }

  // ---------- facts about single steps ----------

  lemma {:induction false} WithoutEffect(xs: seq<Pid>, x: Pid)
    requires NoDup(xs)
    ensures NoDup(Without(xs, x))
    ensures forall y :: y in Without(xs, x) <==> y in xs && y != x
  {
    if xs != [] {
      var rest := xs[1..];
      assert xs == [xs[0]] + rest;
      NoDupTail(xs);
      WithoutEffect(rest, x);
    }
  }

  lemma NoDupTail(xs: seq<Pid>)
    requires NoDup(xs) && xs != []
    ensures NoDup(xs[1..]) && xs[0] !in xs[1..]
  {
    forall i, j | 0 <= i < j < |xs[1..]| ensures xs[1..][i] != xs[1..][j] {
      assert xs[i + 1] != xs[j + 1];
    }
  }

  lemma {:induction false} WithoutMiddle(a: seq<Pid>, x: Pid, b: seq<Pid>)
    requires x !in a
    ensures Without(a + [x] + b, x) == a + b
  {
    var xs := a + [x] + b;
    if a == [] {
      assert xs == [x] + b;
      assert xs[1..] == b && a + b == b;
    } else {
      assert xs[1..] == a[1..] + [x] + b;
      WithoutMiddle(a[1..], x, b);
      assert a + b == [a[0]] + (a[1..] + b);
    }
  }

  lemma ForkKeepsForest(s: System, p: Pid, q: Pid)
    requires Forest(s) && p in s.children && q !in s.children
    ensures Forest(Born(s, p, q)) && Forest(Fork(s, p, q))
  {
    var s1 := Born(s, p, q);
    assert q !in s.parent by { assert q in s.parent ==> UpLink(s, q); }
    assert DownLinks(s, p);
    forall u | u in s1.children ensures DownLinks(s1, u) {
      if u in s.children { assert DownLinks(s, u); }
      forall c | c in s1.children[u] ensures c in s1.parent && s1.parent[c] == u {
        if c != q { assert u in s.children && c in s.children[u]; }
      }
    }
    forall c | c in s1.parent ensures UpLink(s1, c) {
      if c != q { assert UpLink(s, c); }
    }
    var s2 := Fork(s, p, q);
    forall u | u in s2.children ensures DownLinks(s2, u) { assert DownLinks(s1, u); }
    forall c | c in s2.parent ensures UpLink(s2, c) { assert UpLink(s1, c); }
  }

  lemma {:induction false} ReparentShape(s: System, c: Pid, np: Pid)
    requires Forest(s) && c in s.parent && np in s.children && s.parent[c] != np
    ensures var s1 := Reparent(s, c, np);
            && s1.children.Keys == s.children.Keys
            && s.parent[c] in s.children
            && s1.children[s.parent[c]] == Without(s.children[s.parent[c]], c)
            && s1.children[np] == s.children[np] + [c]
            && (forall u :: u in s.children && u != np && u != s.parent[c] ==> s1.children[u] == s.children[u])
            && s1 == s.(children := s1.children, parent := s.parent[c := np], moves := s.moves + 1)
  {
    assert UpLink(s, c);
  }

  lemma ReparentListKept(s: System, s1: System, c: Pid, np: Pid, u: Pid)
    requires Forest(s) && c in s.parent && np in s.children && s.parent[c] != np && u in s.children
    requires s1 == Reparent(s, c, np)
    ensures u in s1.children && DownLinks(s1, u)
  {
    ReparentShape(s, c, np);
    assert UpLink(s, c);
    assert DownLinks(s, s.parent[c]) && DownLinks(s, np) && DownLinks(s, u);
    WithoutEffect(s.children[s.parent[c]], c);
  }

  /** Moving a task below one of smaller rank keeps the forest. */
  lemma ReparentKeepsForest(s: System, c: Pid, np: Pid)
    requires Forest(s) && c in s.parent && c in s.children && np in s.children
    requires s.parent[c] != np && s.rank[np] < s.rank[c]
    ensures Forest(Reparent(s, c, np))
  {
    var s1 := Reparent(s, c, np);
    ReparentShape(s, c, np);
    forall u | u in s1.children ensures DownLinks(s1, u) {
      ReparentListKept(s, s1, c, np, u);
    }
    assert UpLink(s, c);
    assert DownLinks(s, s.parent[c]);
    WithoutEffect(s.children[s.parent[c]], c);
    forall x | x in s1.parent ensures UpLink(s1, x) {
      if x == c {
        assert s1.children[np][|s.children[np]|] == c;
      } else {
        assert UpLink(s, x);
      }
    }
  }

  // ---------- no cycles ----------

  /** The task reached by climbing `k` parent links from `x`, or nothing past the top. */
  function Climb(s: System, x: Pid, k: nat): set<Pid>
    decreases k
  {
    if k == 0 then {x} else if x in s.parent then Climb(s, s.parent[x], k - 1) else {}
  }

  lemma {:induction false} ClimbGoesUp(s: System, x: Pid, k: nat)
    requires Forest(s) && x in s.children
    ensures forall y :: y in Climb(s, x, k) ==> y in s.children && s.rank[y] + k <= s.rank[x]
    decreases k
  {
    if k > 0 && x in s.parent {
      assert UpLink(s, x);
      ClimbGoesUp(s, s.parent[x], k - 1);
    }
  }

  /** In a forest no task is its own ancestor. */
  lemma {:induction false} NoTaskIsItsOwnAncestor(s: System, x: Pid, k: nat)
    requires Forest(s) && x in s.children && k > 0
    ensures x !in Climb(s, x, k)
  {
    ClimbGoesUp(s, x, k);
  }

  // ---------- trees in a forest ----------

  lemma ClimbFurther(s: System, x: Pid, k: nat, y: Pid, d: nat)
    requires y in Climb(s, x, k)
    ensures Climb(s, x, k + d) == Climb(s, y, d)
    decreases k
  {
    if k > 0 { ClimbFurther(s, s.parent[x], k - 1, y, d); }
  }

  lemma {:induction false} OneUp(s: System, p: Pid, c: Pid)
    requires Forest(s) && p in s.children && c in s.children[p]
    ensures Climb(s, c, 1) == {p} && c in s.children && s.rank[p] < s.rank[c]
  {
    assert DownLinks(s, p);
    assert UpLink(s, c);
    assert Climb(s, c, 1) == Climb(s, p, 0);
  }

  /** Every node of a tree climbs to its root. */
  lemma ClimbsToRoot(t: Tree, s: System, x: Pid) returns (k: nat)
    requires Forest(s) && Intact(t, s) && x in Nodes(t)
    ensures t.pid in Climb(s, x, k) && x in s.children
    decreases t, 1
  {
    if x == t.pid {
      k := 0;
    } else {
      var kid, m := ClimbsToChild(t.kids, s, x);
      OneUp(s, t.pid, kid);
      ClimbFurther(s, x, m, kid, 1);
      k := m + 1;
    }
  }

  lemma ClimbsToChild(ts: seq<Tree>, s: System, x: Pid) returns (kid: Pid, k: nat)
    requires Forest(s) && IntactOf(ts, s) && x in NodesOf(ts)
    ensures kid in KidPids(ts) && kid in Climb(s, x, k) && x in s.children
    decreases ts, 0
  {
    if x in Nodes(ts[0]) {
      kid := ts[0].pid;
      k := ClimbsToRoot(ts[0], s, x);
    } else {
      kid, k := ClimbsToChild(ts[1..], s, x);
      assert KidPids(ts) == [ts[0].pid] + KidPids(ts[1..]);
    }
  }

  /** Two different children of one task have no descendant in common. */
  lemma {:induction false} SiblingsApart(s: System, p: Pid, a: Pid, b: Pid, x: Pid, j: nat, k: nat)
    requires Forest(s) && p in s.children && a in s.children[p] && b in s.children[p] && j <= k && x in s.children
    requires a in Climb(s, x, j) && b in Climb(s, x, k)
    ensures a == b
  {
    assert DownLinks(s, p);
    assert UpLink(s, a) && UpLink(s, b);
    ClimbFurther(s, x, j, a, k - j);
    if k > j {
      assert Climb(s, a, k - j) == Climb(s, p, k - j - 1);
      ClimbGoesUp(s, p, k - j - 1);
    }
  }

  /** The tree below a task of a forest has no pid twice. */
  lemma {:induction false} TreesAreDistinct(t: Tree, s: System)
    requires Forest(s) && Intact(t, s)
    ensures Distinct(t)
    decreases t, 1
  {
    assert DownLinks(s, t.pid);
    if t.pid in NodesOf(t.kids) {
      var kid, k := ClimbsToChild(t.kids, s, t.pid);
      assert UpLink(s, kid);
      ClimbGoesUp(s, t.pid, k);
    }
    KidsAreDistinct(t.kids, s, t.pid);
  }

  lemma {:induction false} KidsAreDistinct(ts: seq<Tree>, s: System, p: Pid)
    requires Forest(s) && IntactOf(ts, s) && p in s.children
    requires NoDup(KidPids(ts)) && forall c :: c in KidPids(ts) ==> c in s.children[p]
    ensures DistinctOf(ts)
    decreases ts, 0
  {
    if ts != [] {
      assert KidPids(ts) == [ts[0].pid] + KidPids(ts[1..]) && KidPids(ts)[1..] == KidPids(ts[1..]);
      NoDupTail(KidPids(ts));
      TreesAreDistinct(ts[0], s);
      KidsAreDistinct(ts[1..], s, p);
      assert ts[0].pid in KidPids(ts);
      if x :| x in Nodes(ts[0]) && x in NodesOf(ts[1..]) {
        var j := ClimbsToRoot(ts[0], s, x);
        var b, k := ClimbsToChild(ts[1..], s, x);
        if j <= k {
          SiblingsApart(s, p, ts[0].pid, b, x, j, k);
        } else {
          SiblingsApart(s, p, b, ts[0].pid, x, k, j);
        }
      }
    }
  }

  // ---------- every task has a tree ----------

  lemma NumberAbove(used: set<nat>) returns (n: nat)
    ensures forall x :: x in used ==> x < n
  {
    n := 0;
    var todo := used;
    while todo != {}
      invariant todo <= used
      invariant forall x :: x in used && x !in todo ==> x < n
      decreases |todo|
    {
      var x :| x in todo;
      if x >= n { n := x + 1; }
      todo := todo - {x};
    }
  }

  lemma TreeUpTo(s: System, p: Pid, bound: nat) returns (t: Tree)
    requires Forest(s) && p in s.children && forall x :: x in s.rank ==> s.rank[x] <= bound
    ensures t.pid == p && Intact(t, s)
    decreases bound - s.rank[p], 1, 0
  {
    forall c | c in s.children[p] ensures c in s.children && s.rank[p] < s.rank[c] { OneUp(s, p, c); }
    var kids := TreesUpTo(s, s.children[p], s.rank[p], bound);
    t := Node(p, kids);
  }

  lemma {:induction false} TreesCons(t: Tree, ts: seq<Tree>, s: System)
    requires Intact(t, s) && IntactOf(ts, s)
    ensures KidPids([t] + ts) == [t.pid] + KidPids(ts) && IntactOf([t] + ts, s)
  {
    assert ([t] + ts)[1..] == ts;
  }

  lemma TreesUpTo(s: System, ps: seq<Pid>, r: nat, bound: nat) returns (ts: seq<Tree>)
    requires Forest(s) && r <= bound && forall x :: x in s.rank ==> s.rank[x] <= bound
    requires forall c :: c in ps ==> c in s.children && r < s.rank[c]
    ensures KidPids(ts) == ps && IntactOf(ts, s)
    decreases bound - r, 0, |ps|
  {
    if ps == [] {
      ts := [];
    } else {
      var first := TreeUpTo(s, ps[0], bound);
      assert forall c :: c in ps[1..] ==> c in ps;
      var rest := TreesUpTo(s, ps[1..], r, bound);
      ts := [first] + rest;
      TreesCons(first, rest, s);
      HeadAndTail(ps);
    }
  }

  /** In a forest every task is the root of a finite tree, the one that `dfs` walks. */
  lemma EveryTaskHasATree(s: System, p: Pid) returns (t: Tree)
    requires Forest(s) && p in s.children
    ensures t.pid == p && Intact(t, s)
  {
    var n := NumberAbove(s.rank.Values);
    forall x | x in s.rank ensures s.rank[x] <= n { assert s.rank[x] in s.rank.Values; }
    t := TreeUpTo(s, p, n);
  }
}
