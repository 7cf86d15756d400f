/** What the sequential walk leaves behind, for every process tree and every list.

    `WalkTreeEffect` gives every children list of the final forest in closed form, whether or
    not some task of the tree is already in `pid_list_head`.  From it follows exactly when the
    walk copies the tree (`CopiesExactlyWhenNoneListed`).
 */
module WalkResult {
  import opened ProcessTree

  /** The members of `xs` that are not in the list `l`, and those that are. */
  function Keep(xs: seq<Pid>, l: seq<Pid>): seq<Pid> {
    if xs == [] then [] else (if xs[0] in l then [] else [xs[0]]) + Keep(xs[1..], l)
  }

  function Pick(xs: seq<Pid>, l: seq<Pid>): seq<Pid> {
    if xs == [] then [] else (if xs[0] in l then [xs[0]] else []) + Pick(xs[1..], l)
  }

  lemma Assoc(a: seq<Pid>, b: seq<Pid>, c: seq<Pid>)
    ensures (a + b) + c == a + (b + c)
  {
  }

  lemma {:induction false} PickKeepMembers(xs: seq<Pid>, l: seq<Pid>, x: Pid)
    ensures x in Keep(xs, l) <==> x in xs && x !in l
    ensures x in Pick(xs, l) <==> x in xs && x in l
  {
    if xs != [] { PickKeepMembers(xs[1..], l, x); }
  }

  lemma {:induction false} PickKeepSnoc(xs: seq<Pid>, x: Pid, l: seq<Pid>)
    ensures Pick(xs + [x], l) == Pick(xs, l) + (if x in l then [x] else [])
    ensures Keep(xs + [x], l) == Keep(xs, l) + (if x in l then [] else [x])
  {
    if xs != [] {
      TailOfAppend(xs, [x]);
      PickKeepSnoc(xs[1..], x, l);
    }
  }

  lemma {:induction false} PickKeepAgree(xs: seq<Pid>, l: seq<Pid>, m: seq<Pid>)
    requires forall x :: x in xs ==> (x in l <==> x in m)
    ensures Pick(xs, l) == Pick(xs, m) && Keep(xs, l) == Keep(xs, m)
  {
    if xs != [] {
      assert xs[0] in xs;
      assert forall x :: x in xs[1..] ==> x in xs;
      PickKeepAgree(xs[1..], l, m);
    }
  }

  /** Nothing but the children lists of `touched` tasks, the parents and the move count differs. */
  ghost predicate SameElsewhere(s: System, s1: System, touched: set<Pid>) {
    && s1.children.Keys == s.children.Keys
    && (forall u :: u in s.children && u !in touched ==> s1.children[u] == s.children[u])
    && s1.listed == s.listed && s1.pPrime == s.pPrime && s1.rank == s.rank
  }

  // ---------- the inner loop ----------

  /** One `reparent` of the inner loop: the task under the cursor leaves the list of `c`. */
  lemma MoveOne(s: System, c: Pid, kept: seq<Pid>, g: Pid, rest: seq<Pid>)
    requires Forest(s) && c in s.children && s.pPrime in s.children && c != s.pPrime
    requires s.rank[s.pPrime] <= s.rank[c]
    requires s.children[c] == kept + ([g] + rest)
    ensures var s1 := Reparent(s, g, s.pPrime);
            && Forest(s1)
            && SameElsewhere(s, s1, {c, s.pPrime})
            && s1.children[c] == kept + rest
            && s1.children[s.pPrime] == s.children[s.pPrime] + [g]
            && s1.moves == s.moves + 1
  {
    assert DownLinks(s, c);
    assert g == s.children[c][|kept|];
    assert UpLink(s, g);
    ReparentShape(s, g, s.pPrime);
    ReparentKeepsForest(s, g, s.pPrime);
    NoDupSplit(kept, g, rest);
    WithoutMiddle(kept, g, rest);
    assert kept + ([g] + rest) == kept + [g] + rest;
  }

  /** The tasks `gcs` under the cursor of the inner loop have been dealt with: the listed ones
      follow, in order, the children of `p_prime`; the others stay, in order, behind `kept`. */
  ghost predicate Moved(s: System, c: Pid, kept: seq<Pid>, gcs: seq<Pid>, s1: System) {
    && SameElsewhere(s, s1, {c, s.pPrime})
    && Kids(s1, c) == kept + Keep(gcs, s.listed)
    && Kids(s1, s.pPrime) == Kids(s, s.pPrime) + Pick(gcs, s.listed)
    && s1.moves == s.moves + |Pick(gcs, s.listed)|
  }

  lemma MovedStep(s: System, s1: System, s2: System, c: Pid, kept: seq<Pid>, gcs: seq<Pid>)
    requires gcs != [] && gcs[0] in s.listed
    requires SameElsewhere(s, s1, {c, s.pPrime})
    requires Kids(s1, s.pPrime) == Kids(s, s.pPrime) + [gcs[0]] && s1.moves == s.moves + 1
    requires Moved(s1, c, kept, gcs[1..], s2)
    ensures Moved(s, c, kept, gcs, s2)
  {
    Assoc(Kids(s, s.pPrime), [gcs[0]], Pick(gcs[1..], s.listed));
  }

  lemma {:induction false} MoveListedEffect(s: System, c: Pid, kept: seq<Pid>, gcs: seq<Pid>)
    requires Forest(s) && c in s.children && s.pPrime in s.children && c != s.pPrime
    requires s.rank[s.pPrime] <= s.rank[c]
    requires s.children[c] == kept + gcs
    ensures Forest(MoveListed(s, gcs)) && Moved(s, c, kept, gcs, MoveListed(s, gcs))
    decreases gcs
  {
    if gcs == [] {
      assert kept + [] == kept;
    } else {
      var g, rest := gcs[0], gcs[1..];
      assert gcs == [g] + rest;
      if g in s.listed {
        MoveOne(s, c, kept, g, rest);
        var s1 := Reparent(s, g, s.pPrime);
        MoveListedEffect(s1, c, kept, rest);
        MovedStep(s, s1, MoveListed(s1, rest), c, kept, gcs);
      } else {
        Assoc(kept, [g], rest);
        MoveListedEffect(s, c, kept + [g], rest);
        Assoc(kept, [g], Keep(rest, s.listed));
      }
    }
  }

  lemma NoDupSplit(a: seq<Pid>, x: Pid, b: seq<Pid>)
    requires NoDup(a + ([x] + b))
    ensures x !in a && x !in b
  {
    var xs := a + ([x] + b);
    assert xs[|a|] == x;
    forall i | 0 <= i < |a| ensures a[i] != x { assert xs[i] == a[i]; }
    forall i | 0 <= i < |b| ensures b[i] != x { assert xs[|a| + 1 + i] == b[i]; }
  }

  // ---------- the outer loop ----------

  /** All tasks the outer loop moves, in order. */
  function GatherLive(s: System, cs: seq<Pid>): seq<Pid> {
    if cs == [] then []
    else (if cs[0] in s.listed then [] else Pick(Kids(s, cs[0]), s.listed)) + GatherLive(s, cs[1..])
  }

  ghost predicate Rewired(s: System, cs: seq<Pid>, s1: System) {
    && s1.children.Keys == s.children.Keys
    && (forall u :: u in s.children && u != s.pPrime && (u in cs ==> u in s.listed) ==> s1.children[u] == s.children[u])
    && s1.listed == s.listed && s1.pPrime == s.pPrime && s1.rank == s.rank
    && (forall c :: c in cs && c !in s.listed ==> Kids(s1, c) == Keep(Kids(s, c), s.listed))
    && Kids(s1, s.pPrime) == Kids(s, s.pPrime) + GatherLive(s, cs)
    && s1.moves == s.moves + |GatherLive(s, cs)|
  }

  lemma {:induction false} GatherLiveAgree(s: System, s1: System, cs: seq<Pid>)
    requires s1.listed == s.listed
    requires forall c :: c in cs && c !in s.listed ==> Kids(s1, c) == Kids(s, c)
    ensures GatherLive(s1, cs) == GatherLive(s, cs)
  {
    if cs != [] {
      assert forall c :: c in cs[1..] ==> c in cs;
      assert cs[0] in cs;
      GatherLiveAgree(s, s1, cs[1..]);
    }
  }

  lemma {:induction false} RewireEffect(s: System, cs: seq<Pid>)
    requires Forest(s) && s.pPrime in s.children && s.pPrime in s.listed && NoDup(cs)
    requires forall c :: c in cs ==> c in s.children && s.rank[s.pPrime] <= s.rank[c]
    ensures Forest(Rewire(s, cs)) && Rewired(s, cs, Rewire(s, cs))
    decreases cs
  {
    if cs != [] {
      var c := cs[0];
      var rest := cs[1..];
      assert cs == [c] + rest;
      assert c in cs;
      NoDupTail(cs);
      var s1 := if c in s.listed then s else MoveListed(s, Kids(s, c));
      if c !in s.listed {
        assert [] + Kids(s, c) == Kids(s, c);
        MoveListedEffect(s, c, [], Kids(s, c));
        assert [] + Keep(Kids(s, c), s.listed) == Keep(Kids(s, c), s.listed);
      }
      forall d | d in rest ensures d in s1.children && s1.rank[s1.pPrime] <= s1.rank[d] { assert d in cs; }
      RewireEffect(s1, rest);
      GatherLiveAgree(s, s1, rest);
      RewireStep(s, s1, Rewire(s, cs), cs);
    }
  }

  /** One child done, then the rest. */
  lemma {:induction false} RewireStep(s: System, s1: System, s2: System, cs: seq<Pid>)
    requires cs != [] && cs[0] !in cs[1..] && s.pPrime in s.listed && s.pPrime in s.children
    requires SameElsewhere(s, s1, if cs[0] in s.listed then {} else {cs[0], s.pPrime})
    requires cs[0] !in s.listed ==> Kids(s1, cs[0]) == Keep(Kids(s, cs[0]), s.listed)
    requires var taken := if cs[0] in s.listed then [] else Pick(Kids(s, cs[0]), s.listed);
             Kids(s1, s.pPrime) == Kids(s, s.pPrime) + taken && s1.moves == s.moves + |taken|
    requires forall d :: d in cs ==> d in s.children
    requires Rewired(s1, cs[1..], s2) && GatherLive(s1, cs[1..]) == GatherLive(s, cs[1..])
    ensures Rewired(s, cs, s2)
  {
    RewireStepGather(s, s1, s2, cs);
    forall d | d in cs && d !in s.listed ensures Kids(s2, d) == Keep(Kids(s, d), s.listed) {
      if d == cs[0] {
        assert Kids(s2, d) == Kids(s1, d);
      } else {
        assert d in cs[1..];
        assert Kids(s1, d) == Kids(s, d);
      }
    }
    forall u | u in s.children && u != s.pPrime && (u in cs ==> u in s.listed)
      ensures s2.children[u] == s.children[u]
    {
      assert u in cs[1..] ==> u in cs;
      assert cs[0] in cs;
      assert s1.children[u] == s.children[u];
    }
  }

  lemma {:induction false} RewireStepGather(s: System, s1: System, s2: System, cs: seq<Pid>)
    requires cs != []
    requires s1.pPrime == s.pPrime
    requires var taken := if cs[0] in s.listed then [] else Pick(Kids(s, cs[0]), s.listed);
             Kids(s1, s.pPrime) == Kids(s, s.pPrime) + taken && s1.moves == s.moves + |taken|
    requires Rewired(s1, cs[1..], s2) && GatherLive(s1, cs[1..]) == GatherLive(s, cs[1..])
    ensures Kids(s2, s.pPrime) == Kids(s, s.pPrime) + GatherLive(s, cs)
    ensures s2.moves == s.moves + |GatherLive(s, cs)|
  {
    var taken := if cs[0] in s.listed then [] else Pick(Kids(s, cs[0]), s.listed);
    var tail := GatherLive(s, cs[1..]);
    assert GatherLive(s, cs) == taken + tail;
    Assoc(Kids(s, s.pPrime), taken, tail);
  }

  // ---------- the whole walk ----------

  /** The children of the clone of a task whose children are the roots of `ts`. */
  function Gather(ts: seq<Tree>, l: seq<Pid>, cl: map<Pid, Pid>): seq<Pid> {
    if ts == [] then []
    else (if ts[0].pid in l then [] else Pick(KidPids(ts[0].kids), l) + [CloneOf(cl, ts[0].pid)])
         + Gather(ts[1..], l, cl)
  }

  /** What a child of a tree node keeps as its own children. */
  function Remaining(t: Tree, l: seq<Pid>, cl: map<Pid, Pid>): seq<Pid> {
    if t.pid in l then KidPids(t.kids) + [CloneOf(cl, t.pid)] else Keep(KidPids(t.kids), l)
  }

  /** The number of tasks moved below the roots of `ts`. */
  function MovesBelow(ts: seq<Tree>, l: seq<Pid>, cl: map<Pid, Pid>): nat
    decreases ts
  {
    if ts == [] then 0
    else |Gather(ts[0].kids, l, cl)| + MovesBelow(ts[0].kids, l, cl) + MovesBelow(ts[1..], l, cl)
  }

  /** The final lists of every proper node below the roots of `ts`, and of their clones. */
  ghost predicate Settled(ts: seq<Tree>, l: seq<Pid>, cl: map<Pid, Pid>, s: System)
    decreases ts
  {
    ts != [] ==>
      && Kids(s, ts[0].pid) == Remaining(ts[0], l, cl)
      && Kids(s, CloneOf(cl, ts[0].pid)) == Gather(ts[0].kids, l, cl)
      && Settled(ts[0].kids, l, cl, s)
      && Settled(ts[1..], l, cl, s)
  }

  /** The state in which `dfs(t.pid)` returns: the root has gained its clone as last child,
      and everything below is settled. */
  ghost predicate WalkedTree(t: Tree, l: seq<Pid>, cl: map<Pid, Pid>, s: System) {
    && Kids(s, t.pid) == KidPids(t.kids) + [CloneOf(cl, t.pid)]
    && Kids(s, CloneOf(cl, t.pid)) == Gather(t.kids, l, cl)
    && Settled(t.kids, l, cl, s)
  }

  ghost predicate WalkedAll(ts: seq<Tree>, l: seq<Pid>, cl: map<Pid, Pid>, s: System) {
    ts != [] ==> WalkedTree(ts[0], l, cl, s) && WalkedAll(ts[1..], l, cl, s)
  }

  /** `cl` names a task that does not exist yet for each of the tasks `n`, never the same twice. */
  ghost predicate FreshClones(n: set<Pid>, cl: map<Pid, Pid>, s: System) {
    && n <= cl.Keys
    && (forall x :: x in n ==> cl[x] !in s.children)
    && (forall x, y :: x in n && y in n && x != y ==> cl[x] != cl[y])
  }

  ghost predicate Extends(cl: map<Pid, Pid>, m: map<Pid, Pid>) {
    forall x :: x in m ==> x in cl && cl[x] == m[x]
  }

  ghost function Images(n: set<Pid>, cl: map<Pid, Pid>): set<Pid> {
    set x | x in n :: CloneOf(cl, x)
  }

  /** The clones of `xs`, last first. */
  function RevClones(xs: seq<Pid>, cl: map<Pid, Pid>): seq<Pid> {
    if xs == [] then [] else RevClones(xs[1..], cl) + [CloneOf(cl, xs[0])]
  }

  lemma {:induction false} RevClonesConcat(a: seq<Pid>, b: seq<Pid>, cl: map<Pid, Pid>)
    ensures RevClones(a + b, cl) == RevClones(b, cl) + RevClones(a, cl)
  {
    if a == [] {
      assert a + b == b;
    } else {
      TailOfAppend(a, b);
      RevClonesConcat(a[1..], b, cl);
    }
  }

  lemma {:induction false} RevClonesMembers(xs: seq<Pid>, cl: map<Pid, Pid>, n: set<Pid>)
    requires forall x :: x in xs ==> x in n
    ensures forall y :: y in RevClones(xs, cl) ==> y in Images(n, cl)
  {
    if xs != [] {
      assert xs[0] in xs && forall x :: x in xs[1..] ==> x in xs;
      RevClonesMembers(xs[1..], cl, n);
      assert CloneOf(cl, xs[0]) in Images(n, cl);
    }
  }

  /** The part of the outcome that does not depend on the shape's structure. */
  ghost predicate Framed(n: set<Pid>, post: seq<Pid>, cl: map<Pid, Pid>, s: System, s1: System) {
    && s1.children.Keys == s.children.Keys + Images(n, cl)
    && (forall u :: u in s.children && u !in n ==> s1.children[u] == s.children[u])
    && (forall u :: u in s.rank ==> u in s1.rank && s1.rank[u] == s.rank[u])
    && s1.listed == RevClones(post, cl) + s.listed
  }

  ghost predicate ListsAgree(n: set<Pid>, l: seq<Pid>, m: seq<Pid>) {
    forall x :: x in n ==> (x in l <==> x in m)
  }

  // ---------- shapes and frames ----------

  lemma {:induction false} NodesOfRoots(ts: seq<Tree>)
    ensures forall x :: x in KidPids(ts) ==> x in NodesOf(ts)
    decreases ts
  {
    if ts != [] { NodesOfRoots(ts[1..]); }
  }

  lemma {:induction false} KidPidAt(ts: seq<Tree>, i: nat)
    requires i < |ts|
    ensures KidPids(ts)[i] == ts[i].pid
  {
    if i > 0 { KidPidAt(ts[1..], i - 1); }
  }

  lemma {:induction false} PostOrderNodes(t: Tree)
    ensures forall x :: x in PostOrder(t) <==> x in Nodes(t)
    decreases t, 1
  {
    PostOrderNodesOf(t.kids);
  }

  lemma {:induction false} PostOrderNodesOf(ts: seq<Tree>)
    ensures forall x :: x in PostOrderOf(ts) <==> x in NodesOf(ts)
    decreases ts, 0
  {
    if ts != [] {
      PostOrderNodes(ts[0]);
      PostOrderNodesOf(ts[1..]);
    }
  }

  lemma {:induction false} IntactNodes(ts: seq<Tree>, s: System)
    requires IntactOf(ts, s)
    ensures NodesOf(ts) <= s.children.Keys
    decreases ts
  {
    if ts != [] {
      IntactNodes(ts[0].kids, s);
      IntactNodes(ts[1..], s);
    }
  }

  lemma {:induction false} IntactFrame(ts: seq<Tree>, s: System, s1: System)
    requires IntactOf(ts, s)
    requires forall u :: u in NodesOf(ts) && u in s.children ==> u in s1.children && s1.children[u] == s.children[u]
    ensures IntactOf(ts, s1)
    decreases ts
  {
    if ts != [] {
      assert NodesOf(ts) == {ts[0].pid} + NodesOf(ts[0].kids) + NodesOf(ts[1..]);
      IntactFrame(ts[0].kids, s, s1);
      IntactFrame(ts[1..], s, s1);
    }
  }

  lemma {:induction false} SettledFrame(ts: seq<Tree>, l: seq<Pid>, cl: map<Pid, Pid>, s: System, s1: System)
    requires Settled(ts, l, cl, s)
    requires forall u :: u in NodesOf(ts) ==>
               Kids(s1, u) == Kids(s, u) && Kids(s1, CloneOf(cl, u)) == Kids(s, CloneOf(cl, u))
    ensures Settled(ts, l, cl, s1)
    decreases ts
  {
    if ts != [] {
      assert NodesOf(ts) == {ts[0].pid} + NodesOf(ts[0].kids) + NodesOf(ts[1..]);
      SettledFrame(ts[0].kids, l, cl, s, s1);
      SettledFrame(ts[1..], l, cl, s, s1);
    }
  }

  // ---------- the induction over the tree ----------

  lemma {:induction false} WalkTreeEffect(t: Tree, s: System, cl: map<Pid, Pid>, l: seq<Pid>)
    requires Forest(s) && Intact(t, s) && FreshClones(Nodes(t), cl, s)
    requires ListsAgree(Nodes(t), s.listed, l)
    ensures Forest(WalkTree(t, s, cl))
    ensures Framed(Nodes(t), PostOrder(t), cl, s, WalkTree(t, s, cl))
    ensures WalkedTree(t, l, cl, WalkTree(t, s, cl))
    ensures WalkTree(t, s, cl).pPrime == CloneOf(cl, t.pid)
    ensures WalkTree(t, s, cl).moves == s.moves + |Gather(t.kids, l, cl)| + MovesBelow(t.kids, l, cl)
    decreases t, 1
  {
    TreesAreDistinct(t, s);
    WalkKidsEffect(t.kids, s, cl, l);
    ForkAndRewireEffect(t, s, WalkKids(t.kids, s, cl), cl, l);
  }

  lemma {:induction false} WalkKidsEffect(ts: seq<Tree>, s: System, cl: map<Pid, Pid>, l: seq<Pid>)
    requires Forest(s) && IntactOf(ts, s) && DistinctOf(ts) && FreshClones(NodesOf(ts), cl, s)
    requires ListsAgree(NodesOf(ts), s.listed, l)
    ensures Forest(WalkKids(ts, s, cl))
    ensures Framed(NodesOf(ts), PostOrderOf(ts), cl, s, WalkKids(ts, s, cl))
    ensures WalkedAll(ts, l, cl, WalkKids(ts, s, cl))
    ensures WalkKids(ts, s, cl).moves == s.moves + MovesBelow(ts, l, cl)
    decreases ts, 0
  {
    if ts != [] {
      var s1 := WalkTree(ts[0], s, cl);
      WalkTreeEffect(ts[0], s, cl, l);
      WalkedHead(ts, s, s1, cl, l);
      WalkKidsEffect(ts[1..], s1, cl, l);
      WalkedTail(ts, s, s1, WalkKids(ts[1..], s1, cl), cl, l);
    }
  }

  /** After the first child the others are as they were. */
  lemma {:induction false} WalkedHead(ts: seq<Tree>, s: System, s1: System, cl: map<Pid, Pid>, l: seq<Pid>)
    requires ts != [] && IntactOf(ts, s) && DistinctOf(ts) && FreshClones(NodesOf(ts), cl, s)
    requires ListsAgree(NodesOf(ts), s.listed, l)
    requires Framed(Nodes(ts[0]), PostOrder(ts[0]), cl, s, s1)
    ensures IntactOf(ts[1..], s1) && FreshClones(NodesOf(ts[1..]), cl, s1)
    ensures ListsAgree(NodesOf(ts[1..]), s1.listed, l)
  {
    IntactNodes(ts, s);
    IntactFrame(ts[1..], s, s1);
    PostOrderNodes(ts[0]);
    RevClonesMembers(PostOrder(ts[0]), cl, Nodes(ts[0]));
  }

  /** Walking the later children does not touch what the first one left. */
  lemma {:induction false} WalkedTail(ts: seq<Tree>, s: System, s1: System, s2: System, cl: map<Pid, Pid>, l: seq<Pid>)
    requires ts != [] && IntactOf(ts, s) && DistinctOf(ts) && FreshClones(NodesOf(ts), cl, s)
    requires Framed(Nodes(ts[0]), PostOrder(ts[0]), cl, s, s1) && WalkedTree(ts[0], l, cl, s1)
    requires Framed(NodesOf(ts[1..]), PostOrderOf(ts[1..]), cl, s1, s2) && WalkedAll(ts[1..], l, cl, s2)
    ensures Framed(NodesOf(ts), PostOrderOf(ts), cl, s, s2) && WalkedAll(ts, l, cl, s2)
  {
    IntactNodes(ts, s);
    forall u | u in Nodes(ts[0])
      ensures Kids(s2, u) == Kids(s1, u) && Kids(s2, CloneOf(cl, u)) == Kids(s1, CloneOf(cl, u))
    {
      assert CloneOf(cl, u) in Images(Nodes(ts[0]), cl);
      assert u in NodesOf(ts);
      assert CloneOf(cl, u) !in s.children;
    }
    assert ts[0].pid in Nodes(ts[0]);
    SettledFrame(ts[0].kids, l, cl, s1, s2);
    FramedTwice(Nodes(ts[0]), NodesOf(ts[1..]), PostOrder(ts[0]), PostOrderOf(ts[1..]), cl, s, s1, s2);
  }

  lemma FramedTwice(n: set<Pid>, m: set<Pid>, a: seq<Pid>, b: seq<Pid>, cl: map<Pid, Pid>, s: System, s1: System,
                    s2: System)
    requires Framed(n, a, cl, s, s1) && Framed(m, b, cl, s1, s2)
    ensures Framed(n + m, a + b, cl, s, s2)
  {
    RevClonesConcat(a, b, cl);
    Assoc(RevClones(b, cl), RevClones(a, cl), s.listed);
    assert Images(n + m, cl) == Images(n, cl) + Images(m, cl);
  }

  /** The walk asks for the clones of its own nodes only. */
  lemma {:induction false} WalkAgrees(t: Tree, s: System, cl: map<Pid, Pid>, cm: map<Pid, Pid>)
    requires forall x :: x in Nodes(t) ==> CloneOf(cl, x) == CloneOf(cm, x)
    ensures WalkTree(t, s, cl) == WalkTree(t, s, cm)
    decreases t, 1
  {
    WalkKidsAgrees(t.kids, s, cl, cm);
  }

  lemma {:induction false} WalkKidsAgrees(ts: seq<Tree>, s: System, cl: map<Pid, Pid>, cm: map<Pid, Pid>)
    requires forall x :: x in NodesOf(ts) ==> CloneOf(cl, x) == CloneOf(cm, x)
    ensures WalkKids(ts, s, cl) == WalkKids(ts, s, cm)
    decreases ts, 0
  {
    if ts != [] {
      WalkAgrees(ts[0], s, cl, cm);
      WalkKidsAgrees(ts[1..], WalkTree(ts[0], s, cl), cl, cm);
    }
  }

  // ---------- fork and rewire ----------

  lemma {:induction false} GatherLiveSnoc(s: System, xs: seq<Pid>, q: Pid)
    requires q in s.listed
    ensures GatherLive(s, xs + [q]) == GatherLive(s, xs)
  {
    if xs != [] {
      TailOfAppend(xs, [q]);
      GatherLiveSnoc(s, xs[1..], q);
    } else {
      assert [] + [q] == [q];
      assert GatherLive(s, [q]) == GatherLive(s, [q][1..]);
    }
  }

  /** The live lists read by the outer loop are those the closed form speaks of. */
  lemma {:induction false} GatherMatches(ts: seq<Tree>, l: seq<Pid>, cl: map<Pid, Pid>, s: System)
    requires WalkedAll(ts, l, cl, s) && ListsAgree(NodesOf(ts), s.listed, l)
    requires forall u :: u in NodesOf(ts) ==> CloneOf(cl, u) in s.listed
    ensures GatherLive(s, KidPids(ts)) == Gather(ts, l, cl)
  {
    if ts != [] {
      var k := ts[0];
      assert NodesOf(ts) == {k.pid} + NodesOf(k.kids) + NodesOf(ts[1..]);
      NodesOfRoots(k.kids);
      PickKeepAgree(KidPids(k.kids), s.listed, l);
      PickKeepSnoc(KidPids(k.kids), CloneOf(cl, k.pid), s.listed);
      assert KidPids(ts)[1..] == KidPids(ts[1..]);
      GatherMatches(ts[1..], l, cl, s);
    }
  }

  /** `rs` are all the children that the outer loop visits; `ts` a suffix of them. */
  lemma {:induction false} SettledFromWalked(ts: seq<Tree>, rs: seq<Pid>, l: seq<Pid>, cl: map<Pid, Pid>, s: System,
                                             s1: System)
    requires WalkedAll(ts, l, cl, s) && DistinctOf(ts) && ListsAgree(NodesOf(ts), s.listed, l)
    requires forall u :: u in NodesOf(ts) ==> CloneOf(cl, u) in s.listed
    requires forall u :: u in NodesOf(ts) ==> Kids(s1, CloneOf(cl, u)) == Kids(s, CloneOf(cl, u))
    requires forall u :: u in NodesOf(ts) && (u in rs ==> u in s.listed) ==> Kids(s1, u) == Kids(s, u)
    requires forall u :: u in rs && u !in s.listed ==> Kids(s1, u) == Keep(Kids(s, u), s.listed)
    requires forall u :: u in KidPids(ts) ==> u in rs
    requires forall u :: u in rs && u in NodesOf(ts) ==> u in KidPids(ts)
    ensures Settled(ts, l, cl, s1)
    decreases ts
  {
    if ts != [] {
      var k := ts[0];
      assert NodesOf(ts) == {k.pid} + NodesOf(k.kids) + NodesOf(ts[1..]);
      assert KidPids(ts) == [k.pid] + KidPids(ts[1..]);
      assert k.pid in KidPids(ts);
      NodesOfRoots(k.kids);
      NodesOfRoots(ts[1..]);
      PickKeepAgree(KidPids(k.kids), s.listed, l);
      PickKeepSnoc(KidPids(k.kids), CloneOf(cl, k.pid), s.listed);
      SettledFrame(k.kids, l, cl, s, s1);
      SettledFromWalked(ts[1..], rs, l, cl, s, s1);
    }
  }

  /** The state between the fork of `t.pid` and the rewiring. */
  lemma {:induction false} ForkEffect(t: Tree, s: System, s1: System, cl: map<Pid, Pid>, l: seq<Pid>)
    requires Forest(s1) && Intact(t, s) && Distinct(t) && FreshClones(Nodes(t), cl, s)
    requires ListsAgree(Nodes(t), s.listed, l)
    requires Framed(NodesOf(t.kids), PostOrderOf(t.kids), cl, s, s1) && WalkedAll(t.kids, l, cl, s1)
    ensures var s2 := Fork(s1, t.pid, CloneOf(cl, t.pid));
            && Forest(s2)
            && Framed(Nodes(t), PostOrder(t), cl, s, s2)
            && Kids(s2, t.pid) == KidPids(t.kids) + [CloneOf(cl, t.pid)]
            && Kids(s2, CloneOf(cl, t.pid)) == []
            && WalkedAll(t.kids, l, cl, s2) && ListsAgree(Nodes(t), s2.listed, l)
            && (forall u :: u in Nodes(t) ==> CloneOf(cl, u) in s2.listed)
  {
    ForkFrames(t, s, s1, cl);
    ForkKeepsWalked(t, s, s1, cl, l);
    ForkLists(t, s, Fork(s1, t.pid, CloneOf(cl, t.pid)), cl, l);
  }

  lemma {:induction false} ForkFrames(t: Tree, s: System, s1: System, cl: map<Pid, Pid>)
    requires Forest(s1) && Intact(t, s) && Distinct(t) && FreshClones(Nodes(t), cl, s)
    requires Framed(NodesOf(t.kids), PostOrderOf(t.kids), cl, s, s1)
    ensures var s2 := Fork(s1, t.pid, CloneOf(cl, t.pid));
            && Forest(s2) && Framed(Nodes(t), PostOrder(t), cl, s, s2) && Nodes(t) <= s.children.Keys
            && Kids(s2, t.pid) == KidPids(t.kids) + [CloneOf(cl, t.pid)]
            && Kids(s2, CloneOf(cl, t.pid)) == []
  {
    var p, q := t.pid, CloneOf(cl, t.pid);
    RootAwaitsFork(t, s, s1, cl);
    ForkKeepsForest(s1, p, q);
    ForkFramed(s1, p, cl);
    FramedTwice(NodesOf(t.kids), {p}, PostOrderOf(t.kids), [p], cl, s, s1, Fork(s1, p, q));
    assert Nodes(t) == NodesOf(t.kids) + {p};
  }

  lemma {:induction false} RootAwaitsFork(t: Tree, s: System, s1: System, cl: map<Pid, Pid>)
    requires Intact(t, s) && Distinct(t) && FreshClones(Nodes(t), cl, s)
    requires Framed(NodesOf(t.kids), PostOrderOf(t.kids), cl, s, s1)
    ensures Nodes(t) <= s.children.Keys && t.pid in s1.children && Kids(s1, t.pid) == KidPids(t.kids)
    ensures CloneOf(cl, t.pid) !in s1.children
  {
    IntactNodes([t], s);
    assert CloneOf(cl, t.pid) !in Images(NodesOf(t.kids), cl);
  }

  lemma ForkFramed(s: System, p: Pid, cl: map<Pid, Pid>)
    requires p in s.children && CloneOf(cl, p) !in s.children && s.rank.Keys == s.children.Keys
    ensures Framed({p}, [p], cl, s, Fork(s, p, CloneOf(cl, p)))
    ensures Kids(Fork(s, p, CloneOf(cl, p)), p) == Kids(s, p) + [CloneOf(cl, p)]
    ensures Kids(Fork(s, p, CloneOf(cl, p)), CloneOf(cl, p)) == []
  {
    assert RevClones([p], cl) == [CloneOf(cl, p)];
    assert Images({p}, cl) == {CloneOf(cl, p)};
  }

  lemma {:induction false} ForkKeepsWalked(t: Tree, s: System, s1: System, cl: map<Pid, Pid>, l: seq<Pid>)
    requires Distinct(t) && FreshClones(Nodes(t), cl, s) && Nodes(t) <= s.children.Keys
    requires WalkedAll(t.kids, l, cl, s1)
    ensures WalkedAll(t.kids, l, cl, Fork(s1, t.pid, CloneOf(cl, t.pid)))
  {
    WalkedAllFrame(t.kids, l, cl, s1, Fork(s1, t.pid, CloneOf(cl, t.pid)));
  }

  lemma {:induction false} ForkLists(t: Tree, s: System, s2: System, cl: map<Pid, Pid>, l: seq<Pid>)
    requires FreshClones(Nodes(t), cl, s) && Nodes(t) <= s.children.Keys
    requires ListsAgree(Nodes(t), s.listed, l) && s2.listed == RevClones(PostOrder(t), cl) + s.listed
    ensures ListsAgree(Nodes(t), s2.listed, l)
    ensures forall u :: u in Nodes(t) ==> CloneOf(cl, u) in s2.listed
  {
    PostOrderNodes(t);
    RevClonesMembers(PostOrder(t), cl, Nodes(t));
    RevClonesAll(PostOrder(t), cl);
  }

  lemma {:induction false} RevClonesAll(xs: seq<Pid>, cl: map<Pid, Pid>)
    ensures forall x :: x in xs ==> CloneOf(cl, x) in RevClones(xs, cl)
  {
    if xs != [] { RevClonesAll(xs[1..], cl); }
  }

  lemma {:induction false} WalkedAllFrame(ts: seq<Tree>, l: seq<Pid>, cl: map<Pid, Pid>, s: System, s1: System)
    requires WalkedAll(ts, l, cl, s)
    requires forall u :: u in NodesOf(ts) ==>
               Kids(s1, u) == Kids(s, u) && Kids(s1, CloneOf(cl, u)) == Kids(s, CloneOf(cl, u))
    ensures WalkedAll(ts, l, cl, s1)
  {
    if ts != [] {
      assert NodesOf(ts) == {ts[0].pid} + NodesOf(ts[0].kids) + NodesOf(ts[1..]);
      SettledFrame(ts[0].kids, l, cl, s, s1);
      WalkedAllFrame(ts[1..], l, cl, s, s1);
    }
  }

  /** The clone is at most as deep as the children of its original. */
  lemma RewireApplies(s: System, p: Pid, q: Pid)
    requires Forest(s) && p in s.children && q in s.children && s.rank[q] == s.rank[p] + 1
    ensures forall c :: c in s.children[p] ==> c in s.children && s.rank[q] <= s.rank[c]
    ensures NoDup(s.children[p]) && p !in s.children[p]
  {
    assert DownLinks(s, p);
    forall c | c in s.children[p] ensures c in s.children && s.rank[q] <= s.rank[c] && c != p {
      assert UpLink(s, c);
    }
  }

  lemma {:induction false} ForkAndRewireEffect(t: Tree, s: System, s1: System, cl: map<Pid, Pid>, l: seq<Pid>)
    requires Forest(s1) && Intact(t, s) && Distinct(t) && FreshClones(Nodes(t), cl, s)
    requires ListsAgree(Nodes(t), s.listed, l)
    requires Framed(NodesOf(t.kids), PostOrderOf(t.kids), cl, s, s1) && WalkedAll(t.kids, l, cl, s1)
    ensures var s3 := ForkAndRewire(s1, t.pid, CloneOf(cl, t.pid));
            && Forest(s3)
            && Framed(Nodes(t), PostOrder(t), cl, s, s3)
            && WalkedTree(t, l, cl, s3)
            && s3.pPrime == CloneOf(cl, t.pid)
            && s3.moves == s1.moves + |Gather(t.kids, l, cl)|
  {
    var p, q := t.pid, CloneOf(cl, t.pid);
    var s2 := Fork(s1, p, q);
    ForkEffect(t, s, s1, cl, l);
    IntactNodes([t], s);
    assert p in Nodes(t);
    RewireApplies(s2, p, q);
    RewireEffect(s2, Kids(s2, p));
    RewiredTree(t, s, s2, Rewire(s2, Kids(s2, p)), cl, l);
  }

  lemma {:induction false} RewiredTree(t: Tree, s: System, s2: System, s3: System, cl: map<Pid, Pid>, l: seq<Pid>)
    requires Intact(t, s) && Distinct(t) && FreshClones(Nodes(t), cl, s)
    requires Framed(Nodes(t), PostOrder(t), cl, s, s2) && s2.pPrime == CloneOf(cl, t.pid)
    requires Kids(s2, t.pid) == KidPids(t.kids) + [s2.pPrime] && Kids(s2, s2.pPrime) == []
    requires WalkedAll(t.kids, l, cl, s2) && ListsAgree(Nodes(t), s2.listed, l)
    requires forall u :: u in Nodes(t) ==> CloneOf(cl, u) in s2.listed
    requires Rewired(s2, Kids(s2, t.pid), s3)
    ensures Framed(Nodes(t), PostOrder(t), cl, s, s3)
    ensures WalkedTree(t, l, cl, s3)
    ensures s3.moves == s2.moves + |Gather(t.kids, l, cl)|
  {
    var q := CloneOf(cl, t.pid);
    var rs := KidPids(t.kids);
    IntactNodes([t], s);
    NodesOfRoots(t.kids);
    assert t.pid in Nodes(t);
    GatherMatches(t.kids, l, cl, s2);
    GatherLiveSnoc(s2, rs, q);
    RewiredLists(t, s, s2, s3, cl);
    SettledFromWalked(t.kids, rs, l, cl, s2, s3);
  }

  /** Which lists the rewiring of `t.pid` changes, told in terms of the shape. */
  lemma {:induction false} RewiredLists(t: Tree, s: System, s2: System, s3: System, cl: map<Pid, Pid>)
    requires Distinct(t) && FreshClones(Nodes(t), cl, s) && Nodes(t) <= s.children.Keys <= s2.children.Keys
    requires s2.pPrime == CloneOf(cl, t.pid) && s2.pPrime in s2.listed
    requires Kids(s2, t.pid) == KidPids(t.kids) + [s2.pPrime]
    requires forall x :: x in KidPids(t.kids) ==> x in NodesOf(t.kids)
    requires Rewired(s2, Kids(s2, t.pid), s3)
    ensures forall u :: u in s.children && (u in KidPids(t.kids) ==> u in s2.listed) ==>
              s3.children[u] == s2.children[u]
    ensures forall u :: u in NodesOf(t.kids) ==> Kids(s3, CloneOf(cl, u)) == Kids(s2, CloneOf(cl, u))
    ensures forall u :: u in KidPids(t.kids) && u !in s2.listed ==> Kids(s3, u) == Keep(Kids(s2, u), s2.listed)
  {
    var rs, q := KidPids(t.kids), s2.pPrime;
    assert t.pid in Nodes(t);
    assert forall u :: u in rs + [q] <==> u in rs || u == q;
    forall u | u in NodesOf(t.kids) ensures Kids(s3, CloneOf(cl, u)) == Kids(s2, CloneOf(cl, u)) {
      assert u in Nodes(t);
      assert CloneOf(cl, u) != q && CloneOf(cl, u) !in s.children;
    }
  }

  lemma {:induction false} SingleTree(k: Tree, s: System)
    ensures KidPids([k]) == [k.pid] && NodesOf([k]) == Nodes(k) && (Intact(k, s) ==> IntactOf([k], s))
  {
    SliceStep([k], 0);
  }

  // ---------- when the walk copies the tree ----------

  function Clones(xs: seq<Pid>, cl: map<Pid, Pid>): (r: seq<Pid>)
    ensures |r| == |xs|
    ensures forall i :: 0 <= i < |xs| ==> r[i] == CloneOf(cl, xs[i])
  {
    if xs == [] then [] else [CloneOf(cl, xs[0])] + Clones(xs[1..], cl)
  }

  /** `s1` holds a copy of the tree: the children of each clone are the clones of the
      original's children, in order; every original still has exactly its old children,
      except that the clone of the root is a new last child of the root. */
  ghost predicate IsCopy(t: Tree, s: System, s1: System, cl: map<Pid, Pid>) {
    && s1.pPrime == CloneOf(cl, t.pid)
    && (forall x :: x in Nodes(t) ==> Kids(s1, CloneOf(cl, x)) == Clones(Kids(s, x), cl))
    && (forall x :: x in Nodes(t) ==> Kids(s1, x) == Kids(s, x) + if x == t.pid then [CloneOf(cl, x)] else [])
  }

  ghost predicate NoneListed(n: set<Pid>, l: seq<Pid>) {
    forall x :: x in n ==> x !in l
  }

  lemma {:induction false} AllKept(xs: seq<Pid>, l: seq<Pid>)
    ensures |Keep(xs, l)| <= |xs|
    ensures Keep(xs, l) == xs <==> forall x :: x in xs ==> x !in l
    ensures (forall x :: x in xs ==> x !in l) ==> Pick(xs, l) == []
  {
    if xs != [] {
      AllKept(xs[1..], l);
      assert xs == [xs[0]] + xs[1..];
      assert forall x :: x in xs <==> x == xs[0] || x in xs[1..];
    }
  }

  lemma {:induction false} GatherNoneListed(ts: seq<Tree>, l: seq<Pid>, cl: map<Pid, Pid>)
    requires NoneListed(NodesOf(ts), l)
    ensures Gather(ts, l, cl) == Clones(KidPids(ts), cl)
  {
    if ts != [] {
      var k := ts[0];
      assert NodesOf(ts) == {k.pid} + NodesOf(k.kids) + NodesOf(ts[1..]);
      NodesOfRoots(k.kids);
      AllKept(KidPids(k.kids), l);
      GatherNoneListed(ts[1..], l, cl);
      assert KidPids(ts)[1..] == KidPids(ts[1..]);
    }
  }

  lemma {:induction false} CopiedBelow(ts: seq<Tree>, s: System, s1: System, cl: map<Pid, Pid>, x: Pid)
    requires IntactOf(ts, s) && NoneListed(NodesOf(ts), s.listed) && Settled(ts, s.listed, cl, s1)
    requires x in NodesOf(ts)
    ensures Kids(s1, CloneOf(cl, x)) == Clones(Kids(s, x), cl) && Kids(s1, x) == Kids(s, x)
    decreases ts
  {
    var k := ts[0];
    assert NodesOf(ts) == {k.pid} + NodesOf(k.kids) + NodesOf(ts[1..]);
    if x in NodesOf(ts[1..]) {
      CopiedBelow(ts[1..], s, s1, cl, x);
    } else if x in NodesOf(k.kids) {
      CopiedBelow(k.kids, s, s1, cl, x);
    } else {
      NodesOfRoots(k.kids);
      AllKept(KidPids(k.kids), s.listed);
      GatherNoneListed(k.kids, s.listed, cl);
    }
  }

  /** Where a clone among the children of the copied root comes from. */
  lemma {:induction false} GatherMembers(ts: seq<Tree>, l: seq<Pid>, cl: map<Pid, Pid>, y: Pid)
    requires y in Gather(ts, l, cl)
    ensures y in NodesOf(ts) || exists k :: k in NodesOf(ts) && k !in l && y == CloneOf(cl, k)
  {
    var k := ts[0];
    assert NodesOf(ts) == {k.pid} + NodesOf(k.kids) + NodesOf(ts[1..]);
    if y in Gather(ts[1..], l, cl) {
      GatherMembers(ts[1..], l, cl, y);
    } else if y != CloneOf(cl, k.pid) {
      PickKeepMembers(KidPids(k.kids), l, y);
      NodesOfRoots(k.kids);
    }
  }

  lemma {:induction false} ListedChildIsLost(t: Tree, s: System, cl: map<Pid, Pid>, k: Pid)
    requires FreshClones(Nodes(t), cl, s) && Nodes(t) <= s.children.Keys
    requires k in KidPids(t.kids) && k in NodesOf(t.kids) && k in s.listed
    ensures Gather(t.kids, s.listed, cl) != Clones(KidPids(t.kids), cl)
  {
    var i :| 0 <= i < |t.kids| && KidPids(t.kids)[i] == k;
    assert Clones(KidPids(t.kids), cl)[i] == CloneOf(cl, k);
    if CloneOf(cl, k) in Gather(t.kids, s.listed, cl) {
      GatherMembers(t.kids, s.listed, cl, CloneOf(cl, k));
    }
  }

  lemma {:induction false} IntactMeansUnlisted(ts: seq<Tree>, s: System, s1: System, cl: map<Pid, Pid>)
    requires IntactOf(ts, s) && Settled(ts, s.listed, cl, s1)
    requires forall x :: x in NodesOf(ts) ==> Kids(s1, x) == Kids(s, x)
    requires forall k :: k in KidPids(ts) ==> k !in s.listed
    ensures NoneListed(NodesOf(ts), s.listed)
    decreases ts
  {
    if ts != [] {
      var k := ts[0];
      assert NodesOf(ts) == {k.pid} + NodesOf(k.kids) + NodesOf(ts[1..]);
      assert KidPids(ts) == [k.pid] + KidPids(ts[1..]);
      assert k.pid in KidPids(ts) && forall j :: j in KidPids(ts[1..]) ==> j in KidPids(ts);
      AllKept(KidPids(k.kids), s.listed);
      IntactMeansUnlisted(k.kids, s, s1, cl);
      IntactMeansUnlisted(ts[1..], s, s1, cl);
    }
  }

  lemma {:induction false} CopiedIfNoneListed(t: Tree, s: System, cl: map<Pid, Pid>, s1: System)
    requires Intact(t, s) && Distinct(t) && WalkedTree(t, s.listed, cl, s1) && s1.pPrime == CloneOf(cl, t.pid)
    requires NoneListed(NodesOf(t.kids), s.listed)
    ensures IsCopy(t, s, s1, cl)
  {
    GatherNoneListed(t.kids, s.listed, cl);
    forall x | x in Nodes(t)
      ensures Kids(s1, CloneOf(cl, x)) == Clones(Kids(s, x), cl)
      ensures Kids(s1, x) == Kids(s, x) + if x == t.pid then [CloneOf(cl, x)] else []
    {
      if x != t.pid { CopiedBelow(t.kids, s, s1, cl, x); }
    }
  }

  lemma {:induction false} NoneListedIfCopied(t: Tree, s: System, cl: map<Pid, Pid>, s1: System)
    requires Intact(t, s) && Distinct(t) && FreshClones(Nodes(t), cl, s) && Nodes(t) <= s.children.Keys
    requires WalkedTree(t, s.listed, cl, s1) && IsCopy(t, s, s1, cl)
    ensures NoneListed(NodesOf(t.kids), s.listed)
  {
    NodesOfRoots(t.kids);
    assert t.pid in Nodes(t);
    forall k | k in KidPids(t.kids) ensures k !in s.listed {
      if k in s.listed { ListedChildIsLost(t, s, cl, k); }
    }
    forall x | x in NodesOf(t.kids) ensures Kids(s1, x) == Kids(s, x) {
      assert x in Nodes(t) && x != t.pid;
    }
    IntactMeansUnlisted(t.kids, s, s1, cl);
  }

  /** `dfs` leaves a copy of the tree, under fresh pids, if and only if no task of the tree
      other than its root is in `pid_list_head` when it starts. */
  lemma {:induction false} CopiesExactlyWhenNoneListed(t: Tree, s: System, cl: map<Pid, Pid>, s1: System)
    requires Forest(s) && Intact(t, s) && FreshClones(Nodes(t), cl, s) && s1 == WalkTree(t, s, cl)
    ensures NoneListed(NodesOf(t.kids), s.listed) <==> IsCopy(t, s, s1, cl)
  {
    TreesAreDistinct(t, s);
    WalkTreeEffect(t, s, cl, s.listed);
    IntactNodes([t], s);
    if NoneListed(NodesOf(t.kids), s.listed) { CopiedIfNoneListed(t, s, cl, s1); }
    if IsCopy(t, s, s1, cl) { NoneListedIfCopied(t, s, cl, s1); }
  }

  lemma {:induction false} MovesNoneListed(ts: seq<Tree>, l: seq<Pid>, cl: map<Pid, Pid>)
    requires NoneListed(NodesOf(ts), l)
    ensures MovesBelow(ts, l, cl) + |ts| == |PostOrderOf(ts)|
    decreases ts
  {
    if ts != [] {
      assert NodesOf(ts) == {ts[0].pid} + NodesOf(ts[0].kids) + NodesOf(ts[1..]);
      GatherNoneListed(ts[0].kids, l, cl);
      MovesNoneListed(ts[0].kids, l, cl);
      MovesNoneListed(ts[1..], l, cl);
    }
  }

  lemma {:induction false} PostOrderLength(t: Tree)
    requires Distinct(t)
    ensures |PostOrder(t)| == |Nodes(t)|
    decreases t, 1
  {
    PostOrderOfLength(t.kids);
    assert Nodes(t) == {t.pid} + NodesOf(t.kids);
  }

  lemma {:induction false} PostOrderOfLength(ts: seq<Tree>)
    requires DistinctOf(ts)
    ensures |PostOrderOf(ts)| == |NodesOf(ts)|
    decreases ts, 0
  {
    if ts != [] {
      PostOrderLength(ts[0]);
      PostOrderOfLength(ts[1..]);
    }
  }

  /** As many tasks are new as tasks are cloned. */
  lemma ImagesSize(n: set<Pid>, cl: map<Pid, Pid>, s: System)
    requires FreshClones(n, cl, s)
    ensures |Images(n, cl)| == |n| && Images(n, cl) !! s.children.Keys
    decreases |n|
  {
    if n != {} {
      var x :| x in n;
      var rest := n - {x};
      ImagesSize(rest, cl, s);
      assert Images(n, cl) == Images(rest, cl) + {cl[x]};
    }
  }

  /** For `n` tasks a copying walk makes `n` forks and `n - 1` reparents, and leaves the clones
      in reverse post-order in front of the old list. */
  lemma {:induction false} WorkOfACopyingWalk(t: Tree, s: System, cl: map<Pid, Pid>)
    requires Forest(s) && Intact(t, s) && FreshClones(Nodes(t), cl, s)
    requires NoneListed(NodesOf(t.kids), s.listed)
    ensures var s1 := WalkTree(t, s, cl);
            && s1.listed == RevClones(PostOrder(t), cl) + s.listed
            && |s1.listed| == |s.listed| + |Nodes(t)|
            && |s1.children.Keys| == |s.children.Keys| + |Nodes(t)|
            && s1.moves == s.moves + |Nodes(t)| - 1
  {
    TreesAreDistinct(t, s);
    PostOrderLength(t);
    ImagesSize(Nodes(t), cl, s);
    WalkTreeEffect(t, s, cl, s.listed);
    MovesNoneListed(t.kids, s.listed, cl);
    GatherNoneListed(t.kids, s.listed, cl);
    RevClonesLength(PostOrder(t), cl);
  }

  lemma {:induction false} RevClonesLength(xs: seq<Pid>, cl: map<Pid, Pid>)
    ensures |RevClones(xs, cl)| == |xs|
  {
    if xs != [] { RevClonesLength(xs[1..], cl); }
  }

  /** The clone of the root stays behind as a listed child of the root. */
  lemma {:induction false} RootKeepsItsClone(t: Tree, s: System, cl: map<Pid, Pid>, s1: System)
    requires Forest(s) && Intact(t, s) && FreshClones(Nodes(t), cl, s) && s1 == WalkTree(t, s, cl)
    ensures Forest(s1) && t.pid in s1.children
    ensures CloneOf(cl, t.pid) in Kids(s1, t.pid) && CloneOf(cl, t.pid) in s1.listed
  {
    WalkTreeEffect(t, s, cl, s.listed);
    var q := CloneOf(cl, t.pid);
    assert Kids(s1, t.pid)[|KidPids(t.kids)|] == q;
    PostOrderNodes(t);
    assert t.pid in PostOrder(t);
    RevClonesAll(PostOrder(t), cl);
  }

  /** While a listed task, such as the clone that an earlier walk has made of the root, is a
      child of the root, no walk from the root leaves a copy. */
  lemma {:induction false} ListedChildMeansNoCopy(t: Tree, s: System, cl: map<Pid, Pid>, s1: System, q: Pid)
    requires Forest(s) && Intact(t, s) && FreshClones(Nodes(t), cl, s) && s1 == WalkTree(t, s, cl)
    requires q in Kids(s, t.pid) && q in s.listed
    ensures !IsCopy(t, s, s1, cl)
  {
    CopiesExactlyWhenNoneListed(t, s, cl, s1);
    NodesOfRoots(t.kids);
  }

  /** A walk that follows directly on a walk from the same root never leaves a copy. */
  lemma {:induction false} SecondWalkNeverCopies(t: Tree, s: System, cl: map<Pid, Pid>, t2: Tree, cl2: map<Pid, Pid>)
    requires Forest(s) && Intact(t, s) && FreshClones(Nodes(t), cl, s)
    requires var s1 := WalkTree(t, s, cl);
             t2.pid == t.pid && Intact(t2, s1) && FreshClones(Nodes(t2), cl2, s1)
    ensures var s1 := WalkTree(t, s, cl);
            !IsCopy(t2, s1, WalkTree(t2, s1, cl2), cl2)
  {
    var s1 := WalkTree(t, s, cl);
    RootKeepsItsClone(t, s, cl, s1);
    ListedChildMeansNoCopy(t2, s1, cl2, WalkTree(t2, s1, cl2), CloneOf(cl, t.pid));
  }

  /** The smallest case: task 1 with one child 2 whose pid is in the list, left over from a task
      that is gone.  The walk leaves the clone 12 of task 2 where it was born. */
  lemma ListedChildIsNotCopied()
    ensures var t := Node(1, [Node(2, [])]);
            var s := System(map[1 := [2], 2 := []], map[2 := 1], [2], 0, map[1 := 0, 2 := 1], 0);
            var cl := map[1 := 11, 2 := 12];
            && Forest(s) && Intact(t, s) && FreshClones(Nodes(t), cl, s)
            && !IsCopy(t, s, WalkTree(t, s, cl), cl)
  {
    var k := Node(2, []);
    var t := Node(1, [k]);
    var s := System(map[1 := [2], 2 := []], map[2 := 1], [2], 0, map[1 := 0, 2 := 1], 0);
    var cl := map[1 := 11, 2 := 12];
    SingleTree(k, s);
    assert KidPids(t.kids) == [2] && KidPids(k.kids) == [] && Nodes(k) == {2} && Nodes(t) == {1, 2};
    assert Intact(k, s);
    CopiesExactlyWhenNoneListed(t, s, cl, WalkTree(t, s, cl));
    assert 2 in NodesOf(t.kids);
  }
}
