/** The tree-clone module as it runs: its globals are fields, `dfs` and the probe are methods.

    Each method is proved against the sequential walk of `ProcessTree`.  What the scheduler
    does while `dfs` waits is the field `entries`: the processes that will enter the probe,
    in order, each with the result the kernel has for its fork.  The contracts hold for every
    such sequence.
 */
module PtreeModule {
  import opened ProcessTree
  import opened WalkResult
  import opened WalkEntries

  // ---------- the first loop of `dfs` ----------

  /** The first `i` children of `t` have been walked; the rest of the tree is as it was. */
  ghost predicate Walking(t: Tree, i: nat, s: System, cl: map<Pid, Pid>, s1: System, cl1: map<Pid, Pid>)
    requires i <= |t.kids|
  {
    && Forest(s) && Intact(t, s) && Distinct(t) && cl.Keys !! Nodes(t)
    && cl1.Keys == cl.Keys + NodesOf(t.kids[..i]) && Extends(cl1, cl)
    && FreshClones(NodesOf(t.kids[..i]), cl1, s)
    && s1 == WalkKids(t.kids[..i], s, cl1)
  }

  lemma {:induction false} PrefixStart(t: Tree, s: System, cl: map<Pid, Pid>)
    requires Forest(s) && Intact(t, s) && cl.Keys !! Nodes(t)
    ensures Walking(t, 0, s, cl, s, cl)
  {
    TreesAreDistinct(t, s);
    assert t.kids[..0] == [];
  }

  lemma {:induction false} NodesOfSplit(a: seq<Tree>, b: seq<Tree>)
    ensures NodesOf(a + b) == NodesOf(a) + NodesOf(b)
  {
    if a == [] {
      assert a + b == b;
    } else {
      TailOfAppend(a, b);
      NodesOfSplit(a[1..], b);
    }
  }

  lemma {:induction false} DistinctSplit(a: seq<Tree>, b: seq<Tree>, s: System)
    requires DistinctOf(a + b) && IntactOf(a + b, s)
    ensures DistinctOf(a) && DistinctOf(b) && NodesOf(a) !! NodesOf(b)
    ensures IntactOf(a, s) && IntactOf(b, s)
  {
    if a == [] {
      assert a + b == b;
    } else {
      TailOfAppend(a, b);
      DistinctSplit(a[1..], b, s);
      NodesOfSplit(a[1..], b);
    }
  }

  lemma {:induction false} WalkKidsSplit(a: seq<Tree>, b: seq<Tree>, s: System, cl: map<Pid, Pid>)
    ensures WalkKids(a + b, s, cl) == WalkKids(b, WalkKids(a, s, cl), cl)
  {
    if a == [] {
      assert a + b == b;
    } else {
      TailOfAppend(a, b);
      WalkKidsSplit(a[1..], b, WalkTree(a[0], s, cl), cl);
    }
  }

  /** What the walk of the first `i` children leaves for the next one. */
  lemma {:induction false} PrefixEffect(t: Tree, i: nat, s: System, cl: map<Pid, Pid>, s1: System, cl1: map<Pid, Pid>)
    requires i <= |t.kids| && Walking(t, i, s, cl, s1, cl1)
    ensures Forest(s1) && Framed(NodesOf(t.kids[..i]), PostOrderOf(t.kids[..i]), cl1, s, s1)
    ensures t.pid in s1.children && s1.children[t.pid] == KidPids(t.kids)
    ensures Nodes(t) <= s.children.Keys && t.pid !in cl1
    ensures i < |t.kids| ==>
              && KidPids(t.kids)[i] == t.kids[i].pid && Nodes(t.kids[i]) <= Nodes(t)
              && Intact(t.kids[i], s1) && Distinct(t.kids[i])
              && cl1.Keys !! Nodes(t.kids[i])
  {
    IntactNodes([t], s);
    assert t.kids == t.kids[..i] + t.kids[i..];
    NodesOfSplit(t.kids[..i], t.kids[i..]);
    WalkKidsOf(t.kids[..i], t.kids[i..], s, cl1);
    if i < |t.kids| {
      var done, k, rest := t.kids[..i], t.kids[i], t.kids[i..];
      PrefixShape(t, i, s);
      IntactFrame([k], s, s1);
    }
  }

  lemma {:induction false} PrefixShape(t: Tree, i: nat, s: System)
    requires i < |t.kids| && Intact(t, s) && Distinct(t)
    ensures var k := t.kids[i];
            && KidPids(t.kids)[i] == k.pid
            && IntactOf([k], s) && Distinct(k)
            && NodesOf(t.kids[..i + 1]) == NodesOf(t.kids[..i]) + Nodes(k)
            && NodesOf([k]) == Nodes(k)
            && Nodes(k) <= Nodes(t) && Nodes(k) !! NodesOf(t.kids[..i])
  {
    var done, k, rest := t.kids[..i], t.kids[i], t.kids[i..];
    CutAt(t.kids, i);
    DistinctSplit(done, rest, s);
    NodesOfSplit(done, rest);
    KidPidAt(t.kids, i);
    NodesOfSplit(done, [k]);
    SingleTree(k, s);
  }

  lemma CutAt(ts: seq<Tree>, i: nat)
    requires i < |ts|
    ensures ts == ts[..i] + ts[i..] && ts[..i + 1] == ts[..i] + [ts[i]]
    ensures ts[i..] != [] && ts[i..][0] == ts[i]
  {
  }

  lemma {:induction false} WalkKidsOf(done: seq<Tree>, rest: seq<Tree>, s: System, cl: map<Pid, Pid>)
    requires Forest(s) && DistinctOf(done + rest) && IntactOf(done + rest, s) && FreshClones(NodesOf(done), cl, s)
    ensures Forest(WalkKids(done, s, cl))
    ensures Framed(NodesOf(done), PostOrderOf(done), cl, s, WalkKids(done, s, cl))
  {
    DistinctSplit(done, rest, s);
    WalkKidsEffect(done, s, cl, s.listed);
  }

  /** The list under the cursor of the first loop has not changed. */
  lemma PrefixList(t: Tree, i: nat, s: System, cl: map<Pid, Pid>, s1: System, cl1: map<Pid, Pid>)
    requires i <= |t.kids| && Walking(t, i, s, cl, s1, cl1)
    ensures t.pid in s1.children && s1.children[t.pid] == KidPids(t.kids)
  {
    PrefixEffect(t, i, s, cl, s1, cl1);
  }

  lemma {:induction false} PrefixStep(t: Tree, i: nat, s: System, cl: map<Pid, Pid>, s1: System, cl1: map<Pid, Pid>,
                                      s2: System, cl2: map<Pid, Pid>)
    requires i < |t.kids| && Walking(t, i, s, cl, s1, cl1)
    requires cl2.Keys == cl1.Keys + Nodes(t.kids[i]) && Extends(cl2, cl1)
    requires FreshClones(Nodes(t.kids[i]), cl2, s1) && s2 == WalkTree(t.kids[i], s1, cl2)
    ensures Walking(t, i + 1, s, cl, s2, cl2)
  {
    PrefixClones(t, i, s, cl, s1, cl1, cl2);
    PrefixState(t, i, s, cl1, cl2);
  }

  lemma PrefixClones(t: Tree, i: nat, s: System, cl: map<Pid, Pid>, s1: System, cl1: map<Pid, Pid>, cl2: map<Pid, Pid>)
    requires i < |t.kids| && Walking(t, i, s, cl, s1, cl1)
    requires cl2.Keys == cl1.Keys + Nodes(t.kids[i]) && Extends(cl2, cl1)
    requires FreshClones(Nodes(t.kids[i]), cl2, s1)
    ensures cl2.Keys == cl.Keys + NodesOf(t.kids[..i + 1]) && Extends(cl2, cl)
    ensures FreshClones(NodesOf(t.kids[..i + 1]), cl2, s)
  {
    PrefixEffect(t, i, s, cl, s1, cl1);
    PrefixShape(t, i, s);
    ClonesJoin(NodesOf(t.kids[..i]), Nodes(t.kids[i]), cl1, cl2, s, s1);
  }

  lemma {:induction false} PrefixState(t: Tree, i: nat, s: System, cl1: map<Pid, Pid>, cl2: map<Pid, Pid>)
    requires i < |t.kids| && NodesOf(t.kids[..i]) <= cl1.Keys && Extends(cl2, cl1)
    ensures WalkTree(t.kids[i], WalkKids(t.kids[..i], s, cl1), cl2) == WalkKids(t.kids[..i + 1], s, cl2)
  {
    var done, k := t.kids[..i], t.kids[i];
    SplitAt(t.kids, i);
    WalkKidsSplit(done, [k], s, cl2);
    WalkKidsAgrees(done, s, cl1, cl2);
    assert [k][1..] == [];
    assert WalkKids([k], WalkKids(done, s, cl2), cl2) == WalkTree(k, WalkKids(done, s, cl2), cl2);
  }

  /** Clones made before `s1` and clones made after it are all different. */
  lemma ClonesJoin(n: set<Pid>, m: set<Pid>, cl1: map<Pid, Pid>, cl2: map<Pid, Pid>, s: System, s1: System)
    requires FreshClones(n, cl1, s) && Extends(cl2, cl1) && FreshClones(m, cl2, s1)
    requires s1.children.Keys == s.children.Keys + Images(n, cl1)
    ensures FreshClones(n + m, cl2, s)
  {
    forall x | x in n ensures cl2[x] == cl1[x] && cl1[x] in s1.children {
      assert CloneOf(cl1, x) in Images(n, cl1);
    }
  }

  /** The fork and the rewiring of the root end the walk of the whole tree. */
  lemma {:induction false} LastStep(t: Tree, s: System, cl: map<Pid, Pid>, s1: System, cl1: map<Pid, Pid>,
                                    cl2: map<Pid, Pid>)
    requires Walking(t, |t.kids|, s, cl, s1, cl1)
    requires t.pid in cl2 && cl2 == cl1[t.pid := cl2[t.pid]] && cl2[t.pid] !in s1.children
    ensures cl2.Keys == cl.Keys + Nodes(t) && Extends(cl2, cl) && FreshClones(Nodes(t), cl2, s)
    ensures ForkAndRewire(s1, t.pid, cl2[t.pid]) == WalkTree(t, s, cl2)
  {
    PrefixEffect(t, |t.kids|, s, cl, s1, cl1);
    AllSlice(t.kids);
    LastClones(t, s, cl, s1, cl1, cl2);
    LastState(t, s, cl1, cl2);
  }

  lemma AllSlice(ts: seq<Tree>)
    ensures ts[..|ts|] == ts
  {
  }

  lemma {:induction false} LastClones(t: Tree, s: System, cl: map<Pid, Pid>, s1: System, cl1: map<Pid, Pid>,
                                      cl2: map<Pid, Pid>)
    requires cl1.Keys == cl.Keys + NodesOf(t.kids) && Extends(cl1, cl) && FreshClones(NodesOf(t.kids), cl1, s)
    requires s1.children.Keys == s.children.Keys + Images(NodesOf(t.kids), cl1)
    requires t.pid !in cl1 && t.pid in cl2 && cl2 == cl1[t.pid := cl2[t.pid]] && cl2[t.pid] !in s1.children
    ensures cl2.Keys == cl.Keys + Nodes(t) && Extends(cl2, cl) && FreshClones(Nodes(t), cl2, s)
  {
    assert FreshClones({t.pid}, cl2, s1);
    ClonesJoin(NodesOf(t.kids), {t.pid}, cl1, cl2, s, s1);
    assert Nodes(t) == NodesOf(t.kids) + {t.pid};
  }

  lemma {:induction false} LastState(t: Tree, s: System, cl1: map<Pid, Pid>, cl2: map<Pid, Pid>)
    requires NodesOf(t.kids) <= cl1.Keys && t.pid !in cl1 && t.pid in cl2 && cl2 == cl1[t.pid := cl2[t.pid]]
    ensures ForkAndRewire(WalkKids(t.kids, s, cl1), t.pid, cl2[t.pid]) == WalkTree(t, s, cl2)
  {
    WalkKidsAgrees(t.kids, s, cl1, cl2);
  }

  lemma {:induction false} PostOrderOfSplit(a: seq<Tree>, b: seq<Tree>)
    ensures PostOrderOf(a + b) == PostOrderOf(a) + PostOrderOf(b)
  {
    if a == [] {
      assert a + b == b;
    } else {
      TailOfAppend(a, b);
      PostOrderOfSplit(a[1..], b);
      Assoc(PostOrder(a[0]), PostOrderOf(a[1..]), PostOrderOf(b));
    }
  }

  lemma {:induction false} PrefixPostOrder(ts: seq<Tree>, i: nat)
    requires i < |ts|
    ensures PostOrderOf(ts[..i + 1]) == PostOrderOf(ts[..i]) + PostOrder(ts[i])
    ensures PostOrderOf(ts) == PostOrderOf(ts[..i + 1]) + PostOrderOf(ts[i + 1..])
  {
    SplitAt(ts, i);
    PostOrderOfSplit(ts[..i], [ts[i]]);
    SliceStep([ts[i]], 0);
    assert PostOrderOf([ts[i]]) == PostOrder(ts[i]) + PostOrderOf([]);
    assert ts == ts[..i + 1] + ts[i + 1..];
    PostOrderOfSplit(ts[..i + 1], ts[i + 1..]);
  }

  /** The wait for the fork of a single task. */
  lemma {:induction false} OneProgress(p: Pid, s: System, es: seq<Entry>, cl: map<Pid, Pid>,
                                       s1: System, es1: seq<Entry>, cl1: map<Pid, Pid>, over: bool)
    requires Forest(s) && p in s.children
    requires var r := Serve([p], es, cl, s.children.Keys);
             (over <==> r.left == []) && es1 == r.rest && cl1 == r.clones
    requires s1 == if over then ForkAndRewire(s, p, CloneOf(cl1, p)) else s
    ensures Progress([p], if over then [] else [p], s, es, cl, s1, es1, cl1)
  {
    var r := Serve([p], es, cl, s.children.Keys);
    ServeShape([p], es, cl, s.children.Keys);
    ServeAtMostOne(p, es, cl, s.children.Keys);
    ServeOne(p, es, cl, s.children.Keys);
    if over {
      WalkListOne(p, s, cl1);
      var q := cl1[p];
      ForkKeepsForest(s, p, q);
      var forked := Fork(s, p, q);
      RewireApplies(forked, p, q);
      RewireEffect(forked, forked.children[p]);
    }
  }

  lemma {:induction false} FirstProgress(t: Tree, s: System, es: seq<Entry>, cl: map<Pid, Pid>)
    ensures Progress(PostOrderOf(t.kids[..0]), [], s, es, cl, s, es, cl)
  {
    assert t.kids[..0] == [];
    NoProgress(s, es, cl);
  }

  lemma {:induction false} LastProgress(t: Tree, s: System, es: seq<Entry>, cl: map<Pid, Pid>,
                                        s1: System, es1: seq<Entry>, cl1: map<Pid, Pid>)
    requires Progress(PostOrderOf(t.kids[..|t.kids|]), [], s, es, cl, s1, es1, cl1)
    ensures Progress(PostOrderOf(t.kids), [], s, es, cl, s1, es1, cl1)
  {
    AllSlice(t.kids);
  }

  /** One child further, or stuck in it. */
  lemma {:induction false} KidProgress(
    t: Tree, i: nat, left: seq<Pid>, s: System, es: seq<Entry>, cl: map<Pid, Pid>,
    s1: System, es1: seq<Entry>, cl1: map<Pid, Pid>, s2: System, es2: seq<Entry>, cl2: map<Pid, Pid>)
    requires i < |t.kids| && Progress(PostOrderOf(t.kids[..i]), [], s, es, cl, s1, es1, cl1)
    requires Progress(PostOrder(t.kids[i]), left, s1, es1, cl1, s2, es2, cl2) && Extends(cl2, cl1)
    ensures Progress(PostOrderOf(t.kids[..i + 1]), left, s, es, cl, s2, es2, cl2)
    ensures left != [] ==>
              Progress(PostOrderOf(t.kids), left + PostOrderOf(t.kids[i + 1..]), s, es, cl, s2, es2, cl2)
  {
    PrefixPostOrder(t.kids, i);
    ProgressThen(PostOrderOf(t.kids[..i]), PostOrder(t.kids[i]), left, s, es, cl, s1, es1, cl1, s2, es2, cl2);
    if left != [] {
      ProgressStops(PostOrderOf(t.kids[..i + 1]), PostOrderOf(t.kids[i + 1..]), left, s, es, cl, s2, es2, cl2);
    }
  }

  /** Which entries the walk has used, and whether they were enough. */
  lemma {:induction false} WalkOutcome(t: Tree, left: seq<Pid>, s: System, es: seq<Entry>,
                                       s1: System, es1: seq<Entry>, cl1: map<Pid, Pid>)
    requires Progress(PostOrder(t), left, s, es, map[], s1, es1, cl1)
    ensures var r := Serve(PostOrder(t), es, map[], s.children.Keys);
            r.left == left && es1 == r.rest && cl1 == r.clones && s1 == WalkList(r.done, s, cl1)
    ensures AllNew(es, s.children.Keys) ==> (left == [] <==> Occur(PostOrder(t), es))
  {
    if AllNew(es, s.children.Keys) { ServedExactlyWhenOccur(PostOrder(t), es, map[], s.children.Keys); }
  }

  lemma {:induction false} WalkedRoot(t: Tree, s: System, cl: map<Pid, Pid>, s1: System)
    requires Forest(s) && Intact(t, s) && FreshClones(Nodes(t), cl, s) && s1 == WalkTree(t, s, cl)
    ensures t.pid in cl && s1.pPrime == cl[t.pid]
    ensures NoneListed(NodesOf(t.kids), s.listed) <==> IsCopy(t, s, s1, cl)
  {
    CopiesExactlyWhenNoneListed(t, s, cl, s1);
    WalkTreeEffect(t, s, cl, s.listed);
    assert t.pid in Nodes(t);
  }

  /** The first loop of `dfs` has come to child `i`. */
  ghost predicate AtKid(t: Tree, i: nat, s: System, es: seq<Entry>, cl: map<Pid, Pid>,
                        s1: System, es1: seq<Entry>, cl1: map<Pid, Pid>)
    requires i <= |t.kids|
  {
    Walking(t, i, s, cl, s1, cl1) && Progress(PostOrderOf(t.kids[..i]), [], s, es, cl, s1, es1, cl1)
  }

  lemma {:induction false} AtFirstKid(t: Tree, s: System, es: seq<Entry>, cl: map<Pid, Pid>)
    requires Forest(s) && Intact(t, s) && cl.Keys !! Nodes(t)
    ensures AtKid(t, 0, s, es, cl, s, es, cl)
  {
    PrefixStart(t, s, cl);
    FirstProgress(t, s, es, cl);
  }

  // ---------- the module ----------

  class Module {
    var children: map<Pid, seq<Pid>>
    var parent: map<Pid, Pid>
    var pidList: seq<Pid>
    var pPrime: Pid
    var targetPid: int
    var done: bool
    var woken: seq<Pid>
    var entries: seq<Entry>
    ghost var rank: map<Pid, nat>
    ghost var moves: nat
    ghost var clones: map<Pid, Pid>

    ghost function Sys(): System
      reads this
    {
      System(children, parent, pidList, pPrime, rank, moves)
    }

    /** The kernel's `reparent`. */
    method MoveTask(c: Pid, np: Pid)
      requires c in parent && parent[c] in children && np in children
      modifies this`children, this`parent, this`moves
      ensures Sys() == Reparent(old(Sys()), c, np)
    {
      var op := parent[c];
      children := children[op := Without(children[op], c)];
      children := children[np := children[np] + [c]];
      parent := parent[c := np];
      moves := moves + 1;
    }

    /** `my_kernel_clone` on behalf of `current`: negative when no task was made. */
    method FullFork(current: Pid, result: int) returns (pid: int)
      modifies this`children, this`parent, this`rank, this`clones
      ensures pid < 0 <==> result < 0 || result in old(children)
      ensures pid < 0 ==> Sys() == old(Sys()) && clones == old(clones)
      ensures pid >= 0 ==>
                && pid == result && Sys() == Born(old(Sys()), current, pid) && clones == old(clones)[current := pid]
    {
      if result < 0 || result in children { return -1; }
      pid := result;
      children := children[current := (if current in children then children[current] else []) + [pid]];
      children := children[pid := []];
      parent := parent[pid := current];
      rank := rank[pid := (if current in rank then rank[current] else 0) + 1];
      clones := clones[current := pid];
    }

    /** The probe behind the first instruction of `schedule`. */
    method AfterSchedule(current: Pid, result: int)
      modifies this`children, this`parent, this`rank, this`clones, this`pidList, this`pPrime, this`targetPid, this`done
      ensures var hit := current == old(targetPid) && result >= 0 && result !in old(children);
              && (hit ==> Sys() == Fork(old(Sys()), current, result) && clones == old(clones)[current := result]
                          && targetPid == -1 && done)
              && (!hit ==> Sys() == old(Sys()) && clones == old(clones)
                           && targetPid == old(targetPid) && done == old(done))
    {
      if current == targetPid {
        var clonePid := FullFork(current, result);
        if clonePid < 0 { return; }
        pidList := [clonePid] + pidList;
        pPrime := clonePid;
        targetPid := -1;
        done := true;
      }
    }

    /** The wait for `done`; false when no further process enters the probe.  It ends with the
        first entry that forks `p`. */
    method WaitForClone(ghost p: Pid) returns (over: bool)
      requires targetPid == p && !done && p in children
      modifies this`children, this`parent, this`rank, this`clones, this`pidList, this`pPrime, this`targetPid,
               this`done, this`entries
      ensures over ==> done && targetPid == -1 && p in clones && clones[p] !in old(children)
                       && clones == old(clones)[p := clones[p]] && Sys() == Fork(old(Sys()), p, clones[p])
      ensures !over ==> entries == [] && !done && targetPid == p && clones == old(clones) && Sys() == old(Sys())
      ensures over <==> exists k :: 0 <= k < |old(entries)| && Hit(old(entries)[k], p, old(children).Keys)
      ensures over ==> exists k :: 0 <= k < |old(entries)| && Hit(old(entries)[k], p, old(children).Keys)
                                   && clones[p] == old(entries)[k].result && entries == old(entries)[k + 1..]
      ensures var r := Serve([p], old(entries), old(clones), old(children).Keys);
              && (over <==> r.left == []) && entries == r.rest && clones == r.clones && children.Keys == r.used
    {
      ghost var r := Serve([p], entries, clones, children.Keys);
      ServeOne(p, entries, clones, children.Keys);
      while !done && entries != []
        invariant !done ==> targetPid == p && clones == old(clones) && Sys() == old(Sys())
        invariant done ==> targetPid == -1 && p in clones && clones[p] !in old(children)
                           && clones == old(clones)[p := clones[p]] && Sys() == Fork(old(Sys()), p, clones[p])
        invariant !done ==> Serve([p], entries, clones, children.Keys) == r
        invariant done ==> r.left == [] && r.rest == entries && r.clones == clones && r.used == children.Keys
        decreases |entries|
      {
        var e := entries[0];
        ServeNext(p, entries, clones, children.Keys);
        entries := entries[1..];
        AfterSchedule(e.current, e.result);
      }
      over := done;
    }

    /** The inner loop, over the live children of `c`. */
    method MoveClones(c: Pid)
      requires Forest(Sys()) && c in children && pPrime in children && c != pPrime && rank[pPrime] <= rank[c]
      modifies this`children, this`parent, this`moves
      ensures Sys() == MoveListed(old(Sys()), old(children[c]))
      ensures Forest(Sys()) && Moved(old(Sys()), c, [], old(children[c]), Sys())
    {
      ghost var s := Sys();
      var gi := 0;
      while gi < |children[c]|
        invariant Forest(Sys()) && SameElsewhere(s, Sys(), {c, pPrime}) && gi <= |children[c]|
        invariant MoveListed(Sys(), children[c][gi..]) == MoveListed(s, s.children[c])
        decreases |children[c]| - gi
      {
        var gc := children[c][gi];
        ghost var kept, rest := children[c][..gi], children[c][gi + 1..];
        assert children[c] == kept + ([gc] + rest);
        assert children[c][gi..] == [gc] + rest;
        assert ([gc] + rest)[1..] == rest;
        assert DownLinks(Sys(), c);
        assert UpLink(Sys(), gc);
        if gc in pidList {
          MoveOne(Sys(), c, kept, gc, rest);
          MoveTask(gc, pPrime);
          assert children[c][gi..] == rest;
        } else {
          gi := gi + 1;
        }
      }
      assert [] + s.children[c] == s.children[c];
      MoveListedEffect(s, c, [], s.children[c]);
    }

    /** The two loops that hand the clones of the children of `p` to the clone of `p`. */
    method RewireClones(p: Pid)
      requires Forest(Sys()) && p in children && pPrime in children && pPrime in pidList && rank[pPrime] == rank[p] + 1
      modifies this`children, this`parent, this`moves
      ensures Sys() == Rewire(old(Sys()), old(children[p]))
    {
      ghost var s := Sys();
      var ci := 0;
      RewireApplies(s, p, pPrime);
      while ci < |children[p]|
        invariant Forest(Sys()) && children[p] == s.children[p] && p in children && ci <= |children[p]|
        invariant children.Keys == s.children.Keys && rank == s.rank && pidList == s.listed && pPrime == s.pPrime
        invariant Rewire(Sys(), children[p][ci..]) == Rewire(s, s.children[p])
      {
        var c := children[p][ci];
        RewireApplies(Sys(), p, pPrime);
        assert c in children[p];
        assert children[p][ci..][0] == c && children[p][ci..][1..] == children[p][ci + 1..];
        if c !in pidList { MoveClones(c); }
        ci := ci + 1;
      }
      assert children[p][ci..] == [];
    }

    /** The part of `dfs(p)` behind the wait; `s` is the state before the fork. */
    method RewireAfterFork(p: Pid, ghost s: System)
      requires Forest(s) && p in s.children && p in clones && clones[p] !in s.children && Sys() == Fork(s, p, clones[p])
      modifies this`children, this`parent, this`moves, this`done, this`targetPid
      ensures !done && targetPid == -1
      ensures Forest(Sys()) && Sys() == ForkAndRewire(s, p, clones[p])
    {
      ghost var s1 := Sys();
      done := false;
      ForkKeepsForest(s, p, clones[p]);
      RewireApplies(s1, p, pPrime);
      RewireEffect(s1, s1.children[p]);
      RewireClones(p);
      targetPid := -1;
    }

    /** The part of `dfs(p)` behind its first loop. */
    method AwaitAndRewire(p: Pid) returns (returned: bool)
      requires Forest(Sys()) && p in children && p !in clones && targetPid == -1 && !done
      modifies this`children, this`parent, this`rank, this`clones, this`pidList, this`pPrime, this`targetPid,
               this`done, this`entries, this`moves
      ensures returned ==>
                && targetPid == -1 && !done
                && p in clones && clones[p] !in old(children) && clones == old(clones)[p := clones[p]]
                && Sys() == ForkAndRewire(old(Sys()), p, clones[p])
      ensures !returned ==> entries == [] && !done && targetPid == p && clones == old(clones)
      ensures Forest(Sys())
      ensures Progress([p], if returned then [] else [p], old(Sys()), old(entries), old(clones), Sys(), entries, clones)
    {
      ghost var s := Sys();
      targetPid := p;
      returned := WaitForClone(p);
      if returned { RewireAfterFork(p, s); }
      OneProgress(p, s, old(entries), old(clones), Sys(), entries, clones, returned);
    }

    /** One round of the first loop: the walk of child `i`, found in the live list. */
    method DfsKid(p: Pid, i: nat, ghost t: Tree, ghost s: System, ghost es: seq<Entry>, ghost cl: map<Pid, Pid>)
      returns (returned: bool, ghost left: seq<Pid>)
      requires p == t.pid && i < |t.kids| && p in children && children[p] == KidPids(t.kids)
      requires targetPid == -1 && !done && Forest(Sys()) && AtKid(t, i, s, es, cl, Sys(), entries, clones)
      modifies this`children, this`parent, this`rank, this`clones, this`pidList, this`pPrime, this`targetPid,
               this`done, this`entries, this`moves
      ensures returned ==>
                targetPid == -1 && !done && p in children && children[p] == KidPids(t.kids)
                && AtKid(t, i + 1, s, es, cl, Sys(), entries, clones)
      ensures !returned ==> entries == [] && !done && targetPid in Nodes(t) && targetPid !in clones
      ensures Forest(Sys()) && Extends(clones, old(clones))
      ensures returned == (left == []) && (left != [] ==> targetPid == left[0])
      ensures !returned ==> Progress(PostOrderOf(t.kids), left, s, es, cl, Sys(), entries, clones)
      decreases t, 0
    {
      ghost var s1, es1, cl1 := Sys(), entries, clones;
      PrefixEffect(t, i, s, cl, s1, cl1);
      returned, left := Dfs(children[p][i], t.kids[i]);
      KidProgress(t, i, left, s, es, cl, s1, es1, cl1, Sys(), entries, clones);
      if returned {
        PrefixStep(t, i, s, cl, s1, cl1, Sys(), clones);
        PrefixList(t, i + 1, s, cl, Sys(), clones);
      } else {
        left := left + PostOrderOf(t.kids[i + 1..]);
      }
    }

    /** The first loop of `dfs(p)`: the walk of each child of `p`, over the live list. */
    method DfsKids(p: Pid, ghost t: Tree) returns (returned: bool, ghost left: seq<Pid>)
      requires p == t.pid && Forest(Sys()) && Intact(t, Sys())
      requires targetPid == -1 && !done && clones.Keys !! Nodes(t)
      modifies this`children, this`parent, this`rank, this`clones, this`pidList, this`pPrime, this`targetPid,
               this`done, this`entries, this`moves
      ensures returned ==> targetPid == -1 && !done && Walking(t, |t.kids|, old(Sys()), old(clones), Sys(), clones)
      ensures !returned ==> entries == [] && !done && targetPid in Nodes(t) && targetPid !in clones
      ensures Forest(Sys()) && Extends(clones, old(clones))
      ensures returned == (left == []) && (left != [] ==> targetPid == left[0])
      ensures Progress(PostOrderOf(t.kids), left, old(Sys()), old(entries), old(clones), Sys(), entries, clones)
      decreases t, 1
    {
      ghost var s, es, cl := Sys(), entries, clones;
      var i := 0;
      AtFirstKid(t, s, es, cl);
      while i < |children[p]|
        invariant targetPid == -1 && !done && Forest(Sys()) && Extends(clones, cl)
        invariant p in children && children[p] == KidPids(t.kids)
        invariant 0 <= i <= |t.kids| && AtKid(t, i, s, es, cl, Sys(), entries, clones)
        decreases |t.kids| - i
      {
        returned, left := DfsKid(p, i, t, s, es, cl);
        if !returned { return; }
        i := i + 1;
      }
      returned, left := true, [];
      LastProgress(t, s, es, cl, Sys(), entries, clones);
    }

    /** `dfs(p)`, where `t` is the tree below `p`; false when the walk still waits for a fork
        after every process in `entries` has been through the probe.  `left` are the tasks that
        have not been forked; the walk waits for the first of them. */
    method Dfs(p: Pid, ghost t: Tree) returns (returned: bool, ghost left: seq<Pid>)
      requires p == t.pid && Forest(Sys()) && Intact(t, Sys())
      requires targetPid == -1 && !done && clones.Keys !! Nodes(t)
      modifies this`children, this`parent, this`rank, this`clones, this`pidList, this`pPrime, this`targetPid,
               this`done, this`entries, this`moves
      ensures returned ==>
                && targetPid == -1 && !done
                && clones.Keys == old(clones.Keys) + Nodes(t)
                && FreshClones(Nodes(t), clones, old(Sys()))
                && Sys() == WalkTree(t, old(Sys()), clones)
      ensures !returned ==> entries == [] && !done && targetPid in Nodes(t) && targetPid !in clones
      ensures Forest(Sys()) && Extends(clones, old(clones))
      ensures returned == (left == []) && (left != [] ==> targetPid == left[0])
      ensures Progress(PostOrder(t), left, old(Sys()), old(entries), old(clones), Sys(), entries, clones)
      decreases t, 2
    {
      ghost var s, es, cl := Sys(), entries, clones;
      returned, left := DfsKids(p, t);
      if !returned {
        ProgressStops(PostOrderOf(t.kids), [p], left, s, es, cl, Sys(), entries, clones);
        left := left + [p];
        return;
      }
      ghost var s1, es1, cl1 := Sys(), entries, clones;
      PrefixEffect(t, |t.kids|, s, cl, s1, cl1);
      returned := AwaitAndRewire(p);
      left := if returned then [] else [p];
      ProgressThen(PostOrderOf(t.kids), [p], left, s, es, cl, s1, es1, cl1, Sys(), entries, clones);
      if returned { LastStep(t, s, cl, s1, cl1, clones); }
    }

    /** The handler of system call 548: copy the tree of the calling process, then wake the
        thread of the copied root. */
    method SyscallHandler(sysnr: int, current: Pid, ghost t: Tree) returns (finished: bool)
      requires current == t.pid && Forest(Sys()) && Intact(t, Sys())
      requires targetPid == -1 && !done
      modifies this
      ensures sysnr != 548 ==>
                && finished && Sys() == old(Sys()) && woken == old(woken) && entries == old(entries)
                && clones == old(clones)
      ensures finished ==> targetPid == -1 && !done
      ensures sysnr == 548 ==>
                var r := Serve(PostOrder(t), old(entries), map[], old(children).Keys);
                && (finished <==> r.left == []) && (r.left != [] ==> targetPid == r.left[0] && !done)
                && entries == r.rest && clones == r.clones && Sys() == WalkList(r.done, old(Sys()), clones)
      ensures sysnr == 548 && AllNew(old(entries), old(children).Keys) ==>
                (finished <==> Occur(PostOrder(t), old(entries)))
      ensures sysnr == 548 && finished ==>
                && FreshClones(Nodes(t), clones, old(Sys()))
                && Sys() == WalkTree(t, old(Sys()), clones)
                && (IsCopy(t, old(Sys()), Sys(), clones) <==> NoneListed(NodesOf(t.kids), old(pidList)))
                && woken == old(woken) + [clones[current]]
      ensures !finished ==> woken == old(woken) && entries == [] && targetPid in Nodes(t) && targetPid !in clones
      ensures Forest(Sys())
    {
      finished := true;
      if sysnr == 548 {
        clones := map[];
        ghost var s, es, left := Sys(), entries, [];
        finished, left := Dfs(current, t);
        WalkOutcome(t, left, s, es, Sys(), entries, clones);
        if finished {
          WalkedRoot(t, s, clones, Sys());
          woken := woken + [pPrime];
        }
      }
    }

    /** Two calls of 548 by one process, one directly after the other: `mid` is the state between
        them, in which the process has the tree `t2`.  The second call leaves no copy of it. */
    method CallTwice(current: Pid) returns (finished: bool, ghost t: Tree, ghost mid: System, ghost t2: Tree)
      requires Forest(Sys()) && current in children && targetPid == -1 && !done
      modifies this
      ensures finished ==>
                && (exists cl :: FreshClones(Nodes(t), cl, old(Sys())) && mid == WalkTree(t, old(Sys()), cl))
                && t.pid == current && Intact(t, old(Sys()))
                && t2.pid == current && Intact(t2, mid) && Forest(mid)
                && FreshClones(Nodes(t2), clones, mid) && Sys() == WalkTree(t2, mid, clones)
                && !IsCopy(t2, mid, Sys(), clones)
      ensures !finished ==> entries == []
    {
      t := EveryTaskHasATree(Sys(), current);
      mid, t2 := Sys(), t;
      finished := SyscallHandler(548, current, t);
      if !finished { return; }
      mid := Sys();
      ghost var cl := clones;
      RootKeepsItsClone(t, old(Sys()), cl, mid);
      t2 := EveryTaskHasATree(mid, current);
      finished := SyscallHandler(548, current, t2);
      if finished { ListedChildMeansNoCopy(t2, mid, clones, Sys(), CloneOf(cl, current)); }
    }
  }
}
