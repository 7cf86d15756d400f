/** Which of the processes that enter the probe, in the order in which they do, fork for a walk.

    `Serve` takes the tasks to be forked, in order, and the entries into the probe: an entry
    counts for the task that is waited for if that task makes it and its fork succeeds.  The
    imperative module is proved to use up its entries in exactly this way.
 */
module WalkEntries {
  import opened ProcessTree
  import opened WalkResult

  /** A process enters the probe on `schedule`; `result` is what its fork would return. */
  datatype Entry = Entry(current: Pid, result: int)

  /** The tasks that have been forked and those that have not, the entries nobody has used yet,
      and which tasks exist. */
  datatype Served = Served(done: seq<Pid>, left: seq<Pid>, rest: seq<Entry>, clones: map<Pid, Pid>, used: set<Pid>)

  /** The entry forks `p`: a pid in use is never the result of a successful fork. */
  predicate Hit(e: Entry, p: Pid, used: set<Pid>) {
    e.current == p && e.result >= 0 && e.result !in used
  }

  function Serve(xs: seq<Pid>, es: seq<Entry>, cl: map<Pid, Pid>, used: set<Pid>): Served
    decreases |es|
  {
    if xs == [] || es == [] then Served([], xs, es, cl, used)
    else if Hit(es[0], xs[0], used) then
      var r := Serve(xs[1..], es[1..], cl[xs[0] := es[0].result], used + {es[0].result});
      r.(done := [xs[0]] + r.done)
    else Serve(xs, es[1..], cl, used)
  }

  lemma {:induction false} ServeShape(xs: seq<Pid>, es: seq<Entry>, cl: map<Pid, Pid>, used: set<Pid>)
    ensures var r := Serve(xs, es, cl, used);
            && r.done + r.left == xs
            && (r.left != [] ==> r.rest == [])
            && (forall x :: x in r.clones <==> x in cl || x in r.done)
    decreases |es|
  {
    if xs != [] && es != [] {
      if Hit(es[0], xs[0], used) {
        ServeShape(xs[1..], es[1..], cl[xs[0] := es[0].result], used + {es[0].result});
        HeadAndTail(xs);
      } else {
        ServeShape(xs, es[1..], cl, used);
      }
    }
  }

  /** Serving `a + b` is serving `a` and then, if that was possible, `b`. */
  lemma {:induction false} ServeSplit(a: seq<Pid>, b: seq<Pid>, es: seq<Entry>, cl: map<Pid, Pid>, used: set<Pid>)
    ensures var r := Serve(a, es, cl, used);
            var r2 := Serve(b, r.rest, r.clones, r.used);
            Serve(a + b, es, cl, used)
            == if r.left == [] then r2.(done := a + r2.done) else r.(left := r.left + b)
    decreases |es|
  {
    if a == [] {
      assert a + b == b;
    } else if es != [] {
      TailOfAppend(a, b);
      if Hit(es[0], a[0], used) {
        var cl1, used1 := cl[a[0] := es[0].result], used + {es[0].result};
        ServeSplit(a[1..], b, es[1..], cl1, used1);
        HeadAndTail(a);
        var r := Serve(a[1..], es[1..], cl1, used1);
        Assoc([a[0]], a[1..], Serve(b, r.rest, r.clones, r.used).done);
      } else {
        ServeSplit(a, b, es[1..], cl, used);
      }
    }
  }

  /** A single task is served by the first entry that forks it. */
  lemma {:induction false} ServeOne(p: Pid, es: seq<Entry>, cl: map<Pid, Pid>, used: set<Pid>)
    ensures var r := Serve([p], es, cl, used);
            && (r.left != [] <==> forall e :: e in es ==> !Hit(e, p, used))
            && (r.left == [] ==>
                  exists k :: 0 <= k < |es| && Hit(es[k], p, used) && r.rest == es[k + 1..]
                              && r.clones == cl[p := es[k].result] && r.used == used + {es[k].result})
    decreases |es|
  {
    if es != [] {
      HeadAndTail(es);
      if !Hit(es[0], p, used) {
        ServeOne(p, es[1..], cl, used);
        var r := Serve([p], es[1..], cl, used);
        if r.left == [] {
          var k :| 0 <= k < |es[1..]| && Hit(es[1..][k], p, used) && r.rest == es[1..][k + 1..]
                   && r.clones == cl[p := es[1..][k].result] && r.used == used + {es[1..][k].result};
          assert es[1..][k] == es[k + 1];
          SliceOfTail(es, k + 1);
        }
      } else {
        assert [p][1..] == [];
      }
    }
  }

  lemma {:induction false} ServeNext(p: Pid, es: seq<Entry>, cl: map<Pid, Pid>, used: set<Pid>)
    requires es != []
    ensures Serve([p], es, cl, used)
            == if Hit(es[0], p, used) then Served([p], [], es[1..], cl[p := es[0].result], used + {es[0].result})
               else Serve([p], es[1..], cl, used)
  {
    assert [p][1..] == [];
  }

  lemma {:induction false} ServeAtMostOne(p: Pid, es: seq<Entry>, cl: map<Pid, Pid>, used: set<Pid>)
    ensures var r := Serve([p], es, cl, used);
            if r.left == [] then r.done == [p] else r.done == [] && r.left == [p] && r.used == used
    decreases |es|
  {
    if es != [] {
      ServeNext(p, es, cl, used);
      ServeAtMostOne(p, es[1..], cl, used);
    }
  }

  lemma SliceOfTail(es: seq<Entry>, k: nat)
    requires k < |es|
    ensures es[1..][k..] == es[k + 1..]
  {
  }

  // ---------- when all tasks are served ----------

  /** Entries that fork the tasks `xs` occur in this order. */
  ghost predicate Occur(xs: seq<Pid>, es: seq<Entry>)
    decreases |xs|
  {
    xs != [] ==> exists k :: 0 <= k < |es| && Succeeds(es[k], xs[0]) && Occur(xs[1..], es[k + 1..])
  }

  predicate Succeeds(e: Entry, p: Pid) {
    e.current == p && e.result >= 0
  }

  /** The kernel never returns a pid in use. */
  ghost predicate AllNew(es: seq<Entry>, used: set<Pid>) {
    && (forall k :: 0 <= k < |es| && es[k].result >= 0 ==> es[k].result !in used)
    && (forall j, k :: 0 <= j < k < |es| && es[j].result >= 0 ==> es[j].result != es[k].result)
  }

  lemma {:induction false} OccurLater(xs: seq<Pid>, es: seq<Entry>, n: nat)
    requires n <= |es| && Occur(xs, es[n..])
    ensures Occur(xs, es)
  {
    if xs != [] {
      var k :| 0 <= k < |es[n..]| && Succeeds(es[n..][k], xs[0]) && Occur(xs[1..], es[n..][k + 1..]);
      assert es[n..][k] == es[n + k] && es[n..][k + 1..] == es[n + k + 1..];
    }
  }

  lemma AllNewTail(es: seq<Entry>, used: set<Pid>)
    requires es != [] && AllNew(es, used)
    ensures AllNew(es[1..], used)
    ensures es[0].result >= 0 ==> AllNew(es[1..], used + {es[0].result as Pid})
  {
    forall j, k | 0 <= j < k < |es[1..]| && es[1..][j].result >= 0 ensures es[1..][j].result != es[1..][k].result {
      assert es[j + 1].result != es[k + 1].result;
    }
    forall k | 0 <= k < |es[1..]| && es[1..][k].result >= 0
      ensures es[1..][k].result !in used && es[1..][k].result != es[0].result
    {
      assert es[1..][k] == es[k + 1];
    }
  }

  /** All tasks are served if and only if entries that fork them occur in their order. */
  lemma {:induction false} ServedExactlyWhenOccur(xs: seq<Pid>, es: seq<Entry>, cl: map<Pid, Pid>, used: set<Pid>)
    requires AllNew(es, used)
    ensures Serve(xs, es, cl, used).left == [] <==> Occur(xs, es)
    decreases |es|
  {
    if xs != [] && es != [] {
      AllNewTail(es, used);
      assert es[0 + 1..] == es[1..];
      if Hit(es[0], xs[0], used) {
        ServedExactlyWhenOccur(xs[1..], es[1..], cl[xs[0] := es[0].result], used + {es[0].result});
        assert Succeeds(es[0], xs[0]);
        if Occur(xs, es) {
          var k :| 0 <= k < |es| && Succeeds(es[k], xs[0]) && Occur(xs[1..], es[k + 1..]);
          SliceOfTail(es, k);
          OccurLater(xs[1..], es[1..], k);
        }
      } else {
        ServedExactlyWhenOccur(xs, es[1..], cl, used);
        if Occur(xs, es) {
          var k :| 0 <= k < |es| && Succeeds(es[k], xs[0]) && Occur(xs[1..], es[k + 1..]);
          assert k > 0 && es[1..][k - 1] == es[k];
          SliceOfTail(es, k);
          assert es[1..][k - 1 + 1..] == es[k + 1..];
        }
        if Occur(xs, es[1..]) { OccurLater(xs, es, 1); }
      }
    }
  }

  // ---------- how far a walk has come ----------

  /** From `s`, with the entries `es`, the tasks `xs` were to be forked and rewired one by one;
      in `s1` all but `left` have been, and `es1` are the entries that remain. */
  ghost predicate Progress(xs: seq<Pid>, left: seq<Pid>, s: System, es: seq<Entry>, cl: map<Pid, Pid>,
                           s1: System, es1: seq<Entry>, cl1: map<Pid, Pid>) {
    var r := Serve(xs, es, cl, s.children.Keys);
    && r.left == left && r.rest == es1 && r.clones == cl1 && r.used == s1.children.Keys
    && s1 == WalkList(r.done, s, cl1)
  }

  lemma {:induction false} NoProgress(s: System, es: seq<Entry>, cl: map<Pid, Pid>)
    ensures Progress([], [], s, es, cl, s, es, cl)
  {
  }

  /** First all of `a`, then `b` as far as it goes. */
  lemma {:induction false} ProgressThen(
    a: seq<Pid>, b: seq<Pid>, left: seq<Pid>, s: System, es: seq<Entry>, cl: map<Pid, Pid>,
    s1: System, es1: seq<Entry>, cl1: map<Pid, Pid>, s2: System, es2: seq<Entry>, cl2: map<Pid, Pid>)
    requires Progress(a, [], s, es, cl, s1, es1, cl1) && Progress(b, left, s1, es1, cl1, s2, es2, cl2)
    requires Extends(cl2, cl1)
    ensures Progress(a + b, left, s, es, cl, s2, es2, cl2)
  {
    ServeSplit(a, b, es, cl, s.children.Keys);
    ServeShape(a, es, cl, s.children.Keys);
    var r, r2 := Serve(a, es, cl, s.children.Keys), Serve(b, es1, cl1, s1.children.Keys);
    assert r.done + [] == r.done;
    assert a == r.done;
    WalkListAgrees(a, s, cl1, cl2);
    WalkListSplit(a, r2.done, s, cl2);
  }

  /** What comes behind tasks that wait for a fork waits as well. */
  lemma {:induction false} ProgressStops(
    a: seq<Pid>, b: seq<Pid>, left: seq<Pid>, s: System, es: seq<Entry>, cl: map<Pid, Pid>,
    s1: System, es1: seq<Entry>, cl1: map<Pid, Pid>)
    requires Progress(a, left, s, es, cl, s1, es1, cl1) && left != []
    ensures Progress(a + b, left + b, s, es, cl, s1, es1, cl1)
  {
    ServeSplit(a, b, es, cl, s.children.Keys);
  }

  lemma {:induction false} WalkListAgrees(xs: seq<Pid>, s: System, cl: map<Pid, Pid>, cm: map<Pid, Pid>)
    requires forall x :: x in xs ==> CloneOf(cl, x) == CloneOf(cm, x)
    ensures WalkList(xs, s, cl) == WalkList(xs, s, cm)
    decreases |xs|
  {
    if xs != [] {
      assert xs[0] in xs && forall x :: x in xs[1..] ==> x in xs;
      WalkListAgrees(xs[1..], ForkAndRewire(s, xs[0], CloneOf(cl, xs[0])), cl, cm);
    }
  }
}
