/** A thread group as the ring that `next_thread` walks, and the copies a clone pass makes. */
module ThreadRing {
  import opened ProcessTree

  datatype Regs = Regs(words: seq<int>)

  datatype Thread = Thread(pid: Pid, exiting: bool, regs: Regs, fsbase: nat, clearChildTid: nat)

  /** A thread made by the pass: the arguments of its clone call and its user registers. */
  datatype Copy = Copy(pid: Pid, childTid: nat, parentTid: nat, tls: nat, regs: Regs)

  /** Position of the thread behind position `i` in a ring of `n` threads. */
  function NextThread(n: nat, i: nat): nat
    requires i < n
  {
    if i + 1 < n then i + 1 else 0
  }

  function Live(ts: seq<Thread>): seq<Thread> {
    if ts == [] then [] else (if ts[0].exiting then [] else [ts[0]]) + Live(ts[1..])
  }

  /** What the kernel answers to the next clone call; running out of answers is a failure. */
  function Answer(results: seq<int>): int {
    if results == [] then -1 else results[0]
  }

  function CopyOf(t: Thread, pid: Pid): Copy {
    Copy(pid, t.clearChildTid, t.clearChildTid, t.fsbase, t.regs)
  }

  datatype Pass = Pass(made: seq<Copy>, failed: bool)

  /** The clone pass over the threads `ts`, when the clone calls return `results`. */
  function CopyAll(ts: seq<Thread>, results: seq<int>): Pass
    decreases ts
  {
    if ts == [] then Pass([], false)
    else if ts[0].exiting then CopyAll(ts[1..], results)
    else if Answer(results) < 0 then Pass([], true)
    else
      var rest := CopyAll(ts[1..], results[1..]);
      Pass([CopyOf(ts[0], results[0])] + rest.made, rest.failed)
  }

  /** `made` are copies of the threads `ts`, one each and in order. */
  ghost predicate Copies(made: seq<Copy>, ts: seq<Thread>) {
    && |made| == |ts|
    && forall i :: 0 <= i < |ts| ==>
         && made[i].regs == ts[i].regs && made[i].tls == ts[i].fsbase
         && made[i].childTid == ts[i].clearChildTid && made[i].parentTid == ts[i].clearChildTid
  }

  lemma {:induction false} LiveFirst(ts: seq<Thread>)
    requires ts != [] && !ts[0].exiting
    ensures Live(ts) == [ts[0]] + Live(ts[1..]) && Live(ts)[1..] == Live(ts[1..])
  {
  }

  /** A pass that does not fail copies every live thread once, in ring order; one that fails
      copies a proper prefix of the live threads. */
  lemma {:induction false} CopyAllResult(ts: seq<Thread>, results: seq<int>)
    ensures var p := CopyAll(ts, results);
            && |p.made| <= |Live(ts)|
            && Copies(p.made, Live(ts)[..|p.made|])
            && (p.failed <==> |p.made| < |Live(ts)|)
    decreases ts
  {
    if ts != [] {
      if ts[0].exiting {
        CopyAllResult(ts[1..], results);
      } else if Answer(results) >= 0 {
        LiveFirst(ts);
        CopyAllResult(ts[1..], results[1..]);
        var rest := CopyAll(ts[1..], results[1..]);
        CopiesCons(ts[0], results[0], rest.made, Live(ts[1..]));
      }
    }
  }

  lemma CopiesCons(t: Thread, pid: Pid, made: seq<Copy>, ts: seq<Thread>)
    requires |made| <= |ts| && Copies(made, ts[..|made|])
    ensures Copies([CopyOf(t, pid)] + made, ([t] + ts)[..|made| + 1])
  {
    PrefixCons(t, ts, |made|);
  }

  lemma PrefixCons(t: Thread, ts: seq<Thread>, n: nat)
    requires n <= |ts|
    ensures ([t] + ts)[..n + 1] == [t] + ts[..n]
  {
  }

  /** The threads made have the pids the kernel answered, and the pass fails only at a call
      that the kernel refused. */
  lemma {:induction false} CopyAllPids(ts: seq<Thread>, results: seq<int>)
    ensures var p := CopyAll(ts, results);
            && |p.made| <= |results|
            && (forall i :: 0 <= i < |p.made| ==> results[i] >= 0 && p.made[i].pid == results[i])
            && (p.failed ==> |p.made| == |results| || results[|p.made|] < 0)
    decreases ts
  {
    if ts != [] {
      if ts[0].exiting {
        CopyAllPids(ts[1..], results);
      } else if Answer(results) >= 0 {
        CopyAllPids(ts[1..], results[1..]);
        var p, rest := CopyAll(ts, results), CopyAll(ts[1..], results[1..]);
        forall i | 0 <= i < |p.made| ensures results[i] >= 0 && p.made[i].pid == results[i] {
          if i > 0 { assert results[i] == results[1..][i - 1] && p.made[i] == rest.made[i - 1]; }
        }
      }
    }
  }

  /** The threads between the caller and ring position `i`. */
  function Before(ring: seq<Thread>, i: nat): seq<Thread> {
    if 0 < i <= |ring| then ring[1..i] else []
  }

  lemma {:induction false} LiveSnoc(ts: seq<Thread>, t: Thread)
    ensures Live(ts + [t]) == Live(ts) + if t.exiting then [] else [t]
  {
    if ts == [] {
      assert ts + [t] == [t];
    } else {
      TailOfAppend(ts, [t]);
      LiveSnoc(ts[1..], t);
    }
  }

  lemma BeforeNext(ring: seq<Thread>, i: nat)
    requires 0 < i < |ring|
    ensures Before(ring, i + 1) == Before(ring, i) + [ring[i]]
    ensures Live(Before(ring, i + 1)) == Live(Before(ring, i)) + if ring[i].exiting then [] else [ring[i]]
  {
    LiveSnoc(Before(ring, i), ring[i]);
  }

  lemma StrictPrefix(ring: seq<Thread>, i: nat)
    requires 0 < i < |ring| && !ring[i].exiting
    ensures |Live(Before(ring, i))| < |Live(ring[1..])|
    ensures Live(ring[1..])[..|Live(Before(ring, i))|] == Live(Before(ring, i))
  {
    assert ring[1..] == Before(ring, i) + ring[i..];
    LiveConcat(Before(ring, i), ring[i..]);
    LiveFirst(ring[i..]);
  }

  lemma {:induction false} LiveConcat(a: seq<Thread>, b: seq<Thread>)
    ensures Live(a + b) == Live(a) + Live(b)
  {
    if a == [] {
      assert a + b == b;
    } else {
      TailOfAppend(a, b);
      LiveConcat(a[1..], b);
    }
  }

  lemma {:induction false} NoneLiveOf(ts: seq<Thread>)
    ensures Live(ts) == [] <==> forall k :: 0 <= k < |ts| ==> ts[k].exiting
  {
    if ts != [] { NoneLiveOf(ts[1..]); }
  }

  lemma NoneLive(ring: seq<Thread>)
    requires ring != []
    ensures Live(ring[1..]) == [] <==> forall k :: 0 < k < |ring| ==> ring[k].exiting
  {
    NoneLiveOf(ring[1..]);
    if Live(ring[1..]) == [] {
      forall k | 0 < k < |ring| ensures ring[k].exiting { assert ring[k] == ring[1..][k - 1]; }
    }
  }
}
