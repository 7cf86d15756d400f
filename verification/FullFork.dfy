/** The whole-group fork of `fullfork.c`, call by call: its globals are fields; `hookRuns` counts
    the runs of the hook.

    In a call the new leader runs the hook; the threads it makes run the same hook, each of them
    at once or after the pass.  All other interleavings are the subject of `FullForkMachine`.
 */
module FullFork {
  import opened ProcessTree
  import opened ThreadRing

  /** What the kernel answers during one call of the handler.  `early` says which of the threads
      made run the hook at once, inside the pass; the others run it when the pass is over. */
  datatype Answers = Answers(stop: int, wait: int, leader: int, clones: seq<int>, early: seq<bool>, cont: int)

  /** The threads from position `i` to the end of the ring; none at the caller's own position. */
  ghost function From(ring: seq<Thread>, i: nat): seq<Thread>
    requires i < |ring|
  {
    if i == 0 then [] else ring[i..]
  }

  /** One position of the ring: what the clone pass does there and what it has still to do. */
  lemma {:induction false} PassStep(ring: seq<Thread>, i: nat, results: seq<int>, made: seq<Copy>)
    requires 0 < i < |ring|
    ensures var p, rest := CopyAll(From(ring, i), results), From(ring, NextThread(|ring|, i));
            if ring[i].exiting then p == CopyAll(rest, results)
            else if Answer(results) < 0 then p == Pass([], true)
            else
              && p.failed == CopyAll(rest, results[1..]).failed
              && made + p.made == made + [CopyOf(ring[i], results[0])] + CopyAll(rest, results[1..]).made
  {
    var ts := From(ring, i);
    assert ts != [] && ts[0] == ring[i] && ts[1..] == From(ring, NextThread(|ring|, i));
  }

  /** How many of the first `n` threads made run the hook at once. */
  function EarlyAmong(early: seq<bool>, n: nat): nat {
    if n == 0 then 0 else EarlyAmong(early, n - 1) + if n - 1 < |early| && early[n - 1] then 1 else 0
  }

  /** The call gives up before the leader is forked. */
  predicate Abandoned(ring: seq<Thread>, a: Answers)
    requires ring != []
  {
    Live(ring[1..]) != [] && (a.stop != 0 || a.wait < 0)
  }

  /** The clone pass of this call is run at all. */
  predicate Reaches(ring: seq<Thread>, a: Answers)
    requires ring != []
  {
    !Abandoned(ring, a) && a.leader >= 0
  }

  /** What the call logs, when `errorCheck` is what `error_check` is at its end. */
  function Logged(ring: seq<Thread>, a: Answers, errorCheck: int): int
    requires ring != []
  {
    if Abandoned(ring, a) then (if a.stop != 0 then a.stop else a.wait)
    else if a.leader < 0 then a.leader
    else errorCheck
  }

  predicate PassFails(ring: seq<Thread>, a: Answers)
    requires ring != []
  {
    Reaches(ring, a) && CopyAll(ring[1..], a.clones).failed
  }

  ghost predicate AnyFails(rings: seq<seq<Thread>>, answers: seq<Answers>, n: nat)
    requires n <= |rings| == |answers| && (forall i :: 0 <= i < |rings| ==> rings[i] != [])
  {
    exists j :: 0 <= j < n && PassFails(rings[j], answers[j])
  }

  /** The threads made by the first `n` calls. */
  function MadeBy(rings: seq<seq<Thread>>, answers: seq<Answers>, n: nat): seq<Copy>
    requires n <= |rings| == |answers| && (forall i :: 0 <= i < |rings| ==> rings[i] != [])
  {
    if n == 0 then []
    else
      var a, ring := answers[n - 1], rings[n - 1];
      MadeBy(rings, answers, n - 1) + if Reaches(ring, a) then CopyAll(ring[1..], a.clones).made else []
  }

  lemma FailsLater(rings: seq<seq<Thread>>, answers: seq<Answers>, n: nat)
    requires n < |rings| == |answers| && (forall i :: 0 <= i < |rings| ==> rings[i] != [])
    ensures AnyFails(rings, answers, n + 1) <==> AnyFails(rings, answers, n) || PassFails(rings[n], answers[n])
  {
    if AnyFails(rings, answers, n) {
      var j :| 0 <= j < n && PassFails(rings[j], answers[j]);
    }
  }

  /** What the first `n` calls log. */
  ghost predicate LogsOk(errs: seq<int>, rings: seq<seq<Thread>>, answers: seq<Answers>, n: nat)
    requires n <= |rings| == |answers| && (forall i :: 0 <= i < |rings| ==> rings[i] != [])
  {
    && |errs| == n
    && forall i :: 0 <= i < n ==>
         errs[i] == Logged(rings[i], answers[i], if AnyFails(rings, answers, i + 1) then -1 else 0)
  }

  lemma LogsLater(errs: seq<int>, rings: seq<seq<Thread>>, answers: seq<Answers>, n: nat, err: int)
    requires n < |rings| == |answers| && (forall i :: 0 <= i < |rings| ==> rings[i] != [])
    requires LogsOk(errs, rings, answers, n)
    requires err == Logged(rings[n], answers[n], if AnyFails(rings, answers, n + 1) then -1 else 0)
    ensures LogsOk(errs + [err], rings, answers, n + 1)
  {
  }

  lemma LogsMean(errs: seq<int>, rings: seq<seq<Thread>>, answers: seq<Answers>)
    requires |rings| == |answers| && (forall i :: 0 <= i < |rings| ==> rings[i] != [])
    requires LogsOk(errs, rings, answers, |rings|)
    ensures forall i :: 0 <= i < |rings| ==>
              (errs[i] == 0
               <==> Reaches(rings[i], answers[i]) && forall j :: 0 <= j <= i ==> !PassFails(rings[j], answers[j]))
  {
    forall i | 0 <= i < |rings|
      ensures errs[i] == 0
              <==> Reaches(rings[i], answers[i]) && forall j :: 0 <= j <= i ==> !PassFails(rings[j], answers[j])
    {
      assert errs[i] == Logged(rings[i], answers[i], if AnyFails(rings, answers, i + 1) then -1 else 0);
    }
  }

  lemma MadeLater(rings: seq<seq<Thread>>, answers: seq<Answers>, n: nat, before: seq<Copy>, made: seq<Copy>)
    requires n < |rings| == |answers| && (forall i :: 0 <= i < |rings| ==> rings[i] != [])
    requires made == before + MadeBy(rings, answers, n)
                     + if Reaches(rings[n], answers[n]) then CopyAll(rings[n][1..], answers[n].clones).made else []
    ensures made == before + MadeBy(rings, answers, n + 1)
  {
  }

  class Module {
    var trackedPid: int
    var trackedTgid: int
    var clone: bool
    var errorCheck: int
    var hooked: bool
    var made: seq<Copy>
    ghost var hookRuns: nat

    constructor ()
      ensures trackedPid == -1 && trackedTgid == 0 && !clone && errorCheck == 0 && !hooked && made == []
    {
      trackedPid, trackedTgid, clone, errorCheck, hooked, made := -1, 0, false, 0, false, [];
    }

    /** The scan for a sibling to stop: 0 stands for the jump to the clone label. */
    method FindSibling(ring: seq<Thread>) returns (i: nat)
      requires ring != []
      ensures i < |ring|
      ensures i == 0 <==> Live(ring[1..]) == []
      ensures i != 0 ==> !ring[i].exiting && forall k :: 0 < k < i ==> ring[k].exiting
    {
      i := NextThread(|ring|, 0);
      NoneLive(ring);
      if i == 0 { return; }
      while ring[i].exiting
        invariant 0 < i < |ring| && forall k :: 0 < k < i ==> ring[k].exiting
        decreases |ring| - i
      {
        i := NextThread(|ring|, i);
        if i == 0 { return; }
      }
    }

    /** The hook run by a new task whose parent's group is `ppid`; `ring[0]` is that parent. */
    method MyPullBack(ppid: Pid, ring: seq<Thread>, results: seq<int>, early: seq<bool>)
      requires ring != []
      modifies this`trackedPid, this`trackedTgid, this`clone, this`errorCheck, this`made, this`hookRuns
      ensures ppid == old(trackedPid) && !old(clone) ==>
                && made == old(made) + CopyAll(ring[1..], results).made
                && errorCheck == (if CopyAll(ring[1..], results).failed then -1 else old(errorCheck))
                && trackedPid == -1 && trackedTgid == -1 && !clone
      ensures !(ppid == old(trackedPid) && !old(clone)) ==>
                && made == old(made) && errorCheck == old(errorCheck)
                && trackedPid == old(trackedPid) && trackedTgid == old(trackedTgid) && clone == old(clone)
      ensures var n := if ppid == old(trackedPid) && !old(clone) then |CopyAll(ring[1..], results).made| else 0;
              hookRuns == old(hookRuns) + 1 + EarlyAmong(early, n)
      decreases !clone
    {
      hookRuns := hookRuns + 1;
      if ppid == trackedPid {
        if !clone {
          clone := true;
          var temp, rest, calls := NextThread(|ring|, 0), results, 0;
          ghost var all := CopyAll(ring[1..], results);
          while temp != 0
            invariant temp < |ring| && clone && errorCheck == old(errorCheck)
            invariant |made| == |old(made)| + calls && hookRuns == old(hookRuns) + 1 + EarlyAmong(early, calls)
            invariant made + CopyAll(From(ring, temp), rest).made == old(made) + all.made
            invariant CopyAll(From(ring, temp), rest).failed == all.failed
            decreases if temp == 0 then 0 else |ring| - temp
          {
            PassStep(ring, temp, rest, made);
            if !ring[temp].exiting {
              var clonePid := Answer(rest);
              if clonePid < 0 {
                errorCheck := -1;
                break;
              }
              var tid, tls := ring[temp].clearChildTid, ring[temp].fsbase;
              var child := Copy(clonePid, tid, tid, tls, Regs([]));
              child := child.(regs := ring[temp].regs);
              made, rest := made + [child], rest[1..];
              if calls < |early| && early[calls] { MyPullBack(ppid, ring, [], []); }
              calls := calls + 1;
            }
            temp := NextThread(|ring|, temp);
          }
          trackedPid := -1;
          trackedTgid := -1;
          clone := false;
        }
      }
    }

    /** `leader_clone` by the group leader `ppid`: fork the new leader and wait for its pass. */
    method LeaderClone(ppid: Pid, ring: seq<Thread>, a: Answers) returns (err: int)
      requires ring != [] && trackedPid == ppid && !clone
      modifies this`trackedPid, this`trackedTgid, this`clone, this`errorCheck, this`made, this`hookRuns
      ensures a.leader < 0 ==>
                && err == a.leader && made == old(made) && errorCheck == old(errorCheck) && hookRuns == old(hookRuns)
                && trackedPid == old(trackedPid) && trackedTgid == old(trackedTgid) && !clone
      ensures a.leader >= 0 ==>
                && err == errorCheck == (if CopyAll(ring[1..], a.clones).failed then -1 else old(errorCheck))
                && made == old(made) + CopyAll(ring[1..], a.clones).made
                && trackedPid == -1 && trackedTgid == -1 && !clone
                && hookRuns == old(hookRuns) + 1 + |CopyAll(ring[1..], a.clones).made|
    {
      if a.leader < 0 { return a.leader; }
      var first := |made|;
      MyPullBack(ppid, ring, a.clones, a.early);
      label passed:
      var k := 0;
      while first + k < |made|
        invariant made == old@passed(made) && errorCheck == old@passed(errorCheck)
        invariant trackedPid == -1 && trackedTgid == -1 && !clone && first + k <= |made|
        invariant hookRuns + EarlyAmong(a.early, k) == old@passed(hookRuns) + k
        decreases |made| - k
      {
        if k >= |a.early| || !a.early[k] { MyPullBack(ppid, ring, [], []); }
        k := k + 1;
      }
      err := errorCheck;
    }

    /** The handler, called by the group leader `ring[0]`; `err` is what it logs: the answer that
        made it give up, or the result of `leader_clone`. */
    method SyscallHandler(sysnr: int, ring: seq<Thread>, a: Answers) returns (err: int)
      requires ring != [] && !clone
      modifies this
      ensures sysnr != 548 ==>
                && made == old(made) && errorCheck == old(errorCheck) && hooked == old(hooked)
                && trackedPid == old(trackedPid) && trackedTgid == old(trackedTgid) && err == 0
      ensures sysnr == 548 ==>
                var released := !Abandoned(ring, a) && (a.leader >= 0 || a.cont >= 0);
                && err == Logged(ring, a, errorCheck)
                && made == old(made) + (if Reaches(ring, a) then CopyAll(ring[1..], a.clones).made else [])
                && errorCheck == (if PassFails(ring, a) then -1 else old(errorCheck))
                && (hooked <==> Abandoned(ring, a) || (Live(ring[1..]) == [] && old(hooked)))
                && trackedPid == (if released then -1 else ring[0].pid)
                && trackedTgid == (if released then -1 else ring[0].pid)
      ensures !clone
    {
      err := 0;
      if sysnr == 548 {
        trackedPid := ring[0].pid;
        trackedTgid := ring[0].pid;
        var i := FindSibling(ring);
        if i != 0 {
          hooked := true;
          if a.stop != 0 { return a.stop; }
          if a.wait < 0 { return a.wait; }
          hooked := false;
        }
        err := LeaderClone(ring[0].pid, ring, a);
        if a.cont < 0 { return; }
        trackedPid := -1;
        trackedTgid := -1;
      }
    }

    /** Any number of calls of 548, by any callers, and what each of them logs.  A call that runs
        its pass reports success if and only if neither that pass nor the pass of any call before
        it has failed: nothing ever resets `error_check`. */
    method ManyCalls(rings: seq<seq<Thread>>, answers: seq<Answers>) returns (errs: seq<int>)
      requires |rings| == |answers| && (forall i :: 0 <= i < |rings| ==> rings[i] != [])
      requires !clone && errorCheck == 0
      modifies this
      ensures LogsOk(errs, rings, answers, |rings|)
      ensures forall i :: 0 <= i < |rings| ==>
                (errs[i] == 0
                 <==> Reaches(rings[i], answers[i]) && forall j :: 0 <= j <= i ==> !PassFails(rings[j], answers[j]))
      ensures made == old(made) + MadeBy(rings, answers, |rings|)
    {
      errs := [];
      for n := 0 to |rings|
        invariant !clone
        invariant errorCheck == if AnyFails(rings, answers, n) then -1 else 0
        invariant LogsOk(errs, rings, answers, n)
        invariant made == old(made) + MadeBy(rings, answers, n)
      {
        var err := SyscallHandler(548, rings[n], answers[n]);
        MadeLater(rings, answers, n, old(made), made);
        FailsLater(rings, answers, n);
        LogsLater(errs, rings, answers, n, err);
        errs := errs + [err];
      }
      LogsMean(errs, rings, answers);
    }
  }

  /** Two calls by a group of two: the clone fails in the first; the second copies everything
      and reports failure all the same. */
  method FailureIsReportedAgain(t: Thread, u: Thread) returns (m: Module, errs: seq<int>)
    requires !u.exiting
    ensures !CopyAll([t, u][1..], [7]).failed && m.made == [CopyOf(u, 7)] && errs == [-1, -1]
  {
    m := new Module();
    var ring := [t, u];
    assert ring[1..] == [u] && [u][1..] == [];
    var first := m.SyscallHandler(548, ring, Answers(0, 0, 5, [-1], [], 0));
    var second := m.SyscallHandler(548, ring, Answers(0, 0, 6, [7], [], 0));
    errs := [first, second];
  }
}
