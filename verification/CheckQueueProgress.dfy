/** The check queue does not get stuck: while the master is in its loop, some thread can go on
    without waiting for a wake-up, and every step but an idle wake-up brings the end nearer. */
module CheckQueueProgress {
  import opened CheckQueue

  // ---------------------------------------------------------------- the waiting master

  /** A waiting master has left nothing in the queue, and is notified when nothing is left to do, and
      only then. */
  ghost predicate MasterOk(s: State) {
    s.threads != [] && (s.threads[0].phase.Waiting? ==> s.queue == [] && (s.signalled <==> s.todo == 0))
  }

  lemma AccountedMaster(s: State, i: nat)
    requires MasterOk(s) && i < |s.threads| && s.threads[i].phase.Ready? && 0 < |s.threads[i].phase.checks| <= s.todo
    ensures i != 0 ==> MasterOk(Accounted(s, i))
  {
  }

  lemma LoopTopMaster(m: State, i: nat)
    requires m.threads != [] && i < |m.threads| && m.total > 0 && (i != 0 ==> MasterOk(m))
    ensures MasterOk(LoopTop(m, i))
  {
    if m.queue != [] {
      BatchCountFits(m);
    }
  }

  lemma StepMaster(s: State, s': State)
    requires Inv(s) && MasterOk(s) && Step(s, s')
    ensures MasterOk(s')
  {
    hide Inv, Mid, LoopTop, Accounted, Step;
    if Moves(s, s') {
      var m, i := CriticalSection(s, s');
      if s.threads[i].phase.Ready? {
        BatchNonempty(s, i);
        AccountedMaster(s, i);
        AccountedThreads(s, i);
      }
      LoopTopMaster(m, i);
    } else {
      OutsideMaster(s, s');
    }
  }

  lemma AccountedThreads(s: State, i: nat)
    requires i < |s.threads| && s.threads[i].phase.Ready? && |s.threads[i].phase.checks| <= s.todo
    ensures |Accounted(s, i).threads| == |s.threads|
  {
  }

  lemma BatchNonempty(s: State, i: nat)
    requires Inv(s) && i < |s.threads| && (s.threads[i].phase.Ready? || s.threads[i].phase.Running?)
    ensures s.threads[i].phase.checks != []
  {
    hide InFlight, Count, RunChecks, Fails, Passes;
    assert ThreadOk(s.threads[i], s.result);
  }

  /** A step that takes the lock inside the loop. */
  ghost predicate Moves(s: State, s': State) {
    Step(s, s') && !(exists checks :: AddStep(s, s', checks)) && !CallStep(s, s') && !(exists i :: RunStep(s, s', i))
  }

  lemma OutsideMaster(s: State, s': State)
    requires MasterOk(s) && Step(s, s') && !Moves(s, s')
    ensures MasterOk(s')
  {
    hide LoopTop, Accounted;
  }

  lemma {:induction false} RunMaster(run: seq<State>, n: nat)
    requires IsRun(run) && n < |run|
    ensures MasterOk(run[n])
  {
    hide Inv, Step, MasterOk;
    if n == 0 {
      InitMaster(run[0]);
    } else {
      RunMaster(run, n - 1);
      RunInv(run, n - 1);
      StepMaster(run[n - 1], run[n]);
    }
  }

  lemma InitMaster(s: State)
    requires Init(s)
    ensures MasterOk(s)
  {
  }

  // ---------------------------------------------------------------- no deadlock

  /** A thread that does not sleep: it can take the lock or run its batch. */
  ghost predicate CanMove(s: State, i: nat) {
    i < |s.threads| && (var p := s.threads[i].phase; p.Start? || p.Running? || p.Ready?
                                                     || (i == 0 && p.Waiting? && s.signalled))
  }

  lemma {:induction false} SomeBatch(ts: seq<Thread>) returns (i: nat)
    requires |InFlight(ts)| > 0
    ensures i < |ts| && (ts[i].phase.Running? || ts[i].phase.Ready?)
  {
    var m := |ts| - 1;
    if BatchOf(ts[m]) == [] {
      assert multiset(BatchOf(ts[m])) == multiset{};
      i := SomeBatch(ts[..m]);
    } else {
      i := m;
    }
  }

  /** In every run: as long as Complete has not returned, some thread is awake. */
  lemma NoDeadlock(run: seq<State>, n: nat)
    requires IsRun(run) && n < |run| && run[n].threads != [] && !run[n].threads[0].phase.Out?
    ensures exists i :: CanMove(run[n], i)
  {
    var s := run[n];
    RunMaster(run, n);
    TodoExact(run, n);
    hide Inv, Step, InFlight, IsRun;
    if s.threads[0].phase.Waiting? && s.todo > 0 {
      var i := SomeBatch(s.threads);
      assert CanMove(s, i);
    } else {
      assert CanMove(s, 0);
    }
  }

  /** A step of thread i. */
  ghost predicate StepOf(s: State, s': State, i: nat) {
    EnterStep(s, s', i) || WakeStep(s, s', i) || RunStep(s, s', i) || FinishStep(s, s', i)
  }

  /** A thread that is awake has a step of its own to take, which is not an idle wake-up. */
  lemma AwakeSteps(s: State, i: nat) returns (s': State)
    requires Inv(s) && MasterOk(s) && CanMove(s, i)
    ensures StepOf(s, s', i) && Step(s, s') && !Idles(s, s')
  {
    hide Inv, Mid, Accounted, LoopTop, Step, MasterOk;
    var t := s.threads[i];
    if t.phase.Running? {
      s' := SetThread(s, i, Thread(Ready(t.phase.checks, t.phase.doWork),
                                   if t.phase.doWork then RunChecks(t.phase.checks) else t.local));
      assert RunStep(s, s', i);
    } else if t.phase.Start? {
      s' := LoopTop(s.(total := s.total + 1), i);
      assert EnterStep(s, s', i);
      LoopTopLeaves(s.(total := s.total + 1), i);
    } else if t.phase.Waiting? {
      WakeMid(s, i);
      MidTotal(s.(idle := s.idle - 1), i);
      s' := LoopTop(s.(idle := s.idle - 1), i);
      assert WakeStep(s, s', i);
      MasterReturns(s);
    } else {
      AccountedMid(s, i);
      MidTotal(Accounted(s, i), i);
      AccountedTotal(s, i);
      s' := LoopTop(Accounted(s, i), i);
      assert FinishStep(s, s', i);
      LoopTopLeaves(Accounted(s, i), i);
    }
    StepBy(s, s', i);
    Moved(s, s', i);
  }

  /** After the top of its loop a thread is out, waits or runs a batch. */
  lemma LoopTopLeaves(m: State, i: nat)
    requires i < |m.threads| && m.total > 0
    ensures |LoopTop(m, i).threads| == |m.threads|
    ensures !LoopTop(m, i).threads[i].phase.Start? && !LoopTop(m, i).threads[i].phase.Ready?
  {
    if m.queue != [] {
      BatchCountFits(m);
    }
  }

  /** A notified master finds nothing left to do and returns. */
  lemma MasterReturns(s: State)
    requires MasterOk(s) && s.threads[0].phase.Waiting? && s.signalled && s.total > 0 && s.idle > 0
    ensures var s' := LoopTop(s.(idle := s.idle - 1), 0); |s'.threads| == |s.threads| && s'.threads[0].phase.Out?
  {
  }

  /** A step that changes the phase of a thread is no idle wake-up. */
  lemma Moved(s: State, s': State, i: nat)
    requires i < |s.threads| == |s'.threads| && s.threads[i].phase != s'.threads[i].phase
    ensures !Idles(s, s')
  {
  }

  lemma AccountedTotal(s: State, i: nat)
    requires i < |s.threads| && s.threads[i].phase.Ready? && |s.threads[i].phase.checks| <= s.todo
    ensures Accounted(s, i).total == s.total && |Accounted(s, i).threads| == |s.threads|
  {
  }

  lemma StepBy(s: State, s': State, i: nat)
    requires StepOf(s, s', i)
    ensures Step(s, s')
  {
    hide LoopTop, Accounted;
  }

  // ---------------------------------------------------------------- progress

  function ThreadWork(t: Thread): nat {
    match t.phase
    case Start => 1
    case Running(checks, _) => 2 * |checks|
    case Ready(checks, _) => |checks|
    case _ => 0
  }

  ghost function ThreadsWork(ts: seq<Thread>): nat {
    if ts == [] then 0 else ThreadsWork(ts[..|ts| - 1]) + ThreadWork(ts[|ts| - 1])
  }

  /** What is left to do. */
  ghost function Remaining(s: State): nat {
    3 * |s.queue| + ThreadsWork(s.threads)
  }

  lemma {:induction false} WorkUpdate(ts: seq<Thread>, i: nat, t: Thread)
    requires i < |ts|
    ensures ThreadsWork(ts[i := t]) + ThreadWork(ts[i]) == ThreadsWork(ts) + ThreadWork(t)
  {
    hide ThreadWork;
    var m := |ts| - 1;
    if i < m {
      WorkUpdate(ts[..m], i, t);
      assert ts[i := t][..m] == ts[..m][i := t];
    } else {
      assert ts[i := t][..m] == ts[..m];
    }
  }

  lemma LoopTopRemaining(m: State, i: nat)
    requires i < |m.threads| && m.total > 0
    ensures m.queue == [] ==> Remaining(LoopTop(m, i)) + ThreadWork(m.threads[i]) == Remaining(m)
    ensures m.queue != [] ==> Remaining(LoopTop(m, i)) + ThreadWork(m.threads[i]) < Remaining(m)
  {
    hide ThreadsWork;
    if m.queue != [] {
      BatchCountFits(m);
    }
    WorkUpdate(m.threads, i, LoopTop(m, i).threads[i]);
  }

  /** An idle wake-up: nothing to take, nothing to return. */
  ghost predicate Idles(s: State, s': State) {
    exists i: nat :: i < |s.threads| && s.threads[i].phase.Waiting? && s.queue == []
                     && s' == s.(signalled := i != 0 && s.signalled)
  }

  ghost predicate MasterLeaves(s: State, s': State) {
    s.threads != [] && s'.threads != [] && !s.threads[0].phase.Out? && s'.threads[0].phase.Out?
  }

  /** Every step inside the loop leaves less to do, or lets the master return, or is an idle wake-up. */
  lemma MovesProgress(s: State, s': State)
    requires Inv(s) && Moves(s, s')
    ensures Remaining(s') < Remaining(s) || MasterLeaves(s, s') || Idles(s, s')
  {
    hide Inv, Mid, LoopTop, Accounted, Step, ThreadsWork;
    var m, i := CriticalSection(s, s');
    if s.threads[i].phase.Ready? {
      BatchNonempty(s, i);
      AccountedRemaining(s, i);
    }
    LoopTopRemaining(m, i);
    if s.threads[i].phase.Waiting? && s.queue == [] {
      IdleWake(s, m, i);
    }
  }

  lemma AccountedRemaining(s: State, i: nat)
    requires i < |s.threads| && s.threads[i].phase.Ready? && 0 < |s.threads[i].phase.checks| <= s.todo
    ensures |Accounted(s, i).threads| == |s.threads| && Remaining(Accounted(s, i)) < Remaining(s)
    ensures ThreadWork(Accounted(s, i).threads[i]) == 0
  {
    hide ThreadsWork;
    WorkUpdate(s.threads, i, Accounted(s, i).threads[i]);
  }

  lemma IdleWake(s: State, m: State, i: nat)
    requires i < |s.threads| && s.threads[i].phase.Waiting? && s.queue == [] && s.idle > 0 && s.total > 0
             && m == s.(idle := s.idle - 1)
    ensures MasterLeaves(s, LoopTop(m, i)) || Idles(s, LoopTop(m, i))
  {
    if i == 0 && s.todo == 0 {
    } else {
      assert s.threads[i := s.threads[i].(phase := Waiting)] == s.threads;
      assert LoopTop(m, i) == s.(signalled := i != 0 && s.signalled);
    }
  }

  lemma RunProgress(s: State, s': State, i: nat)
    requires Inv(s) && RunStep(s, s', i)
    ensures Remaining(s') < Remaining(s)
  {
    BatchNonempty(s, i);
    hide Inv, ThreadsWork;
    WorkUpdate(s.threads, i, s'.threads[i]);
  }

  /** The steps of a stretch of a run that are not idle wake-ups. */
  ghost function Productive(run: seq<State>, a: nat, b: nat): nat
    requires a <= b < |run|
    decreases b - a
  {
    if a == b then 0 else Productive(run, a, b - 1) + if Idles(run[b - 1], run[b]) then 0 else 1
  }

  /** In every run: a call of Complete ends after at most as many steps, idle wake-ups aside, as there
      is left to do when it is made. */
  lemma {:induction false} CompleteEnds(run: seq<State>, a: nat, b: nat)
    requires IsRun(run) && a <= b < |run|
    requires forall n | a <= n <= b :: run[n].threads != [] && !run[n].threads[0].phase.Out?
    ensures Productive(run, a, b) + Remaining(run[b]) <= Remaining(run[a])
    decreases b - a
  {
    hide Inv, Remaining, Step, Idles, Moves;
    if a < b {
      CompleteEnds(run, a, b - 1);
      RunInv(run, b - 1);
      assert Step(run[b - 1], run[b]);
      InsideStep(run[b - 1], run[b]);
    }
  }

  lemma InsideStep(s: State, s': State)
    requires Inv(s) && Step(s, s') && s.threads != [] && s'.threads != [] && !s.threads[0].phase.Out?
             && !s'.threads[0].phase.Out?
    ensures if Idles(s, s') then Remaining(s') == Remaining(s) else Remaining(s') < Remaining(s)
  {
    hide Inv, LoopTop, Accounted, ThreadsWork;
    if i :| RunStep(s, s', i) {
      RunProgress(s, s', i);
    } else {
      assert Moves(s, s');
      MovesProgress(s, s');
    }
  }

  /** From every state of every run in which Complete is under way, steps that are not idle wake-ups
      lead to its return, and never more of them than there is left to do, and one. */
  lemma {:induction false} CompletionReached(run: seq<State>) returns (longer: seq<State>)
    requires IsRun(run) && run[|run| - 1].threads != [] && !run[|run| - 1].threads[0].phase.Out?
    ensures IsRun(longer) && |longer| > |run| && longer[..|run|] == run
    ensures longer[|longer| - 1].threads != [] && longer[|longer| - 1].threads[0].phase.Out?
    ensures |longer| - |run| <= Remaining(run[|run| - 1]) + 1
    ensures forall n | |run| - 1 <= n < |longer| - 1 :: !Idles(longer[n], longer[n + 1])
    decreases Remaining(run[|run| - 1])
  {
    hide Inv, Step, Init, MasterOk, Idles, CanMove, StepOf;
    var n := |run| - 1;
    var s := run[n];
    RunInv(run, n);
    RunMaster(run, n);
    NoDeadlock(run, n);
    var i: nat :| CanMove(s, i);
    var s' := AwakeSteps(s, i);
    RunInv(run, n);
    StepKeeps(s, s');
    StepMaster(s, s');
    StillMaster(s');
    var next := run + [s'];
    RunExtended(run, s');
    if s'.threads[0].phase.Out? {
      longer := next;
    } else {
      InsideStep(s, s');
      longer := CompletionReached(next);
      LongerStill(run, s', longer);
    }
  }

  lemma StillMaster(s: State)
    requires MasterOk(s)
    ensures s.threads != []
  {
  }

  lemma RunExtended(run: seq<State>, s': State)
    requires IsRun(run) && Step(run[|run| - 1], s')
    ensures IsRun(run + [s'])
  {
    hide Step, Init;
    var next := run + [s'];
    forall i | 0 <= i < |next| - 1
      ensures Step(next[i], next[i + 1])
    {
      if i < |run| - 1 {
        assert Step(run[i], run[i + 1]);
      }
    }
  }

  lemma LongerStill(run: seq<State>, s': State, longer: seq<State>)
    requires run != [] && |longer| > |run| + 1 && longer[..|run| + 1] == run + [s'] && !Idles(run[|run| - 1], s')
    requires forall n | |run| <= n < |longer| - 1 :: !Idles(longer[n], longer[n + 1])
    ensures longer[..|run|] == run
    ensures forall n | |run| - 1 <= n < |longer| - 1 :: !Idles(longer[n], longer[n + 1])
  {
    hide Idles;
    assert longer[..|run|] == longer[..|run| + 1][..|run|] == run;
    assert longer[|run| - 1] == longer[..|run| + 1][|run| - 1] == run[|run| - 1];
    assert longer[|run|] == longer[..|run| + 1][|run|] == s';
  }
}
