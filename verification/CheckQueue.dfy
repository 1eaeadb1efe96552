/** The check queue as a state machine: one master and any number of workers, each acting in
    critical sections under one mutex and running its checks outside. */
module CheckQueue {
  import opened Options

  /** A verification and the error it yields, if any. */
  datatype Check = Check(id: nat, outcome: Option<nat>)

  /** Where a thread is: outside the loop (the master between calls), about to enter it, waiting
      on its condition variable, running a batch, or done running and about to take the lock. */
  datatype Phase =
    | Out | Start | Waiting | Running(checks: seq<Check>, doWork: bool) | Ready(checks: seq<Check>, doWork: bool)

  /** local is local_result, which survives from one batch to the next. */
  datatype Thread = Thread(phase: Phase, local: Option<nat>)

  /** Thread 0 is the master. signalled says whether a waiting master has been notified and has yet to
      take the lock; the workers' wake-ups are left open. added and finished are histories: the checks
      added since the last completion, and those of them whose batch has been accounted for. */
  datatype State = State(queue: seq<Check>, todo: nat, idle: nat, total: nat, result: Option<nat>, batchSize: nat,
                         threads: seq<Thread>, signalled: bool,
                         added: multiset<Check>, finished: multiset<Check>)

  // ---------------------------------------------------------------- counting

  function BatchOf(t: Thread): seq<Check> {
    if t.phase.Running? || t.phase.Ready? then t.phase.checks else []
  }

  ghost function InFlight(ts: seq<Thread>): multiset<Check> {
    if ts == [] then multiset{} else InFlight(ts[..|ts| - 1]) + multiset(BatchOf(ts[|ts| - 1]))
  }

  predicate Active(t: Thread) {
    !t.phase.Out? && !t.phase.Start?
  }

  ghost function Count(p: Thread -> bool, ts: seq<Thread>): nat {
    if ts == [] then 0 else Count(p, ts[..|ts| - 1]) + if p(ts[|ts| - 1]) then 1 else 0
  }

  ghost function IsWaiting(): Thread -> bool {
    (t: Thread) => t.phase.Waiting?
  }

  ghost function IsActive(): Thread -> bool {
    (t: Thread) => Active(t)
  }

  lemma {:induction false} InFlightUpdate(ts: seq<Thread>, i: nat, t: Thread)
    requires i < |ts|
    ensures InFlight(ts[i := t]) + multiset(BatchOf(ts[i])) == InFlight(ts) + multiset(BatchOf(t))
  {
    hide InFlight, BatchOf;
    var m, ts' := |ts| - 1, ts[i := t];
    InFlightLast(ts);
    InFlightLast(ts');
    var x, y := multiset(BatchOf(ts[i])), multiset(BatchOf(t));
    if i < m {
      InFlightUpdate(ts[..m], i, t);
      assert ts'[..m] == ts[..m][i := t];
      Exchange(InFlight(ts'[..m]), x, InFlight(ts[..m]), y, multiset(BatchOf(ts[m])));
    } else {
      assert ts'[..m] == ts[..m];
      Reorder(InFlight(ts[..m]), y, x);
    }
  }

  lemma InFlightLast(ts: seq<Thread>)
    requires ts != []
    ensures InFlight(ts) == InFlight(ts[..|ts| - 1]) + multiset(BatchOf(ts[|ts| - 1]))
  {
  }

  lemma Exchange(a: multiset<Check>, b: multiset<Check>, c: multiset<Check>, d: multiset<Check>, e: multiset<Check>)
    requires a + b == c + d
    ensures (a + e) + b == (c + e) + d
  {
    Reorder(a, e, b);
    Reorder(c, e, d);
  }

  lemma Reorder(a: multiset<Check>, b: multiset<Check>, c: multiset<Check>)
    ensures (a + b) + c == (a + c) + b
  {
  }

  /** The effect on the batches when one side has none. */
  lemma InFlightChange(ts: seq<Thread>, i: nat, t: Thread)
    requires i < |ts|
    ensures BatchOf(ts[i]) == BatchOf(t) ==> InFlight(ts[i := t]) == InFlight(ts)
    ensures BatchOf(ts[i]) == [] ==> InFlight(ts[i := t]) == InFlight(ts) + multiset(BatchOf(t))
    ensures BatchOf(t) == [] ==> InFlight(ts[i := t]) + multiset(BatchOf(ts[i])) == InFlight(ts)
  {
    hide InFlight, BatchOf;
    InFlightUpdate(ts, i, t);
    var a, b := InFlight(ts[i := t]), InFlight(ts);
    if BatchOf(ts[i]) == BatchOf(t) {
      var e := multiset(BatchOf(t));
      assert a == (a + e) - e && b == (b + e) - e;
    }
    if BatchOf(ts[i]) == [] {
      assert a + multiset([]) == a;
    }
    if BatchOf(t) == [] {
      assert b + multiset([]) == b;
    }
  }

  lemma {:induction false} CountUpdate(p: Thread -> bool, ts: seq<Thread>, i: nat, t: Thread)
    requires i < |ts|
    ensures Count(p, ts[i := t]) + (if p(ts[i]) then 1 else 0) == Count(p, ts) + if p(t) then 1 else 0
  {
    var m := |ts| - 1;
    if i < m {
      CountUpdate(p, ts[..m], i, t);
      assert ts[i := t][..m] == ts[..m][i := t];
    } else {
      assert ts[i := t][..m] == ts[..m];
    }
  }

  /** A thread with a batch contributes it. */
  lemma {:induction false} InFlightHas(ts: seq<Thread>, i: nat)
    requires i < |ts|
    ensures multiset(BatchOf(ts[i])) <= InFlight(ts)
  {
    var m := |ts| - 1;
    if i < m {
      InFlightHas(ts[..m], i);
    }
  }

  // ---------------------------------------------------------------- the steps

  function SetThread(s: State, i: nat, t: Thread): State
    requires i < |s.threads|
  {
    s.(threads := s.threads[i := t])
  }

  /** The size of the next batch. */
  function BatchCount(s: State): nat {
    var share := |s.queue| / (s.total + s.idle + 1);
    var bounded := if s.batchSize < share then s.batchSize else share;
    if bounded < 1 then 1 else bounded
  }

  lemma BatchCountFits(s: State)
    requires s.queue != []
    ensures 1 <= BatchCount(s) <= |s.queue|
  {
    var d := s.total + s.idle + 1;
    assert |s.queue| / d <= |s.queue|;
  }

  /** The rest of a critical section, from the top of the inner loop: return (master only), wait,
      or take a batch from the end of the queue. */
  function LoopTop(s: State, i: nat): State
    requires i < |s.threads| && s.total > 0
  {
    var t := s.threads[i];
    if s.queue == [] then
      if i == 0 && s.todo == 0 then
        SetThread(s, i, t.(phase := Out)).(total := s.total - 1, result := None, added := multiset{},
                                           finished := multiset{})
      else SetThread(s, i, t.(phase := Waiting)).(idle := s.idle + 1, signalled := i != 0 && s.signalled)
    else
      BatchCountFits(s);
      var k := |s.queue| - BatchCount(s);
      SetThread(s, i, t.(phase := Running(s.queue[k..], s.result.None?))).(queue := s.queue[..k])
  }

  /** Add: the master puts checks into the queue. */
  ghost predicate AddStep(s: State, s': State, checks: seq<Check>) {
    && s.threads != [] && s.threads[0].phase.Out?
    && s' == s.(queue := s.queue + checks, todo := s.todo + |checks|, added := s.added + multiset(checks))
  }

  /** Complete: the master is about to join the workers, with fresh local variables. */
  ghost predicate CallStep(s: State, s': State) {
    s.threads != [] && s.threads[0].phase.Out? && s' == SetThread(s, 0, Thread(Start, None))
  }

  /** First critical section of a thread. */
  ghost predicate EnterStep(s: State, s': State, i: nat) {
    i < |s.threads| && s.threads[i].phase.Start? && s' == LoopTop(s.(total := s.total + 1), i)
  }

  /** A waiting thread wakes up, notified or not. */
  ghost predicate WakeStep(s: State, s': State, i: nat) {
    i < |s.threads| && s.threads[i].phase.Waiting? && s.idle > 0 && s.total > 0
        && s' == LoopTop(s.(idle := s.idle - 1), i)
  }

  /** The error of the first failing check, as the loop over the batch leaves it. */
  function RunChecks(checks: seq<Check>): Option<nat> {
    if checks == [] then None else if checks[0].outcome.Some? then checks[0].outcome else RunChecks(checks[1..])
  }

  /** A batch runs outside the lock, or is skipped when an error was known. */
  ghost predicate RunStep(s: State, s': State, i: nat) {
    && i < |s.threads| && s.threads[i].phase.Running?
    && var p := s.threads[i].phase;
       s' == SetThread(s, i, Thread(Ready(p.checks, p.doWork), if p.doWork then RunChecks(p.checks)
                                    else s.threads[i].local))
  }

  /** Accounting for a batch: a local error becomes the result if there is none yet, and the two
      are exchanged; the worker that accounts for the last check notifies the master. */
  function Accounted(s: State, i: nat): State
    requires i < |s.threads| && s.threads[i].phase.Ready? && |s.threads[i].phase.checks| <= s.todo
  {
    var t := s.threads[i];
    var swap := t.local.Some? && s.result.None?;
    SetThread(s, i, Thread(Waiting, if swap then s.result else t.local))
      .(result := if swap then t.local else s.result, todo := s.todo - |t.phase.checks|,
        signalled := s.signalled || (i != 0 && s.todo == |t.phase.checks| && s.threads[0].phase.Waiting?),
        finished := s.finished + multiset(t.phase.checks))
  }

  /** The critical section after a batch. */
  ghost predicate FinishStep(s: State, s': State, i: nat) {
    && i < |s.threads| && s.threads[i].phase.Ready? && |s.threads[i].phase.checks| <= s.todo && s.total > 0
    && s' == LoopTop(Accounted(s, i), i)
  }

  ghost predicate Step(s: State, s': State) {
    || (exists checks :: AddStep(s, s', checks))
    || CallStep(s, s')
    || (exists i :: EnterStep(s, s', i))
    || (exists i :: WakeStep(s, s', i))
    || (exists i :: RunStep(s, s', i))
    || (exists i :: FinishStep(s, s', i))
  }

  /** Any number of workers, all about to enter; the master outside. */
  ghost predicate Init(s: State) {
    && s.queue == [] && s.todo == 0 && s.idle == 0 && s.total == 0 && s.result == None
    && s.added == multiset{} && s.finished == multiset{}
    && s.threads != [] && s.threads[0] == Thread(Out, None)
    && (forall i | 1 <= i < |s.threads| :: s.threads[i] == Thread(Start, None))
  }

  // ---------------------------------------------------------------- the invariant

  predicate Passes(c: Check) {
    c.outcome.None?
  }

  /** What a thread knows about its batch. */
  ghost predicate ThreadOk(t: Thread, result: Option<nat>) {
    && ((t.phase.Running? || t.phase.Ready?) ==> t.phase.checks != [] && (!t.phase.doWork ==> result.Some?))
    && (t.phase.Ready? && t.phase.doWork ==> t.local == RunChecks(t.phase.checks))
  }

  /** Some check among cs fails with error r. */
  ghost predicate Fails(cs: multiset<Check>, r: nat) {
    exists c :: c in cs && c.outcome == Some(r)
  }

  ghost predicate Inv(s: State) {
    && s.added == multiset(s.queue) + InFlight(s.threads) + s.finished
    && s.todo == |s.queue| + |InFlight(s.threads)|
    && s.idle == Count(IsWaiting(), s.threads) && s.total == Count(IsActive(), s.threads)
    && (s.result.None? ==> forall c | c in s.finished :: Passes(c))
    && (s.result.Some? ==> Fails(s.added, s.result.value))
    && s.threads != [] && (forall i | 0 <= i < |s.threads| :: ThreadOk(s.threads[i], s.result))
  }

  // ---------------------------------------------------------------- inside a critical section

  /** The threads with thread i taken as waiting: its batch is accounted for. */
  function Parked(s: State, i: nat): seq<Thread>
    requires i < |s.threads|
  {
    s.threads[i := s.threads[i].(phase := Waiting)]
  }

  /** What holds at the top of the inner loop of thread i. */
  ghost predicate Mid(s: State, i: nat) {
    && i < |s.threads|
    && s.added == multiset(s.queue) + InFlight(Parked(s, i)) + s.finished
    && s.todo == |s.queue| + |InFlight(Parked(s, i))|
    && s.idle + 1 == Count(IsWaiting(), Parked(s, i)) && s.total == Count(IsActive(), Parked(s, i))
    && (s.result.None? ==> forall c | c in s.finished :: Passes(c))
    && (s.result.Some? ==> Fails(s.added, s.result.value))
    && (forall j | 0 <= j < |s.threads| && j != i :: ThreadOk(s.threads[j], s.result))
  }

  /** Replacing thread i, seen from the parked state. */
  lemma ParkedUpdate(s: State, i: nat, t: Thread)
    requires i < |s.threads|
    ensures var ts := s.threads[i := t];
            && InFlight(ts) == InFlight(Parked(s, i)) + multiset(BatchOf(t))
            && Count(IsWaiting(), ts) + 1 == Count(IsWaiting(), Parked(s, i)) + (if t.phase.Waiting? then 1 else 0)
            && Count(IsActive(), ts) + 1 == Count(IsActive(), Parked(s, i)) + if Active(t) then 1 else 0
  {
    hide InFlight, Count;
    var ps := Parked(s, i);
    assert ps[i := t] == s.threads[i := t];
    InFlightChange(ps, i, t);
    CountUpdate(IsWaiting(), ps, i, t);
    CountUpdate(IsActive(), ps, i, t);
  }

  lemma CountPositive(s: State, i: nat)
    requires i < |s.threads|
    ensures Count(IsActive(), Parked(s, i)) > 0 && Count(IsWaiting(), Parked(s, i)) > 0
  {
    hide Count, InFlight;
    ParkedUpdate(s, i, Thread(Out, None));
  }

  lemma SplitQueue(q: seq<Check>, k: nat)
    requires k <= |q|
    ensures multiset(q) == multiset(q[..k]) + multiset(q[k..])
  {
    assert q == q[..k] + q[k..];
  }

  /** Taking a batch or going to wait keeps the invariant. */
  lemma LoopTopStays(s: State, i: nat)
    requires Mid(s, i) && s.total > 0 && !(s.queue == [] && i == 0 && s.todo == 0)
    ensures Inv(LoopTop(s, i))
  {
    if s.queue == [] {
      hide InFlight, Count, Fails, Passes, RunChecks;
      ParkedUpdate(s, i, s.threads[i].(phase := Waiting));
    } else {
      TakeStays(s, i);
    }
  }

  lemma TakeStays(s: State, i: nat)
    requires Mid(s, i) && s.total > 0 && s.queue != []
    ensures Inv(LoopTop(s, i))
  {
    BatchCountFits(s);
    MidSums(s, i);
    var k := |s.queue| - BatchCount(s);
    var t := s.threads[i].(phase := Running(s.queue[k..], s.result.None?));
    assert LoopTop(s, i) == SetThread(s, i, t).(queue := s.queue[..k]);
    hide InFlight, Count, BatchCount, Inv, Mid, LoopTop;
    ParkedUpdate(s, i, t);
    SplitQueue(s.queue, k);
    MoveOver(multiset(s.queue[..k]), multiset(s.queue[k..]), InFlight(Parked(s, i)), s.finished);
    TakenInv(s, i, k, t);
  }

  lemma MidSums(s: State, i: nat)
    requires Mid(s, i)
    ensures i < |s.threads| && s.added == multiset(s.queue) + InFlight(Parked(s, i)) + s.finished
    ensures s.todo == |s.queue| + |InFlight(Parked(s, i))|
    ensures s.idle + 1 == Count(IsWaiting(), Parked(s, i)) && s.total == Count(IsActive(), Parked(s, i))
  {
  }

  /** The batch goes from the queue to the threads. */
  lemma MoveOver(q: multiset<Check>, r: multiset<Check>, f: multiset<Check>, done: multiset<Check>)
    ensures (q + r) + f + done == q + (f + r) + done && |f + r| == |f| + |r|
  {
  }

  lemma TakenInv(s: State, i: nat, k: nat, t: Thread)
    requires Mid(s, i) && k < |s.queue| && t == s.threads[i].(phase := Running(s.queue[k..], s.result.None?))
    requires s.added == multiset(s.queue[..k]) + InFlight(s.threads[i := t]) + s.finished
    requires s.todo == k + |InFlight(s.threads[i := t])|
    requires s.idle == Count(IsWaiting(), s.threads[i := t]) && s.total == Count(IsActive(), s.threads[i := t])
    ensures Inv(SetThread(s, i, t).(queue := s.queue[..k]))
  {
    hide InFlight, Count, Fails, Passes, RunChecks, Parked;
  }

  /** When the master returns, nobody holds a batch. */
  lemma NoneInFlight(ts: seq<Thread>, j: nat)
    requires j < |ts| && |InFlight(ts)| == 0
    ensures BatchOf(ts[j]) == []
  {
    hide InFlight;
    InFlightHas(ts, j);
    assert InFlight(ts) == multiset{};
    assert |multiset(BatchOf(ts[j]))| == |BatchOf(ts[j])|;
  }

  /** The master returns only when every check added since the last completion has been accounted
      for; the result is empty exactly when all of them pass, and otherwise the error of one that
      fails. */
  lemma ReturnExact(s: State)
    requires Mid(s, 0) && s.total > 0 && s.queue == [] && s.todo == 0
    ensures s.finished == s.added
    ensures s.result.None? <==> forall c | c in s.added :: Passes(c)
    ensures s.result.Some? ==> Fails(s.added, s.result.value)
    ensures Inv(LoopTop(s, 0))
  {
    hide InFlight, Count, RunChecks;
    assert InFlight(Parked(s, 0)) == multiset{};
    var t := s.threads[0].(phase := Out);
    ParkedUpdate(s, 0, t);
    var s' := LoopTop(s, 0);
    forall j | 0 <= j < |s'.threads|
      ensures ThreadOk(s'.threads[j], None)
    {
      if j > 0 {
        NoneInFlight(Parked(s, 0), j);
      }
    }
  }

  // ---------------------------------------------------------------- each step keeps the invariant

  lemma FailsMore(cs: multiset<Check>, ds: multiset<Check>, r: nat)
    requires Fails(cs, r) && cs <= ds
    ensures Fails(ds, r)
  {
    var c :| c in cs && c.outcome == Some(r);
    assert c in ds;
  }

  lemma AddKeeps(s: State, s': State, checks: seq<Check>)
    requires Inv(s) && AddStep(s, s', checks)
    ensures Inv(s')
  {
    hide InFlight, Count, Passes, RunChecks;
    assert multiset(s.queue + checks) == multiset(s.queue) + multiset(checks);
    if s.result.Some? {
      FailsMore(s.added, s'.added, s.result.value);
    }
    hide Fails;
  }

  lemma CallKeeps(s: State, s': State)
    requires Inv(s) && CallStep(s, s')
    ensures Inv(s')
  {
    hide InFlight, Count, Passes, RunChecks, Fails;
    InFlightChange(s.threads, 0, s'.threads[0]);
    CountUpdate(IsWaiting(), s.threads, 0, s'.threads[0]);
    CountUpdate(IsActive(), s.threads, 0, s'.threads[0]);
  }

  lemma EnterMid(s: State, i: nat)
    requires Inv(s) && i < |s.threads| && s.threads[i].phase.Start?
    ensures Mid(s.(total := s.total + 1), i)
  {
    hide InFlight, Count, Passes, RunChecks, Fails;
    var w := s.threads[i].(phase := Waiting);
    InFlightChange(s.threads, i, w);
    CountUpdate(IsWaiting(), s.threads, i, w);
    CountUpdate(IsActive(), s.threads, i, w);
  }

  lemma WakeMid(s: State, i: nat)
    requires Inv(s) && i < |s.threads| && s.threads[i].phase.Waiting?
    ensures s.idle > 0 && Mid(s.(idle := s.idle - 1), i)
  {
    assert Parked(s, i) == s.threads;
    CountPositive(s, i);
    hide InFlight, Count, Passes, RunChecks, Fails;
  }

  lemma RunKeeps(s: State, s': State, i: nat)
    requires Inv(s) && RunStep(s, s', i)
    ensures Inv(s')
  {
    hide InFlight, Count, Passes, RunChecks, Fails;
    InFlightChange(s.threads, i, s'.threads[i]);
    CountUpdate(IsWaiting(), s.threads, i, s'.threads[i]);
    CountUpdate(IsActive(), s.threads, i, s'.threads[i]);
  }

  lemma {:induction false} RunChecksExact(checks: seq<Check>)
    ensures RunChecks(checks).None? <==> forall c | c in multiset(checks) :: Passes(c)
    ensures RunChecks(checks).Some? ==> Fails(multiset(checks), RunChecks(checks).value)
  {
    if checks != [] {
      RunChecksExact(checks[1..]);
      assert checks == [checks[0]] + checks[1..];
      assert multiset(checks) == multiset{checks[0]} + multiset(checks[1..]);
      if checks[0].outcome.None? && RunChecks(checks).Some? {
        FailsMore(multiset(checks[1..]), multiset(checks), RunChecks(checks).value);
      } else if checks[0].outcome.Some? {
        assert checks[0] in multiset(checks);
        assert !Passes(checks[0]);
      }
    }
  }

  /** Accounting for a batch. A local error left from an earlier batch is not mistaken for one of
      this batch: a batch that was not run was taken when there was a result, which is still
      there. */
  lemma AccountedMid(s: State, i: nat)
    requires Inv(s) && i < |s.threads| && s.threads[i].phase.Ready?
    ensures |s.threads[i].phase.checks| <= s.todo && s.total > 0 && Mid(Accounted(s, i), i)
  {
    hide InFlight, Count, RunChecks, Fails, Passes;
    var t := s.threads[i];
    BatchInFlight(s.threads, i);
    CountPositive(s, i);
    ActiveCount(s, i);
    var s' := Accounted(s, i);
    var w := s'.threads[i];
    InFlightChange(s.threads, i, w);
    CountUpdate(IsWaiting(), s.threads, i, w);
    CountUpdate(IsActive(), s.threads, i, w);
    assert Parked(s', i) == s'.threads;
    AccountedResult(s, i);
  }

  lemma BatchInFlight(ts: seq<Thread>, i: nat)
    requires i < |ts|
    ensures |BatchOf(ts[i])| <= |InFlight(ts)|
  {
    hide InFlight;
    InFlightHas(ts, i);
    var batch := multiset(BatchOf(ts[i]));
    assert |batch| == |BatchOf(ts[i])|;
    assert InFlight(ts) == batch + (InFlight(ts) - batch);
  }

  lemma ActiveCount(s: State, i: nat)
    requires i < |s.threads| && Active(s.threads[i])
    ensures Count(IsActive(), s.threads) == Count(IsActive(), Parked(s, i))
  {
    hide Count;
    CountUpdate(IsActive(), s.threads, i, Parked(s, i)[i]);
  }

  lemma AccountedResult(s: State, i: nat)
    requires Inv(s) && i < |s.threads| && s.threads[i].phase.Ready? && |s.threads[i].phase.checks| <= s.todo
    ensures var s' := Accounted(s, i);
            && (s'.result.None? ==> forall c | c in s'.finished :: Passes(c))
            && (s'.result.Some? ==> Fails(s'.added, s'.result.value))
            && (forall j | 0 <= j < |s'.threads| && j != i :: ThreadOk(s'.threads[j], s'.result))
  {
    var batch := s.threads[i].phase.checks;
    assert ThreadOk(s.threads[i], s.result);
    RunChecksExact(batch);
    InFlightHas(s.threads, i);
    assert multiset(batch) <= s.added;
    hide InFlight, Count, RunChecks, Passes;
    var s' := Accounted(s, i);
    if s.result.None? && s'.result.Some? {
      FailsMore(multiset(batch), s.added, s'.result.value);
    }
  }

  // ---------------------------------------------------------------- runs

  /** The state in which a step of thread i reaches the top of its inner loop. */
  ghost predicate Reaches(s: State, m: State, i: nat) {
    && i < |s.threads|
    && (|| (s.threads[i].phase.Start? && m == s.(total := s.total + 1))
        || (s.threads[i].phase.Waiting? && s.idle > 0 && m == s.(idle := s.idle - 1))
        || (s.threads[i].phase.Ready? && |s.threads[i].phase.checks| <= s.todo && m == Accounted(s, i)))
  }

  lemma ReachesMid(s: State, m: State, i: nat)
    requires Inv(s) && Reaches(s, m, i)
    ensures Mid(m, i) && m.total > 0
  {
    hide Inv, Mid, Accounted;
    if s.threads[i].phase.Start? {
      EnterMid(s, i);
    } else if s.threads[i].phase.Waiting? {
      WakeMid(s, i);
    } else {
      AccountedMid(s, i);
    }
    MidTotal(m, i);
  }

  lemma MidTotal(m: State, i: nat)
    requires Mid(m, i)
    ensures m.total > 0
  {
    hide Count, InFlight;
    CountPositive(m, i);
  }

  lemma LoopTopKeeps(m: State, i: nat)
    requires Mid(m, i) && m.total > 0
    ensures Inv(LoopTop(m, i))
  {
    hide Inv, Mid, LoopTop;
    if m.queue == [] && i == 0 && m.todo == 0 {
      ReturnExact(m);
    } else {
      LoopTopStays(m, i);
    }
  }

  /** Every step of every thread keeps the invariant. */
  lemma StepKeeps(s: State, s': State)
    requires Inv(s) && Step(s, s')
    ensures Inv(s')
  {
    hide Inv, Mid, LoopTop, Accounted;
    if checks :| AddStep(s, s', checks) {
      AddKeeps(s, s', checks);
    } else if CallStep(s, s') {
      CallKeeps(s, s');
    } else if i :| RunStep(s, s', i) {
      RunKeeps(s, s', i);
    } else {
      var m, i := CriticalSection(s, s');
      ReachesMid(s, m, i);
      LoopTopKeeps(m, i);
    }
  }

  lemma CriticalSection(s: State, s': State) returns (m: State, i: nat)
    requires Inv(s) && Step(s, s') && !(exists checks :: AddStep(s, s', checks)) && !CallStep(s, s')
             && !(exists i :: RunStep(s, s', i))
    ensures Reaches(s, m, i) && Mid(m, i) && m.total > 0 && s' == LoopTop(m, i)
  {
    hide Inv, Mid, LoopTop, Accounted;
    if j :| EnterStep(s, s', j) {
      i, m := j, s.(total := s.total + 1);
    } else if j :| WakeStep(s, s', j) {
      i, m := j, s.(idle := s.idle - 1);
    } else {
      i :| FinishStep(s, s', i);
      m := Accounted(s, i);
    }
    ReachesMid(s, m, i);
  }

  lemma {:induction false} NoBatches(ts: seq<Thread>)
    requires forall i | 0 <= i < |ts| :: ts[i].phase.Out? || ts[i].phase.Start?
    ensures InFlight(ts) == multiset{} && Count(IsWaiting(), ts) == 0 && Count(IsActive(), ts) == 0
  {
    if ts != [] {
      NoBatches(ts[..|ts| - 1]);
    }
  }

  lemma InitInv(s: State)
    requires Init(s)
    ensures Inv(s)
  {
    NoBatches(s.threads);
    hide InFlight, Count, RunChecks;
  }

  ghost predicate IsRun(run: seq<State>) {
    run != [] && Init(run[0]) && forall i | 0 <= i < |run| - 1 :: Step(run[i], run[i + 1])
  }

  /** The invariant holds throughout every run. */
  lemma {:induction false} RunInv(run: seq<State>, n: nat)
    requires IsRun(run) && n < |run|
    ensures Inv(run[n])
  {
    hide Inv, Step, Init;
    if n == 0 {
      InitInv(run[0]);
    } else {
      RunInv(run, n - 1);
      StepKeeps(run[n - 1], run[n]);
    }
  }

  /** The master leaves its loop in this step, returning r. */
  ghost predicate Returns(s: State, m: State, s': State, r: Option<nat>) {
    Reaches(s, m, 0) && m.total > 0 && m.queue == [] && m.todo == 0 && s' == LoopTop(m, 0) && r == m.result
  }

  /** In every run, over all interleavings: when Complete returns, it returns nothing exactly when
      every check added since the previous completion passes, and otherwise the error of one of
      them that fails; and the next round starts clean. */
  lemma CompleteExact(run: seq<State>, n: nat, m: State, r: Option<nat>)
    requires IsRun(run) && n + 1 < |run| && Returns(run[n], m, run[n + 1], r)
    ensures r.None? <==> forall c | c in run[n].added :: Passes(c)
    ensures r.Some? ==> Fails(run[n].added, r.value)
    ensures run[n + 1].result.None? && run[n + 1].todo == 0 && run[n + 1].queue == [] && run[n + 1].added == multiset{}
  {
    hide Inv, Mid, Step, Init, Passes;
    RunInv(run, n);
    ReachesMid(run[n], m, 0);
    ReturnExact(m);
  }

  /** In every run, the counter of unfinished checks is the number of those queued and in the
      hands of threads. */
  lemma TodoExact(run: seq<State>, n: nat)
    requires IsRun(run) && n < |run|
    ensures run[n].todo == |run[n].queue| + |InFlight(run[n].threads)|
    ensures run[n].added == multiset(run[n].queue) + InFlight(run[n].threads) + run[n].finished
  {
    RunInv(run, n);
  }
}
