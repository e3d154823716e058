/** Exactly when a submission is lost at shutdown, and how many are. */
module PoolLoss {
  import opened Options
  import opened ThreadPool
  import opened PoolSafety
  import opened PoolShutdown
  import opened PoolDrain

  // ---------- from the last worker's last look at the deque ----------

  /** The submissions a client has still to push. */
  function Unpushed(th: Thread): int {
    if th.Client? && th.calls != [] then |th.calls| - (if th.stage in {Pushed, Counted} then 1 else 0) else 0
  }

  /** Whatever anyone does, when the last worker reads an empty deque in its exit test, everything
      submitted so far has completed. */
  lemma LastEmptyReadIsDone(s: Pool, i: nat)
    requires Inv(s) && Enabled(s, i) && !AllGone(s) && IsWorker(s.threads[i]) && AllGone(Next(s, i))
    ensures Quiet(Next(s, i)) && AllDone(Next(s, i))
  {
    var t := Next(s, i);
    GoneBefore(s, i);
    StepInv(s, i);
    QuietIsDone(t);
  }

  // What a thread does once every worker is gone: only clients change the deque, and they only push.
  lemma ActLate(m: Memory, i: nat, th: Thread)
    requires CanAct(m, th) && (IsWorker(th) ==> Gone(th) && m.stop)
    ensures var (n, now) := Act(m, i, th);
      && (IsWorker(now) ==> Gone(now)) && n.started == m.started && n.completed == m.completed
      && m.tasks <= n.tasks && |n.tasks| - |m.tasks| == Unpushed(th) - Unpushed(now)
  {
  }

  lemma LateStep(s: Pool, i: nat)
    requires Inv(s) && AllGone(s) && Enabled(s, i)
    ensures var t := Next(s, i);
      && Inv(t) && AllGone(t) && t.mem.started == s.mem.started && t.mem.completed == s.mem.completed
      && s.mem.tasks <= t.mem.tasks
      && |t.mem.tasks| + Total(Unpushed, t.threads) == |s.mem.tasks| + Total(Unpushed, s.threads)
  {
    hide Act;
    StepInv(s, i);
    assert QueueOk(s.mem, s.threads[i]);
    ActLate(s.mem, i, s.threads[i]);
    TotalUpdate(Unpushed, s.threads, i, Next(s, i).threads[i]);
  }

  lemma {:induction false} LateRun(s: Pool, schedule: seq<nat>)
    requires Inv(s) && AllGone(s) && Legal(s, schedule)
    ensures var t := Run(s, schedule);
      && AllGone(t) && t.mem.started == s.mem.started && t.mem.completed == s.mem.completed
      && s.mem.tasks <= t.mem.tasks
      && |t.mem.tasks| + Total(Unpushed, t.threads) == |s.mem.tasks| + Total(Unpushed, s.threads)
    decreases |schedule|
  {
    if schedule != [] {
      LateStep(s, schedule[0]);
      LateRun(Next(s, schedule[0]), schedule[1..]);
    }
  }

  /** Once every worker is gone nothing is started any more, and a run that goes on until no thread can
      step leaves queued exactly what was queued and what the clients had still to push.  So everything
      submitted completes if and only if there is neither. */
  lemma LostExactlyIfLate(s: Pool, schedule: seq<nat>)
    requires Inv(s) && AllGone(s) && Legal(s, schedule) && Stuck(Run(s, schedule))
    ensures var t := Run(s, schedule);
      && t.mem.started == s.mem.started && s.mem.tasks <= t.mem.tasks
      && |t.mem.tasks| == |s.mem.tasks| + Total(Unpushed, s.threads)
      && (AllDone(t) <==> s.mem.tasks == [] && Total(Unpushed, s.threads) == 0)
  {
    var t := Run(s, schedule);
    RunInv(s, schedule);
    LateRun(s, schedule);
    StuckIsAtRest(t);
    forall j | 0 <= j < |t.threads|
      ensures Unpushed(t.threads[j]) == 0 && Busy(t.threads[j]) == 0
    {
      assert AtRest(t.mem, t.threads[j]);
    }
    TotalOfZeros(Unpushed, t.threads);
    TotalNonNegative(Unpushed, s.threads);
    if t.mem.tasks == [] {
      QuietIsDone(t);
    }
  }

  /** Counted from the last worker's last look: what is lost is what the clients push after it. */
  lemma LostSinceLastLook(s: Pool, i: nat, schedule: seq<nat>)
    requires Inv(s) && Enabled(s, i) && !AllGone(s) && IsWorker(s.threads[i]) && AllGone(Next(s, i))
    requires Legal(Next(s, i), schedule) && Stuck(Run(Next(s, i), schedule))
    ensures var t := Run(Next(s, i), schedule);
      && |t.mem.tasks| == Total(Unpushed, s.threads)
      && (AllDone(t) <==> forall j :: 0 <= j < |s.threads| ==> Unpushed(s.threads[j]) == 0)
  {
    var u := Next(s, i);
    LastEmptyReadIsDone(s, i);
    StepInv(s, i);
    LostExactlyIfLate(u, schedule);
    TotalUpdate(Unpushed, s.threads, i, u.threads[i]);
    if j :| 0 <= j < |s.threads| && Unpushed(s.threads[j]) != 0 {
      TotalAtLeast(Unpushed, s.threads, j);
    } else {
      TotalOfZeros(Unpushed, s.threads);
    }
  }

  // ---------- from the stopper's first step ----------

  /** A destructor has returned; no client may then use the pool any more. */
  predicate Destroyed(s: Pool) {
    exists j :: 0 <= j < |s.threads| && s.threads[j].Ended?
  }

  predicate Proper(s: Pool, schedule: seq<nat>)
    requires Legal(s, schedule)
    decreases |schedule|
  {
    schedule != [] ==>
      && (s.threads[schedule[0]].Client? ==> !Destroyed(s))
      && Proper(Next(s, schedule[0]), schedule[1..])
  }

  /** Some run from here to the end, by threads that respect the pool's lifetime, leaves a submitted
      task undone. */
  ghost predicate CanLose(s: Pool) {
    exists schedule :: Legal(s, schedule) && Loses(s, schedule)
  }

  ghost predicate Loses(s: Pool, schedule: seq<nat>)
    requires Legal(s, schedule)
  {
    Proper(s, schedule) && Stuck(Run(s, schedule)) && !AllDone(Run(s, schedule))
  }

  /** The calls a client has not begun. */
  function Unbegun(th: Thread): int {
    if !th.Client? then 0 else if th.stage == Ready then |th.calls| else |th.calls| - 1
  }

  /** A client that has its mutex for a call and has not pushed. */
  predicate InVoid(th: Thread) {
    th.Client? && th.stage == Locked && th.calls != [] && th.calls[0].Void?
  }

  predicate InRet(th: Thread) {
    th.Client? && th.stage == Locked && th.calls != [] && th.calls[0].Ret?
  }

  /** What endangers a submission when the stop comes: a client with a call it has not begun; or one about
      to push under M_countMutex_, which keeps no worker from leaving, while nothing else detains the
      workers.  Without workers, any task at all. */
  ghost predicate MayLose(s: Pool) {
    if HasWorker(s) then
      || (exists j :: 0 <= j < |s.threads| && Unbegun(s.threads[j]) > 0)
      || ((exists j :: 0 <= j < |s.threads| && InVoid(s.threads[j]))
          && Quiet(s) && forall j :: 0 <= j < |s.threads| ==> !InRet(s.threads[j]))
    else
      s.mem.tasks != [] || exists j :: 0 <= j < |s.threads| && Unpushed(s.threads[j]) > 0
  }

  predicate IsStop(th: Thread) {
    th.Stopping? || th.Destroying?
  }

  // ---------- runs that hold some threads back ----------

  /** No step of the schedule is by a thread that `held` says to hold back. */
  predicate Avoids(s: Pool, schedule: seq<nat>, held: Thread -> bool)
    requires Legal(s, schedule)
    decreases |schedule|
  {
    schedule != [] ==> !held(s.threads[schedule[0]]) && Avoids(Next(s, schedule[0]), schedule[1..], held)
  }

  /** Only threads held back can still step. */
  ghost predicate Settled(s: Pool, held: Thread -> bool) {
    forall i :: 0 <= i < |s.threads| && Enabled(s, i) ==> held(s.threads[i])
  }

  lemma Settle(s: Pool, held: Thread -> bool) returns (schedule: seq<nat>)
    requires Inv(s)
    ensures Legal(s, schedule) && Avoids(s, schedule, held)
    ensures Inv(Run(s, schedule)) && Settled(Run(s, schedule), held)
    ensures s.mem.stop ==> Run(s, schedule).mem.stop
    decreases Measure(s)
  {
    MeasureNonNegative(s);
    if i :| 0 <= i < |s.threads| && Enabled(s, i) && !held(s.threads[i]) {
      StepInv(s, i);
      MeasureFalls(s, i);
      ActQueueOfOthers(s.mem, i, s.threads[i]);
      var rest := Settle(Next(s, i), held);
      Cons(s, i, rest);
      schedule := [i] + rest;
      assert schedule[1..] == rest;
    } else {
      schedule := [];
    }
  }

  // Threads held back without a mutex keep nobody else from one.
  lemma SettledTasksFree(s: Pool, held: Thread -> bool)
    requires Inv(s) && Settled(s, held)
    requires forall j :: 0 <= j < |s.threads| && held(s.threads[j]) ==> !HoldsTasks(s.threads[j])
    ensures s.mem.tasksOwner == None
  {
    assert s.mem.tasksOwner.Some? ==> HoldsTasks(s.threads[s.mem.tasksOwner.value]);
    HoldersMove(s);
  }

  lemma SettledCountFree(s: Pool, held: Thread -> bool)
    requires Inv(s) && Settled(s, held)
    requires forall j :: 0 <= j < |s.threads| && held(s.threads[j]) ==> !HoldsCount(s.threads[j])
    ensures s.mem.countOwner == None
  {
    assert s.mem.countOwner.Some? ==> HoldsCount(s.threads[s.mem.countOwner.value]);
    HoldersMove(s);
  }

  // After the stop the workers leave, unless one needs M_countMutex_ and someone held back has it.
  lemma SettledExits(s: Pool, held: Thread -> bool)
    requires Inv(s) && s.mem.stop && Settled(s, held)
    requires forall j :: 0 <= j < |s.threads| && held(s.threads[j])
               ==> !IsWorker(s.threads[j]) && !HoldsTasks(s.threads[j])
    requires s.mem.countOwner == None || Quiet(s)
    ensures AllExited(s)
  {
    SettledTasksFree(s, held);
    forall j | 0 <= j < |s.threads| && IsWorker(s.threads[j])
      ensures s.threads[j].Exited?
    {
      assert !Enabled(s, j);
      assert QueueOk(s.mem, s.threads[j]);
      assert Quiet(s) ==> Busy(s.threads[j]) == 0;
    }
  }

  predicate InDestructor(th: Thread) {
    th.Ending?
  }

  predicate Nobody(th: Thread) {
    false
  }

  // A destructor held back in its joins has not returned.
  lemma {:induction false} HeldIsProper(s: Pool, schedule: seq<nat>, held: Thread -> bool)
    requires Legal(s, schedule) && Avoids(s, schedule, held) && !Destroyed(s)
    requires forall th: Thread :: th.Ending? ==> held(th)
    ensures Proper(s, schedule) && !Destroyed(Run(s, schedule))
    decreases |schedule|
  {
    if schedule != [] {
      HeldIsProper(Next(s, schedule[0]), schedule[1..], held);
    }
  }

  lemma {:induction false} FinishedIsProper(s: Pool, schedule: seq<nat>)
    requires Legal(s, schedule) && ClientsFinished(s)
    ensures Proper(s, schedule)
    decreases |schedule|
  {
    if schedule != [] {
      ClientsStayFinished(s, schedule[0]);
      FinishedIsProper(Next(s, schedule[0]), schedule[1..]);
    }
  }

  lemma {:induction false} Join(s: Pool, first: seq<nat>, second: seq<nat>)
    requires Legal(s, first) && Legal(Run(s, first), second)
    ensures Legal(s, first + second) && Run(s, first + second) == Run(Run(s, first), second)
    ensures Proper(s, first) && Proper(Run(s, first), second) ==> Proper(s, first + second)
    decreases |first|
  {
    if first == [] {
      assert first + second == second;
    } else {
      assert (first + second)[1..] == first[1..] + second;
      Join(Next(s, first[0]), first[1..], second);
    }
  }

  /** Every pool whose destructors have not returned can be run properly to its end. */
  lemma Finish(s: Pool) returns (schedule: seq<nat>)
    requires Inv(s) && !Destroyed(s)
    ensures Legal(s, schedule) && Proper(s, schedule) && Stuck(Run(s, schedule))
  {
    hide Next, Enabled;
    var first := Settle(s, InDestructor);
    var t := Run(s, first);
    HeldIsProper(s, first, InDestructor);
    SettledClients(t);
    var second := Settle(t, Nobody);
    FinishedIsProper(t, second);
    Join(s, first, second);
    schedule := first + second;
  }

  lemma SettledClients(s: Pool)
    requires Inv(s) && Settled(s, InDestructor)
    ensures ClientsFinished(s)
  {
    SettledTasksFree(s, InDestructor);
    SettledCountFree(s, InDestructor);
    forall j | 0 <= j < |s.threads| && s.threads[j].Client?
      ensures s.threads[j].calls == []
    {
      assert !Enabled(s, j);
    }
  }

  // ---------- the runs that lose a task ----------

  // A state with every worker out and something queued or still to come.
  ghost predicate TooLate(s: Pool) {
    Inv(s) && AllGone(s) && !Destroyed(s) && (s.mem.tasks != [] || Total(Unpushed, s.threads) > 0)
  }

  lemma TooLateLoses(s: Pool, first: seq<nat>)
    requires Legal(s, first) && Proper(s, first) && TooLate(Run(s, first))
    ensures CanLose(s)
  {
    hide Next, Enabled, Stuck, Legal, Run, Proper;
    var t := Run(s, first);
    var second := Finish(t);
    LostExactlyIfLate(t, second);
    Join(s, first, second);
    assert Loses(s, first + second);
  }

  lemma UnpushedTotal(s: Pool, j: nat)
    requires OwnersOk(s) && j < |s.threads| && Unpushed(s.threads[j]) > 0
    ensures Total(Unpushed, s.threads) > 0
  {
    TotalAtLeast(Unpushed, s.threads, j);
  }

  // Case one: hold the clients back between their calls until every worker has left.
  predicate AtCall(th: Thread) {
    (th.Client? && th.stage == Ready) || th.Ending?
  }

  lemma {:induction false} UnbegunStays(s: Pool, schedule: seq<nat>, j: nat)
    requires Legal(s, schedule) && Avoids(s, schedule, AtCall)
    requires j < |s.threads| && Unbegun(s.threads[j]) > 0
    ensures j < |Run(s, schedule).threads| && Unbegun(Run(s, schedule).threads[j]) > 0
    decreases |schedule|
  {
    if schedule != [] {
      UnbegunStays(Next(s, schedule[0]), schedule[1..], j);
    }
  }

  lemma UnbegunIsLost(s: Pool, j: nat)
    requires Inv(s) && s.mem.stop && !Destroyed(s)
    requires j < |s.threads| && Unbegun(s.threads[j]) > 0
    ensures CanLose(s)
  {
    hide Next, Enabled;
    var first := Settle(s, AtCall);
    var t := Run(s, first);
    HeldIsProper(s, first, AtCall);
    UnbegunStays(s, first, j);
    SettledCountFree(t, AtCall);
    SettledExits(t, AtCall);
    UnpushedTotal(t, j);
    TooLateLoses(s, first);
  }

  // Case two: hold back the client that is about to push, and every other, until the idle workers have left.
  predicate Outside(th: Thread) {
    th.Client? || th.Ending?
  }

  ghost predicate Detained(s: Pool, a: nat) {
    Quiet(s) && a < |s.threads| && InVoid(s.threads[a]) && forall j :: 0 <= j < |s.threads| ==> !InRet(s.threads[j])
  }

  lemma {:induction false} DetainedStays(s: Pool, schedule: seq<nat>, a: nat)
    requires Legal(s, schedule) && Avoids(s, schedule, Outside) && Inv(s) && Detained(s, a)
    ensures Detained(Run(s, schedule), a)
    decreases |schedule|
  {
    if schedule != [] {
      var i := schedule[0];
      StepInv(s, i);
      QuietStays(s, i);
      var t := Next(s, i);
      assert !t.threads[i].Client?;
      DetainedStays(t, schedule[1..], a);
    }
  }

  lemma DetainedIsLost(s: Pool, a: nat)
    requires Inv(s) && s.mem.stop && !Destroyed(s) && Detained(s, a)
    ensures CanLose(s)
  {
    hide Next, Enabled;
    var first := Settle(s, Outside);
    var t := Run(s, first);
    HeldIsProper(s, first, Outside);
    DetainedStays(s, first, a);
    forall j | 0 <= j < |t.threads| && Outside(t.threads[j])
      ensures !HoldsTasks(t.threads[j])
    {
      assert QueueOk(t.mem, t.threads[j]);
    }
    SettledExits(t, Outside);
    UnpushedTotal(t, a);
    TooLateLoses(s, first);
  }

  // ---------- the runs that lose nothing ----------

  /** What keeps every submission safe after a stop that found no danger: no client begins a call; the one
      that is about to push has a queued or popped task, or a colleague with M_tasksMutex_, to keep a
      worker in its loop. */
  ghost predicate Safe(s: Pool) {
    && HasWorker(s) && s.mem.stop
    && (forall j :: 0 <= j < |s.threads| ==> Unbegun(s.threads[j]) <= 0)
    && (AllGone(s) ==> s.mem.tasks == [])
    && (forall j :: 0 <= j < |s.threads| && InVoid(s.threads[j]) ==> Occupied(s))
    && (forall j, k :: 0 <= j < |s.threads| && 0 <= k < |s.threads| && InRet(s.threads[j]) ==> !Gone(s.threads[k]))
  }

  ghost predicate Occupied(s: Pool) {
    !Quiet(s) || exists j :: 0 <= j < |s.threads| && InRet(s.threads[j])
  }

  lemma ActSafe(m: Memory, i: nat, th: Thread)
    requires CanAct(m, th) && Unbegun(th) <= 0
    ensures var (n, now) := Act(m, i, th);
      && Unbegun(now) <= 0 && !InVoid(now) && !InRet(now)
      && (m.stop ==> n.stop)
      && (InRet(th) ==> n.tasks != [])
      && (Busy(th) == 1 && Busy(now) == 0 ==> HoldsCount(th))
      && (n.tasks != m.tasks ==> InVoid(th) || InRet(th) || th.Popping? || th.Running?)
      && (th.Popping? ==> Busy(now) == 1)
      && (m.tasks != [] && n.tasks == [] ==> th.Popping?)
      && (Gone(now) ==> Gone(th) || th.Woken?)
  {
  }

  // Nobody can push once every worker is gone.
  lemma SafeQueue(s: Pool, i: nat)
    requires Inv(s) && Safe(s) && Enabled(s, i)
    ensures AllGone(Next(s, i)) ==> Next(s, i).mem.tasks == []
  {
    hide Act;
    if AllGone(Next(s, i)) {
      GoneBefore(s, i);
      ActSafe(s.mem, i, s.threads[i]);
      var w :| 0 <= w < |s.threads| && IsWorker(s.threads[w]);
      assert AllGone(s) ==> Gone(s.threads[w]) && Quiet(s);
    }
  }

  // A task, or a client in asyncTaskret, goes on detaining a worker while M_countMutex_ is taken.
  lemma SafeDetains(s: Pool, i: nat, j: nat)
    requires Inv(s) && Safe(s) && Enabled(s, i)
    requires j < |s.threads| && InVoid(Next(s, i).threads[j])
    ensures Occupied(Next(s, i))
  {
    hide Act;
    var t := Next(s, i);
    ActSafe(s.mem, i, s.threads[i]);
    assert InVoid(s.threads[j]) && j != i;
    assert HoldsCount(s.threads[j]) && s.mem.countOwner == Some(j);
    assert HoldsCount(s.threads[i]) <==> s.mem.countOwner == Some(i);
    if s.mem.tasks != [] {
      assert t.mem.tasks != [] || Busy(t.threads[i]) == 1;
    } else if b :| 0 <= b < |s.threads| && Busy(s.threads[b]) == 1 {
      assert Busy(t.threads[b]) == 1;
    } else {
      var r :| 0 <= r < |s.threads| && InRet(s.threads[r]);
      assert t.mem.tasks != [] || InRet(t.threads[r]);
    }
  }

  // While a client has M_tasksMutex_ for its asyncTaskret no worker takes its last look.
  lemma SafeRet(s: Pool, i: nat, j: nat, k: nat)
    requires Inv(s) && Safe(s) && Enabled(s, i)
    requires j < |s.threads| && k < |s.threads| && InRet(Next(s, i).threads[j])
    ensures !Gone(Next(s, i).threads[k])
  {
    hide Act;
    ActSafe(s.mem, i, s.threads[i]);
    assert InRet(s.threads[j]) && !Gone(s.threads[k]);
    assert HoldsTasks(s.threads[j]) <==> s.mem.tasksOwner == Some(j);
    assert HoldsTasks(s.threads[k]) <==> s.mem.tasksOwner == Some(k);
  }

  lemma SafeStep(s: Pool, i: nat)
    requires Inv(s) && Safe(s) && Enabled(s, i)
    ensures Safe(Next(s, i))
  {
    hide Act;
    var t := Next(s, i);
    WorkersStay(s, i);
    SafeQueue(s, i);
    ActSafe(s.mem, i, s.threads[i]);
    forall j | 0 <= j < |t.threads| && InVoid(t.threads[j])
      ensures Occupied(t)
    {
      SafeDetains(s, i, j);
    }
    forall j, k | 0 <= j < |t.threads| && 0 <= k < |t.threads| && InRet(t.threads[j])
      ensures !Gone(t.threads[k])
    {
      SafeRet(s, i, j, k);
    }
  }

  lemma {:induction false} SafeRun(s: Pool, schedule: seq<nat>)
    requires Inv(s) && Safe(s) && Legal(s, schedule)
    ensures Inv(Run(s, schedule)) && Safe(Run(s, schedule))
    decreases |schedule|
  {
    if schedule != [] {
      StepInv(s, schedule[0]);
      SafeStep(s, schedule[0]);
      SafeRun(Next(s, schedule[0]), schedule[1..]);
    }
  }

  lemma SafeAtRest(s: Pool)
    requires Inv(s) && Safe(s) && forall j :: 0 <= j < |s.threads| ==> AtRest(s.mem, s.threads[j])
    ensures AllDone(s)
  {
    hide Stuck, CountOk, OwnersOk, QueuesOk;
    forall j | 0 <= j < |s.threads|
      ensures Busy(s.threads[j]) == 0 && (IsWorker(s.threads[j]) ==> Gone(s.threads[j]))
    {
      assert AtRest(s.mem, s.threads[j]);
    }
    QuietIsDone(s);
  }

  /** A safe pool ends, whatever the order of its threads, with every submitted task completed. */
  lemma SafeLosesNothing(s: Pool, schedule: seq<nat>)
    requires Inv(s) && Safe(s) && Legal(s, schedule) && Stuck(Run(s, schedule))
    ensures AllDone(Run(s, schedule))
  {
    hide Stuck, Inv, Safe, AtRest, AllDone;
    SafeRun(s, schedule);
    StuckIsAtRest(Run(s, schedule));
    SafeAtRest(Run(s, schedule));
  }

  // ---------- the exact condition ----------

  // Before the stop no worker can be gone and no destructor has begun.
  lemma BeforeStop(s: Pool, c: nat)
    requires Inv(s) && !s.mem.stop && Enabled(s, c) && IsStop(s.threads[c])
    ensures var u := Next(s, c);
      && Inv(u) && u.mem == s.mem.(stop := true) && |u.threads| == |s.threads| && !Destroyed(u)
      && (forall j :: 0 <= j < |s.threads| ==> !Gone(s.threads[j]) && !Gone(u.threads[j]))
      && (forall j :: 0 <= j < |s.threads| && j != c ==> u.threads[j] == s.threads[j])
      && !u.threads[c].Client? && !IsWorker(u.threads[c])
  {
    StepInv(s, c);
    forall j | 0 <= j < |s.threads|
      ensures !SawStop(s.threads[j])
    {
      assert QueueOk(s.mem, s.threads[j]);
    }
  }

  lemma DangerLoses(s: Pool, c: nat)
    requires Inv(s) && !s.mem.stop && Enabled(s, c) && IsStop(s.threads[c]) && HasWorker(s) && MayLose(s)
    ensures CanLose(Next(s, c))
  {
    hide Next, Enabled, CanLose;
    var u := Next(s, c);
    BeforeStop(s, c);
    if j :| 0 <= j < |s.threads| && Unbegun(s.threads[j]) > 0 {
      UnbegunIsLost(u, j);
    } else {
      var a :| 0 <= a < |s.threads| && InVoid(s.threads[a]);
      assert Detained(u, a);
      DetainedIsLost(u, a);
    }
  }

  lemma OccupiedAfterStop(s: Pool, c: nat, j: nat)
    requires Inv(s) && !s.mem.stop && Enabled(s, c) && IsStop(s.threads[c]) && HasWorker(s) && !MayLose(s)
    requires j < |s.threads| && InVoid(Next(s, c).threads[j])
    ensures Occupied(Next(s, c))
  {
    hide Next, Enabled, Inv, HasWorker;
    var u := Next(s, c);
    BeforeStop(s, c);
    assert InVoid(s.threads[j]);
    if b :| 0 <= b < |s.threads| && Busy(s.threads[b]) == 1 {
      assert Busy(u.threads[b]) == 1;
    } else if r :| 0 <= r < |s.threads| && InRet(s.threads[r]) {
      assert InRet(u.threads[r]);
    }
  }

  lemma NoDangerIsSafe(s: Pool, c: nat)
    requires Inv(s) && !s.mem.stop && Enabled(s, c) && IsStop(s.threads[c]) && HasWorker(s) && !MayLose(s)
    ensures Safe(Next(s, c))
  {
    hide Next, Enabled, Inv, Occupied, Quiet;
    var u := Next(s, c);
    BeforeStop(s, c);
    var w :| 0 <= w < |s.threads| && IsWorker(s.threads[w]);
    assert IsWorker(u.threads[w]);
    forall j | 0 <= j < |u.threads| && InVoid(u.threads[j])
      ensures Occupied(u)
    {
      OccupiedAfterStop(s, c, j);
    }
  }

  lemma NoWorkersLose(s: Pool, c: nat)
    requires Inv(s) && !s.mem.stop && Enabled(s, c) && IsStop(s.threads[c]) && !HasWorker(s)
    ensures MayLose(s) ==> CanLose(Next(s, c))
    ensures forall schedule :: Legal(Next(s, c), schedule) && Stuck(Run(Next(s, c), schedule)) && !MayLose(s)
              ==> AllDone(Run(Next(s, c), schedule))
  {
    hide Next, Enabled, Inv, CanLose;
    var u := Next(s, c);
    BeforeStop(s, c);
    forall j | 0 <= j < |u.threads|
      ensures !IsWorker(u.threads[j]) && Unpushed(u.threads[j]) == Unpushed(s.threads[j])
    {
      assert !IsWorker(s.threads[j]);
    }
    if MayLose(s) {
      if j :| 0 <= j < |s.threads| && Unpushed(s.threads[j]) > 0 {
        UnpushedTotal(u, j);
      }
      TooLateLoses(u, []);
    } else {
      TotalOfZeros(Unpushed, u.threads);
      forall schedule | Legal(u, schedule) && Stuck(Run(u, schedule))
        ensures AllDone(Run(u, schedule))
      {
        LostExactlyIfLate(u, schedule);
      }
    }
  }

  /** The exact price of stopping early, decided when waitAllthread or a destructor makes its first step:
      some proper run to the end loses a submission if and only if a client then has a call it has not
      begun, or is about to push while nothing detains the workers.  Otherwise every run to the end, proper
      or not, completes everything; finished clients are the plainest such case. */
  lemma StopLosesExactlyIf(s: Pool, c: nat)
    requires Inv(s) && !s.mem.stop && Enabled(s, c) && IsStop(s.threads[c])
    ensures CanLose(Next(s, c)) <==> MayLose(s)
    ensures forall schedule :: Legal(Next(s, c), schedule) && Stuck(Run(Next(s, c), schedule)) && !MayLose(s)
              ==> AllDone(Run(Next(s, c), schedule))
    ensures HasWorker(s) && ClientsFinished(s) ==> !MayLose(s)
  {
    hide Next, Enabled, Inv, MayLose;
    if !HasWorker(s) {
      NoWorkersLose(s, c);
    } else if MayLose(s) {
      DangerLoses(s, c);
    } else {
      NoDangerIsSafe(s, c);
      StepInv(s, c);
      forall schedule | Legal(Next(s, c), schedule) && Stuck(Run(Next(s, c), schedule))
        ensures AllDone(Run(Next(s, c), schedule))
      {
        SafeLosesNothing(Next(s, c), schedule);
      }
    }
    FinishedIsNoDanger(s);
  }

  lemma FinishedIsNoDanger(s: Pool)
    ensures HasWorker(s) && ClientsFinished(s) ==> !MayLose(s)
  {
  }

  // ---------- a run that loses a task ----------

  lemma {:induction false} WithoutDestructor(s: Pool, schedule: seq<nat>)
    requires Legal(s, schedule)
    requires forall j :: 0 <= j < |s.threads| ==> !InDestruction(s.threads[j])
    ensures Proper(s, schedule)
    decreases |schedule|
  {
    if schedule != [] {
      WithoutDestructor(Next(s, schedule[0]), schedule[1..]);
    }
  }

  predicate InDestruction(th: Thread) {
    th.Destroying? || th.Ending? || th.Ended?
  }

  // One more step at the end of a run.
  lemma Then(s: Pool, schedule: seq<nat>, t: Pool, i: nat, longer: seq<nat>, u: Pool)
    requires Legal(s, schedule) && Run(s, schedule) == t && longer == schedule + [i]
    requires i < |t.threads| && CanAct(t.mem, t.threads[i]) && !t.threads[i].Joining? && !t.threads[i].Ending?
    requires |u.threads| == |t.threads| && Act(t.mem, i, t.threads[i]) == (u.mem, u.threads[i])
    requires u.threads == t.threads[i := u.threads[i]]
    ensures Legal(s, longer) && Run(s, longer) == u
  {
    NextIs(t, i, u.mem, u.threads[i]);
    Cons(t, i, []);
    assert [i] + [] == [i];
    Join(s, schedule, [i]);
  }

  function LateStart(task: Task): Pool {
    Pool([Idle, Client([Void(task)], Ready), Stopping(0)], Memory([], 0, false, None, None, [], [], {}))
  }

  // The worker reads an empty deque, the client locks and pushes, the worker reads the stop and leaves.
  const lateSchedule: seq<nat> := [2, 0, 0, 1, 1, 0, 0]

  lemma LateActs(task: Task, m1: Memory, m2: Memory, m3: Memory, m4: Memory, m5: Memory)
    requires m1.tasks == [] && m1.stop && m1.tasksOwner == None && m1.countOwner == None && m1.submitted == []
    requires m2 == m1.(tasksOwner := Some(0)) && m3 == m2.(countOwner := Some(1))
    requires m4 == m3.(tasks := [task], submitted := [task]) && m5 == m4.(tasksOwner := None)
    ensures CanAct(m1, Idle) && Act(m1, 0, Idle) == (m2, Woken)
    ensures Act(m2, 0, Woken) == (m2, SawEmpty) && Act(m4, 0, SawEmpty) == (m4, Leaving)
    ensures Act(m4, 0, Leaving) == (m5, Exited)
    ensures var c, locked := Client([Void(task)], Ready), Client([Void(task)], Locked);
      CanAct(m2, c) && Act(m2, 1, c) == (m3, locked)
    ensures var locked, pushed := Client([Void(task)], Locked), Client([Void(task)], Pushed);
      CanAct(m3, locked) && Act(m3, 1, locked) == (m4, pushed)
  {
    assert m3.tasks + [task] == [task];
  }

  lemma StopAct(m: Memory)
    ensures CanAct(m, Stopping(0)) && Act(m, 2, Stopping(0)) == (m.(stop := true), Acquiring(0))
  {
  }

  lemma RunToLate(task: Task) returns (t: Pool)
    ensures Legal(LateStart(task), lateSchedule) && Run(LateStart(task), lateSchedule) == t
    ensures t.threads == [Exited, Client([Void(task)], Pushed), Acquiring(0)]
    ensures t.mem.tasks == [task] && t.mem.started == []
  {
    hide Legal, Run, Act, CanAct;
    var s := LateStart(task);
    var m1 := s.mem.(stop := true);
    var m2 := m1.(tasksOwner := Some(0));
    var m3 := m2.(countOwner := Some(1));
    var m4 := m3.(tasks := [task], submitted := [task]);
    var m5 := m4.(tasksOwner := None);
    var c, locked, pushed := s.threads[1], Client([Void(task)], Locked), Client([Void(task)], Pushed);
    var stopper := Acquiring(0);
    var t1 := Pool([Idle, c, stopper], m1);
    var t2 := Pool([Woken, c, stopper], m2);
    var t3 := Pool([SawEmpty, c, stopper], m2);
    var t4 := Pool([SawEmpty, locked, stopper], m3);
    var t5 := Pool([SawEmpty, pushed, stopper], m4);
    var t6 := Pool([Leaving, pushed, stopper], m4);
    t := Pool([Exited, pushed, stopper], m5);
    LateActs(task, m1, m2, m3, m4, m5);
    StopAct(s.mem);
    Empty(s);
    Then(s, [], s, 2, [2], t1);
    Then(s, [2], t1, 0, [2, 0], t2);
    Then(s, [2, 0], t2, 0, [2, 0, 0], t3);
    Then(s, [2, 0, 0], t3, 1, [2, 0, 0, 1], t4);
    Then(s, [2, 0, 0, 1], t4, 1, [2, 0, 0, 1, 1], t5);
    Then(s, [2, 0, 0, 1, 1], t5, 0, [2, 0, 0, 1, 1, 0], t6);
    Then(s, [2, 0, 0, 1, 1, 0], t6, 0, lateSchedule, t);
  }

  lemma Empty(s: Pool)
    ensures Legal(s, []) && Run(s, []) == s
  {
  }

  lemma EarlyStop(s: Pool, schedule: seq<nat>)
    requires Legal(s, schedule) && schedule != [] && schedule[0] < |s.threads| && s.threads[schedule[0]].Stopping?
    requires !ClientsFinished(s)
    ensures !Disciplined(s, schedule)
  {
  }

  /** Without the discipline a task can be lost to a pool that is still alive: one worker, one client with a
      single call, one waitAllthread and no destructor.  The client pushes between the two reads of the
      worker's exit test, and the run ends with the task queued and never started. */
  lemma LateSubmissionIsLost(task: Task) returns (rest: seq<nat>)
    ensures var s := LateStart(task);
      && Initial(s) && Legal(s, lateSchedule + rest)
      && Proper(s, lateSchedule + rest) && !Disciplined(s, lateSchedule + rest)
      && var t := Run(s, lateSchedule + rest);
      Stuck(t) && t.mem.tasks == [task] && t.mem.started == []
  {
    hide Next, Enabled, Stuck, Run, Legal, Disciplined, Proper;
    var s := LateStart(task);
    var t := RunToLate(task);
    rest := FinishLate(s, lateSchedule, t, task);
    assert s.threads[1].calls != [];
    EarlyStop(s, lateSchedule + rest);
  }

  lemma FinishLate(s: Pool, first: seq<nat>, t: Pool, task: Task) returns (rest: seq<nat>)
    requires Initial(s) && Legal(s, first) && Run(s, first) == t
    requires forall j :: 0 <= j < |s.threads| ==> !InDestruction(s.threads[j])
    requires AllExited(t) && !Destroyed(t) && t.mem.tasks == [task]
    requires forall j :: 0 <= j < |t.threads| ==> Unpushed(t.threads[j]) == 0
    ensures Legal(s, first + rest) && Proper(s, first + rest) && Stuck(Run(s, first + rest))
    ensures Run(s, first + rest).mem.tasks == [task] && Run(s, first + rest).mem.started == t.mem.started
  {
    hide Next, Enabled, Stuck, Run, Legal, Inv, Proper, AllDone;
    InitialInv(s);
    RunInv(s, first);
    rest := Finish(t);
    Join(s, first, rest);
    TotalOfZeros(Unpushed, t.threads);
    LostExactlyIfLate(t, rest);
    WithoutDestructor(s, first + rest);
  }
}
