/** What every step of the pool keeps, and what follows for every reachable state. */
module PoolSafety {
  import opened Options
  import opened ThreadPool

  // ---------- sums over the threads ----------

  function Total(weight: Thread -> int, threads: seq<Thread>): int {
    if threads == [] then 0 else weight(threads[0]) + Total(weight, threads[1..])
  }

  lemma {:induction false} TotalUpdate(weight: Thread -> int, threads: seq<Thread>, i: nat, th: Thread)
    requires i < |threads|
    ensures Total(weight, threads[i := th]) == Total(weight, threads) - weight(threads[i]) + weight(th)
  {
    if i == 0 {
      assert threads[0 := th][1..] == threads[1..];
    } else {
      assert threads[i := th][1..] == threads[1..][i - 1 := th];
      TotalUpdate(weight, threads[1..], i - 1, th);
    }
  }

  lemma {:induction false} TotalOfZeros(weight: Thread -> int, threads: seq<Thread>)
    requires forall j :: 0 <= j < |threads| ==> weight(threads[j]) == 0
    ensures Total(weight, threads) == 0
  {
    if threads != [] {
      TotalOfZeros(weight, threads[1..]);
    }
  }

  lemma {:induction false} TotalAtLeast(weight: Thread -> int, threads: seq<Thread>, i: nat)
    requires i < |threads|
    requires forall j :: 0 <= j < |threads| ==> weight(threads[j]) >= 0
    ensures Total(weight, threads) >= weight(threads[i])
  {
    TotalNonNegative(weight, threads[1..]);
    if i > 0 {
      TotalAtLeast(weight, threads[1..], i - 1);
    }
  }

  lemma {:induction false} TotalNonNegative(weight: Thread -> int, threads: seq<Thread>)
    requires forall j :: 0 <= j < |threads| ==> weight(threads[j]) >= 0
    ensures Total(weight, threads) >= 0
  {
    if threads != [] {
      TotalNonNegative(weight, threads[1..]);
    }
  }

  lemma {:induction false} TotalOfOne(weight: Thread -> int, threads: seq<Thread>, i: nat)
    requires i < |threads|
    requires forall j :: 0 <= j < |threads| && j != i ==> weight(threads[j]) == 0
    ensures Total(weight, threads) == weight(threads[i])
  {
    if i == 0 {
      TotalOfZeros(weight, threads[1..]);
    } else {
      TotalOfOne(weight, threads[1..], i - 1);
    }
  }

  // ---------- the invariant ----------

  /** A popped task whose decrement is still to come. */
  function Busy(th: Thread): int {
    if th.Popped? || th.Running? || th.Returned? || th.Guarding? || th.Decrementing? then 1 else 0
  }

  /** A pushed task whose increment is still to come. */
  function Pending(th: Thread): int {
    if IsSubmitter(th) && th.stage == Pushed then 1 else 0
  }

  predicate HasTicket(th: Thread) {
    th.Popped? || th.Running?
  }

  /** The thread has popped the ticket's function and it has not returned. */
  predicate InFlight(th: Thread, ticket: nat) {
    HasTicket(th) && th.ticket == ticket
  }

  ghost predicate OwnersOk(s: Pool) {
    && (forall j :: 0 <= j < |s.threads| ==> (HoldsTasks(s.threads[j]) <==> s.mem.tasksOwner == Some(j)))
    && (forall j :: 0 <= j < |s.threads| ==> (HoldsCount(s.threads[j]) <==> s.mem.countOwner == Some(j)))
    && (s.mem.tasksOwner.Some? ==> s.mem.tasksOwner.value < |s.threads|)
    && (s.mem.countOwner.Some? ==> s.mem.countOwner.value < |s.threads|)
    && (forall j :: 0 <= j < |s.threads| && IsSubmitter(s.threads[j]) && s.threads[j].stage != Ready
          ==> s.threads[j].calls != [])
  }

  /** While asyncTaskret holds M_tasksMutex_ nobody pops, so what it pushed is still there. */
  predicate QueueOk(m: Memory, th: Thread) {
    && (th.Checked? || th.Popping? ==> m.tasks != [])
    && !th.Skipping?
    && (th.Woken? ==> m.tasks != [] || m.stop)
    && (IsSubmitter(th) && th.stage in {Pushed, Counted} && th.calls != [] && th.calls[0].Ret? ==> m.tasks != [])
    && (SawStop(th) ==> m.stop)
  }

  predicate SawStop(th: Thread) {
    th.SawEmpty? || th.Leaving? || th.Exited?
    || th.Acquiring? || th.Testing? || th.SawZero? || th.SawDrained? || th.Missed? || th.Joining? || th.Joined?
    || th.Ending? || th.Ended?
  }

  ghost predicate QueuesOk(s: Pool) {
    forall j :: 0 <= j < |s.threads| ==> QueueOk(s.mem, s.threads[j])
  }

  ghost predicate TicketsOk(s: Pool) {
    && s.mem.submitted == s.mem.started + s.mem.tasks
    && (forall k :: k in s.mem.completed ==> 0 <= k < |s.mem.started|)
    && (forall j :: 0 <= j < |s.threads| && HasTicket(s.threads[j])
          ==> s.threads[j].ticket < |s.mem.started| && s.threads[j].ticket !in s.mem.completed)
    && (forall j :: 0 <= j < |s.threads| && s.threads[j].Popped?
          ==> s.threads[j].task == s.mem.started[s.threads[j].ticket])
    && (forall j, k :: 0 <= j < k < |s.threads| && HasTicket(s.threads[j]) && HasTicket(s.threads[k])
          ==> s.threads[j].ticket != s.threads[k].ticket)
    && (forall k: nat :: k < |s.mem.started| && k !in s.mem.completed ==> HasHolder(s, k))
  }

  ghost predicate HasHolder(s: Pool, ticket: nat) {
    exists j :: 0 <= j < |s.threads| && InFlight(s.threads[j], ticket)
  }

  ghost predicate CountOk(s: Pool) {
    s.mem.count == |s.mem.tasks| + Total(Busy, s.threads) - Total(Pending, s.threads) >= 0
  }

  ghost predicate Inv(s: Pool) {
    OwnersOk(s) && QueuesOk(s) && TicketsOk(s) && CountOk(s)
  }

  // ---------- every step keeps it ----------

  lemma InitialInv(s: Pool)
    requires Initial(s)
    ensures Inv(s)
  {
    TotalOfZeros(Busy, s.threads);
    TotalOfZeros(Pending, s.threads);
  }

  // One step of thread i: it takes a mutex only when that mutex is free and gives back only its own.
  predicate OwnerMoves(before: Option<nat>, after: Option<nat>, i: nat, held: bool, holds: bool) {
    if held == holds then after == before
    else if holds then before == None && after == Some(i)
    else after == None
  }

  lemma ActTasksOwner(m: Memory, i: nat, th: Thread)
    requires CanAct(m, th)
    requires IsSubmitter(th) && th.stage != Ready ==> th.calls != []
    ensures var (n, now) := Act(m, i, th);
      && OwnerMoves(m.tasksOwner, n.tasksOwner, i, HoldsTasks(th), HoldsTasks(now))
      && (IsSubmitter(now) && now.stage != Ready ==> now.calls != [])
  {
  }

  lemma ActCountOwner(m: Memory, i: nat, th: Thread)
    requires CanAct(m, th)
    requires IsSubmitter(th) && th.stage != Ready ==> th.calls != []
    ensures var (n, now) := Act(m, i, th);
      OwnerMoves(m.countOwner, n.countOwner, i, HoldsCount(th), HoldsCount(now))
  {
  }

  lemma StepOwners(s: Pool, i: nat)
    requires OwnersOk(s) && Enabled(s, i)
    ensures OwnersOk(Next(s, i))
  {
    hide Act;
    assert HoldsTasks(s.threads[i]) <==> s.mem.tasksOwner == Some(i);
    assert HoldsCount(s.threads[i]) <==> s.mem.countOwner == Some(i);
    ActTasksOwner(s.mem, i, s.threads[i]);
    ActCountOwner(s.mem, i, s.threads[i]);
  }

  ghost predicate QueueKept(m: Memory, i: nat, th: Thread)
    requires CanAct(m, th)
  {
    var (n, now) := Act(m, i, th);
    QueueOk(n, now)
  }

  lemma SubmitterQueue(m: Memory, i: nat, th: Thread)
    requires CanAct(m, th) && QueueOk(m, th) && IsSubmitter(th)
    ensures QueueKept(m, i, th)
  {
  }

  lemma OtherQueue(m: Memory, i: nat, th: Thread)
    requires CanAct(m, th) && QueueOk(m, th) && !IsSubmitter(th)
    ensures QueueKept(m, i, th)
  {
    hide Submit;
  }

  lemma ActQueueOfOthers(m: Memory, i: nat, th: Thread)
    requires CanAct(m, th)
    ensures var (n, _) := Act(m, i, th);
      (m.stop ==> n.stop) && (n.tasks == [] ==> m.tasks == [] || HoldsTasks(th))
  {
  }

  lemma StepQueues(s: Pool, i: nat)
    requires OwnersOk(s) && QueuesOk(s) && Enabled(s, i)
    ensures QueuesOk(Next(s, i))
  {
    hide Act;
    assert QueueOk(s.mem, s.threads[i]);
    if IsSubmitter(s.threads[i]) {
      SubmitterQueue(s.mem, i, s.threads[i]);
    } else {
      OtherQueue(s.mem, i, s.threads[i]);
    }
    ActQueueOfOthers(s.mem, i, s.threads[i]);
    var t := Next(s, i);
    forall j | 0 <= j < |t.threads|
      ensures QueueOk(t.mem, t.threads[j])
    {
      assert QueueOk(s.mem, s.threads[j]);
      assert HoldsTasks(s.threads[j]) <==> s.mem.tasksOwner == Some(j);
      assert HoldsTasks(s.threads[i]) <==> s.mem.tasksOwner == Some(i);
    }
  }

  // The queue and the histories change in one of four ways: push, pop, return, or not at all.
  predicate HistoryMoves(m: Memory, n: Memory, was: Thread, now: Thread) {
    if n.submitted != m.submitted then
      && |n.submitted| == |m.submitted| + 1 && n.submitted == m.submitted + n.submitted[|m.submitted|..]
      && n.tasks == m.tasks + n.submitted[|m.submitted|..]
      && n.started == m.started && n.completed == m.completed && SameTicket(was, now)
    else if n.started != m.started then
      && was.Popping? && m.tasks != [] && n.completed == m.completed
      && n.started == m.started + [m.tasks[0]] && n.tasks == m.tasks[1..]
      && now == Popped(|m.started|, m.tasks[0])
    else if was.Running? && !now.Running? then
      n.tasks == m.tasks && n.completed == m.completed + {was.ticket} && !now.Popped?
    else
      n.tasks == m.tasks && n.completed == m.completed && SameTicket(was, now)
  }

  predicate SameTicket(was: Thread, now: Thread) {
    && (HasTicket(was) == HasTicket(now))
    && (now.Popped? ==> was == now)
    && (HasTicket(was) ==> now.ticket == was.ticket)
  }

  lemma ActHistory(m: Memory, i: nat, th: Thread)
    requires CanAct(m, th)
    ensures var (n, now) := Act(m, i, th); HistoryMoves(m, n, th, now)
  {
  }

  lemma StepTickets(s: Pool, i: nat)
    requires TicketsOk(s) && Enabled(s, i)
    ensures TicketsOk(Next(s, i))
  {
    hide Act;
    ActHistory(s.mem, i, s.threads[i]);
    var t := Next(s, i);
    forall k: nat | k < |t.mem.started| && k !in t.mem.completed
      ensures HasHolder(t, k)
    {
      if k == |s.mem.started| {
        assert InFlight(t.threads[i], k);
      } else {
        assert HasHolder(s, k);
        var j :| 0 <= j < |s.threads| && InFlight(s.threads[j], k);
        assert InFlight(t.threads[j], k);
      }
    }
  }

  lemma ActCount(m: Memory, i: nat, th: Thread)
    requires CanAct(m, th) && QueueOk(m, th) && m.count >= 0 && (th.Guarding? || th.Decrementing? ==> m.count > 0)
    requires IsSubmitter(th) && th.stage != Ready ==> th.calls != []
    ensures var (n, now) := Act(m, i, th);
      n.count >= 0 && n.count - |n.tasks| - Busy(now) + Pending(now) == m.count - |m.tasks| - Busy(th) + Pending(th)
  {
  }

  lemma StepCount(s: Pool, i: nat)
    requires Inv(s) && Enabled(s, i)
    ensures CountOk(Next(s, i))
  {
    hide Act;
    if s.threads[i].Guarding? || s.threads[i].Decrementing? {
      GuardSucceeds(s, i);
    }
    assert QueueOk(s.mem, s.threads[i]);
    ActCount(s.mem, i, s.threads[i]);
    var now := Act(s.mem, i, s.threads[i]).1;
    TotalUpdate(Busy, s.threads, i, now);
    TotalUpdate(Pending, s.threads, i, now);
  }

  lemma StepInv(s: Pool, i: nat)
    requires Inv(s) && Enabled(s, i)
    ensures Inv(Next(s, i))
  {
    StepOwners(s, i);
    StepQueues(s, i);
    StepTickets(s, i);
    StepCount(s, i);
  }

  lemma {:induction false} RunInv(s: Pool, schedule: seq<nat>)
    requires Inv(s) && Legal(s, schedule)
    ensures Inv(Run(s, schedule))
    decreases |schedule|
  {
    if schedule != [] {
      StepInv(s, schedule[0]);
      RunInv(Next(s, schedule[0]), schedule[1..]);
    }
  }

  // One step and then the rest of a run.
  lemma Cons(s: Pool, i: nat, rest: seq<nat>)
    requires Enabled(s, i) && Legal(Next(s, i), rest)
    ensures Legal(s, [i] + rest) && Run(s, [i] + rest) == Run(Next(s, i), rest)
  {
    assert ([i] + rest)[1..] == rest;
  }

  lemma NextIs(s: Pool, i: nat, m: Memory, now: Thread)
    requires i < |s.threads| && CanAct(s.mem, s.threads[i]) && !s.threads[i].Joining? && !s.threads[i].Ending?
    requires Act(s.mem, i, s.threads[i]) == (m, now)
    ensures Enabled(s, i) && Next(s, i) == Pool(s.threads[i := now], m)
  {
  }

  // ---------- what it gives ----------

  /** No thread ever holds both mutexes. */
  lemma NeverBothMutexes(s: Pool, schedule: seq<nat>)
    requires Initial(s) && Legal(s, schedule)
    ensures var t := Run(s, schedule);
      t.mem.tasksOwner.Some? && t.mem.countOwner.Some? ==> t.mem.tasksOwner.value != t.mem.countOwner.value
  {
    InitialInv(s);
    RunInv(s, schedule);
    var t := Run(s, schedule);
    if t.mem.tasksOwner.Some? && t.mem.countOwner.Some? {
      assert HoldsTasks(t.threads[t.mem.tasksOwner.value]);
      assert HoldsCount(t.threads[t.mem.countOwner.value]);
    }
  }

  // With M_countMutex_ in the hands of a thread that is not submitting, only the owner of
  // M_tasksMutex_ can be between its push and its increment, and its task is still queued.
  lemma PendingAtMostQueued(s: Pool, c: nat)
    requires OwnersOk(s) && QueuesOk(s)
    requires c < |s.threads| && HoldsCount(s.threads[c]) && !IsSubmitter(s.threads[c])
    ensures Total(Pending, s.threads) <= 1
    ensures Total(Pending, s.threads) == 1 ==> s.mem.tasks != []
  {
    forall j | 0 <= j < |s.threads| && Pending(s.threads[j]) == 1
      ensures s.mem.tasksOwner == Some(j)
    {
      assert HoldsCount(s.threads[c]) && s.mem.countOwner == Some(c);
      assert HoldsCount(s.threads[j]) <==> s.mem.countOwner == Some(j);
    }
    if s.mem.tasksOwner.Some? {
      var o := s.mem.tasksOwner.value;
      TotalOfOne(Pending, s.threads, o);
      assert QueueOk(s.mem, s.threads[o]);
    } else {
      TotalOfZeros(Pending, s.threads);
    }
  }

  lemma BusyNonNegative(s: Pool)
    ensures Total(Busy, s.threads) >= 0
  {
    TotalNonNegative(Busy, s.threads);
  }

  /** The `> 0` test before the decrement is true whenever a worker reaches it, although
      pushes and decrements are under different mutexes. */
  lemma GuardSucceeds(s: Pool, i: nat)
    requires Inv(s) && i < |s.threads| && (s.threads[i].Guarding? || s.threads[i].Decrementing?)
    ensures s.mem.count > 0
  {
    PendingAtMostQueued(s, i);
    TotalAtLeast(Busy, s.threads, i);
  }

  /** In every reachable state the running count is queued plus popped-but-unfinished minus
      pushed-but-uncounted, it is never negative, and the guarded decrement is never skipped. */
  lemma CountIsExact(s: Pool, schedule: seq<nat>)
    requires Initial(s) && Legal(s, schedule)
    ensures var t := Run(s, schedule);
      && t.mem.count == |t.mem.tasks| + Total(Busy, t.threads) - Total(Pending, t.threads) >= 0
      && (forall i :: 0 <= i < |t.threads| && t.threads[i].Guarding? ==> Next(t, i).threads[i].Decrementing?)
  {
    InitialInv(s);
    RunInv(s, schedule);
    var t := Run(s, schedule);
    forall i | 0 <= i < |t.threads| && t.threads[i].Guarding?
      ensures t.mem.count > 0
    {
      GuardSucceeds(t, i);
    }
  }

  /** Tasks start in submission order, and a started task is either over or inside exactly one
      worker: no ticket is dropped and none runs twice. */
  lemma ExactlyOnceInOrder(s: Pool, schedule: seq<nat>)
    requires Initial(s) && Legal(s, schedule)
    ensures var t := Run(s, schedule);
      && t.mem.submitted == t.mem.started + t.mem.tasks
      && (forall k: nat :: k < |t.mem.started| ==> (k in t.mem.completed) != HasHolder(t, k))
      && (forall j, l, k: nat :: 0 <= j < l < |t.threads| && InFlight(t.threads[j], k) ==> !InFlight(t.threads[l], k))
  {
    InitialInv(s);
    RunInv(s, schedule);
  }

  /** No history is ever rewritten. */
  lemma {:induction false} HistoriesGrow(s: Pool, schedule: seq<nat>)
    requires Legal(s, schedule)
    ensures var t := Run(s, schedule);
      s.mem.submitted <= t.mem.submitted && s.mem.started <= t.mem.started && s.mem.completed <= t.mem.completed
    decreases |schedule|
  {
    if schedule != [] {
      HistoriesGrow(Next(s, schedule[0]), schedule[1..]);
    }
  }

  // ---------- quiet pools ----------

  /** Nothing queued and no popped task unfinished. */
  ghost predicate Quiet(s: Pool) {
    s.mem.tasks == [] && forall j :: 0 <= j < |s.threads| ==> Busy(s.threads[j]) == 0
  }

  /** Every task ever submitted has been popped and has returned. */
  ghost predicate AllDone(s: Pool) {
    && s.mem.started == s.mem.submitted
    && (forall k :: k in s.mem.completed <==> 0 <= k < |s.mem.submitted|)
  }

  lemma QuietIsDone(s: Pool)
    requires TicketsOk(s) && Quiet(s)
    ensures AllDone(s)
  {
    forall k: nat | k < |s.mem.started|
      ensures k in s.mem.completed
    {
      assert k !in s.mem.completed ==> HasHolder(s, k);
    }
  }

  /** count == 0 and an empty deque, seen together by the thread holding M_countMutex_ in
      waitAllthread, mean that every submitted task has completed, even with an asyncTaskret
      midway under the other mutex. */
  lemma ZeroCountIsDone(s: Pool, c: nat)
    requires Inv(s) && c < |s.threads| && (s.threads[c].Testing? || s.threads[c].SawZero?)
    requires s.mem.count == 0 && s.mem.tasks == []
    ensures Quiet(s) && AllDone(s)
  {
    PendingAtMostQueued(s, c);
    TotalNonNegative(Pending, s.threads);
    forall j | 0 <= j < |s.threads|
      ensures Busy(s.threads[j]) == 0
    {
      TotalAtLeast(Busy, s.threads, j);
    }
    QuietIsDone(s);
  }
}
