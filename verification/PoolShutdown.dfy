/** Shutdown: what waitAllthread and the destructor may conclude, and that no thread waits for ever. */
module PoolShutdown {
  import opened Options
  import opened ThreadPool
  import opened PoolSafety

  /** waitAllthread and the destructor begin only when the submitting threads are done, so that
      after the stop only running tasks submit. */
  predicate Disciplined(s: Pool, schedule: seq<nat>)
    requires Legal(s, schedule)
    decreases |schedule|
  {
    schedule != [] ==>
      && (s.threads[schedule[0]].Stopping? || s.threads[schedule[0]].Destroying? ==> ClientsFinished(s))
      && Disciplined(Next(s, schedule[0]), schedule[1..])
  }

  /** waitAllthread has read a zero count, and perhaps gone on from there. */
  predicate SawQuiet(th: Thread) {
    th.SawZero? || th.SawDrained? || ((th.Joining? || th.Joined?) && th.drained)
  }

  /** The worker has read an empty deque for the last time: it has left its loop or is about to. */
  predicate Gone(th: Thread) {
    th.SawEmpty? || th.Leaving? || th.Exited?
  }

  predicate AllGone(s: Pool) {
    forall j :: 0 <= j < |s.threads| && IsWorker(s.threads[j]) ==> Gone(s.threads[j])
  }

  ghost predicate Orderly(s: Pool) {
    && (s.mem.stop ==> ClientsFinished(s))
    && (HasWorker(s) && AllGone(s) ==> s.mem.tasks == [])
    && (forall j :: 0 <= j < |s.threads| && SawQuiet(s.threads[j]) ==> Quiet(s))
  }

  lemma ClientsStayFinished(s: Pool, i: nat)
    requires ClientsFinished(s) && Enabled(s, i)
    ensures ClientsFinished(Next(s, i))
  {
  }

  lemma WorkersStay(s: Pool, i: nat)
    requires Enabled(s, i) && HasWorker(s)
    ensures HasWorker(Next(s, i))
  {
    var j :| 0 <= j < |s.threads| && IsWorker(s.threads[j]);
    assert IsWorker(Next(s, i).threads[j]);
  }

  lemma WorkersWereThere(s: Pool, i: nat)
    requires Enabled(s, i) && HasWorker(Next(s, i))
    ensures HasWorker(s)
  {
    var j :| 0 <= j < |s.threads| && IsWorker(Next(s, i).threads[j]);
    assert IsWorker(s.threads[j]);
  }

  // A quiet pool stays quiet as long as no client steps: only a running task could submit.
  lemma QuietStays(s: Pool, i: nat)
    requires QueuesOk(s) && Quiet(s) && Enabled(s, i) && !s.threads[i].Client?
    ensures Quiet(Next(s, i))
  {
    assert QueueOk(s.mem, s.threads[i]);
    assert Busy(s.threads[i]) == 0;
  }

  // The count can only be read as zero when nothing is left, if every submitter is a running task.
  lemma ZeroReadIsQuiet(s: Pool, c: nat)
    requires Inv(s) && ClientsFinished(s) && c < |s.threads| && s.threads[c].Testing? && s.mem.count == 0
    ensures Quiet(s)
  {
    PendingAtMostQueued(s, c);
    BusyNonNegative(s);
    if o :| 0 <= o < |s.threads| && Pending(s.threads[o]) == 1 {
      assert s.threads[o].Running?;
      TotalAtLeast(Busy, s.threads, o);
    } else {
      TotalOfZeros(Pending, s.threads);
    }
    ZeroCountIsDone(s, c);
  }

  lemma OrderlyStep(s: Pool, i: nat)
    requires Inv(s) && Orderly(s) && Enabled(s, i)
    requires s.threads[i].Stopping? || s.threads[i].Destroying? ==> ClientsFinished(s)
    ensures Orderly(Next(s, i))
  {
    hide Act;
    var t := Next(s, i);
    ActShutdown(s.mem, i, s.threads[i]);
    assert QueueOk(s.mem, s.threads[i]);
    if ClientsFinished(s) {
      ClientsStayFinished(s, i);
    }
    if HasWorker(s) {
      GoneStep(s, i);
    } else if HasWorker(t) {
      WorkersWereThere(s, i);
    }
    forall j | 0 <= j < |t.threads| && SawQuiet(t.threads[j])
      ensures Quiet(t)
    {
      if !SawQuiet(s.threads[j]) {
        ZeroReadIsQuiet(s, i);
      }
      assert QueueOk(s.mem, s.threads[j]);
      QuietStays(s, i);
    }
  }

  lemma ActShutdown(m: Memory, i: nat, th: Thread)
    requires CanAct(m, th)
    ensures var (n, now) := Act(m, i, th);
      && (n.stop ==> m.stop || th.Stopping? || th.Destroying?)
      && (SawQuiet(now) ==> SawQuiet(th) || (th.Testing? && m.count == 0))
  {
  }

  lemma ActGone(m: Memory, i: nat, th: Thread)
    requires CanAct(m, th)
    ensures var (n, now) := Act(m, i, th);
      && IsWorker(now) == IsWorker(th)
      && (Gone(now) ==> n.tasks == m.tasks && (Gone(th) || (th.Woken? && m.tasks == [])))
      && (!IsWorker(th) && (th.Client? ==> th.calls == []) ==> n.tasks == m.tasks)
  {
  }

  // The step after which every worker is gone was no worker's own, or found every worker gone, or
  // was the last worker's look at an empty deque.
  lemma GoneBefore(s: Pool, i: nat)
    requires Enabled(s, i) && AllGone(Next(s, i))
    ensures AllGone(s) || (s.threads[i].Woken? && s.mem.tasks == [])
    ensures IsWorker(s.threads[i]) ==> Next(s, i).mem.tasks == s.mem.tasks
  {
    hide Act;
    ActGone(s.mem, i, s.threads[i]);
    var t := Next(s, i);
    assert IsWorker(t.threads[i]) ==> Gone(t.threads[i]);
    forall j | 0 <= j < |s.threads| && IsWorker(s.threads[j])
      ensures Gone(s.threads[j]) || (s.threads[i].Woken? && s.mem.tasks == [])
    {
      assert IsWorker(t.threads[j]);
    }
  }

  // The deque is empty at the last worker's last look, and then only a client could fill it.
  lemma GoneStep(s: Pool, i: nat)
    requires Inv(s) && HasWorker(s) && Enabled(s, i)
    requires s.mem.stop ==> ClientsFinished(s)
    requires AllGone(s) ==> s.mem.tasks == []
    ensures AllGone(Next(s, i)) ==> Next(s, i).mem.tasks == []
  {
    hide Act;
    if AllGone(Next(s, i)) {
      GoneBefore(s, i);
      ActGone(s.mem, i, s.threads[i]);
      var w :| 0 <= w < |s.threads| && IsWorker(s.threads[w]);
      assert QueueOk(s.mem, s.threads[w]);
    }
  }

  lemma {:induction false} OrderlyRun(s: Pool, schedule: seq<nat>)
    requires Inv(s) && Orderly(s) && Legal(s, schedule) && Disciplined(s, schedule)
    ensures Orderly(Run(s, schedule))
    decreases |schedule|
  {
    if schedule != [] {
      StepInv(s, schedule[0]);
      OrderlyStep(s, schedule[0]);
      OrderlyRun(Next(s, schedule[0]), schedule[1..]);
    }
  }

  lemma InitialOrderly(s: Pool)
    requires Initial(s)
    ensures Orderly(s)
  {
  }

  /** Shutdown loses nothing: with at least one worker, and only running tasks submitting after the
      stop, once every worker has left its loop the deque is empty, no task is unfinished, the count
      is 0, and every task ever submitted (by a client or by a task) has completed. */
  lemma ShutdownLosesNothing(s: Pool, schedule: seq<nat>)
    requires Initial(s) && HasWorker(s) && Legal(s, schedule) && Disciplined(s, schedule)
    requires AllExited(Run(s, schedule))
    ensures var t := Run(s, schedule); Quiet(t) && AllDone(t) && t.mem.count == 0
  {
    InitialInv(s);
    InitialOrderly(s);
    RunInv(s, schedule);
    OrderlyRun(s, schedule);
    ExitedIsDone(s, schedule);
  }

  lemma {:induction false} RunKeepsWorkers(s: Pool, schedule: seq<nat>)
    requires HasWorker(s) && Legal(s, schedule)
    ensures HasWorker(Run(s, schedule))
    decreases |schedule|
  {
    if schedule != [] {
      WorkersStay(s, schedule[0]);
      RunKeepsWorkers(Next(s, schedule[0]), schedule[1..]);
    }
  }

  lemma ExitedIsDone(s: Pool, schedule: seq<nat>)
    requires HasWorker(s) && Legal(s, schedule)
    requires var t := Run(s, schedule); Inv(t) && Orderly(t) && AllExited(t)
    ensures var t := Run(s, schedule); Quiet(t) && AllDone(t) && t.mem.count == 0
  {
    var t := Run(s, schedule);
    RunKeepsWorkers(s, schedule);
    var w :| 0 <= w < |t.threads| && IsWorker(t.threads[w]);
    assert QueueOk(t.mem, t.threads[w]);
    QuietIsDone(t);
    TotalOfZeros(Busy, t.threads);
    TotalOfZeros(Pending, t.threads);
  }

  lemma {:induction false} RunKeepsThreads(s: Pool, schedule: seq<nat>)
    requires Legal(s, schedule)
    ensures |Run(s, schedule).threads| == |s.threads|
    decreases |schedule|
  {
    if schedule != [] {
      RunKeepsThreads(Next(s, schedule[0]), schedule[1..]);
    }
  }

  /** Where thread c is after the run. */
  function ThreadAfter(s: Pool, schedule: seq<nat>, c: nat): Thread
    requires Legal(s, schedule) && c < |s.threads|
  {
    RunKeepsThreads(s, schedule);
    Run(s, schedule).threads[c]
  }

  /** With the same discipline, a waitAllthread whose wait did not time out has seen a pool in which
      every submitted task had completed, although it reads the count and the deque one after the other. */
  lemma WaitSeesAllDone(s: Pool, schedule: seq<nat>, c: nat)
    requires Initial(s) && Legal(s, schedule) && Disciplined(s, schedule)
    requires c < |s.threads| && SawQuiet(ThreadAfter(s, schedule, c))
    ensures Quiet(Run(s, schedule)) && AllDone(Run(s, schedule))
  {
    InitialInv(s);
    InitialOrderly(s);
    RunInv(s, schedule);
    OrderlyRun(s, schedule);
    RunKeepsThreads(s, schedule);
    QuietIsDone(Run(s, schedule));
  }

  // ---------- progress ----------

  /** A thread with nothing more to do: a worker that left, or one that waits for work nobody has
      announced; a client without calls; a stopper back from its joins. */
  predicate AtRest(m: Memory, th: Thread) {
    th.Exited? || th.Joined? || th.Ended? || (th.Client? && th.calls == []) || (th.Idle? && m.tasks == [] && !m.stop)
  }

  /** No deadlock: a pool in which no thread can step is one in which every thread is at rest.
      After a stop that means every worker has left, every client is done and every stopper has joined. */
  lemma StuckIsAtRest(s: Pool)
    requires Inv(s)
    ensures Stuck(s) <==> forall j :: 0 <= j < |s.threads| ==> AtRest(s.mem, s.threads[j])
  {
    if Stuck(s) {
      MutexesFree(s);
      forall j | 0 <= j < |s.threads|
        ensures AtRest(s.mem, s.threads[j]) || s.threads[j].Joining? || s.threads[j].Ending?
      {
        assert !Enabled(s, j);
      }
      forall j | 0 <= j < |s.threads|
        ensures AtRest(s.mem, s.threads[j])
      {
        assert !Enabled(s, j);
        assert QueueOk(s.mem, s.threads[j]);
      }
    }
  }

  // The holder of a mutex never waits for anything.
  lemma HoldersMove(s: Pool)
    requires Inv(s)
    ensures forall j :: 0 <= j < |s.threads| && (HoldsTasks(s.threads[j]) || HoldsCount(s.threads[j])) ==> Enabled(s, j)
  {
    forall j | 0 <= j < |s.threads| && (HoldsTasks(s.threads[j]) || HoldsCount(s.threads[j]))
      ensures Enabled(s, j)
    {
      assert QueueOk(s.mem, s.threads[j]);
    }
  }

  // So in a stuck pool both mutexes are free.
  lemma MutexesFree(s: Pool)
    requires Inv(s) && Stuck(s)
    ensures s.mem.tasksOwner == None && s.mem.countOwner == None
  {
    assert s.mem.tasksOwner.Some? ==> HoldsTasks(s.threads[s.mem.tasksOwner.value]);
    assert s.mem.countOwner.Some? ==> HoldsCount(s.threads[s.mem.countOwner.value]);
    HoldersMove(s);
  }
}
