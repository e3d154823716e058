/** Every run of the pool ends, and everything the clients' call trees name runs exactly once. */
module PoolDrain {
  import opened ThreadPool
  import opened PoolSafety
  import opened PoolShutdown

  // ---------- a measure that falls on every step ----------

  function TaskWeight(task: Task): nat
    decreases task
  {
    11 + CallsWeight(task.calls)
  }

  function CallsWeight(calls: seq<Call>): nat
    decreases calls
  {
    if calls == [] then 0
    else assert calls decreases to calls[0]; 4 + TaskWeight(calls[0].task) + CallsWeight(calls[1..])
  }

  function QueueWeight(tasks: seq<Task>): nat {
    if tasks == [] then 0 else TaskWeight(tasks[0]) + QueueWeight(tasks[1..])
  }

  // What is still to come of `calls`, given how far the first of them has got.
  function SubmitWeight(calls: seq<Call>, stage: Stage): int {
    CallsWeight(calls) -
    match stage
    case Ready => 0
    case Locked => 1
    case Pushed => if calls == [] then 0 else 2 + TaskWeight(calls[0].task)
    case Counted => if calls == [] then 0 else 3 + TaskWeight(calls[0].task)
  }

  function Weight(th: Thread): int {
    match th
    case Exited => 0
    case Leaving => 1
    case Popping => 1
    case Checked => 2
    case SawEmpty => 3
    case Woken => 4
    case Idle => 5
    case Skipping => 6
    case Decremented => 6
    case Decrementing(_) => 7
    case Guarding(_) => 8
    case Returned(_) => 9
    case Running(_, calls, stage) => 10 + SubmitWeight(calls, stage)
    case Popped(_, task) => 11 + CallsWeight(task.calls)
    case Client(calls, stage) => SubmitWeight(calls, stage)
    case Stopping(wakeups) => 4 * wakeups + 6
    case Acquiring(wakeups) => 4 * wakeups + 5
    case Testing(wakeups) => 4 * wakeups + 4
    case SawZero(wakeups) => 4 * wakeups + 3
    case Missed(wakeups) => 4 * wakeups + 2
    case SawDrained => 2
    case Joining(_) => 1
    case Joined(_) => 0
    case Destroying => 2
    case Ending => 1
    case Ended => 0
  }

  function Measure(s: Pool): int {
    QueueWeight(s.mem.tasks) + Total(Weight, s.threads)
  }

  lemma {:induction false} QueueWeightPush(tasks: seq<Task>, task: Task)
    ensures QueueWeight(tasks + [task]) == QueueWeight(tasks) + TaskWeight(task)
  {
    if tasks == [] {
      assert tasks + [task] == [task];
    } else {
      assert (tasks + [task])[1..] == tasks[1..] + [task];
      QueueWeightPush(tasks[1..], task);
    }
  }

  predicate SubmitterOk(th: Thread) {
    IsSubmitter(th) && th.stage != Ready ==> th.calls != []
  }

  lemma SubmitWeightFalls(m: Memory, i: nat, calls: seq<Call>, stage: Stage)
    requires calls != []
    ensures QueueWeight(Submit(m, i, calls[0], stage).tasks) + SubmitWeight(NextCalls(calls, stage), NextStage(stage))
      < QueueWeight(m.tasks) + SubmitWeight(calls, stage)
  {
    QueueWeightPush(m.tasks, calls[0].task);
  }

  ghost predicate WeightFalls(m: Memory, i: nat, th: Thread)
    requires CanAct(m, th)
  {
    var (n, now) := Act(m, i, th);
    QueueWeight(n.tasks) + Weight(now) < QueueWeight(m.tasks) + Weight(th)
  }

  predicate Submitting(th: Thread) {
    IsSubmitter(th) && th.calls != []
  }

  lemma SubmittingWeight(m: Memory, i: nat, th: Thread)
    requires CanAct(m, th) && Submitting(th)
    ensures WeightFalls(m, i, th)
  {
    hide Submit, SubmitWeight, QueueWeight;
    SubmitWeightFalls(m, i, th.calls, th.stage);
  }

  lemma WorkerWeight(m: Memory, i: nat, th: Thread)
    requires CanAct(m, th) && QueueOk(m, th) && SubmitterOk(th) && IsWorker(th) && !Submitting(th)
    ensures WeightFalls(m, i, th)
  {
    hide Submit;
  }

  lemma StopperWeight(m: Memory, i: nat, th: Thread)
    requires CanAct(m, th) && !IsWorker(th) && !Submitting(th)
    ensures WeightFalls(m, i, th)
  {
    hide Submit, SubmitWeight, QueueWeight;
  }

  lemma ActWeight(m: Memory, i: nat, th: Thread)
    requires CanAct(m, th) && QueueOk(m, th) && SubmitterOk(th)
    ensures WeightFalls(m, i, th)
  {
    hide Act, CanAct, QueueOk, WeightFalls;
    if Submitting(th) {
      SubmittingWeight(m, i, th);
    } else if IsWorker(th) {
      WorkerWeight(m, i, th);
    } else {
      StopperWeight(m, i, th);
    }
  }

  lemma WeightNonNegative(th: Thread)
    requires SubmitterOk(th)
    ensures Weight(th) >= 0
  {
  }

  lemma MeasureFalls(s: Pool, i: nat)
    requires Inv(s) && Enabled(s, i)
    ensures Measure(Next(s, i)) < Measure(s)
  {
    hide Act;
    assert QueueOk(s.mem, s.threads[i]);
    ActWeight(s.mem, i, s.threads[i]);
    TotalUpdate(Weight, s.threads, i, Act(s.mem, i, s.threads[i]).1);
  }

  lemma MeasureNonNegative(s: Pool)
    requires OwnersOk(s)
    ensures Measure(s) >= 0
  {
    forall j | 0 <= j < |s.threads|
      ensures Weight(s.threads[j]) >= 0
    {
      WeightNonNegative(s.threads[j]);
    }
    TotalNonNegative(Weight, s.threads);
  }

  /** No run is longer than the measure of where it starts: with finite trees of submissions the pool
      cannot go on for ever, stopped or not. */
  lemma {:induction false} RunsAreBounded(s: Pool, schedule: seq<nat>)
    requires Inv(s) && Legal(s, schedule)
    ensures |schedule| <= Measure(s)
    decreases |schedule|
  {
    if schedule == [] {
      MeasureNonNegative(s);
    } else {
      StepInv(s, schedule[0]);
      MeasureFalls(s, schedule[0]);
      RunsAreBounded(Next(s, schedule[0]), schedule[1..]);
    }
  }

  ghost predicate HasStopper(s: Pool) {
    exists j :: 0 <= j < |s.threads| && IsStopper(s.threads[j])
  }

  predicate IsStopper(th: Thread) {
    !IsWorker(th) && !th.Client?
  }

  lemma {:induction false} StoppersStay(s: Pool, schedule: seq<nat>)
    requires HasStopper(s) && Legal(s, schedule)
    ensures HasStopper(Run(s, schedule))
    decreases |schedule|
  {
    if schedule != [] {
      var j :| 0 <= j < |s.threads| && IsStopper(s.threads[j]);
      assert IsStopper(Next(s, schedule[0]).threads[j]);
      StoppersStay(Next(s, schedule[0]), schedule[1..]);
    }
  }

  /** A pool that somebody stops always drains: its runs are bounded, and one that can go no further
      has every worker out of its loop, every client done and every stopper back from its joins; with
      the shutdown discipline every submitted task has then completed. */
  lemma StoppedPoolDrains(s: Pool, schedule: seq<nat>)
    requires Initial(s) && HasWorker(s) && HasStopper(s) && Legal(s, schedule)
    ensures |schedule| <= Measure(s)
    ensures var t := Run(s, schedule); Stuck(t) ==>
      && AllExited(t) && ClientsFinished(t)
      && forall j :: 0 <= j < |t.threads| && IsStopper(t.threads[j]) ==> t.threads[j].Joined? || t.threads[j].Ended?
    ensures var t := Run(s, schedule); Stuck(t) && Disciplined(s, schedule) ==> AllDone(t)
  {
    InitialInv(s);
    RunInv(s, schedule);
    RunsAreBounded(s, schedule);
    StoppersStay(s, schedule);
    var t := Run(s, schedule);
    if Stuck(t) {
      StuckHasJoined(t);
      if Disciplined(s, schedule) {
        ShutdownLosesNothing(s, schedule);
      }
    }
  }

  lemma StuckHasJoined(t: Pool)
    requires Inv(t) && HasStopper(t) && Stuck(t)
    ensures AllExited(t) && ClientsFinished(t)
    ensures forall j :: 0 <= j < |t.threads| && IsStopper(t.threads[j]) ==> t.threads[j].Joined? || t.threads[j].Ended?
  {
    StuckIsAtRest(t);
    var j :| 0 <= j < |t.threads| && IsStopper(t.threads[j]);
    assert AtRest(t.mem, t.threads[j]) && QueueOk(t.mem, t.threads[j]);
  }

  // ---------- every named task runs exactly once ----------

  /** How often `name` occurs in the tree of submissions a task makes, itself included. */
  function NameInTask(name: nat, task: Task): nat
    decreases task
  {
    (if task.name == name then 1 else 0) + NameInCalls(name, task.calls)
  }

  function NameInCalls(name: nat, calls: seq<Call>): nat
    decreases calls
  {
    if calls == [] then 0
    else assert calls decreases to calls[0]; NameInTask(name, calls[0].task) + NameInCalls(name, calls[1..])
  }

  // How often `name` occurs below the queued tasks, themselves not included.
  function NameBelow(name: nat, tasks: seq<Task>): nat {
    if tasks == [] then 0 else NameInCalls(name, tasks[0].calls) + NameBelow(name, tasks[1..])
  }

  /** How often `name` occurs among the tasks of a sequence. */
  function Occurrences(name: nat, tasks: seq<Task>): nat {
    if tasks == [] then 0 else (if tasks[0].name == name then 1 else 0) + Occurrences(name, tasks[1..])
  }

  // How often `name` occurs in what a thread has still to push.
  function NameAhead(name: nat, th: Thread): int {
    if th.Popped? then NameInCalls(name, th.task.calls)
    else if IsSubmitter(th) then
      NameInCalls(name, th.calls) -
      (if th.stage in {Pushed, Counted} && th.calls != [] then NameInTask(name, th.calls[0].task) else 0)
    else 0
  }

  function Ahead(name: nat): Thread -> int {
    (th: Thread) => NameAhead(name, th)
  }

  lemma {:induction false} PushNames(name: nat, tasks: seq<Task>, task: Task)
    ensures NameBelow(name, tasks + [task]) == NameBelow(name, tasks) + NameInCalls(name, task.calls)
    ensures Occurrences(name, tasks + [task]) == Occurrences(name, tasks) + (if task.name == name then 1 else 0)
  {
    if tasks == [] {
      assert tasks + [task] == [task];
    } else {
      assert (tasks + [task])[1..] == tasks[1..] + [task];
      PushNames(name, tasks[1..], task);
    }
  }

  lemma SubmitNames(name: nat, m: Memory, i: nat, th: Thread)
    requires CanAct(m, th) && Submitting(th)
    ensures NamesKept(name, m, i, th)
  {
    hide NameInTask, Occurrences, NameBelow;
    if th.stage == Locked {
      PushNames(name, m.tasks, th.calls[0].task);
      PushNames(name, m.submitted, th.calls[0].task);
    }
    NameOfTask(name, th.calls[0].task);
  }

  lemma NameOfTask(name: nat, task: Task)
    ensures NameInTask(name, task) == (if task.name == name then 1 else 0) + NameInCalls(name, task.calls)
  {
  }

  lemma OtherNames(name: nat, m: Memory, i: nat, th: Thread)
    requires CanAct(m, th) && SubmitterOk(th) && !Submitting(th)
    ensures NamesKept(name, m, i, th)
  {
    hide Submit, NameInTask, Occurrences;
  }

  ghost predicate NamesKept(name: nat, m: Memory, i: nat, th: Thread)
    requires CanAct(m, th)
  {
    var (n, now) := Act(m, i, th);
    Occurrences(name, n.submitted) + NameBelow(name, n.tasks) + NameAhead(name, now)
      == Occurrences(name, m.submitted) + NameBelow(name, m.tasks) + NameAhead(name, th)
  }

  /** Conservation: pushed, still below the queue and still ahead of the threads always add up. */
  lemma {:induction false} NamesConserved(name: nat, s: Pool, schedule: seq<nat>)
    requires Inv(s) && Legal(s, schedule)
    ensures var t := Run(s, schedule);
      Occurrences(name, t.mem.submitted) + NameBelow(name, t.mem.tasks) + Total(Ahead(name), t.threads)
        == Occurrences(name, s.mem.submitted) + NameBelow(name, s.mem.tasks) + Total(Ahead(name), s.threads)
    decreases |schedule|
  {
    if schedule != [] {
      var i := schedule[0];
      StepInv(s, i);
      StepNames(name, s, i);
      NamesConserved(name, Next(s, i), schedule[1..]);
    }
  }

  lemma StepNames(name: nat, s: Pool, i: nat)
    requires Inv(s) && Enabled(s, i)
    ensures var t := Next(s, i);
      Occurrences(name, t.mem.submitted) + NameBelow(name, t.mem.tasks) + Total(Ahead(name), t.threads)
        == Occurrences(name, s.mem.submitted) + NameBelow(name, s.mem.tasks) + Total(Ahead(name), s.threads)
  {
    hide Act;
    if Submitting(s.threads[i]) {
      SubmitNames(name, s.mem, i, s.threads[i]);
    } else {
      OtherNames(name, s.mem, i, s.threads[i]);
    }
    TotalUpdate(Ahead(name), s.threads, i, Act(s.mem, i, s.threads[i]).1);
  }

  /** After a disciplined shutdown the tasks that ran are exactly those named in the clients' call
      trees, each as often as it is named there. */
  lemma EveryNamedTaskRan(name: nat, s: Pool, schedule: seq<nat>)
    requires Initial(s) && HasWorker(s) && Legal(s, schedule) && Disciplined(s, schedule)
    requires AllExited(Run(s, schedule))
    ensures AllDone(Run(s, schedule))
    ensures Occurrences(name, Run(s, schedule).mem.started) == Total(Ahead(name), s.threads)
  {
    var t := Run(s, schedule);
    InitialInv(s);
    InitialOrderly(s);
    RunInv(s, schedule);
    OrderlyRun(s, schedule);
    ShutdownLosesNothing(s, schedule);
    RunKeepsWorkers(s, schedule);
    NamesConserved(name, s, schedule);
    var w :| 0 <= w < |t.threads| && IsWorker(t.threads[w]);
    assert QueueOk(t.mem, t.threads[w]);
    TotalOfZeros(Ahead(name), t.threads);
  }

  lemma {:induction false} OccursAtMostOnce(name: nat, tasks: seq<Task>, j: nat, k: nat)
    requires j < k < |tasks| && tasks[j].name == name && tasks[k].name == name
    ensures Occurrences(name, tasks) >= 2
  {
    if j == 0 {
      OccursSomewhere(name, tasks[1..], k - 1);
    } else {
      OccursAtMostOnce(name, tasks[1..], j - 1, k - 1);
    }
  }

  lemma {:induction false} OccursSomewhere(name: nat, tasks: seq<Task>, k: nat)
    requires k < |tasks| && tasks[k].name == name
    ensures Occurrences(name, tasks) >= 1
  {
    if k > 0 {
      OccursSomewhere(name, tasks[1..], k - 1);
    }
  }

  lemma {:induction false} FindOccurrence(name: nat, tasks: seq<Task>) returns (k: nat)
    requires Occurrences(name, tasks) >= 1
    ensures k < |tasks| && tasks[k].name == name
  {
    if tasks[0].name == name {
      k := 0;
    } else {
      k := FindOccurrence(name, tasks[1..]);
      k := k + 1;
    }
  }

  /** A callback that is posted in one place runs exactly once: one ticket carries its name, and
      that ticket has completed. */
  lemma CallbackRunsExactlyOnce(name: nat, s: Pool, schedule: seq<nat>) returns (ticket: nat)
    requires Initial(s) && HasWorker(s) && Legal(s, schedule) && Disciplined(s, schedule)
    requires AllExited(Run(s, schedule))
    requires Total(Ahead(name), s.threads) == 1
    ensures var m := Run(s, schedule).mem;
      && ticket < |m.started| && m.started[ticket].name == name && ticket in m.completed
      && forall k :: 0 <= k < |m.started| && m.started[k].name == name ==> k == ticket
  {
    EveryNamedTaskRan(name, s, schedule);
    var started := Run(s, schedule).mem.started;
    ticket := FindOccurrence(name, started);
    forall k | 0 <= k < |started| && started[k].name == name
      ensures k == ticket
    {
      if k < ticket {
        OccursAtMostOnce(name, started, k, ticket);
      } else if ticket < k {
        OccursAtMostOnce(name, started, ticket, k);
      }
    }
  }
}
