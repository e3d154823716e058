/** The ThreadManager object: the members every thread shares, changed in place one step at a time, and
    proved to follow the state machine. */
module ThreadManagers {
  import opened Options
  import opened ThreadPool
  import opened PoolSafety

  class ThreadManager {
    var tasks: seq<Task>            // M_tasks
    var count: int                  // M_thread_rurinng_count
    var stop: bool                  // M_stop
    var tasksMutex: Option<nat>     // who holds M_tasksMutex_
    var countMutex: Option<nat>     // who holds M_countMutex_
    var threads: seq<Thread>        // where each thread is
    // histories, which the program does not keep
    var submitted: seq<Task>
    var started: seq<Task>
    var completed: set<nat>

    ghost function Snapshot(): Pool
      reads this
    {
      Pool(threads, Memory(tasks, count, stop, tasksMutex, countMutex, submitted, started, completed))
    }

    /** The explicit constructor starts threadNum workers and clears M_stop; `others` are the threads that will
        use the pool. */
    constructor (threadNum: nat, others: seq<Thread>)
      requires forall th :: th in others ==> Fresh(th) && !IsWorker(th)
      ensures Initial(Snapshot()) && Inv(Snapshot())
      ensures |threads| == threadNum + |others| && threads[threadNum..] == others
      ensures forall j :: 0 <= j < threadNum ==> threads[j] == Idle
    {
      tasks, count, stop := [], 0, false;
      tasksMutex, countMutex := None, None;
      submitted, started, completed := [], [], {};
      threads := [];
      new;
      var index := 0;
      while index < threadNum
        invariant index <= threadNum && |threads| == index
        invariant forall j :: 0 <= j < index ==> threads[j] == Idle
        invariant Snapshot().mem == Memory([], 0, false, None, None, [], [], {})
      {
        threads := threads + [Idle];
        index := index + 1;
      }
      threads := threads + others;
      InitialInv(Snapshot());
    }

    method At(i: nat, th: Thread)
      requires i < |threads|
      modifies this`threads
      ensures threads == old(threads)[i := th]
    {
      threads := threads[i := th];
    }

    /** The worker loop, lines 89-122. */
    method WorkerStep(i: nat)
      requires Enabled(Snapshot(), i) && IsWorker(threads[i]) && (threads[i].Running? ==> threads[i].calls == [])
      modifies this
      ensures Snapshot() == Next(old(Snapshot()), i)
    {
      match threads[i]
      case Idle =>
        tasksMutex := Some(i);
        At(i, Woken);
      case Woken =>
        At(i, if tasks == [] then SawEmpty else Checked);
      case SawEmpty =>
        At(i, if stop then Leaving else Checked);
      case Leaving =>
        tasksMutex := None;
        At(i, Exited);
      case Checked =>
        At(i, if tasks == [] then Skipping else Popping);
      case Skipping =>
        tasksMutex := None;
        At(i, Idle);
      case Popping =>
        var task := tasks[0];
        tasks := tasks[1..];
        At(i, Popped(|started|, task));
        started := started + [task];
      case Popped(ticket, task) =>
        tasksMutex := None;
        At(i, Running(ticket, task.calls, Ready));
      case Running(ticket, _, _) =>
        completed := completed + {ticket};
        At(i, Returned(ticket));
      case Returned(ticket) =>
        countMutex := Some(i);
        At(i, Guarding(ticket));
      case Guarding(ticket) =>
        At(i, if count > 0 then Decrementing(ticket) else Decremented);
      case Decrementing(_) =>
        count := count - 1;
        At(i, Decremented);
      case Decremented =>
        countMutex := None;
        At(i, Idle);
    }

    /** asyncTaskvoid, lines 148-154, and asyncTaskret, lines 180-186: lock, push, increment, unlock. */
    method SubmitStep(i: nat)
      requires Enabled(Snapshot(), i) && IsSubmitter(threads[i]) && threads[i].calls != []
      modifies this
      ensures Snapshot() == Next(old(Snapshot()), i)
    {
      var th := threads[i];
      var call := th.calls[0];
      match th.stage {
        case Ready =>
          if call.Void? {
            countMutex := Some(i);
          } else {
            tasksMutex := Some(i);
          }
        case Locked =>
          tasks := tasks + [call.task];
          submitted := submitted + [call.task];
        case Pushed =>
          count := count + 1;
        case Counted =>
          if call.Void? {
            countMutex := None;
          } else {
            tasksMutex := None;
          }
      }
      var calls, stage := NextCalls(th.calls, th.stage), NextStage(th.stage);
      At(i, if th.Running? then Running(th.ticket, calls, stage) else Client(calls, stage));
    }

    /** waitAllthread, lines 191-218, and the destructor, lines 220-236. */
    method StopStep(i: nat)
      requires Enabled(Snapshot(), i) && !IsWorker(threads[i]) && !threads[i].Client?
      modifies this
      ensures Snapshot() == Next(old(Snapshot()), i)
    {
      match threads[i]
      case Stopping(wakeups) =>
        stop := true;
        At(i, Acquiring(wakeups));
      case Acquiring(wakeups) =>
        countMutex := Some(i);
        At(i, Testing(wakeups));
      case Testing(wakeups) =>
        At(i, if count == 0 then SawZero(wakeups) else Missed(wakeups));
      case SawZero(wakeups) =>
        At(i, if tasks == [] then SawDrained else Missed(wakeups));
      case Missed(wakeups) =>
        countMutex := None;
        At(i, WaitAgain(wakeups));
      case SawDrained =>
        countMutex := None;
        At(i, Joining(true));
      case Joining(drained) =>
        At(i, Joined(drained));
      case Destroying =>
        stop := true;
        At(i, Ending);
      case Ending =>
        At(i, Ended);
    }

    /** Any interleaving: the threads step in the order of the schedule. */
    method Interleave(schedule: seq<nat>)
      requires Inv(Snapshot()) && Legal(Snapshot(), schedule)
      modifies this
      ensures Snapshot() == Run(old(Snapshot()), schedule) && Inv(Snapshot())
    {
      var turn := 0;
      while turn < |schedule|
        invariant turn <= |schedule| && Inv(Snapshot())
        invariant Legal(Snapshot(), schedule[turn..])
        invariant Run(Snapshot(), schedule[turn..]) == Run(old(Snapshot()), schedule)
      {
        var i := schedule[turn];
        assert schedule[turn..][1..] == schedule[turn + 1..];
        StepInv(Snapshot(), i);
        StepAny(i);
        turn := turn + 1;
      }
    }

    method StepAny(i: nat)
      requires Enabled(Snapshot(), i)
      modifies this
      ensures Snapshot() == Next(old(Snapshot()), i)
    {
      if IsSubmitter(threads[i]) && threads[i].calls != [] {
        SubmitStep(i);
      } else if IsWorker(threads[i]) {
        WorkerStep(i);
      } else {
        StopStep(i);
      }
    }
  }
}
