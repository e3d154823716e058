/** The thread pool of include/thread/threadTask.hpp as a state machine.

    Every entry of `threads` is one C++ thread: a pool worker, a client that calls
    asyncTaskvoid/asyncTaskret, or a thread inside waitAllthread or the destructor.
    One step is one access to the shared members, one mutex operation, or the return of a
    task.  The one exception is a worker's wait, which takes the mutex and finds its predicate
    true in one step: nothing it read is used afterwards, and while the mutex is held a true
    predicate stays true.  A schedule is the sequence of thread numbers in the order they step,
    so a statement over all schedules is a statement over all interleavings.
 */
module ThreadPool {
  import opened Options

  /** One call of asyncTaskvoid (pushes under M_countMutex_) or asyncTaskret (under M_tasksMutex_). */
  datatype Call = Void(task: Task) | Ret(task: Task)

  /** A task is what it submits while it runs; `name` only tells tasks apart. */
  datatype Task = Task(name: nat, calls: seq<Call>)

  /** Where a submission stands: not begun, mutex held, pushed, counted (mutex still held). */
  datatype Stage = Ready | Locked | Pushed | Counted

  datatype Thread =
      // worker loop, lines 89-122
    | Idle                                                     // at the top: wants M_tasksMutex_
    | Woken                                                    // holds it, about to read M_tasks in line 98
    | SawEmpty                                                 // it was empty, about to read M_stop in line 98
    | Leaving                                                  // both true: about to unlock and leave the loop
    | Checked                                                  // line 98 failed, about to test line 102
    | Skipping                                                 // line 102 succeeded: about to unlock and continue
    | Popping                                                  // line 102 failed, about to take the front
    | Popped(ticket: nat, task: Task)                          // front taken, M_tasksMutex_ held
    | Running(ticket: nat, calls: seq<Call>, stage: Stage)     // inside _task(), calls still to make
    | Returned(ticket: nat)                                    // task over, wants M_countMutex_
    | Guarding(ticket: nat)                                    // holds it, about to test count > 0
    | Decrementing(ticket: nat)                                // the test succeeded
    | Decremented                                              // about to release M_countMutex_
    | Exited
      // a thread that only submits
    | Client(calls: seq<Call>, stage: Stage)
      // waitAllthread, lines 191-218; `wakeups` re-tests remain before its timeout
    | Stopping(wakeups: nat)
    | Acquiring(wakeups: nat)
    | Testing(wakeups: nat)                                    // holds M_countMutex_, reads the count
    | SawZero(wakeups: nat)                                    // read count == 0, reads M_tasks
    | SawDrained                                               // the predicate was true
    | Missed(wakeups: nat)                                     // it was false: about to unlock
    | Joining(drained: bool)
    | Joined(drained: bool)
      // the destructor, lines 220-236
    | Destroying
    | Ending                                                   // in its joins
    | Ended                                                    // it has returned

  /** The shared members, with three histories: every task pushed, every task popped
      (a ticket is an index into `started`), and the tickets whose task returned. */
  datatype Memory = Memory(
    tasks: seq<Task>,
    count: int,
    stop: bool,
    tasksOwner: Option<nat>,
    countOwner: Option<nat>,
    submitted: seq<Task>,
    started: seq<Task>,
    completed: set<nat>)

  datatype Pool = Pool(threads: seq<Thread>, mem: Memory)

  predicate IsSubmitter(th: Thread) {
    th.Running? || th.Client?
  }

  predicate IsWorker(th: Thread) {
    th.Idle? || th.Woken? || th.SawEmpty? || th.Leaving? || th.Checked? || th.Skipping? || th.Popping?
    || th.Popped? || th.Running? || th.Returned? || th.Guarding? || th.Decrementing? || th.Decremented? || th.Exited?
  }

  predicate HoldsTasks(th: Thread) {
    th.Woken? || th.SawEmpty? || th.Leaving? || th.Checked? || th.Skipping? || th.Popping? || th.Popped?
    || (IsSubmitter(th) && th.stage != Ready && th.calls != [] && th.calls[0].Ret?)
  }

  predicate HoldsCount(th: Thread) {
    th.Guarding? || th.Decrementing? || th.Decremented?
    || th.Testing? || th.SawZero? || th.SawDrained? || th.Missed?
    || (IsSubmitter(th) && th.stage != Ready && th.calls != [] && th.calls[0].Void?)
  }

  predicate AllExited(s: Pool) {
    forall j :: 0 <= j < |s.threads| && IsWorker(s.threads[j]) ==> s.threads[j].Exited?
  }

  predicate ClientsFinished(s: Pool) {
    forall j :: 0 <= j < |s.threads| && s.threads[j].Client? ==> s.threads[j].calls == []
  }

  predicate HasWorker(s: Pool) {
    exists j :: 0 <= j < |s.threads| && IsWorker(s.threads[j])
  }

  // A submitter's next step is possible: it holds its mutex already, or that mutex is free.
  predicate MaySubmit(m: Memory, call: Call, stage: Stage) {
    stage != Ready || (if call.Void? then m.countOwner == None else m.tasksOwner == None)
  }

  /** A condition-variable wait is a step enabled when its predicate holds. */
  predicate CanAct(m: Memory, th: Thread) {
    match th
    case Idle => m.tasksOwner == None && (m.tasks != [] || m.stop)
    case Running(_, calls, stage) => calls == [] || MaySubmit(m, calls[0], stage)
    case Client(calls, stage) => calls != [] && MaySubmit(m, calls[0], stage)
    case Returned(_) => m.countOwner == None
    case Acquiring(_) => m.countOwner == None
    case Popping => m.tasks != []
    case Exited => false
    case Joined(_) => false
    case Ended => false
    case _ => true
  }

  /** The four steps shared by asyncTaskvoid and asyncTaskret: lock, push, count, unlock. */
  function Submit(m: Memory, i: nat, call: Call, stage: Stage): Memory {
    match stage
    case Ready => if call.Void? then m.(countOwner := Some(i)) else m.(tasksOwner := Some(i))
    case Locked => m.(tasks := m.tasks + [call.task], submitted := m.submitted + [call.task])
    case Pushed => m.(count := m.count + 1)
    case Counted => if call.Void? then m.(countOwner := None) else m.(tasksOwner := None)
  }

  function NextStage(stage: Stage): Stage {
    match stage
    case Ready => Locked
    case Locked => Pushed
    case Pushed => Counted
    case Counted => Ready
  }

  function NextCalls(calls: seq<Call>, stage: Stage): seq<Call>
    requires calls != []
  {
    if stage == Counted then calls[1..] else calls
  }

  // The cv wait of waitAllthread found its predicate false: it unlocks and either waits again or times out.
  function WaitAgain(wakeups: nat): Thread {
    if wakeups == 0 then Joining(false) else Acquiring(wakeups - 1)
  }

  /** What thread i does to the shared members, and where it is afterwards. */
  function Act(m: Memory, i: nat, th: Thread): (Memory, Thread)
    requires CanAct(m, th)
  {
    match th
    case Idle => (m.(tasksOwner := Some(i)), Woken)
    case Woken => (m, if m.tasks == [] then SawEmpty else Checked)
    case SawEmpty => (m, if m.stop then Leaving else Checked)
    case Leaving => (m.(tasksOwner := None), Exited)
    case Checked => (m, if m.tasks == [] then Skipping else Popping)
    case Skipping => (m.(tasksOwner := None), Idle)
    case Popping =>
      (m.(tasks := m.tasks[1..], started := m.started + [m.tasks[0]]), Popped(|m.started|, m.tasks[0]))
    case Popped(ticket, task) => (m.(tasksOwner := None), Running(ticket, task.calls, Ready))
    case Running(ticket, calls, stage) =>
      if calls == [] then (m.(completed := m.completed + {ticket}), Returned(ticket))
      else (Submit(m, i, calls[0], stage), Running(ticket, NextCalls(calls, stage), NextStage(stage)))
    case Returned(ticket) => (m.(countOwner := Some(i)), Guarding(ticket))
    case Guarding(ticket) => (m, if m.count > 0 then Decrementing(ticket) else Decremented)
    case Decrementing(_) => (m.(count := m.count - 1), Decremented)
    case Decremented => (m.(countOwner := None), Idle)
    case Client(calls, stage) => (Submit(m, i, calls[0], stage), Client(NextCalls(calls, stage), NextStage(stage)))
    case Stopping(wakeups) => (m.(stop := true), Acquiring(wakeups))
    case Acquiring(wakeups) => (m.(countOwner := Some(i)), Testing(wakeups))
    case Testing(wakeups) => (m, if m.count == 0 then SawZero(wakeups) else Missed(wakeups))
    case SawZero(wakeups) => (m, if m.tasks == [] then SawDrained else Missed(wakeups))
    case Missed(wakeups) => (m.(countOwner := None), WaitAgain(wakeups))
    case SawDrained => (m.(countOwner := None), Joining(true))
    case Joining(drained) => (m, Joined(drained))
    case Destroying => (m.(stop := true), Ending)
    case Ending => (m, Ended)
  }

  /** Thread i can step; join() returns only once every worker has left its loop. */
  predicate Enabled(s: Pool, i: nat) {
    i < |s.threads| && CanAct(s.mem, s.threads[i]) && (s.threads[i].Joining? || s.threads[i].Ending? ==> AllExited(s))
  }

  function Next(s: Pool, i: nat): Pool
    requires Enabled(s, i)
  {
    var (m, th) := Act(s.mem, i, s.threads[i]);
    Pool(s.threads[i := th], m)
  }

  /** Each number names a thread that can step when its turn comes. */
  predicate Legal(s: Pool, schedule: seq<nat>)
    decreases |schedule|
  {
    schedule == [] || (Enabled(s, schedule[0]) && Legal(Next(s, schedule[0]), schedule[1..]))
  }

  function Run(s: Pool, schedule: seq<nat>): Pool
    requires Legal(s, schedule)
    decreases |schedule|
  {
    if schedule == [] then s else Run(Next(s, schedule[0]), schedule[1..])
  }

  /** Any number of workers, clients and stoppers, before anything has happened. */
  predicate Initial(s: Pool) {
    s.mem == Memory([], 0, false, None, None, [], [], {})
    && forall j :: 0 <= j < |s.threads| ==> Fresh(s.threads[j])
  }

  predicate Fresh(th: Thread) {
    th.Idle? || (th.Client? && th.stage == Ready) || th.Stopping? || th.Destroying?
  }

  /** No thread can step. */
  predicate Stuck(s: Pool) {
    forall i :: 0 <= i < |s.threads| ==> !Enabled(s, i)
  }
}
