/** waitAllthread tests `count == 0 && M_tasks.empty()` as two reads.  M_countMutex_ keeps asyncTaskvoid
    and every decrement out between them, but not asyncTaskret and not a pop.  This module settles
    exactly when the two reads can succeed although a submitted task has not completed. */
module PoolRace {
  import opened Options
  import opened ThreadPool
  import opened PoolSafety

  /** A client whose current call is an asyncTaskret. */
  predicate CallsRet(th: Thread) {
    th.Client? && th.calls != [] && th.calls[0].Ret?
  }

  /** Some client is about to call, or inside, asyncTaskret, and some worker is at the top of its loop. */
  ghost predicate Racy(s: Pool) {
    && (exists a :: 0 <= a < |s.threads| && CallsRet(s.threads[a]))
    && (exists b :: 0 <= b < |s.threads| && s.threads[b].Idle?)
  }

  /** Thread c has just read a zero count and is about to read the deque. */
  ghost predicate JustReadZero(s: Pool, c: nat) {
    Inv(s) && c < |s.threads| && s.threads[c].SawZero? && s.mem.count == 0
  }

  /** The other threads can bring the pool to where c reads an empty deque too early. */
  ghost predicate CanMislead(s: Pool, c: nat) {
    exists schedule :: Legal(s, schedule) && c !in schedule && Misled(Run(s, schedule))
  }

  ghost predicate Misled(t: Pool) {
    t.mem.tasks == [] && !AllDone(t)
  }

  // ---------- no race: the pool is quiet whenever the deque is empty ----------

  // At the top of the loop or past the exit test, so that what is queued may be taken.
  predicate MayPop(th: Thread) {
    th.Idle? || th.Checked? || th.Skipping? || th.Popping?
  }

  ghost predicate NoRace(s: Pool, c: nat) {
    && Inv(s) && c < |s.threads| && s.threads[c].SawZero?
    && (forall j :: 0 <= j < |s.threads| ==> Busy(s.threads[j]) == 0)
    && (|| ((forall j :: 0 <= j < |s.threads| ==> !CallsRet(s.threads[j])) && s.mem.tasks == [])
        || (forall j :: 0 <= j < |s.threads| ==> !MayPop(s.threads[j]) && (s.threads[j].Woken? ==> s.mem.tasks == [])))
  }

  lemma ZeroReadIdle(s: Pool, c: nat)
    requires JustReadZero(s, c)
    ensures |s.mem.tasks| == Total(Pending, s.threads) <= 1
    ensures forall j :: 0 <= j < |s.threads| ==> Busy(s.threads[j]) == 0
    ensures s.mem.tasks != [] ==> s.mem.tasksOwner.Some? && Pending(s.threads[s.mem.tasksOwner.value]) == 1
  {
    PendingAtMostQueued(s, c);
    BusyNonNegative(s);
    if s.mem.tasks != [] {
      var o := PendingOwner(s, c);
    }
    forall j | 0 <= j < |s.threads|
      ensures Busy(s.threads[j]) == 0
    {
      TotalAtLeast(Busy, s.threads, j);
    }
  }

  lemma PendingOwner(s: Pool, c: nat) returns (o: nat)
    requires OwnersOk(s) && c < |s.threads| && HoldsCount(s.threads[c]) && !IsSubmitter(s.threads[c])
    requires Total(Pending, s.threads) != 0
    ensures s.mem.tasksOwner == Some(o) && Pending(s.threads[o]) == 1
  {
    if i :| 0 <= i < |s.threads| && Pending(s.threads[i]) == 1 {
      o := i;
      assert HoldsCount(s.threads[c]) && s.mem.countOwner == Some(c);
      assert HoldsCount(s.threads[i]) <==> s.mem.countOwner == Some(i);
    } else {
      TotalOfZeros(Pending, s.threads);
    }
  }

  lemma NoRaceStart(s: Pool, c: nat)
    requires JustReadZero(s, c) && !Racy(s)
    ensures NoRace(s, c)
  {
    ZeroReadIdle(s, c);
    if s.mem.tasks != [] {
      var o := s.mem.tasksOwner.value;
      assert Busy(s.threads[o]) == 0;
      assert HoldsTasks(s.threads[o]);
      assert CallsRet(s.threads[o]);
    }
    forall j | 0 <= j < |s.threads| && HoldsTasks(s.threads[j])
      ensures s.threads[j].Woken? ==> s.mem.tasks == []
      ensures !s.threads[j].Checked? && !s.threads[j].Skipping? && !s.threads[j].Popping?
    {
      assert QueueOk(s.mem, s.threads[j]);
    }
  }

  lemma NoRaceStep(s: Pool, c: nat, i: nat)
    requires NoRace(s, c) && Enabled(s, i) && i != c
    ensures NoRace(Next(s, i), c)
  {
    StepInv(s, i);
    assert Busy(s.threads[i]) == 0 && Busy(s.threads[c]) == 0;
    assert QueueOk(s.mem, s.threads[i]) && QueueOk(s.mem, s.threads[c]);
    assert HoldsCount(s.threads[c]) && s.mem.countOwner == Some(c);
    assert HoldsCount(s.threads[i]) <==> s.mem.countOwner == Some(i);
    assert HoldsTasks(s.threads[i]) <==> s.mem.tasksOwner == Some(i);
    NoRaceLocal(s.mem, i, s.threads[i]);
    var t := Next(s, i);
    forall j | 0 <= j < |t.threads| && t.threads[j].Woken?
      ensures t.mem.tasks == [] || !s.threads[i].Client? || s.threads[i].stage != Locked
    {
      assert HoldsTasks(s.threads[j]) <==> s.mem.tasksOwner == Some(j);
    }
  }

  // What a thread can do while another holds M_countMutex_ and no popped task is unfinished.
  lemma NoRaceLocal(m: Memory, i: nat, th: Thread)
    requires CanAct(m, th) && QueueOk(m, th) && Busy(th) == 0 && !HoldsCount(th) && m.countOwner.Some?
    requires m.stop
    ensures var (n, now) := Act(m, i, th);
      && (Busy(now) == 0 || th.Popping?)
      && (CallsRet(now) ==> CallsRet(th))
      && (n.tasks != m.tasks ==> th.Popping? || (CallsRet(th) && th.stage == Locked))
      && (MayPop(now) ==> m.tasks != [] || MayPop(th))
      && (now.Woken? ==> th.Idle?)
  {
  }

  lemma {:induction false} NoRaceRun(s: Pool, c: nat, schedule: seq<nat>)
    requires NoRace(s, c) && Legal(s, schedule) && c !in schedule
    ensures NoRace(Run(s, schedule), c)
    decreases |schedule|
  {
    if schedule != [] {
      NoRaceStep(s, c, schedule[0]);
      NoRaceRun(Next(s, schedule[0]), c, schedule[1..]);
    }
  }

  // ---------- a race: lock, push, count and unlock, then a worker pops ----------

  ghost predicate InRet(s: Pool, a: nat, stage: Stage) {
    a < |s.threads| && CallsRet(s.threads[a]) && s.threads[a].stage == stage
  }

  lemma RaceFromCounted(s: Pool, a: nat, b: nat) returns (schedule: seq<nat>)
    requires Inv(s) && InRet(s, a, Counted) && |s.mem.tasks| == 1
    requires b < |s.threads| && s.threads[b].Idle?
    ensures Legal(s, schedule) && Misled(Run(s, schedule)) && forall x :: x in schedule ==> x == a || x == b
  {
    assert HoldsTasks(s.threads[a]) <==> s.mem.tasksOwner == Some(a);
    var s1 := Next(s, a);
    StepInv(s, a);
    schedule := RaceFromIdle(s1, b);
    Cons(s, a, schedule);
    schedule := [a] + schedule;
  }

  lemma RaceFromIdle(s: Pool, b: nat) returns (schedule: seq<nat>)
    requires Inv(s) && |s.mem.tasks| == 1 && s.mem.tasksOwner == None
    requires b < |s.threads| && s.threads[b].Idle?
    ensures Legal(s, schedule) && Misled(Run(s, schedule)) && forall x :: x in schedule ==> x == b
  {
    hide Act;
    var task := s.mem.tasks[0];
    var m1 := s.mem.(tasksOwner := Some(b));
    var m4 := m1.(tasks := [], started := m1.started + [task]);
    WorkerPops(s.mem, m1, m4, b, task);
    var s1 := Pool(s.threads[b := Woken], m1);
    var s2 := Pool(s1.threads[b := Checked], m1);
    var s3 := Pool(s2.threads[b := Popping], m1);
    var s4 := Pool(s3.threads[b := Popped(|m1.started|, task)], m4);
    NextIs(s, b, m1, Woken);
    NextIs(s1, b, m1, Checked);
    NextIs(s2, b, m1, Popping);
    NextIs(s3, b, m4, Popped(|m1.started|, task));
    ThreeSteps(s1, s2, s3, s4, b);
    Cons(s, b, [b, b, b]);
    schedule := [b] + [b, b, b];
    RunInv(s, schedule);
    assert HasTicket(s4.threads[b]) && s4.threads[b].ticket !in s4.mem.completed;
  }

  // The four steps from the top of the loop to a popped task.
  lemma WorkerPops(m: Memory, m1: Memory, m4: Memory, b: nat, task: Task)
    requires m.tasks == [task] && m.tasksOwner == None && m1 == m.(tasksOwner := Some(b))
    requires m4 == m1.(tasks := [], started := m1.started + [task])
    ensures Act(m, b, Idle) == (m1, Woken) && Act(m1, b, Woken) == (m1, Checked)
    ensures Act(m1, b, Checked) == (m1, Popping) && Act(m1, b, Popping) == (m4, Popped(|m1.started|, task))
  {
    assert m1.tasks[1..] == [];
  }

  lemma RaceFromPushed(s: Pool, a: nat, b: nat) returns (schedule: seq<nat>)
    requires Inv(s) && InRet(s, a, Pushed) && |s.mem.tasks| == 1
    requires b < |s.threads| && s.threads[b].Idle?
    ensures Legal(s, schedule) && Misled(Run(s, schedule)) && forall x :: x in schedule ==> x == a || x == b
  {
    StepInv(s, a);
    schedule := RaceFromCounted(Next(s, a), a, b);
    Cons(s, a, schedule);
    schedule := [a] + schedule;
  }

  lemma RaceFromLocked(s: Pool, a: nat, b: nat) returns (schedule: seq<nat>)
    requires Inv(s) && InRet(s, a, Locked) && s.mem.tasks == []
    requires b < |s.threads| && s.threads[b].Idle?
    ensures Legal(s, schedule) && Misled(Run(s, schedule)) && forall x :: x in schedule ==> x == a || x == b
  {
    StepInv(s, a);
    schedule := RaceFromPushed(Next(s, a), a, b);
    Cons(s, a, schedule);
    schedule := [a] + schedule;
  }

  lemma RaceFromReady(s: Pool, a: nat, b: nat) returns (schedule: seq<nat>)
    requires Inv(s) && InRet(s, a, Ready) && s.mem.tasks == [] && s.mem.tasksOwner == None
    requires b < |s.threads| && s.threads[b].Idle?
    ensures Legal(s, schedule) && Misled(Run(s, schedule)) && forall x :: x in schedule ==> x == a || x == b
  {
    StepInv(s, a);
    schedule := RaceFromLocked(Next(s, a), a, b);
    Cons(s, a, schedule);
    schedule := [a] + schedule;
  }

  lemma RaceFromGone(s: Pool, o: nat, a: nat, b: nat) returns (schedule: seq<nat>)
    requires Inv(s) && InRet(s, a, Ready) && s.mem.tasks == [] && s.mem.stop
    requires o < |s.threads| && OnWayOut(s.threads[o]) && b < |s.threads| && s.threads[b].Idle?
    ensures Legal(s, schedule) && Misled(Run(s, schedule)) && forall x :: x in schedule ==> x == o || x == a || x == b
    decreases if s.threads[o].Woken? then 2 else if s.threads[o].SawEmpty? then 1 else 0
  {
    StepInv(s, o);
    if s.threads[o].Leaving? {
      schedule := RaceFromReady(Next(s, o), a, b);
    } else {
      schedule := RaceFromGone(Next(s, o), o, a, b);
    }
    Cons(s, o, schedule);
    schedule := [o] + schedule;
  }

  // Holding M_tasksMutex_ and, after the stop and with nothing queued, bound to leave.
  predicate OnWayOut(th: Thread) {
    th.Woken? || th.SawEmpty? || th.Leaving?
  }

  // Whoever holds M_tasksMutex_ at the zero read is a client inside asyncTaskret or a worker about to leave.
  lemma RaceWhenRacy(s: Pool, c: nat)
    requires JustReadZero(s, c) && Racy(s)
    ensures CanMislead(s, c)
  {
    ZeroReadIdle(s, c);
    var a :| 0 <= a < |s.threads| && CallsRet(s.threads[a]);
    var b :| 0 <= b < |s.threads| && s.threads[b].Idle?;
    var schedule: seq<nat>;
    if s.mem.tasksOwner == None {
      assert HoldsTasks(s.threads[a]) <==> s.mem.tasksOwner == Some(a);
      schedule := RaceFromReady(s, a, b);
    } else {
      var o := s.mem.tasksOwner.value;
      assert HoldsTasks(s.threads[o]);
      OwnerAtZero(s, c, o);
      if OnWayOut(s.threads[o]) {
        assert HoldsTasks(s.threads[a]) <==> s.mem.tasksOwner == Some(a);
        schedule := RaceFromGone(s, o, a, b);
      } else if s.threads[o].stage == Locked {
        schedule := RaceFromLocked(s, o, b);
      } else {
        schedule := RaceFromPushed(s, o, b);
      }
    }
  }

  lemma OwnerAtZero(s: Pool, c: nat, o: nat)
    requires JustReadZero(s, c) && s.mem.tasksOwner == Some(o)
    ensures o < |s.threads| && s.mem.stop
    ensures (OnWayOut(s.threads[o]) && s.mem.tasks == []) || (InRet(s, o, Locked) && s.mem.tasks == [])
         || (InRet(s, o, Pushed) && |s.mem.tasks| == 1)
  {
    ZeroReadIdle(s, c);
    assert HoldsTasks(s.threads[o]);
    assert Busy(s.threads[o]) == 0;
    assert QueueOk(s.mem, s.threads[o]) && QueueOk(s.mem, s.threads[c]);
    if s.mem.tasks == [] {
      TotalAtLeast(Pending, s.threads, o);
    }
  }

  /** The two reads of waitAllthread can succeed with a submitted task not completed if and only if, when
      the count is read as zero, some client is about to call (or inside) asyncTaskret and some worker is
      still at the top of its loop.  With no client left to submit, the two reads are as good as one. */
  lemma TwoReadsMisleadExactlyWhenRacy(s: Pool, c: nat)
    requires JustReadZero(s, c)
    ensures CanMislead(s, c) <==> Racy(s)
  {
    if Racy(s) {
      RaceWhenRacy(s, c);
    } else {
      NoRaceStart(s, c);
      forall schedule | Legal(s, schedule) && c !in schedule
        ensures !Misled(Run(s, schedule))
      {
        NoRaceRun(s, c, schedule);
        var t := Run(s, schedule);
        if t.mem.tasks == [] {
          QuietIsDone(t);
        }
      }
    }
  }

  /** Such a moment is reachable: one worker, one client with a single asyncTaskret, one waitAllthread. */
  lemma RacyIsReachable(task: Task)
    ensures var threads := [Idle, Client([Ret(task)], Ready), Stopping(0)];
      var s := Pool(threads, Memory([], 0, false, None, None, [], [], {}));
      && Initial(s) && Legal(s, [2, 2, 2])
      && JustReadZero(Run(s, [2, 2, 2]), 2) && CanMislead(Run(s, [2, 2, 2]), 2)
  {
    var s := Pool([Idle, Client([Ret(task)], Ready), Stopping(0)], Memory([], 0, false, None, None, [], [], {}));
    var t := Pool([Idle, Client([Ret(task)], Ready), SawZero(0)], Memory([], 0, true, None, Some(2), [], [], {}));
    RunToRacy(s, t);
    InitialInv(s);
    RunInv(s, [2, 2, 2]);
    assert t.threads[0].Idle? && CallsRet(t.threads[1]);
    TwoReadsMisleadExactlyWhenRacy(t, 2);
  }

  lemma RunToRacy(s: Pool, t: Pool)
    requires |s.threads| == 3 && s.threads[2] == Stopping(0) && s.mem == Memory([], 0, false, None, None, [], [], {})
    requires t == Pool(s.threads[2 := SawZero(0)], s.mem.(stop := true, countOwner := Some(2)))
    ensures Legal(s, [2, 2, 2]) && Run(s, [2, 2, 2]) == t
  {
    var s1 := Pool(s.threads[2 := Acquiring(0)], s.mem.(stop := true));
    var s2 := Pool(s.threads[2 := Testing(0)], s1.mem.(countOwner := Some(2)));
    hide Next, Enabled, Run, Legal;
    NextIs(s, 2, s1.mem, Acquiring(0));
    NextIs(s1, 2, s2.mem, Testing(0));
    NextIs(s2, 2, t.mem, SawZero(0));
    ThreeSteps(s, s1, s2, t, 2);
  }

  lemma ThreeSteps(s: Pool, s1: Pool, s2: Pool, s3: Pool, i: nat)
    requires Enabled(s, i) && Next(s, i) == s1 && Enabled(s1, i) && Next(s1, i) == s2
    requires Enabled(s2, i) && Next(s2, i) == s3
    ensures Legal(s, [i, i, i]) && Run(s, [i, i, i]) == s3
  {
    hide Next, Enabled;
    Cons(s2, i, []);
    Cons(s1, i, [i]);
    Cons(s, i, [i, i]);
    assert [i] + [i] == [i, i] && [i] + [i, i] == [i, i, i];
  }
}
