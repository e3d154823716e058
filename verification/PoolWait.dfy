/** What the verdict of waitAllthread's wait means, and what a returned join means. */
module PoolWait {
  import opened ThreadPool
  import opened PoolSafety
  import opened PoolShutdown
  import opened PoolLoss

  // ---------- the wait ----------

  /** What a waiting thread reads of the shared members. */
  datatype Read = CountRead(zero: bool) | QueueRead(empty: bool)

  function ReadOf(m: Memory, th: Thread): seq<Read> {
    if th.Testing? then [CountRead(m.count == 0)]
    else if th.SawZero? then [QueueRead(m.tasks == [])]
    else []
  }

  /** Everything thread c reads for its wait along a run. */
  function ReadsOf(s: Pool, schedule: seq<nat>, c: nat): seq<Read>
    requires Legal(s, schedule)
    decreases |schedule|
  {
    if schedule == [] then []
    else
      var i := schedule[0];
      (if i == c then ReadOf(s.mem, s.threads[i]) else []) + ReadsOf(Next(s, i), schedule[1..], c)
  }

  /** The tests that found the wait's predicate false. */
  function Failures(seen: seq<Read>): nat {
    if seen == [] then 0
    else
      Failures(seen[..|seen| - 1]) + (if IsTrue(seen[|seen| - 1]) then 0 else 1)
  }

  predicate IsTrue(read: Read) {
    read == CountRead(true) || read == QueueRead(true)
  }

  predicate SawEmptyQueue(seen: seq<Read>) {
    QueueRead(true) in seen
  }

  predicate EndsZero(seen: seq<Read>) {
    seen != [] && seen[|seen| - 1] == CountRead(true)
  }

  /** The last test read a zero count and then an empty deque. */
  predicate EndsTrue(seen: seq<Read>) {
    |seen| >= 2 && seen[|seen| - 2] == CountRead(true) && seen[|seen| - 1] == QueueRead(true)
  }

  /** The wait reported completion. */
  predicate Concluded(th: Thread) {
    th.SawDrained? || th == Joining(true) || th == Joined(true)
  }

  /** The wait reported its time-out. */
  predicate GaveUp(th: Thread) {
    th == Joining(false) || th == Joined(false)
  }

  // Where a wait with w re-tests can be after these reads.
  predicate WaitOk(w: nat, seen: seq<Read>, th: Thread) {
    if Concluded(th) then Failures(seen) <= w && EndsTrue(seen)
    else
      && !SawEmptyQueue(seen)
      && match th
         case Stopping(v) => v == w && seen == []
         case Acquiring(v) => v + Failures(seen) == w
         case Testing(v) => v + Failures(seen) == w
         case SawZero(v) => v + Failures(seen) == w && EndsZero(seen)
         case Missed(v) => v + Failures(seen) == w + 1
         case _ => GaveUp(th) && Failures(seen) == w + 1
  }

  lemma Snoc(seen: seq<Read>, last: Read)
    ensures Failures(seen + [last]) == Failures(seen) + (if IsTrue(last) then 0 else 1)
    ensures SawEmptyQueue(seen + [last]) <==> SawEmptyQueue(seen) || last == QueueRead(true)
    ensures EndsZero(seen + [last]) <==> last == CountRead(true)
    ensures EndsTrue(seen + [last]) <==> EndsZero(seen) && last == QueueRead(true)
  {
    assert (seen + [last])[..|seen|] == seen;
  }

  lemma WaitStep(w: nat, seen: seq<Read>, m: Memory, i: nat, th: Thread)
    requires CanAct(m, th) && WaitOk(w, seen, th)
    ensures WaitOk(w, seen + ReadOf(m, th), Act(m, i, th).1)
  {
    hide Failures, SawEmptyQueue, EndsZero, EndsTrue, Submit;
    if th.Testing? {
      Snoc(seen, CountRead(m.count == 0));
    } else if th.SawZero? {
      Snoc(seen, QueueRead(m.tasks == []));
    } else {
      assert seen + [] == seen;
      assert th.Stopping? ==> Failures(seen) == 0 by { NoFailures([]); }
    }
  }

  lemma {:induction false} WaitRun(w: nat, before: seq<Read>, s: Pool, schedule: seq<nat>, c: nat)
    requires Legal(s, schedule) && c < |s.threads| && WaitOk(w, before, s.threads[c])
    ensures WaitOk(w, before + ReadsOf(s, schedule, c), ThreadAfter(s, schedule, c))
    decreases |schedule|
  {
    hide Act, WaitOk;
    if schedule == [] {
      assert before + [] == before;
    } else {
      var i := schedule[0];
      var read := if i == c then ReadOf(s.mem, s.threads[i]) else [];
      if i == c {
        WaitStep(w, before, s.mem, i, s.threads[i]);
      } else {
        assert before + [] == before;
      }
      WaitRun(w, before + read, Next(s, i), schedule[1..], c);
      assert before + read + ReadsOf(Next(s, i), schedule[1..], c) == before + ReadsOf(s, schedule, c);
    }
  }

  /** The verdict of a wait that may be woken w more times, in any run whatever: it reports completion if and
      only if it has read an empty deque, and then its last test read a zero count just before; it reports a
      time-out, or is about to, if and only if w + 1 of its tests failed. */
  lemma WaitVerdict(w: nat, s: Pool, schedule: seq<nat>, c: nat)
    requires Legal(s, schedule) && c < |s.threads| && s.threads[c] == Stopping(w)
    ensures var th, seen := ThreadAfter(s, schedule, c), ReadsOf(s, schedule, c);
      && (Concluded(th) <==> SawEmptyQueue(seen))
      && (Concluded(th) ==> EndsTrue(seen))
      && Failures(seen) <= w + 1
      && (GaveUp(th) || th == Missed(0) <==> Failures(seen) == w + 1)
  {
    hide Act, Legal, Next, Enabled, ReadsOf, Failures;
    NoFailures([]);
    WaitRun(w, [], s, schedule, c);
    assert [] + ReadsOf(s, schedule, c) == ReadsOf(s, schedule, c);
  }

  // On its way to a completed wait.
  predicate Hopeful(th: Thread) {
    th.Stopping? || th.Acquiring? || th.Testing? || th.SawZero? || Concluded(th)
  }

  lemma QuietCountIsZero(s: Pool)
    requires Inv(s) && Quiet(s) && ClientsFinished(s)
    ensures s.mem.count == 0
  {
    TotalOfZeros(Busy, s.threads);
    TotalNonNegative(Pending, s.threads);
  }

  lemma QuietWaitStep(s: Pool, i: nat, c: nat)
    requires Inv(s) && Quiet(s) && ClientsFinished(s) && Enabled(s, i)
    requires c < |s.threads| && Hopeful(s.threads[c])
    ensures Inv(Next(s, i)) && Quiet(Next(s, i)) && ClientsFinished(Next(s, i)) && Hopeful(Next(s, i).threads[c])
  {
    QuietCountIsZero(s);
    StepInv(s, i);
    QuietStays(s, i);
    ClientsStayFinished(s, i);
  }

  lemma {:induction false} QuietWaitRun(s: Pool, schedule: seq<nat>, c: nat)
    requires Inv(s) && Quiet(s) && ClientsFinished(s) && Legal(s, schedule)
    requires c < |s.threads| && Hopeful(s.threads[c])
    ensures Inv(Run(s, schedule)) && Hopeful(ThreadAfter(s, schedule, c))
    decreases |schedule|
  {
    if schedule != [] {
      QuietWaitStep(s, schedule[0], c);
      QuietWaitRun(Next(s, schedule[0]), schedule[1..], c);
    }
  }

  /** A waitAllthread that starts in a quiet pool with finished clients never fails a test, let alone times out,
      and a run to the end brings it back from its joins with the wait completed. */
  lemma QuietWaitSucceeds(s: Pool, schedule: seq<nat>, c: nat)
    requires Inv(s) && Quiet(s) && ClientsFinished(s) && Legal(s, schedule)
    requires c < |s.threads| && s.threads[c].Stopping?
    ensures var th := ThreadAfter(s, schedule, c);
      && !GaveUp(th) && !th.Missed? && Failures(ReadsOf(s, schedule, c)) == 0
      && (Stuck(Run(s, schedule)) ==> th == Joined(true))
  {
    QuietWaitRun(s, schedule, c);
    QuietReads(s, schedule, c);
    var t := Run(s, schedule);
    if Stuck(t) {
      RunKeepsThreads(s, schedule);
      StuckIsAtRest(t);
      assert AtRest(t.mem, t.threads[c]);
    }
  }

  lemma {:induction false} QuietReads(s: Pool, schedule: seq<nat>, c: nat)
    requires Inv(s) && Quiet(s) && ClientsFinished(s) && Legal(s, schedule)
    requires c < |s.threads| && Hopeful(s.threads[c])
    ensures forall r :: r in ReadsOf(s, schedule, c) ==> IsTrue(r)
    ensures Failures(ReadsOf(s, schedule, c)) == 0
    decreases |schedule|
  {
    if schedule != [] {
      QuietWaitStep(s, schedule[0], c);
      QuietCountIsZero(s);
      QuietReads(Next(s, schedule[0]), schedule[1..], c);
    }
    NoFailures(ReadsOf(s, schedule, c));
  }

  lemma {:induction false} NoFailures(seen: seq<Read>)
    requires forall r :: r in seen ==> IsTrue(r)
    ensures Failures(seen) == 0
  {
    if seen != [] {
      assert seen[|seen| - 1] in seen;
      assert forall r :: r in seen[..|seen| - 1] ==> r in seen;
      NoFailures(seen[..|seen| - 1]);
    }
  }

  // ---------- the joins ----------

  /** waitAllthread or the destructor is back from its joins. */
  ghost predicate SomeoneJoined(s: Pool) {
    exists j :: 0 <= j < |s.threads| && (s.threads[j].Joined? || s.threads[j].Ended?)
  }

  lemma {:induction false} ExitedStays(s: Pool, schedule: seq<nat>)
    requires AllExited(s) && Legal(s, schedule)
    ensures AllExited(Run(s, schedule))
    decreases |schedule|
  {
    if schedule != [] {
      var t := Next(s, schedule[0]);
      forall j | 0 <= j < |t.threads| && IsWorker(t.threads[j])
        ensures t.threads[j].Exited?
      {
        assert IsWorker(s.threads[j]);
      }
      ExitedStays(t, schedule[1..]);
    }
  }

  lemma {:induction false} JoinedAfterWorkers(s: Pool, schedule: seq<nat>)
    requires (SomeoneJoined(s) ==> AllExited(s)) && Legal(s, schedule)
    ensures SomeoneJoined(Run(s, schedule)) ==> AllExited(Run(s, schedule))
    decreases |schedule|
  {
    if schedule != [] {
      JoinStep(s, schedule[0]);
      JoinedAfterWorkers(Next(s, schedule[0]), schedule[1..]);
    }
  }

  lemma JoinStep(s: Pool, i: nat)
    requires (SomeoneJoined(s) ==> AllExited(s)) && Enabled(s, i)
    ensures SomeoneJoined(Next(s, i)) ==> AllExited(Next(s, i))
  {
    var t := Next(s, i);
    if j :| 0 <= j < |t.threads| && (t.threads[j].Joined? || t.threads[j].Ended?) {
      assert j != i ==> s.threads[j] == t.threads[j];
      assert AllExited(s);
      forall k | 0 <= k < |t.threads| && IsWorker(t.threads[k])
        ensures t.threads[k].Exited?
      {
        assert IsWorker(s.threads[k]);
      }
    }
  }

  /** No join returns under a worker: when some waitAllthread or destructor is back from its joins, every worker
      has left its loop, and along every continuation stays out, with no task started or completed any more.
      Under the shutdown discipline every submission has then completed. */
  lemma PoolOutlivesWorkers(s: Pool, schedule: seq<nat>, more: seq<nat>)
    requires Initial(s) && Legal(s, schedule) && Legal(Run(s, schedule), more)
    requires SomeoneJoined(Run(s, schedule))
    ensures var t, u := Run(s, schedule), Run(Run(s, schedule), more);
      && AllExited(t) && AllExited(u) && u.mem.started == t.mem.started && u.mem.completed == t.mem.completed
      && (HasWorker(s) && Disciplined(s, schedule) ==> AllDone(t))
  {
    hide Next, Legal, Run, Disciplined, Inv, AllDone;
    var t := Run(s, schedule);
    JoinedAfterWorkers(s, schedule);
    ExitedStays(t, more);
    InitialInv(s);
    RunInv(s, schedule);
    LateRun(t, more);
    if HasWorker(s) && Disciplined(s, schedule) {
      ShutdownLosesNothing(s, schedule);
    }
  }
}
