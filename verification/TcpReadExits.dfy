/** Which exit async_read takes, in terms of what the socket answers alone. */
module TcpReadExits {
  import opened ReadBuffers
  import opened Sockets
  import opened TcpRead

  // ---------- the retry ----------

  /** k receives of the retry that neither end it nor fail: errno allowed each, each was positive and short. */
  predicate Unfinished(w: Wire, size: nat, p: Progress, k: nat) {
    forall c :: p.calls <= c < p.calls + k ==> Retryable(w.error(c)) && 0 < Received(w, c, RETRY_ROOM) < size
  }

  /** With `left` tries to go, the retry ends after k unfinished receives: it succeeds with the next one, when that
      says closed, is long enough or is the last one left and not negative; it fails when that one is
      negative, or, without it, when errno allows no further try. */
  predicate RetryEnds(w: Wire, size: nat, left: nat, p: Progress, k: nat, success: bool, q: Progress) {
    var at, after := TakeMany(w, p, RETRY_ROOM, k), TakeMany(w, p, RETRY_ROOM, k + 1);
    var allowed, ret := Retryable(w.error(p.calls + k)), Received(w, p.calls + k, RETRY_ROOM);
    && k < left && Unfinished(w, size, p, k)
    && if success then allowed && (ret == 0 || ret >= size || (ret > 0 && k + 1 == left)) && q == after
       else (allowed && ret < 0 && q == after) || (!allowed && q == at)
  }

  lemma {:induction false} RetryStops(w: Wire, size: nat, max: int, count: nat, slept: int, p: Progress)
    returns (k: nat)
    requires count < max && size > 0
    ensures var r := RetryLoop(w, size, max, count, slept, p);
      RetryEnds(w, size, max - count, p, k, r.success, r.progress)
    decreases max - count
  {
    k := 0;
    if Retryable(w.error(p.calls)) && 0 < Received(w, p.calls, RETRY_ROOM) < size && count + 1 < max {
      var q := Take(w, p, RETRY_ROOM);
      k := RetryStops(w, size, max, count + 1, slept + 1000 * count, q);
      k := k + 1;
    }
  }

  lemma {:induction false} RetryIsEnd(w: Wire, size: nat, max: int, count: nat, slept: int, p: Progress,
                                      k: nat, success: bool, q: Progress)
    requires count < max && RetryEnds(w, size, max - count, p, k, success, q)
    ensures var r := RetryLoop(w, size, max, count, slept, p); r.success == success && r.progress == q
    decreases k
  {
    var next := Take(w, p, RETRY_ROOM);
    assert TakeMany(w, p, RETRY_ROOM, k + 1) == TakeMany(w, next, RETRY_ROOM, k);
    if k == 0 {
      assert TakeMany(w, next, RETRY_ROOM, 0) == next;
    } else {
      assert Retryable(w.error(p.calls)) && 0 < Received(w, p.calls, RETRY_ROOM) < size;
      RetryIsEnd(w, size, max, count + 1, slept + 1000 * count, Take(w, p, RETRY_ROOM), k - 1, success, q);
    }
  }

  /** An unset retry limit means ten tries. */
  lemma RetryEndsExactly(w: Wire, size: nat, max: int, p: Progress, success: bool, q: Progress)
    requires size > 0
    ensures var r := RetryLoop(w, size, Limit(max), 0, 0, p); var left: nat := if max <= 0 then 10 else max;
      r.success == success && r.progress == q <==> exists k: nat :: RetryEnds(w, size, left, p, k, success, q)
  {
    var left: nat := if max <= 0 then 10 else max;
    var k := RetryStops(w, size, Limit(max), 0, 0, p);
    if j: nat :| RetryEnds(w, size, left, p, j, success, q) {
      RetryIsEnd(w, size, Limit(max), 0, 0, p, j, success, q);
    }
  }

  // ---------- the main loop ----------

  /** The main loop goes on through k receives: select does not fail, bytes come, and they are still too few. */
  predicate Short(w: Wire, size: nat, p: Progress, k: nat) {
    forall j: nat :: j < k ==> GoesOn(w, size, p, j)
  }

  predicate GoesOn(w: Wire, size: nat, p: Progress, j: nat) {
    && w.ready(p.calls + j) >= 0 && Received(w, p.calls + j, MAIN_ROOM) > 0
    && |TakeMany(w, p, MAIN_ROOM, j + 1).content| < size
  }

  /** From the error state at p: errno 106 ends the read at once, anything else goes to the retry. */
  ghost predicate ErrorEnds(w: Wire, size: nat, left: nat, p: Progress, exit: Exit, q: Progress) {
    match exit
    case AlreadyConnected => w.error(p.calls) == EISCONN && q == p
    case Retried(success) =>
      w.error(p.calls) != EISCONN && exists tries: nat :: RetryEnds(w, size, left, p, tries, success, q)
    case _ => false
  }

  /** After k such receives select fails, or the next one decides. */
  ghost predicate ReadEnds(w: Wire, size: nat, left: nat, p: Progress, k: nat, exit: Exit, q: Progress, receives: nat) {
    var at, after := TakeMany(w, p, MAIN_ROOM, k), TakeMany(w, p, MAIN_ROOM, k + 1);
    var ret := Received(w, p.calls + k, MAIN_ROOM);
    && Short(w, size, p, k)
    && if w.ready(p.calls + k) < 0 then receives == k && ErrorEnds(w, size, left, at, exit, q)
       else
         && receives == k + 1
         && if ret < 0 then ErrorEnds(w, size, left, after, exit, q)
            else if ret == 0 then exit == Closed && q == after
            else |after.content| >= size && exit == Done && q == after
  }

  lemma ErrorEndsExactly(w: Wire, size: nat, max: int, p: Progress, receives: nat, exit: Exit, q: Progress)
    requires size > 0
    ensures var o := ErrorState(w, size, max, p, receives); var left: nat := if max <= 0 then 10 else max;
      && o.receives == receives
      && (o.exit == exit && o.progress == q <==> ErrorEnds(w, size, left, p, exit, q))
  {
    hide RetryEnds, RetryLoop;
    if exit.Retried? {
      RetryEndsExactly(w, size, max, p, exit.success, q);
    }
  }

  // What happens at the head of the main loop when it does not go on.
  lemma HeadEnds(w: Wire, size: nat, max: int, p: Progress, receives: nat, exit: Exit, q: Progress, n: nat)
    requires size > 0 && !GoesOn(w, size, p, 0)
    ensures var o := ReadTask(w, size, max, p, receives); var left: nat := if max <= 0 then 10 else max;
      o.exit == exit && o.progress == q && o.receives == receives + n <==> ReadEnds(w, size, left, p, 0, exit, q, n)
  {
    hide ErrorEnds, ErrorState;
    var next := Take(w, p, MAIN_ROOM);
    assert TakeMany(w, p, MAIN_ROOM, 0) == p;
    assert TakeMany(w, p, MAIN_ROOM, 1) == next;
    assert Short(w, size, p, 0);
    if w.ready(p.calls) < 0 {
      ErrorEndsExactly(w, size, max, p, receives, exit, q);
    } else if Received(w, p.calls, MAIN_ROOM) < 0 {
      ErrorEndsExactly(w, size, max, next, receives + 1, exit, q);
    }
  }

  lemma ShortStep(w: Wire, size: nat, p: Progress, k: nat)
    requires GoesOn(w, size, p, 0)
    ensures Short(w, size, p, k + 1) <==> Short(w, size, Take(w, p, MAIN_ROOM), k)
  {
    var next := Take(w, p, MAIN_ROOM);
    if Short(w, size, p, k + 1) {
      forall j: nat | j < k
        ensures GoesOn(w, size, next, j)
      {
        assert GoesOn(w, size, p, j + 1);
      }
    }
    if Short(w, size, next, k) {
      forall j: nat | j < k + 1
        ensures GoesOn(w, size, p, j)
      {
        assert j > 0 ==> GoesOn(w, size, next, j - 1);
      }
    }
  }

  // Shifting the start past a receive after which the loop goes on.
  lemma EndsStep(w: Wire, size: nat, left: nat, p: Progress, k: nat, exit: Exit, q: Progress, n: nat)
    requires GoesOn(w, size, p, 0)
    ensures ReadEnds(w, size, left, p, k + 1, exit, q, n + 1) <==>
      ReadEnds(w, size, left, Take(w, p, MAIN_ROOM), k, exit, q, n)
  {
    hide ErrorEnds, Short;
    var next := Take(w, p, MAIN_ROOM);
    ShortStep(w, size, p, k);
    assert TakeMany(w, p, MAIN_ROOM, k + 1) == TakeMany(w, next, MAIN_ROOM, k);
    assert TakeMany(w, p, MAIN_ROOM, k + 2) == TakeMany(w, next, MAIN_ROOM, k + 1);
  }

  lemma {:induction false} ReadStops(w: Wire, size: nat, max: int, p: Progress, receives: nat) returns (k: nat)
    requires size > 0
    ensures var o := ReadTask(w, size, max, p, receives); var left: nat := if max <= 0 then 10 else max;
      receives <= o.receives && ReadEnds(w, size, left, p, k, o.exit, o.progress, o.receives - receives)
    decreases if |p.content| < size then size - |p.content| else 0
  {
    hide ErrorEnds, ErrorState, ReadEnds;
    var o := ReadTask(w, size, max, p, receives);
    ReceivesGrow(w, size, max, p, receives);
    if GoesOn(w, size, p, 0) {
      assert TakeMany(w, p, MAIN_ROOM, 1) == Take(w, p, MAIN_ROOM);
      k := ReadStops(w, size, max, Take(w, p, MAIN_ROOM), receives + 1);
      EndsStep(w, size, if max <= 0 then 10 else max, p, k, o.exit, o.progress, o.receives - receives - 1);
      k := k + 1;
    } else {
      k := 0;
      HeadEnds(w, size, max, p, receives, o.exit, o.progress, o.receives - receives);
    }
  }

  lemma {:induction false} ReceivesGrow(w: Wire, size: nat, max: int, p: Progress, receives: nat)
    ensures ReadTask(w, size, max, p, receives).receives >= receives
    decreases if |p.content| < size then size - |p.content| else 0
  {
    var q := Take(w, p, MAIN_ROOM);
    if w.ready(p.calls) >= 0 && Received(w, p.calls, MAIN_ROOM) > 0 && |q.content| < size {
      ReceivesGrow(w, size, max, q, receives + 1);
    }
  }

  lemma {:induction false} ReadIsEnd(w: Wire, size: nat, max: int, p: Progress, receives: nat,
                                     k: nat, exit: Exit, q: Progress, n: nat)
    requires size > 0
    requires ReadEnds(w, size, if max <= 0 then 10 else max, p, k, exit, q, n)
    ensures var o := ReadTask(w, size, max, p, receives);
      o.exit == exit && o.progress == q && o.receives == receives + n
    decreases k
  {
    var left: nat := if max <= 0 then 10 else max;
    if k > 0 {
      assert GoesOn(w, size, p, 0) && n > 0;
      assert TakeMany(w, p, MAIN_ROOM, 1) == Take(w, p, MAIN_ROOM);
      hide ErrorEnds, ErrorState, ReadEnds;
      EndsStep(w, size, left, p, k - 1, exit, q, n - 1);
      ReadIsEnd(w, size, max, Take(w, p, MAIN_ROOM), receives + 1, k - 1, exit, q, n - 1);
    } else {
      assert !GoesOn(w, size, p, 0);
      hide ErrorEnds, ErrorState, ReadEnds;
      HeadEnds(w, size, max, p, receives, exit, q, n);
    }
  }

  /** Where async_read ends, for every socket: with exit, progress and number of main-loop receives exactly as
      the socket's answers put them.  A requested size of 0 means 4096 and an unset retry limit ten tries. */
  lemma ReadExitsExactly(w: Wire, size: nat, max: int, p: Progress, exit: Exit, q: Progress, receives: nat)
    ensures var o := ReadTask(w, Requested(size), max, p, 0);
      var wanted: nat := if size == 0 then 4096 else size; var left: nat := if max <= 0 then 10 else max;
      o.exit == exit && o.progress == q && o.receives == receives <==>
      exists k: nat :: ReadEnds(w, wanted, left, p, k, exit, q, receives)
  {
    hide ReadEnds;
    var wanted: nat := if size == 0 then 4096 else size;
    var left: nat := if max <= 0 then 10 else max;
    var k := ReadStops(w, wanted, max, p, 0);
    if j: nat :| ReadEnds(w, wanted, left, p, j, exit, q, receives) {
      ReadIsEnd(w, wanted, max, p, 0, j, exit, q, receives);
    }
  }

  /** Receive number k of the main loop is made, every one before it having been positive and short. */
  predicate Reached(w: Wire, size: nat, p: Progress, k: nat) {
    Short(w, size, p, k) && w.ready(p.calls + k) >= 0
  }

  /** The main loop breaks off at q: receive k answers negative, or the select before it does. */
  predicate Breaks(w: Wire, size: nat, p: Progress, k: nat, q: Progress) {
    && Short(w, size, p, k)
    && if w.ready(p.calls + k) < 0 then q == TakeMany(w, p, MAIN_ROOM, k)
       else Received(w, p.calls + k, MAIN_ROOM) < 0 && q == TakeMany(w, p, MAIN_ROOM, k + 1)
  }

  // A break-off in one of the two ways the error state tells apart.
  predicate BreaksWith(w: Wire, size: nat, p: Progress, k: nat, q: Progress, connected: bool) {
    Breaks(w, size, p, k, q) && (w.error(q.calls) == EISCONN) == connected
  }

  predicate ReadsLast(w: Wire, size: nat, p: Progress, k: nat, enough: bool) {
    && Reached(w, size, p, k)
    && if enough then Received(w, p.calls + k, MAIN_ROOM) > 0 && |TakeMany(w, p, MAIN_ROOM, k + 1).content| >= size
       else Received(w, p.calls + k, MAIN_ROOM) == 0
  }

  lemma TheEnd(w: Wire, size: nat, max: int, p: Progress) returns (k: nat)
    requires size > 0
    ensures Short(w, size, p, k) && !GoesOn(w, size, p, k)
    ensures var exit := ReadTask(w, size, max, p, 0).exit;
      && (exit == Closed <==> ReadsLast(w, size, p, k, false))
      && (exit == Done <==> ReadsLast(w, size, p, k, true))
      && (exit == AlreadyConnected <==> exists q :: BreaksWith(w, size, p, k, q, true))
      && (exit.Retried? <==> exists q :: BreaksWith(w, size, p, k, q, false))
  {
    hide RetryEnds, RetryLoop, ReadTask, Short;
    k := ReadStops(w, size, max, p, 0);
    var q := TakeMany(w, p, MAIN_ROOM, if w.ready(p.calls + k) < 0 then k else k + 1);
    assert BreaksWith(w, size, p, k, q, w.error(q.calls) == EISCONN) <==> Breaks(w, size, p, k, q);
  }

  lemma OnlyOneEnd(w: Wire, size: nat, p: Progress, k: nat)
    requires Short(w, size, p, k) && !GoesOn(w, size, p, k)
    ensures forall j: nat, enough :: ReadsLast(w, size, p, j, enough) ==> j == k
    ensures forall j: nat, q, connected :: BreaksWith(w, size, p, j, q, connected) ==> j == k
  {
    forall j: nat | Short(w, size, p, j) && !GoesOn(w, size, p, j)
      ensures j == k
    {
    }
  }

  /** Exit by exit, in terms of the one receive k, or the select before it, that ends the main loop: closed when
      it answers 0, done when it is positive and the total is large enough, and otherwise, being negative,
      already connected or retried as errno says. */
  lemma ExitsWhen(w: Wire, size: nat, max: int, p: Progress)
    ensures var exit := ReadTask(w, Requested(size), max, p, 0).exit;
      var wanted: nat := if size == 0 then 4096 else size;
      && (exit == Closed <==> exists k: nat :: ReadsLast(w, wanted, p, k, false))
      && (exit == Done <==> exists k: nat :: ReadsLast(w, wanted, p, k, true))
      && (exit == AlreadyConnected <==> exists k: nat, q :: BreaksWith(w, wanted, p, k, q, true))
      && (exit.Retried? <==> exists k: nat, q :: BreaksWith(w, wanted, p, k, q, false))
  {
    hide ReadTask, ReadsLast, BreaksWith;
    var wanted: nat := if size == 0 then 4096 else size;
    var k := TheEnd(w, wanted, max, p);
    OnlyOneEnd(w, wanted, p, k);
  }
}
