/** Which exit async_read_until takes, in terms of what the socket answers alone. */
module TcpReadUntilExits {
  import opened ReadBuffers
  import opened Delimiter
  import opened Sockets
  import opened TcpReadUntil

  /** k tries of the retry that do not end it: errno allowed each, none found the delimiter, and no receive
      said closed.  A negative receive only uses up its try. */
  ghost predicate Unfinished(w: Wire, d: seq<byte>, p: Progress, k: nat) {
    forall j: nat :: j < k ==> GoesOn(w, d, p, j)
  }

  ghost predicate GoesOn(w: Wire, d: seq<byte>, p: Progress, j: nat) {
    && Retryable(w.error(p.calls + j)) && !Occurs(d, TakeMany(w, p, RETRY_ROOM, j).content)
    && Received(w, p.calls + j, RETRY_ROOM) != 0
  }

  /** With `left` tries to go, the retry ends after k unfinished ones: with the limit, with an errno that is 106 or
      allows no further try, with a scan that finds the delimiter, or with a receive that says closed, which
      is a success exactly when something is buffered. */
  ghost predicate RetryEnds(w: Wire, d: seq<byte>, left: nat, p: Progress, k: nat, verdict: Verdict, q: Progress) {
    var at, after := TakeMany(w, p, RETRY_ROOM, k), TakeMany(w, p, RETRY_ROOM, k + 1);
    var error := w.error(p.calls + k);
    && k <= left && Unfinished(w, d, p, k)
    && if k == left then verdict == Failed && q == at
       else if error == EISCONN then verdict == AlreadyConnected && q == at
       else if !Retryable(error) then verdict == Failed && q == at
       else if Occurs(d, at.content) then verdict == Scanned && q == at
       else
         && Received(w, p.calls + k, RETRY_ROOM) == 0 && q == after
         && verdict == if at.content == [] then Failed else ClosedWithData
  }

  // What happens at the head of the retry when it does not go on.
  lemma HeadEnds(w: Wire, d: seq<byte>, max: int, count: nat, p: Progress, verdict: Verdict, q: Progress)
    requires count <= max && (count < max ==> !GoesOn(w, d, p, 0))
    ensures RetryLoop(w, d, max, count, p) == (verdict, q) <==> RetryEnds(w, d, max - count, p, 0, verdict, q)
  {
    hide Occurs;
    assert TakeMany(w, p, RETRY_ROOM, 0) == p;
    assert TakeMany(w, p, RETRY_ROOM, 1) == Take(w, p, RETRY_ROOM);
    assert Unfinished(w, d, p, 0);
  }

  // A try that does not end the retry; the last one, when its receive fails, ends it in the limit's place.
  lemma GoOn(w: Wire, d: seq<byte>, max: int, count: nat, p: Progress)
    requires count < max && GoesOn(w, d, p, 0)
    ensures RetryLoop(w, d, max, count, p) == RetryLoop(w, d, max, count + 1, Take(w, p, RETRY_ROOM))
  {
    hide Occurs;
    assert TakeMany(w, p, RETRY_ROOM, 0) == p;
  }

  lemma UnfinishedStep(w: Wire, d: seq<byte>, p: Progress, k: nat)
    requires GoesOn(w, d, p, 0)
    ensures Unfinished(w, d, p, k + 1) <==> Unfinished(w, d, Take(w, p, RETRY_ROOM), k)
  {
    hide Occurs;
    var next := Take(w, p, RETRY_ROOM);
    if Unfinished(w, d, p, k + 1) {
      forall j: nat | j < k
        ensures GoesOn(w, d, next, j)
      {
        assert GoesOn(w, d, p, j + 1);
      }
    }
    if Unfinished(w, d, next, k) {
      forall j: nat | j < k + 1
        ensures GoesOn(w, d, p, j)
      {
        assert j > 0 ==> GoesOn(w, d, next, j - 1);
      }
    }
  }

  lemma EndsStep(w: Wire, d: seq<byte>, left: nat, p: Progress, k: nat, verdict: Verdict, q: Progress)
    requires GoesOn(w, d, p, 0)
    ensures RetryEnds(w, d, left + 1, p, k + 1, verdict, q) <==>
      RetryEnds(w, d, left, Take(w, p, RETRY_ROOM), k, verdict, q)
  {
    hide Occurs, Unfinished;
    var next := Take(w, p, RETRY_ROOM);
    UnfinishedStep(w, d, p, k);
    assert TakeMany(w, p, RETRY_ROOM, k + 1) == TakeMany(w, next, RETRY_ROOM, k);
    assert TakeMany(w, p, RETRY_ROOM, k + 2) == TakeMany(w, next, RETRY_ROOM, k + 1);
  }

  lemma {:induction false} RetryStops(w: Wire, d: seq<byte>, max: int, count: nat, p: Progress) returns (k: nat)
    requires count <= max
    ensures var (verdict, q) := RetryLoop(w, d, max, count, p); RetryEnds(w, d, max - count, p, k, verdict, q)
    decreases max - count
  {
    hide RetryLoop, RetryEnds, GoesOn;
    var (verdict, q) := RetryLoop(w, d, max, count, p);
    if count < max && GoesOn(w, d, p, 0) {
      GoOn(w, d, max, count, p);
      k := RetryStops(w, d, max, count + 1, Take(w, p, RETRY_ROOM));
      EndsStep(w, d, max - count - 1, p, k, verdict, q);
      k := k + 1;
    } else {
      HeadEnds(w, d, max, count, p, verdict, q);
      k := 0;
    }
  }

  lemma {:induction false} RetryIsEnd(w: Wire, d: seq<byte>, max: int, count: nat, p: Progress,
                                      k: nat, verdict: Verdict, q: Progress)
    requires count <= max && RetryEnds(w, d, max - count, p, k, verdict, q)
    ensures RetryLoop(w, d, max, count, p) == (verdict, q)
    decreases k
  {
    if k == 0 {
      HeadEnds(w, d, max, count, p, verdict, q);
    } else {
      assert GoesOn(w, d, p, 0);
      hide RetryLoop, RetryEnds, GoesOn;
      GoOn(w, d, max, count, p);
      EndsStep(w, d, max - count - 1, p, k - 1, verdict, q);
      RetryIsEnd(w, d, max, count + 1, Take(w, p, RETRY_ROOM), k - 1, verdict, q);
    }
  }

  /** The retry's verdict and what it has read then, for every socket; an unset limit means ten tries. */
  lemma VerdictExactly(w: Wire, d: seq<byte>, max: int, p: Progress, verdict: Verdict, q: Progress)
    ensures var left: nat := if max <= 0 then 10 else max;
      RetryLoop(w, d, Limit(max), 0, p) == (verdict, q) <==> exists k: nat :: RetryEnds(w, d, left, p, k, verdict, q)
  {
    hide RetryLoop, RetryEnds;
    var left: nat := if max <= 0 then 10 else max;
    var k := RetryStops(w, d, Limit(max), 0, p);
    if j: nat :| RetryEnds(w, d, left, p, j, verdict, q) {
      RetryIsEnd(w, d, Limit(max), 0, p, j, verdict, q);
    }
  }

  /** Where async_read_until ends, for every socket: found at once; closed when select and the first receive say
      so; and otherwise with the retry's verdict, from before the receive when select failed and from
      after it when it did not. */
  lemma UntilExitsExactly(w: Wire, d: seq<byte>, max: int, p: Progress, exit: Exit, q: Progress)
    ensures var o := UntilTask(w, d, max, p); var left: nat := if max <= 0 then 10 else max;
      var selected, after := w.ready(p.calls) >= 0, Take(w, p, MAIN_ROOM);
      var start := if selected then after else p;
      o.exit == exit && o.progress == q <==>
      match exit
      case Found => Occurs(d, p.content) && q == p
      case Closed => !Occurs(d, p.content) && selected && Received(w, p.calls, MAIN_ROOM) == 0 && q == after
      case Retried(verdict) =>
        && !Occurs(d, p.content) && (selected ==> Received(w, p.calls, MAIN_ROOM) != 0)
        && exists k: nat :: RetryEnds(w, d, left, start, k, verdict, q)
  {
    hide RetryLoop, RetryEnds, Occurs;
    if exit.Retried? {
      VerdictExactly(w, d, max, if w.ready(p.calls) >= 0 then Take(w, p, MAIN_ROOM) else p, exit.verdict, q);
    }
  }
}
