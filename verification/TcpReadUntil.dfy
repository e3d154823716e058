/** async_read_until and M_retryTcpRead_until of include/client/socket/TCP/socket_tcp.hpp. */
module TcpReadUntil {
  import opened ReadBuffers
  import opened Delimiter
  import opened ChunkedSearch
  import opened Sockets

  const RETRY_ROOM := 1086
  const MAIN_ROOM := 4096

  datatype Verdict = Scanned | AlreadyConnected | ClosedWithData | Failed

  // ---------- the retry loop ----------

  /** What the loop of M_retryTcpRead_until comes to from its head with `count` tries used. */
  ghost function RetryLoop(w: Wire, d: seq<byte>, max: int, count: nat, p: Progress): (Verdict, Progress)
    decreases max - count
  {
    var error := w.error(p.calls);
    if count >= max then (Failed, p)
    else if error == EISCONN then (AlreadyConnected, p)
    else if !Retryable(error) then (Failed, p)
    else if Occurs(d, p.content) then (Scanned, p)
    else
      var q := Take(w, p, RETRY_ROOM);
      var ret := Received(w, p.calls, RETRY_ROOM);
      if ret < 0 && count + 1 >= max then (Failed, q)
      else if ret == 0 then (if p.content != [] then ClosedWithData else Failed, q)
      else RetryLoop(w, d, max, count + 1, q)
  }

  method RetryReadUntil(sock: Socket, buf: ReadBuffer, d: seq<byte>, maxTries: int, ghost p: Progress)
    returns (verdict: Verdict, ghost q: Progress)
    requires Tracks(p, sock, buf)
    modifies sock, buf, buf.buffer
    ensures (verdict, q) == RetryLoop(sock.wire, d, Limit(maxTries), 0, p)
    ensures Tracks(q, sock, buf) && (buf.buffer == old(buf.buffer) || fresh(buf.buffer))
  {
    var max := Limit(maxTries);
    var count := 0;
    q := p;
    while count < max
      invariant Tracks(q, sock, buf) && (buf.buffer == old(buf.buffer) || fresh(buf.buffer))
      invariant RetryLoop(sock.wire, d, max, 0, p) == RetryLoop(sock.wire, d, max, count, q)
    {
      var error := sock.Error();
      if error == EISCONN {
        return AlreadyConnected, q;
      }
      if !Retryable(error) {
        return Failed, q;
      }
      count := count + 1;
      var found := Scan(buf, d);
      if found {
        return Scanned, q;
      }
      ghost var before := q;
      var ret, data := sock.Receive(RETRY_ROOM);
      q := Take(sock.wire, q, RETRY_ROOM);
      if ret < 0 {
        if count >= max {
          return Failed, q;
        }
        continue;
      }
      if ret == 0 {
        var readable := buf.ReadableBytes();
        return if readable != 0 then ClosedWithData else Failed, q;
      }
      buf.AppendToBuffer(data);
    }
    verdict := Failed;
  }

  // ---------- the posted function ----------

  datatype Exit = Found | Retried(verdict: Verdict) | Closed

  datatype Outcome = Outcome(exit: Exit, delivery: Delivery, progress: Progress)

  ghost function ErrorState(w: Wire, d: seq<byte>, max: int, p: Progress): Outcome {
    var (verdict, q) := RetryLoop(w, d, Limit(max), 0, p);
    Outcome(Retried(verdict),
            if verdict == Failed then Delivery(w.error(q.calls), 0, q.content) else Delivery(0, |q.content|, q.content),
            q)
  }

  /** What the function posted by async_read_until delivers.  After bytes arrive control runs on into the ERROR
      state, so the main loop receives at most once. */
  ghost function UntilTask(w: Wire, d: seq<byte>, max: int, p: Progress): Outcome {
    if Occurs(d, p.content) then Outcome(Found, Delivery(0, |p.content|, p.content), p)
    else if w.ready(p.calls) < 0 then ErrorState(w, d, max, p)
    else
      var q := Take(w, p, MAIN_ROOM);
      if Received(w, p.calls, MAIN_ROOM) == 0 then Outcome(Closed, Delivery(0, |q.content|, q.content), q)
      else ErrorState(w, d, max, q)
  }

  datatype State = Verify | Reading | FoundIt | Error | Close

  method AsyncReadUntil(sock: Socket, buf: ReadBuffer, callbacks: Callbacks, d: seq<byte>, maxTries: int,
                        ghost p: Progress)
    returns (ghost outcome: Outcome)
    requires Tracks(p, sock, buf)
    modifies sock, buf, buf.buffer, callbacks
    ensures outcome == UntilTask(sock.wire, d, maxTries, p)
    ensures Tracks(outcome.progress, sock, buf)
    ensures callbacks.posted == old(callbacks.posted) + [outcome.delivery]
  {
    var state := Verify;
    ghost var q := p;
    while state != FoundIt
      invariant Tracks(q, sock, buf) && (buf.buffer == old(buf.buffer) || fresh(buf.buffer))
      invariant callbacks.posted == old(callbacks.posted)
      invariant match state
        case Verify => q == p
        case Reading => false
        case FoundIt => q == p && Occurs(d, p.content)
        case Error => UntilTask(sock.wire, d, maxTries, p) == ErrorState(sock.wire, d, maxTries, q)
        case Close => UntilTask(sock.wire, d, maxTries, p) == Outcome(Closed, Delivery(0, |q.content|, q.content), q)
      decreases match state case Verify => 2 case FoundIt => 0 case _ => 1
    {
      if state == Verify {
        var found := Scan(buf, d);
        if found {
          state := FoundIt;
          continue;
        }
        state := Reading;
      }
      if state == Reading {
        if sock.Select() < 0 {
          state := Error;
          continue;
        }
        var ret, data := sock.Receive(MAIN_ROOM);
        q := Take(sock.wire, q, MAIN_ROOM);
        if ret < 0 {
          state := Error;
          continue;
        }
        if ret > 0 {
          buf.AppendToBuffer(data);
          state := Verify;
        }
        if ret == 0 {
          state := Close;
          continue;
        }
        // no break here: the ERROR case follows
      }
      if state != Close {
        outcome := HandleError(sock, buf, callbacks, d, maxTries, q);
        return;
      }
      var size := buf.ReadableBytes();
      outcome := UntilTask(sock.wire, d, maxTries, p);
      callbacks.Post(buf, 0, size);
      return;
    }
    var size := buf.ReadableBytes();
    outcome := UntilTask(sock.wire, d, maxTries, p);
    callbacks.Post(buf, 0, size);
  }

  method HandleError(sock: Socket, buf: ReadBuffer, callbacks: Callbacks, d: seq<byte>, maxTries: int,
                     ghost p: Progress)
    returns (ghost outcome: Outcome)
    requires Tracks(p, sock, buf)
    modifies sock, buf, buf.buffer, callbacks
    ensures outcome == ErrorState(sock.wire, d, maxTries, p)
    ensures Tracks(outcome.progress, sock, buf)
    ensures callbacks.posted == old(callbacks.posted) + [outcome.delivery]
  {
    var verdict, q := RetryReadUntil(sock, buf, d, maxTries, p);
    var size := buf.ReadableBytes();
    outcome := ErrorState(sock.wire, d, maxTries, p);
    if verdict == Failed {
      callbacks.Post(buf, sock.Error(), 0);
    } else {
      callbacks.Post(buf, 0, size);
    }
  }

  // ---------- properties ----------

  /** Every byte received is delivered after what was there, in order, on every exit. */
  lemma {:induction false} RetryConserves(w: Wire, d: seq<byte>, max: int, count: nat, p: Progress)
    ensures Conserves(w, p, RetryLoop(w, d, max, count, p).1)
    ensures RetryLoop(w, d, max, count, p).1.calls - p.calls <= if count < max then max - count else 0
    decreases max - count
  {
    if count < max {
      var q := Take(w, p, RETRY_ROOM);
      RetryConserves(w, d, max, count + 1, q);
      ConservesJoin(w, p, q, RetryLoop(w, d, max, count + 1, q).1);
    }
  }

  /** k receives bring the loop to a scan that finds the delimiter: up to there every errno it read allowed
      another try and no receive said the peer had closed. */
  ghost predicate ReachesScan(w: Wire, d: seq<byte>, p: Progress, k: nat) {
    && (forall c :: p.calls <= c <= p.calls + k ==> Retryable(w.error(c)))
    && (forall c :: p.calls <= c < p.calls + k ==> Received(w, c, RETRY_ROOM) != 0)
    && Occurs(d, TakeMany(w, p, RETRY_ROOM, k).content)
  }

  lemma {:induction false} ScannedReaches(w: Wire, d: seq<byte>, max: int, count: nat, p: Progress) returns (k: nat)
    requires RetryLoop(w, d, max, count, p).0 == Scanned
    ensures k < max - count && ReachesScan(w, d, p, k)
    decreases max - count
  {
    if Occurs(d, p.content) {
      k := 0;
    } else {
      k := ScannedReaches(w, d, max, count + 1, Take(w, p, RETRY_ROOM));
      k := k + 1;
    }
  }

  lemma {:induction false} ReachesScanned(w: Wire, d: seq<byte>, max: int, count: nat, p: Progress, k: nat)
    requires k < max - count && ReachesScan(w, d, p, k)
    ensures RetryLoop(w, d, max, count, p).0 == Scanned
    decreases k
  {
    assert Retryable(w.error(p.calls));
    if !Occurs(d, p.content) {
      assert Received(w, p.calls, RETRY_ROOM) != 0;
      ReachesScanned(w, d, max, count + 1, Take(w, p, RETRY_ROOM), k - 1);
    }
  }

  /** The retry succeeds by finding the delimiter exactly when it occurs in the buffer plus the data of the
      first k receives for some k below the number of tries left. */
  lemma RetryScansExactlyWhen(w: Wire, d: seq<byte>, max: int, count: nat, p: Progress)
    ensures RetryLoop(w, d, max, count, p).0 == Scanned <==> exists k: nat :: k < max - count && ReachesScan(w, d, p, k)
  {
    if RetryLoop(w, d, max, count, p).0 == Scanned {
      var k := ScannedReaches(w, d, max, count, p);
    } else {
      forall k: nat | k < max - count && ReachesScan(w, d, p, k)
        ensures false
      {
        ReachesScanned(w, d, max, count, p, k);
      }
    }
  }

  lemma {:induction false} RetryClean(w: Wire, d: seq<byte>, max: int, count: nat, p: Progress)
    requires CleanBefore(d, p)
    ensures var (verdict, q) := RetryLoop(w, d, max, count, p);
      CleanBefore(d, q) && (verdict == Scanned ==> Occurs(d, q.content))
    decreases max - count
  {
    if count < max && !Occurs(d, p.content) {
      TakeClean(w, d, p, RETRY_ROOM);
      RetryClean(w, d, max, count + 1, Take(w, p, RETRY_ROOM));
    }
  }

  predicate FoundDelimiter(exit: Exit) {
    exit == Found || exit == Retried(Scanned)
  }

  /** Conservation and cost: on every exit the delivered bytes are the initial ones followed by every byte
      received, in order; the reported size is their number, or 0 with an errno when the retry failed; and
      at most one receive plus the allowed tries is made. */
  lemma UntilConserves(w: Wire, d: seq<byte>, max: int, p: Progress)
    ensures var o := UntilTask(w, d, max, p);
      && Conserves(w, p, o.progress) && o.delivery.content == o.progress.content
      && o.delivery.size == (if o.exit == Retried(Failed) then 0 else |o.delivery.content|)
      && o.delivery.error == (if o.exit == Retried(Failed) then w.error(o.progress.calls) else 0)
      && o.progress.calls <= p.calls + 1 + Limit(max)
  {
    var q := Take(w, p, MAIN_ROOM);
    RetryConserves(w, d, Limit(max), 0, p);
    RetryConserves(w, d, Limit(max), 0, q);
    ConservesJoin(w, p, q, RetryLoop(w, d, Limit(max), 0, q).1);
  }

  /** Whatever the chunking, a run that succeeds by finding the delimiter delivers a buffer whose first
      occurrence is the first occurrence in the whole stream, also across chunk boundaries, and the bytes
      that follow it are fewer than the last chunk. */
  lemma FirstDelimiterOfTheStream(w: Wire, d: seq<byte>, max: int, p: Progress) returns (i: nat)
    requires p.chunk == [] && FoundDelimiter(UntilTask(w, d, max, p).exit)
    ensures var q := UntilTask(w, d, max, p).progress;
      && FirstAt(d, q.content, i)
      && (forall n: nat :: n >= q.position - p.position ==> FirstAt(d, p.content + Slice(w, p.position, n), i))
      && (q.chunk != [] ==> |q.content| - (i + |d|) < |q.chunk|)
  {
    UntilConserves(w, d, max, p);
    UntilClean(w, d, max, p);
    i := FirstInStream(w, d, p, UntilTask(w, d, max, p).progress);
  }

  lemma UntilClean(w: Wire, d: seq<byte>, max: int, p: Progress)
    requires p.chunk == [] && FoundDelimiter(UntilTask(w, d, max, p).exit)
    ensures var q := UntilTask(w, d, max, p).progress; CleanBefore(d, q) && Occurs(d, q.content)
  {
    assert p.content == p.content[..|p.content|] + [];
    if !Occurs(d, p.content) {
      RetryClean(w, d, Limit(max), 0, p);
      TakeClean(w, d, p, MAIN_ROOM);
      RetryClean(w, d, Limit(max), 0, Take(w, p, MAIN_ROOM));
    }
  }

  /** When the run succeeds by finding the delimiter: it is in the buffer to begin with, or, unless the first
      receive says closed, some number of retry receives below the limit brings the retry to it. */
  lemma TaskFindsExactlyWhen(w: Wire, d: seq<byte>, max: int, p: Progress)
    ensures var q := if w.ready(p.calls) < 0 then p else Take(w, p, MAIN_ROOM);
      FoundDelimiter(UntilTask(w, d, max, p).exit) <==>
        || Occurs(d, p.content)
        || ((w.ready(p.calls) < 0 || Received(w, p.calls, MAIN_ROOM) != 0)
            && exists k: nat :: k < Limit(max) && ReachesScan(w, d, q, k))
  {
    RetryScansExactlyWhen(w, d, Limit(max), 0, if w.ready(p.calls) < 0 then p else Take(w, p, MAIN_ROOM));
  }
}
