/** async_read and M_retryTcpRead of include/client/socket/TCP/socket_tcp.hpp. */
module TcpRead {
  import opened ReadBuffers
  import opened Sockets

  const RETRY_ROOM := 1096
  const MAIN_ROOM := 4096

  // ---------- the retry loop ----------

  datatype Retry = Retry(success: bool, progress: Progress, tries: nat, slept: int)

  /** The loop of M_retryTcpRead from its head: a negative receive always gives up, because the count has
      not passed the limit; a closed connection always counts as success. */
  function RetryLoop(w: Wire, size: nat, max: int, count: nat, slept: int, p: Progress): Retry
    decreases max - count
  {
    if count >= max || !Retryable(w.error(p.calls)) then Retry(false, p, count, slept)
    else
      var q := Take(w, p, RETRY_ROOM);
      var ret := Received(w, p.calls, RETRY_ROOM);
      if ret < 0 then Retry(false, q, count + 1, slept + 1000 * count)
      else if 0 < ret < size && max > count + 1 then RetryLoop(w, size, max, count + 1, slept + 1000 * count, q)
      else Retry(true, q, count + 1, slept + 1000 * count)
  }

  function RetryTask(w: Wire, errnoCopy: int, size: nat, max: int, p: Progress): Retry {
    if errnoCopy == EISCONN then Retry(true, p, 0, 0) else RetryLoop(w, size, Limit(max), 0, 0, p)
  }

  // One try, seen from the head of the loop.
  lemma OneTry(w: Wire, size: nat, max: int, count: nat, slept: int, p: Progress)
    ensures var r := RetryLoop(w, size, max, count, slept, p);
      var q := Take(w, p, RETRY_ROOM); var ret := Received(w, p.calls, RETRY_ROOM);
      if count >= max || !Retryable(w.error(p.calls)) then r == Retry(false, p, count, slept)
      else if ret < 0 then r == Retry(false, q, count + 1, slept + 1000 * count)
      else if 0 < ret < size && max > count + 1 then r == RetryLoop(w, size, max, count + 1, slept + 1000 * count, q)
      else r == Retry(true, q, count + 1, slept + 1000 * count)
  {
  }

  method RetryRead(sock: Socket, buf: ReadBuffer, errnoCopy: int, size: nat, maxTries: int, ghost p: Progress)
    returns (success: bool, ghost result: Retry)
    requires Tracks(p, sock, buf)
    modifies sock, buf, buf.buffer
    ensures result == RetryTask(sock.wire, errnoCopy, size, maxTries, p) && success == result.success
    ensures Tracks(result.progress, sock, buf)
  {
    hide RetryLoop;
    result := RetryTask(sock.wire, errnoCopy, size, maxTries, p);
    if errnoCopy == EISCONN {
      return true, result;
    }
    var max := Limit(maxTries);
    var count, slept := 0, 0;
    ghost var q := p;
    while count < max
      invariant Tracks(q, sock, buf) && (buf.buffer == old(buf.buffer) || fresh(buf.buffer))
      invariant result == RetryLoop(sock.wire, size, max, count, slept, q)
    {
      OneTry(sock.wire, size, max, count, slept, q);
      if Retryable(sock.Error()) {
        slept := slept + 1000 * count;
        q := Take(sock.wire, q, RETRY_ROOM);
        var ret, data := sock.Receive(RETRY_ROOM);
        count := count + 1;
        if ret < 0 {
          if max >= count {
            return false, result;
          }
          continue;
        }
        if ret > 0 {
          buf.AppendToBuffer(data);
          if ret < size && max > count {
            continue;
          } else {
            return true, result;
          }
        }
        return true, result;
      }
      return false, result;
    }
    OneTry(sock.wire, size, max, count, slept, q);
    success := false;
  }

  // ---------- the posted function ----------

  datatype Exit = Done | Closed | AlreadyConnected | Retried(success: bool)

  /** `receives` counts the receives of the main loop. */
  datatype Outcome = Outcome(exit: Exit, delivery: Delivery, progress: Progress, receives: nat)

  function ErrorState(w: Wire, size: nat, max: int, p: Progress, receives: nat): Outcome {
    if w.error(p.calls) == EISCONN then
      Outcome(AlreadyConnected, Delivery(0, 0, p.content), p, receives)
    else
      var r := RetryTask(w, w.error(p.calls), size, max, p);
      var q := r.progress;
      Outcome(Retried(r.success),
              if r.success then Delivery(0, |q.content|, q.content) else Delivery(w.error(q.calls), 0, q.content),
              q, receives)
  }

  /** What the function posted by async_read delivers from the READING state on. */
  function ReadTask(w: Wire, size: nat, max: int, p: Progress, receives: nat): Outcome
    decreases if |p.content| < size then size - |p.content| else 0
  {
    if w.ready(p.calls) < 0 then ErrorState(w, size, max, p, receives)
    else
      var q := Take(w, p, MAIN_ROOM);
      var ret := Received(w, p.calls, MAIN_ROOM);
      if ret < 0 then ErrorState(w, size, max, q, receives + 1)
      else if ret == 0 then Outcome(Closed, Delivery(0, |q.content|, q.content), q, receives + 1)
      else if |q.content| >= size then Outcome(Done, Delivery(0, |q.content|, q.content), q, receives + 1)
      else ReadTask(w, size, max, q, receives + 1)
  }

  /** A requested size of 0 means 4096. */
  function Requested(size: nat): nat {
    if size == 0 then 4096 else size
  }

  datatype State = Reading | Close | Error | Verify | Finished

  method AsyncRead(sock: Socket, buf: ReadBuffer, callbacks: Callbacks, size: nat, maxTries: int, ghost p: Progress)
    returns (ghost outcome: Outcome)
    requires Tracks(p, sock, buf)
    modifies sock, buf, buf.buffer, callbacks
    ensures outcome == ReadTask(sock.wire, Requested(size), maxTries, p, 0)
    ensures Tracks(outcome.progress, sock, buf)
    ensures callbacks.posted == old(callbacks.posted) + [outcome.delivery]
  {
    var wanted := Requested(size);
    var state := Reading;
    ghost var q, receives := p, 0;
    outcome := ReadTask(sock.wire, wanted, maxTries, p, 0);
    while true
      invariant Tracks(q, sock, buf) && (buf.buffer == old(buf.buffer) || fresh(buf.buffer))
      invariant callbacks.posted == old(callbacks.posted)
      invariant outcome == match state
        case Reading => ReadTask(sock.wire, wanted, maxTries, q, receives)
        case Close => Outcome(Closed, Delivery(0, |q.content|, q.content), q, receives)
        case Error => ErrorState(sock.wire, wanted, maxTries, q, receives)
        case Verify => if |q.content| >= wanted then Outcome(Done, Delivery(0, |q.content|, q.content), q, receives)
                       else ReadTask(sock.wire, wanted, maxTries, q, receives)
        case Finished => Outcome(Done, Delivery(0, |q.content|, q.content), q, receives)
      decreases if state == Reading || (state == Verify && |q.content| < wanted) then 1 else 0,
                if |q.content| < wanted then wanted - |q.content| else 0,
                match state case Verify => 2 case Reading => 1 case Error => 1 case Close => 1 case Finished => 0
    {
      match state
      case Reading =>
        if sock.Select() < 0 {
          state := Error;
        } else {
          var ret, data := sock.Receive(MAIN_ROOM);
          q, receives := Take(sock.wire, q, MAIN_ROOM), receives + 1;
          if ret < 0 {
            state := Error;
          } else if ret > 0 {
            buf.AppendToBuffer(data);
            state := Verify;
          } else {
            state := Close;
          }
        }
      case Close =>
        var readable := buf.ReadableBytes();
        callbacks.Post(buf, 0, if readable > 0 then readable else 0);
        return;
      case Verify =>
        var readable := buf.ReadableBytes();
        state := if readable >= wanted then Finished else Reading;
      case Error =>
        HandleError(sock, buf, callbacks, wanted, maxTries, q, receives);
        return;
      case Finished =>
        var readable := buf.ReadableBytes();
        callbacks.Post(buf, 0, readable);
        return;
    }
  }

  method HandleError(sock: Socket, buf: ReadBuffer, callbacks: Callbacks, size: nat, maxTries: int,
                     ghost p: Progress, ghost receives: nat)
    requires Tracks(p, sock, buf)
    modifies sock, buf, buf.buffer, callbacks
    ensures var o := ErrorState(sock.wire, size, maxTries, p, receives);
      Tracks(o.progress, sock, buf) && callbacks.posted == old(callbacks.posted) + [o.delivery]
  {
    if sock.Error() == EISCONN {
      callbacks.Post(buf, 0, 0);
      return;
    }
    var success, r := RetryRead(sock, buf, sock.Error(), size, maxTries, p);
    if success {
      var readable := buf.ReadableBytes();
      callbacks.Post(buf, 0, readable);
    } else {
      callbacks.Post(buf, sock.Error(), 0);
    }
  }

  // ---------- properties ----------

  /** The retry appends every byte it receives, in order; it makes at most `max` tries, and k tries sleep
      500 * k * (k - 1) microseconds. */
  lemma {:induction false} RetryConserves(w: Wire, size: nat, max: int, count: nat, slept: int, p: Progress)
    requires slept == 500 * count * (count - 1)
    ensures var r := RetryLoop(w, size, max, count, slept, p);
      && Conserves(w, p, r.progress)
      && r.slept == 500 * r.tries * (r.tries - 1)
      && r.tries - count == r.progress.calls - p.calls
      && (r.tries <= max || r.tries == count)
    decreases max - count
  {
    var q := Take(w, p, RETRY_ROOM);
    assert slept + 1000 * count == 500 * (count + 1) * count;
    if count < max {
      RetryConserves(w, size, max, count + 1, slept + 1000 * count, q);
      ConservesJoin(w, p, q, RetryLoop(w, size, max, count + 1, slept + 1000 * count, q).progress);
    }
  }

  /** k receives complete the retry: every errno read allowed a try, the first k - 1 receives were positive
      and short of the requested size, and the last one closed the connection, was long enough, or was the
      last try allowed and not negative. */
  predicate Completes(w: Wire, size: nat, max: int, count: nat, p: Progress, k: nat) {
    && 1 <= k <= max - count
    && (forall c :: p.calls <= c < p.calls + k ==> Retryable(w.error(c)))
    && (forall c :: p.calls <= c < p.calls + k - 1 ==> 0 < Received(w, c, RETRY_ROOM) < size)
    && (var last := Received(w, p.calls + k - 1, RETRY_ROOM);
        last == 0 || last >= size || (last > 0 && k == max - count))
  }

  lemma {:induction false} RetryCompletes(w: Wire, size: nat, max: int, count: nat, slept: int, p: Progress)
    returns (k: nat)
    requires RetryLoop(w, size, max, count, slept, p).success
    ensures Completes(w, size, max, count, p, k)
    decreases max - count
  {
    if 0 < Received(w, p.calls, RETRY_ROOM) < size && max > count + 1 {
      k := RetryCompletes(w, size, max, count + 1, slept + 1000 * count, Take(w, p, RETRY_ROOM));
      k := k + 1;
    } else {
      k := 1;
    }
  }

  lemma {:induction false} CompletesRetry(w: Wire, size: nat, max: int, count: nat, slept: int, p: Progress, k: nat)
    requires Completes(w, size, max, count, p, k)
    ensures RetryLoop(w, size, max, count, slept, p).success
    decreases k
  {
    assert Retryable(w.error(p.calls));
    if k > 1 {
      assert 0 < Received(w, p.calls, RETRY_ROOM) < size;
      CompletesRetry(w, size, max, count + 1, slept + 1000 * count, Take(w, p, RETRY_ROOM), k - 1);
    }
  }

  lemma RetrySucceedsExactlyWhen(w: Wire, errnoCopy: int, size: nat, max: int, p: Progress)
    ensures RetryTask(w, errnoCopy, size, max, p).success <==>
      errnoCopy == EISCONN || exists k: nat :: Completes(w, size, Limit(max), 0, p, k)
  {
    if errnoCopy != EISCONN {
      if RetryTask(w, errnoCopy, size, max, p).success {
        var k := RetryCompletes(w, size, Limit(max), 0, 0, p);
      } else {
        forall k: nat | Completes(w, size, Limit(max), 0, p, k)
          ensures false
        {
          CompletesRetry(w, size, Limit(max), 0, 0, p, k);
        }
      }
    }
  }

  /** Conservation on every exit of async_read (done, closed, errno 106, retry success and retry failure), and
      what the callback is told: the byte count, or 0 and an errno when the retry failed. */
  lemma {:induction false} ReadConserves(w: Wire, size: nat, max: int, p: Progress, receives: nat)
    ensures var o := ReadTask(w, size, max, p, receives);
      && Conserves(w, p, o.progress) && o.delivery.content == o.progress.content
      && o.delivery.size == (if o.exit == Retried(false) || o.exit == AlreadyConnected then 0 else |o.delivery.content|)
      && o.delivery.error == (if o.exit == Retried(false) then w.error(o.progress.calls) else 0)
    decreases if |p.content| < size then size - |p.content| else 0
  {
    if w.ready(p.calls) < 0 {
      ErrorConserves(w, size, max, p, receives);
    } else {
      var q := Take(w, p, MAIN_ROOM);
      ErrorConserves(w, size, max, q, receives + 1);
      ConservesJoin(w, p, q, ErrorState(w, size, max, q, receives + 1).progress);
      if Received(w, p.calls, MAIN_ROOM) > 0 && |q.content| < size {
        ReadConserves(w, size, max, q, receives + 1);
        ConservesJoin(w, p, q, ReadTask(w, size, max, q, receives + 1).progress);
      }
    }
  }

  lemma ErrorConserves(w: Wire, size: nat, max: int, p: Progress, receives: nat)
    ensures var o := ErrorState(w, size, max, p, receives);
      && Conserves(w, p, o.progress) && o.delivery.content == o.progress.content
      && o.delivery.size == (if o.exit == Retried(false) || o.exit == AlreadyConnected then 0 else |o.delivery.content|)
      && o.delivery.error == (if o.exit == Retried(false) then w.error(o.progress.calls) else 0)
  {
    RetryConserves(w, size, Limit(max), 0, 0, p);
  }

  /** The main loop ends: at most max(1, size - what is already there) receives under any environment. */
  lemma {:induction false} ReceivesBounded(w: Wire, size: nat, max: int, p: Progress, receives: nat)
    ensures ReadTask(w, size, max, p, receives).receives - receives <=
      if |p.content| + 1 < size then size - |p.content| else 1
    decreases if |p.content| < size then size - |p.content| else 0
  {
    var q := Take(w, p, MAIN_ROOM);
    if w.ready(p.calls) >= 0 && Received(w, p.calls, MAIN_ROOM) > 0 && |q.content| < size {
      ReceivesBounded(w, size, max, q, receives + 1);
    }
  }

  /** On DONE at least `size` bytes are delivered, and from a buffer holding fewer, fewer than size + 4096. */
  lemma {:induction false} DoneDelivers(w: Wire, size: nat, max: int, p: Progress, receives: nat)
    requires ReadTask(w, size, max, p, receives).exit == Done
    ensures var n := ReadTask(w, size, max, p, receives).delivery.size;
      n >= size && (|p.content| < size ==> n < size + MAIN_ROOM)
    decreases if |p.content| < size then size - |p.content| else 0
  {
    var q := Take(w, p, MAIN_ROOM);
    if w.ready(p.calls) >= 0 && Received(w, p.calls, MAIN_ROOM) > 0 && |q.content| < size {
      DoneDelivers(w, size, max, q, receives + 1);
    }
  }
}
