/** M_ssl_read_until_retry of include/client/socket/SSL/socket_ssl.hpp. */
module TlsReadUntil {
  import opened ReadBuffers
  import opened Delimiter
  import opened Sockets
  import opened ChunkedSearch
  import opened Backoff

  const SSL_ERROR_WANT_READ := 2
  const SSL_ERROR_WANT_WRITE := 3
  const SSL_ERROR_SYSCALL := 5
  const ROOM := 1086

  predicate Wants(error: int) {
    error == SSL_ERROR_WANT_READ || error == SSL_ERROR_WANT_WRITE
  }

  /** `sleeps` counts the waits and `wants` the WANT results, each of which adds 100000 to the timeout. */
  datatype Retry = Retry(success: bool, progress: Progress, sleeps: nat, wants: nat)

  /** The loop from its head.  The count is raised and tested first, so the scan and the read of a try happen
      only while the raised count is below the limit. */
  ghost function RetryLoop(w: Wire, d: seq<byte>, max: int, count: nat, wants: nat, p: Progress): Retry
    decreases max - count
  {
    if count + 1 >= max then Retry(false, p, count, wants)
    else if Occurs(d, p.content) then Retry(true, p, count + 1, wants)
    else
      var q := Take(w, p, ROOM);
      var ret := Received(w, p.calls, ROOM);
      if ret == 0 then Retry(false, q, count + 1, wants)
      else if ret > 0 then RetryLoop(w, d, max, count + 1, wants, q)
      else if Wants(w.error(q.calls)) then RetryLoop(w, d, max, count + 1, wants + 1, q)
      else Retry(false, q, count + 1, wants)
  }

  /** Only WANT_READ, WANT_WRITE and SYSCALL may be retried, the first two after a select that does not fail. */
  predicate MayRetry(w: Wire, c: nat) {
    (Wants(w.error(c)) && w.ready(c) >= 0) || w.error(c) == SSL_ERROR_SYSCALL
  }

  ghost function RetryTask(w: Wire, d: seq<byte>, max: int, p: Progress): Retry {
    if MayRetry(w, p.calls) then RetryLoop(w, d, max, 0, 0, p) else Retry(false, p, 0, 0)
  }

  method RetryReadUntil(sock: Socket, buf: ReadBuffer, d: seq<byte>, maxTries: int, timeout: int, ghost p: Progress)
    returns (success: bool, slept: int, newTimeout: int, ghost r: Retry)
    requires Tracks(p, sock, buf)
    modifies sock, buf, buf.buffer
    ensures r == RetryTask(sock.wire, d, maxTries, p) && success == r.success
    ensures Tracks(r.progress, sock, buf)
    ensures slept == Slept(0, r.sleeps) == 500 * r.sleeps * (r.sleeps + 1)
    ensures newTimeout == timeout + 100000 * r.wants
  {
    var max, count := maxTries, 0;
    r := RetryTask(sock.wire, d, maxTries, p);
    slept, newTimeout := 0, timeout;
    SleptIsQuadratic(0, r.sleeps);
    var error := sock.Error();
    if error == SSL_ERROR_SYSCALL || Wants(error) {
      if Wants(error) {
        if sock.Select() < 0 {
          return false, slept, newTimeout, r;
        }
      }
      ghost var q, wants := p, 0;
      while max > count
        invariant max == maxTries && (count > 0 ==> count < max)
        invariant Tracks(q, sock, buf) && (buf.buffer == old(buf.buffer) || fresh(buf.buffer))
        invariant r == RetryLoop(sock.wire, d, max, count, wants, q)
        invariant slept == Slept(0, count) && newTimeout == timeout + 100000 * wants
      {
        SleptExtend(0, count);
        count := count + 1;
        if max <= count {
          return false, slept, newTimeout, r;
        }
        slept := slept + count * 1000;
        var found := Scan(buf, d);
        if found {
          return true, slept, newTimeout, r;
        }
        q := Take(sock.wire, q, ROOM);
        var ret, data := sock.Receive(ROOM);
        if ret < 0 {
          if Wants(sock.Error()) {
            if count < max {
              newTimeout, wants := newTimeout + 100000, wants + 1;
              continue;
            }
            return false, slept, newTimeout, r;
          }
          if count >= max {
            return false, slept, newTimeout, r;
          }
          break;
        }
        if ret > 0 {
          buf.AppendToBuffer(data);
          if count >= max {
            max := max - 1;
          }
          continue;
        }
        return false, slept, newTimeout, r;
      }
    }
    success := false;
  }

  // ---------- properties ----------

  /** k reads without a fatal or zero result bring the loop to a scan that finds the delimiter; a WANT result
      adds nothing and uses up a try. */
  ghost predicate ReachesScan(w: Wire, d: seq<byte>, p: Progress, k: nat) {
    && (forall c :: p.calls <= c < p.calls + k ==>
          Received(w, c, ROOM) > 0 || (Received(w, c, ROOM) < 0 && Wants(w.error(c + 1))))
    && Occurs(d, TakeMany(w, p, ROOM, k).content)
  }

  lemma {:induction false} SuccessReaches(w: Wire, d: seq<byte>, max: int, count: nat, wants: nat, p: Progress)
    returns (k: nat)
    requires RetryLoop(w, d, max, count, wants, p).success
    ensures count + k + 1 < max && ReachesScan(w, d, p, k)
    decreases max - count
  {
    if Occurs(d, p.content) {
      k := 0;
    } else {
      var ret := Received(w, p.calls, ROOM);
      k := SuccessReaches(w, d, max, count + 1, if ret > 0 then wants else wants + 1, Take(w, p, ROOM));
      k := k + 1;
    }
  }

  lemma {:induction false} ReachesSuccess(w: Wire, d: seq<byte>, max: int, count: nat, wants: nat, p: Progress, k: nat)
    requires count + k + 1 < max && ReachesScan(w, d, p, k)
    ensures RetryLoop(w, d, max, count, wants, p).success
    decreases k
  {
    if !Occurs(d, p.content) {
      var ret := Received(w, p.calls, ROOM);
      assert ret > 0 || (ret < 0 && Wants(w.error(p.calls + 1)));
      ReachesSuccess(w, d, max, count + 1, if ret > 0 then wants else wants + 1, Take(w, p, ROOM), k - 1);
    }
  }

  /** The retry succeeds if and only if it is entered with a retryable error (and, where it waits, a non-negative
      select) and the delimiter occurs in the buffer plus the data of the first k reads for some k of at most
      max - 2, with no fatal or zero read among those k. */
  lemma SucceedsExactlyWhen(w: Wire, d: seq<byte>, max: int, p: Progress)
    ensures RetryTask(w, d, max, p).success <==>
      MayRetry(w, p.calls) && exists k: nat :: k <= max - 2 && ReachesScan(w, d, p, k)
  {
    if RetryTask(w, d, max, p).success {
      var k := SuccessReaches(w, d, max, 0, 0, p);
    } else if MayRetry(w, p.calls) {
      forall k: nat | k <= max - 2 && ReachesScan(w, d, p, k)
        ensures false
      {
        ReachesSuccess(w, d, max, 0, 0, p, k);
      }
    }
  }

  /** On every exit the buffer holds what it held followed by every byte read, in order; the tries, sleeps and
      reads stay below the limit. */
  lemma {:induction false} RetryConserves(w: Wire, d: seq<byte>, max: int, count: nat, wants: nat, p: Progress)
    ensures var r := RetryLoop(w, d, max, count, wants, p);
      && Conserves(w, p, r.progress)
      && (r.sleeps < max || r.sleeps == count) && r.progress.calls - p.calls <= r.sleeps - count
    decreases max - count
  {
    var q := Take(w, p, ROOM);
    if count + 1 < max && !Occurs(d, p.content) && Received(w, p.calls, ROOM) != 0 {
      var more := if Received(w, p.calls, ROOM) > 0 then wants else wants + 1;
      RetryConserves(w, d, max, count + 1, more, q);
      ConservesJoin(w, p, q, RetryLoop(w, d, max, count + 1, more, q).progress);
    }
  }

  lemma {:induction false} RetryClean(w: Wire, d: seq<byte>, max: int, count: nat, wants: nat, p: Progress)
    requires CleanBefore(d, p)
    ensures var r := RetryLoop(w, d, max, count, wants, p);
      CleanBefore(d, r.progress) && (r.success ==> Occurs(d, r.progress.content))
    decreases max - count
  {
    if count + 1 < max && !Occurs(d, p.content) {
      TakeClean(w, d, p, ROOM);
      RetryClean(w, d, max, count + 1, if Received(w, p.calls, ROOM) > 0 then wants else wants + 1, Take(w, p, ROOM));
    }
  }

  /** A successful TLS retry delivers the stream's first delimiter too, with less than one chunk behind it. */
  lemma FirstDelimiterOfTheStream(w: Wire, d: seq<byte>, max: int, p: Progress) returns (i: nat)
    requires p.chunk == [] && RetryTask(w, d, max, p).success
    ensures var q := RetryTask(w, d, max, p).progress;
      && FirstAt(d, q.content, i)
      && (forall n: nat :: n >= q.position - p.position ==> FirstAt(d, p.content + Slice(w, p.position, n), i))
      && (q.chunk != [] ==> |q.content| - (i + |d|) < |q.chunk|)
  {
    assert p.content == p.content[..|p.content|] + [];
    RetryConserves(w, d, max, 0, 0, p);
    RetryClean(w, d, max, 0, 0, p);
    i := FirstInStream(w, d, p, RetryTask(w, d, max, p).progress);
  }
}
