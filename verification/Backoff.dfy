/** The retry loops whose only effect is to try again: M_retryTcpConnect and the WANT_READ/WANT_WRITE path of
    M_ssl_handshake_retry, with the time they sleep in microseconds. */
module Backoff {
  import opened Sockets

  /** 1000 * (from + 1) + 1000 * (from + 2) + ... over k sleeps. */
  function Slept(from: int, k: nat): int
    decreases k
  {
    if k == 0 then 0 else 1000 * (from + 1) + Slept(from + 1, k - 1)
  }

  /** The backoff is exactly quadratic. */
  lemma {:induction false} SleptIsQuadratic(from: int, k: nat)
    ensures Slept(from, k) == 1000 * from * k + 500 * k * (k + 1)
    decreases k
  {
    if k > 0 {
      SleptIsQuadratic(from + 1, k - 1);
      var n := k - 1;
      assert 1000 * (from + 1) * n + 500 * n * (n + 1) + 1000 * (from + 1)
          == 1000 * from * (n + 1) + 500 * (n + 1) * (n + 2);
    }
  }

  lemma {:induction false} SleptExtend(from: int, k: nat)
    ensures Slept(from, k + 1) == Slept(from, k) + 1000 * (from + k + 1)
    decreases k
  {
    if k > 0 {
      SleptExtend(from + 1, k - 1);
    }
  }

  // ---------- connect ----------

  /** connect number c failed and is worth repeating: nothing succeeded before it and errno was neither 0
      (the loop gives up) nor EISCONN (it reports success). */
  predicate Fails(w: Wire, c: nat) {
    w.error(c) != 0 && w.error(c) != EISCONN && w.reply(c) < 0
  }

  predicate Connects(w: Wire, c: nat) {
    w.error(c) == EISCONN || (w.error(c) != 0 && w.reply(c) >= 0)
  }

  /** Some connect among the first n goes through and all before it fail. */
  ghost predicate ConnectsWithin(w: Wire, n: int) {
    exists j: nat :: j < n && Connects(w, j) && forall i: nat :: i < j ==> Fails(w, i)
  }

  lemma NeverConnects(w: Wire, n: int, tries: nat)
    requires forall i: nat :: i < tries ==> Fails(w, i)
    requires tries >= n || (!Fails(w, tries) && !Connects(w, tries))
    ensures !ConnectsWithin(w, n)
  {
    forall j: nat | j < n && Connects(w, j)
      ensures exists i: nat :: i < j && !Fails(w, i)
    {
      assert !Fails(w, j) && tries < j;
    }
  }

  /** errno lets the loop try again: it neither gives up (0) nor reports success (EISCONN). */
  predicate MayConnect(w: Wire, c: nat) {
    w.error(c) != 0 && w.error(c) != EISCONN
  }

  /** The loop, with `left` tries to go, stops after this many: all before the last failed, and the last went
      through, or it failed too and either the limit is reached or errno ends the loop. */
  predicate StopsAfter(w: Wire, left: int, tries: nat) {
    && (forall i: nat :: i + 1 < tries ==> Fails(w, i))
    && if tries > 0 && w.reply(tries - 1) >= 0 then tries <= left && MayConnect(w, tries - 1)
       else
         && (tries > 0 ==> tries <= left && Fails(w, tries - 1))
         && (tries >= left || !MayConnect(w, tries))
  }

  lemma StopsNoLater(w: Wire, left: int, tries: nat, later: nat)
    requires StopsAfter(w, left, tries) && tries < later
    ensures !StopsAfter(w, left, later)
  {
    var last: nat := if tries > 0 then tries - 1 else 0;
    assert StopsAfter(w, left, later) && tries + 1 < later ==> Fails(w, tries);
    assert StopsAfter(w, left, later) ==> tries < left && MayConnect(w, tries) && (tries > 0 ==> Fails(w, last));
  }

  /** Only one number of tries fits. */
  lemma StopsOnce(w: Wire, left: int, tries: nat, other: nat)
    requires StopsAfter(w, left, tries) && StopsAfter(w, left, other)
    ensures tries == other
  {
    hide StopsAfter;
    if tries < other {
      StopsNoLater(w, left, tries, other);
    } else if other < tries {
      StopsNoLater(w, left, other, tries);
    }
  }

  /** M_retryTcpConnect.  `count` and `success` are the context's retry count and flag on entry; the flag is
      left as it was when the loop gives up.  The long errno condition holds exactly when errno is not 0,
      because the loop guard is its last conjunct. */
  method RetryConnect(w: Wire, count: nat, maxTries: int, success: bool)
    returns (connected: bool, tries: nat, slept: int)
    ensures tries <= if count < Limit(maxTries) then Limit(maxTries) - count else 0
    ensures slept == Slept(count, tries) && StopsAfter(w, (if maxTries <= 0 then 10 else maxTries) - count, tries)
    ensures connected <==> success || ConnectsWithin(w, Limit(maxTries) - count)
  {
    var max := Limit(maxTries);
    var n := count;
    tries, slept := 0, 0;
    while n < max
      invariant n == count + tries && (tries > 0 ==> n <= max)
      invariant slept == Slept(count, tries)
      invariant forall i: nat :: i < tries ==> Fails(w, i)
      invariant tries > 0 ==> Fails(w, tries - 1)
    {
      var error := w.error(tries);
      if error == EISCONN {
        assert Connects(w, tries);
        return true, tries, slept;
      }
      if error == EAGAIN || error == EINTR || error == ETIMEDOUT || (error != 0 && max > n) {
        n := n + 1;
        slept := slept + 1000 * n;
        SleptExtend(count, tries);
        var result := w.reply(tries);
        tries := tries + 1;
        if result < 0 {
          if max == n {
            break;
          }
          continue;
        } else {
          assert Connects(w, tries - 1);
          return true, tries, slept;
        }
      }
      break;
    }
    NeverConnects(w, max - count, tries);
    connected := success;
  }

  // ---------- TLS handshake ----------

  /** M_ssl_handshake_retry entered with SSL_ERROR_WANT_READ or SSL_ERROR_WANT_WRITE: success is one of the
      first max calls of SSL_connect returning 1, the tries are as few as that takes, and k tries sleep
      500 * k * (k + 1) microseconds. */
  method RetryHandshake(w: Wire, max: int) returns (success: bool, tries: nat, slept: int)
    ensures success <==> exists j: nat :: j < max && w.reply(j) == 1
    ensures forall j: nat :: j + 1 < tries ==> w.reply(j) != 1
    ensures success ==> tries > 0 && w.reply(tries - 1) == 1
    ensures !success ==> tries == if max > 0 then max else 0
    ensures slept == 500 * tries * (tries + 1)
  {
    tries, slept := 0, 0;
    while tries < max
      invariant tries <= if max > 0 then max else 0
      invariant slept == Slept(0, tries)
      invariant forall j: nat :: j < tries ==> w.reply(j) != 1
    {
      SleptExtend(0, tries);
      tries := tries + 1;
      slept := slept + 1000 * tries;
      if w.reply(tries - 1) != 1 {
        if tries > max {
          return false, tries, slept;
        }
        continue;
      }
      SleptIsQuadratic(0, tries);
      return true, tries, slept;
    }
    SleptIsQuadratic(0, tries);
    success := false;
  }
}
