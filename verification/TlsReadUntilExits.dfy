/** How the TLS read retry ends, in terms of what the connection answers alone. */
module TlsReadUntilExits {
  import opened ReadBuffers
  import opened Delimiter
  import opened Sockets
  import opened TlsReadUntil

  /** k tries that do not end the retry: none found the delimiter, and each read brought bytes or a WANT result. */
  ghost predicate Unfinished(w: Wire, d: seq<byte>, p: Progress, k: nat) {
    forall j: nat :: j < k ==> GoesOn(w, d, p, j)
  }

  ghost predicate GoesOn(w: Wire, d: seq<byte>, p: Progress, j: nat) {
    var ret := Received(w, p.calls + j, ROOM);
    && !Occurs(d, TakeMany(w, p, ROOM, j).content)
    && (ret > 0 || (ret < 0 && Wants(w.error(p.calls + j + 1))))
  }

  /** The reads among the first k that brought nothing. */
  function Empty(w: Wire, p: Progress, k: nat): nat {
    if k == 0 then 0 else Empty(w, p, k - 1) + (if Received(w, p.calls + k - 1, ROOM) < 0 then 1 else 0)
  }

  /** With `left` tries to go, the retry ends after k unfinished ones: with the limit, which the raised count has
      then reached, with a scan that finds the delimiter, or with a read that says closed or fails for good. */
  ghost predicate RetryEnds(w: Wire, d: seq<byte>, left: int, p: Progress, k: nat, r: Retry) {
    var at, after := TakeMany(w, p, ROOM, k), TakeMany(w, p, ROOM, k + 1);
    var ret := Received(w, p.calls + k, ROOM);
    && (k == 0 || k < left) && Unfinished(w, d, p, k) && r.wants == Empty(w, p, k)
    && if k + 1 >= left then !r.success && r.sleeps == k && r.progress == at
       else if Occurs(d, at.content) then r.success && r.sleeps == k + 1 && r.progress == at
       else
         && (ret == 0 || (ret < 0 && !Wants(w.error(p.calls + k + 1))))
         && !r.success && r.sleeps == k + 1 && r.progress == after
  }

  function After(r: Retry, count: nat, wants: nat): Retry {
    r.(sleeps := count + r.sleeps, wants := wants + r.wants)
  }

  lemma HeadEnds(w: Wire, d: seq<byte>, max: int, count: nat, wants: nat, p: Progress, r: Retry)
    requires count + 1 < max ==> !GoesOn(w, d, p, 0)
    ensures RetryLoop(w, d, max, count, wants, p) == After(r, count, wants) <==> RetryEnds(w, d, max - count, p, 0, r)
  {
    hide Occurs;
    assert TakeMany(w, p, ROOM, 0) == p;
    assert TakeMany(w, p, ROOM, 1) == Take(w, p, ROOM);
    assert Unfinished(w, d, p, 0);
  }

  lemma GoOn(w: Wire, d: seq<byte>, max: int, count: nat, wants: nat, p: Progress)
    requires count + 1 < max && GoesOn(w, d, p, 0)
    ensures RetryLoop(w, d, max, count, wants, p)
      == RetryLoop(w, d, max, count + 1, wants + Empty(w, p, 1), Take(w, p, ROOM))
  {
    hide Occurs;
    assert TakeMany(w, p, ROOM, 0) == p;
    assert Empty(w, p, 0) == 0;
  }

  lemma UnfinishedStep(w: Wire, d: seq<byte>, p: Progress, k: nat)
    requires GoesOn(w, d, p, 0)
    ensures Unfinished(w, d, p, k + 1) <==> Unfinished(w, d, Take(w, p, ROOM), k)
  {
    hide Occurs;
    var next := Take(w, p, ROOM);
    if Unfinished(w, d, p, k + 1) {
      forall j: nat | j < k
        ensures GoesOn(w, d, next, j)
      {
        assert GoesOn(w, d, p, j + 1);
      }
    }
    if Unfinished(w, d, next, k) {
      forall j: nat | j < k + 1
        ensures GoesOn(w, d, p, j)
      {
        assert j > 0 ==> GoesOn(w, d, next, j - 1);
      }
    }
  }

  lemma {:induction false} EmptyStep(w: Wire, p: Progress, k: nat)
    ensures Empty(w, p, k + 1) == Empty(w, p, 1) + Empty(w, Take(w, p, ROOM), k)
  {
    if k > 0 {
      EmptyStep(w, p, k - 1);
    }
  }

  lemma EndsStep(w: Wire, d: seq<byte>, left: int, p: Progress, k: nat, r: Retry)
    requires GoesOn(w, d, p, 0) && left > 1
    ensures RetryEnds(w, d, left, p, k + 1, After(r, 1, Empty(w, p, 1))) <==>
      RetryEnds(w, d, left - 1, Take(w, p, ROOM), k, r)
  {
    hide Occurs, Unfinished;
    var next := Take(w, p, ROOM);
    UnfinishedStep(w, d, p, k);
    EmptyStep(w, p, k);
    assert TakeMany(w, p, ROOM, k + 1) == TakeMany(w, next, ROOM, k);
    assert TakeMany(w, p, ROOM, k + 2) == TakeMany(w, next, ROOM, k + 1);
  }

  lemma {:induction false} RetryStops(w: Wire, d: seq<byte>, max: int, count: nat, wants: nat, p: Progress)
    returns (k: nat, r: Retry)
    ensures RetryLoop(w, d, max, count, wants, p) == After(r, count, wants)
    ensures RetryEnds(w, d, max - count, p, k, r)
    decreases max - count
  {
    if count + 1 < max && GoesOn(w, d, p, 0) {
      hide RetryLoop, RetryEnds, GoesOn;
      GoOn(w, d, max, count, wants, p);
      k, r := RetryStops(w, d, max, count + 1, wants + Empty(w, p, 1), Take(w, p, ROOM));
      EndsStep(w, d, max - count, p, k, r);
      k, r := k + 1, After(r, 1, Empty(w, p, 1));
    } else {
      LoopAfter(w, d, max, count, wants, p);
      hide RetryLoop, RetryEnds, GoesOn;
      var whole := RetryLoop(w, d, max, count, wants, p);
      k, r := 0, whole.(sleeps := whole.sleeps - count, wants := whole.wants - wants);
      HeadEnds(w, d, max, count, wants, p, r);
    }
  }

  lemma {:induction false} LoopAfter(w: Wire, d: seq<byte>, max: int, count: nat, wants: nat, p: Progress)
    ensures var r := RetryLoop(w, d, max, count, wants, p); r.sleeps >= count && r.wants >= wants
    decreases max - count
  {
    if count + 1 < max && !Occurs(d, p.content) {
      hide Occurs;
      LoopAfter(w, d, max, count + 1, wants, Take(w, p, ROOM));
      LoopAfter(w, d, max, count + 1, wants + 1, Take(w, p, ROOM));
    }
  }

  lemma {:induction false} RetryIsEnd(w: Wire, d: seq<byte>, max: int, count: nat, wants: nat, p: Progress,
                                      k: nat, r: Retry)
    requires RetryEnds(w, d, max - count, p, k, r)
    ensures RetryLoop(w, d, max, count, wants, p) == After(r, count, wants)
    decreases k
  {
    hide RetryLoop, RetryEnds, GoesOn;
    if k == 0 {
      EndsAtOnce(w, d, max - count, p, r);
      HeadEnds(w, d, max, count, wants, p, r);
    } else {
      EndsLater(w, d, max - count, p, k, r);
      GoOn(w, d, max, count, wants, p);
      var rest := r.(sleeps := r.sleeps - 1, wants := r.wants - Empty(w, p, 1));
      EndsStep(w, d, max - count, p, k - 1, rest);
      RetryIsEnd(w, d, max, count + 1, wants + Empty(w, p, 1), Take(w, p, ROOM), k - 1, rest);
    }
  }

  lemma EndsAtOnce(w: Wire, d: seq<byte>, left: int, p: Progress, r: Retry)
    requires RetryEnds(w, d, left, p, 0, r)
    ensures 1 < left ==> !GoesOn(w, d, p, 0)
  {
  }

  lemma EndsLater(w: Wire, d: seq<byte>, left: int, p: Progress, k: nat, r: Retry)
    requires k > 0 && RetryEnds(w, d, left, p, k, r)
    ensures left > 1 && GoesOn(w, d, p, 0) && r.sleeps >= 1 && r.wants >= Empty(w, p, 1)
  {
    hide GoesOn, Occurs;
    EmptyStep(w, p, k - 1);
    assert GoesOn(w, d, p, 0);
  }

  /** The whole outcome of the TLS retry, for every connection: success or not, what was read, how often it slept,
      and how many WANT results raised the timeout.  When it is not entered, nothing happens. */
  lemma RetryEndsExactly(w: Wire, d: seq<byte>, max: int, p: Progress, r: Retry)
    ensures RetryTask(w, d, max, p) == r <==>
      if MayRetry(w, p.calls) then exists k: nat :: RetryEnds(w, d, max, p, k, r) else r == Retry(false, p, 0, 0)
  {
    hide RetryLoop, RetryEnds;
    var k, whole := RetryStops(w, d, max, 0, 0, p);
    if j: nat :| RetryEnds(w, d, max, p, j, r) {
      RetryIsEnd(w, d, max, 0, 0, p, j, r);
    }
  }
}
