/** The reads as tasks of the pool: async_read and async_read_until post a function that reads and then posts the
    user's callback, and the pool runs that callback exactly once. */
module ReadCallbacks {
  import opened ThreadPool
  import opened PoolSafety
  import opened PoolShutdown
  import opened PoolDrain
  import opened ReadBuffers
  import opened Sockets
  import TcpRead
  import TcpReadUntil

  /** What a task submits that posts these deliveries to the callback. */
  function PostedCalls(callback: Task, posted: seq<Delivery>): seq<Call> {
    if posted == [] then [] else [Void(callback)] + PostedCalls(callback, posted[1..])
  }

  /** A posted read: it submits its callback once. */
  function Reader(name: nat, callback: Task): Task {
    Task(name, [Void(callback)])
  }

  lemma OnePosted(callback: Task, delivery: Delivery)
    ensures PostedCalls(callback, [delivery]) == [Void(callback)]
  {
    assert [delivery][1..] == [];
  }

  /** The function async_read posts, seen by the pool: whatever the socket does, it is a task with one call. */
  method ReadIsReader(sock: Socket, buf: ReadBuffer, size: nat, maxTries: int, name: nat, callback: Task,
                      ghost p: Progress)
    returns (task: Task, deliveries: seq<Delivery>)
    requires Tracks(p, sock, buf)
    modifies sock, buf, buf.buffer
    ensures task == Reader(name, callback)
    ensures deliveries == [TcpRead.ReadTask(sock.wire, TcpRead.Requested(size), maxTries, p, 0).delivery]
  {
    var callbacks := new Callbacks();
    ghost var outcome := TcpRead.AsyncRead(sock, buf, callbacks, size, maxTries, p);
    deliveries := callbacks.posted;
    assert deliveries == [outcome.delivery];
    task := Task(name, PostedCalls(callback, deliveries));
    OnePosted(callback, outcome.delivery);
  }

  /** The same for async_read_until. */
  method ReadUntilIsReader(sock: Socket, buf: ReadBuffer, d: seq<byte>, maxTries: int, name: nat, callback: Task,
                           ghost p: Progress)
    returns (task: Task, deliveries: seq<Delivery>)
    requires Tracks(p, sock, buf)
    modifies sock, buf, buf.buffer
    ensures task == Reader(name, callback)
    ensures deliveries == [TcpReadUntil.UntilTask(sock.wire, d, maxTries, p).delivery]
  {
    var callbacks := new Callbacks();
    ghost var outcome := TcpReadUntil.AsyncReadUntil(sock, buf, callbacks, d, maxTries, p);
    deliveries := callbacks.posted;
    assert deliveries == [outcome.delivery];
    task := Task(name, PostedCalls(callback, deliveries));
    OnePosted(callback, outcome.delivery);
  }

  // Only call number k names the callback.
  lemma {:induction false} OneNamedCall(name: nat, calls: seq<Call>, k: nat)
    requires k < |calls| && NameInTask(name, calls[k].task) == 1
    requires forall l :: 0 <= l < |calls| && l != k ==> NameInTask(name, calls[l].task) == 0
    ensures NameInCalls(name, calls) == 1
  {
    hide NameInTask;
    if k == 0 {
      NoNamedCall(name, calls[1..]);
    } else {
      OneNamedCall(name, calls[1..], k - 1);
    }
  }

  lemma {:induction false} NoNamedCall(name: nat, calls: seq<Call>)
    requires forall l :: 0 <= l < |calls| ==> NameInTask(name, calls[l].task) == 0
    ensures NameInCalls(name, calls) == 0
  {
    hide NameInTask;
    if calls != [] {
      NoNamedCall(name, calls[1..]);
    }
  }

  /** A client's read, one of many calls of many clients, has its callback run exactly once by the time the
      workers have left, whatever else was posted and however the threads were scheduled. */
  lemma ReadCallbackRunsOnce(s: Pool, schedule: seq<nat>, c: nat, k: nat, name: nat, callback: Task)
    returns (ticket: nat)
    requires Initial(s) && HasWorker(s) && Legal(s, schedule) && Disciplined(s, schedule)
    requires AllExited(Run(s, schedule))
    requires c < |s.threads| && s.threads[c].Client? && k < |s.threads[c].calls|
    requires s.threads[c].calls[k].task == Reader(name, callback)
    // nobody else has a task of the callback's name
    requires name != callback.name && NameInCalls(callback.name, callback.calls) == 0
    requires forall l :: 0 <= l < |s.threads[c].calls| && l != k
               ==> NameInTask(callback.name, s.threads[c].calls[l].task) == 0
    requires forall j :: 0 <= j < |s.threads| && j != c ==> NameAhead(callback.name, s.threads[j]) == 0
    ensures var m := Run(s, schedule).mem;
      && ticket < |m.started| && m.started[ticket].name == callback.name && ticket in m.completed
      && forall i :: 0 <= i < |m.started| && m.started[i].name == callback.name ==> i == ticket
  {
    var th := s.threads[c];
    ReaderNames(name, callback);
    OneNamedCall(callback.name, th.calls, k);
    assert Fresh(th);
    TotalOfOne(Ahead(callback.name), s.threads, c);
    ticket := CallbackRunsExactlyOnce(callback.name, s, schedule);
  }

  lemma ReaderNames(name: nat, callback: Task)
    requires name != callback.name && NameInCalls(callback.name, callback.calls) == 0
    ensures NameInTask(callback.name, Reader(name, callback)) == 1
  {
    NameOfTask(callback.name, callback);
    NameOfTask(callback.name, Reader(name, callback));
    OneNamedCall(callback.name, [Void(callback)], 0);
  }
}
