/** The sockets of the read paths as an oracle. */
module Sockets {
  import opened ReadBuffers

  const EINTR := 4
  const EAGAIN := 11
  const EISCONN := 106
  const ETIMEDOUT := 110

  /** The errno values after which the read retries go on. */
  predicate Retryable(error: int) {
    error == EAGAIN || error == EINTR
  }

  /** An unset M_max_rety_count means ten tries. */
  function Limit(maxTries: int): int {
    if maxTries <= 0 then 10 else maxTries
  }

  /** Everything the environment will do, fixed in advance and otherwise arbitrary.
      incoming(p)  the byte at position p of what the peer sends
      reply(c)     what receive number c answers: negative, 0 for closed, or a byte count, cut to the caller's array
      ready(c)     what select answers when it is called before receive number c
      error(c)     errno, or the code SSL_get_error gives, once c receives have been made */
  datatype Wire = Wire(incoming: nat -> byte, reply: nat -> int, ready: nat -> int, error: nat -> int)

  /** n bytes of the stream from position `from`. */
  function Slice(w: Wire, from: nat, n: nat): seq<byte> {
    seq(n, i requires 0 <= i => w.incoming(from + i))
  }

  /** recv/read/SSL_read never returns more than the array it was given holds. */
  function Received(w: Wire, c: nat, room: nat): int {
    if w.reply(c) > room then room else w.reply(c)
  }

  lemma SliceJoin(w: Wire, from: nat, m: nat, n: nat)
    ensures Slice(w, from, m) + Slice(w, from + m, n) == Slice(w, from, m + n)
  {
  }

  class Socket {
    const wire: Wire
    var calls: nat      // receives made
    var position: nat   // bytes received

    constructor (wire: Wire)
      ensures this.wire == wire && calls == 0 && position == 0
    {
      this.wire := wire;
      calls, position := 0, 0;
    }

    function Select(): int
      reads this
    {
      wire.ready(calls)
    }

    function Error(): int
      reads this
    {
      wire.error(calls)
    }

    method Receive(room: nat) returns (ret: int, data: seq<byte>)
      modifies this
      ensures ret == Received(wire, old(calls), room) && calls == old(calls) + 1
      ensures position == old(position) + |data|
      ensures data == Slice(wire, old(position), if ret > 0 then ret else 0)
    {
      ret := if wire.reply(calls) > room then room else wire.reply(calls);
      data := Slice(wire, position, if ret > 0 then ret else 0);
      calls := calls + 1;
      position := position + |data|;
    }
  }

  // ---------- how far a read machine has got ----------

  /** The bytes in the machine's buffer, the receives made and bytes received by its socket, and the
      last bytes that arrived. */
  datatype Progress = Progress(content: seq<byte>, calls: nat, position: nat, chunk: seq<byte>)

  /** One receive into a local array of the given size, and appendTobuffer when bytes came. */
  function Take(w: Wire, p: Progress, room: nat): Progress {
    var ret := Received(w, p.calls, room);
    if ret > 0 then
      var data := Slice(w, p.position, ret);
      Progress(p.content + data, p.calls + 1, p.position + ret, data)
    else
      p.(calls := p.calls + 1)
  }

  /** k receives in a row. */
  function TakeMany(w: Wire, p: Progress, room: nat, k: nat): Progress
    decreases k
  {
    if k == 0 then p else TakeMany(w, Take(w, p, room), room, k - 1)
  }

  lemma {:induction false} TakeManyCalls(w: Wire, p: Progress, room: nat, k: nat)
    ensures TakeMany(w, p, room, k).calls == p.calls + k
    decreases k
  {
    if k > 0 {
      TakeManyCalls(w, Take(w, p, room), room, k - 1);
    }
  }

  /** From p to q every byte received was appended, in order, and nothing else changed. */
  predicate Conserves(w: Wire, p: Progress, q: Progress) {
    && p.calls <= q.calls && p.position <= q.position
    && q.content == p.content + Slice(w, p.position, q.position - p.position)
  }

  lemma ConservesJoin(w: Wire, p: Progress, q: Progress, r: Progress)
    requires Conserves(w, p, q) && Conserves(w, q, r)
    ensures Conserves(w, p, r)
  {
    SliceJoin(w, p.position, q.position - p.position, r.position - q.position);
  }

  /** What a socket and a buffer stand for, given the last chunk. */
  ghost predicate Tracks(p: Progress, sock: Socket, buf: ReadBuffer)
    reads sock, buf, buf.buffer
  {
    buf.Valid() && p.content == buf.Contents() && p.calls == sock.calls && p.position == sock.position
  }

  /** A callback posted with asyncTaskvoid: its error code (0 for none), byte count, and the bytes readable
      in the buffer handed over. */
  datatype Delivery = Delivery(error: int, size: nat, content: seq<byte>)

  class Callbacks {
    var posted: seq<Delivery>

    constructor ()
      ensures posted == []
    {
      posted := [];
    }

    /** asyncTaskvoid(callback, error, size, move(buffer), ...): the buffer travels with its bytes. */
    method Post(buf: ReadBuffer, error: int, size: nat)
      requires buf.Valid()
      modifies this
      ensures posted == old(posted) + [Delivery(error, size, buf.Contents())]
    {
      posted := posted + [Delivery(error, size, buf.buffer[buf.read..buf.write])];
      assert buf.buffer[buf.read..buf.write] == buf.Contents();
    }
  }
}
