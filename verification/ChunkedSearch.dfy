/** Finding a delimiter in bytes that arrive in chunks. */
module ChunkedSearch {
  import opened ReadBuffers
  import opened Delimiter
  import opened Sockets

  /** The last chunk, if any, ends the content, and the delimiter did not occur before it arrived. */
  ghost predicate CleanBefore(d: seq<byte>, p: Progress) {
    |p.chunk| <= |p.content| && p.content == p.content[..|p.content| - |p.chunk|] + p.chunk
    && (p.chunk != [] ==> !Occurs(d, p.content[..|p.content| - |p.chunk|]))
  }

  lemma TakeClean(w: Wire, d: seq<byte>, p: Progress, room: nat)
    requires CleanBefore(d, p) && !Occurs(d, p.content)
    ensures CleanBefore(d, Take(w, p, room))
  {
    var q := Take(w, p, room);
    if Received(w, p.calls, room) > 0 {
      assert q.content[..|q.content| - |q.chunk|] == p.content;
    }
  }

  lemma StreamExtends(w: Wire, p: Progress, q: Progress, n: nat)
    requires Conserves(w, p, q) && n >= q.position - p.position
    ensures q.content <= p.content + Slice(w, p.position, n)
  {
    var m := q.position - p.position;
    SliceJoin(w, p.position, m, n - m);
    assert p.content + Slice(w, p.position, n) == q.content + Slice(w, p.position + m, n - m);
  }

  /** Where the delimiter occurs first in what was received is where it occurs first in the stream, and what
      follows it is shorter than the last chunk. */
  lemma FirstInStream(w: Wire, d: seq<byte>, p: Progress, q: Progress) returns (i: nat)
    requires Conserves(w, p, q) && CleanBefore(d, q) && Occurs(d, q.content)
    ensures FirstAt(d, q.content, i)
    ensures forall n: nat :: n >= q.position - p.position ==> FirstAt(d, p.content + Slice(w, p.position, n), i)
    ensures q.chunk != [] ==> |q.content| - (i + |d|) < |q.chunk|
  {
    var any :| OccursAt(d, q.content, any);
    i := FirstExists(d, q.content, any);
    if q.chunk != [] {
      TailWithinChunk(d, q.content[..|q.content| - |q.chunk|], q.chunk, i);
    }
    forall n: nat | n >= q.position - p.position
      ensures FirstAt(d, p.content + Slice(w, p.position, n), i)
    {
      var whole := p.content + Slice(w, p.position, n);
      StreamExtends(w, p, q, n);
      assert whole == q.content + whole[|q.content|..];
      FirstInPrefix(d, q.content, whole[|q.content|..], i);
    }
  }
}
