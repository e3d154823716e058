/** readBuffer of include/client/buffer/buffer.hpp: a byte queue in a growing array. */
module ReadBuffers {
  newtype byte = b: int | 0 <= b < 256

  /** The fields of a readBuffer as a value: M_buffer_, M_read_pointer, M_write_pointer. */
  datatype Fields = Fields(buffer: seq<byte>, read: nat, write: nat)

  predicate FieldsOk(f: Fields) {
    f.read <= f.write <= |f.buffer| && (f.read == f.write ==> f.read == 0)
  }

  function Readable(f: Fields): seq<byte>
    requires FieldsOk(f)
  {
    f.buffer[f.read..f.write]
  }

  /** M_ensureWriteableBytes: no move, memmove to the front, or resize (new cells are zero). */
  function EnsureWriteable(f: Fields, n: nat): Fields
    requires FieldsOk(f)
  {
    if |f.buffer| - f.write >= n then f
    else if f.read + (|f.buffer| - f.write) >= n then
      Fields(Readable(f) + f.buffer[f.write - f.read..], 0, f.write - f.read)
    else
      Fields(f.buffer + seq(f.write + n - |f.buffer|, _ => 0), f.read, f.write)
  }

  function AppendFields(f: Fields, data: seq<byte>): Fields
    requires FieldsOk(f)
  {
    var g := EnsureWriteable(f, |data|);
    assert g.write + |data| <= |g.buffer|;
    Fields(g.buffer[..g.write] + data + g.buffer[g.write + |data|..], g.read, g.write + |data|)
  }

  function RetrieveFields(f: Fields, n: nat): Fields
    requires FieldsOk(f) && n <= f.write - f.read
  {
    if f.read + n == f.write then Fields(f.buffer, 0, 0) else f.(read := f.read + n)
  }

  lemma AppendRefines(f: Fields, data: seq<byte>)
    requires FieldsOk(f)
    ensures FieldsOk(AppendFields(f, data)) && Readable(AppendFields(f, data)) == Readable(f) + data
  {
  }

  /** The array grows exactly when all its free cells together are too few, and then by what is missing behind the
      write pointer; the bytes move to the front exactly when they are enough but not all behind it. */
  lemma RoomExactly(f: Fields, n: nat)
    requires FieldsOk(f)
    ensures var g := EnsureWriteable(f, n); var free := |f.buffer| - |Readable(f)|; var behind := |f.buffer| - f.write;
      && |g.buffer| == (if n <= free then |f.buffer| else |f.buffer| + n - behind)
      && g.read == (if behind < n <= free then 0 else f.read)
      && Readable(g) == Readable(f)
  {
  }

  class ReadBuffer {
    var buffer: array<byte>
    var read: nat
    var write: nat

    ghost function Snapshot(): Fields
      reads this, buffer
    {
      Fields(buffer[..], read, write)
    }

    ghost predicate Valid()
      reads this, buffer
    {
      FieldsOk(Snapshot())
    }

    /** The bytes between the two pointers. */
    ghost function Contents(): seq<byte>
      reads this, buffer
      requires Valid()
    {
      Readable(Snapshot())
    }

    /** make_shared<readBuffer>() value-initialises: an empty array and both pointers 0. */
    constructor ()
      ensures Valid() && fresh(buffer) && Snapshot() == Fields([], 0, 0)
    {
      buffer := new byte[0];
      read, write := 0, 0;
    }

    method ReadableBytes() returns (n: nat)
      requires Valid()
      ensures n == |Contents()|
    {
      n := write - read;
    }

    /** memcmp(peekData() + index, text, size) == 0 */
    method Matches(index: nat, text: seq<byte>) returns (same: bool)
      requires Valid() && index + |text| <= |Contents()|
      ensures same <==> Contents()[index..index + |text|] == text
    {
      same := buffer[read + index..read + index + |text|] == text;
      assert buffer[read + index..read + index + |text|] == Contents()[index..index + |text|];
    }

    method AppendToBuffer(data: seq<byte>)
      requires Valid()
      modifies this, buffer
      ensures Valid() && (buffer == old(buffer) || fresh(buffer))
      ensures Snapshot() == AppendFields(old(Snapshot()), data)
      ensures Contents() == old(Contents()) + data
    {
      ghost var before := Snapshot();
      AppendRefines(before, data);
      EnsureWriteableBytes(|data|);
      forall i | 0 <= i < |data| {
        buffer[write + i] := data[i];
      }
      write := write + |data|;
      assert buffer[..] == AppendFields(before, data).buffer;
    }

    method RetrieveData(n: nat)
      requires Valid() && n <= |Contents()|
      modifies this
      ensures Valid() && buffer == old(buffer)
      ensures Snapshot() == RetrieveFields(old(Snapshot()), n)
      ensures Contents() == old(Contents())[n..]
    {
      read := read + n;
      if read == write {
        read, write := 0, 0;
      }
    }

    method EnsureWriteableBytes(n: nat)
      requires Valid()
      modifies this, buffer
      ensures Valid() && (buffer == old(buffer) || fresh(buffer))
      ensures Snapshot() == EnsureWriteable(old(Snapshot()), n)
      ensures Contents() == old(Contents()) && buffer.Length - write >= n
    {
      if buffer.Length - write >= n {
        return;
      } else if read + (buffer.Length - write) >= n {
        // memmove: the regions may overlap, all cells are read before any is written
        forall i | 0 <= i < write - read {
          buffer[i] := buffer[read + i];
        }
        write := write - read;
        read := 0;
        assert buffer[..] == EnsureWriteable(old(Snapshot()), n).buffer;
      } else {
        var bigger := new byte[write + n](
          i requires 0 <= i reads this, buffer => if i < buffer.Length then buffer[i] else 0);
        buffer := bigger;
        assert buffer[..] == EnsureWriteable(old(Snapshot()), n).buffer;
      }
    }
  }

  // ---------- whole histories ----------

  datatype Op = Append(data: seq<byte>) | Retrieve(n: nat)

  /** The abstract queue: a plain byte sequence.  Retrieving more than is readable is out of range. */
  predicate InRange(queue: seq<byte>, ops: seq<Op>)
    decreases |ops|
  {
    ops == [] || match ops[0]
      case Append(data) => InRange(queue + data, ops[1..])
      case Retrieve(n) => n <= |queue| && InRange(queue[n..], ops[1..])
  }

  function Queue(queue: seq<byte>, ops: seq<Op>): seq<byte>
    requires InRange(queue, ops)
    decreases |ops|
  {
    if ops == [] then queue
    else match ops[0]
      case Append(data) => Queue(queue + data, ops[1..])
      case Retrieve(n) => Queue(queue[n..], ops[1..])
  }

  /** The longest the queue has been, the start included. */
  function Peak(queue: seq<byte>, ops: seq<Op>): nat
    requires InRange(queue, ops)
    decreases |ops|
  {
    if ops == [] then |queue|
    else
      var rest := match ops[0]
        case Append(data) => Peak(queue + data, ops[1..])
        case Retrieve(n) => Peak(queue[n..], ops[1..]);
      Max(|queue|, rest)
  }

  function LargestAppend(ops: seq<Op>): nat {
    if ops == [] then 0
    else Max(if ops[0].Append? then |ops[0].data| else 0, LargestAppend(ops[1..]))
  }

  function Max(a: nat, b: nat): nat {
    if a < b then b else a
  }

  /** The fields after a history of calls on one buffer. */
  function After(f: Fields, ops: seq<Op>): Fields
    requires FieldsOk(f) && InRange(Readable(f), ops)
    decreases |ops|
  {
    if ops == [] then f
    else match ops[0]
      case Append(data) => AppendRefines(f, data); After(AppendFields(f, data), ops[1..])
      case Retrieve(n) => RetrieveRefines(f, n); After(RetrieveFields(f, n), ops[1..])
  }

  lemma RetrieveRefines(f: Fields, n: nat)
    requires FieldsOk(f) && n <= f.write - f.read
    ensures FieldsOk(RetrieveFields(f, n)) && Readable(RetrieveFields(f, n)) == Readable(f)[n..]
  {
  }

  /** The bytes between the pointers are the abstract queue after every history, whichever of the
      no-move, memmove and resize branches the appends took, and the pointers stay ordered. */
  lemma {:induction false} HistoryRefinesQueue(f: Fields, ops: seq<Op>)
    requires FieldsOk(f) && InRange(Readable(f), ops)
    ensures FieldsOk(After(f, ops)) && Readable(After(f, ops)) == Queue(Readable(f), ops)
    decreases |ops|
  {
    if ops != [] {
      match ops[0]
      case Append(data) =>
        AppendRefines(f, data);
        HistoryRefinesQueue(AppendFields(f, data), ops[1..]);
      case Retrieve(n) =>
        RetrieveRefines(f, n);
        HistoryRefinesQueue(RetrieveFields(f, n), ops[1..]);
    }
  }

  /** The array never shrinks, and after any history it is smaller than the larger of its old size and
      the peak readable length plus the largest single append; a fresh buffer to which anything was
      appended is therefore strictly smaller than peak plus largest append. */
  lemma {:induction false} CapacityBound(f: Fields, ops: seq<Op>)
    requires FieldsOk(f) && InRange(Readable(f), ops)
    ensures |After(f, ops).buffer| >= |f.buffer|
    ensures |After(f, ops).buffer| == |f.buffer|
         || |After(f, ops).buffer| < Peak(Readable(f), ops) + LargestAppend(ops)
    decreases |ops|
  {
    if ops != [] {
      match ops[0]
      case Append(data) =>
        AppendRefines(f, data);
        PeakAtLeast(Readable(f) + data, ops[1..]);
        CapacityBound(AppendFields(f, data), ops[1..]);
      case Retrieve(n) =>
        RetrieveRefines(f, n);
        CapacityBound(RetrieveFields(f, n), ops[1..]);
    }
  }

  lemma PeakAtLeast(queue: seq<byte>, ops: seq<Op>)
    requires InRange(queue, ops)
    ensures Peak(queue, ops) >= |queue|
  {
  }

  lemma FreshCapacityBound(ops: seq<Op>)
    requires InRange([], ops) && LargestAppend(ops) > 0
    ensures |After(Fields([], 0, 0), ops).buffer| < Peak([], ops) + LargestAppend(ops)
  {
    var empty := Fields([], 0, 0);
    assert Readable(empty) == [];
    CapacityBound(empty, ops);
  }
}
