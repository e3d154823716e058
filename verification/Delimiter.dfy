/** Searching the buffered bytes for a delimiter. */
module Delimiter {
  import opened ReadBuffers

  ghost predicate OccursAt(d: seq<byte>, s: seq<byte>, i: int) {
    0 <= i && i + |d| <= |s| && s[i..i + |d|] == d
  }

  ghost predicate Occurs(d: seq<byte>, s: seq<byte>) {
    exists i :: OccursAt(d, s, i)
  }

  /** i is where d occurs first. */
  ghost predicate FirstAt(d: seq<byte>, s: seq<byte>, i: int) {
    OccursAt(d, s, i) && forall j :: 0 <= j < i ==> !OccursAt(d, s, j)
  }

  /** The scan the read loops share: compare at every index that leaves room for the delimiter. */
  method Scan(buf: ReadBuffer, d: seq<byte>) returns (found: bool)
    requires buf.Valid()
    ensures found <==> Occurs(d, buf.Contents())
  {
    var readable := buf.ReadableBytes();
    var index := 0;
    while index + |d| <= readable
      invariant forall j :: 0 <= j < index ==> !OccursAt(d, buf.Contents(), j)
    {
      var same := buf.Matches(index, d);
      if same {
        assert OccursAt(d, buf.Contents(), index);
        return true;
      }
      index := index + 1;
    }
    found := false;
  }

  lemma {:induction false} FirstExists(d: seq<byte>, s: seq<byte>, i: nat) returns (first: nat)
    requires OccursAt(d, s, i)
    ensures FirstAt(d, s, first) && first <= i
  {
    if j :| 0 <= j < i && OccursAt(d, s, j) {
      first := FirstExists(d, s, j);
    } else {
      first := i;
    }
  }

  /** The first occurrence in a prefix is the first occurrence in the whole. */
  lemma FirstInPrefix(d: seq<byte>, s: seq<byte>, rest: seq<byte>, i: nat)
    requires FirstAt(d, s, i)
    ensures FirstAt(d, s + rest, i)
  {
    assert (s + rest)[i..i + |d|] == s[i..i + |d|];
    forall j | 0 <= j < i
      ensures !OccursAt(d, s + rest, j)
    {
      assert !OccursAt(d, s, j);
      assert (s + rest)[j..j + |d|] == s[j..j + |d|];
    }
  }

  /** When a chunk completes the delimiter, fewer bytes than the chunk follow the first occurrence. */
  lemma TailWithinChunk(d: seq<byte>, before: seq<byte>, chunk: seq<byte>, i: nat)
    requires !Occurs(d, before) && FirstAt(d, before + chunk, i)
    ensures |before + chunk| - (i + |d|) < |chunk|
  {
    if i + |d| <= |before| {
      assert before[i..i + |d|] == (before + chunk)[i..i + |d|];
      assert OccursAt(d, before, i);
    }
  }
}
