/** The main loop of async_write in include/client/socket/TCP/socket_tcp.hpp. */
module TcpWrite {
  import opened ReadBuffers

  /** strlen(c_str()): the bytes before the first NUL. */
  function Strlen(message: seq<byte>): (n: nat)
    ensures n <= |message| && 0 !in message[..n] && (n < |message| ==> message[n] == 0)
  {
    if message == [] || message[0] == 0 then 0
    else
      var rest := Strlen(message[1..]);
      assert message[..rest + 1] == [message[0]] + message[1..][..rest];
      rest + 1
  }

  /** Where the loop stands: still writing when the socket has given no further answer, a negative write
      (M_retryTcpwrite takes over), or all of the message gone. */
  datatype Status = Writing | WriteFailed | Sent

  /** `answers` are the results of the calls of write so far, each cut to the length it was asked for;
      `accepted` collects the bytes the socket took, in order. */
  method WriteMessage(message: seq<byte>, answers: seq<int>)
    returns (status: Status, total: nat, accepted: seq<byte>, used: nat)
    ensures total <= Strlen(message) && accepted == message[..total]
    ensures used <= |answers| && (status == Writing ==> used == |answers|)
    ensures status == Sent <==> total == Strlen(message)
    ensures status == WriteFailed <==> used > 0 && answers[used - 1] < 0
    ensures forall i :: 0 <= i < used - 1 ==> answers[i] >= 0
    ensures used > 0 ==> Positive(answers[..used - 1]) < Strlen(message)
    ensures total == Least(Strlen(message), Positive(answers[..used]))
    ensures Progresses(answers) && |answers| >= Strlen(message) ==> status == Sent
  {
    var length := Strlen(message);
    var written := 0;
    total, accepted, used := 0, [], 0;
    while written < length && used < |answers|
      invariant written == total <= length && accepted == message[..total] && used <= |answers|
      invariant forall i :: 0 <= i < used ==> answers[i] >= 0
      invariant used > 0 ==> Positive(answers[..used - 1]) < length
      invariant total == Least(length, Positive(answers[..used]))
    {
      var ret := if answers[used] > length - written then length - written else answers[used];
      PositiveSnoc(answers[..used], answers[used]);
      assert Positive(answers[..used]) < length;
      assert answers[..used] + [answers[used]] == answers[..used + 1];
      used := used + 1;
      if ret < 0 {
        return WriteFailed, total, accepted, used;
      }
      accepted := accepted + message[written..written + ret];
      total := total + ret;
      written := written + ret;
      if total == length {
        break;
      }
    }
    status := if total == length then Sent else Writing;
    if Progresses(answers) && status == Writing {
      assert answers[..used] == answers;
      PositiveAtLeast(answers);
    }
  }

  /** No write fails and each takes at least one byte. */
  predicate Progresses(answers: seq<int>) {
    forall i :: 0 <= i < |answers| ==> answers[i] > 0
  }

  function Least(a: nat, b: nat): nat {
    if a < b then a else b
  }

  /** The sum of the answers that are not failures. */
  function Positive(answers: seq<int>): nat {
    if answers == [] then 0 else (if answers[0] > 0 then answers[0] else 0) + Positive(answers[1..])
  }

  lemma {:induction false} PositiveSnoc(answers: seq<int>, last: int)
    ensures Positive(answers + [last]) == Positive(answers) + (if last > 0 then last else 0)
  {
    if answers == [] {
      assert answers + [last] == [last];
    } else {
      assert (answers + [last])[1..] == answers[1..] + [last];
      PositiveSnoc(answers[1..], last);
    }
  }

  lemma {:induction false} PositiveAtLeast(answers: seq<int>)
    requires Progresses(answers)
    ensures Positive(answers) >= |answers|
  {
    if answers != [] {
      PositiveAtLeast(answers[1..]);
    }
  }
}
