// The System V message queue between the socket loop and File_Process:
// msgsnd appends, msgrcv takes the head (type 0) or the first message of a
// positive type (POSIX.1-2017 System Interfaces, msgrcv()).
module MessageQueue {
  import opened Bytes

  datatype Message = Message(mtype: int, mtext: Bytes)

  // Index of the first message of type t, or |q| when there is none.
  function Find(q: seq<Message>, t: int): (i: nat)
    ensures i <= |q|
    ensures i < |q| ==> q[i].mtype == t
    ensures forall j | 0 <= j < i :: q[j].mtype != t
  {
    if |q| == 0 then 0
    else if q[0].mtype == t then 0
    else 1 + Find(q[1..], t)
  }

  function Without(q: seq<Message>, i: nat): seq<Message>
    requires i < |q|
  {
    q[..i] + q[i + 1..]
  }

  lemma FindIsFirst(q: seq<Message>, t: int, i: nat)
    requires i < |q| && q[i].mtype == t
    requires forall j | 0 <= j < i :: q[j].mtype != t
    ensures Find(q, t) == i
  {
  }

  class Queue {
    var messages: seq<Message>

    constructor ()
      ensures messages == []
    {
      messages := [];
    }

    // msgsnd: a type below 1 is refused with EINVAL.
    method Send(mtype: int, mtext: Bytes) returns (ok: bool)
      modifies this
      ensures ok <==> mtype >= 1
      ensures messages == if ok then old(messages) + [Message(mtype, mtext)] else old(messages)
    {
      ok := mtype >= 1;
      if ok {
        messages := messages + [Message(mtype, mtext)];
      }
    }

    // msgrcv with IPC_NOWAIT and a positive type.
    method TakeType(t: int) returns (found: bool, m: Message)
      requires t >= 1
      modifies this
      ensures found <==> exists i | 0 <= i < |old(messages)| :: old(messages)[i].mtype == t
      ensures found ==> var i := Find(old(messages), t);
                        i < |old(messages)| && m == old(messages)[i] && messages == Without(old(messages), i)
      ensures !found ==> messages == old(messages)
    {
      m := Message(0, []);
      found := false;
      var i := 0;
      while i < |messages|
        invariant 0 <= i <= |messages|
        invariant messages == old(messages) && !found
        invariant forall j | 0 <= j < i :: messages[j].mtype != t
      {
        if messages[i].mtype == t {
          found, m := true, messages[i];
          FindIsFirst(messages, t, i);
          messages := Without(messages, i);
          return;
        }
        i := i + 1;
      }
    }

    // msgrcv with type 0; the caller blocks while the queue is empty.
    method TakeHead() returns (m: Message)
      requires messages != []
      modifies this
      ensures m == old(messages)[0] && messages == old(messages)[1..]
    {
      m := messages[0];
      messages := messages[1..];
    }
  }
}
