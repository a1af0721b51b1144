// The socket loop of Sudp: each datagram becomes one queue message whose type
// is the packet number.
module Sudp {
  import opened Bytes
  import opened Wire
  import opened MessageQueue

  const MAXDATASIZE := 2048

  // The message posted for datagram d when the reused receive buffer held rx.
  // msgsnd refuses a type below 1, so such a datagram is dropped.
  function Posted(rx: Bytes, d: Bytes): seq<Message> {
    var number := NumberOf(Overlay(d, rx));
    if number >= 1 then [Message(number, d)] else []
  }

  // The number in a datagram is read back whatever the buffer held before, and
  // the datagram fits the msgbuf.
  lemma PostedEncoded(p: Packet, rx: Bytes)
    requires p.Valid()
    ensures Posted(rx, Encode(p)) == if p.number >= 1 then [Message(p.number, Encode(p))] else []
    ensures |Encode(p)| <= RECEIVE_ROOM
  {
    DecodeEncode(p, Overlay(Encode(p), rx));
  }

  // recvfrom cuts a datagram off at the size of its buffer.
  function Received(d: Bytes): (r: Bytes)
    ensures r <= d && |r| == if |d| < 2048 then |d| else 2048
  {
    if |d| > MAXDATASIZE then d[..MAXDATASIZE] else d
  }

  class SocketLoop {
    const msg: array<Byte>     // recvfrom's buffer
    const mtext: array<Byte>   // text of the reused msgbuf
    var save: int              // number of the previous packet

    ghost predicate Valid()
      reads this
    {
      msg.Length == MAXDATASIZE && mtext.Length == RECEIVE_ROOM && msg != mtext
    }

    constructor ()
      ensures Valid() && fresh(msg) && fresh(mtext) && save == 0
    {
      msg := new Byte[MAXDATASIZE](_ => 0);
      mtext := new Byte[RECEIVE_ROOM](_ => 0);
      save := 0;
    }

    // One turn of the loop. gap is the "lost package" report. overrun: the
    // datagram is longer than the text of the msgbuf, and copying it there
    // overwrites other memory; what follows is not modelled.
    method OnDatagram(d: Bytes, q: Queue) returns (gap: bool, overrun: bool)
      requires Valid()
      modifies this, msg, mtext, q
      ensures Valid()
      ensures msg[..] == Overlay(Received(d), old(msg[..]))
      ensures overrun <==> |d| > RECEIVE_ROOM
      ensures q.messages == old(q.messages) + if overrun then [] else Posted(old(msg[..]), d)
      ensures save == NumberOf(msg[..])
      ensures gap <==> save != 1 && save != old(save) + 1
    {
      hide NumberOf;
      var received := Received(d);
      var num := |received|;
      Copy(msg, received);
      var number := NumberOf(msg[..]);
      if number == 1 {
        save := 0;
      }
      gap := number != save + 1;
      save := number;
      overrun := num > RECEIVE_ROOM;
      if overrun {
        return;
      }
      Copy(mtext, msg[..num]);
      var ok := q.Send(number, mtext[..num]);
      if !ok {
        ok := q.Send(number, mtext[..num]);
      }
    }
  }

  // memcpy to the start of a buffer.
  method Copy(a: array<Byte>, bytes: Bytes)
    requires |bytes| <= a.Length
    modifies a
    ensures a[..] == Overlay(bytes, old(a[..]))
    ensures a[..|bytes|] == bytes
  {
    forall i | 0 <= i < |bytes| {
      a[i] := bytes[i];
    }
    assert a[..] == bytes + old(a[..])[|bytes|..];
  }
}
