// What the assumptions of the transfer theorems are needed for: two runs in
// which a file is reported complete with a packet of the next file inside it.
module Breakage {
  import opened Wire
  import opened Segmentation
  import opened MessageQueue
  import opened FileProcess
  import opened Transfer
  import opened Lossy

  // Packet k of b arrives in place of the last packet of a.
  lemma ForeignLastPacket(r: Receiver, a: File, b: File, k: nat)
    requires a.Sendable() && b.Sendable() && |a.name| == |b.name|
    requires Count(a) == 3 && 1 <= k < Count(b) && Expects(r, a, 2)
    ensures var t := Accept(r, MessageOf(b, k));
            Idle(t) && t.done == r.done + [Completion(SavePath(r.dir, a.name), Sent(a, 2) + Chunk(b, k))]
  {
    hide MessageOf, Begin, Append, Chunk, Sent, SavePath;
    FollowingMessage(r, b, k);
    var w := Append(Begin(r, MessageOf(b, k)));
    assert w.total == w.saved == 3;
  }

  // The receiver after the first two packets of a three-packet file.
  lemma TwoPackets(r: Receiver, a: File)
    requires a.Sendable() && Count(a) == 3 && Idle(r)
    ensures var t := Accept(Accept(r, MessageOf(a, 0)), MessageOf(a, 1));
            Expects(t, a, 2) && t.done == r.done && t.dir == r.dir
  {
    hide MessageOf, Accept, Within, Sent;
    InOrderMessage(r, a, 0);
    InOrderMessage(Accept(r, MessageOf(a, 0)), a, 1);
  }

  // The last packet of a is lost and b is already queued: the typed msgrcv for
  // number 3 takes the third packet of b, past its first two.
  lemma TypedReceiveSteals(s: System, a: File, b: File)
    requires a.Sendable() && b.Sendable() && |a.name| == |b.name| && Count(a) == Count(b) == 3
    requires Idle(s.r) && !s.waiting
    requires s.queue == [MessageOf(a, 0), MessageOf(a, 1), MessageOf(b, 0), MessageOf(b, 1), MessageOf(b, 2)]
    ensures var t := Run(s, [TryExpected, TryExpected, TryExpected]);
            && t.r.done == s.r.done + [Completion(SavePath(s.r.dir, a.name), Sent(a, 2) + Chunk(b, 2))]
            && t.queue == [MessageOf(b, 0), MessageOf(b, 1)]
  {
    hide MessageOf, Accept, Expects, SavePath, Sent, Chunk, Step, Run, Find, Without;
    var rest := [MessageOf(b, 0), MessageOf(b, 1), MessageOf(b, 2)];
    assert s.queue == [MessageOf(a, 0), MessageOf(a, 1)] + rest;
    FirstTwo(s, a, rest);
    var t := Step(Step(s, TryExpected), TryExpected);
    ThirdIsStolen(t, a, b);
    ThreeSteps(s);
  }

  // The first two packets of a are taken from the head.
  lemma FirstTwo(s: System, a: File, rest: seq<Message>)
    requires a.Sendable() && Count(a) == 3 && Idle(s.r) && !s.waiting
    requires s.queue == [MessageOf(a, 0), MessageOf(a, 1)] + rest
    ensures var t := Step(Step(s, TryExpected), TryExpected);
            && !t.waiting && t.queue == rest && Expects(t.r, a, 2) && t.r.done == s.r.done && t.r.dir == s.r.dir
  {
    hide MessageOf, Accept, Within, SavePath, Sent, Chunk, Step, Find;
    var s1 := Step(s, TryExpected);
    OneTake(s, a, 0, a, 0, 0);
    InOrderMessage(s.r, a, 0);
    assert s1.queue == [MessageOf(a, 1)] + rest;
    OneTake(s1, a, 1, a, 1, 0);
    InOrderMessage(s1.r, a, 1);
    assert Without(s1.queue, 0) == rest;
  }

  lemma Numbered(f: File, k: nat)
    requires k < Count(f)
    ensures MessageOf(f, k).mtype == k + 1
  {
    hide Encode, PacketOf, Count;
  }

  lemma ThirdIsStolen(s: System, a: File, b: File)
    requires a.Sendable() && b.Sendable() && |a.name| == |b.name| && Count(a) == Count(b) == 3
    requires Expects(s.r, a, 2) && !s.waiting
    requires s.queue == [MessageOf(b, 0), MessageOf(b, 1), MessageOf(b, 2)]
    ensures var t := Step(s, TryExpected);
            && t.r.done == s.r.done + [Completion(SavePath(s.r.dir, a.name), Sent(a, 2) + Chunk(b, 2))]
            && t.queue == [MessageOf(b, 0), MessageOf(b, 1)]
  {
    hide MessageOf, Accept, Expects, SavePath, Sent, Chunk, Step, Find, Count;
    Numbered(b, 0);
    Numbered(b, 1);
    OneTake(s, a, 2, b, 2, 2);
    ForeignLastPacket(s.r, a, b, 2);
    assert Without(s.queue, 2) == [MessageOf(b, 0), MessageOf(b, 1)];
  }

  // A turn that expects packet k of a finds packet j of f at place i.
  lemma OneTake(s: System, a: File, k: nat, f: File, j: nat, i: nat)
    requires k < Count(a) && j < Count(f) && Expects(s.r, a, k) && !s.waiting && j == k
    requires i < |s.queue| && s.queue[i] == MessageOf(f, j)
    requires forall x | 0 <= x < i :: s.queue[x].mtype != k + 1
    ensures var t := Step(s, TryExpected);
            t.r == Accept(s.r, MessageOf(f, j)) && t.queue == Without(s.queue, i) && !t.waiting
  {
    hide Encode, Accept;
    FindIsFirst(s.queue, k + 1, i);
  }

  lemma ThreeSteps(s: System)
    ensures Run(s, [TryExpected, TryExpected, TryExpected])
            == Step(Step(Step(s, TryExpected), TryExpected), TryExpected)
  {
    hide Step;
    var s1 := Step(s, TryExpected);
    var s2 := Step(s1, TryExpected);
    var s3 := Step(s2, TryExpected);
    assert Run(s2, [TryExpected]) == Run(s3, []);
    assert Run(s1, [TryExpected, TryExpected]) == Run(s2, [TryExpected]);
    assert Run(s, [TryExpected, TryExpected, TryExpected]) == Run(s1, [TryExpected, TryExpected]);
  }

  // Even a receiver that keeps up reports a, with packet 2 of b inside, when
  // the last packet of a and the first packet of b are both lost.
  lemma LostBoundary(r: Receiver, a: File, b: File)
    requires a.Sendable() && b.Sendable() && |a.name| == |b.name| && Count(a) == 3 && Count(b) >= 2
    requires Idle(r)
    ensures Feed(r, [MessageOf(a, 0), MessageOf(a, 1), MessageOf(b, 1)]).done
            == r.done + [Completion(SavePath(r.dir, a.name), Sent(a, 2) + Chunk(b, 1))]
  {
    hide MessageOf, Accept, SavePath, Sent, Chunk, Within;
    TwoPackets(r, a);
    var t := Accept(Accept(r, MessageOf(a, 0)), MessageOf(a, 1));
    ForeignLastPacket(t, a, b, 1);
    FeedThree(r, MessageOf(a, 0), MessageOf(a, 1), MessageOf(b, 1));
  }

  lemma FeedThree(r: Receiver, x: Message, y: Message, z: Message)
    ensures Feed(r, [x, y, z]) == Accept(Accept(Accept(r, x), y), z)
  {
    hide Accept;
    assert [x, y, z] == [x] + [y] + [z];
    FeedConcat(r, [x] + [y], [z]);
    FeedConcat(r, [x], [y]);
  }

  // A concrete pair of files: 2049 ones called "a" and 2049 twos called "b".
  function Ones(): File { File([97], seq(2049, _ => 1)) }
  function Twos(): File { File([98], seq(2049, _ => 2)) }

  // With those, what is reported for "a" is not what was sent.
  lemma LostBoundaryConcrete(r: Receiver)
    requires Idle(r) && r.done == []
    ensures var a, b := Ones(), Twos();
            && Count(a) == 3 && Count(b) == 3
            && Feed(r, [MessageOf(a, 0), MessageOf(a, 1), MessageOf(b, 1)]).done
               == [Completion(SavePath(r.dir, a.name), Sent(a, 2) + Chunk(b, 1))]
            && Sent(a, 2) + Chunk(b, 1) != a.data
  {
    hide Encode, Feed, SavePath;
    LostBoundary(r, Ones(), Twos());
    assert |Sent(Ones(), 2) + Chunk(Twos(), 1)| == 3072;
  }
}
