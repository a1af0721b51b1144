// The transfer pipeline as a state machine: datagrams on the wire, the message
// queue and the receiver. The two msgrcv calls of a turn are separate steps,
// so datagrams may arrive between them.
module Transfer {
  import opened Bytes
  import opened Wire
  import opened Segmentation
  import opened MessageQueue
  import opened FileProcess
  import opened Sudp

  // waiting: the first msgrcv of the turn found nothing.
  datatype System = System(wire: seq<Bytes>, rx: Bytes, queue: seq<Message>, r: Receiver, waiting: bool)

  datatype Action = Arrive | TryExpected | TakeAny

  // An action that is not possible (nothing on the wire, nothing to take, or
  // the other half of the turn is due) leaves the state alone.
  function Step(s: System, a: Action): System {
    match a
    case Arrive =>
      if s.wire == [] then s
      else s.(wire := s.wire[1..], rx := Overlay(s.wire[0], s.rx), queue := s.queue + Posted(s.rx, s.wire[0]))
    case TryExpected =>
      var i := Find(s.queue, s.r.move);
      if s.waiting then s
      else if i == |s.queue| then s.(waiting := true)
      else s.(queue := Without(s.queue, i), r := Accept(s.r, s.queue[i]))
    case TakeAny =>
      if !s.waiting || s.queue == [] then s
      else s.(queue := s.queue[1..], r := Accept(s.r, s.queue[0]), waiting := false)
  }

  // A turn asks for the expected number first. Only when no such message is
  // queued does it take whatever is at the head, and the next turn asks again.
  lemma ReceiveTurns(s: System)
    ensures var t := Step(s, TryExpected);
            && (s.waiting ==> t == s)
            && (!s.waiting && (forall m | m in s.queue :: m.mtype != s.r.move) ==> t == s.(waiting := true))
            && (!s.waiting && (exists m :: m in s.queue && m.mtype == s.r.move) ==>
                  !t.waiting && |t.queue| + 1 == |s.queue|)
    ensures Step(s, TakeAny) != s ==> s.waiting && !Step(s, TakeAny).waiting
  {
    hide Accept;
    var i := Find(s.queue, s.r.move);
    if i < |s.queue| {
      assert s.queue[i] in s.queue;
    }
  }

  function Run(s: System, actions: seq<Action>): System
    decreases |actions|
  {
    if actions == [] then s else Run(Step(s, actions[0]), actions[1..])
  }

  // The receiver before its first message; rx, buff and the stale locals are
  // whatever memory held.
  predicate Idle(r: Receiver) { r.saved == 0 && r.move == 1 }

  // What the sender puts into the queue for packet k of f.
  function MessageOf(f: File, k: nat): Message
    requires k < Count(f)
  {
    Message(k + 1, Encode(PacketOf(f, k)))
  }

  function MessagesFrom(f: File, k: nat): (ms: seq<Message>)
    requires k <= Count(f)
    ensures |ms| == Count(f) - k
    decreases Count(f) - k
  {
    if k == Count(f) then [] else [MessageOf(f, k)] + MessagesFrom(f, k + 1)
  }

  function Stream(files: seq<File>): seq<Message> {
    if files == [] then [] else MessagesFrom(files[0], 0) + Stream(files[1..])
  }

  function Texts(ms: seq<Message>): (ds: seq<Bytes>)
    ensures |ds| == |ms|
  {
    seq(|ms|, i requires 0 <= i < |ms| => ms[i].mtext)
  }

  // The datagrams of all files, in the order file_thread sends them.
  function AllDatagrams(files: seq<File>): seq<Bytes> {
    if files == [] then [] else Datagrams(files[0]) + AllDatagrams(files[1..])
  }

  predicate AllSendable(files: seq<File>) {
    forall f | f in files :: f.Sendable()
  }

  // The job queued for a file received in full.
  function ReportOf(dir: Bytes, f: File): Completion { Completion(SavePath(dir, f.name), f.data) }

  function Reports(dir: Bytes, files: seq<File>): (cs: seq<Completion>)
    ensures |cs| == |files|
  {
    if files == [] then [] else [ReportOf(dir, files[0])] + Reports(dir, files[1..])
  }

  lemma ReportsSplit(dir: Bytes, files: seq<File>)
    requires files != []
    ensures Reports(dir, files) == [ReportOf(dir, files[0])] + Reports(dir, files[1..])
  {
  }

  lemma ReportsOfHead(dir: Bytes, a: seq<File>, b: seq<File>)
    requires a != []
    ensures Reports(dir, a + b) == [ReportOf(dir, a[0])] + Reports(dir, a[1..] + b)
  {
    assert (a + b)[0] == a[0] && (a + b)[1..] == a[1..] + b;
    ReportsSplit(dir, a + b);
  }

  lemma Associates<T>(a: seq<T>, b: seq<T>, c: seq<T>)
    ensures a + (b + c) == (a + b) + c
  {
  }

  lemma {:induction false} ReportsConcat(dir: Bytes, a: seq<File>, b: seq<File>)
    ensures Reports(dir, a + b) == Reports(dir, a) + Reports(dir, b)
  {
    if a == [] {
      assert a + b == b;
    } else {
      hide Reports, ReportOf;
      ReportsConcat(dir, a[1..], b);
      ReportsSplit(dir, a);
      ReportsOfHead(dir, a, b);
      Associates([ReportOf(dir, a[0])], Reports(dir, a[1..]), Reports(dir, b));
    }
  }

  lemma OneReport(dir: Bytes, f: File)
    ensures Reports(dir, [f]) == [ReportOf(dir, f)]
  {
  }

  lemma TextsConcat(a: seq<Message>, b: seq<Message>)
    ensures Texts(a + b) == Texts(a) + Texts(b)
  {
  }

  lemma {:induction false} TextsOfFile(f: File, k: nat)
    requires k <= Count(f)
    ensures Texts(MessagesFrom(f, k)) == DatagramsFrom(f, k)
    decreases Count(f) - k
  {
    hide Encode, PacketOf, Count;
    if k < Count(f) {
      TextsOfFile(f, k + 1);
      TextsConcat([MessageOf(f, k)], MessagesFrom(f, k + 1));
      assert Texts([MessageOf(f, k)]) == [Encode(PacketOf(f, k))];
    }
  }

  lemma {:induction false} WireOfStream(files: seq<File>)
    ensures Texts(Stream(files)) == AllDatagrams(files)
  {
    hide Texts, MessagesFrom, DatagramsFrom;
    if files == [] {
      TextsConcat([], []);
    } else {
      WireOfStream(files[1..]);
      TextsOfFile(files[0], 0);
      TextsConcat(MessagesFrom(files[0], 0), Stream(files[1..]));
    }
  }

  // ---- one message ----

  // What the receiver reads from its buffer once packet k of f was copied there.
  lemma MessageFields(f: File, k: nat, buffer: Bytes)
    requires f.Sendable() && k < Count(f)
    ensures var v := Overlay(MessageOf(f, k).mtext, buffer);
            && PackTotal(SizeOf(v)) == Count(f)
            && NameLengthOf(v) == |f.name| && NameOf(v) == f.name
            && PayloadAt(v, |f.name|) == Chunk(f, k)
  {
    PacketFields(f, k);
    CountIsTotal(f);
    DecodeEncode(PacketOf(f, k), Overlay(Encode(PacketOf(f, k)), buffer));
    hide *;
  }

  lemma PacketFields(f: File, k: nat)
    requires k < Count(f)
    ensures var p := PacketOf(f, k);
            && MessageOf(f, k) == Message(k + 1, Encode(p))
            && p.number == k + 1 && p.size == |f.data| && p.name == f.name && p.payload == Chunk(f, k)
  {
  }

  lemma CountIsTotal(f: File)
    requires f.Sendable()
    ensures PackTotal(|f.data|) == Count(f) >= 1
  {
    SegmentationIsExact(f);
  }

  // A message that opens its file, read from any buffer.
  lemma OpeningMessage(r: Receiver, f: File, k: nat)
    requires f.Sendable() && k < Count(f)
    requires r.saved == 0 || k == 0
    ensures var w := Append(Begin(r, MessageOf(f, k)));
            && w.saved == 1 && w.move == k + 2 && w.total == Count(f)
            && w.nameLength == |f.name| && w.path == SavePath(r.dir, f.name)
            && w.content == Chunk(f, k) && w.done == r.done && w.dir == r.dir
  {
    MessageFields(f, k, r.buff);
    PacketFields(f, k);
    hide MessageOf, Encode, PacketOf, Overlay, SizeOf, NameLengthOf, NameOf, PayloadAt, PackTotal, Count, Chunk, SavePath;
  }

  // A later message of the open file.
  lemma FollowingMessage(r: Receiver, f: File, k: nat)
    requires f.Sendable() && 0 < k < Count(f)
    requires r.saved != 0 && r.nameLength == |f.name|
    ensures var w := Append(Begin(r, MessageOf(f, k)));
            && w.saved == r.saved + 1 && w.move == k + 2 && w.total == r.total
            && w.nameLength == r.nameLength && w.path == r.path
            && w.content == r.content + Chunk(f, k) && w.done == r.done && w.dir == r.dir
  {
    MessageFields(f, k, r.buff);
    PacketFields(f, k);
    hide MessageOf, Encode, PacketOf, Overlay, SizeOf, NameLengthOf, NameOf, PayloadAt, PackTotal, Count, Chunk, SavePath;
  }

  // c packets of f have been written, with this content.
  predicate Within(r: Receiver, f: File, c: nat, content: Bytes) {
    && 0 < c == r.saved && r.total == Count(f)
    && r.nameLength == |f.name| && r.path == SavePath(r.dir, f.name) && r.content == content
  }

  // The receiver expects packet k of f, all earlier ones being written.
  predicate Expects(r: Receiver, f: File, k: nat)
    requires k <= Count(f)
  {
    if k == 0 then Idle(r) else Within(r, f, k, Sent(f, k)) && r.move == k + 1
  }

  // What the checks do with the state w after the first k + 1 packets of f.
  lemma CheckInOrder(w: Receiver, f: File, k: nat)
    requires f.Sendable() && k < Count(f)
    requires Within(w, f, k + 1, Sent(f, k + 1)) && w.move == k + 2
    ensures var t := Check(w);
            && t.dir == w.dir
            && if k + 1 == Count(f)
               then Idle(t) && t.done == w.done + [Completion(w.path, f.data)]
               else Expects(t, f, k + 1) && t.done == w.done
  {
  }

  lemma InOrderMessage(r: Receiver, f: File, k: nat)
    requires f.Sendable() && k < Count(f) && Expects(r, f, k)
    ensures var t := Accept(r, MessageOf(f, k));
            && t.dir == r.dir
            && if k + 1 == Count(f)
               then Idle(t) && t.done == r.done + [ReportOf(r.dir, f)]
               else Expects(t, f, k + 1) && t.done == r.done
  {
    hide Encode, Begin, Append, Check, MessageOf, SavePath, Chunk;
    if k == 0 {
      OpeningMessage(r, f, k);
    } else {
      FollowingMessage(r, f, k);
    }
    SentExtends(f, k);
    CheckInOrder(Append(Begin(r, MessageOf(f, k))), f, k);
  }

  // ---- in-order lossless channel ----

  // The stream from packet k of file i on.
  function StreamFrom(files: seq<File>, i: nat, k: nat): seq<Message>
    requires i <= |files|
    requires i < |files| ==> k <= Count(files[i])
  {
    if i == |files| then [] else MessagesFrom(files[i], k) + Stream(files[i + 1..])
  }

  lemma StreamHead(files: seq<File>, i: nat, k: nat)
    requires i < |files| && k < Count(files[i])
    ensures StreamFrom(files, i, k) == [MessageOf(files[i], k)] + StreamFrom(files, i, k + 1)
  {
    hide MessageOf, Stream, Count;
    Associates([MessageOf(files[i], k)], MessagesFrom(files[i], k + 1), Stream(files[i + 1..]));
  }

  lemma StreamNextFile(files: seq<File>, i: nat)
    requires i < |files|
    ensures StreamFrom(files, i, Count(files[i])) == StreamFrom(files, i + 1, 0)
  {
    assert MessagesFrom(files[i], Count(files[i])) == [];
    if i + 1 < |files| {
      assert files[i + 1..][0] == files[i + 1] && files[i + 1..][1..] == files[i + 2..];
    }
  }

  // A message some sender produced.
  ghost predicate Genuine(m: Message) {
    exists f: File, k: nat :: f.Sendable() && k < Count(f) && m == MessageOf(f, k)
  }

  lemma PostedGenuine(m: Message, rx: Bytes)
    requires Genuine(m)
    ensures Posted(rx, m.mtext) == [m]
  {
    hide Encode, Posted, Chunk;
    var f: File, k: nat :| f.Sendable() && k < Count(f) && m == MessageOf(f, k);
    PostedEncoded(PacketOf(f, k), rx);
  }

  lemma {:induction false} FileGenuine(f: File, k: nat)
    requires f.Sendable() && k <= Count(f)
    ensures forall m | m in MessagesFrom(f, k) :: Genuine(m)
    decreases Count(f) - k
  {
    hide MessageOf;
    if k < Count(f) {
      FileGenuine(f, k + 1);
      assert Genuine(MessageOf(f, k));
    }
  }

  lemma {:induction false} StreamGenuine(files: seq<File>)
    requires AllSendable(files)
    ensures forall m | m in Stream(files) :: Genuine(m)
  {
    hide MessagesFrom;
    if files != [] {
      FileGenuine(files[0], 0);
      StreamGenuine(files[1..]);
    }
  }

  // A position in the files: packet k of file i is the next one to consume.
  datatype Position = Position(file: nat, packet: nat)

  predicate At(files: seq<File>, p: Position) {
    && p.file <= |files|
    && if p.file < |files| then p.packet < Count(files[p.file]) else p.packet == 0
  }

  function Next(files: seq<File>, p: Position): Position
    requires At(files, p) && p.file < |files|
  {
    if p.packet + 1 < Count(files[p.file]) then Position(p.file, p.packet + 1) else Position(p.file + 1, 0)
  }

  function Rest(files: seq<File>, p: Position): seq<Message>
    requires At(files, p)
  {
    StreamFrom(files, p.file, p.packet)
  }

  // The finished files are reported and the open one is written up to p.
  predicate ReceiverAt(dir: Bytes, files: seq<File>, r: Receiver, p: Position)
    requires At(files, p)
  {
    && (if p.file < |files| then Expects(r, files[p.file], p.packet) else Idle(r))
    && r.dir == dir
    && r.done == Reports(dir, files[..p.file])
  }

  // The queue is the next contiguous run of what is still to be consumed and
  // the wire holds all that follows.
  predicate ChannelHolds(queue: seq<Message>, wire: seq<Bytes>, rest: seq<Message>) {
    && |queue| <= |rest|
    && queue == rest[..|queue|]
    && wire == Texts(rest[|queue|..])
  }

  predicate InOrder(dir: Bytes, files: seq<File>, s: System, p: Position) {
    At(files, p) && ReceiverAt(dir, files, s.r, p) && ChannelHolds(s.queue, s.wire, Rest(files, p))
  }

  lemma ChannelArrive(s: System, rest: seq<Message>)
    requires ChannelHolds(s.queue, s.wire, rest) && s.wire != []
    requires forall m | m in rest :: Genuine(m)
    ensures var t := Step(s, Arrive); ChannelHolds(t.queue, t.wire, rest) && t.r == s.r
  {
    hide Genuine, Posted;
    var n := |s.queue|;
    assert rest[n..][0] == rest[n];
    PostedGenuine(rest[n], s.rx);
    assert rest[..n + 1] == rest[..n] + [rest[n]];
    assert Texts(rest[n..])[1..] == Texts(rest[n + 1..]);
  }

  lemma ChannelTake(s: System, t: System, rest: seq<Message>)
    requires ChannelHolds(s.queue, s.wire, rest) && s.queue != []
    requires t.queue == s.queue[1..] && t.wire == s.wire
    ensures ChannelHolds(t.queue, t.wire, rest[1..])
  {
    assert s.queue[1..] == rest[1..][..|t.queue|];
    assert rest[|s.queue|..] == rest[1..][|t.queue|..];
  }

  lemma NextMessage(files: seq<File>, p: Position)
    requires AllSendable(files) && At(files, p) && p.file < |files|
    ensures At(files, Next(files, p))
    ensures Rest(files, p) == [MessageOf(files[p.file], p.packet)] + Rest(files, Next(files, p))
  {
    hide MessageOf;
    StreamHead(files, p.file, p.packet);
    StreamNextFile(files, p.file);
    if p.file + 1 < |files| {
      assert files[p.file + 1] in files;
    }
  }

  lemma RestGenuine(files: seq<File>, p: Position)
    requires AllSendable(files) && At(files, p)
    ensures forall m | m in Rest(files, p) :: Genuine(m)
  {
    hide MessagesFrom, Stream, Genuine;
    if p.file < |files| {
      FileGenuine(files[p.file], p.packet);
      StreamGenuine(files[p.file + 1..]);
    }
  }

  // Whichever msgrcv runs, it takes the head: the expected packet.
  lemma HeadIsExpected(dir: Bytes, files: seq<File>, s: System, p: Position)
    requires AllSendable(files) && InOrder(dir, files, s, p) && s.queue != []
    ensures p.file < |files|
    ensures s.queue[0] == MessageOf(files[p.file], p.packet) == Rest(files, p)[0]
    ensures s.r.move == s.queue[0].mtype && Find(s.queue, s.r.move) == 0
  {
    hide Encode, Stream, MessagesFrom;
    NextMessage(files, p);
  }

  lemma ReceiveInOrder(dir: Bytes, files: seq<File>, r: Receiver, p: Position)
    requires AllSendable(files) && At(files, p) && p.file < |files| && ReceiverAt(dir, files, r, p)
    ensures At(files, Next(files, p))
    ensures ReceiverAt(dir, files, Accept(r, MessageOf(files[p.file], p.packet)), Next(files, p))
  {
    hide Accept, MessageOf, Rest, Within, Idle, Reports, ReportOf, Count, Chunk;
    NextMessage(files, p);
    assert files[p.file] in files;
    InOrderMessage(r, files[p.file], p.packet);
    assert files[..p.file + 1] == files[..p.file] + [files[p.file]];
    ReportsConcat(dir, files[..p.file], [files[p.file]]);
    OneReport(dir, files[p.file]);
  }

  lemma TakeInOrder(dir: Bytes, files: seq<File>, s: System, t: System, p: Position)
    requires AllSendable(files) && InOrder(dir, files, s, p) && s.queue != []
    requires t.queue == s.queue[1..] && t.wire == s.wire && t.r == Accept(s.r, s.queue[0])
    ensures p.file < |files| && InOrder(dir, files, t, Next(files, p))
  {
    hide Accept, MessageOf, Find, Rest, ReceiverAt, ChannelHolds;
    HeadIsExpected(dir, files, s, p);
    NextMessage(files, p);
    ReceiveInOrder(dir, files, s.r, p);
    ChannelTake(s, t, Rest(files, p));
  }

  lemma StepInOrder(dir: Bytes, files: seq<File>, s: System, a: Action, p: Position) returns (p': Position)
    requires AllSendable(files) && InOrder(dir, files, s, p)
    ensures InOrder(dir, files, Step(s, a), p')
  {
    hide Rest, ReceiverAt, ChannelHolds, MessageOf, Posted, Accept, Overlay;
    p' := p;
    if a == Arrive && s.wire != [] {
      RestGenuine(files, p);
      ChannelArrive(s, Rest(files, p));
    } else if a == TryExpected && !s.waiting && s.queue != [] {
      HeadIsExpected(dir, files, s, p);
      assert Without(s.queue, 0) == s.queue[1..];
      TakeInOrder(dir, files, s, Step(s, a), p);
      p' := Next(files, p);
    } else if a == TakeAny && s.waiting && s.queue != [] {
      TakeInOrder(dir, files, s, Step(s, a), p);
      p' := Next(files, p);
    }
  }

  lemma {:induction false} RunInOrder(dir: Bytes, files: seq<File>, s: System, actions: seq<Action>, p: Position)
      returns (p': Position)
    requires AllSendable(files) && InOrder(dir, files, s, p)
    ensures InOrder(dir, files, Run(s, actions), p')
    decreases |actions|
  {
    hide InOrder, Step;
    p' := p;
    if actions != [] {
      var q := StepInOrder(dir, files, s, actions[0], p);
      p' := RunInOrder(dir, files, Step(s, actions[0]), actions[1..], q);
    }
  }

  // The pipeline before anything was sent.
  predicate Start(dir: Bytes, s: System) {
    s.queue == [] && Idle(s.r) && s.r.dir == dir && s.r.done == []
  }

  lemma StartInOrder(dir: Bytes, files: seq<File>, start: System)
    requires AllSendable(files)
    requires Start(dir, start) && start.wire == AllDatagrams(files)
    ensures InOrder(dir, files, start, Position(0, 0))
  {
    hide MessagesFrom, Texts, AllDatagrams;
    WireOfStream(files);
    if files != [] {
      assert files[0] in files;
    }
    assert Rest(files, Position(0, 0)) == Stream(files);
    assert Stream(files)[0..] == Stream(files);
  }

  // Over a channel that neither loses nor reorders, whatever the interleaving
  // of arrivals and receives: the reported files are a prefix of those sent,
  // with their exact contents, and all of them once wire and queue are empty.
  lemma LosslessTransfer(dir: Bytes, files: seq<File>, start: System, actions: seq<Action>)
    requires AllSendable(files)
    requires Start(dir, start) && start.wire == AllDatagrams(files)
    ensures var s := Run(start, actions);
            && (exists p :: InOrder(dir, files, s, p))
            && s.r.done <= Reports(dir, files)
            && (s.wire == [] && s.queue == [] ==> s.r.done == Reports(dir, files))
  {
    hide AllDatagrams, Run, Start, InOrder, Reports;
    StartInOrder(dir, files, start);
    var p := RunInOrder(dir, files, start, actions, Position(0, 0));
    InOrderReports(dir, files, Run(start, actions), p);
  }

  lemma InOrderReports(dir: Bytes, files: seq<File>, s: System, p: Position)
    requires AllSendable(files) && InOrder(dir, files, s, p)
    ensures s.r.done <= Reports(dir, files)
    ensures s.wire == [] && s.queue == [] ==> s.r.done == Reports(dir, files)
  {
    hide Rest, Expects, Idle, Reports, MessageOf, Texts;
    assert files == files[..p.file] + files[p.file..];
    ReportsConcat(dir, files[..p.file], files[p.file..]);
    assert |s.queue| + |s.wire| == |Rest(files, p)|;
    if p.file < |files| {
      NextMessage(files, p);
    } else {
      assert files[..p.file] == files;
    }
  }

  // ---- progress ----

  // Bound on the effective steps left: a datagram can still arrive, be looked
  // for in vain and be taken.
  function Measure(s: System): nat { 3 * |s.wire| + 2 * |s.queue| + if s.waiting then 0 else 1 }

  lemma StepProgress(s: System, a: Action)
    ensures Step(s, a) == s || Measure(Step(s, a)) < Measure(s)
  {
    hide Accept, Overlay, NumberOf;
  }

  lemma StuckMeansDrained(s: System)
    requires forall a: Action :: Step(s, a) == s
    ensures s.wire == [] && s.queue == []
  {
    hide Accept, Posted, Overlay;
    assert Step(s, Arrive) == s && Step(s, TryExpected) == s && Step(s, TakeAny) == s;
  }

  // Every step that has an effect brings the run closer to its end, and where
  // no step has one all files have been reported: whatever the schedule, a run
  // that goes on while it can delivers everything.
  lemma EveryFileArrives(dir: Bytes, files: seq<File>, start: System, actions: seq<Action>)
    requires AllSendable(files)
    requires Start(dir, start) && start.wire == AllDatagrams(files)
    ensures var s := Run(start, actions);
            && (forall a :: Step(s, a) == s || Measure(Step(s, a)) < Measure(s))
            && ((forall a :: Step(s, a) == s) ==> s.r.done == Reports(dir, files))
  {
    hide Run, Step, Measure, Start, AllDatagrams, InOrder, Reports;
    var s := Run(start, actions);
    LosslessTransfer(dir, files, start, actions);
    forall a
      ensures Step(s, a) == s || Measure(Step(s, a)) < Measure(s)
    {
      StepProgress(s, a);
    }
    if forall a :: Step(s, a) == s {
      StuckMeansDrained(s);
    }
  }
}
