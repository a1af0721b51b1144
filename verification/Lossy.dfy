// A channel that keeps the order but loses packets, read by a receiver that
// keeps up: which files are reported for which pattern of losses.
module Lossy {
  import opened Bytes
  import opened Wire
  import opened Segmentation
  import opened MessageQueue
  import opened FileProcess
  import opened Sudp
  import opened Transfer

  // mask[k] says that packet k of a file arrives.
  type Mask = seq<bool>

  function Kept(f: File, mask: Mask, k: nat): seq<Message>
    requires |mask| == Count(f) && k <= Count(f)
    decreases Count(f) - k
  {
    if k == Count(f) then []
    else (if mask[k] then [MessageOf(f, k)] else []) + Kept(f, mask, k + 1)
  }

  predicate NoneFrom(mask: Mask, k: nat) { forall i | k <= i < |mask| :: !mask[i] }

  predicate AllFrom(mask: Mask, k: nat) { forall i | k <= i < |mask| :: mask[i] }

  predicate Fits(files: seq<File>, masks: seq<Mask>) {
    |masks| == |files| && forall i | 0 <= i < |files| :: |masks[i]| == Count(files[i])
  }

  lemma FirstAndRest(files: seq<File>, masks: seq<Mask>)
    requires files != [] && AllSendable(files) && Fits(files, masks)
    ensures masks != [] && masks == [masks[0]] + masks[1..]
    ensures files[0].Sendable() && |masks[0]| == Count(files[0])
    ensures AllSendable(files[1..]) && Fits(files[1..], masks[1..])
  {
    assert files[0] in files && forall g | g in files[1..] :: g in files;
  }

  function KeptStream(files: seq<File>, masks: seq<Mask>): seq<Message>
    requires Fits(files, masks)
  {
    if files == [] then [] else Kept(files[0], masks[0], 0) + KeptStream(files[1..], masks[1..])
  }

  // The files of which no packet was lost.
  function Intact(files: seq<File>, masks: seq<Mask>): seq<File>
    requires Fits(files, masks)
  {
    if files == [] then []
    else (if AllFrom(masks[0], 0) then [files[0]] else []) + Intact(files[1..], masks[1..])
  }

  // Is a file still open after the packets of one more file went by?
  predicate OpenAfter(open: bool, mask: Mask) {
    if NoneFrom(mask, 0) then open else !mask[|mask| - 1]
  }

  // Whenever a file is left open because its last packet was lost, the next
  // packet to arrive from a later file is that file's first one.
  predicate Separated(open: bool, masks: seq<Mask>)
    decreases |masks|
  {
    masks == []
    || (&& (open && !NoneFrom(masks[0], 0) ==> masks[0][0])
        && Separated(OpenAfter(open, masks[0]), masks[1..]))
  }

  // Losing no first packet is enough.
  lemma {:induction false} FirstPacketsSeparate(open: bool, masks: seq<Mask>)
    requires forall mask | mask in masks :: mask != [] && mask[0]
    ensures Separated(open, masks)
    decreases |masks|
  {
    if masks != [] {
      assert forall mask | mask in masks[1..] :: mask in masks;
      FirstPacketsSeparate(OpenAfter(open, masks[0]), masks[1..]);
    }
  }

  // The receiver fed one message after the other.
  function Feed(r: Receiver, ms: seq<Message>): Receiver
    decreases |ms|
  {
    if ms == [] then r else Feed(Accept(r, ms[0]), ms[1..])
  }

  lemma {:induction false} FeedConcat(r: Receiver, a: seq<Message>, b: seq<Message>)
    ensures Feed(r, a + b) == Feed(Feed(r, a), b)
    decreases |a|
  {
    hide Accept;
    if a == [] {
      assert a + b == b;
    } else {
      FeedConcat(Accept(r, a[0]), a[1..], b);
      assert (a + b)[1..] == a[1..] + b;
    }
  }

  // ---- the losses alone ----

  // How many packets the receiver has counted for the open file, and how many
  // it expects of it.
  datatype Counters = Closed | Open(saved: nat, total: nat) {
    // An open file always misses at least one packet.
    predicate Sound() { Open? ==> 0 < saved < total }
  }

  // Packet k of a file of n packets arrives: it opens that file, or counts for
  // the open one, which is closed when its count is full or its last number
  // seen.
  function Tick(c: Counters, n: nat, k: nat): (t: Counters)
    ensures k < n && c.Sound() ==> t.Sound()
  {
    var opens := c.Closed? || k == 0;
    var saved := if opens then 1 else c.saved + 1;
    var total := if opens then n else c.total;
    if total == saved || total == k + 1 then Closed else Open(saved, total)
  }

  // The counters after the packets of a file from k on.
  function CountersAfter(c: Counters, mask: Mask, k: nat): (t: Counters)
    ensures c.Sound() ==> t.Sound()
    decreases |mask| - k
  {
    if k >= |mask| then c
    else CountersAfter(if mask[k] then Tick(c, |mask|, k) else c, mask, k + 1)
  }

  // Number of packets from k to before `to` that arrive.
  function Arriving(mask: Mask, k: nat, to: nat): nat
    requires to <= |mask|
    decreases if k < to then to - k else 0
  {
    if k >= to then 0 else (if mask[k] then 1 else 0) + Arriving(mask, k + 1, to)
  }

  // Where counting for an open file of `total` packets ends: at a packet with
  // its last number, if that arrives.
  function CountedUpTo(mask: Mask, total: nat): (to: nat)
    ensures to <= |mask|
  {
    if 0 < total <= |mask| && mask[total - 1] then total else |mask|
  }

  // A file was left open, packet 1 of the next one is lost, and as many packets
  // as are missing arrive before counting ends.
  predicate WrongReport(c: Counters, mask: Mask) {
    && c.Open? && mask != [] && !mask[0]
    && Arriving(mask, 0, CountedUpTo(mask, c.total)) >= c.total - c.saved
  }

  // No wrong report is made anywhere along the files, of which c is open.
  predicate Clean(c: Counters, masks: seq<Mask>)
    decreases |masks|
  {
    masks == [] || (!WrongReport(c, masks[0]) && Clean(CountersAfter(c, masks[0], 0), masks[1..]))
  }

  // A file that opened itself stays open when its last packet is lost.
  lemma {:induction false} OwnCounters(c: Counters, mask: Mask, k: nat)
    requires k < |mask| && c.Open? ==> (k == 0 && mask[0]) || (c.total == |mask| && 0 < c.saved <= k)
    ensures var t := CountersAfter(c, mask, k);
            if NoneFrom(mask, k) then t == c else t.Open? <==> !mask[|mask| - 1]
    decreases |mask| - k
  {
    if k < |mask| {
      OwnCounters(if mask[k] then Tick(c, |mask|, k) else c, mask, k + 1);
    }
  }

  // Separated losses rule wrong reports out.
  lemma {:induction false} SeparatedIsClean(c: Counters, masks: seq<Mask>)
    requires c.Sound() && Separated(c.Open?, masks)
    ensures Clean(c, masks)
    decreases |masks|
  {
    hide CountersAfter, Arriving, CountedUpTo;
    if masks != [] {
      if c.Closed? || (masks[0] != [] && masks[0][0]) {
        OwnCounters(c, masks[0], 0);
      } else {
        NothingArrives(c, masks[0], 0);
      }
      SeparatedIsClean(CountersAfter(c, masks[0], 0), masks[1..]);
    }
  }

  lemma {:induction false} NothingArrives(c: Counters, mask: Mask, k: nat)
    requires NoneFrom(mask, k)
    ensures CountersAfter(c, mask, k) == c
    ensures forall to | k <= to <= |mask| :: Arriving(mask, k, to) == 0
    decreases |mask| - k
  {
    if k < |mask| {
      NothingArrives(c, mask, k + 1);
    }
  }

  // ---- one file ----

  // c packets of f, the last being packet k - 1, were written to the open
  // file; none of f was if c is 0.
  predicate Counted(r: Receiver, f: File, k: nat, c: nat)
    requires c <= k <= Count(f)
  {
    c > 0 ==>
      && k < Count(f)
      && Within(r, f, c, r.content)
      && (c == k ==> r.content == Sent(f, k))
  }

  // An open file always misses at least one packet.
  predicate Sane(r: Receiver) { r.saved == 0 || 0 < r.saved < r.total }

  // The counters of a receiver.
  function CountersOf(r: Receiver): (c: Counters)
    requires Sane(r)
    ensures c.Sound()
  {
    if r.saved == 0 then Closed else Open(r.saved, r.total)
  }

  lemma AcceptCounters(r: Receiver, f: File, k: nat)
    requires f.Sendable() && k < Count(f) && Sane(r)
    ensures var t := Accept(r, MessageOf(f, k));
            && Sane(t) && t.dir == r.dir
            && CountersOf(t) == Tick(CountersOf(r), Count(f), k)
  {
    hide Begin, Append, Chunk, SavePath, Encode, PacketOf;
    if r.saved == 0 || k == 0 {
      OpeningMessage(r, f, k);
    } else {
      StrayMessage(r, MessageOf(f, k));
    }
  }

  // Feeding the packets of f from k on, one packet further.
  lemma FeedNext(r: Receiver, f: File, mask: Mask, k: nat)
    requires |mask| == Count(f) && k < Count(f)
    ensures Feed(r, Kept(f, mask, k))
            == Feed(if mask[k] then Accept(r, MessageOf(f, k)) else r, Kept(f, mask, k + 1))
  {
    hide Accept, MessageOf, Count;
    if mask[k] {
      assert Kept(f, mask, k)[0] == MessageOf(f, k) && Kept(f, mask, k)[1..] == Kept(f, mask, k + 1);
    } else {
      assert Kept(f, mask, k) == Kept(f, mask, k + 1);
    }
  }

  lemma FeedEnd(r: Receiver, f: File, mask: Mask)
    requires |mask| == Count(f)
    ensures Feed(r, Kept(f, mask, Count(f))) == r
  {
  }

  // The counters are those the losses determine.
  lemma {:induction false} FeedCounters(r: Receiver, f: File, mask: Mask, k: nat)
    requires f.Sendable() && |mask| == Count(f) && k <= Count(f) && Sane(r)
    ensures var t := Feed(r, Kept(f, mask, k));
            && Sane(t) && t.dir == r.dir
            && CountersOf(t) == CountersAfter(CountersOf(r), mask, k)
    decreases Count(f) - k
  {
    hide Accept, MessageOf, Sane, CountersOf, Tick, Count, Feed, Kept;
    if k == Count(f) {
      FeedEnd(r, f, mask);
    } else {
      FeedNext(r, f, mask, k);
      if mask[k] {
        AcceptCounters(r, f, k);
        FeedCounters(Accept(r, MessageOf(f, k)), f, mask, k + 1);
      } else {
        FeedCounters(r, f, mask, k + 1);
      }
    }
  }

  lemma CheckCounted(w: Receiver, f: File, k: nat, c: nat)
    requires f.Sendable() && c <= k < Count(f)
    requires w.saved == c + 1 && w.move == k + 2 && w.total == Count(f)
    requires w.nameLength == |f.name| && w.path == SavePath(w.dir, f.name)
    requires c == k ==> w.content == Sent(f, k + 1)
    ensures var t := Check(w);
            && t.dir == w.dir
            && (k + 1 == Count(f) ==> t.saved == 0)
            && (k + 1 < Count(f) ==> t.saved != 0 && t.done == w.done && Counted(t, f, k + 1, c + 1))
            && Sane(t)
            && t.done == if c + 1 == Count(f) then w.done + Reports(w.dir, [f]) else w.done
  {
  }

  lemma KeptMessage(r: Receiver, f: File, k: nat, c: nat)
    requires f.Sendable() && c <= k < Count(f)
    requires Counted(r, f, k, c)
    requires c == 0 ==> r.saved == 0 || k == 0
    ensures var t := Accept(r, MessageOf(f, k));
            && t.dir == r.dir
            && (k + 1 == Count(f) ==> t.saved == 0)
            && (k + 1 < Count(f) ==> t.saved != 0 && t.done == r.done && Counted(t, f, k + 1, c + 1))
            && Sane(t)
            && t.done == if c + 1 == Count(f) then r.done + Reports(r.dir, [f]) else r.done
  {
    hide MessageOf, Begin, Append, Check, Reports, SavePath, Chunk;
    if c == 0 {
      OpeningMessage(r, f, k);
    } else {
      FollowingMessage(r, f, k);
    }
    SentExtends(f, k);
    CheckCounted(Append(Begin(r, MessageOf(f, k))), f, k, c);
  }

  // The packets of f from k on, c earlier ones being counted in the open
  // file: f is reported exactly when none of its packets is missing.
  lemma {:induction false} KeptFile(r: Receiver, f: File, mask: Mask, k: nat, c: nat)
    requires f.Sendable() && |mask| == Count(f) && c <= k <= Count(f)
    requires Counted(r, f, k, c)
    requires c == 0 ==> r.saved == 0 || (k == 0 && mask[0]) || NoneFrom(mask, k)
    ensures var t := Feed(r, Kept(f, mask, k));
            && t.dir == r.dir
            && (NoneFrom(mask, k) ==> t == r)
            && (!NoneFrom(mask, k) ==> Sane(t) && (t.saved == 0 <==> mask[Count(f) - 1]))
            && t.done == (if k < Count(f) && c == k && AllFrom(mask, k) then r.done + Reports(r.dir, [f]) else r.done)
    decreases Count(f) - k
  {
    hide MessageOf, Accept, Reports, Within, Chunk, Sent, Feed, Kept, Count, Counted, NoneFrom, AllFrom;
    if k == Count(f) {
      FeedEnd(r, f, mask);
      MaskEnd(mask);
    } else {
      MaskEnd(mask);
      FeedNext(r, f, mask, k);
      MaskNext(mask, k);
      if mask[k] {
        KeptMessage(r, f, k, c);
        NotCounted(Accept(r, MessageOf(f, k)), f, k + 1);
        KeptFile(Accept(r, MessageOf(f, k)), f, mask, k + 1, if k + 1 == Count(f) then 0 else c + 1);
      } else {
        StillCounted(r, f, k, c);
        KeptFile(r, f, mask, k + 1, if k + 1 == Count(f) then 0 else c);
      }
    }
  }

  lemma NotCounted(r: Receiver, f: File, k: nat)
    requires k <= Count(f)
    ensures Counted(r, f, k, 0)
  {
  }

  lemma StillCounted(r: Receiver, f: File, k: nat, c: nat)
    requires c <= k < Count(f) && Counted(r, f, k, c)
    ensures Counted(r, f, k + 1, if k + 1 == Count(f) then 0 else c)
  {
    hide Within, Sent;
  }

  lemma MaskNext(mask: Mask, k: nat)
    requires k < |mask|
    ensures NoneFrom(mask, k) <==> !mask[k] && NoneFrom(mask, k + 1)
    ensures AllFrom(mask, k) <==> mask[k] && AllFrom(mask, k + 1)
    ensures k + 1 < |mask| && mask[|mask| - 1] ==> !NoneFrom(mask, k + 1)
  {
  }

  lemma MaskEnd(mask: Mask)
    ensures NoneFrom(mask, |mask|) && AllFrom(mask, |mask|)
  {
  }

  // ---- all files ----

  lemma NothingToFeed(r: Receiver)
    ensures Feed(r, []) == r && Reports(r.dir, []) == []
  {
  }

  // ---- the pipeline ----

  // The receiver keeps up: at most one message is ever queued.
  predicate KeepsUp(s: System, actions: seq<Action>)
    decreases |actions|
  {
    |s.queue| <= 1 && (actions == [] || KeepsUp(Step(s, actions[0]), actions[1..]))
  }

  // n messages of ms were consumed one after the other.
  predicate Consumed(r0: Receiver, s: System, ms: seq<Message>, n: nat) {
    && n <= |ms|
    && s.r == Feed(r0, ms[..n])
    && ChannelHolds(s.queue, s.wire, ms[n..])
  }

  lemma TakeConsumed(r0: Receiver, s: System, t: System, ms: seq<Message>, n: nat)
    requires Consumed(r0, s, ms, n) && s.queue != []
    requires t.queue == s.queue[1..] && t.wire == s.wire && t.r == Accept(s.r, s.queue[0])
    ensures n < |ms| && Consumed(r0, t, ms, n + 1)
  {
    hide Accept, Texts;
    assert s.queue[0] == ms[n..][0] == ms[n];
    assert ms[..n + 1] == ms[..n] + [ms[n]];
    FeedConcat(r0, ms[..n], [ms[n]]);
    assert Feed(s.r, [ms[n]]) == Accept(s.r, ms[n]);
    ChannelTake(s, t, ms[n..]);
    assert ms[n..][1..] == ms[n + 1..];
  }

  lemma {:induction false} RunConsumed(r0: Receiver, s: System, actions: seq<Action>, ms: seq<Message>, n: nat)
      returns (n': nat)
    requires Consumed(r0, s, ms, n) && KeepsUp(s, actions)
    requires forall m | m in ms :: Genuine(m)
    ensures Consumed(r0, Run(s, actions), ms, n')
    decreases |actions|
  {
    hide Feed, Accept, Genuine, ChannelHolds, Posted, Overlay;
    n' := n;
    if actions != [] {
      var t := Step(s, actions[0]);
      var n1 := n;
      if actions[0] == Arrive && s.wire != [] {
        ChannelArrive(s, ms[n..]);
      } else if t.queue != s.queue {
        assert Without(s.queue, 0) == s.queue[1..];
        TakeConsumed(r0, s, t, ms, n);
        n1 := n + 1;
      }
      n' := RunConsumed(r0, t, actions[1..], ms, n1);
    }
  }

  lemma {:induction false} FeedReports(r: Receiver, ms: seq<Message>)
    ensures r.done <= Feed(r, ms).done
    decreases |ms|
  {
    hide Begin, Append;
    if ms != [] {
      AcceptReports(r, ms[0]);
      FeedReports(Accept(r, ms[0]), ms[1..]);
    }
  }

  lemma AcceptReports(r: Receiver, m: Message)
    ensures r.done <= Accept(r, m).done
  {
    hide PackTotal, SizeOf, NameLengthOf, NameOf, PayloadAt, SavePath, Overlay;
  }

  lemma {:induction false} KeptGenuine(files: seq<File>, masks: seq<Mask>)
    requires AllSendable(files) && Fits(files, masks)
    ensures forall m | m in KeptStream(files, masks) :: Genuine(m)
    decreases |files|
  {
    hide Kept, Genuine;
    if files != [] {
      FirstAndRest(files, masks);
      KeptFileGenuine(files[0], masks[0], 0);
      KeptGenuine(files[1..], masks[1..]);
    }
  }

  lemma {:induction false} KeptFileGenuine(f: File, mask: Mask, k: nat)
    requires f.Sendable() && |mask| == Count(f) && k <= Count(f)
    ensures forall m | m in Kept(f, mask, k) :: Genuine(m)
    decreases Count(f) - k
  {
    hide MessageOf;
    if k < Count(f) {
      assert Genuine(MessageOf(f, k));
      KeptFileGenuine(f, mask, k + 1);
    }
  }

  // A receiver that keeps up handles the delivered messages one by one.
  lemma KeptUpRun(files: seq<File>, masks: seq<Mask>, start: System, actions: seq<Action>)
    requires AllSendable(files) && Fits(files, masks)
    requires start.queue == [] && start.wire == Texts(KeptStream(files, masks))
    requires KeepsUp(start, actions)
    ensures var s, end := Run(start, actions), Feed(start.r, KeptStream(files, masks));
            && s.r.done <= end.done
            && (s.wire == [] && s.queue == [] ==> s.r == end)
  {
    hide KeptStream, Kept, Accept, Texts, Run, KeepsUp, Feed;
    var ms := KeptStream(files, masks);
    KeptGenuine(files, masks);
    assert ms[0..] == ms && ms[..0] == [];
    NothingToFeed(start.r);
    var n := RunConsumed(start.r, start, actions, ms, 0);
    var s := Run(start, actions);
    assert ms == ms[..n] + ms[n..];
    FeedConcat(start.r, ms[..n], ms[n..]);
    FeedReports(s.r, ms[n..]);
    if s.wire == [] && s.queue == [] {
      assert ms[n..][0..] == ms[n..];
      TextsEmpty(ms[n..]);
      assert ms[..n] == ms;
    }
  }

  lemma TextsEmpty(ms: seq<Message>)
    requires Texts(ms) == []
    ensures ms == []
  {
    assert |Texts(ms)| == |ms|;
  }

  // ---- when a first packet is lost after an unfinished file ----

  // The payloads of the first `missing` packets of f from k on that arrive.
  function StrayBytes(f: File, mask: Mask, k: nat, missing: int): Bytes
    requires |mask| == Count(f) && k <= Count(f)
    decreases Count(f) - k
  {
    if k == Count(f) || missing <= 0 then []
    else if mask[k] then Chunk(f, k) + StrayBytes(f, mask, k + 1, missing - 1)
    else StrayBytes(f, mask, k + 1, missing)
  }

  // The report of the file open in r, with packets of f at its end. Their
  // payloads are read with the name length of the open file.
  predicate ForeignReport(r: Receiver, t: Receiver, bytes: Bytes, f: File) {
    && |t.done| == |r.done| + 1 && r.done < t.done
    && t.done[|r.done|].path == r.path && r.content <= t.done[|r.done|].data
    && (r.nameLength == |f.name| ==> t.done[|r.done|].data == r.content + bytes)
  }

  // A message other than a first packet, taken while a file is open, counts
  // for that file whatever file it came from; its payload is read with the name
  // length of the open file.
  lemma StrayMessage(r: Receiver, m: Message)
    requires 0 < r.saved < r.total && m.mtype >= 2
    ensures var t, w := Accept(r, m), Append(Begin(r, m));
            && t.dir == r.dir && w.content == r.content + PayloadAt(Overlay(m.mtext, r.buff), r.nameLength)
            && (r.saved + 1 == r.total ==> t.saved == 0 && t.done == r.done + [Completion(r.path, w.content)])
            && (r.saved + 1 < r.total && m.mtype == r.total ==> t.saved == 0 && t.done == r.done)
            && (r.saved + 1 < r.total && m.mtype != r.total ==>
                  && t == w && t.done == r.done
                  && t.saved == r.saved + 1 && t.total == r.total && t.path == r.path && t.nameLength == r.nameLength)
  {
    hide PayloadAt, Overlay;
  }

  lemma StrayArrives(r: Receiver, f: File, k: nat)
    requires f.Sendable() && 1 <= k < Count(f) && 0 < r.saved < r.total
    ensures var t := Accept(r, MessageOf(f, k));
            && (r.saved + 1 == r.total ==> t.saved == 0 && ForeignReport(r, t, Chunk(f, k), f))
            && (r.saved + 1 < r.total && k + 1 == r.total ==> t.saved == 0 && t.done == r.done)
            && (r.saved + 1 < r.total && k + 1 != r.total ==>
                  && t.saved == r.saved + 1 && t.total == r.total && t.path == r.path && t.nameLength == r.nameLength
                  && t.done == r.done && r.content <= t.content
                  && (r.nameLength == |f.name| ==> t.content == r.content + Chunk(f, k)))
  {
    hide Accept, Begin, Append, Encode, PacketOf, Chunk, Count;
    StrayMessage(r, MessageOf(f, k));
    if r.nameLength == |f.name| {
      FollowingMessage(r, f, k);
    }
  }

  // Packets of f from k on, while another file is open: they complete that
  // file if and only if enough of them arrive before counting ends.
  lemma {:induction false} StrayPackets(r: Receiver, f: File, mask: Mask, k: nat)
    requires f.Sendable() && |mask| == Count(f) && 1 <= k <= Count(f)
    requires 0 < r.saved < r.total && (k >= r.total ==> !mask[r.total - 1])
    ensures var t := Feed(r, Kept(f, mask, k));
            var missing := r.total - r.saved;
            if Arriving(mask, k, CountedUpTo(mask, r.total)) >= missing
            then ForeignReport(r, t, StrayBytes(f, mask, k, missing), f)
            else t.done == r.done
    decreases Count(f) - k
  {
    hide Accept, MessageOf, Count, Chunk, Feed, Kept;
    if k == Count(f) {
      FeedEnd(r, f, mask);
    } else {
      FeedNext(r, f, mask, k);
      if !mask[k] {
        StrayPackets(r, f, mask, k + 1);
      } else {
        StrayArrives(r, f, k);
        var t := Accept(r, MessageOf(f, k));
        if t.saved == 0 {
          KeptFile(t, f, mask, k + 1, 0);
        } else {
          StrayPackets(t, f, mask, k + 1);
        }
      }
    }
  }

  // What one file does to any receiver: its own report if it is intact, and a
  // wrong report of the file left open under exactly the stated condition.
  lemma FileOutcome(r: Receiver, f: File, mask: Mask)
    requires f.Sendable() && |mask| == Count(f) && Sane(r)
    ensures var t, c := Feed(r, Kept(f, mask, 0)), CountersOf(r);
            && t.dir == r.dir && Sane(t) && CountersOf(t) == CountersAfter(c, mask, 0)
            && (!WrongReport(c, mask) ==>
                  t.done == if AllFrom(mask, 0) then r.done + Reports(r.dir, [f]) else r.done)
            && (WrongReport(c, mask) ==>
                  && !AllFrom(mask, 0) && |t.done| == |r.done| + 1
                  && ForeignReport(r, t, StrayBytes(f, mask, 1, r.total - r.saved), f))
  {
    hide MessageOf, Feed, Reports, Chunk, Within, StrayBytes, CountersAfter;
    FeedCounters(r, f, mask, 0);
    if mask[0] || r.saved == 0 {
      KeptFile(r, f, mask, 0, 0);
    } else {
      assert Kept(f, mask, 0) == Kept(f, mask, 1);
      assert Arriving(mask, 0, CountedUpTo(mask, r.total)) == Arriving(mask, 1, CountedUpTo(mask, r.total));
      StrayPackets(r, f, mask, 1);
    }
  }

  // The definitions over many files, unfolded once.
  lemma FirstOfMany(c: Counters, files: seq<File>, masks: seq<Mask>)
    requires files != [] && AllSendable(files) && Fits(files, masks)
    ensures masks != [] && files[0].Sendable() && |masks[0]| == Count(files[0])
    ensures AllSendable(files[1..]) && Fits(files[1..], masks[1..])
    ensures KeptStream(files, masks) == Kept(files[0], masks[0], 0) + KeptStream(files[1..], masks[1..])
    ensures Intact(files, masks) == (if AllFrom(masks[0], 0) then [files[0]] else []) + Intact(files[1..], masks[1..])
    ensures Clean(c, masks) <==> !WrongReport(c, masks[0]) && Clean(CountersAfter(c, masks[0], 0), masks[1..])
  {
    hide AllFrom, Kept, WrongReport, CountersAfter;
    FirstAndRest(files, masks);
  }

  lemma NoFiles(c: Counters, r: Receiver, files: seq<File>, masks: seq<Mask>)
    requires files == [] && Fits(files, masks)
    ensures Feed(r, KeptStream(files, masks)) == r && Clean(c, masks)
    ensures Intact(files, masks) == [] && Reports(r.dir, []) == []
  {
  }

  lemma {:induction false} CountReports(r: Receiver, files: seq<File>, masks: seq<Mask>)
    requires AllSendable(files) && Fits(files, masks) && Sane(r)
    ensures var t := Feed(r, KeptStream(files, masks));
            && |t.done| >= |r.done| + |Intact(files, masks)|
            && (Clean(CountersOf(r), masks) ==> t.done == r.done + Reports(r.dir, Intact(files, masks)))
            && (!Clean(CountersOf(r), masks) ==> |t.done| > |r.done| + |Intact(files, masks)|)
    decreases |files|
  {
    hide *;
    if files == [] {
      NoFiles(CountersOf(r), r, files, masks);
    } else {
      FirstOfMany(CountersOf(r), files, masks);
      var f, mask := files[0], masks[0];
      var own := if AllFrom(mask, 0) then [f] else [];
      FileOutcome(r, f, mask);
      var t := Feed(r, Kept(f, mask, 0));
      CountReports(t, files[1..], masks[1..]);
      FeedConcat(r, Kept(f, mask, 0), KeptStream(files[1..], masks[1..]));
      ReportsConcat(r.dir, own, Intact(files[1..], masks[1..]));
      NoReports(r.dir);
    }
  }

  lemma NoReports(dir: Bytes)
    ensures Reports(dir, []) == []
  {
  }

  // For every pattern of losses: the reports are those of the intact files if
  // and only if the losses cause no wrong report.
  lemma ExactIffClean(r: Receiver, files: seq<File>, masks: seq<Mask>)
    requires AllSendable(files) && Fits(files, masks) && Idle(r)
    ensures Feed(r, KeptStream(files, masks)).done == r.done + Reports(r.dir, Intact(files, masks))
            <==> Clean(Closed, masks)
  {
    hide Feed, KeptStream, Clean, Intact;
    CountReports(r, files, masks);
  }

  // In-order delivery to a receiver that keeps up, for every pattern of losses:
  // the reported files are exactly those of which nothing was lost, with their
  // contents, if and only if no file left open is completed by packets of the
  // next one, which depends on the losses and the numbers of packets alone.
  lemma LossyTransfer(dir: Bytes, files: seq<File>, masks: seq<Mask>, start: System, actions: seq<Action>)
    requires AllSendable(files) && Fits(files, masks)
    requires Start(dir, start) && start.wire == Texts(KeptStream(files, masks))
    requires KeepsUp(start, actions)
    ensures var s := Run(start, actions);
            && (Clean(Closed, masks) ==> s.r.done <= Reports(dir, Intact(files, masks)))
            && (s.wire == [] && s.queue == [] ==>
                  (s.r.done == Reports(dir, Intact(files, masks)) <==> Clean(Closed, masks)))
  {
    hide KeptStream, Texts, Run, KeepsUp, Feed, Clean, Intact, Reports;
    KeptUpRun(files, masks, start, actions);
    ExactIffClean(start.r, files, masks);
  }

  // If packet 1 of no file is lost, every file of which nothing was lost is
  // reported with its contents, and no other.
  lemma FirstPacketsSuffice(dir: Bytes, files: seq<File>, masks: seq<Mask>, start: System, actions: seq<Action>)
    requires AllSendable(files) && Fits(files, masks)
    requires forall mask | mask in masks :: mask != [] && mask[0]
    requires Start(dir, start) && start.wire == Texts(KeptStream(files, masks))
    requires KeepsUp(start, actions)
    ensures var s := Run(start, actions);
            && s.r.done <= Reports(dir, Intact(files, masks))
            && (s.wire == [] && s.queue == [] ==> s.r.done == Reports(dir, Intact(files, masks)))
  {
    hide KeptStream, Texts, Run, KeepsUp, Feed, Clean, Intact, Reports, Start;
    FirstPacketsSeparate(false, masks);
    SeparatedIsClean(Closed, masks);
    LossyTransfer(dir, files, masks, start, actions);
  }
}
