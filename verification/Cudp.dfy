// SendPack_ex: one file is read, cut and sent through a single message buffer,
// under a grant of the bandwidth allocator.
module Cudp {
  import opened Bytes
  import opened Wire
  import opened Segmentation
  import Speed

  // How a call ends. DividedByZero is the arithmetic fault of a zero grant.
  datatype Outcome = Complete | Missing | ReadError | SendError | DividedByZero

  // The bytes m with b written over them from an offset on.
  function Splice(m: Bytes, off: nat, b: Bytes): (r: Bytes)
    requires off + |b| <= |m|
    ensures |r| == |m|
  {
    m[..off] + b + m[off + |b|..]
  }

  lemma SpliceAt(m: Bytes, off: nat, b: Bytes)
    requires off + |b| <= |m|
    ensures Splice(m, off, b)[off..off + |b|] == b
  {
  }

  lemma SpliceApart(m: Bytes, off: nat, b: Bytes, lo: nat, hi: nat)
    requires off + |b| <= |m| && lo <= hi <= |m|
    requires hi <= off || off + |b| <= lo
    ensures Splice(m, off, b)[lo..hi] == m[lo..hi]
  {
  }

  // memcpy to a buffer at an offset.
  method Put(a: array<Byte>, off: nat, bytes: Bytes)
    requires off + |bytes| <= a.Length
    modifies a
    ensures a[..] == Splice(old(a[..]), off, bytes)
  {
    forall i | 0 <= i < |bytes| {
      a[off + i] := bytes[i];
    }
    assert a[..off] == old(a[..off]) && a[off..off + |bytes|] == bytes;
    assert a[off + |bytes|..] == old(a[off + |bytes|..]);
  }

  // The header bytes that stay the same for all packets of a file.
  function FixedPart(f: File): (h: Bytes)
    ensures |h| == 12 + |f.name|
  {
    LittleEndian(|f.data|, 8) + LittleEndian(|f.name|, 4) + f.name
  }

  // A buffer with its fixed part filled in.
  predicate Prepared(m: Bytes, f: File) {
    && |m| == HEADER + |f.name| + MAXLINE
    && m[0..1] == [VERSION] && m[10..22 + |f.name|] == FixedPart(f)
  }

  // That is done once per file.
  method Prepare(f: File) returns (msg: array<Byte>)
    ensures fresh(msg) && Prepared(msg[..], f)
  {
    var n := |f.name|;
    msg := new Byte[HEADER + n + MAXLINE](_ => 0);
    hide FixedPart, Splice;
    SpliceAt(msg[..], 0, [VERSION]);
    Put(msg, 0, [VERSION]);
    SpliceAt(msg[..], 10, FixedPart(f));
    SpliceApart(msg[..], 10, FixedPart(f), 0, 1);
    Put(msg, 10, FixedPart(f));
  }

  // The tag, chosen from the running byte count.
  method ChooseTag(f: File, k: nat, sendCount: nat, rlen: nat, previous: Byte) returns (protocol: Byte)
    requires k < Count(f) && sendCount == 1024 * k && rlen == |Chunk(f, k)|
    ensures protocol == TagOf(k, Count(f))
  {
    var fileSize := |f.data|;
    protocol := previous;
    if sendCount == 0 && sendCount + rlen == fileSize {
      protocol := TAG_ONLY;
    } else if sendCount == 0 {
      protocol := TAG_START;
    } else if sendCount + rlen == fileSize {
      protocol := TAG_END;
    } else if sendCount + rlen < fileSize {
      protocol := TAG_MIDDLE;
    }
  }

  // The buffer once packet k was written into it.
  function Filled(m: Bytes, f: File, k: nat): Bytes
    requires k < Count(f) && Prepared(m, f)
  {
    var m1 := Splice(m, 1, [TagOf(k, Count(f))]);
    var m2 := Splice(m1, 2, LittleEndian(k + 1, 8));
    var m3 := Splice(m2, 22 + |f.name|, LittleEndian(|Chunk(f, k)|, 4));
    Splice(m3, 26 + |f.name|, Chunk(f, k))
  }

  lemma FilledHolds(m: Bytes, f: File, k: nat)
    requires k < Count(f) && Prepared(m, f)
    ensures Prepared(Filled(m, f, k), f)
    ensures Filled(m, f, k)[0..26 + |f.name| + |Chunk(f, k)|] == Encode(PacketOf(f, k))
  {
    hide Splice, LittleEndian, FixedPart, Count, TagOf, Chunk, Encode, PacketOf;
    var n, tag: Bytes, number, length, chunk :=
      |f.name|, [TagOf(k, Count(f))], LittleEndian(k + 1, 8), LittleEndian(|Chunk(f, k)|, 4), Chunk(f, k);
    var m1 := Splice(m, 1, tag);
    var m2 := Splice(m1, 2, number);
    var m3 := Splice(m2, 22 + n, length);
    SpliceApart(m, 1, tag, 0, 1);
    SpliceAt(m, 1, tag);
    SpliceApart(m, 1, tag, 10, 22 + n);
    SpliceApart(m1, 2, number, 0, 1);
    SpliceApart(m1, 2, number, 1, 2);
    SpliceAt(m1, 2, number);
    SpliceApart(m1, 2, number, 10, 22 + n);
    SpliceApart(m2, 22 + n, length, 0, 1);
    SpliceApart(m2, 22 + n, length, 1, 2);
    SpliceApart(m2, 22 + n, length, 2, 10);
    SpliceApart(m2, 22 + n, length, 10, 22 + n);
    SpliceAt(m2, 22 + n, length);
    SpliceApart(m3, 26 + n, chunk, 0, 1);
    SpliceApart(m3, 26 + n, chunk, 1, 2);
    SpliceApart(m3, 26 + n, chunk, 2, 10);
    SpliceApart(m3, 26 + n, chunk, 10, 22 + n);
    SpliceApart(m3, 26 + n, chunk, 22 + n, 26 + n);
    SpliceAt(m3, 26 + n, chunk);
    Assemble(Filled(m, f, k), f, k);
  }

  // One packet is written over whatever the buffer held: what is sent is the
  // encoding of that packet alone.
  method Fill(msg: array<Byte>, f: File, k: nat, chunk: Bytes, previous: Byte) returns (sendLen: nat, protocol: Byte)
    requires k < Count(f) && chunk == Chunk(f, k)
    requires Prepared(msg[..], f)
    modifies msg
    ensures Prepared(msg[..], f)
    ensures sendLen == HEADER + |f.name| + |chunk| <= msg.Length && msg[0..sendLen] == Encode(PacketOf(f, k))
  {
    var n, rlen := |f.name|, |chunk|;
    FilledHolds(msg[..], f, k);
    protocol := ChooseTag(f, k, 1024 * k, rlen, previous);
    hide LittleEndian, Encode, PacketOf, Prepared, Splice, TagOf, Chunk, Count;
    Put(msg, 1, [protocol]);
    Put(msg, 2, LittleEndian(k + 1, 8));
    Put(msg, 22 + n, LittleEndian(rlen, 4));
    Put(msg, 26 + n, chunk);
    sendLen := 26 + n + rlen;
    assert |msg[..]| == msg.Length && msg[0..sendLen] == msg[..][0..sendLen];
  }

  lemma Assemble(m: Bytes, f: File, k: nat)
    requires k < Count(f)
    requires |m| >= 26 + |f.name| + |Chunk(f, k)|
    requires m[0..1] == [VERSION] && m[1..2] == [TagOf(k, Count(f))]
    requires m[2..10] == LittleEndian(k + 1, 8)
    requires m[10..22 + |f.name|] == FixedPart(f)
    requires m[22 + |f.name|..26 + |f.name|] == LittleEndian(|Chunk(f, k)|, 4)
    requires m[26 + |f.name|..26 + |f.name| + |Chunk(f, k)|] == Chunk(f, k)
    ensures m[0..26 + |f.name| + |Chunk(f, k)|] == Encode(PacketOf(f, k))
  {
    hide LittleEndian, Chunk, Count, TagOf;
    var n, r := |f.name|, |Chunk(f, k)|;
    var head: Bytes := [VERSION, TagOf(k, Count(f))];
    assert m[..2] == m[0..1] + m[1..2] == head;
    assert m[..10] == m[..2] + m[2..10];
    assert m[..22 + n] == m[..10] + m[10..22 + n];
    assert m[..26 + n] == m[..22 + n] + m[22 + n..26 + n];
    assert m[..26 + n + r] == m[..26 + n] + m[26 + n..26 + n + r];
    var p := PacketOf(f, k);
    assert Header(p) == (head + LittleEndian(k + 1, 8)) + FixedPart(f);
    assert m[0..26 + n + r] == m[..26 + n + r];
  }

  lemma {:induction false} DatagramAt(f: File, k: nat, i: nat)
    requires k + i < Count(f)
    ensures DatagramsFrom(f, k)[i] == Encode(PacketOf(f, k + i))
    decreases i
  {
    hide Encode, PacketOf;
    if i > 0 {
      DatagramAt(f, k + 1, i - 1);
    }
  }

  lemma PrefixOfDatagrams(f: File, wire: seq<Bytes>)
    requires |wire| <= Count(f)
    requires forall i | 0 <= i < |wire| :: wire[i] == Encode(PacketOf(f, i))
    ensures wire <= Datagrams(f)
    ensures |wire| == Count(f) ==> wire == Datagrams(f)
  {
    hide Encode, PacketOf;
    forall i | 0 <= i < |wire|
      ensures wire[i] == Datagrams(f)[i]
    {
      DatagramAt(f, 0, i);
    }
  }

  // The time slept after packet number n.
  function Nap(n: nat, packT: nat, w: int): int {
    (if n == 1 then w else 0) + (if packT != 0 && n % packT == 0 then w else 0)
  }

  method Sleep(n: nat, packT: nat, wait: int) returns (slept: int)
    ensures slept == Nap(n, packT, wait)
  {
    slept := 0;
    if n == 1 {
      slept := slept + wait;
    }
    if packT != 0 && n % packT == 0 {
      slept := slept + wait;
    }
  }

  // How many of the first k packets query the allocator: packet 1 and every
  // packT-th.
  function Queries(k: nat, packT: nat): nat {
    if k == 0 then 0 else if packT == 0 then 1 else if packT == 1 then k else 1 + k / packT
  }

  // Does packet k, counted from 0, query the allocator?
  predicate Due(k: nat, packT: nat) { k == 0 || (packT != 0 && (k + 1) % packT == 0) }

  lemma QueriesNext(k: nat, packT: nat)
    ensures Queries(k + 1, packT) == Queries(k, packT) + if Due(k, packT) then 1 else 0
  {
    if packT > 1 {
      NextQuotient(k, packT);
      FirstQuotient(packT);
    }
  }

  lemma DueAtFirst(packT: nat)
    ensures Due(0, packT)
  {
  }

  lemma NextQuotient(k: nat, t: nat)
    requires t > 1
    ensures (k + 1) / t == k / t + if (k + 1) % t == 0 then 1 else 0
  {
    var q, r := Divided(k, t);
    if r == t - 1 {
      MultipleSteps(q + 1, q + 1, t);
      QuotientIs(k + 1, t, q + 1, 0);
    } else {
      QuotientIs(k + 1, t, q, r + 1);
    }
  }

  lemma FirstQuotient(t: nat)
    requires t > 1
    ensures 0 / t == 0 && 1 / t == 0 && 1 % t == 1
  {
    QuotientIs(0, t, 0, 0);
    QuotientIs(1, t, 0, 1);
  }

  // Queries and returns take turns, a query first.
  predicate TakeTurns(calls: seq<Speed.Event>, sender: nat, packT: nat) {
    forall i | 0 <= i < |calls| :: calls[i] == if i % 2 == 0 then Speed.Acquire(sender, packT) else Speed.Release(sender)
  }

  // The time slept after each packet.
  predicate Paced(waits: seq<int>, packT: nat, w: int) {
    forall i | 0 <= i < |waits| :: waits[i] == Nap(i + 1, packT, w)
  }

  lemma NothingYet(packT: nat, sender: nat, w: int)
    ensures Queries(0, packT) == 0 && Queries(1, packT) == 1
    ensures TakeTurns([], sender, packT) && Paced([], packT, w)
  {
  }

  lemma OneMoreSleep(waits: seq<int>, packT: nat, w: int, slept: int)
    requires Paced(waits, packT, w)
    requires slept == Nap(|waits| + 1, packT, w)
    ensures Paced(waits + [slept], packT, w)
  {
  }

  // One more query, after a return unless it is the first.
  lemma OneMoreTurn(calls: seq<Speed.Event>, made: seq<Speed.Event>, sender: nat, packT: nat)
    requires TakeTurns(calls, sender, packT)
    requires calls == [] || |calls| % 2 == 1
    requires made == (if calls == [] then [] else [Speed.Release(sender)]) + [Speed.Acquire(sender, packT)]
    ensures TakeTurns(calls + made, sender, packT)
    ensures |calls + made| == if calls == [] then 1 else |calls| + 2
  {
  }

  lemma LastTurn(calls: seq<Speed.Event>, sender: nat, packT: nat)
    requires TakeTurns(calls, sender, packT) && |calls| % 2 == 1
    ensures TakeTurns(calls + [Speed.Release(sender)], sender, packT)
  {
  }

  // What the calls of a call that ended say to the others.
  lemma TurnsEnd(calls: seq<Speed.Event>, sender: nat, packT: nat)
    requires TakeTurns(calls, sender, packT)
    ensures Speed.By(calls, sender)
    ensures |calls| % 2 == 0 ==> Speed.Leaves(calls)
  {
    if calls != [] {
      assert calls[|calls| - 1] == if (|calls| - 1) % 2 == 0 then Speed.Acquire(sender, packT) else Speed.Release(sender);
    }
  }

  // The predicates above, spelled out.
  lemma Recorded(k: nat, waits: seq<int>, calls: seq<Speed.Event>, sender: nat, packT: nat, w: int)
    requires Paced(waits, packT, w) && TakeTurns(calls, sender, packT)
    ensures Queries(k, packT)
            == if k == 0 then 0 else if packT == 0 then 1 else if packT == 1 then k else 1 + k / packT
    ensures forall i | 0 <= i < |waits| ::
              waits[i] == (if i == 0 then w else 0) + (if packT != 0 && (i + 1) % packT == 0 then w else 0)
    ensures forall i | 0 <= i < |calls| ::
              calls[i] == if i % 2 == 0 then Speed.Acquire(sender, packT) else Speed.Release(sender)
  {
  }

  // The grant is returned, if there is one, and a new one taken.
  method Requery(speed: Speed.SpeedManger, queryed: int, sender: nat, packT: nat)
      returns (granted: int, made: seq<Speed.Event>)
    requires speed.currentSpeed >= queryed
    modifies speed
    ensures speed.maxSpeed == old(speed.maxSpeed) && speed.baseSpeed == old(speed.baseSpeed)
    ensures var before := old(speed.currentSpeed) - queryed;
            && granted == Speed.Grant(speed.maxSpeed, speed.baseSpeed, speed.maxSpeed - before)
            && speed.currentSpeed == before + granted
    ensures made == (if queryed != 0 then [Speed.Release(sender)] else []) + [Speed.Acquire(sender, packT)]
  {
    made := [];
    if queryed != 0 {
      speed.ReturnSpeed(queryed);
      made := [Speed.Release(sender)];
    }
    granted := speed.QuerySpeed();
    made := made + [Speed.Acquire(sender, packT)];
  }

  // What one turn of the loop did with its packet.
  datatype Attempt = NoGrant | Unsent | Sent

  // One turn of the loop, up to Sendto: packet k is written to the buffer, the
  // allocator asked when it is due, and the packet sent unless that fails.
  method SendNext(f: File, k: nat, packT: nat, sender: nat, speed: Speed.SpeedManger, msg: array<Byte>,
                  previous: Byte, queryed: int, waitT: int, fails: bool)
      returns (attempt: Attempt, protocol: Byte, granted: int, wait: int, made: seq<Speed.Event>, datagram: Bytes)
    requires k < Count(f) && (k > 0 ==> packT > 0)
    requires Prepared(msg[..], f) && speed.currentSpeed >= queryed
    modifies msg, speed
    ensures Prepared(msg[..], f) && datagram == Encode(PacketOf(f, k))
    ensures speed.maxSpeed == old(speed.maxSpeed) && speed.baseSpeed == old(speed.baseSpeed)
    ensures speed.currentSpeed - granted == old(speed.currentSpeed) - queryed
    ensures var due, before := Due(k, packT), old(speed.currentSpeed) - queryed;
            && (attempt == NoGrant <==> due && granted == 0)
            && (attempt == Unsent <==> attempt != NoGrant && fails)
            && (due ==>
                  && granted == Speed.Grant(speed.maxSpeed, speed.baseSpeed, speed.maxSpeed - before)
                  && made == (if queryed != 0 then [Speed.Release(sender)] else []) + [Speed.Acquire(sender, packT)]
                  && (granted != 0 ==> wait == Speed.WaitOf(packT, granted)))
            && (!due ==> granted == queryed && wait == waitT && made == [])
  {
    hide Encode, PacketOf, Prepared, Chunk, Count, Speed.Grant, Speed.WaitOf;
    var sendLen;
    sendLen, protocol := Fill(msg, f, k, Chunk(f, k), previous);
    datagram := msg[0..sendLen];
    granted, wait, made := queryed, waitT, [];
    if k + 1 == 1 || (k + 1) % packT == 0 {
      granted, made := Requery(speed, queryed, sender, packT);
      if granted == 0 {
        return NoGrant, protocol, granted, wait, made, datagram;
      }
      wait := Speed.WaitOf(packT, granted);
    }
    attempt := if fails then Unsent else Sent;
  }

  // The loop. A fault is told by the index, counted from 0, of the read or send
  // that fails; an index never reached means none. queryed is what is held at
  // its end.
  method SendLoop(f: File, packT: nat, sender: nat, speed: Speed.SpeedManger, msg: array<Byte>,
                  readFault: nat, sendFault: nat, ghost grant: int, ghost w: int)
      returns (outcome: Outcome, wire: seq<Bytes>, waits: seq<int>, calls: seq<Speed.Event>, queryed: int)
    requires Prepared(msg[..], f) && speed.currentSpeed >= 0
    requires grant == Speed.Grant(speed.maxSpeed, speed.baseSpeed, speed.maxSpeed - speed.currentSpeed)
    requires grant != 0 ==> w == Speed.WaitOf(packT, grant)
    modifies speed, msg
    ensures speed.maxSpeed == old(speed.maxSpeed) && speed.baseSpeed == old(speed.baseSpeed)
    ensures speed.currentSpeed == old(speed.currentSpeed) + queryed
    ensures |wire| == |waits| <= Count(f) && forall i | 0 <= i < |wire| :: wire[i] == Encode(PacketOf(f, i))
    ensures Paced(waits, packT, w) && TakeTurns(calls, sender, packT)
    ensures wire != [] ==> grant != 0
    ensures match outcome
            case Complete => |wire| == Count(f) < readFault && Count(f) <= sendFault && (wire != [] ==> packT != 0)
            case ReadError => |wire| == readFault <= sendFault && (wire != [] ==> packT != 0)
            case SendError =>
              |wire| == sendFault < Count(f) && sendFault < readFault && grant != 0 && (wire != [] ==> packT != 0)
            case DividedByZero =>
              && Count(f) > 0 && readFault > 0
              && if grant == 0 then wire == [] else packT == 0 && sendFault > 0 && |wire| == 1
            case Missing => false
    ensures outcome == DividedByZero ==> queryed == grant && |calls| == 1
    ensures outcome != DividedByZero ==>
              var k := |wire| + if outcome == SendError then 1 else 0;
              && (queryed != 0 <==> k > 0)
              && |calls| == 2 * Queries(k, packT) - if k > 0 then 1 else 0
  {
    DueAtFirst(packT);
    hide Encode, PacketOf, Chunk, Prepared, Queries, TakeTurns, Paced, Nap, Due, Speed.Grant, Speed.WaitOf, Count;
    wire, waits, calls, queryed := [], [], [], 0;
    NothingYet(packT, sender, w);
    var protocol: Byte := TAG_START;
    var wait, k := 0, 0;
    ghost var queries := 0;
    while true
      invariant k > 0 ==> packT > 0
      invariant 0 <= k <= Count(f) && k <= readFault && k <= sendFault
      invariant Prepared(msg[..], f)
      invariant |wire| == |waits| == k && forall i | 0 <= i < k :: wire[i] == Encode(PacketOf(f, i))
      invariant Paced(waits, packT, w) && TakeTurns(calls, sender, packT)
      invariant speed.maxSpeed == old(speed.maxSpeed) && speed.baseSpeed == old(speed.baseSpeed)
      invariant speed.currentSpeed == old(speed.currentSpeed) + queryed
      invariant queries == Queries(k, packT) && |calls| == 2 * queries - if k == 0 then 0 else 1
      invariant if k == 0 then queryed == queries == 0 else queryed == grant != 0 && wait == w && queries > 0
      decreases Count(f) - k
    {
      if readFault == k {
        outcome := ReadError;
        return;
      }
      if k == Count(f) {
        outcome := Complete;
        return;
      }
      var attempt, made, datagram;
      attempt, protocol, queryed, wait, made, datagram :=
        SendNext(f, k, packT, sender, speed, msg, protocol, queryed, wait, sendFault == k);
      QueriesNext(k, packT);
      if made != [] {
        OneMoreTurn(calls, made, sender, packT);
        calls := calls + made;
        queries := queries + 1;
      }
      if attempt == NoGrant {
        outcome := DividedByZero;
        return;
      }
      if attempt == Unsent {
        outcome := SendError;
        return;
      }
      wire := wire + [datagram];
      var slept := Sleep(k + 1, packT, wait);
      OneMoreSleep(waits, packT, w, slept);
      waits := waits + [slept];
      if packT == 0 {
        outcome := DividedByZero;
        return;
      }
      k := k + 1;
    }
  }

  // Sends f while no other thread uses the allocator; waits[i] is the time slept
  // after packet i + 1, calls are those of the allocator. Whichever way it ends,
  // what went out is a prefix of the file's datagrams, all of them when the call
  // succeeds, and the grant is back with the allocator. Only the fault of a zero
  // pack_t after the first packet keeps it.
  method SendPackEx(f: File, found: bool, packT: nat, sender: nat, speed: Speed.SpeedManger,
                    readFault: nat, sendFault: nat)
      returns (outcome: Outcome, wire: seq<Bytes>, waits: seq<int>, calls: seq<Speed.Event>)
    requires |f.data| < 0x8000_0000
    requires speed.currentSpeed >= 0
    modifies speed
    ensures speed.maxSpeed == old(speed.maxSpeed) && speed.baseSpeed == old(speed.baseSpeed)
    ensures outcome != DividedByZero || packT != 0 ==> speed.currentSpeed == old(speed.currentSpeed)
    ensures outcome == Missing <==> !found
    ensures outcome == Missing ==> wire == [] && calls == []
    ensures var n, grant := Count(f), Speed.Grant(speed.maxSpeed, speed.baseSpeed, speed.maxSpeed - old(speed.currentSpeed));
            && (outcome == Complete <==>
                  found && n < readFault && n <= sendFault && (n == 0 || (grant != 0 && packT != 0)))
            && (outcome == ReadError <==>
                  && found && readFault <= n && readFault <= sendFault
                  && (readFault == 0 || (grant != 0 && packT != 0)))
            && (outcome == SendError <==>
                  && found && sendFault < n && sendFault < readFault && grant != 0
                  && (sendFault == 0 || packT != 0))
            && (outcome == DividedByZero <==>
                  found && n > 0 && readFault > 0 && (grant == 0 || (packT == 0 && sendFault > 0)))
            && (outcome == DividedByZero ==> |wire| == if grant == 0 then 0 else 1)
    ensures outcome == Complete ==> wire == Datagrams(f)
    ensures outcome == ReadError ==> |wire| == readFault
    ensures outcome == SendError ==> |wire| == sendFault
    ensures wire <= Datagrams(f)
    ensures |waits| == |wire|
    ensures var grant := Speed.Grant(speed.maxSpeed, speed.baseSpeed, speed.maxSpeed - old(speed.currentSpeed));
            waits != [] ==>
              && grant != 0
              && var w := Speed.WaitOf(packT, grant);
                 forall i | 0 <= i < |waits| ::
                   waits[i] == (if i == 0 then w else 0) + (if packT != 0 && (i + 1) % packT == 0 then w else 0)
    ensures forall i | 0 <= i < |calls| ::
              calls[i] == if i % 2 == 0 then Speed.Acquire(sender, packT) else Speed.Release(sender)
    ensures outcome != DividedByZero ==>
              var k := |wire| + if outcome == SendError then 1 else 0;
              |calls| == 2 * if k == 0 then 0 else if packT == 0 then 1 else if packT == 1 then k else 1 + k / packT
    ensures outcome == DividedByZero ==> |calls| == 1
  {
    hide Encode, PacketOf, Chunk, Prepared, Queries, TakeTurns, Paced, Speed.Grant, Speed.WaitOf, Datagrams, Count;
    ghost var grant := Speed.Grant(speed.maxSpeed, speed.baseSpeed, speed.maxSpeed - speed.currentSpeed);
    ghost var w := if grant == 0 then 0 else Speed.WaitOf(packT, grant);
    if !found {
      PrefixOfDatagrams(f, []);
      return Missing, [], [], [];
    }
    var msg := Prepare(f);
    var queryed;
    outcome, wire, waits, calls, queryed := SendLoop(f, packT, sender, speed, msg, readFault, sendFault, grant, w);
    PrefixOfDatagrams(f, wire);
    if outcome != DividedByZero && queryed != 0 {
      speed.ReturnSpeed(queryed);
      LastTurn(calls, sender, packT);
      calls := calls + [Speed.Release(sender)];
    }
    NothingYet(packT, sender, w);
    Recorded(|wire| + if outcome == SendError then 1 else 0, waits, calls, sender, packT, w);
  }
}
