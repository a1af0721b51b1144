// How SendPack_ex cuts a file into numbered packets, as a function of the file.
module Segmentation {
  import opened Bytes
  import opened Wire

  // A file to send: its path and its contents.
  datatype File = File(name: Bytes, data: Bytes) {
    // file_thread skips empty and unreadable files; sizes are kept in an int,
    // and the datagrams must fit the receiver's buffers.
    predicate Sendable() {
      && 1 <= |data| < 0x8000_0000
      && HEADER + |name| + MAXLINE <= RECEIVE_ROOM
    }
  }

  // Number of 1024-byte reads that return data.
  function Count(f: File): (n: nat)
    ensures 1024 * n >= |f.data| > 1024 * (n - 1)
  {
    (|f.data| + 1023) / 1024
  }

  // Read number k, counted from 0.
  function Chunk(f: File, k: nat): (c: Bytes)
    requires k < Count(f)
    ensures 1 <= |c| <= 1024
    ensures k + 1 < Count(f) ==> |c| == 1024
  {
    f.data[1024 * k..if k + 1 < Count(f) then 1024 * (k + 1) else |f.data|]
  }

  // The contents carried by the first k packets.
  function Sent(f: File, k: nat): (s: Bytes)
    requires k <= Count(f)
    ensures s <= f.data
    ensures k == Count(f) ==> s == f.data
  {
    if k == Count(f) then f.data else f.data[..1024 * k]
  }

  lemma SentExtends(f: File, k: nat)
    requires k < Count(f)
    ensures Sent(f, k + 1) == Sent(f, k) + Chunk(f, k)
  {
  }

  // The tag of packet k of n.
  function TagOf(k: nat, n: nat): Byte
    requires k < n
  {
    if n == 1 then TAG_ONLY
    else if k == 0 then TAG_START
    else if k == n - 1 then TAG_END
    else TAG_MIDDLE
  }

  function PacketOf(f: File, k: nat): (p: Packet)
    requires k < Count(f)
    ensures f.Sendable() ==> p.Valid()
  {
    Packet(TagOf(k, Count(f)), k + 1, |f.data|, f.name, Chunk(f, k))
  }

  // The datagrams of packets k, k + 1, .. of the file, in sending order.
  function DatagramsFrom(f: File, k: nat): (ds: seq<Bytes>)
    requires k <= Count(f)
    ensures |ds| == Count(f) - k
    decreases Count(f) - k
  {
    if k == Count(f) then [] else [Encode(PacketOf(f, k))] + DatagramsFrom(f, k + 1)
  }

  function Datagrams(f: File): seq<Bytes> { DatagramsFrom(f, 0) }

  function Payloads(ps: seq<Packet>): Bytes {
    if |ps| == 0 then [] else ps[0].payload + Payloads(ps[1..])
  }

  function PacketsFrom(f: File, k: nat): seq<Packet>
    requires k <= Count(f)
  {
    seq(Count(f) - k, i requires 0 <= i < Count(f) - k => PacketOf(f, k + i))
  }

  // pack_total as File_Process derives it from the file size, with C's
  // truncating division and remainder.
  function PackTotal(size: int): int {
    var quotient := if size >= 0 then size / 1024 else -(-size / 1024);
    if size % 1024 != 0 then quotient + 1 else quotient
  }

  // The least number of packets of 1024 bytes that hold the file; for a negative
  // size, which no sender produces, truncation goes the other way.
  lemma PackTotalIsLeast(size: int)
    ensures var n := PackTotal(size);
            && (size >= 0 ==> 1024 * (n - 1) < size <= 1024 * n)
            && (size < 0 && size % 1024 == 0 ==> 1024 * n == size)
            && (size < 0 && size % 1024 != 0 ==> 1024 * (n - 2) < size < 1024 * (n - 1))
  {
  }

  lemma {:induction false} PayloadsCoverTail(f: File, k: nat)
    requires k <= Count(f)
    ensures Sent(f, k) + Payloads(PacketsFrom(f, k)) == f.data
    decreases Count(f) - k
  {
    hide Count, Chunk, Sent, PacketOf, Payloads;
    if k == Count(f) {
      PayloadsOfNone(f);
    } else {
      PayloadsCoverTail(f, k + 1);
      PayloadsFrom(f, k);
      SentExtends(f, k);
      assert Sent(f, k) + (Chunk(f, k) + Payloads(PacketsFrom(f, k + 1)))
             == (Sent(f, k) + Chunk(f, k)) + Payloads(PacketsFrom(f, k + 1));
    }
  }

  lemma PayloadsFrom(f: File, k: nat)
    requires k < Count(f)
    ensures Payloads(PacketsFrom(f, k)) == Chunk(f, k) + Payloads(PacketsFrom(f, k + 1))
  {
    hide Count, Chunk;
    var ps := PacketsFrom(f, k);
    assert ps[0] == PacketOf(f, k) && ps[1..] == PacketsFrom(f, k + 1);
  }

  lemma PayloadsOfNone(f: File)
    ensures Sent(f, Count(f)) + Payloads(PacketsFrom(f, Count(f))) == f.data
  {
  }

  // Cutting loses nothing, and the receiver computes the same packet count
  // from the size field as the sender produced; the tags single out the first
  // and the last packet of every file.
  lemma SegmentationIsExact(f: File)
    requires f.Sendable()
    ensures var ps := PacketsFrom(f, 0);
            && |ps| == Count(f) == PackTotal(|f.data|) >= 1
            && Payloads(ps) == f.data
            && (forall i | 0 <= i < |ps| :: ps[i].number == i + 1 && 1 <= |ps[i].payload| <= 1024)
            && (forall i | 0 <= i < |ps| :: ps[i].size == |f.data| && ps[i].name == f.name)
            && (forall i | 0 <= i < |ps| ::
                  ps[i].tag == if |ps| == 1 then 0x13 else if i == 0 then 0x14 else if i == |ps| - 1 then 0x16 else 0x15)
  {
    PayloadsCoverTail(f, 0);
    assert Sent(f, 0) == [];
    assert |f.data| == 1024 * (|f.data| / 1024) + |f.data| % 1024;
  }
}
