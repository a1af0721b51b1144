// The datagram of the transfer protocol: byte 0 version, 1 tag, 2..9 packet
// number, 10..17 file size, 18..21 length L of the file name, then L name
// bytes, four bytes of payload length and the payload.
module Wire {
  import opened Bytes

  const VERSION: Byte := 0x0F
  const TAG_ONLY: Byte := 0x13
  const TAG_START: Byte := 0x14
  const TAG_MIDDLE: Byte := 0x15
  const TAG_END: Byte := 0x16

  const HEADER := 26      // all fixed fields
  const MAXLINE := 1024   // largest payload
  const RECEIVE_ROOM := 2040 // text room of the 2048-byte msgbuf after mtype

  datatype Packet = Packet(tag: Byte, number: nat, size: nat, name: Bytes, payload: Bytes) {
    // The ranges in which every field fits its C type and the datagram fits
    // the receiver's buffers.
    predicate Valid() {
      && number < 0x8000_0000_0000_0000
      && size < 0x8000_0000_0000_0000
      && |payload| <= MAXLINE
      && HEADER + |name| + MAXLINE <= RECEIVE_ROOM
    }
  }

  function Header(p: Packet): (h: Bytes)
    ensures |h| == 22 + |p.name|
  {
    [VERSION, p.tag] + LittleEndian(p.number, 8) + LittleEndian(p.size, 8)
    + LittleEndian(|p.name|, 4) + p.name
  }

  function Encode(p: Packet): (d: Bytes)
    ensures |d| == HEADER + |p.name| + |p.payload|
  {
    Header(p) + LittleEndian(|p.payload|, 4) + p.payload
  }

  // The receiver's reads from its message buffer v.
  function NumberOf(v: Bytes): int { Signed(Slice(v, 2, 8)) }
  function SizeOf(v: Bytes): int { Signed(Slice(v, 10, 8)) }
  function NameLengthOf(v: Bytes): int { Signed(Slice(v, 18, 4)) }
  function NameOf(v: Bytes): Bytes { Slice(v, 22, NameLengthOf(v)) }
  function PayloadLengthAt(v: Bytes, nameLength: int): int { Signed(Slice(v, 22 + nameLength, 4)) }
  function PayloadAt(v: Bytes, nameLength: int): Bytes {
    Slice(v, HEADER + nameLength, PayloadLengthAt(v, nameLength))
  }

  // The last piece of a prefix of d, and the prefix that remains without it.
  lemma LastPiece(front: Bytes, piece: Bytes, d: Bytes)
    requires front + piece <= d
    ensures front <= d
    ensures d[|front|..|front| + |piece|] == piece
  {
    var whole := front + piece;
    assert whole == d[..|whole|];
    assert front == whole[..|front|] == d[..|front|];
    assert piece == whole[|front|..] == d[|front|..|whole|];
  }

  // Where every field lies in an encoded packet.
  lemma FieldPositions(p: Packet)
    ensures var d, n := Encode(p), |p.name|;
            && d[0] == 0x0F && d[1] == p.tag
            && d[2..10] == LittleEndian(p.number, 8)
            && d[10..18] == LittleEndian(p.size, 8)
            && d[18..22] == LittleEndian(n, 4)
            && d[22..22 + n] == p.name
            && d[22 + n..26 + n] == LittleEndian(|p.payload|, 4)
            && d[26 + n..26 + n + |p.payload|] == p.payload
  {
    var d := Encode(p);
    hide LittleEndian;
    var size := LittleEndian(p.size, 8);
    var upToTag: Bytes := [VERSION, p.tag];
    var upToNumber := upToTag + LittleEndian(p.number, 8);
    var upToSize := upToNumber + size;
    var upToLength := upToSize + LittleEndian(|p.name|, 4);
    LastPiece(Header(p) + LittleEndian(|p.payload|, 4), p.payload, d);
    LastPiece(Header(p), LittleEndian(|p.payload|, 4), d);
    LastPiece(upToLength, p.name, d);
    LastPiece(upToSize, LittleEndian(|p.name|, 4), d);
    LastPiece(upToNumber, size, d);
    LastPiece(upToTag, LittleEndian(p.number, 8), d);
  }

  // Reading a field of the datagram d from a buffer v that starts with it.
  lemma SliceOfPrefix(d: Bytes, v: Bytes, from: nat, len: nat)
    requires d <= v && from + len <= |d|
    ensures Slice(v, from, len) == d[from..from + len]
  {
    assert d == v[..|d|];
    assert v[from..from + len] == d[from..from + len];
  }

  lemma FieldRead(d: Bytes, v: Bytes, from: nat, n: nat, k: nat)
    requires d <= v && from + k <= |d| && d[from..from + k] == LittleEndian(n, k)
    requires 2 * n < Pow256(k)
    ensures Signed(Slice(v, from, k)) == n
  {
    hide Slice, LittleEndian, Signed;
    SliceOfPrefix(d, v, from, k);
    SignedRoundTrip(n, k);
  }

  // Round trip through any buffer that starts with the datagram: whatever an
  // earlier, longer message left behind it, every field is read back exactly.
  lemma DecodeEncode(p: Packet, v: Bytes)
    requires p.Valid()
    requires Encode(p) <= v
    ensures NumberOf(v) == p.number
    ensures SizeOf(v) == p.size
    ensures NameLengthOf(v) == |p.name|
    ensures NameOf(v) == p.name
    ensures PayloadLengthAt(v, |p.name|) == |p.payload|
    ensures PayloadAt(v, |p.name|) == p.payload
  {
    var d, n := Encode(p), |p.name|;
    Widths();
    FieldPositions(p);
    hide Encode, Slice, LittleEndian, Signed, Pow256;
    FieldRead(d, v, 2, p.number, 8);
    FieldRead(d, v, 10, p.size, 8);
    FieldRead(d, v, 18, n, 4);
    FieldRead(d, v, 22 + n, |p.payload|, 4);
    SliceOfPrefix(d, v, 22, n);
    SliceOfPrefix(d, v, 26 + n, |p.payload|);
  }
}
