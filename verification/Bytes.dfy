// Little-endian integers in byte strings: what memcpy of an int or a long long
// into, and out of, a message buffer does on the little-endian LP64 machines
// the programs are built for.
module Bytes {

  type Byte = b: int | 0 <= b < 256
  type Bytes = seq<Byte>

  function Pow256(k: nat): (p: nat)
    ensures p >= 1
  {
    if k == 0 then 1 else 256 * Pow256(k - 1)
  }

  // The k low-order bytes of n, least significant first.
  function LittleEndian(n: nat, k: nat): (b: Bytes)
    ensures |b| == k
    decreases k
  {
    if k == 0 then [] else [n % 256] + LittleEndian(n / 256, k - 1)
  }

  function Unsigned(b: Bytes): nat {
    if |b| == 0 then 0 else b[0] + 256 * Unsigned(b[1..])
  }

  // Two's complement reading of a whole integer object.
  function Signed(b: Bytes): int {
    var v := Unsigned(b);
    if 2 * v < Pow256(|b|) then v else v - Pow256(|b|)
  }

  lemma {:induction false} UnsignedRoundTrip(n: nat, k: nat)
    requires n < Pow256(k)
    ensures Unsigned(LittleEndian(n, k)) == n
    decreases k
  {
    if k > 0 {
      UnsignedRoundTrip(n / 256, k - 1);
      assert LittleEndian(n, k)[1..] == LittleEndian(n / 256, k - 1);
    }
  }

  // Byte i of an integer in memory has weight 256^i.
  lemma {:induction false} ByteAt(n: nat, k: nat, i: nat)
    requires i < k
    ensures LittleEndian(n, k)[i] == n / Pow256(i) % 256
    decreases i
  {
    if i > 0 {
      ByteAt(n / 256, k - 1, i - 1);
      DivideTwice(n, Pow256(i - 1));
    }
  }

  lemma DivideTwice(n: nat, p: nat)
    requires p > 0
    ensures n / 256 / p == n / (256 * p)
  {
    var a, q := n / 256, n / 256 / p;
    var r := a - q * p;
    assert 0 <= r < p && n == 256 * a + n % 256;
    assert n == 256 * (q * p + r) + n % 256;
    assert 256 * (q * p) == q * (256 * p);
    QuotientIs(n, 256 * p, q, 256 * r + n % 256);
  }

  lemma Divided(x: nat, y: nat) returns (q: nat, r: nat)
    requires y > 0
    ensures q == x / y && r == x % y && x == q * y + r && r < y
  {
    q, r := x / y, x % y;
    assert x == y * q + r;
  }

  lemma QuotientIs(x: nat, t: nat, q: nat, r: nat)
    requires t > 0 && x == q * t + r && r < t
    ensures x / t == q && x % t == r
  {
    var d, m := x / t, x % t;
    assert x == d * t + m;
    if d < q {
      MultipleSteps(d + 1, q, t);
    } else if q < d {
      MultipleSteps(q + 1, d, t);
    }
  }

  lemma MultipleSteps(a: nat, b: nat, t: nat)
    requires a <= b
    ensures a * t <= b * t
    ensures a > 0 ==> (a - 1) * t + t == a * t
  {
  }

  // Every byte string is the integer it is read as.
  lemma {:induction false} MemoryRoundTrip(b: Bytes)
    ensures Unsigned(b) < Pow256(|b|)
    ensures LittleEndian(Unsigned(b), |b|) == b
  {
    if b != [] {
      var u := Unsigned(b[1..]);
      MemoryRoundTrip(b[1..]);
      LowByte(b[0], u);
      assert Unsigned(b) == b[0] + 256 * u;
      assert b == [b[0]] + b[1..];
    }
  }

  lemma LowByte(x: Byte, u: nat)
    ensures (x + 256 * u) % 256 == x && (x + 256 * u) / 256 == u
  {
  }

  // Two's complement: the value in the signed range that differs by a multiple
  // of 256^k.
  lemma SignedRange(b: Bytes)
    requires b != []
    ensures var p: int := Pow256(|b|);
            && -p <= 2 * Signed(b) < p
            && (Signed(b) == Unsigned(b) || Signed(b) == Unsigned(b) - p)
  {
    MemoryRoundTrip(b);
  }

  // A value that is non-negative in a signed integer of k bytes survives the
  // trip through memory.
  lemma SignedRoundTrip(n: nat, k: nat)
    requires 2 * n < Pow256(k)
    ensures Signed(LittleEndian(n, k)) == n
  {
    UnsignedRoundTrip(n, k);
  }

  lemma Widths()
    ensures Pow256(4) == 0x1_0000_0000
    ensures Pow256(8) == 0x1_0000_0000_0000_0000
  {
    assert Pow256(1) == 256 * Pow256(0);
    assert Pow256(2) == 256 * Pow256(1);
    assert Pow256(3) == 256 * Pow256(2);
    assert Pow256(4) == 256 * Pow256(3);
    assert Pow256(5) == 256 * Pow256(4);
    assert Pow256(6) == 256 * Pow256(5);
    assert Pow256(7) == 256 * Pow256(6);
    assert Pow256(8) == 256 * Pow256(7);
  }

  // v[from..from + len], clipped to v. In range it is the plain slice.
  function Slice(v: Bytes, from: int, len: int): (s: Bytes)
    ensures 0 <= from && 0 <= len && from + len <= |v| ==> s == v[from..from + len]
  {
    if from < 0 || len <= 0 || from > |v| then []
    else if from + len > |v| then v[from..]
    else v[from..from + len]
  }

  // What a buffer holds after n bytes of text were copied to its start.
  function Overlay(text: Bytes, buffer: Bytes): (v: Bytes)
    ensures |v| == if |text| <= |buffer| then |buffer| else |text|
    ensures text <= v
    ensures |text| <= |buffer| ==> v[|text|..] == buffer[|text|..]
  {
    if |text| <= |buffer| then text + buffer[|text|..] else text
  }
}
