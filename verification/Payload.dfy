/** Bytes, and the part of a payload that the 16-bit header length can carry. */
module Payload {

  type Byte = b: int | 0 <= b < 256
  type Bytes = seq<Byte>

  const TWO16: nat := 0x1_0000
  const TWO32: nat := 0x1_0000_0000

  /** What a consumer receives of a payload: `(uint16_t)len` bytes of it. */
  function Wire(data: Bytes): Bytes {
    data[..|data| % TWO16]
  }

  /** A payload arrives byte for byte exactly when its length fits the header; of a longer one
      arrives the prefix that the 16-bit length leaves. */
  lemma WireExact(data: Bytes)
    ensures Wire(data) == data <==> |data| < TWO16
    ensures Wire(data) <= data && |Wire(data)| < TWO16 && exists k: nat :: |data| == |Wire(data)| + k * TWO16
  {
    assert |data| == |Wire(data)| + (|data| / TWO16) * TWO16;
  }

  function WireAll(msgs: seq<Bytes>): (r: seq<Bytes>)
    ensures |r| == |msgs| && forall i :: 0 <= i < |r| ==> r[i] == Wire(msgs[i])
  {
    seq(|msgs|, i requires 0 <= i < |msgs| => Wire(msgs[i]))
  }

  // ---------------------------------------------------------- little endian

  function Pow256(n: nat): nat {
    if n == 0 then 1 else 256 * Pow256(n - 1)
  }

  /** Little-endian value of a run of bytes. */
  function Little(b: Bytes): nat {
    if b == [] then 0 else (b[0] as int) + 256 * Little(b[1..])
  }

  /** The n low bytes of x, least significant first. */
  function LittleBytes(x: nat, n: nat): (b: Bytes)
    ensures |b| == n
  {
    if n == 0 then [] else [x % 256] + LittleBytes(x / 256, n - 1)
  }

  /** The byte at place k weighs 256^k. */
  lemma {:induction false} LittleJoins(a: Bytes, b: Bytes)
    ensures Little(a + b) == Little(a) + Pow256(|a|) * Little(b)
  {
    if a == [] {
      assert a + b == b;
    } else {
      LittleJoins(a[1..], b);
      assert (a + b)[1..] == a[1..] + b;
      Regroup(Pow256(|a| - 1), Little(b));
    }
  }

  lemma Regroup(p: nat, x: nat)
    ensures 256 * (p * x) == (256 * p) * x
  {
  }

  /** Reading back a stored field. */
  lemma {:induction false} LittleRoundTrip(x: nat, n: nat)
    requires x < Pow256(n)
    ensures Little(LittleBytes(x, n)) == x
  {
    if n != 0 { LittleRoundTrip(x / 256, n - 1); }
  }

  /** And a field that was loaded stores back as the same bytes. */
  lemma {:induction false} LittleStores(b: Bytes)
    ensures LittleBytes(Little(b), |b|) == b
  {
    if b != [] { LittleStores(b[1..]); }
  }

  lemma {:induction false} LittleBound(b: Bytes)
    ensures Little(b) < Pow256(|b|)
  {
    if b != [] { LittleBound(b[1..]); }
  }
}
