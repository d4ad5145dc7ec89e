/**
  Consumer checkpoints (src/persistence.c): the 40-byte record, its rotated-xor
  checksum, and what loading a file accepts.
 */
module Checkpoint {
  import opened Words
  import opened Payload

  const CHECKPOINT_MAGIC: Word := 0x43_4B50_5441_4244
  const RECORD_SIZE: nat := 40

  type Word32 = x: int | 0 <= x < 0x1_0000_0000

  /** nabd_checkpoint_t */
  datatype Record = Record(magic: Word, timestamp: Word, groupId: Word32, reserved: Word32, tail: Word, checksum: Word)

  /** A checkpoint file: missing, or any bytes at all. */
  datatype File = Absent | Contents(bytes: Bytes)

  datatype Loaded = Loaded(record: Record) | NotFound | Corrupted

  // ---------------------------------------------------------------- checksum

  /** `(sum << 13) | (sum >> 51)` */
  function Rotate(x: Word): nat {
    Or(Wrap(x * 8192), Shr(x, 51))
  }

  function Mix(r: Record): nat {
    Xor(Xor(Xor(r.magic, r.timestamp), r.groupId), r.tail)
  }

  lemma MixIsWord(r: Record)
    ensures Xor(r.magic, r.timestamp) < TWO64
    ensures Xor(Xor(r.magic, r.timestamp), r.groupId) < TWO64
    ensures Mix(r) < TWO64
  {
    var k := 64;
    Pow2At(k);
    XorBound(r.magic, r.timestamp, k);
    XorBound(Xor(r.magic, r.timestamp), r.groupId, k);
    XorBound(Xor(Xor(r.magic, r.timestamp), r.groupId), r.tail, k);
  }

  /** Digit k + 13 of the sum, counted round the 64 digits of a word, is the parity of
      digit k in magic, timestamp, group id and tail. */
  ghost predicate Covers(sum: Word, r: Record) {
    forall k :: 0 <= k < 64 ==> CoversDigit(sum, r, k)
  }

  predicate CoversDigit(sum: Word, r: Record, k: nat) {
    Bit(sum, (k + 13) % 64) == (Bit(r.magic, k) + Bit(r.timestamp, k) + Bit(r.groupId, k) + Bit(r.tail, k)) % 2
  }

  /** compute_checksum: the xor of the four fields with its low 51 bits moved up by 13
      and its high 13 bits moved down. */
  method ComputeChecksum(r: Record) returns (sum: Word)
    ensures Covers(sum, r)
    ensures sum == Mix(r) % HIGH * 8192 + Mix(r) / HIGH
    ensures sum == Checksum(r)
  {
    MixIsWord(r);
    sum := r.magic;
    sum := Xor(sum, r.timestamp);
    sum := Xor(sum, r.groupId);
    sum := Xor(sum, r.tail);
    RotateIsWord(sum);
    RotateValue(sum);
    sum := Or(Wrap(sum * 8192), Shr(sum, 51));
    ChecksumCovers(r);
  }

  function Checksum(r: Record): Word {
    MixIsWord(r);
    RotateIsWord(Mix(r));
    Rotate(Mix(r))
  }

  /** The checksum is the rotated parity of the four fields, and every one of them counts. */
  lemma ChecksumCovers(r: Record)
    ensures Covers(Checksum(r), r)
  {
    MixIsWord(r);
    forall k | 0 <= k < 64 ensures CoversDigit(Checksum(r), r, k) {
      RotateBit(Mix(r), k, (k + 13) % 64);
      MixBit(r, k);
    }
  }

  lemma MixBit(r: Record, k: nat)
    ensures Bit(Mix(r), k) == (Bit(r.magic, k) + Bit(r.timestamp, k) + Bit(r.groupId, k) + Bit(r.tail, k)) % 2
  {
    var x := Xor(r.magic, r.timestamp);
    var y := Xor(x, r.groupId);
    XorBit(r.magic, r.timestamp, k);
    XorBit(x, r.groupId, k);
    XorBit(y, r.tail, k);
    Parity(Bit(r.magic, k), Bit(r.timestamp, k), Bit(r.groupId, k), Bit(r.tail, k), Bit(x, k), Bit(y, k), Bit(Mix(r), k));
  }

  /** Telling three times whether two digits differ leaves the parity of the four. */
  lemma Parity(a: nat, b: nat, c: nat, d: nat, x: nat, y: nat, z: nat)
    requires a < 2 && b < 2 && c < 2 && d < 2
    requires x == (if a != b then 1 else 0) && y == (if x != c then 1 else 0) && z == (if y != d then 1 else 0)
    ensures z == (a + b + c + d) % 2
  {
  }

  /** Of w digits, a shift left by j moves each up and drops the high ones, and a shift right
      by d moves each down and drops the low ones. */
  lemma ShiftedDigits(x: nat, up: nat, down: nat, w: nat, j: nat, d: nat, p: nat)
    requires x == x % Pow2(w) && up == x * Pow2(j) % Pow2(w) && down == Shr(x, d)
    ensures Bit(up, p) == (if j <= p < w then Bit(x, p - j) else 0)
    ensures Bit(down, p) == (if p + d < w then Bit(x, p + d) else 0)
  {
    ModBit(x * Pow2(j), w, p);
    TimesBit(x, j, p);
    ShrBit(x, d, p);
    ModBit(x, w, p + d);
  }

  /** The two halves of the rotation; at each place at most one has a digit. */
  lemma Halves(x: Word, p: nat) returns (up: nat, down: nat)
    ensures Rotate(x) == Or(up, down)
    ensures Bit(up, p) == (if 13 <= p < 64 then Bit(x, p - 13) else 0)
    ensures Bit(down, p) == (if p + 51 < 64 then Bit(x, p + 51) else 0)
  {
    var w, j, d := 64, 13, 51;
    Pow2At(w);
    RotatePowers(d, j);
    up, down := Wrap(x * 8192), Shr(x, d);
    ShiftedDigits(x, up, down, w, j, d, p);
  }

  /** The rotation moves each binary digit up by 13 places, round the word. */
  lemma RotateBit(x: Word, k: nat, p: nat)
    requires k < 64 && p == (k + 13) % 64
    ensures Bit(Rotate(x), p) == Bit(x, k)
  {
    var up, down := Halves(x, p);
    OrBit(up, down, p);
    assert p == if k < 51 then k + 13 else k - 51;
  }

  const HIGH: nat := 0x8_0000_0000_0000   // 2^51

  /** Numbers with no common digit: or is addition. */
  lemma {:induction false} OrDisjoint(a: nat, b: nat, k: nat)
    requires b < Pow2(k)
    ensures Or(a * Pow2(k), b) == a * Pow2(k) + b
    decreases k
  {
    if k == 0 {
      OrZero(a);
    } else {
      var x := a * Pow2(k - 1);
      DoubleProduct(a, Pow2(k - 1));
      assert a * Pow2(k) == 2 * x;
      OrDisjoint(a, b / 2, k - 1);
      assert (2 * x) / 2 == x && (2 * x) % 2 == 0;
    }
  }

  /** The rotation moves the low 51 bits up by 13 and the high 13 bits down. */
  lemma RotateValue(x: Word)
    ensures Rotate(x) == (x % HIGH) * 8192 + x / HIGH
  {
    var k, j := 51, 13;
    RotatePowers(k, j);
    ShrIsDiv(x, k);
    var q, r := x / HIGH, x % HIGH;
    assert x == q * HIGH + r && q < 8192;
    assert x * 8192 == q * TWO64 + r * 8192;
    DivModUnique(x * 8192, TWO64, q, r * 8192);
    OrDisjoint(r, q, j);
  }

  lemma RotatePowers(k: nat, j: nat)
    ensures k == 51 ==> Pow2(k) == HIGH
    ensures j == 13 ==> Pow2(j) == 8192
  {
    var t := 32;
    Pow2At(t);
    assert Pow2(13) == 8192 && Pow2(19) == 524288;
    Pow2Add(32, 19);
  }

  lemma RotateIsWord(x: Word)
    ensures Rotate(x) < TWO64
  {
    RotateValue(x);
  }

  lemma RotateInjective(x: Word, y: Word)
    requires Rotate(x) == Rotate(y)
    ensures x == y
  {
    RotateValue(x);
    RotateValue(y);
    assert x / HIGH < 8192 && y / HIGH < 8192;
    assert x % HIGH == Rotate(x) / 8192 && y % HIGH == Rotate(y) / 8192;
  }

  lemma XorInjective(a: nat, b: nat, c: nat)
    requires Xor(a, c) == Xor(b, c)
    ensures a == b
  {
    XorCancel(a, c);
    XorCancel(b, c);
  }

  // ------------------------------------------------------------ file contents

  function Encode(r: Record): (b: Bytes)
    ensures |b| == RECORD_SIZE
  {
    LittleBytes(r.magic, 8) + LittleBytes(r.timestamp, 8)
    + LittleBytes(r.groupId, 4) + LittleBytes(r.reserved, 4)
    + LittleBytes(r.tail, 8) + LittleBytes(r.checksum, 8)
  }

  lemma FieldIsWord(b: Bytes)
    ensures |b| == 8 ==> Little(b) < TWO64
    ensures |b| == 4 ==> Little(b) < 0x1_0000_0000
  {
    LittleBound(b);
    assert Pow256(4) == 0x1_0000_0000;
    assert Pow256(8) == 256 * 256 * 256 * 256 * Pow256(4);
  }

  function Field64(b: Bytes, at: nat): Word
    requires at + 8 <= |b|
  {
    FieldIsWord(b[at..at + 8]);
    Little(b[at..at + 8])
  }

  function Field32(b: Bytes, at: nat): Word32
    requires at + 4 <= |b|
  {
    FieldIsWord(b[at..at + 4]);
    Little(b[at..at + 4])
  }

  function Decode(b: Bytes): Record
    requires |b| >= RECORD_SIZE
  {
    Record(Field64(b, 0), Field64(b, 8), Field32(b, 16), Field32(b, 20), Field64(b, 24), Field64(b, 32))
  }

  lemma FieldRoundTrip(x: nat)
    ensures x < TWO64 ==> Little(LittleBytes(x, 8)) == x
    ensures x < 0x1_0000_0000 ==> Little(LittleBytes(x, 4)) == x
  {
    assert Pow256(4) == 0x1_0000_0000;
    assert Pow256(8) == 256 * 256 * 256 * 256 * Pow256(4);
    if x < TWO64 { LittleRoundTrip(x, 8); }
    if x < 0x1_0000_0000 { LittleRoundTrip(x, 4); }
  }

  lemma EncodeFields(r: Record)
    ensures var b := Encode(r);
      && b[0..8] == LittleBytes(r.magic, 8) && b[8..16] == LittleBytes(r.timestamp, 8)
      && b[16..20] == LittleBytes(r.groupId, 4) && b[20..24] == LittleBytes(r.reserved, 4)
      && b[24..32] == LittleBytes(r.tail, 8) && b[32..40] == LittleBytes(r.checksum, 8)
  {
  }

  lemma CodecRoundTrip(r: Record)
    ensures Decode(Encode(r)) == r
  {
    EncodeFields(r);
    FieldRoundTrip(r.magic);
    FieldRoundTrip(r.timestamp);
    FieldRoundTrip(r.groupId);
    FieldRoundTrip(r.reserved);
    FieldRoundTrip(r.tail);
    FieldRoundTrip(r.checksum);
  }

  // ------------------------------------------------------------- save and load

  /** nabd_checkpoint_save: the record it writes. */
  method Save(groupId: Word32, tail: Word, now: Word) returns (file: File)
    ensures Load(file) == Loaded(Saved(groupId, tail, now))
    ensures var r := Saved(groupId, tail, now);
      && r.magic == CHECKPOINT_MAGIC && r.timestamp == now && r.groupId == groupId && r.tail == tail
      && Covers(r.checksum, r)
  {
    var r := Record(CHECKPOINT_MAGIC, now, groupId, 0, tail, 0);
    var sum := ComputeChecksum(r);
    r := r.(checksum := sum);
    file := Contents(Encode(r));
    CodecRoundTrip(r);
    ChecksumCovers(r);
  }

  /** The record with these fields that carries the right magic and checksum. */
  function Saved(groupId: Word32, tail: Word, now: Word): Record {
    var r := Record(CHECKPOINT_MAGIC, now, groupId, 0, tail, 0);
    r.(checksum := Checksum(r))
  }

  /** nabd_checkpoint_load on the bytes of a file; a short read is corruption. */
  function Load(file: File): Loaded {
    if file.Absent? then NotFound
    else if |file.bytes| < RECORD_SIZE then Corrupted
    else
      var r := Decode(file.bytes);
      if r.magic != CHECKPOINT_MAGIC then Corrupted
      else if r.checksum != Checksum(r) then Corrupted
      else Loaded(r)
  }

  predicate Genuine(r: Record) {
    r.magic == CHECKPOINT_MAGIC && r.checksum == Checksum(r)
  }

  /** A file holding record r is accepted exactly when its magic and checksum match. */
  lemma LoadAccepts(r: Record)
    ensures Load(Contents(Encode(r))) == (if Genuine(r) then Loaded(r) else Corrupted)
  {
    CodecRoundTrip(r);
  }

  lemma FieldStores(b: Bytes, from: nat, to: nat)
    requires from <= to <= |b|
    ensures LittleBytes(Little(b[from..to]), to - from) == b[from..to]
  {
    LittleStores(b[from..to]);
  }

  lemma SlicesJoin(b: Bytes)
    requires |b| >= RECORD_SIZE
    ensures b[..RECORD_SIZE] == b[0..8] + b[8..16] + b[16..20] + b[20..24] + b[24..32] + b[32..40]
  {
  }

  /** Any 40 bytes are the encoding of the record that is read from them. */
  lemma BytesRoundTrip(b: Bytes)
    requires |b| >= RECORD_SIZE
    ensures Encode(Decode(b)) == b[..RECORD_SIZE]
  {
    FieldStores(b, 0, 8);
    FieldStores(b, 8, 16);
    FieldStores(b, 16, 20);
    FieldStores(b, 20, 24);
    FieldStores(b, 24, 32);
    FieldStores(b, 32, 40);
    SlicesJoin(b);
  }

  /** What loading any file answers: NOTFOUND when it is missing, a record exactly when the
      file begins with the bytes of that record and it is genuine, CORRUPTED otherwise. */
  lemma LoadExactly(file: File, r: Record)
    ensures Load(file) == NotFound <==> file.Absent?
    ensures Load(file) == Loaded(r) <==> file.Contents? && Encode(r) <= file.bytes && Genuine(r)
    ensures Load(file).Loaded? || Load(file) == NotFound || Load(file) == Corrupted
  {
    if file.Contents? && |file.bytes| >= RECORD_SIZE {
      BytesRoundTrip(file.bytes);
      if Encode(r) <= file.bytes {
        assert Encode(r) == Encode(Decode(file.bytes));
        CodecRoundTrip(r);
        CodecRoundTrip(Decode(file.bytes));
      }
    }
  }

  // ------------------------------------------------------ detection of damage

  /** Exactly one of the five checked fields differs. */
  predicate OneFieldChanged(r: Record, d: Record) {
    || (d.magic != r.magic && d == r.(magic := d.magic))
    || (d.timestamp != r.timestamp && d == r.(timestamp := d.timestamp))
    || (d.groupId != r.groupId && d == r.(groupId := d.groupId))
    || (d.tail != r.tail && d == r.(tail := d.tail))
    || (d.checksum != r.checksum && d == r.(checksum := d.checksum))
  }

  /** Two genuine records have the same checksum exactly when their mixes agree. */
  lemma ChecksumInjective(r: Record, d: Record)
    ensures Checksum(r) == Checksum(d) <==> Mix(r) == Mix(d)
  {
    MixIsWord(r);
    MixIsWord(d);
    if Checksum(r) == Checksum(d) { RotateInjective(Mix(r), Mix(d)); }
  }

  /** Each of the four fields counts: changing any one of them alone changes the checksum. */
  lemma EveryFieldCounts(r: Record, d: Record)
    requires OneFieldChanged(r, d) && d.checksum == r.checksum
    ensures Checksum(r) != Checksum(d)
  {
    ChecksumInjective(r, d);
    if Mix(r) == Mix(d) { SameMixSameField(r, d); }
  }

  /** Damage to any single checked field of a genuine record is always detected. */
  lemma OneChangeDetected(r: Record, d: Record)
    requires Genuine(r) && OneFieldChanged(r, d)
    ensures Load(Contents(Encode(d))) == Corrupted
  {
    LoadAccepts(d);
    if d.checksum == r.checksum { EveryFieldCounts(r, d); }
    ChecksumIgnoresItself(r, d.checksum);
  }

  /** With all other fields equal, equal mixes force the field to be equal. */
  lemma SameMixSameField(r: Record, d: Record)
    requires Mix(r) == Mix(d)
    ensures r.magic == d.magic && r.timestamp == d.timestamp && r.groupId == d.groupId ==> r.tail == d.tail
    ensures r.magic == d.magic && r.timestamp == d.timestamp && r.tail == d.tail ==> r.groupId == d.groupId
    ensures r.groupId == d.groupId && r.tail == d.tail ==>
      (r.timestamp == d.timestamp <==> r.magic == d.magic)
  {
    var a, b := Xor(r.magic, r.timestamp), Xor(d.magic, d.timestamp);
    if a == b && r.groupId == d.groupId {
      XorCommutes(Xor(a, r.groupId), r.tail);
      XorCommutes(Xor(a, r.groupId), d.tail);
      XorInjective(r.tail, d.tail, Xor(a, r.groupId));
    }
    if a == b && r.tail == d.tail {
      XorInjective(Xor(a, r.groupId), Xor(a, d.groupId), r.tail);
      XorCommutes(a, r.groupId);
      XorCommutes(a, d.groupId);
      XorInjective(r.groupId, d.groupId, a);
    }
    if r.groupId == d.groupId && r.tail == d.tail {
      XorInjective(Xor(a, r.groupId), Xor(b, r.groupId), r.tail);
      XorInjective(a, b, r.groupId);
      SameFirstPair(r, d);
    }
  }

  lemma SameFirstPair(r: Record, d: Record)
    requires Xor(r.magic, r.timestamp) == Xor(d.magic, d.timestamp)
    ensures r.timestamp == d.timestamp <==> r.magic == d.magic
  {
    if r.timestamp == d.timestamp { XorInjective(r.magic, d.magic, r.timestamp); }
    if r.magic == d.magic {
      XorCommutes(r.magic, r.timestamp);
      XorCommutes(r.magic, d.timestamp);
      XorInjective(r.timestamp, d.timestamp, r.magic);
    }
  }

  lemma ChecksumIgnoresItself(r: Record, sum: Word)
    ensures Checksum(r.(checksum := sum)) == Checksum(r)
  {
  }

  /** The padding word is not covered: changing it alone is never detected. */
  lemma PaddingUnchecked(r: Record, pad: Word32)
    requires Genuine(r)
    ensures Load(Contents(Encode(r.(reserved := pad)))) == Loaded(r.(reserved := pad))
  {
    LoadAccepts(r.(reserved := pad));
  }
}
