/** The inverse of decoding: packing field values into a frame and reading them back. */
module FieldPacking {
  import opened Arithmetic
  import opened BitFields
  import opened SignalDecoding

  predicate Inside(def: SignalDef) {
    1 <= def.length && def.startBit + def.length <= 64
  }

  predicate Disjoint(d: SignalDef, e: SignalDef) {
    d.startBit + d.length <= e.startBit || e.startBit + e.length <= d.startBit
  }

  /** x is a raw value the field can hold and decode can return. */
  predicate Fits(def: SignalDef, x: int)
    requires Inside(def)
  {
    if def.isSigned then -x <= Pow2(def.length - 1) && x < Pow2(def.length - 1)
    else 0 <= x < Pow2(def.length) && x < Pow2(63)
  }

  /** The bits of x in two's complement. */
  function FieldBits(def: SignalDef, x: int): nat
    requires Inside(def) && Fits(def, x)
  {
    if x < 0 then x + Pow2(def.length) else x
  }

  function FrameOf(canId: nat, v: nat): CanFrame {
    Frame(canId, 8, ToBytes(v, 8))
  }

  ghost predicate Packable(defs: seq<SignalDef>, xs: seq<int>) {
    && |defs| == |xs|
    && (forall i :: 0 <= i < |defs| ==> Inside(defs[i]) && Fits(defs[i], xs[i]))
    && (forall i, j :: 0 <= i < j < |defs| ==> Disjoint(defs[i], defs[j]))
  }

  /** Packs the fields one after another, first to last, over the frame v. */
  function Pack(v: nat, defs: seq<SignalDef>, xs: seq<int>): nat
    requires |defs| == |xs|
    requires forall i :: 0 <= i < |defs| ==> Inside(defs[i]) && Fits(defs[i], xs[i])
  {
    if defs == [] then v
    else
      var n := |defs| - 1;
      Insert(Pack(v, defs[..n], xs[..n]), defs[n].startBit, defs[n].length, FieldBits(defs[n], xs[n]))
  }

  lemma FieldBitsFit(def: SignalDef, x: int)
    requires Inside(def) && Fits(def, x)
    ensures FieldBits(def, x) < Pow2(def.length)
    ensures Interpret(def, FieldBits(def, x)) == x
  {
  }

  lemma PayloadOfFrame(canId: nat, v: nat)
    requires v < Pow2(64)
    ensures Payload(FrameOf(canId, v)) == v
  {
    LittleEndianToBytes(v, 8);
    assert ToBytes(v, 8)[..8] == ToBytes(v, 8);
  }

  lemma {:induction false} PackBound(v: nat, defs: seq<SignalDef>, xs: seq<int>)
    requires Packable(defs, xs) && v < Pow2(64)
    ensures Pack(v, defs, xs) < Pow2(64)
  {
    if defs != [] {
      hide Pow2, Insert, FieldBits;
      var n := |defs| - 1;
      PackBound(v, defs[..n], xs[..n]);
      FieldBitsFit(defs[n], xs[n]);
      InsertBound(Pack(v, defs[..n], xs[..n]), defs[n].startBit, defs[n].length, FieldBits(defs[n], xs[n]), 64);
    }
  }

  /** Packing leaves every field that shares no bit with the packed ones as it was. */
  lemma {:induction false} PackFrame(v: nat, defs: seq<SignalDef>, xs: seq<int>, other: SignalDef)
    requires Packable(defs, xs)
    requires forall i :: 0 <= i < |defs| ==> Disjoint(defs[i], other)
    ensures Extract(Pack(v, defs, xs), other.startBit, other.length) == Extract(v, other.startBit, other.length)
  {
    if defs != [] {
      var n := |defs| - 1;
      PackFrame(v, defs[..n], xs[..n], other);
      FieldBitsFit(defs[n], xs[n]);
      InsertFrame(Pack(v, defs[..n], xs[..n]), defs[n].startBit, defs[n].length, FieldBits(defs[n], xs[n]),
                  other.startBit, other.length);
    }
  }

  lemma {:induction false} PackedBits(v: nat, defs: seq<SignalDef>, xs: seq<int>, k: nat)
    requires Packable(defs, xs) && k < |defs|
    ensures Extract(Pack(v, defs, xs), defs[k].startBit, defs[k].length) == FieldBits(defs[k], xs[k])
  {
    var n := |defs| - 1;
    var before := Pack(v, defs[..n], xs[..n]);
    FieldBitsFit(defs[n], xs[n]);
    if k == n {
      InsertParts(before, defs[n].startBit, defs[n].length, FieldBits(defs[n], xs[n]));
    } else {
      PackedBits(v, defs[..n], xs[..n], k);
      InsertFrame(before, defs[n].startBit, defs[n].length, FieldBits(defs[n], xs[n]),
                  defs[k].startBit, defs[k].length);
    }
  }

  /** Any pairwise disjoint fields, packed in any order over any frame, decode to the values packed. */
  lemma MultiFieldRoundTrip(canId: nat, v: nat, defs: seq<SignalDef>, xs: seq<int>, k: nat)
    requires Packable(defs, xs) && v < Pow2(64) && k < |defs|
    requires defs[k].HasSignBit()
    ensures RawValue(defs[k], FrameOf(canId, Pack(v, defs, xs))) == xs[k]
  {
    PackBound(v, defs, xs);
    PayloadOfFrame(canId, Pack(v, defs, xs));
    PackedBits(v, defs, xs, k);
    FieldBitsFit(defs[k], xs[k]);
  }

  /** Rewriting fields of a frame leaves what is decoded from the other fields unchanged. */
  lemma RewriteKeepsOthers(canId: nat, v: nat, defs: seq<SignalDef>, xs: seq<int>, other: SignalDef)
    requires Packable(defs, xs) && v < Pow2(64) && other.HasSignBit()
    requires forall i :: 0 <= i < |defs| ==> Disjoint(defs[i], other)
    ensures RawValue(other, FrameOf(canId, Pack(v, defs, xs))) == RawValue(other, FrameOf(canId, v))
  {
    PackBound(v, defs, xs);
    PayloadOfFrame(canId, v);
    PayloadOfFrame(canId, Pack(v, defs, xs));
    PackFrame(v, defs, xs, other);
  }

  // --------------------------------------------------------- what decode returns

  /** For a field inside the frame the missing-byte rule does not matter: the raw bits are those of all
      eight bytes. */
  lemma WholeFieldIgnoresTail(def: SignalDef, frame: CanFrame)
    requires def.startBit + def.length <= 8 * frame.dlc
    ensures RawBits(def, frame) == Extract(LittleEndian(frame.data), def.startBit, def.length)
  {
    LittleEndianPrefix(frame.data, frame.dlc);
    ExtractLow(LittleEndian(frame.data), def.startBit, def.length, 8 * frame.dlc);
  }

  lemma BytePower()
    ensures Pow2(8) == 256
  {
  }

  lemma {:induction false} LittleEndianPrefix(data: seq<byte>, n: nat)
    requires n <= |data|
    ensures LittleEndian(data) % Pow2(8 * n) == LittleEndian(data[..n])
  {
    if n == 0 {
      assert Pow2(0) == 1;
    } else {
      hide Pow2;
      LittleEndianPrefix(data[1..], n - 1);
      assert data[..n][1..] == data[1..][..n - 1];
      Pow2Add(8, 8 * (n - 1));
      BytePower();
      DivModProduct(LittleEndian(data), 256, Pow2(8 * (n - 1)));
    }
  }

  /** A field cut short by the dlc reads its missing high bits as zero. */
  lemma TruncatedFieldHasZeroHighBits(def: SignalDef, frame: CanFrame)
    requires def.startBit <= 8 * frame.dlc < def.startBit + def.length
    ensures var present := 8 * frame.dlc - def.startBit;
            RawBits(def, frame) == Extract(LittleEndian(frame.data), def.startBit, present)
  {
    var present := 8 * frame.dlc - def.startBit;
    PayloadBound(frame);
    ExtractBeyond(Payload(frame), def.startBit, present, def.length);
    LittleEndianPrefix(frame.data, frame.dlc);
    ExtractLow(LittleEndian(frame.data), def.startBit, present, 8 * frame.dlc);
  }

  ghost predicate Congruent(x: int, y: int, m: int) {
    exists k :: x - y == k * m
  }

  lemma SignedRange(def: SignalDef, raw: nat)
    requires def.isSigned && def.HasSignBit() && raw < Pow2(def.length)
    ensures var half: int := Pow2(def.length - 1);
            && -half <= Interpret(def, raw) < half
            && Interpret(def, raw) == raw + (if raw < half then 0 else -1) * Pow2(def.length)
  {
  }

  /** A signed raw value is the only integer of the two's complement range that agrees with the bits. */
  lemma SignedValueIsUnique(def: SignalDef, frame: CanFrame, z: int)
    requires def.isSigned && def.HasSignBit()
    ensures var half: int := Pow2(def.length - 1);
            (-half <= z < half && Congruent(z, RawBits(def, frame), Pow2(def.length))) <==> z == RawValue(def, frame)
  {
    var half: int := Pow2(def.length - 1);
    var raw := RawBits(def, frame);
    RawBitsBound(def, frame);
    SignedRange(def, raw);
    UniqueInRange(half, 2 * half, raw, Interpret(def, raw), if raw < half then 0 else -1, z);
  }

  lemma UniqueInRange(half: int, m: int, raw: int, x: int, k: int, z: int)
    requires m == 2 * half && -half <= x < half && x == raw + k * m
    ensures (-half <= z < half && Congruent(z, raw, m)) <==> z == x
  {
    assert x - raw == k * m;
    if -half <= z < half && Congruent(z, raw, m) {
      var k' :| z - raw == k' * m;
      MultipleInOpenRange(k', k, m, z - x);
    }
  }

  lemma MultipleInOpenRange(k: int, k': int, m: int, d: int)
    requires d == k * m - k' * m && -m < d < m
    ensures d == 0
  {
    var e := k - k';
    assert e * m == d;
    assert e >= 1 ==> e * m >= m;
    assert e <= -1 ==> e * m <= -m;
  }

  lemma QuotientBelowHalf(v: nat, s: nat, m: nat)
    requires s >= 2 && m > 0 && v < 2 * m
    ensures v / s < m
  {
    MulLe(2, s, v / s);
    assert v / s * s <= v;
  }

  /** The raw bits reach 2^63 only where the field is the whole frame and its last byte has its top bit set. */
  lemma RawBitsReachSignBitIff(def: SignalDef, frame: CanFrame)
    ensures RawBits(def, frame) >= Pow2(63)
            <==> def.startBit == 0 && def.length >= 64 && frame.dlc == 8 && frame.data[7] >= 128
  {
    hide Pow2, RawBits, Payload;
    if def.length < 64 {
      RawBitsBound(def, frame);
      Pow2Monotone(def.length, 63);
    } else if frame.dlc < 8 {
      PayloadBound(frame);
      Pow2Monotone(8 * frame.dlc, 63);
      RawBitsAtMostPayload(def, frame);
    } else if def.startBit > 0 {
      ShiftedBelowSignBit(def, frame);
    } else {
      WholeFrame(def, frame);
      FullFrameTopBit(frame);
    }
  }

  lemma RawBitsAtMostPayload(def: SignalDef, frame: CanFrame)
    ensures RawBits(def, frame) <= Payload(frame)
  {
    hide Pow2, Payload;
    QuotientAtMost(Payload(frame), Pow2(def.startBit), Pow2(def.length));
  }

  lemma ShiftedBelowSignBit(def: SignalDef, frame: CanFrame)
    requires def.startBit > 0
    ensures RawBits(def, frame) < Pow2(63)
  {
    hide Pow2, Payload;
    PayloadBound(frame);
    Pow2Next(63);
    TwoDivides(def.startBit);
    QuotientBelowHalf(Payload(frame), Pow2(def.startBit), Pow2(63));
    RemainderAtMost(Payload(frame) / Pow2(def.startBit), Pow2(def.length));
  }

  lemma TwoDivides(n: nat)
    requires n > 0
    ensures Pow2(n) >= 2
  {
  }

  lemma RemainderAtMost(q: nat, m: nat)
    requires m > 0
    ensures q % m <= q
  {
    QuotientAtMost(q, 1, m);
  }

  lemma WholeFrame(def: SignalDef, frame: CanFrame)
    requires def.startBit == 0 && def.length >= 64 && frame.dlc == 8
    ensures RawBits(def, frame) == Payload(frame)
  {
    PayloadBound(frame);
    Pow2Monotone(64, def.length);
    assert Pow2(0) == 1;
    DivModUnique(Payload(frame), Pow2(def.length), 0, Payload(frame));
  }

  lemma FullFrameTopBit(frame: CanFrame)
    requires frame.dlc == 8
    ensures Payload(frame) >= Pow2(63) <==> frame.data[7] >= 128
  {
    hide Pow2, LittleEndian;
    PayloadBound(frame);
    BitOfByte(frame.data[..8], 63);
    TopBit(Payload(frame), 63);
    TopBitOfByte(frame.data[7]);
  }

  lemma TopBitOfByte(b: byte)
    ensures Bit(b, 7) == 1 <==> b >= 128
  {
    assert Pow2(7) == 128 && Pow2(8) == 256;
    TopBit(b, 7);
  }

  /** An unsigned field is misread, as a negative number, exactly when it spans all 64 bits of a full frame
      whose last byte has its top bit set. */
  lemma UnsignedIsMisreadIff(def: SignalDef, frame: CanFrame)
    requires !def.isSigned
    ensures RawValue(def, frame) != RawBits(def, frame)
            <==> def.startBit == 0 && def.length >= 64 && frame.dlc == 8 && frame.data[7] >= 128
    ensures RawValue(def, frame) != RawBits(def, frame) ==> RawValue(def, frame) < 0
  {
    hide RawBits, Pow2;
    RawBitsReachSignBitIff(def, frame);
    RawBitsBound(def, frame);
    Pow2Next(63);
  }

  lemma {:induction false} ZerosAbove(n: nat, b: byte)
    ensures LittleEndian(seq(n, _ => 0) + [b]) == Pow2(8 * n) * b
  {
    var d := seq(n, _ => 0) + [b];
    if n == 0 {
      assert d == [b] && d[1..] == [];
    } else {
      hide Pow2;
      ZerosAbove(n - 1, b);
      assert d[0] == 0 && d[1..] == seq(n - 1, _ => 0) + [b];
      Pow2Add(8, 8 * (n - 1));
      BytePower();
      assert Pow2(8 * n) * b == 256 * (Pow2(8 * (n - 1)) * b);
    }
  }

  lemma OnlyTopBit()
    ensures LittleEndian([0, 0, 0, 0, 0, 0, 0, 128]) == Pow2(63)
  {
    ZerosAbove(7, 128);
    assert seq(7, _ => 0) + [128] == [0, 0, 0, 0, 0, 0, 0, 128];
    Pow2Add(56, 7);
    assert Pow2(7) == 128;
  }

  /** A frame whose only set bit is the last one, read as one unsigned 64-bit field, gives -2^63. */
  lemma UnsignedMisreadFrame(scale: real, offset: real, unit: string)
    ensures var def := SignalDef(0, 0, 64, true, false, scale, offset, unit);
            var frame := Frame(0, 8, [0, 0, 0, 0, 0, 0, 0, 128]);
            RawBits(def, frame) == Pow2(63) && RawValue(def, frame) == -(Pow2(63) as int)
  {
    hide Pow2, LittleEndian;
    var def := SignalDef(0, 0, 64, true, false, scale, offset, unit);
    var frame: CanFrame := Frame(0, 8, [0, 0, 0, 0, 0, 0, 0, 128]);
    WholeFrame(def, frame);
    OnlyTopBit();
    assert frame.data[..8] == [0, 0, 0, 0, 0, 0, 0, 128];
    Pow2Next(63);
  }
}
