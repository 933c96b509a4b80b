/** What decoded signals say in physical units: the meaning of a result, and a physical value encoded and read back. */
module SignalMeaning {
  import opened Wrappers
  import opened Arithmetic
  import opened BitFields
  import opened SignalDecoding
  import opened FieldPacking

  /** z is the number written in the field: congruent to its bits, and the one of the field's range. */
  ghost predicate WrittenIn(def: SignalDef, frame: CanFrame, z: int)
    requires def.HasSignBit()
  {
    && Congruent(z, RawBits(def, frame), Pow2(def.length))
    && if def.isSigned then -z <= Pow2(def.length - 1) && z < Pow2(def.length - 1) else 0 <= z < Pow2(def.length)
  }

  /** The raw value is the number written in the field, for every signed field and every unsigned one short of 64
      bits. */
  lemma RawValueIsWritten(def: SignalDef, frame: CanFrame)
    requires def.HasSignBit() && (def.isSigned || def.length < 64)
    ensures WrittenIn(def, frame, RawValue(def, frame))
  {
    hide RawBits;
    RawBitsBound(def, frame);
    if def.isSigned {
      SignedValueIsUnique(def, frame, RawValue(def, frame));
    } else {
      Pow2Monotone(def.length, 63);
      assert RawValue(def, frame) - RawBits(def, frame) == 0 * Pow2(def.length);
    }
  }

  /** Every result of a frame, read by itself: it names a loaded signal of this frame, has that signal's unit, and
      its value is the number written in the field times the scale plus the offset. Every loaded signal of the
      frame has exactly one result. */
  lemma ResultsMean(signals: map<string, SignalDef>, frame: CanFrame, results: seq<DecodedSignal>)
    requires IsDecodeOf(signals, signals.Keys, frame, results)
    ensures forall r :: r in results ==>
              && r.name in signals && signals[r.name].canId == frame.canId && r.unit == signals[r.name].unit
              && var def := signals[r.name];
                 def.isSigned || def.length < 64 ==>
                   exists z :: WrittenIn(def, frame, z) && r.value == z as real * def.scale + def.offset
    ensures forall n :: n in signals && signals[n].canId == frame.canId ==>
              exists i :: 0 <= i < |results| && results[i].name == n
                          && forall j :: 0 <= j < |results| && results[j].name == n ==> j == i
  {
    hide RawValue, WrittenIn;
    forall r | r in results
      ensures && r.name in signals && signals[r.name].canId == frame.canId && r.unit == signals[r.name].unit
              && var def := signals[r.name];
                 def.isSigned || def.length < 64 ==>
                   exists z :: WrittenIn(def, frame, z) && r.value == z as real * def.scale + def.offset
    {
      assert IsResult(signals, signals.Keys, frame, r);
      var def := signals[r.name];
      if def.isSigned || def.length < 64 {
        RawValueIsWritten(def, frame);
        assert r.value == RawValue(def, frame) as real * def.scale + def.offset;
      }
    }
    forall n | n in signals && signals[n].canId == frame.canId
      ensures exists i :: 0 <= i < |results| && results[i].name == n
                          && forall j :: 0 <= j < |results| && results[j].name == n ==> j == i
    {
      var r := Decoded(n, signals[n], frame);
      assert IsResult(signals, signals.Keys, frame, r);
      var i :| 0 <= i < |results| && results[i] == r;
    }
  }

  // --------------------------------------------------------------- physical round trip

  /** A physical difference in units of the scale. */
  function Quanta(def: SignalDef, d: real): real
    requires def.scale != 0.0
  {
    d / def.scale
  }

  /** The raw value of a physical one: what the DBC formula is inverted to, rounded down. */
  function Quantised(def: SignalDef, y: real): int
    requires def.scale != 0.0
  {
    Quanta(def, y - def.offset).Floor
  }

  lemma QuantaOfError(def: SignalDef, y: real, x: real)
    requires def.scale != 0.0
    ensures Quanta(def, y - (x * def.scale + def.offset)) == Quanta(def, y - def.offset) - x
  {
    var q := (y - def.offset) / def.scale;
    assert q * def.scale == y - def.offset;
    assert (q - x) * def.scale == y - (x * def.scale + def.offset);
  }

  lemma QuantisedError(def: SignalDef, y: real)
    requires def.scale != 0.0
    ensures 0.0 <= Quanta(def, y - Physical(def, Quantised(def, y))) < 1.0
  {
    hide Quanta;
    QuantaOfError(def, y, Quantised(def, y) as real);
  }

  /** Physical values of disjoint fields, quantised, packed over any frame and decoded: each comes back to within
      one quantum of its scale. */
  lemma PhysicalRoundTrip(
    canId: nat, v: nat, defs: seq<SignalDef>, ys: seq<real>, xs: seq<int>, k: nat, name: string)
    requires |ys| == |defs| && k < |defs| && v < Pow2(64)
    requires Packable(defs, xs) && defs[k].HasSignBit()
    ensures defs[k].scale != 0.0 && xs[k] == Quantised(defs[k], ys[k]) ==>
              var r := Decoded(name, defs[k], FrameOf(canId, Pack(v, defs, xs)));
              0.0 <= Quanta(defs[k], ys[k] - r.value) < 1.0
  {
    hide Pack, FrameOf, RawValue, Quantised, Physical, Quanta;
    if defs[k].scale != 0.0 && xs[k] == Quantised(defs[k], ys[k]) {
      MultiFieldRoundTrip(canId, v, defs, xs, k);
      QuantisedError(defs[k], ys[k]);
    }
  }
}
