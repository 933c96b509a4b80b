/** SignalDecoder: DBC signal definitions, bit extraction, sign extension and scaling. */
module SignalDecoding {
  import opened Wrappers
  import opened Arithmetic
  import opened BitFields

  datatype Frame = Frame(canId: nat, dlc: nat, data: seq<byte>)

  /** A frame as SocketCAN delivers it: eight data bytes, of which the first dlc are meaningful. */
  type CanFrame = f: Frame | |f.data| == 8 && f.dlc <= 8
    witness Frame(0, 0, [0, 0, 0, 0, 0, 0, 0, 0])

  datatype SignalDef = SignalDef(
    canId: nat,
    startBit: byte,
    length: byte,
    isLittleEndian: bool,
    isSigned: bool,
    scale: real,
    offset: real,
    unit: string
  ) {
    /** Outside this range the sign bit is a shift that C++ leaves undefined. */
    predicate HasSignBit() {
      isSigned ==> 1 <= length <= 64
    }
  }

  datatype DecodedSignal = DecodedSignal(name: string, value: real, unit: string)

  // ------------------------------------------------------------------ specification

  /** The bytes that arrived, as one little-endian number. */
  function Payload(frame: CanFrame): nat {
    LittleEndian(frame.data[..frame.dlc])
  }

  function RawBits(def: SignalDef, frame: CanFrame): nat {
    Extract(Payload(frame), def.startBit, def.length)
  }

  /** The conversion of a 64-bit pattern to int64_t. */
  function AsInt64(u: nat): int {
    if u < Pow2(63) then u else u - Pow2(64)
  }

  function Interpret(def: SignalDef, raw: nat): int
    requires def.HasSignBit()
  {
    if !def.isSigned then AsInt64(raw)
    else if raw < Pow2(def.length - 1) then raw
    else raw - Pow2(def.length)
  }

  function RawValue(def: SignalDef, frame: CanFrame): int
    requires def.HasSignBit()
  {
    Interpret(def, RawBits(def, frame))
  }

  /** The DBC formula. */
  function Physical(def: SignalDef, raw: int): real {
    raw as real * def.scale + def.offset
  }

  function Decoded(name: string, def: SignalDef, frame: CanFrame): DecodedSignal
    requires def.HasSignBit()
  {
    DecodedSignal(name, Physical(def, RawValue(def, frame)), def.unit)
  }

  /** C++ defines the decoding of every signal of a frame with this id. */
  ghost predicate Decodable(signals: map<string, SignalDef>, canId: nat) {
    forall n :: n in signals && signals[n].canId == canId ==> signals[n].HasSignBit()
  }

  /** r is what `frame` says about one of the named signals. */
  ghost predicate IsResult(signals: map<string, SignalDef>, names: set<string>, frame: CanFrame, r: DecodedSignal) {
    && r.name in names && r.name in signals
    && signals[r.name].canId == frame.canId && signals[r.name].HasSignBit()
    && r == Decoded(r.name, signals[r.name], frame)
  }

  /** The results of one frame: each named signal of that frame once, in any order. */
  ghost predicate IsDecodeOf(
    signals: map<string, SignalDef>, names: set<string>, frame: CanFrame, results: seq<DecodedSignal>)
  {
    && Decodable(signals, frame.canId)
    && (forall i, j :: 0 <= i < j < |results| ==> results[i].name != results[j].name)
    && (forall r :: r in results <==> IsResult(signals, names, frame, r))
  }

  lemma DecodeOneMore(
    signals: map<string, SignalDef>, names: set<string>, frame: CanFrame, results: seq<DecodedSignal>, name: string)
    requires IsDecodeOf(signals, names, frame, results) && name in signals && name !in names
    ensures var results' := if signals[name].canId != frame.canId then results
                            else results + [Decoded(name, signals[name], frame)];
            IsDecodeOf(signals, names + {name}, frame, results')
  {
    var results' := if signals[name].canId != frame.canId then results
                    else results + [Decoded(name, signals[name], frame)];
    forall r
      ensures r in results' <==> IsResult(signals, names + {name}, frame, r)
    {
      assert r in results <==> IsResult(signals, names, frame, r);
    }
    forall i | 0 <= i < |results|
      ensures results[i].name != name
    {
      assert IsResult(signals, names, frame, results[i]);
    }
  }

  // ------------------------------------------------------------ the extraction loop

  /** The 8-bit position the loop computes in iteration i. */
  function BitPosition(startBit: byte, i: nat): byte {
    (startBit + i) % 256
  }

  /** None of the first i iterations runs past the dlc. */
  ghost predicate InsideSoFar(def: SignalDef, dlc: nat, i: nat) {
    forall j :: 0 <= j < i ==> BitPosition(def.startBit, j) / 8 < dlc
  }

  /** Iteration i is reached: no earlier one ran past the dlc. */
  ghost predicate Reached(def: SignalDef, dlc: nat, i: nat) {
    i < def.length && InsideSoFar(def, dlc, i)
  }

  lemma OneMoreInside(def: SignalDef, dlc: nat, i: nat)
    requires InsideSoFar(def, dlc, i) && BitPosition(def.startBit, i) / 8 < dlc
    ensures InsideSoFar(def, dlc, i + 1)
  {
  }

  /** In every reached iteration the 8-bit sum did not wrap; if the loop does not break there, the byte
      index is inside the frame and the shift is at most 63. */
  lemma ExtractionLoopIsSafe(def: SignalDef, dlc: nat, i: nat)
    requires dlc <= 8 && Reached(def, dlc, i)
    ensures BitPosition(def.startBit, i) == def.startBit + i
    ensures i + 1 < 256
    ensures BitPosition(def.startBit, i) / 8 < dlc ==> BitPosition(def.startBit, i) / 8 < 8 && i <= 63
  {
    var j: nat := if def.startBit <= 64 then 64 - def.startBit else 0;
    assert BitPosition(def.startBit, j) / 8 >= 8;
  }

  lemma PayloadBound(frame: CanFrame)
    ensures Payload(frame) < Pow2(8 * frame.dlc) <= Pow2(64)
  {
    LittleEndianBound(frame.data[..frame.dlc]);
    Pow2Monotone(8 * frame.dlc, 64);
  }

  lemma RawBitsBound(def: SignalDef, frame: CanFrame)
    ensures RawBits(def, frame) < Pow2(def.length)
    ensures RawBits(def, frame) < Pow2(64)
  {
    PayloadBound(frame);
    ExtractNextBit(Payload(frame), def.startBit, def.length);
    QuotientAtMost(Payload(frame), Pow2(def.startBit), Pow2(def.length));
  }

  lemma QuotientAtMost(v: nat, s: nat, m: nat)
    requires s > 0 && m > 0
    ensures v / s % m <= v
  {
    var q := v / s;
    MulLe(1, s, q);
    assert q * s <= v;
    assert q / m * m >= 0;
  }

  /** The bits collected by the first i iterations. */
  function RawPrefix(def: SignalDef, frame: CanFrame, i: nat): nat {
    Extract(Payload(frame), def.startBit, i)
  }

  lemma ExtractStep(def: SignalDef, frame: CanFrame, i: nat)
    requires (def.startBit + i) / 8 < frame.dlc
    ensures var p := def.startBit + i;
            RawPrefix(def, frame, i + 1)
            == if Bit(frame.data[p / 8], p % 8) == 1 then Or(RawPrefix(def, frame, i), Pow2(i))
               else RawPrefix(def, frame, i)
  {
    hide Pow2, Or, LittleEndian;
    var p := def.startBit + i;
    var v := Payload(frame);
    BitOfByte(frame.data[..frame.dlc], p);
    ExtractNextBit(v, def.startBit, i);
    var b := Bit(v, p);
    assert b == 0 || b == 1;
    assert b == 0 ==> b * Pow2(i) == 0;
    OrFreshBit(Extract(v, def.startBit, i), i);
  }

  lemma ExtractStop(def: SignalDef, frame: CanFrame, i: nat)
    requires i <= def.length && (def.startBit + i) / 8 >= frame.dlc
    ensures RawBits(def, frame) == RawPrefix(def, frame, i)
  {
    PayloadBound(frame);
    Pow2Monotone(8 * frame.dlc, def.startBit + i);
    ExtractBeyond(Payload(frame), def.startBit, i, def.length);
  }

  lemma RawEnds(def: SignalDef, frame: CanFrame)
    ensures RawPrefix(def, frame, 0) == 0
    ensures RawPrefix(def, frame, def.length) == RawBits(def, frame)
  {
    ExtractNextBit(Payload(frame), def.startBit, 0);
  }

  /** What iteration i has to do: stop past the dlc, or set bit i of the result if the bit it reads is set. */
  lemma LoopStep(def: SignalDef, frame: CanFrame, i: nat)
    requires i < def.length && InsideSoFar(def, frame.dlc, i)
    ensures (i + 1) % 256 == i + 1
    ensures var pos := BitPosition(def.startBit, i);
            if pos / 8 >= frame.dlc then RawBits(def, frame) == RawPrefix(def, frame, i)
            else
              && pos / 8 < 8 && InsideSoFar(def, frame.dlc, i + 1)
              && RawPrefix(def, frame, i + 1)
                 == if Bit(frame.data[pos / 8], pos % 8) == 1 then Or(RawPrefix(def, frame, i), Pow2(i))
                    else RawPrefix(def, frame, i)
  {
    hide RawBits, RawPrefix, Bit, Or, Pow2, InsideSoFar;
    ExtractionLoopIsSafe(def, frame.dlc, i);
    if BitPosition(def.startBit, i) / 8 >= frame.dlc {
      ExtractStop(def, frame, i);
    } else {
      ExtractStep(def, frame, i);
      OneMoreInside(def, frame.dlc, i);
    }
  }

  method ExtractRaw(def: SignalDef, frame: CanFrame) returns (raw: nat)
    ensures raw == RawBits(def, frame)
  {
    assert InsideSoFar(def, frame.dlc, 0);
    hide *;
    RawEnds(def, frame);
    raw := 0;
    var i := 0;
    while i < def.length
      invariant 0 <= i <= def.length
      invariant InsideSoFar(def, frame.dlc, i)
      invariant raw == RawPrefix(def, frame, i)
    {
      LoopStep(def, frame, i);
      var bitPos := BitPosition(def.startBit, i);
      var byteIdx := bitPos / 8;
      var bitIdx := bitPos % 8;
      if byteIdx >= frame.dlc {
        break;
      }
      if Bit(frame.data[byteIdx], bitIdx) == 1 {
        raw := Or(raw, Pow2(i));
      }
      i := (i + 1) % 256;
    }
  }

  /** The complement of a 64-bit pattern. */
  function Complement64(x: nat): nat
    requires x < Pow2(64)
  {
    Pow2(64) - 1 - x
  }

  lemma TopBit(raw: nat, k: nat)
    requires raw < Pow2(k + 1)
    ensures Bit(raw, k) == 1 <==> raw >= Pow2(k)
  {
    DivModUnique(raw, Pow2(k), if raw >= Pow2(k) then 1 else 0, if raw >= Pow2(k) then raw - Pow2(k) else raw);
  }

  /** Or-ing the mask above a set sign bit k makes the pattern that of a negative number. */
  lemma NegativeValue(raw: nat, k: nat, mask: nat)
    requires k < 64 && Pow2(k) <= raw < Pow2(k + 1) && mask == Pow2(64) - Pow2(k)
    ensures AsInt64(Or(raw, mask)) == raw - Pow2(k + 1)
  {
    hide Pow2, Or, Mask;
    Pow2Monotone(k, 63);
    Pow2Next(63);
    Pow2Next(k);
    OrMask(k, 64 - k, raw - Pow2(k));
  }

  method SignExtend(def: SignalDef, raw: nat) returns (rawSigned: int)
    requires def.HasSignBit() && raw < Pow2(def.length)
    ensures rawSigned == Interpret(def, raw)
  {
    rawSigned := AsInt64(raw);
    if def.isSigned {
      hide Pow2, Or;
      var k: nat := def.length - 1;
      var signBit := Pow2(k);
      Pow2Next(k);
      Pow2Next(63);
      TopBit(raw, k);
      Pow2Monotone(k, 63);
      if Bit(raw, k) == 1 {
        NegativeValue(raw, k, Complement64(signBit - 1));
        rawSigned := AsInt64(Or(raw, Complement64(signBit - 1)));
      }
    }
  }

  /** The body of the decode loop for one signal of the frame. */
  method DecodeSignal(name: string, def: SignalDef, frame: CanFrame) returns (sig: DecodedSignal)
    requires def.HasSignBit()
    ensures sig == Decoded(name, def, frame)
  {
    var raw := ExtractRaw(def, frame);
    RawBitsBound(def, frame);
    var rawSigned := SignExtend(def, raw);
    var physical := Physical(def, rawSigned);
    sig := DecodedSignal(name, physical, def.unit);
  }

  // -------------------------------------------------------------------- DBC lines

  /** A DBC line as the two regular expressions classify it. Misscaled is a signal line whose scale or offset
      stod rejects: the expressions accept any text there, but only digits for the other numbers. */
  datatype Line =
    | Message(id: nat)
    | Signal(
        name: string, start: nat, len: nat, littleEndian: bool, signed: bool,
        scale: real, offset: real, unit: string)
    | Misscaled(name: string)
    | Other

  /** One more than the largest number stoul can return. */
  const ULONG_END := 0x1_0000_0000_0000_0000

  /** Converting the numbers of this line throws; those of a signal nobody asked for are not converted. */
  predicate Throws(line: Line, wanted: seq<string>) {
    match line
    case Message(id) => id >= ULONG_END
    case Signal(name, start, len, _, _, _, _, _) => name in wanted && (start >= ULONG_END || len >= ULONG_END)
    case Misscaled(name) => name in wanted
    case Other => false
  }

  /** How many lines are read before one throws. */
  function Survived(lines: seq<Line>, wanted: seq<string>): (n: nat)
    ensures n <= |lines|
    ensures n < |lines| ==> Throws(lines[n], wanted)
    ensures forall i :: 0 <= i < n ==> !Throws(lines[i], wanted)
  {
    if lines == [] || Throws(lines[0], wanted) then 0 else 1 + Survived(lines[1..], wanted)
  }

  /** A file loads to its end if and only if all its message ids, and the start bits and lengths of the wanted
      signals, fit 64 bits, and the wanted signals' scales and offsets are numbers. */
  lemma LoadCompletesIff(lines: seq<Line>, wanted: seq<string>)
    ensures Survived(lines, wanted) == |lines|
            <==> forall i :: 0 <= i < |lines| ==>
                   && (lines[i].Message? ==> lines[i].id < 18446744073709551616)
                   && (lines[i].Signal? && lines[i].name in wanted ==>
                         lines[i].start < 18446744073709551616 && lines[i].len < 18446744073709551616)
                   && (lines[i].Misscaled? ==> lines[i].name !in wanted)
  {
    var n := Survived(lines, wanted);
    if n == |lines| {
      forall i | 0 <= i < |lines|
        ensures !Throws(lines[i], wanted)
      {
      }
    }
  }

  /** The id of the message block that is open after these lines. */
  function CurrentId(lines: seq<Line>): nat {
    if lines == [] then 0
    else
      var last := lines[|lines| - 1];
      if last.Message? then last.id % 0x1_0000_0000 else CurrentId(lines[..|lines| - 1])
  }

  function DefOf(line: Line, canId: nat): SignalDef
    requires line.Signal?
  {
    SignalDef(
      canId, line.start % 256, line.len % 256, line.littleEndian, line.signed, line.scale, line.offset, line.unit)
  }

  function Loaded(signals: map<string, SignalDef>, lines: seq<Line>, wanted: seq<string>): map<string, SignalDef> {
    if lines == [] then signals
    else
      var before := lines[..|lines| - 1];
      var last := lines[|lines| - 1];
      if last.Signal? && last.name in wanted
      then Loaded(signals, before, wanted)[last.name := DefOf(last, CurrentId(before))]
      else Loaded(signals, before, wanted)
  }

  ghost predicate Defines(line: Line, name: string) {
    line.Signal? && line.name == name
  }

  /** The definition in force for a wanted name is that of its last signal line. */
  lemma {:induction false} LoadedLastDefinition(
    signals: map<string, SignalDef>, lines: seq<Line>, wanted: seq<string>, name: string, k: nat)
    requires name in wanted && k < |lines| && Defines(lines[k], name)
    requires forall j :: k < j < |lines| ==> !Defines(lines[j], name)
    ensures name in Loaded(signals, lines, wanted)
    ensures var def, line := Loaded(signals, lines, wanted)[name], lines[k];
            && def.canId == CurrentId(lines[..k])
            && def.startBit == line.start % 256 && def.length == line.len % 256
            && def.isSigned == line.signed && def.isLittleEndian == line.littleEndian
            && def.scale == line.scale && def.offset == line.offset && def.unit == line.unit
    decreases |lines|
  {
    var n := |lines| - 1;
    if k < n {
      assert lines[..n][..k] == lines[..k];
      LoadedLastDefinition(signals, lines[..n], wanted, name, k);
    }
  }

  /** Every other name keeps the definition it had before the file was read. */
  lemma {:induction false} LoadedUntouched(
    signals: map<string, SignalDef>, lines: seq<Line>, wanted: seq<string>, name: string)
    requires name !in wanted || forall j :: 0 <= j < |lines| ==> !Defines(lines[j], name)
    ensures name in Loaded(signals, lines, wanted) <==> name in signals
    ensures name in signals ==> Loaded(signals, lines, wanted)[name] == signals[name]
  {
    if lines != [] {
      LoadedUntouched(signals, lines[..|lines| - 1], wanted, name);
    }
  }

  /** A signal line belongs to the nearest message line above it. */
  lemma {:induction false} CurrentIdIsNearest(lines: seq<Line>, m: nat)
    requires m < |lines| && lines[m].Message?
    requires forall j :: m < j < |lines| ==> !lines[j].Message?
    ensures CurrentId(lines) == lines[m].id % 0x1_0000_0000
  {
    var n := |lines| - 1;
    if m < n {
      CurrentIdIsNearest(lines[..n], m);
    }
  }

  // ------------------------------------------------------------------------ the class

  datatype LoadResult = CannotOpen | Complete | Threw

  class SignalDecoder {
    var signals: map<string, SignalDef>

    constructor ()
      ensures signals == map[]
    {
      signals := map[];
    }

    /** `file` is absent when the DBC file cannot be opened. */
    method Load(file: Option<seq<Line>>, signalNames: seq<string>) returns (r: LoadResult)
      modifies this
      ensures file.None? ==> r == CannotOpen && signals == old(signals)
      ensures file.Some? ==>
                var n := Survived(file.value, signalNames);
                && r == (if n == |file.value| then Complete else Threw)
                && signals == Loaded(old(signals), file.value[..n], signalNames)
    {
      if file.None? {
        return CannotOpen;
      }
      var lines := file.value;
      var currentId := 0;
      for i := 0 to |lines|
        invariant i <= Survived(lines, signalNames)
        invariant currentId == CurrentId(lines[..i])
        invariant signals == Loaded(old(signals), lines[..i], signalNames)
      {
        if Throws(lines[i], signalNames) {
          return Threw;
        }
        assert lines[..i + 1][..i] == lines[..i];
        match lines[i]
        case Message(id) =>
          currentId := id % 0x1_0000_0000;
        case Signal(name, _, _, _, _, _, _, _) =>
          if name in signalNames {
            signals := signals[name := DefOf(lines[i], currentId)];
          }
        case Misscaled(_) =>
        case Other =>
      }
      return Complete;
    }

    method Decode(frame: CanFrame) returns (results: seq<DecodedSignal>)
      requires Decodable(signals, frame.canId)
      ensures IsDecodeOf(signals, signals.Keys, frame, results)
    {
      results := [];
      var todo := signals.Keys;
      while todo != {}
        invariant todo <= signals.Keys
        invariant IsDecodeOf(signals, signals.Keys - todo, frame, results)
      {
        var name :| name in todo;
        DecodeOneMore(signals, signals.Keys - todo, frame, results, name);
        assert signals.Keys - (todo - {name}) == (signals.Keys - todo) + {name};
        todo := todo - {name};
        var def := signals[name];
        if def.canId != frame.canId {
          continue;
        }
        var sig := DecodeSignal(name, def, frame);
        results := results + [sig];
      }
      assert signals.Keys - todo == signals.Keys;
    }
  }
}
