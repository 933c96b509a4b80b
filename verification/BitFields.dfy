/** Fields of a CAN frame as arithmetic on the frame read as one little-endian number. */
module BitFields {
  import opened Arithmetic

  type byte = x: int | 0 <= x < 256

  /** The little-endian value of a byte string. */
  function LittleEndian(data: seq<byte>): (v: nat)
  {
    if data == [] then 0 else data[0] + 256 * LittleEndian(data[1..])
  }

  /** The n low bytes of a number, least significant first. */
  function ToBytes(v: nat, n: nat): (data: seq<byte>)
    ensures |data| == n
  {
    if n == 0 then [] else [v % 256] + ToBytes(v / 256, n - 1)
  }

  function Bit(v: nat, i: nat): nat {
    v / Pow2(i) % 2
  }

  /** The field of `length` bits whose least significant bit is bit `start` of `v`. */
  function Extract(v: nat, start: nat, length: nat): nat {
    v / Pow2(start) % Pow2(length)
  }

  /** `v` with the field at `start` replaced by `x` and every other bit kept. */
  function Insert(v: nat, start: nat, length: nat, x: nat): nat {
    (Shift(v, start + length) * Pow2(length) + x) * Pow2(start) + v % Pow2(start)
  }

  function Shift(v: nat, n: nat): nat {
    Quotient(v, Pow2(n))
  }

  function Quotient(v: nat, d: nat): nat
    requires d > 0
  {
    v / d
  }

  /** n one bits above k zero bits. */
  function Mask(n: nat, k: nat): (m: nat)
    ensures m + Pow2(k) == Pow2(n + k)
  {
    if k == 0 then Pow2(n) - 1 else 2 * Mask(n, k - 1)
  }

  /** Bitwise or. */
  function Or(a: nat, b: nat): nat
    decreases a + b
  {
    if a == 0 then b
    else if b == 0 then a
    else 2 * Or(a / 2, b / 2) + (if a % 2 == 1 || b % 2 == 1 then 1 else 0)
  }

  lemma {:induction false} OrFreshBit(a: nat, i: nat)
    requires a < Pow2(i)
    ensures Or(a, Pow2(i)) == a + Pow2(i)
  {
    if a > 0 {
      OrFreshBit(a / 2, i - 1);
    }
  }

  lemma OrOne(n: nat)
    requires n >= 1
    ensures Or(1, Pow2(n) - 1) == Pow2(n) - 1
  {
    var m := Pow2(n) - 1;
    assert m == 2 * (Pow2(n - 1) - 1) + 1;
    assert m / 2 == Pow2(n - 1) - 1 && m % 2 == 1;
    assert Or(0, m / 2) == m / 2;
    assert Or(1, m) == 2 * Or(1 / 2, m / 2) + 1;
  }

  /** Setting n bits from position k, the lowest of them set already, keeps the k bits below. */
  lemma {:induction false} OrMask(k: nat, n: nat, low: nat)
    requires n >= 1 && low < Pow2(k)
    ensures Or(Pow2(k) + low, Mask(n, k)) == Mask(n, k) + low
  {
    if k == 0 {
      OrOne(n);
    } else {
      OrMask(k - 1, n, low / 2);
      OrDouble(Pow2(k - 1), low, Mask(n, k - 1));
    }
  }

  lemma OrDouble(a: nat, low: nat, b: nat)
    requires a >= 1
    ensures Or(2 * a + low, 2 * b) == 2 * Or(a + low / 2, b) + low % 2
  {
    assert (2 * a + low) / 2 == a + low / 2 && (2 * a + low) % 2 == low % 2;
  }

  // ---------------------------------------------------------------- bytes and bits

  lemma {:induction false} LittleEndianBound(data: seq<byte>)
    ensures LittleEndian(data) < Pow2(8 * |data|)
  {
    if data != [] {
      LittleEndianBound(data[1..]);
      Pow2Add(8, 8 * |data[1..]|);
      assert Pow2(8) == 256;
    }
  }

  lemma {:induction false} LittleEndianToBytes(v: nat, n: nat)
    requires v < Pow2(8 * n)
    ensures LittleEndian(ToBytes(v, n)) == v
  {
    if n > 0 {
      Pow2Add(8, 8 * (n - 1));
      assert Pow2(8) == 256;
      DivBelow(v, 256, Pow2(8 * (n - 1)));
      LittleEndianToBytes(v / 256, n - 1);
      assert ToBytes(v, n)[1..] == ToBytes(v / 256, n - 1);
    }
  }

  /** Below position 8 a bit of x + 256 * y is a bit of x. */
  lemma BitOfLowByte(x: nat, y: nat, p: nat)
    requires p < 8
    ensures Bit(x + 256 * y, p) == Bit(x, p)
  {
    Pow2Add(p, 7 - p);
    assert Pow2(7) == 128;
    EvenQuotient(x, Pow2(p), y * Pow2(7 - p), 256 * y) by {
      assert 2 * (y * Pow2(7 - p) * Pow2(p)) == 2 * (y * (Pow2(p) * Pow2(7 - p)));
    }
  }

  lemma EvenQuotient(x: nat, h: nat, z: nat, w: nat)
    requires h > 0 && w == 2 * (z * h)
    ensures (x + w) / h % 2 == x / h % 2
  {
    assert (x / h + 2 * z) * h == x / h * h + 2 * (z * h);
    DivModUnique(x + w, h, x / h + 2 * z, x % h);
  }

  /** From position 8 on it is a bit of y. */
  lemma BitOfHighBytes(x: byte, y: nat, p: nat)
    requires p >= 8
    ensures Bit(x + 256 * y, p) == Bit(y, p - 8)
  {
    Pow2Add(8, p - 8);
    assert Pow2(8) == 256;
    DivModProduct(x + 256 * y, 256, Pow2(p - 8));
  }

  /** Bit p of the number is bit p mod 8 of byte p / 8. */
  lemma {:induction false} BitOfByte(data: seq<byte>, p: nat)
    requires p < 8 * |data|
    ensures Bit(LittleEndian(data), p) == Bit(data[p / 8], p % 8)
    decreases |data|
  {
    var rest := LittleEndian(data[1..]);
    if p >= 8 {
      BitOfHighBytes(data[0], rest, p);
      BitOfByte(data[1..], p - 8);
      assert (p - 8) / 8 == p / 8 - 1 && (p - 8) % 8 == p % 8;
    } else {
      BitOfLowByte(data[0], rest, p);
    }
  }

  // ------------------------------------------------------------- laws of Extract

  lemma ExtractNextBit(v: nat, start: nat, i: nat)
    ensures Extract(v, start, i) < Pow2(i)
    ensures Extract(v, start, i + 1) == Extract(v, start, i) + Bit(v, start + i) * Pow2(i)
  {
    Pow2Add(start, i);
    NextBit(v, Pow2(start), Pow2(i));
  }

  lemma NextBit(v: nat, s: nat, w: nat)
    requires s > 0 && w > 0
    ensures s * w > 0
    ensures v / s % (2 * w) == v / s % w + v / (s * w) % 2 * w
  {
    DivModProduct(v, s, w);
    DivModProduct(v / s, w, 2);
  }

  /** Above the highest bit of v there is nothing left to extract. */
  lemma ExtractBeyond(v: nat, start: nat, i: nat, length: nat)
    requires v < Pow2(start + i) && i <= length
    ensures Extract(v, start, length) == Extract(v, start, i)
  {
    hide Pow2;
    Pow2Add(start, i);
    Pow2Monotone(i, length);
    SmallQuotient(v, Pow2(start), Pow2(i), Pow2(length));
  }

  lemma SmallQuotient(v: nat, s: nat, w: nat, l: nat)
    requires s > 0 && 0 < w <= l && v < s * w
    ensures v / s % l == v / s % w
  {
    DivBelow(v, s, w);
    var q := v / s;
    DivModUnique(q, l, 0, q);
    DivModUnique(q, w, 0, q);
  }

  /** A field depends only on the number modulo any power of two above it. */
  lemma ExtractLow(v: nat, start: nat, length: nat, n: nat)
    requires start + length <= n
    ensures Extract(v, start, length) == Extract(v % Pow2(n), start, length)
  {
    var s, l, k := Pow2(start), Pow2(length), Pow2(n - start - length);
    Pow2Split(start, n);
    Pow2Split(length, n - start);
    ModModProduct(v, s, l, k);
  }

  lemma ModModProduct(v: nat, s: nat, l: nat, k: nat)
    requires s > 0 && l > 0 && k > 0
    ensures l * k > 0 && s * (l * k) > 0
    ensures v % (s * (l * k)) / s % l == v / s % l
  {
    DivModProduct(v, s, l * k);
    var y := v / s;
    var x := y % (l * k);
    DivModUnique(v % (s * (l * k)), s, x, v % s);
    DivModProduct(y, l, k);
    DivModUnique(x, l, (y / l) % k, y % l);
  }

  /** A field depends only on the quotient by any power of two below it. */
  lemma ExtractHigh(v: nat, start: nat, length: nat, n: nat)
    requires n <= start
    ensures Extract(v, start, length) == Extract(Shift(v, n), start - n, length)
  {
    hide Pow2;
    Pow2Split(n, start);
    DivModProduct(v, Pow2(n), Pow2(start - n));
  }

  // -------------------------------------------------------------- laws of Insert

  lemma InsertParts(v: nat, start: nat, length: nat, x: nat)
    requires x < Pow2(length)
    ensures var w := Insert(v, start, length, x);
            && w % Pow2(start) == v % Pow2(start)
            && Extract(w, start, length) == x
            && w / Pow2(start + length) == v / Pow2(start + length)
  {
    var w := Insert(v, start, length, x);
    var s, l := Pow2(start), Pow2(length);
    var q := v / Pow2(start + length);
    DivModUnique(w, s, q * l + x, v % s);
    DivModUnique(q * l + x, l, q, x);
    Pow2Add(start, length);
    DivModProduct(w, s, l);
  }

  /** Inserting into one field leaves a field that shares no bit with it unchanged. */
  lemma InsertFrame(v: nat, start: nat, length: nat, x: nat, start': nat, length': nat)
    requires x < Pow2(length)
    requires start' + length' <= start || start + length <= start'
    ensures Extract(Insert(v, start, length, x), start', length') == Extract(v, start', length')
  {
    var w := Insert(v, start, length, x);
    InsertParts(v, start, length, x);
    if start' + length' <= start {
      ExtractLow(v, start', length', start);
      ExtractLow(w, start', length', start);
    } else {
      ExtractHigh(v, start', length', start + length);
      ExtractHigh(w, start', length', start + length);
    }
  }

  lemma InsertBound(v: nat, start: nat, length: nat, x: nat, n: nat)
    requires x < Pow2(length) && v < Pow2(n) && start + length <= n
    ensures Insert(v, start, length, x) < Pow2(n)
  {
    InsertParts(v, start, length, x);
    Pow2Split(start + length, n);
    BelowProduct(Insert(v, start, length, x), v, Pow2(start + length), Pow2(n - start - length));
  }

  lemma BelowProduct(w: nat, v: nat, d: nat, k: nat)
    requires d > 0 && v < d * k && w / d == v / d
    ensures w < d * k
  {
    DivBelow(v, d, k);
    MulLe(w / d, k - 1, d);
    assert (k - 1) * d == d * k - d;
  }
}
