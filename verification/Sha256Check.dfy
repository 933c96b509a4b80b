/** verify_sha256: the read loop, the digest and its hexadecimal form. */
module Sha256Check {
  import opened Wrappers
  import opened Sequences
  import opened BitFields

  type Image = seq<byte>

  /** SHA-256 as an uninterpreted function. */
  type Hash = Image -> seq<byte>

  const BUFFER_SIZE := 65536

  /** A std::ifstream over a file that does not change: read sets the fail bit when it comes up short, and
      does nothing once the bit is set. */
  class InputFile {
    const content: Image
    var pos: nat
    var good: bool

    ghost predicate Valid()
      reads this
    {
      pos <= |content| && (!good ==> pos == |content|)
    }

    constructor (content: Image)
      ensures Valid() && this.content == content && pos == 0 && good
    {
      this.content := content;
      pos, good := 0, true;
    }

    /** Returns whether the stream is still good, and the gcount() bytes just read. */
    method Read(n: nat) returns (ok: bool, buf: Image)
      requires Valid()
      modifies this
      ensures Valid() && ok == good && pos == old(pos) + |buf| && buf == content[old(pos)..pos]
      ensures |buf| <= n && (ok ==> |buf| == n) && (!ok ==> pos == |content|)
    {
      if !good {
        return false, [];
      }
      var from := pos;
      var end := if pos + n <= |content| then pos + n else |content|;
      good := end == from + n;
      pos := end;
      return good, content[from..end];
    }
  }

  lemma PrefixGrows(content: Image, from: nat, pos: nat)
    requires from <= pos <= |content|
    ensures content[..from] + content[from..pos] == content[..pos]
  {
  }

  /** Feeds the whole file to the digest in buffer-sized chunks, in order. */
  method DigestFile(hash: Hash, content: Image) returns (digest: seq<byte>, ghost chunks: seq<Image>)
    ensures digest == hash(content)
    ensures Flatten(chunks) == content
    ensures forall i :: 0 <= i < |chunks| ==> 0 < |chunks[i]| <= 65536
    ensures forall i :: 0 <= i < |chunks| - 1 ==> |chunks[i]| == 65536
  {
    hide Flatten;
    FlattenSnoc<byte>([], []);
    var file := new InputFile(content);
    var fed: Image := [];
    chunks := [];
    var more, buf := file.Read(BUFFER_SIZE);
    while more || buf != []
      invariant file.Valid() && file.content == content
      invariant |fed| + |buf| == file.pos && |buf| <= BUFFER_SIZE
      invariant fed == content[..|fed|] && buf == content[|fed|..file.pos]
      invariant fed == Flatten(chunks)
      invariant if more then |buf| == BUFFER_SIZE else file.pos == |content|
      invariant forall i :: 0 <= i < |chunks| ==> 0 < |chunks[i]| <= 65536
      invariant forall i :: 0 <= i < |chunks| - 1 ==> |chunks[i]| == 65536
      invariant buf != [] && chunks != [] ==> |chunks[|chunks| - 1]| == 65536
      decreases |content| - |fed|
    {
      FlattenSnoc(chunks, buf);
      PrefixGrows(content, |fed|, file.pos);
      fed := fed + buf;
      chunks := chunks + [buf];
      more, buf := file.Read(BUFFER_SIZE);
    }
    assert content[..file.pos] == content;
    digest := hash(fed);
  }

  // -------------------------------------------------------------------- hexadecimal

  const HEX_DIGITS := "0123456789abcdef"

  function HexByte(b: byte): string {
    [HEX_DIGITS[b / 16], HEX_DIGITS[b % 16]]
  }

  function Hex(bytes: seq<byte>): string {
    if bytes == [] then "" else Hex(bytes[..|bytes| - 1]) + HexByte(bytes[|bytes| - 1])
  }

  /** The reference reading of a hexadecimal string: two digits a byte, the high one first. */
  function FromHex(s: string): seq<byte> {
    if |s| < 2 then []
    else FromHex(s[..|s| - 2]) + [16 * DigitValue(s[|s| - 2]) + DigitValue(s[|s| - 1])]
  }

  function DigitValue(c: char): (v: nat)
    ensures v < 16
  {
    if '0' <= c <= '9' then c as int - '0' as int
    else if 'a' <= c <= 'f' then c as int - 'a' as int + 10
    else 0
  }

  lemma HexByteValue(b: byte)
    ensures |HexByte(b)| == 2 && 16 * DigitValue(HexByte(b)[0]) + DigitValue(HexByte(b)[1]) == b
  {
    DigitOf(b / 16);
    DigitOf(b % 16);
  }

  lemma DigitOf(d: nat)
    requires d < 16
    ensures DigitValue(HEX_DIGITS[d]) == d
  {
  }

  /** Reading the hexadecimal form gives the digest back. */
  lemma {:induction false} HexRoundTrip(bytes: seq<byte>)
    ensures |Hex(bytes)| == 2 * |bytes| && FromHex(Hex(bytes)) == bytes
  {
    hide HexByte, DigitValue;
    if bytes != [] {
      var n := |bytes| - 1;
      HexRoundTrip(bytes[..n]);
      HexByteValue(bytes[n]);
      assert Hex(bytes)[..2 * n] == Hex(bytes[..n]);
    }
  }

  /** Two digests with the same hexadecimal form are the same digest. */
  lemma HexInjective(a: seq<byte>, b: seq<byte>)
    requires Hex(a) == Hex(b)
    ensures a == b
  {
    HexRoundTrip(a);
    HexRoundTrip(b);
  }

  /** Only the sixteen lower-case digits occur, so a manifest written in upper case is never accepted. */
  lemma {:induction false} HexAlphabet(bytes: seq<byte>, k: nat)
    requires k < |Hex(bytes)|
    ensures Hex(bytes)[k] in HEX_DIGITS
  {
    var n := |bytes| - 1;
    HexRoundTrip(bytes[..n]);
    if k < 2 * n {
      HexAlphabet(bytes[..n], k);
    }
  }

  ghost predicate Matches(hash: Hash, file: Option<Image>, expected: string) {
    file.Some? && expected == Hex(hash(file.value))
  }

  /** `file` is absent when the firmware cannot be opened. */
  method VerifySha256(hash: Hash, file: Option<Image>, expected: string) returns (accepted: bool)
    ensures accepted <==> Matches(hash, file, expected)
  {
    if file.None? {
      return false;
    }
    var digest, chunks := DigestFile(hash, file.value);
    var hex := "";
    for i := 0 to |digest|
      invariant hex == Hex(digest[..i])
    {
      assert digest[..i + 1][..i] == digest[..i];
      hex := hex + HexByte(digest[i]);
    }
    assert digest[..|digest|] == digest;
    return hex == expected;
  }
}
