/** The compressed file around the packed codes: length, CRC, and what `Decode` makes of it. */
module Framing {
  import opened Words
  import opened BitIO
  import opened HuffmanCode
  import opened PositionCode
  import opened Bytes
  import opened SearchTree
  import opened Newlines
  import opened Lzss
  import opened FbbCode
  import opened Stream
  import opened TokenWriter
  import Crc

  // ---------- numbers in files ----------

  const MAX32: nat := 0xffff_ffff

  /** Arithmetic in an `unsigned int`. */
  function Wrap32(n: int): (m: nat)
    ensures m <= MAX32
    ensures 0 <= n <= MAX32 ==> m == n
  {
    n % 0x1_0000_0000
  }

  function ByteNum(n: nat): Byte
    requires n < 256
  {
    NumBits(n, 8)
  }

  function NumByte(b: Byte): (n: nat)
    ensures n < 256
  {
    NumOfBound(b);
    PowersOfTwo();
    NumOf(b)
  }

  lemma ByteRoundTrip(n: nat)
    requires n < 256
    ensures NumByte(ByteNum(n)) == n
  {
    PowersOfTwo();
    NumOfNumBits(n, 8);
  }

  /** An `unsigned int` as it lies in memory, lowest byte first. */
  function Le32(n: nat): (s: seq<Byte>)
    ensures |s| == 4
  {
    [ByteNum(n % 256), ByteNum(n / 0x100 % 256), ByteNum(n / 0x1_0000 % 256), ByteNum(n / 0x100_0000 % 256)]
  }

  function OfLe32(s: seq<Byte>): (n: nat)
    requires |s| == 4
    ensures n <= MAX32
  {
    NumByte(s[0]) + 0x100 * NumByte(s[1]) + 0x1_0000 * NumByte(s[2]) + 0x100_0000 * NumByte(s[3])
  }

  lemma Le32RoundTrip(n: nat)
    ensures OfLe32(Le32(n)) == Wrap32(n)
  {
    ByteRoundTrip(n % 256);
    ByteRoundTrip(n / 0x100 % 256);
    ByteRoundTrip(n / 0x1_0000 % 256);
    ByteRoundTrip(n / 0x100_0000 % 256);
    FourBytes(n);
  }

  lemma FourBytes(n: nat)
    ensures n % 256 + 0x100 * (n / 0x100 % 256) + 0x1_0000 * (n / 0x1_0000 % 256) + 0x100_0000 * (n / 0x100_0000 % 256)
            == n % 0x1_0000_0000
  {
    SecondByte(n);
    ThirdByte(n);
    FourthByte(n);
  }

  lemma SecondByte(n: nat)
    ensures n % 0x1_0000 == n % 0x100 + 0x100 * (n / 0x100 % 256)
  {
    var q := n / 0x100;
    assert n == 0x1_0000 * (q / 256) + (n % 0x100 + 0x100 * (q % 256));
  }

  lemma ThirdByte(n: nat)
    ensures n % 0x100_0000 == n % 0x1_0000 + 0x1_0000 * (n / 0x1_0000 % 256)
  {
    var q := n / 0x1_0000;
    assert n == 0x100_0000 * (q / 256) + (n % 0x1_0000 + 0x1_0000 * (q % 256));
  }

  lemma FourthByte(n: nat)
    ensures n % 0x1_0000_0000 == n % 0x100_0000 + 0x100_0000 * (n / 0x100_0000 % 256)
  {
    var q := n / 0x100_0000;
    assert n == 0x1_0000_0000 * (q / 256) + (n % 0x100_0000 + 0x100_0000 * (q % 256));
  }

  /** A CRC as it lies in memory, lowest byte first. */
  function CrcBytes(crc: Register): (s: seq<Byte>)
    ensures |s| == 2
  {
    [crc[8..], crc[..8]]
  }

  function OfCrcBytes(s: seq<Byte>): Register
    requires |s| == 2
  {
    var high: seq<bool> := s[1];
    high + s[0]
  }

  lemma CrcRoundTrip(crc: Register)
    ensures OfCrcBytes(CrcBytes(crc)) == crc
  {}

  // ---------- what `Encode` writes ----------

  /** The compressed file: in basic mode length and codes, otherwise a CRC over both first. */
  function Frame(basic: bool, size: nat, codes: seq<Byte>): seq<Byte> {
    var body := Le32(size) + codes;
    if basic then body else CrcBytes(Crc.Fold(body, Zeros(16))) + body
  }

  /** The bytes are the bits, filled up with less than a byte of zeros. */
  ghost predicate Packs(codes: seq<Byte>, bits: seq<bool>) {
    exists pad: nat :: pad < 8 && BitsOf(codes) == bits + Zeros(pad)
  }

  // ---------- what `Decode` reads ----------

  /** The header of a compressed file: refused, or the text size, the CRC to check if any,
      where the CRC starts and where the codes start. */
  datatype Header =
    | Refused
    | Accepted(size: nat, checked: bool, fcrc: Register, from: nat, codes: nat)

  /** One byte of the length, with `getc`'s end-of-file value cut to a byte. */
  function LengthByte(file: seq<Byte>, i: nat): Byte {
    if i < |file| then file[i] else seq(8, _ => true)
  }

  function LengthAt(file: seq<Byte>, i: nat): nat {
    OfLe32([LengthByte(file, i), LengthByte(file, i + 1), LengthByte(file, i + 2), LengthByte(file, i + 3)])
  }

  function Min(a: nat, b: nat): nat { if a < b then a else b }

  /** The guard against absurd lengths, in 32-bit arithmetic. */
  predicate Absurd(size: nat, filelen: nat) {
    size > Wrap32(100 * Wrap32(filelen - 4))
  }

  function ReadHeader(file: seq<Byte>, basic: bool, fbb: nat): Header {
    if basic then
      if |file| < 4 then Refused
      else
        var size := OfLe32(file[..4]);
        if size == 0 || Absurd(size, |file|) then Refused
        else Accepted(size, false, Zeros(16), 4, 4)
    else
      if fbb >= 2 && |file| < 22 then Refused
      else
        var at := if fbb >= 2 then 22 else 20;
        var fcrc: Register := if fbb >= 2 then OfCrcBytes(file[20..22]) else Zeros(16);
        var size := LengthAt(file, at);
        if size == 0 || size == MAX32 || Absurd(size, |file|) then Refused
        else Accepted(size, fbb >= 2, fcrc, Min(at, |file|), Min(at + 4, |file|))
  }

  /** The history `Decode` starts with: whatever lay in the last F slots, then blanks. */
  function StartHistory(stale: seq<byte>): (h: seq<byte>)
    requires |stale| == F
    ensures |h| == N
  {
    stale + seq(START, _ => BLANK)
  }

  /** How many bytes the bit reader has fetched when `n` bits have been delivered, the last
      of them singly. */
  function FetchedBytes(n: nat): nat { (n + 15) / 8 }

  datatype Decoded = Decoded(ok: bool, out: seq<byte>)

  /** `Decode`, on values. */
  ghost function DecodeFile(file: seq<Byte>, basic: bool, fbb: nat, stale: seq<byte>): Decoded
    requires |stale| == F
  {
    match ReadHeader(file, basic, fbb)
    case Refused => Decoded(false, [])
    case Accepted(size, checked, fcrc, from, codes) =>
      var (h, n) := DecodeLoop(FBB, StartTree(), BitsOf(file[codes..]), 0, StartHistory(stale), N + size);
      var read := file[from..Min(|file|, codes + FetchedBytes(n))];
      Decoded(!checked || Crc.Fold(read, Zeros(16)) == fcrc, Normalise(h[N..], 0))
  }
}
