/** The 16-bit CRC with generator 0x1021, in its two forms: the table lookup of the
    message compressor and the bit-serial register of the binary file transfer. */
module Crc {
  import opened Words

  const GENERATOR: bv16 := 0x1021

  // ---------- the table form ----------

  /** The 256-entry table, one case per row of sixteen. */
  function CrcTab(i: bv8): bv16 {
    match i >> 4
    case 0x0 =>
      if i & 0x0F == 0x0 then 0x0000 else if i & 0x0F == 0x1 then 0x1021 else if i & 0x0F == 0x2 then 0x2042 else
      if i & 0x0F == 0x3 then 0x3063 else if i & 0x0F == 0x4 then 0x4084 else if i & 0x0F == 0x5 then 0x50a5 else
      if i & 0x0F == 0x6 then 0x60c6 else if i & 0x0F == 0x7 then 0x70e7 else if i & 0x0F == 0x8 then 0x8108 else
      if i & 0x0F == 0x9 then 0x9129 else if i & 0x0F == 0xa then 0xa14a else if i & 0x0F == 0xb then 0xb16b else
      if i & 0x0F == 0xc then 0xc18c else if i & 0x0F == 0xd then 0xd1ad else if i & 0x0F == 0xe then 0xe1ce else
      0xf1ef
    case 0x1 =>
      if i & 0x0F == 0x0 then 0x1231 else if i & 0x0F == 0x1 then 0x0210 else if i & 0x0F == 0x2 then 0x3273 else
      if i & 0x0F == 0x3 then 0x2252 else if i & 0x0F == 0x4 then 0x52b5 else if i & 0x0F == 0x5 then 0x4294 else
      if i & 0x0F == 0x6 then 0x72f7 else if i & 0x0F == 0x7 then 0x62d6 else if i & 0x0F == 0x8 then 0x9339 else
      if i & 0x0F == 0x9 then 0x8318 else if i & 0x0F == 0xa then 0xb37b else if i & 0x0F == 0xb then 0xa35a else
      if i & 0x0F == 0xc then 0xd3bd else if i & 0x0F == 0xd then 0xc39c else if i & 0x0F == 0xe then 0xf3ff else
      0xe3de
    case 0x2 =>
      if i & 0x0F == 0x0 then 0x2462 else if i & 0x0F == 0x1 then 0x3443 else if i & 0x0F == 0x2 then 0x0420 else
      if i & 0x0F == 0x3 then 0x1401 else if i & 0x0F == 0x4 then 0x64e6 else if i & 0x0F == 0x5 then 0x74c7 else
      if i & 0x0F == 0x6 then 0x44a4 else if i & 0x0F == 0x7 then 0x5485 else if i & 0x0F == 0x8 then 0xa56a else
      if i & 0x0F == 0x9 then 0xb54b else if i & 0x0F == 0xa then 0x8528 else if i & 0x0F == 0xb then 0x9509 else
      if i & 0x0F == 0xc then 0xe5ee else if i & 0x0F == 0xd then 0xf5cf else if i & 0x0F == 0xe then 0xc5ac else
      0xd58d
    case 0x3 =>
      if i & 0x0F == 0x0 then 0x3653 else if i & 0x0F == 0x1 then 0x2672 else if i & 0x0F == 0x2 then 0x1611 else
      if i & 0x0F == 0x3 then 0x0630 else if i & 0x0F == 0x4 then 0x76d7 else if i & 0x0F == 0x5 then 0x66f6 else
      if i & 0x0F == 0x6 then 0x5695 else if i & 0x0F == 0x7 then 0x46b4 else if i & 0x0F == 0x8 then 0xb75b else
      if i & 0x0F == 0x9 then 0xa77a else if i & 0x0F == 0xa then 0x9719 else if i & 0x0F == 0xb then 0x8738 else
      if i & 0x0F == 0xc then 0xf7df else if i & 0x0F == 0xd then 0xe7fe else if i & 0x0F == 0xe then 0xd79d else
      0xc7bc
    case 0x4 =>
      if i & 0x0F == 0x0 then 0x48c4 else if i & 0x0F == 0x1 then 0x58e5 else if i & 0x0F == 0x2 then 0x6886 else
      if i & 0x0F == 0x3 then 0x78a7 else if i & 0x0F == 0x4 then 0x0840 else if i & 0x0F == 0x5 then 0x1861 else
      if i & 0x0F == 0x6 then 0x2802 else if i & 0x0F == 0x7 then 0x3823 else if i & 0x0F == 0x8 then 0xc9cc else
      if i & 0x0F == 0x9 then 0xd9ed else if i & 0x0F == 0xa then 0xe98e else if i & 0x0F == 0xb then 0xf9af else
      if i & 0x0F == 0xc then 0x8948 else if i & 0x0F == 0xd then 0x9969 else if i & 0x0F == 0xe then 0xa90a else
      0xb92b
    case 0x5 =>
      if i & 0x0F == 0x0 then 0x5af5 else if i & 0x0F == 0x1 then 0x4ad4 else if i & 0x0F == 0x2 then 0x7ab7 else
      if i & 0x0F == 0x3 then 0x6a96 else if i & 0x0F == 0x4 then 0x1a71 else if i & 0x0F == 0x5 then 0x0a50 else
      if i & 0x0F == 0x6 then 0x3a33 else if i & 0x0F == 0x7 then 0x2a12 else if i & 0x0F == 0x8 then 0xdbfd else
      if i & 0x0F == 0x9 then 0xcbdc else if i & 0x0F == 0xa then 0xfbbf else if i & 0x0F == 0xb then 0xeb9e else
      if i & 0x0F == 0xc then 0x9b79 else if i & 0x0F == 0xd then 0x8b58 else if i & 0x0F == 0xe then 0xbb3b else
      0xab1a
    case 0x6 =>
      if i & 0x0F == 0x0 then 0x6ca6 else if i & 0x0F == 0x1 then 0x7c87 else if i & 0x0F == 0x2 then 0x4ce4 else
      if i & 0x0F == 0x3 then 0x5cc5 else if i & 0x0F == 0x4 then 0x2c22 else if i & 0x0F == 0x5 then 0x3c03 else
      if i & 0x0F == 0x6 then 0x0c60 else if i & 0x0F == 0x7 then 0x1c41 else if i & 0x0F == 0x8 then 0xedae else
      if i & 0x0F == 0x9 then 0xfd8f else if i & 0x0F == 0xa then 0xcdec else if i & 0x0F == 0xb then 0xddcd else
      if i & 0x0F == 0xc then 0xad2a else if i & 0x0F == 0xd then 0xbd0b else if i & 0x0F == 0xe then 0x8d68 else
      0x9d49
    case 0x7 =>
      if i & 0x0F == 0x0 then 0x7e97 else if i & 0x0F == 0x1 then 0x6eb6 else if i & 0x0F == 0x2 then 0x5ed5 else
      if i & 0x0F == 0x3 then 0x4ef4 else if i & 0x0F == 0x4 then 0x3e13 else if i & 0x0F == 0x5 then 0x2e32 else
      if i & 0x0F == 0x6 then 0x1e51 else if i & 0x0F == 0x7 then 0x0e70 else if i & 0x0F == 0x8 then 0xff9f else
      if i & 0x0F == 0x9 then 0xefbe else if i & 0x0F == 0xa then 0xdfdd else if i & 0x0F == 0xb then 0xcffc else
      if i & 0x0F == 0xc then 0xbf1b else if i & 0x0F == 0xd then 0xaf3a else if i & 0x0F == 0xe then 0x9f59 else
      0x8f78
    case 0x8 =>
      if i & 0x0F == 0x0 then 0x9188 else if i & 0x0F == 0x1 then 0x81a9 else if i & 0x0F == 0x2 then 0xb1ca else
      if i & 0x0F == 0x3 then 0xa1eb else if i & 0x0F == 0x4 then 0xd10c else if i & 0x0F == 0x5 then 0xc12d else
      if i & 0x0F == 0x6 then 0xf14e else if i & 0x0F == 0x7 then 0xe16f else if i & 0x0F == 0x8 then 0x1080 else
      if i & 0x0F == 0x9 then 0x00a1 else if i & 0x0F == 0xa then 0x30c2 else if i & 0x0F == 0xb then 0x20e3 else
      if i & 0x0F == 0xc then 0x5004 else if i & 0x0F == 0xd then 0x4025 else if i & 0x0F == 0xe then 0x7046 else
      0x6067
    case 0x9 =>
      if i & 0x0F == 0x0 then 0x83b9 else if i & 0x0F == 0x1 then 0x9398 else if i & 0x0F == 0x2 then 0xa3fb else
      if i & 0x0F == 0x3 then 0xb3da else if i & 0x0F == 0x4 then 0xc33d else if i & 0x0F == 0x5 then 0xd31c else
      if i & 0x0F == 0x6 then 0xe37f else if i & 0x0F == 0x7 then 0xf35e else if i & 0x0F == 0x8 then 0x02b1 else
      if i & 0x0F == 0x9 then 0x1290 else if i & 0x0F == 0xa then 0x22f3 else if i & 0x0F == 0xb then 0x32d2 else
      if i & 0x0F == 0xc then 0x4235 else if i & 0x0F == 0xd then 0x5214 else if i & 0x0F == 0xe then 0x6277 else
      0x7256
    case 0xa =>
      if i & 0x0F == 0x0 then 0xb5ea else if i & 0x0F == 0x1 then 0xa5cb else if i & 0x0F == 0x2 then 0x95a8 else
      if i & 0x0F == 0x3 then 0x8589 else if i & 0x0F == 0x4 then 0xf56e else if i & 0x0F == 0x5 then 0xe54f else
      if i & 0x0F == 0x6 then 0xd52c else if i & 0x0F == 0x7 then 0xc50d else if i & 0x0F == 0x8 then 0x34e2 else
      if i & 0x0F == 0x9 then 0x24c3 else if i & 0x0F == 0xa then 0x14a0 else if i & 0x0F == 0xb then 0x0481 else
      if i & 0x0F == 0xc then 0x7466 else if i & 0x0F == 0xd then 0x6447 else if i & 0x0F == 0xe then 0x5424 else
      0x4405
    case 0xb =>
      if i & 0x0F == 0x0 then 0xa7db else if i & 0x0F == 0x1 then 0xb7fa else if i & 0x0F == 0x2 then 0x8799 else
      if i & 0x0F == 0x3 then 0x97b8 else if i & 0x0F == 0x4 then 0xe75f else if i & 0x0F == 0x5 then 0xf77e else
      if i & 0x0F == 0x6 then 0xc71d else if i & 0x0F == 0x7 then 0xd73c else if i & 0x0F == 0x8 then 0x26d3 else
      if i & 0x0F == 0x9 then 0x36f2 else if i & 0x0F == 0xa then 0x0691 else if i & 0x0F == 0xb then 0x16b0 else
      if i & 0x0F == 0xc then 0x6657 else if i & 0x0F == 0xd then 0x7676 else if i & 0x0F == 0xe then 0x4615 else
      0x5634
    case 0xc =>
      if i & 0x0F == 0x0 then 0xd94c else if i & 0x0F == 0x1 then 0xc96d else if i & 0x0F == 0x2 then 0xf90e else
      if i & 0x0F == 0x3 then 0xe92f else if i & 0x0F == 0x4 then 0x99c8 else if i & 0x0F == 0x5 then 0x89e9 else
      if i & 0x0F == 0x6 then 0xb98a else if i & 0x0F == 0x7 then 0xa9ab else if i & 0x0F == 0x8 then 0x5844 else
      if i & 0x0F == 0x9 then 0x4865 else if i & 0x0F == 0xa then 0x7806 else if i & 0x0F == 0xb then 0x6827 else
      if i & 0x0F == 0xc then 0x18c0 else if i & 0x0F == 0xd then 0x08e1 else if i & 0x0F == 0xe then 0x3882 else
      0x28a3
    case 0xd =>
      if i & 0x0F == 0x0 then 0xcb7d else if i & 0x0F == 0x1 then 0xdb5c else if i & 0x0F == 0x2 then 0xeb3f else
      if i & 0x0F == 0x3 then 0xfb1e else if i & 0x0F == 0x4 then 0x8bf9 else if i & 0x0F == 0x5 then 0x9bd8 else
      if i & 0x0F == 0x6 then 0xabbb else if i & 0x0F == 0x7 then 0xbb9a else if i & 0x0F == 0x8 then 0x4a75 else
      if i & 0x0F == 0x9 then 0x5a54 else if i & 0x0F == 0xa then 0x6a37 else if i & 0x0F == 0xb then 0x7a16 else
      if i & 0x0F == 0xc then 0x0af1 else if i & 0x0F == 0xd then 0x1ad0 else if i & 0x0F == 0xe then 0x2ab3 else
      0x3a92
    case 0xe =>
      if i & 0x0F == 0x0 then 0xfd2e else if i & 0x0F == 0x1 then 0xed0f else if i & 0x0F == 0x2 then 0xdd6c else
      if i & 0x0F == 0x3 then 0xcd4d else if i & 0x0F == 0x4 then 0xbdaa else if i & 0x0F == 0x5 then 0xad8b else
      if i & 0x0F == 0x6 then 0x9de8 else if i & 0x0F == 0x7 then 0x8dc9 else if i & 0x0F == 0x8 then 0x7c26 else
      if i & 0x0F == 0x9 then 0x6c07 else if i & 0x0F == 0xa then 0x5c64 else if i & 0x0F == 0xb then 0x4c45 else
      if i & 0x0F == 0xc then 0x3ca2 else if i & 0x0F == 0xd then 0x2c83 else if i & 0x0F == 0xe then 0x1ce0 else
      0x0cc1
    case 0xf =>
      if i & 0x0F == 0x0 then 0xef1f else if i & 0x0F == 0x1 then 0xff3e else if i & 0x0F == 0x2 then 0xcf5d else
      if i & 0x0F == 0x3 then 0xdf7c else if i & 0x0F == 0x4 then 0xaf9b else if i & 0x0F == 0x5 then 0xbfba else
      if i & 0x0F == 0x6 then 0x8fd9 else if i & 0x0F == 0x7 then 0x9ff8 else if i & 0x0F == 0x8 then 0x6e17 else
      if i & 0x0F == 0x9 then 0x7e36 else if i & 0x0F == 0xa then 0x4e55 else if i & 0x0F == 0xb then 0x5e74 else
      if i & 0x0F == 0xc then 0x2e93 else if i & 0x0F == 0xd then 0x3eb2 else if i & 0x0F == 0xe then 0x0ed1 else
      0x1ef0
    case _ => 0
  }

  /** The table step: the byte meets the top half of the register in the table index. */
  function UpdCrc(c: Byte, crc: Register): Register {
    XorBits(Bits16(CrcTab(ByteOf(XorBits(crc[..8], c)))), crc[8..] + Zeros(8))
  }

  /** The register after reading all of `m`. */
  function Fold(m: seq<Byte>, crc: Register): Register
    decreases |m|
  {
    if m == [] then crc else Fold(m[1..], UpdCrc(m[0], crc))
  }

  lemma {:induction false} FoldConcat(a: seq<Byte>, b: seq<Byte>, crc: Register)
    ensures Fold(a + b, crc) == Fold(b, Fold(a, crc))
    decreases |a|
  {
    if a == [] {
      assert a + b == b;
    } else {
      assert (a + b)[1..] == a[1..] + b;
      FoldConcat(a[1..], b, UpdCrc(a[0], crc));
    }
  }

  // ---------- the bit-serial form ----------

  /** One step of polynomial division: the message bit enters at the bottom, and the
      generator is subtracted when a one leaves at the top. */
  function Feed(crc: Register, bit: bool): Register {
    var shifted := crc[1..] + [bit];
    if crc[0] then XorBits(shifted, Bits16(GENERATOR)) else shifted
  }

  function FeedAll(crc: Register, bits: seq<bool>): Register
    decreases |bits|
  {
    if bits == [] then crc else Feed(FeedAll(crc, bits[..|bits| - 1]), bits[|bits| - 1])
  }

  /** The register after all the bits of all the bytes of `m`. */
  function SerialFold(m: seq<Byte>, crc: Register): Register
    decreases |m|
  {
    if m == [] then crc else SerialFold(m[1..], FeedAll(crc, m[0]))
  }

  lemma FeedSnoc(crc: Register, bits: seq<bool>, n: nat)
    requires n < |bits|
    ensures FeedAll(crc, bits[..n + 1]) == Feed(FeedAll(crc, bits[..n]), bits[n])
  {
    assert bits[..n + 1][..n] == bits[..n];
  }

  /** The loop of the serial form: the mask runs over the bits of the byte, top first. */
  method ComputeCrc(ch: Byte, crc: Register) returns (r: Register)
    ensures r == FeedAll(crc, ch)
  {
    r := crc;
    for n := 0 to 8
      invariant r == FeedAll(crc, ch[..n])
    {
      FeedSnoc(crc, ch, n);
      var hibit := r[0];
      r := r[1..] + [ch[n]];
      if hibit {
        r := XorBits(r, Bits16(GENERATOR));
      }
    }
    assert ch[..8] == ch;
  }

  // ---------- the table holds remainders ----------

  /** One division step on the machine word. */
  function Divide(w: bv16): bv16 {
    if w & 0x8000 != 0 then (w << 1) ^ GENERATOR else w << 1
  }

  function DivideByte(w: bv16): bv16 {
    Divide(Divide(Divide(Divide(Divide(Divide(Divide(Divide(w))))))))
  }

  lemma TabRows0(i: bv8)
    requires 0x00 <= i < 0x40
    ensures CrcTab(i) == DivideByte((i as bv16) << 8)
  {
    match i >> 4
    case 0x0 => assert CrcTab(i) == DivideByte((i as bv16) << 8);
    case 0x1 => assert CrcTab(i) == DivideByte((i as bv16) << 8);
    case 0x2 => assert CrcTab(i) == DivideByte((i as bv16) << 8);
    case 0x3 => assert CrcTab(i) == DivideByte((i as bv16) << 8);
    case _ => assert false;
  }

  lemma TabRows4(i: bv8)
    requires 0x40 <= i < 0x80
    ensures CrcTab(i) == DivideByte((i as bv16) << 8)
  {
    match i >> 4
    case 0x4 => assert CrcTab(i) == DivideByte((i as bv16) << 8);
    case 0x5 => assert CrcTab(i) == DivideByte((i as bv16) << 8);
    case 0x6 => assert CrcTab(i) == DivideByte((i as bv16) << 8);
    case 0x7 => assert CrcTab(i) == DivideByte((i as bv16) << 8);
    case _ => assert false;
  }

  lemma TabRows8(i: bv8)
    requires 0x80 <= i < 0xc0
    ensures CrcTab(i) == DivideByte((i as bv16) << 8)
  {
    match i >> 4
    case 0x8 => assert CrcTab(i) == DivideByte((i as bv16) << 8);
    case 0x9 => assert CrcTab(i) == DivideByte((i as bv16) << 8);
    case 0xa => assert CrcTab(i) == DivideByte((i as bv16) << 8);
    case 0xb => assert CrcTab(i) == DivideByte((i as bv16) << 8);
    case _ => assert false;
  }

  lemma TabRows12(i: bv8)
    requires 0xc0 <= i
    ensures CrcTab(i) == DivideByte((i as bv16) << 8)
  {
    match i >> 4
    case 0xc => assert CrcTab(i) == DivideByte((i as bv16) << 8);
    case 0xd => assert CrcTab(i) == DivideByte((i as bv16) << 8);
    case 0xe => assert CrcTab(i) == DivideByte((i as bv16) << 8);
    case 0xf => assert CrcTab(i) == DivideByte((i as bv16) << 8);
    case _ => assert false;
  }

  lemma DivideIsFeed(w: bv16)
    ensures Bits16(Divide(w)) == Feed(Bits16(w), false)
  {
    Bits16Double(w);
    Bits16Xor(w << 1, GENERATOR);
  }

  lemma DivideByteIsFeed(w: bv16)
    ensures Bits16(DivideByte(w)) == Shift(Bits16(w), 8)
  {
    var w1 := Divide(w);
    var w2 := Divide(w1);
    var w3 := Divide(w2);
    var w4 := Divide(w3);
    var w5 := Divide(w4);
    var w6 := Divide(w5);
    var w7 := Divide(w6);
    DivideIsFeed(w); DivideIsFeed(w1); DivideIsFeed(w2); DivideIsFeed(w3);
    DivideIsFeed(w4); DivideIsFeed(w5); DivideIsFeed(w6); DivideIsFeed(w7);
    assert Shift(Bits16(w), 2) == Bits16(w2) && Shift(Bits16(w2), 2) == Bits16(w4);
    assert Shift(Bits16(w4), 2) == Bits16(w6) && Shift(Bits16(w6), 2) == Bits16(DivideByte(w));
    ShiftTwice(Bits16(w), 2, 2);
    ShiftTwice(Bits16(w), 4, 2);
    ShiftTwice(Bits16(w), 6, 2);
  }

  /** Entry `i` of the table is the remainder of `i` shifted through the register. */
  lemma TabIsRemainder(i: bv8)
    ensures Bits16(CrcTab(i)) == Shift(Bits8(i) + Zeros(8), 8)
  {
    if i < 0x40 { TabRows0(i); } else if i < 0x80 { TabRows4(i); }
    else if i < 0xC0 { TabRows8(i); } else { TabRows12(i); }
    DivideByteIsFeed((i as bv16) << 8);
    Bits16OfByte(i);
  }

  // ---------- the two forms agree ----------

  /** Feed `n` zero bits. */
  function Shift(w: Register, n: nat): Register
    decreases n
  {
    if n == 0 then w else Shift(Feed(w, false), n - 1)
  }

  lemma {:induction false} ShiftTwice(w: Register, m: nat, n: nat)
    ensures Shift(Shift(w, m), n) == Shift(w, m + n)
    decreases m
  {
    if m == 0 {
    } else {
      ShiftTwice(Feed(w, false), m - 1, n);
    }
  }

  /** Feeding is linear: the register and the message divide separately. */
  lemma FeedLinear(a: Register, b: Register, bit: bool)
    ensures Feed(XorBits(a, b), bit) == XorBits(Feed(a, false), Feed(b, bit))
  {}

  lemma {:induction false} ShiftLinear(a: Register, b: Register, n: nat)
    ensures Shift(XorBits(a, b), n) == XorBits(Shift(a, n), Shift(b, n))
    decreases n
  {
    if n == 0 {
    } else {
      FeedLinear(a, b, false);
      ShiftLinear(Feed(a, false), Feed(b, false), n - 1);
    }
  }

  /** Nothing leaves at the top while the top is zero. */
  lemma {:induction false} ShiftLow(w: Register, n: nat)
    requires n <= 16 && forall i :: 0 <= i < n ==> !w[i]
    ensures Shift(w, n) == w[n..] + Zeros(n)
    decreases n
  {
    if n == 0 {
    } else {
      ShiftLow(Feed(w, false), n - 1);
    }
  }

  /** The first bits of a message shift into a zero register unchanged. */
  lemma {:induction false} FeedFromZero(bits: seq<bool>)
    requires |bits| <= 16
    ensures FeedAll(Zeros(16), bits) == Zeros(16 - |bits|) + bits
    decreases |bits|
  {
    if bits == [] {
    } else {
      FeedFromZero(bits[..|bits| - 1]);
    }
  }

  lemma {:induction false} FeedAllLinear(w: Register, bits: seq<bool>)
    ensures FeedAll(w, bits) == XorBits(Shift(w, |bits|), FeedAll(Zeros(16), bits))
    decreases |bits|
  {
    if bits == [] {
      assert XorBits(w, Zeros(16)) == w;
    } else {
      var init, last := bits[..|bits| - 1], bits[|bits| - 1];
      FeedAllLinear(w, init);
      FeedLinear(Shift(w, |init|), FeedAll(Zeros(16), init), last);
      ShiftTwice(w, |init|, 1);
    }
  }

  /** Feeding a byte is eight shifts and an exclusive or. */
  lemma FeedByte(w: Register, b: Byte)
    ensures FeedAll(w, b) == XorBits(Shift(w, 8), Zeros(8) + b)
  {
    FeedAllLinear(w, b);
    FeedFromZero(b);
  }

  lemma SplitTop(w: Register, bits: Byte)
    ensures XorBits(XorBits(w[..8], bits) + Zeros(8), Zeros(8) + w[8..]) ==
            XorBits(w, bits + Zeros(8))
  {}

  lemma ShiftBottom(w: Register)
    ensures Shift(Zeros(8) + w[8..], 8) == w[8..] + Zeros(8)
  {
    ShiftLow(Zeros(8) + w[8..], 8);
    assert (Zeros(8) + w[8..])[8..] == w[8..];
  }

  /** One table step is eight shifts of the register with the byte added at the top. */
  lemma UpdCrcIsShift(c: Byte, w: Register)
    ensures UpdCrc(c, w) == Shift(XorBits(w, c + Zeros(8)), 8)
  {
    var top := XorBits(w[..8], c);
    TabIsRemainder(ByteOf(top));
    ByteOfBits(top);
    ShiftBottom(w);
    ShiftLinear(top + Zeros(8), Zeros(8) + w[8..], 8);
    SplitTop(w, c);
  }

  /** The table register runs sixteen shifts ahead of the serial one. */
  lemma StepAhead(w: Register, b: Byte)
    ensures UpdCrc(b, Shift(w, 16)) == Shift(FeedAll(w, b), 16)
  {
    var low := Zeros(8) + b;
    FeedByte(w, b);
    ShiftLinear(Shift(w, 8), low, 8);
    ShiftTwice(w, 8, 8);
    ShiftLow(low, 8);
    assert low[8..] == b;
    ShiftTwice(FeedAll(w, b), 8, 8);
    UpdCrcIsShift(b, Shift(w, 16));
  }

  function TwoZeros(): seq<Byte> { [Zeros(8), Zeros(8)] }

  lemma {:induction false} TableAhead(m: seq<Byte>, w: Register)
    ensures Fold(m, Shift(w, 16)) == SerialFold(m + TwoZeros(), w)
    decreases |m|
  {
    if m == [] {
      assert m + TwoZeros() == TwoZeros() && TwoZeros()[1..] == [Zeros(8)];
      FeedZeroByte(w);
      FeedZeroByte(Shift(w, 8));
      ShiftTwice(w, 8, 8);
      assert SerialFold([Zeros(8)], Shift(w, 8)) == Shift(w, 16);
    } else {
      StepAhead(w, m[0]);
      assert (m + TwoZeros())[1..] == m[1..] + TwoZeros();
      TableAhead(m[1..], FeedAll(w, m[0]));
    }
  }

  lemma FeedZeroByte(w: Register)
    ensures FeedAll(w, Zeros(8)) == Shift(w, 8)
  {
    FeedByte(w, Zeros(8));
    assert Zeros(8) + Zeros(8) == Zeros(16);
    assert XorBits(Shift(w, 8), Zeros(16)) == Shift(w, 8);
  }

  /** The table fold of a message is the serial fold of the message and two zero bytes. */
  lemma TableIsSerial(m: seq<Byte>)
    ensures Fold(m, Zeros(16)) == SerialFold(m + TwoZeros(), Zeros(16))
  {
    var zero: Register := Zeros(16);
    ShiftLow(zero, 16);
    assert zero[16..] + Zeros(16) == zero;
    TableAhead(m, zero);
  }
}
