/** Bytes and 16-bit registers as sequences of bits, most significant first. */
module Words {

  /** A byte and a 16-bit register, as their bits. */
  type Byte = b: seq<bool> | |b| == 8 witness Zeros(8)
  type Register = w: seq<bool> | |w| == 16 witness Zeros(16)

  function Zeros(n: nat): (s: seq<bool>)
    ensures |s| == n
  {
    seq(n, _ => false)
  }

  function XorBits(a: seq<bool>, b: seq<bool>): (s: seq<bool>)
    requires |a| == |b|
    ensures |s| == |a|
  {
    seq(|a|, i requires 0 <= i < |a| => a[i] != b[i])
  }

  function OrBits(a: seq<bool>, b: seq<bool>): (s: seq<bool>)
    requires |a| == |b|
    ensures |s| == |a|
  {
    seq(|a|, i requires 0 <= i < |a| => a[i] || b[i])
  }

  /** Bit `i` of the word, counted from the most significant. */
  function Bit8(w: bv8, i: nat): bool {
    match i
    case 0 => w & 0x80 != 0
    case 1 => w & 0x40 != 0
    case 2 => w & 0x20 != 0
    case 3 => w & 0x10 != 0
    case 4 => w & 0x08 != 0
    case 5 => w & 0x04 != 0
    case 6 => w & 0x02 != 0
    case _ => w & 0x01 != 0
  }

  /** Bit `i` of the word, counted from the most significant. */
  function Bit16(w: bv16, i: nat): bool {
    match i
    case 0 => w & 0x8000 != 0
    case 1 => w & 0x4000 != 0
    case 2 => w & 0x2000 != 0
    case 3 => w & 0x1000 != 0
    case 4 => w & 0x0800 != 0
    case 5 => w & 0x0400 != 0
    case 6 => w & 0x0200 != 0
    case 7 => w & 0x0100 != 0
    case 8 => w & 0x0080 != 0
    case 9 => w & 0x0040 != 0
    case 10 => w & 0x0020 != 0
    case 11 => w & 0x0010 != 0
    case 12 => w & 0x0008 != 0
    case 13 => w & 0x0004 != 0
    case 14 => w & 0x0002 != 0
    case _ => w & 0x0001 != 0
  }

  function Bits8(b: bv8): (s: seq<bool>)
    ensures |s| == 8
  {
    seq(8, i requires 0 <= i < 8 => Bit8(b, i))
  }

  function Bits16(w: bv16): (s: seq<bool>)
    ensures |s| == 16
  {
    seq(16, i requires 0 <= i < 16 => Bit16(w, i))
  }

  /** Shifts of a register; counts outside the register leave nothing. */
  function Shl(w: Register, n: int): Register {
    if 0 <= n <= 16 then w[n..] + Zeros(n) else Zeros(16)
  }

  function Shr(w: Register, n: int): Register {
    if 0 <= n <= 16 then Zeros(n) + w[..16 - n] else Zeros(16)
  }

  /** The bits of a byte string. */
  function BitsOf(bs: seq<Byte>): (s: seq<bool>)
    ensures |s| == 8 * |bs|
  {
    seq(8 * |bs|, n requires 0 <= n < 8 * |bs| => bs[n / 8][n % 8])
  }

  lemma BitsOfConcat(a: seq<Byte>, b: seq<Byte>)
    ensures BitsOf(a + b) == BitsOf(a) + BitsOf(b)
  {
    var s, t := BitsOf(a + b), BitsOf(a) + BitsOf(b);
    forall n | 0 <= n < 8 * |a + b| ensures s[n] == t[n] {
      if n < 8 * |a| {
        assert (a + b)[n / 8] == a[n / 8];
      } else {
        assert (a + b)[n / 8] == b[n / 8 - |a|] && (n - 8 * |a|) / 8 == n / 8 - |a|;
      }
    }
  }

  lemma BitsOfOne(b: Byte)
    ensures BitsOf([b]) == b
  {}

  /** The byte with these bits. */
  function ByteOf(s: seq<bool>): bv8
    requires |s| == 8
  {
    (if s[0] then 0x80 else 0) | (if s[1] then 0x40 else 0) |
    (if s[2] then 0x20 else 0) | (if s[3] then 0x10 else 0) |
    (if s[4] then 0x08 else 0) | (if s[5] then 0x04 else 0) |
    (if s[6] then 0x02 else 0) | (if s[7] then 0x01 else 0)
  }

  lemma ByteOfBit(s: seq<bool>, i: nat)
    requires |s| == 8 && i < 8
    ensures Bit8(ByteOf(s), i) == s[i]
  {
    match i
    case 0 => assert Bit8(ByteOf(s), 0) == s[0];
    case 1 => assert Bit8(ByteOf(s), 1) == s[1];
    case 2 => assert Bit8(ByteOf(s), 2) == s[2];
    case 3 => assert Bit8(ByteOf(s), 3) == s[3];
    case 4 => assert Bit8(ByteOf(s), 4) == s[4];
    case 5 => assert Bit8(ByteOf(s), 5) == s[5];
    case 6 => assert Bit8(ByteOf(s), 6) == s[6];
    case _ => assert Bit8(ByteOf(s), 7) == s[7];
  }

  lemma ByteOfBits(s: seq<bool>)
    requires |s| == 8
    ensures Bits8(ByteOf(s)) == s
  {
    forall i | 0 <= i < 8 ensures Bits8(ByteOf(s))[i] == s[i] { ByteOfBit(s, i); }
  }

  lemma Bit16Xor(w: bv16, v: bv16, i: nat)
    requires i < 16
    ensures Bit16(w ^ v, i) == (Bit16(w, i) != Bit16(v, i))
  {
    match i
    case 0 => assert Bit16(w ^ v, 0) == (Bit16(w, 0) != Bit16(v, 0));
    case 1 => assert Bit16(w ^ v, 1) == (Bit16(w, 1) != Bit16(v, 1));
    case 2 => assert Bit16(w ^ v, 2) == (Bit16(w, 2) != Bit16(v, 2));
    case 3 => assert Bit16(w ^ v, 3) == (Bit16(w, 3) != Bit16(v, 3));
    case 4 => assert Bit16(w ^ v, 4) == (Bit16(w, 4) != Bit16(v, 4));
    case 5 => assert Bit16(w ^ v, 5) == (Bit16(w, 5) != Bit16(v, 5));
    case 6 => assert Bit16(w ^ v, 6) == (Bit16(w, 6) != Bit16(v, 6));
    case 7 => assert Bit16(w ^ v, 7) == (Bit16(w, 7) != Bit16(v, 7));
    case 8 => assert Bit16(w ^ v, 8) == (Bit16(w, 8) != Bit16(v, 8));
    case 9 => assert Bit16(w ^ v, 9) == (Bit16(w, 9) != Bit16(v, 9));
    case 10 => assert Bit16(w ^ v, 10) == (Bit16(w, 10) != Bit16(v, 10));
    case 11 => assert Bit16(w ^ v, 11) == (Bit16(w, 11) != Bit16(v, 11));
    case 12 => assert Bit16(w ^ v, 12) == (Bit16(w, 12) != Bit16(v, 12));
    case 13 => assert Bit16(w ^ v, 13) == (Bit16(w, 13) != Bit16(v, 13));
    case 14 => assert Bit16(w ^ v, 14) == (Bit16(w, 14) != Bit16(v, 14));
    case _ => assert Bit16(w ^ v, 15) == (Bit16(w, 15) != Bit16(v, 15));
  }

  lemma Bits16Xor(w: bv16, v: bv16)
    ensures Bits16(w ^ v) == XorBits(Bits16(w), Bits16(v))
  {
    forall i | 0 <= i < 16
      ensures Bits16(w ^ v)[i] == (Bits16(w)[i] != Bits16(v)[i])
    {
      Bit16Xor(w, v, i);
    }
  }

  lemma Bit16Double(w: bv16, i: nat)
    requires i < 16
    ensures Bit16(w << 1, i) == (i < 15 && Bit16(w, i + 1))
  {
    match i
    case 0 => assert Bit16(w << 1, 0) == Bit16(w, 1);
    case 1 => assert Bit16(w << 1, 1) == Bit16(w, 2);
    case 2 => assert Bit16(w << 1, 2) == Bit16(w, 3);
    case 3 => assert Bit16(w << 1, 3) == Bit16(w, 4);
    case 4 => assert Bit16(w << 1, 4) == Bit16(w, 5);
    case 5 => assert Bit16(w << 1, 5) == Bit16(w, 6);
    case 6 => assert Bit16(w << 1, 6) == Bit16(w, 7);
    case 7 => assert Bit16(w << 1, 7) == Bit16(w, 8);
    case 8 => assert Bit16(w << 1, 8) == Bit16(w, 9);
    case 9 => assert Bit16(w << 1, 9) == Bit16(w, 10);
    case 10 => assert Bit16(w << 1, 10) == Bit16(w, 11);
    case 11 => assert Bit16(w << 1, 11) == Bit16(w, 12);
    case 12 => assert Bit16(w << 1, 12) == Bit16(w, 13);
    case 13 => assert Bit16(w << 1, 13) == Bit16(w, 14);
    case 14 => assert Bit16(w << 1, 14) == Bit16(w, 15);
    case _ => assert Bit16(w << 1, 15) == false;
  }

  lemma Bits16Double(w: bv16)
    ensures Bits16(w << 1) == Bits16(w)[1..] + [false]
  {
    var s, t := Bits16(w << 1), Bits16(w)[1..] + [false];
    forall i | 0 <= i < 16 ensures s[i] == t[i] { Bit16Double(w, i); }
  }

  lemma Bit16OfByte(b: bv8, i: nat)
    requires i < 16
    ensures Bit16((b as bv16) << 8, i) == (i < 8 && Bit8(b, i))
  {
    match i
    case 0 => assert Bit16((b as bv16) << 8, 0) == Bit8(b, 0);
    case 1 => assert Bit16((b as bv16) << 8, 1) == Bit8(b, 1);
    case 2 => assert Bit16((b as bv16) << 8, 2) == Bit8(b, 2);
    case 3 => assert Bit16((b as bv16) << 8, 3) == Bit8(b, 3);
    case 4 => assert Bit16((b as bv16) << 8, 4) == Bit8(b, 4);
    case 5 => assert Bit16((b as bv16) << 8, 5) == Bit8(b, 5);
    case 6 => assert Bit16((b as bv16) << 8, 6) == Bit8(b, 6);
    case 7 => assert Bit16((b as bv16) << 8, 7) == Bit8(b, 7);
    case 8 => assert Bit16((b as bv16) << 8, 8) == false;
    case 9 => assert Bit16((b as bv16) << 8, 9) == false;
    case 10 => assert Bit16((b as bv16) << 8, 10) == false;
    case 11 => assert Bit16((b as bv16) << 8, 11) == false;
    case 12 => assert Bit16((b as bv16) << 8, 12) == false;
    case 13 => assert Bit16((b as bv16) << 8, 13) == false;
    case 14 => assert Bit16((b as bv16) << 8, 14) == false;
    case _ => assert Bit16((b as bv16) << 8, 15) == false;
  }

  lemma Bits16OfByte(b: bv8)
    ensures Bits16((b as bv16) << 8) == Bits8(b) + Zeros(8)
  {
    var s, t := Bits16((b as bv16) << 8), Bits8(b) + Zeros(8);
    forall i | 0 <= i < 16 ensures s[i] == t[i] { Bit16OfByte(b, i); }
  }
}
