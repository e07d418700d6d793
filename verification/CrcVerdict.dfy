/** What the CRC in front of a compressed file is worth: which files `Decode` takes for whole. */
module CrcVerdict {
  import opened Words
  import opened HuffmanCode
  import opened Bytes
  import opened SearchTree
  import opened Newlines
  import opened Lzss
  import opened FbbCode
  import opened Stream
  import opened TokenWriter
  import opened Framing
  import opened RoundTrip
  import opened Crc

  // ---------- different strings, different registers ----------

  lemma FeedKeepsApart(a: Register, b: Register, bit: bool)
    requires Feed(a, bit) == Feed(b, bit)
    ensures a == b
  {
    assert Bits16(GENERATOR)[15];
    assert Feed(a, bit)[15] == (bit != a[0]) && Feed(b, bit)[15] == (bit != b[0]);
    forall i | 1 <= i < 16 ensures a[i] == b[i] {
      assert Feed(a, bit)[i - 1] == (a[i] != (a[0] && Bits16(GENERATOR)[i - 1]));
      assert Feed(b, bit)[i - 1] == (b[i] != (b[0] && Bits16(GENERATOR)[i - 1]));
    }
  }

  lemma {:induction false} ShiftKeepsApart(a: Register, b: Register, n: nat)
    requires Shift(a, n) == Shift(b, n)
    ensures a == b
    decreases n
  {
    if n == 0 {
    } else {
      ShiftKeepsApart(Feed(a, false), Feed(b, false), n - 1);
      FeedKeepsApart(a, b, false);
    }
  }

  lemma XorKeepsApart(w: Register, v: Register, a: Register, b: Register)
    requires XorBits(w, a) == XorBits(v, b)
    ensures w == v <==> a == b
  {
    forall i | 0 <= i < 16 ensures (w[i] != a[i]) == (v[i] != b[i]) {
      assert XorBits(w, a)[i] == XorBits(v, b)[i];
    }
  }

  lemma {:induction false} FoldKeepsApart(m: seq<Byte>, a: Register, b: Register)
    requires Fold(m, a) == Fold(m, b)
    ensures a == b
    decreases |m|
  {
    hide Shift;
    if m == [] {
    } else {
      FoldKeepsApart(m[1..], UpdCrc(m[0], a), UpdCrc(m[0], b));
      UpdCrcIsShift(m[0], a);
      UpdCrcIsShift(m[0], b);
      var c: Register := m[0] + Zeros(8);
      ShiftKeepsApart(XorBits(a, c), XorBits(b, c), 8);
      XorKeepsApart(a, b, c, c);
    }
  }

  /** Two bytes enter the register as one word of sixteen bits. */
  lemma TwoBytes(c: Byte, d: Byte, w: Register)
    ensures UpdCrc(d, UpdCrc(c, w)) == Shift(XorBits(w, c + d), 16)
  {
    hide Shift;
    var x: Register := XorBits(w, c + Zeros(8));
    UpdCrcIsShift(c, w);
    UpdCrcIsShift(d, Shift(x, 8));
    LowByte(d);
    ShiftLinear(x, Zeros(8) + d, 8);
    ShiftTwice(XorBits(x, Zeros(8) + d), 8, 8);
    assert XorBits(x, Zeros(8) + d) == XorBits(w, c + d);
  }

  lemma LowByte(d: Byte)
    ensures Shift(Zeros(8) + d, 8) == d + Zeros(8)
  {
    ShiftLow(Zeros(8) + d, 8);
    assert (Zeros(8) + d)[8..] == d;
  }

  /** A string with two neighbouring bytes changed has another CRC. */
  lemma NeighboursCount(p: seq<Byte>, c: Byte, d: Byte, c2: Byte, d2: Byte, s: seq<Byte>, w: Register)
    requires Fold(p + [c, d] + s, w) == Fold(p + [c2, d2] + s, w)
    ensures c == c2 && d == d2
  {
    hide Shift, UpdCrc;
    var v := Fold(p, w);
    FoldAround(p, c, d, s, w);
    FoldAround(p, c2, d2, s, w);
    FoldKeepsApart(s, UpdCrc(d, UpdCrc(c, v)), UpdCrc(d2, UpdCrc(c2, v)));
    TwoBytes(c, d, v);
    TwoBytes(c2, d2, v);
    ShiftKeepsApart(XorBits(v, c + d), XorBits(v, c2 + d2), 16);
    XorKeepsApart(v, v, c + d, c2 + d2);
    assert c == (c + d)[..8] && c2 == (c2 + d2)[..8] && d == (c + d)[8..] && d2 == (c2 + d2)[8..];
  }

  lemma FoldAround(p: seq<Byte>, c: Byte, d: Byte, s: seq<Byte>, w: Register)
    ensures Fold(p + [c, d] + s, w) == Fold(s, UpdCrc(d, UpdCrc(c, Fold(p, w))))
  {
    hide UpdCrc;
    FoldConcat(p + [c, d], s, w);
    FoldConcat(p, [c, d], w);
    FoldPair(c, d, Fold(p, w));
  }

  lemma FoldPair(c: Byte, d: Byte, w: Register)
    ensures Fold([c, d], w) == UpdCrc(d, UpdCrc(c, w))
  {
    hide UpdCrc;
    assert [c, d][1..] == [d] && [d][1..] == [];
    assert Fold([d], UpdCrc(c, w)) == UpdCrc(d, UpdCrc(c, w));
  }

  // ---------- the verdict ----------

  /** The file has a CRC, and its header is accepted. */
  predicate Opens(file: seq<Byte>, fbb: nat)
    ensures Opens(file, fbb) ==> fbb >= 2 && |file| >= 22
  {
    fbb >= 2 && ReadHeader(file, false, fbb).Accepted?
  }

  /** The CRC a file carries, lower byte first. */
  function CrcOf(file: seq<Byte>): Register
    requires |file| >= 22
  {
    Word(file[21], file[20])
  }

  function Word(high: seq<bool>, low: seq<bool>): Register
    requires |high| == 8 && |low| == 8
  {
    high + low
  }

  lemma WordHalves(a: Byte, b: Byte, w: Register)
    ensures Word(b, a) == w <==> a == w[8..] && b == w[..8]
  {
    assert Word(b, a)[..8] == b && Word(b, a)[8..] == a;
  }

  function WithCrc(file: seq<Byte>, a: Byte, b: Byte): (r: seq<Byte>)
    requires |file| >= 22
    ensures |r| == |file| && r[20] == a && r[21] == b
    ensures forall i :: 0 <= i < |file| && i != 20 && i != 21 ==> r[i] == file[i]
  {
    file[20 := a][21 := b]
  }

  /** Where `Decode` has stopped reading when it looks at the CRC: behind the byte of the last bit,
      or one byte further. */
  ghost function ReadTo(file: seq<Byte>, fbb: nat, stale: seq<byte>): (end: nat)
    requires Opens(file, fbb) && |stale| == F
    ensures 22 <= end <= |file|
  {
    var hd := ReadHeader(file, false, fbb);
    var (h, n) := DecodeLoop(FBB, StartTree(), BitsOf(file[hd.codes..]), 0, StartHistory(stale), N + hd.size);
    Min(|file|, hd.codes + (n + 15) / 8)
  }

  /** The CRC a file should carry, by the bit-serial register: over everything read from the
      length on. */
  ghost function SerialCrc(file: seq<Byte>, fbb: nat, stale: seq<byte>): Register
    requires Opens(file, fbb) && |stale| == F
  {
    SerialFold(file[22..ReadTo(file, fbb, stale)] + TwoZeros(), Zeros(16))
  }

  /** A file with a CRC is taken for whole exactly if its bytes 21 and 20, in this order, are
      the bit-serial CRC of what was read behind them. */
  lemma VerdictIs(file: seq<Byte>, fbb: nat, stale: seq<byte>)
    requires Opens(file, fbb) && |stale| == F
    ensures DecodeFile(file, false, fbb, stale).ok <==> CrcOf(file) == SerialCrc(file, fbb, stale)
  {
    hide DecodeLoop, Fold, SerialFold, StartHistory, LengthAt, Absurd;
    TableIsSerial(file[22..ReadTo(file, fbb, stale)]);
    assert file[20..22][0] == file[20] && file[20..22][1] == file[21];
  }

  /** The two CRC bytes decide nothing but the verdict. */
  lemma OnlyVerdict(file: seq<Byte>, fbb: nat, stale: seq<byte>, a: Byte, b: Byte)
    requires Opens(file, fbb) && |stale| == F
    ensures var other := WithCrc(file, a, b);
            && Opens(other, fbb) && SerialCrc(other, fbb, stale) == SerialCrc(file, fbb, stale)
            && DecodeFile(other, false, fbb, stale).out == DecodeFile(file, false, fbb, stale).out
  {
    hide DecodeLoop, Fold, SerialFold, StartHistory, Absurd, OfLe32, Normalise;
    var other := WithCrc(file, a, b);
    assert LengthAt(other, 22) == LengthAt(file, 22);
    assert forall i :: 22 <= i <= |file| ==> other[i..] == file[i..];
    assert forall i :: 22 <= i <= |file| ==> other[22..i] == file[22..i];
  }

  /** Of all files that are alike except for bytes 20 and 21 exactly one is taken for whole. */
  lemma OneAccepted(file: seq<Byte>, fbb: nat, stale: seq<byte>) returns (x: Byte, y: Byte)
    requires Opens(file, fbb) && |stale| == F
    ensures forall a: Byte, b: Byte :: DecodeFile(WithCrc(file, a, b), false, fbb, stale).ok <==> a == x && b == y
  {
    hide Opens, DecodeFile, SerialCrc;
    var crc := SerialCrc(file, fbb, stale);
    x, y := crc[8..], crc[..8];
    forall a: Byte, b: Byte
      ensures DecodeFile(WithCrc(file, a, b), false, fbb, stale).ok <==> a == x && b == y
    {
      OnlyVerdict(file, fbb, stale, a, b);
      VerdictIs(WithCrc(file, a, b), fbb, stale);
      WordHalves(a, b, crc);
    }
  }

  /** What `Encode` wrote, with any other CRC in front of it, is refused, though the text that
      comes out is the same; and the CRC it wrote is the bit-serial one of the whole rest. */
  lemma ChangedCrcRefused(fbb: nat, prefix: seq<Byte>, text: seq<byte>, ks: seq<Token>, codes: seq<Byte>,
                          stale: seq<byte>, a: Byte, b: Byte)
    requires fbb >= 2 && |prefix| == 20 && |stale| == F && 0 < |text| < MAX32
    requires WellTokens(ks) && Covers(Line(text), ks, START + |text|) && Packs(codes, BitsOfTokens(ks))
    requires !Absurd(|text|, |FileOf(false, fbb, prefix, |text|, codes)|)
    ensures var file := FileOf(false, fbb, prefix, |text|, codes);
            && |file| >= 22 && CrcOf(file) == SerialFold(file[22..] + TwoZeros(), Zeros(16))
            && (var d := DecodeFile(WithCrc(file, a, b), false, fbb, stale);
                && d.out == Normalise(text, 0) && (d.ok <==> a == file[20] && b == file[21]))
  {
    hide DecodeFile, Fold, SerialFold, Absurd, Covers, Packs, BitsOfTokens, Normalise, ReadHeader, ReadTo, FileOf;
    var file := FileOf(false, fbb, prefix, |text|, codes);
    FileReadsBack(false, fbb, prefix, text, ks, codes, stale);
    FileLayout(false, fbb, prefix, |text|, codes);
    WrittenCrc(file, Le32(|text|) + codes);
    Accepts(file, fbb, stale);
    VerdictIs(file, fbb, stale);
    OnlyVerdict(file, fbb, stale, a, b);
    VerdictIs(WithCrc(file, a, b), fbb, stale);
    WordHalves(a, b, CrcOf(file));
    WordHalves(file[20], file[21], CrcOf(file));
  }

  lemma Accepts(file: seq<Byte>, fbb: nat, stale: seq<byte>)
    requires fbb >= 2 && |stale| == F && DecodeFile(file, false, fbb, stale).ok
    ensures Opens(file, fbb)
  {}

  lemma WrittenCrc(file: seq<Byte>, body: seq<Byte>)
    requires |file| >= 22 && file[22..] == body && file[20..22] == CrcBytes(Fold(body, Zeros(16)))
    ensures CrcOf(file) == SerialFold(file[22..] + TwoZeros(), Zeros(16))
  {
    hide Fold, SerialFold;
    TableIsSerial(body);
    assert file[20..22][0] == file[20] && file[20..22][1] == file[21];
  }

  /** An error in two neighbouring bytes behind the CRC is seen whenever it does not change how
      far the codes reach: not both files are taken for whole. */
  lemma NeighboursSeen(p: seq<Byte>, c: Byte, d: Byte, c2: Byte, d2: Byte, s: seq<Byte>, fbb: nat, stale: seq<byte>)
    requires |p| >= 22 && |stale| == F && (c != c2 || d != d2)
    requires Opens(p + [c, d] + s, fbb) && Opens(p + [c2, d2] + s, fbb)
    requires ReadTo(p + [c, d] + s, fbb, stale) == ReadTo(p + [c2, d2] + s, fbb, stale) >= |p| + 2
    ensures !(DecodeFile(p + [c, d] + s, false, fbb, stale).ok && DecodeFile(p + [c2, d2] + s, false, fbb, stale).ok)
  {
    hide DecodeFile, Fold, SerialFold, ReadTo, Opens;
    var f, f2 := p + [c, d] + s, p + [c2, d2] + s;
    var end := ReadTo(f, fbb, stale);
    VerdictIs(f, fbb, stale);
    VerdictIs(f2, fbb, stale);
    TableIsSerial(f[22..end]);
    TableIsSerial(f2[22..end]);
    var p1, s1 := p[22..], s[..end - |p| - 2];
    assert f[22..end] == p1 + [c, d] + s1 && f2[22..end] == p1 + [c2, d2] + s1;
    assert f[20] == f2[20] && f[21] == f2[21];
    if Fold(f[22..end], Zeros(16)) == Fold(f2[22..end], Zeros(16)) {
      NeighboursCount(p1, c, d, c2, d2, s1, Zeros(16));
    }
  }
}
