/** The fixed code for match positions: a table code for the upper six bits, the lower six
    bits verbatim. */
module PositionCode {
  import opened Words
  import opened BitIO
  import opened HuffmanCode

  // ---------- numbers as bits ----------

  function Pow2(n: nat): (p: nat)
    ensures p >= 1
  {
    if n == 0 then 1 else 2 * Pow2(n - 1)
  }

  /** The lowest `w` bits of `n`, most significant first. */
  function NumBits(n: nat, w: nat): (s: seq<bool>)
    ensures |s| == w
  {
    if w == 0 then [] else NumBits(n / 2, w - 1) + [n % 2 == 1]
  }

  /** Shifting a number left appends zeros. */
  lemma {:induction false} NumBitsShifted(x: nat, w: nat, k: nat)
    ensures NumBits(x * Pow2(k), w + k) == NumBits(x, w) + Zeros(k)
    decreases k
  {
    if k == 0 {
    } else {
      assert x * Pow2(k) == 2 * (x * Pow2(k - 1));
      NumBitsShifted(x, w, k - 1);
      assert Zeros(k) == Zeros(k - 1) + [false];
    }
  }

  function NumOf(s: seq<bool>): nat
    decreases |s|
  {
    if s == [] then 0 else 2 * NumOf(s[..|s| - 1]) + (if s[|s| - 1] then 1 else 0)
  }

  lemma {:induction false} NumOfNumBits(n: nat, w: nat)
    requires n < Pow2(w)
    ensures NumOf(NumBits(n, w)) == n
    decreases w
  {
    if w == 0 {
    } else {
      NumOfNumBits(n / 2, w - 1);
      assert NumBits(n, w)[..w - 1] == NumBits(n / 2, w - 1);
    }
  }

  lemma {:induction false} NumOfConcat(a: seq<bool>, b: seq<bool>)
    ensures NumOf(a + b) == NumOf(a) * Pow2(|b|) + NumOf(b)
    decreases |b|
  {
    if b == [] {
      assert a + b == a;
    } else {
      var init := b[..|b| - 1];
      assert (a + b)[..|a + b| - 1] == a + init;
      NumOfConcat(a, init);
      Shifted(NumOf(a), Pow2(|init|), NumOf(init), if b[|b| - 1] then 1 else 0);
    }
  }

  lemma Shifted(x: nat, p: nat, y: nat, z: nat)
    ensures 2 * (x * p + y) + z == x * (2 * p) + (2 * y + z)
  {
    assert 2 * (x * p) == x * (2 * p);
  }

  lemma {:induction false} NumOfBound(s: seq<bool>)
    ensures NumOf(s) < Pow2(|s|)
    decreases |s|
  {
    if s == [] {
    } else {
      NumOfBound(s[..|s| - 1]);
    }
  }

  // ---------- the tables, by their runs of equal code length ----------

  /** `p_len`: the length of the code for the upper six bits. */
  function PLen(i: nat): (l: nat)
    ensures 3 <= l <= 8
  {
    if i < 1 then 3 else if i < 4 then 4 else if i < 12 then 5
    else if i < 24 then 6 else if i < 48 then 7 else 8
  }

  /** `p_code`: that code at the top of a byte. */
  function PCode(i: nat): (c: nat)
    requires i < 64
    ensures c < 256
  {
    if i < 1 then 0x00
    else if i < 4 then 0x20 + 0x10 * (i - 1)
    else if i < 12 then 0x50 + 0x08 * (i - 4)
    else if i < 24 then 0x90 + 0x04 * (i - 12)
    else if i < 48 then 0xC0 + 0x02 * (i - 24)
    else 0xF0 + (i - 48)
  }

  /** `d_code`: the upper six bits, from the first eight bits read. */
  function DCode(v: nat): (i: nat)
    requires v < 256
    ensures i < 64
  {
    if v < 0x20 then 0
    else if v < 0x50 then 1 + (v - 0x20) / 0x10
    else if v < 0x90 then 4 + (v - 0x50) / 0x08
    else if v < 0xC0 then 12 + (v - 0x90) / 0x04
    else if v < 0xF0 then 24 + (v - 0xC0) / 0x02
    else 48 + (v - 0xF0)
  }

  /** `d_len`: the length of the code those bits start with. */
  function DLen(v: nat): (l: nat)
    requires v < 256
    ensures 3 <= l <= 8
  {
    if v < 0x20 then 3 else if v < 0x50 then 4 else if v < 0x90 then 5
    else if v < 0xC0 then 6 else if v < 0xF0 then 7 else 8
  }

  /** Any byte that starts with the code of `i` is decoded as `i`. */
  lemma TablesAgree(i: nat, v: nat)
    requires i < 64 && PCode(i) <= v < PCode(i) + Pow2(8 - PLen(i))
    ensures v < 256 && DCode(v) == i && DLen(v) == PLen(i)
  {
    assert Pow2(0) == 1 && Pow2(1) == 2 && Pow2(2) == 4 && Pow2(3) == 8 && Pow2(4) == 16;
    assert Pow2(5) == 2 * Pow2(4);
  }

  /** The code of `i` as a number of `PLen(i)` bits. */
  function TopCode(i: nat): nat
    requires i < 64
  {
    if i < 1 then i else if i < 4 then i + 1 else if i < 12 then i + 6
    else if i < 24 then i + 24 else if i < 48 then i + 72 else i + 192
  }

  lemma PowersOfTwo()
    ensures Pow2(0) == 1 && Pow2(1) == 2 && Pow2(2) == 4 && Pow2(3) == 8 && Pow2(4) == 16
    ensures Pow2(5) == 32 && Pow2(6) == 64 && Pow2(7) == 128 && Pow2(8) == 256
  {
    assert Pow2(4) == 16;
    assert Pow2(6) == 64;
  }

  /** The code fills the top of its byte; the rest of the byte is clear. */
  lemma CodeFillsTop(i: nat)
    requires i < 64
    ensures PCode(i) == TopCode(i) * Pow2(8 - PLen(i))
    ensures TopCode(i) < Pow2(PLen(i))
  {
    PowersOfTwo();
  }

  // ---------- the code ----------

  /** The upper part of a position's code. */
  function UpperBits(i: nat): (s: seq<bool>)
    requires i < 64
    ensures |s| == PLen(i)
  {
    NumBits(TopCode(i), PLen(i))
  }

  /** `p_code[i] << 8`, cut to its code length, is the code. */
  lemma CodeWordTop(i: nat)
    requires i < 64
    ensures NumBits(PCode(i), 8) == UpperBits(i) + Zeros(8 - PLen(i))
  {
    CodeFillsTop(i);
    NumBitsShifted(TopCode(i), PLen(i), 8 - PLen(i));
  }

  /** What `EncodePosition` writes. */
  function PositionBits(c: nat): (s: seq<bool>)
    requires c < 4096
    ensures 9 <= |s| <= 14
  {
    UpperBits(c / 64) + NumBits(c % 64, 6)
  }

  /** What a position costs, nearer ones less; and the codes of the upper parts count up like
      binary numbers, from all zeros to all ones, so that the table is settled by the lengths. */
  lemma PositionCosts(c: nat)
    requires c < 4096
    ensures |PositionBits(c)| == if c < 64 then 9 else if c < 256 then 10 else if c < 768 then 11
                                 else if c < 1536 then 12 else if c < 3072 then 13 else 14
    ensures PositionBits(c)[|PositionBits(c)| - 6..] == NumBits(c % 64, 6)
    ensures c < 64 ==> NumOf(UpperBits(c / 64)) == 0
    ensures c >= 64 ==>
      NumOf(UpperBits(c / 64)) == (NumOf(UpperBits(c / 64 - 1)) + 1) * (if c / 64 in {1, 4, 12, 24, 48} then 2 else 1)
    ensures c >= 4032 ==> NumOf(UpperBits(c / 64)) == 0xFF
  {
    PowersOfTwo();
    CodeFillsTop(c / 64);
    NumOfNumBits(TopCode(c / 64), PLen(c / 64));
    if c >= 64 {
      CodeFillsTop(c / 64 - 1);
      NumOfNumBits(TopCode(c / 64 - 1), PLen(c / 64 - 1));
    }
  }

  /** The `m` bits of a stream from `n` on, as a number. */
  function NumAt(bits: seq<bool>, n: nat, m: nat): nat {
    if m == 0 then 0 else 2 * NumAt(bits, n, m - 1) + (if BitAt(bits, n + m - 1) then 1 else 0)
  }

  lemma {:induction false} NumAtBound(bits: seq<bool>, n: nat, m: nat)
    ensures NumAt(bits, n, m) < Pow2(m)
    decreases m
  {
    if m == 0 {
    } else {
      NumAtBound(bits, n, m - 1);
    }
  }

  lemma {:induction false} NumAtIs(bits: seq<bool>, n: nat, s: seq<bool>)
    requires StartsAt(bits, n, s)
    ensures NumAt(bits, n, |s|) == NumOf(s)
    decreases |s|
  {
    if s == [] {
    } else {
      var m := |s| - 1;
      assert bits[n..n + m] == bits[n..n + |s|][..m];
      NumAtIs(bits, n, s[..m]);
      assert bits[n + m] == bits[n..n + |s|][m];
    }
  }

  /** `DecodePosition`: eight bits pick the upper part and the number of bits to follow. */
  function DecodePosition(bits: seq<bool>, n: nat): (r: (nat, nat))
    ensures r.0 < 4096 && r.1 > n
  {
    NumAtBound(bits, n, 8);
    assert Pow2(8) == 256;
    var v := NumAt(bits, n, 8);
    var m := 8 + DLen(v) - 2;
    (DCode(v) * 64 + NumAt(bits, n, m) % 64, n + m)
  }

  lemma LowSix(a: nat, y: nat)
    requires y < 64
    ensures (a * 64 + y) % 64 == y
  {}

  /** The first eight bits of a position's code pick its table entry. */
  lemma FirstByte(x: nat, low: seq<bool>)
    requires x < 64 && |low| == 8 - PLen(x)
    ensures var v := NumOf(UpperBits(x) + low); v < 256 && DCode(v) == x && DLen(v) == PLen(x)
  {
    NumOfConcat(UpperBits(x), low);
    NumOfBound(low);
    CodeFillsTop(x);
    NumOfNumBits(TopCode(x), PLen(x));
    TablesAgree(x, NumOf(UpperBits(x) + low));
  }

  /** The last six bits are the lower part. */
  lemma LastSix(a: seq<bool>, y: nat)
    requires y < 64
    ensures NumOf(a + NumBits(y, 6)) % 64 == y
  {
    PowersOfTwo();
    NumOfConcat(a, NumBits(y, 6));
    NumOfNumBits(y, 6);
    LowSix(NumOf(a), y);
  }

  /** Reading a written position gives it back and takes exactly its bits. */
  lemma DecodeInvertsPosition(c: nat, bits: seq<bool>, n: nat)
    requires c < 4096 && StartsAt(bits, n, PositionBits(c))
    ensures DecodePosition(bits, n) == (c, n + |PositionBits(c)|)
  {
    var x, y := c / 64, c % 64;
    var a, b := UpperBits(x), NumBits(y, 6);
    var first := a + b[..8 - PLen(x)];
    assert first == PositionBits(c)[..8];
    assert bits[n..n + 8] == bits[n..n + PLen(x) + 6][..8];
    NumAtIs(bits, n, first);
    FirstByte(x, b[..8 - PLen(x)]);
    NumAtIs(bits, n, a + b);
    LastSix(a, y);
  }
}
