/** The bit packer and unpacker of the compressor: 16-bit buffers `putbuf` and `getbuf`
    in front of files that keep a running CRC. */
module BitIO {
  import opened Bytes
  import opened Sequences
  import opened Words
  import Crc

  /** Bits `l` and above of a code word are clear. */
  ghost predicate ClearFrom(w: Register, l: nat) {
    forall i :: l <= i < 16 ==> !w[i]
  }

  /** The first `l` bits of a code word, with zeros past its sixteen bits. */
  function Code(c: Register, l: nat): (s: seq<bool>)
    ensures |s| == l
  {
    (c + Zeros(l))[..l]
  }

  // ---------- one step of the packer ----------

  /** `k` bits wait in `buf`; the code `c` goes in behind them. */
  function Merge(buf: Register, k: nat, c: Register): Register {
    OrBits(buf, Shr(c, k))
  }

  lemma MergeFits(buf: Register, k: nat, c: Register, l: nat)
    requires k + l <= 16 && ClearFrom(buf, k) && ClearFrom(c, l)
    ensures Merge(buf, k, c)[..k + l] == buf[..k] + Code(c, l)
    ensures ClearFrom(Merge(buf, k, c), k + l)
  {}

  lemma MergeOneByte(buf: Register, k: nat, c: Register, l: nat)
    requires 8 <= k + l <= 16 && ClearFrom(buf, k) && ClearFrom(c, l)
    ensures var w := Merge(buf, k, c);
            w[..8] + Shl(w, 8)[..k + l - 8] == buf[..k] + Code(c, l) && ClearFrom(Shl(w, 8), k + l - 8)
  {
    MergeFits(buf, k, c, l);
    var w := Merge(buf, k, c);
    assert w[..8] + Shl(w, 8)[..k + l - 8] == w[..k + l];
  }

  lemma MergeTwoBytes(buf: Register, k: nat, c: Register, l: nat)
    requires k <= 16 <= k + l <= 32 && ClearFrom(buf, k) && ClearFrom(c, l)
    ensures var w := Merge(buf, k, c); var rest := Shl(c, 16 - k);
            w[..8] + w[8..] + rest[..k + l - 16] == buf[..k] + Code(c, l) && ClearFrom(rest, k + l - 16)
  {
    var w := Merge(buf, k, c);
    var rest := Shl(c, 16 - k);
    assert w[..8] + w[8..] == w;
    assert w == buf[..k] + c[..16 - k];
    assert c[..16 - k] + rest[..k + l - 16] == Code(c, l);
  }

  /** What one `Putcode` does: bits out, and the buffer it leaves. */
  datatype PutStep = PutStep(bits: seq<bool>, buf: Register, len: nat)

  function Put(buf: Register, k: nat, c: Register, l: nat): PutStep {
    var w := Merge(buf, k, c);
    var n := k + l;
    if n < 8 then PutStep([], w, n)
    else if n < 16 then PutStep(w[..8], Shl(w, 8), n - 8)
    else PutStep(w[..8] + w[8..], Shl(c, l - (n - 16)), n - 16)
  }

  /** Nothing is lost: bits out and bits kept are the bits that waited and the code. */
  lemma PutExact(buf: Register, k: nat, c: Register, l: nat)
    requires k <= 16 && k + l <= 32 && ClearFrom(buf, k) && ClearFrom(c, l)
    ensures var s := Put(buf, k, c, l);
            && s.len <= 16 && ClearFrom(s.buf, s.len)
            && s.bits + s.buf[..s.len] == buf[..k] + Code(c, l)
  {
    if k + l < 8 {
      MergeFits(buf, k, c, l);
    } else if k + l < 16 {
      MergeOneByte(buf, k, c, l);
    } else {
      MergeTwoBytes(buf, k, c, l);
    }
  }

  /** The same, behind the bits `p` already packed. */
  lemma PutAppends(p: seq<bool>, buf: Register, k: nat, c: Register, l: nat)
    requires ClearFrom(c, l)
    ensures var s := Put(buf, k, c, l);
            k <= 16 && k + l <= 32 && ClearFrom(buf, k) ==>
              && s.len <= 16 && ClearFrom(s.buf, s.len)
              && p + s.bits + s.buf[..s.len] == p + buf[..k] + Code(c, l)
    ensures var s := Put(buf, k, c, l);
            k <= 7 && l <= 16 && ClearFrom(buf, k) ==> s.len <= 7
  {
    if k <= 16 && k + l <= 32 && ClearFrom(buf, k) {
      PutExact(buf, k, c, l);
      var s := Put(buf, k, c, l);
      Assoc(p, s.bits, s.buf[..s.len]);
      Assoc(p, buf[..k], Code(c, l));
    }
  }

  /** How many bits wait in the buffer once a code of `l` bits has joined the `k` there. */
  function Left(k: nat, l: nat): (r: nat)
    ensures k + l <= 32 ==> r <= 16
    ensures k <= 7 && l <= 16 ==> r <= 7
  {
    if k + l < 8 then k + l else if k + l < 16 then k + l - 8 else k + l - 16
  }

  // ---------- writing ----------

  /** The output file behind `crc_fputc`. */
  class CrcWriter {
    var out: seq<Byte>           // every byte written through the CRC
    var crc: Register
    ghost const head: seq<Byte>  // what was there before the packed bits
    ghost var packed: seq<bool>  // the bits of `out` behind it

    ghost predicate Valid()
      reads this
    {
      && head <= out
      && crc == Crc.Fold(out, Zeros(16))
      && packed == BitsOf(out[|head|..])
    }

    /** A file that already holds `head`. */
    constructor (head: seq<Byte>)
      ensures Valid() && out == head && this.head == head && packed == []
    {
      out := head;
      crc := Crc.Fold(head, Zeros(16));
      this.head := head;
      packed := [];
    }

    method Put(b: Byte)
      requires Valid()
      modifies this
      ensures Valid() && out == old(out) + [b] && packed == old(packed) + b
    {
      Crc.FoldConcat(out, [b], Zeros(16));
      BitsOfConcat(out[|head|..], [b]);
      BitsOfOne(b);
      assert (out + [b])[|head|..] == out[|head|..] + [b];
      crc := Crc.UpdCrc(b, crc);
      out := out + [b];
      packed := packed + b;
    }
  }

  /** The bit packer. */
  class BitSink {
    const file: CrcWriter
    var putbuf: Register
    var putlen: nat
    var codesize: nat

    ghost predicate Valid()
      reads this, file
    {
      && file.Valid()
      && 8 * codesize == |file.packed|
    }

    /** At most `k` bits wait in the buffer and nothing lies behind them. */
    ghost predicate Pending(k: nat)
      reads this
    {
      putlen <= k <= 16 && ClearFrom(putbuf, putlen)
    }

    /** All bits put so far: the packed bytes and the bits still in the buffer. */
    ghost function Written(): seq<bool>
      reads this, file
      requires Pending(16)
    {
      file.packed + putbuf[..putlen]
    }

    constructor (file: CrcWriter)
      requires file.Valid() && file.packed == []
      ensures Valid() && Pending(16) && putlen == 0 && this.file == file && Written() == []
    {
      this.file := file;
      putbuf := Zeros(16);
      putlen := 0;
      codesize := 0;
    }

    /** Append a code of `l` bits, held at the top of `c`. */
    method Putcode(l: nat, c: Register)
      requires Valid() && l <= 21 && ClearFrom(c, l)
      modifies this, file
      ensures Valid()
      ensures old(Pending(16)) && old(putlen) + l <= 32 ==>
                Pending(16) && Written() == old(Written()) + Code(c, l)
      ensures putlen == Left(old(putlen), l)
      ensures old(Pending(7)) && l <= 16 ==> Pending(7)
    {
      hide Merge, ClearFrom, Code;
      ghost var step := Put(putbuf, putlen, c, l);
      ghost var before := file.packed;
      PutAppends(before, putbuf, putlen, c, l);
      var w := Merge(putbuf, putlen, c);
      var n := putlen + l;
      if n >= 8 {
        file.Put(w[..8]);
        n := n - 8;
        if n >= 8 {
          file.Put(w[8..]);
          codesize := codesize + 2;
          n := n - 8;
          Assoc(before, w[..8], w[8..]);
          w := Shl(c, l - n);
        } else {
          w := Shl(w, 8);
          codesize := codesize + 1;
        }
      }
      putbuf, putlen := w, n;
      assert putbuf == step.buf && putlen == step.len;
      assert file.packed == before + step.bits;
    }

    /** Flush: the last partial byte goes out padded with zeros. */
    method EncodeEnd()
      requires Valid()
      modifies this, file
      ensures Valid()
      ensures old(Pending(8)) ==> exists pad: nat :: pad < 8 && file.packed == old(Written()) + Zeros(pad)
    {
      if putlen != 0 {
        file.Put(putbuf[..8]);
        codesize := codesize + 1;
        assert old(Pending(8)) ==> file.packed == old(Written()) + Zeros(8 - putlen);
      } else {
        assert old(Pending(8)) ==> file.packed == old(Written()) + Zeros(0);
      }
    }
  }

  // ---------- reading ----------

  /** Bit `n` of a stream; zeros follow its end. */
  function BitAt(bits: seq<bool>, n: nat): bool {
    n < |bits| && bits[n]
  }

  /** `p` lies in a stream at position `n`. */
  ghost predicate StartsAt(bits: seq<bool>, n: nat, p: seq<bool>) {
    n + |p| <= |bits| && bits[n..n + |p|] == p
  }

  /** Byte `n` of the packed data, as `getc` and the end-of-file rule deliver it. */
  function StreamByte(data: seq<Byte>, n: nat): Byte {
    if n < |data| then data[n] else Zeros(8)
  }

  /** `bits` are the bits of `data`, also past its end. */
  ghost predicate SameStream(data: seq<Byte>, bits: seq<bool>) {
    forall n: nat, i: nat {:trigger StreamByte(data, n)[i]} ::
      i < 8 ==> StreamByte(data, n)[i] == BitAt(bits, 8 * n + i)
  }

  lemma BitsSame(data: seq<Byte>)
    ensures SameStream(data, BitsOf(data))
  {
    forall n: nat, i: nat | i < 8
      ensures StreamByte(data, n)[i] == BitAt(BitsOf(data), 8 * n + i)
    {
      assert (8 * n + i) / 8 == n && (8 * n + i) % 8 == i;
    }
  }

  /** The first `k` bits of `buf` are the stream from bit `at` on; the rest is clear. */
  ghost predicate Window(bits: seq<bool>, at: nat, buf: Register, k: nat) {
    && k <= 16
    && (forall i :: 0 <= i < k ==> buf[i] == BitAt(bits, at + i))
    && ClearFrom(buf, k)
  }

  /** A fetched byte goes in behind the `k` bits still waiting. */
  function Refill(buf: Register, k: nat, b: Byte): Register
    requires k <= 8
  {
    OrBits(buf, Shl(Zeros(8) + b, 8 - k))
  }

  lemma WindowGrows(bits: seq<bool>, at: nat, buf: Register, k: nat, b: Byte)
    requires Window(bits, at, buf, k) && k <= 8
    requires forall i :: 0 <= i < 8 ==> b[i] == BitAt(bits, at + k + i)
    ensures Window(bits, at, Refill(buf, k, b), k + 8)
  {
    var w := Refill(buf, k, b);
    forall i | k <= i < k + 8 ensures w[i] == BitAt(bits, at + i) {
      assert w[i] == b[i - k];
    }
  }

  lemma WindowAdvances(bits: seq<bool>, at: nat, buf: Register, k: nat, n: nat)
    requires Window(bits, at, buf, k) && n <= k
    ensures Window(bits, at + n, Shl(buf, n), k - n)
    ensures forall i :: 0 <= i < n ==> buf[i] == BitAt(bits, at + i)
  {}

  /** The input file behind `crc_fgetc`. */
  class CrcReader {
    const infile: seq<Byte>
    var pos: nat
    var crc: Register
    ghost const first: nat   // where reading through the CRC began

    ghost predicate Valid()
      reads this
    {
      first <= pos <= |infile| && crc == Crc.Fold(infile[first..pos], Zeros(16))
    }

    constructor (infile: seq<Byte>, pos: nat)
      requires pos <= |infile|
      ensures Valid() && this.infile == infile && this.pos == pos && first == pos
    {
      this.infile := infile;
      this.pos := pos;
      first := pos;
      crc := Zeros(16);
    }

    /** The CRC covers exactly what has been read. */
    lemma Folded()
      requires Valid()
      ensures first <= pos <= |infile| && crc == Crc.Fold(infile[first..pos], Zeros(16))
    {}

    method Get() returns (c: Getc<Byte>)
      requires Valid()
      modifies this
      ensures Valid()
      ensures c == if old(pos) < |infile| then Char(infile[old(pos)]) else Eof
      ensures pos == if old(pos) < |infile| then old(pos) + 1 else old(pos)
    {
      if pos < |infile| {
        c := Char(infile[pos]);
        Crc.FoldConcat(infile[first..pos], [infile[pos]], Zeros(16));
        assert infile[first..pos + 1] == infile[first..pos] + [infile[pos]];
        crc := Crc.UpdCrc(c.c, crc);
        pos := pos + 1;
      } else {
        c := Eof;
      }
    }
  }

  /** The bit unpacker. */
  class BitSource {
    const file: CrcReader
    var getbuf: Register
    var getlen: nat
    ghost const start: nat        // where the packed bits begin in the file
    ghost const data: seq<Byte>   // the file from there on
    ghost const bits: seq<bool>   // its bits
    ghost var consumed: nat       // how many of them have been delivered
    ghost var fetched: nat        // how many bytes have been asked of the file

    /** The file stands behind the bytes fetched. */
    ghost predicate Fetched()
      reads `fetched, file
    {
      && file.Valid()
      && start <= |file.infile| && data == file.infile[start..] && SameStream(data, bits)
      && file.pos == (if start + fetched < |file.infile| then start + fetched else |file.infile|)
    }

    ghost predicate Valid()
      reads this, file
    {
      && Fetched()
      && consumed + getlen == 8 * fetched
      && Window(bits, consumed, getbuf, getlen)
    }

    constructor (file: CrcReader)
      requires file.Valid()
      ensures Valid() && this.file == file && start == file.pos && consumed == 0
      ensures data == file.infile[file.pos..] && bits == BitsOf(data)
    {
      this.file := file;
      getbuf := Zeros(16);
      getlen := 0;
      start := file.pos;
      data := file.infile[file.pos..];
      bits := BitsOf(file.infile[file.pos..]);
      consumed := 0;
      fetched := 0;
      BitsSame(file.infile[file.pos..]);
    }

    /** After a single bit the file stands behind the byte that holds the last bit
        delivered, and at most one more. */
    lemma ReadSoFar()
      requires Valid() && 8 <= getlen <= 15
      ensures file.Valid() && start <= |file.infile|
      ensures fetched == (consumed + 15) / 8
      ensures file.pos == (if start + fetched < |file.infile| then start + fetched else |file.infile|)
    {}

    /** The next byte of the file, or zero past its end. */
    method GetOrZero() returns (i: Byte)
      requires Fetched()
      modifies file, `fetched
      ensures Fetched() && fetched == old(fetched) + 1
      ensures forall k :: 0 <= k < 8 ==> i[k] == BitAt(bits, 8 * old(fetched) + k)
    {
      hide Crc.Fold;
      var c := file.Get();
      i := if c.Eof? then Zeros(8) else c.c;
      assert i == StreamByte(data, fetched);
      assert forall k :: 0 <= k < 8 ==> StreamByte(data, fetched)[k] == BitAt(bits, 8 * fetched + k);
      fetched := fetched + 1;
    }

    /** Both readers top the buffer up to at least nine bits first. */
    method Fill()
      requires Valid()
      modifies this, file
      ensures Valid() && getlen >= 9 && consumed == old(consumed)
    {
      hide Fetched, Refill;
      while getlen <= 8
        invariant Valid() && consumed == old(consumed)
        decreases 16 - getlen
      {
        var i := GetOrZero();
        WindowGrows(bits, consumed, getbuf, getlen, i);
        getbuf := Refill(getbuf, getlen, i);
        getlen := getlen + 8;
      }
    }

    method GetBit() returns (bit: bool)
      requires Valid()
      modifies this, file
      ensures Valid() && 8 <= getlen <= 15
      ensures bit == BitAt(bits, old(consumed)) && consumed == old(consumed) + 1
    {
      hide Shl;
      Fill();
      bit := getbuf[0];
      WindowAdvances(bits, consumed, getbuf, getlen, 1);
      getbuf := Shl(getbuf, 1);
      getlen := getlen - 1;
      consumed := consumed + 1;
    }

    method GetByte() returns (b: Byte)
      requires Valid()
      modifies this, file
      ensures Valid() && consumed == old(consumed) + 8
      ensures forall i :: 0 <= i < 8 ==> b[i] == BitAt(bits, old(consumed) + i)
    {
      Fill();
      b := getbuf[..8];
      WindowAdvances(bits, consumed, getbuf, getlen, 8);
      getbuf := Shl(getbuf, 8);
      getlen := getlen - 8;
      consumed := consumed + 8;
    }
  }
}
