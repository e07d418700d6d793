/** `Decode`: the whole expansion, from compressed file to text. */
module Decoder {
  import opened Words
  import opened BitIO
  import opened HuffmanTables
  import opened HuffmanCode
  import opened Huffman
  import opened Bytes
  import opened SearchTree
  import opened Newlines
  import opened Lzss
  import opened FbbCode
  import opened Stream
  import opened TokenWriter
  import opened Framing
  import opened CrcVerdict
  import PositionCode
  import Crc

  // ---------- the circular buffer ----------

  /** Index `x` of the history lives in this slot. */
  function Slot(x: nat): Pos { (x + START) % N }

  /** The buffer holds the last N bytes of the history. */
  ghost predicate Holding(buf: seq<byte>, h: seq<byte>) {
    && |buf| >= N && |h| >= N
    && forall x :: |h| - N <= x < |h| ==> buf[Slot(x)] == h[x]
  }

  lemma SlotsDiffer(x: nat, y: nat)
    requires x < y < x + N
    ensures Slot(x) != Slot(y)
  {}

  lemma SlotWraps(x: nat)
    ensures Slot(x + N) == Slot(x) && Slot(x + 1) == (Slot(x) + 1) % N
  {
    var q, m := (x + START) / N, (x + START) % N;
    assert x + START == N * q + m;
    assert x + N + START == N * (q + 1) + m;
    assert x + 1 + START == if m + 1 < N then N * q + (m + 1) else N * (q + 1);
  }

  lemma StoreOne(buf: seq<byte>, h: seq<byte>, c: byte)
    requires Holding(buf, h)
    ensures Holding(buf[Slot(|h|) := c], h + [c])
  {
    var buf2, h2 := buf[Slot(|h|) := c], h + [c];
    forall x | |h2| - N <= x < |h2| ensures buf2[Slot(x)] == h2[x] {
      if x < |h| {
        SlotsDiffer(x, |h|);
        assert buf[Slot(x)] == h[x];
      }
    }
  }

  /** The slot `DecodePosition` points at is where the byte `pos + 1` back lies. */
  lemma BackSlot(n: nat, pos: nat, k: nat)
    requires n >= N
    ensures ((Slot(n) - pos - 1) % N + k) % N == Slot(n + k - (pos % N + 1))
  {
    assert pos == pos / N * N + pos % N;
    assert (Slot(n) - pos - 1) % N == (Slot(n) - pos % N - 1) % N by { Multiple(Slot(n) - pos % N - 1, pos / N); }
  }

  lemma Multiple(a: int, q: nat)
    ensures (a - q * N) % N == a % N
  {}

  lemma CopySource(buf: seq<byte>, h: seq<byte>, n: nat, pos: nat, k: nat)
    requires Holding(buf, h) && |h| == n + k && n >= N
    ensures buf[((Slot(n) - pos - 1) % N + k) % N] == h[|h| - (pos % N + 1)]
  {
    BackSlot(n, pos, k);
    var x := |h| - (pos % N + 1);
    assert buf[Slot(x)] == h[x];
  }

  lemma StartHolding(buf: seq<byte>, stale: seq<byte>)
    requires |buf| >= N && |stale| == F && buf[START..N] == stale
    requires forall j :: 0 <= j < START ==> buf[j] == BLANK
    ensures Holding(buf, StartHistory(stale)) && Slot(N) == START
  {
    var h := StartHistory(stale);
    forall x | 0 <= x < N ensures buf[Slot(x)] == h[x] {
      if x < F {
        assert Slot(x) == START + x;
        assert buf[START..N][x] == buf[START + x];
      } else {
        assert Slot(x) == x - F;
      }
    }
  }

  class Ring {
    const text_buf: array<byte>
    var r: Pos
    var crlf: byte
    var out: seq<byte>
    ghost var h: seq<byte>   // the history: a window's worth, then everything decoded

    ghost predicate Valid()
      reads this, text_buf
    {
      && text_buf.Length == N + F - 1 && |h| >= N && Holding(text_buf[..], h) && r == Slot(|h|)
      && out == Normalise(h[N..], 0) && crlf == LineState(h[N..], 0)
    }

    /** Blanks, except for the last F slots. */
    constructor (text_buf: array<byte>)
      requires text_buf.Length == N + F - 1
      modifies text_buf
      ensures Valid() && this.text_buf == text_buf && h == StartHistory(old(text_buf[START..N]))
    {
      for i := 0 to START
        invariant forall j :: 0 <= j < i ==> text_buf[j] == BLANK
        invariant forall j :: START <= j < N ==> text_buf[j] == old(text_buf[j])
      {
        text_buf[i] := BLANK;
      }
      StartHolding(text_buf[..], old(text_buf[START..N]));
      this.text_buf := text_buf;
      r, crlf, out := START, 0, [];
      h := StartHistory(old(text_buf[START..N]));
    }

    lemma Full()
      requires Valid()
      ensures |h| >= N && out == Normalise(h[N..], 0)
    {}

    /** One decoded byte: written out by the line-end rule, and stored. */
    method Push(c: byte)
      requires Valid()
      modifies this`r, this`crlf, this`out, this`h, text_buf
      ensures Valid() && h == old(h) + [c]
    {
      OneMoreByte(h, c);
      StoreOne(text_buf[..], h, c);
      SlotWraps(|h|);
      if c == LF || c == CR {
        if crlf == 0 || crlf == c {
          crlf := c;
          out := out + [CR, LF];
        }
      } else {
        crlf := 0;
        out := out + [c];
      }
      text_buf[r] := c;
      r := (r + 1) % N;
      h := h + [c];
    }

    /** A match: bytes from further back, one by one. */
    method Copy(pos: nat, len: nat)
      requires Valid()
      modifies this`r, this`crlf, this`out, this`h, text_buf
      ensures Valid() && h == CopyBack(old(h), pos % N + 1, len)
    {
      hide CopyBack, Slot, Holding, Normalise, LineState;
      ghost var n, dist := |h|, pos % N + 1;
      var i := (r - pos - 1) % N;
      for k := 0 to len
        invariant Valid() && |h| == n + k && CopyBack(h, dist, len - k) == CopyBack(old(h), dist, len)
      {
        CopySource(text_buf[..], h, n, pos, k);
        CopyUnfolds(h, dist, len - k);
        Push(text_buf[(i + k) % N]);
      }
    }
  }

  lemma CopyUnfolds(h: seq<byte>, dist: nat, k: nat)
    requires 1 <= dist <= |h| && k > 0
    ensures CopyBack(h, dist, k) == CopyBack(h + [h[|h| - dist]], dist, k - 1)
  {}

  lemma OneMoreByte(h: seq<byte>, c: byte)
    requires |h| >= N
    ensures (h + [c])[N..] == h[N..] + [c]
    ensures var s := LineState(h[N..], 0); var ends := c == LF || c == CR;
            && Normalise((h + [c])[N..], 0) ==
                 Normalise(h[N..], 0) + (if !ends then [c] else if s == 0 || s == c then [CR, LF] else [])
            && LineState((h + [c])[N..], 0) == (if !ends then 0 else if s == 0 || s == c then c else s)
  {
    assert (h + [c])[N..] == h[N..] + [c];
    NormaliseConcat(h[N..], [c], 0);
    var s := LineState(h[N..], 0);
    assert [c][1..] == [];
    assert Normalise([], c) == [] && Normalise([], s) == [] && Normalise([], 0) == [];
  }

  // ---------- the decoding loop ----------

  /** One round of `DecodeLoop`, with the code spelled out. */
  lemma LoopUnfolds(t: HuffTree, bits: seq<bool>, n: nat, h: seq<byte>, goal: nat)
    requires N <= |h| < goal
    ensures var (s, n1) := DecodeSymbol(t, bits, n);
            var u := FBB.next(t, s);
            DecodeLoop(FBB, t, bits, n, h, goal) ==
              if s < 256 then DecodeLoop(FBB, u, bits, n1, h + [s], goal)
              else var (pos, n2) := PositionCode.DecodePosition(bits, n1);
                   DecodeLoop(FBB, u, bits, n2, CopyBack(h, pos % N + 1, s - 255 + THRESHOLD), goal)
  {}

  /** One round of the loop: a symbol, and what it stands for. */
  method DecodeToken(coder: Coder, source: BitSource, ring: Ring, ghost goal: nat)
      returns (bytes: nat)
    requires coder.Sized() && HuffmanTables.Valid(coder.Model()) && source.Valid() && ring.Valid()
    requires |ring.h| < goal
    requires ring.text_buf as object !in {coder.freq as object, coder.prnt, coder.fils}
    modifies coder.freq, coder.prnt, coder.fils, source, source.file
    modifies ring`r, ring`crlf, ring`out, ring`h, ring.text_buf
    ensures HuffmanTables.Valid(coder.Model()) && source.Valid() && 8 <= source.getlen <= 15 && ring.Valid()
    ensures bytes > 0 && |ring.h| == |old(ring.h)| + bytes
    ensures DecodeLoop(FBB, coder.Model(), source.bits, source.consumed, ring.h, goal) ==
            DecodeLoop(FBB, old(coder.Model()), source.bits, old(source.consumed), old(ring.h), goal)
  {
    hide HuffmanTables.Valid, Updated, DecodeSymbol, CopyBack, PositionCode.DecodePosition, Ring.Valid, BitSource.Valid;
    ring.Full();
    LoopUnfolds(coder.Model(), source.bits, source.consumed, ring.h, goal);
    var c := coder.DecodeChar(source);
    if c < 256 {
      ring.Push(c);
      bytes := 1;
    } else {
      var pos := DecodePosition(source);
      bytes := c - 255 + THRESHOLD;
      ring.Copy(pos, bytes);
    }
  }

  // ---------- the header ----------

  /** Four length bytes through the CRC; past the end of the file each counts as 255. */
  method ReadLength(reader: CrcReader) returns (size: nat)
    requires reader.Valid()
    modifies reader
    ensures reader.Valid() && size == LengthAt(reader.infile, old(reader.pos))
    ensures reader.pos == Min(old(reader.pos) + 4, |reader.infile|)
  {
    hide OfLe32, Crc.Fold;
    ghost var at := reader.pos;
    var temp: seq<Byte> := [];
    for i := 0 to 4
      invariant reader.Valid() && reader.pos == Min(at + i, |reader.infile|) && |temp| == i
      invariant forall j :: 0 <= j < i ==> temp[j] == LengthByte(reader.infile, at + j)
    {
      var c := reader.Get();
      temp := temp + [if c.Eof? then seq(8, _ => true) else c.c];
    }
    assert temp == [LengthByte(reader.infile, at), LengthByte(reader.infile, at + 1),
                    LengthByte(reader.infile, at + 2), LengthByte(reader.infile, at + 3)];
    size := OfLe32(temp);
  }

  lemma PastEnd(file: seq<Byte>, at: nat)
    requires at > |file|
    ensures LengthAt(file, at) == LengthAt(file, |file|)
  {}

  /** What `Decode` does before its loop: no reader when it gives up. */
  method OpenFile(file: seq<Byte>, basic: bool, fbb: nat)
      returns (textsize: nat, fcrc: Register, reader: CrcReader?)
    ensures match ReadHeader(file, basic, fbb)
            case Refused => reader == null
            case Accepted(size, checked, crc, from, codes) =>
              && reader != null && fresh(reader) && reader.Valid() && reader.infile == file
              && reader.first == from && reader.pos == codes
              && textsize == size && checked == (!basic && fbb >= 2) && fcrc == crc
  {
    hide LengthAt, OfLe32, CrcReader.Valid;
    textsize, fcrc, reader := 0, Zeros(16), null;
    var codesize := Wrap32(|file| - 4);
    if !basic {
      var at := 20;
      if fbb >= 2 {
        if |file| < 22 {
          return;
        }
        fcrc := OfCrcBytes(file[20..22]);
        at := 22;
      }
      if at > |file| {
        PastEnd(file, at);
      }
      var from := new CrcReader(file, Min(at, |file|));
      textsize := ReadLength(from);
      if textsize == 0 || textsize == MAX32 || textsize > Wrap32(100 * codesize) {
        return;
      }
      reader := from;
    } else {
      if |file| < 4 {
        return;
      }
      textsize := OfLe32(file[..4]);
      if textsize == 0 || textsize > Wrap32(100 * codesize) {
        return;
      }
      reader := new CrcReader(file, 4);
    }
  }

  // ---------- the whole ----------

  lemma RefusedClosed(file: seq<Byte>, fbb: nat)
    requires ReadHeader(file, false, fbb).Refused?
    ensures !Opens(file, fbb)
  {}

  lemma SizePositive(file: seq<Byte>, basic: bool, fbb: nat)
    ensures ReadHeader(file, basic, fbb).Accepted? ==> ReadHeader(file, basic, fbb).size > 0
  {}

  /** `Decode`: the text and the verdict on the CRC are the ones the file stands for;
      `text_buf` is the static buffer with whatever it held before. */
  method Decode(file: seq<Byte>, basic: bool, fbb: nat, text_buf: array<byte>) returns (d: Decoded)
    requires text_buf.Length == N + F - 1
    modifies text_buf
    ensures d == DecodeFile(file, basic, fbb, old(text_buf[START..N]))
    // with a CRC, the file is taken for whole exactly if it is the bit-serial one of what was read
    ensures !basic && Opens(file, fbb) ==> (d.ok <==> CrcOf(file) == SerialCrc(file, fbb, old(text_buf[START..N])))
  {
    hide Opens, SerialCrc, ReadHeader, DecodeLoop, Normalise, LineState, Crc.Fold, Ring.Valid, CrcReader.Valid;
    var textsize, fcrc, reader := OpenFile(file, basic, fbb);
    if reader == null {
      if !basic { RefusedClosed(file, fbb); }
      return Decoded(false, []);
    }
    SizePositive(file, basic, fbb);
    var ring := ExpandFile(textsize, reader, text_buf);
    ring.Full();
    reader.Folded();
    d := Decoded(!(!basic && fbb >= 2) || reader.crc == fcrc, ring.out);
    if !basic && Opens(file, fbb) { VerdictIs(file, fbb, old(text_buf[START..N])); }
  }

  /** From behind the header: the whole text, and every byte the bits came from read. */
  method ExpandFile(textsize: nat, reader: CrcReader, text_buf: array<byte>) returns (ring: Ring)
    requires text_buf.Length == N + F - 1 && reader.Valid() && textsize > 0
    modifies text_buf, reader
    ensures reader.Valid() && ring.Valid()
    ensures var codes := old(reader.pos);
            var (h, n) := DecodeLoop(FBB, StartTree(), BitsOf(reader.infile[codes..]), 0,
                                     StartHistory(old(text_buf[START..N])), N + textsize);
            && ring.h == h && codes <= |reader.infile|
            && reader.pos == Min(|reader.infile|, codes + FetchedBytes(n))
  {
    hide HuffmanTables.Valid, StartTables, Shape, StartSon, Ring.Valid, BitSource.Valid, CrcReader.Valid;
    hide DecodeLoop, Normalise, BitsOf, StartHistory;
    reader.Folded();
    ghost var codes := reader.pos;
    var source := new BitSource(reader);
    assert source.bits == BitsOf(reader.infile[codes..]);
    ring := new Ring(text_buf);
    var coder := new Coder();
    StartValid();
    coder.StartHuff();
    ghost var goal := N + textsize;
    ghost var result := DecodeLoop(FBB, StartTree(), source.bits, 0, ring.h, goal);
    var count := 0;
    while count < textsize
      invariant HuffmanTables.Valid(coder.Model()) && source.Valid() && ring.Valid()
      invariant |ring.h| == N + count && (count > 0 ==> 8 <= source.getlen <= 15)
      invariant DecodeLoop(FBB, coder.Model(), source.bits, source.consumed, ring.h, goal) == result
    {
      var bytes := DecodeToken(coder, source, ring, goal);
      count := count + bytes;
    }
    LoopEnds(coder.Model(), source.bits, source.consumed, ring.h, goal);
    source.ReadSoFar();
  }

  lemma LoopEnds(t: HuffTree, bits: seq<bool>, n: nat, h: seq<byte>, goal: nat)
    requires |h| >= N && |h| >= goal
    ensures DecodeLoop(FBB, t, bits, n, h, goal) == (h, n)
  {}
}
