/** From text to compressed file and back: what `Decode` makes of a file that holds the
    tokens of a text. */
module RoundTrip {
  import opened Words
  import opened BitIO
  import opened HuffmanTables
  import opened HuffmanCode
  import opened Bytes
  import opened SearchTree
  import opened Newlines
  import opened Lzss
  import opened FbbCode
  import opened Stream
  import opened TokenWriter
  import opened Framing
  import PositionCode
  import Crc

  // ---------- the packed codes ----------

  lemma StartsAtFront(bits: seq<bool>, p: seq<bool>)
    requires p <= bits
    ensures StartsAt(bits, 0, p)
  {}

  lemma HistoryOfText(text: seq<byte>, stale: seq<byte>)
    requires |stale| == SearchTree.F
    ensures StartHistory(stale) == stale + Line(text)[..START]
    ensures stale + Line(text)[..START + |text|] == StartHistory(stale) + text
  {
    assert Line(text)[..START] == seq(START, _ => BLANK);
    assert Line(text)[..START + |text|] == Line(text);
  }

  /** With any readable code: the bits of the tokens of a text, whatever follows them, read
      back as the text, and the reader stops right behind them. */
  lemma TextReadsBack<T(!new)>(c: AdaptiveCode<T>, t: T, text: seq<byte>, ks: seq<Token>, bits: seq<bool>, stale: seq<byte>)
    requires Readable(c) && |stale| == SearchTree.F
    requires Covers(Line(text), ks, START + |text|) && WellTokens(ks) && EncodedBits(c, t, ks) <= bits
    ensures DecodeLoop(c, t, bits, 0, StartHistory(stale), N + |text|) ==
            (StartHistory(stale) + text, |EncodedBits(c, t, ks)|)
  {
    hide Covers, CopyBack, Readable, DecodeLoop, TokenBits, WellToken;
    var h := StartHistory(stale);
    HistoryOfText(text, stale);
    Rebuilds(Line(text), ks, START + |text|, h, stale);
    StartsAtFront(bits, EncodedBits(c, t, ks));
    DecodeInvertsEncode(c, t, ks, bits, 0, h);
  }

  lemma PacksFront(codes: seq<Byte>, bits: seq<bool>)
    requires Packs(codes, bits)
    ensures bits <= BitsOf(codes)
    // when the last symbol has been delivered, every byte of the codes has been fetched
    ensures |codes| <= FetchedBytes(|bits|) && |bits| <= 8 * |codes|
  {}

  /** The packed codes read back as the text. */
  lemma CodesReadBack(text: seq<byte>, ks: seq<Token>, codes: seq<Byte>, stale: seq<byte>)
    requires |stale| == SearchTree.F && Covers(Line(text), ks, START + |text|)
    requires WellTokens(ks) && Packs(codes, BitsOfTokens(ks))
    ensures DecodeLoop(FBB, StartTree(), BitsOf(codes), 0, StartHistory(stale), N + |text|) ==
            (StartHistory(stale) + text, |BitsOfTokens(ks)|)
  {
    PacksFront(codes, BitsOfTokens(ks));
    FbbReadable();
    TextReadsBack(FBB, StartTree(), text, ks, BitsOf(codes), stale);
  }

  // ---------- the header ----------

  /** A compressed file as it reaches `Decode`: bare in basic mode; otherwise behind 20 bytes
      that `Decode` skips, and without the CRC below protocol version 2. */
  function FileOf(basic: bool, fbb: nat, prefix: seq<Byte>, size: nat, codes: seq<Byte>): seq<Byte> {
    var frame := Frame(basic, size, codes);
    if basic then frame else prefix + (if fbb >= 2 then frame else frame[2..])
  }

  /** Where the length lies in the file. */
  function LengthAtOf(basic: bool, fbb: nat): nat {
    if basic then 0 else if fbb >= 2 then 22 else 20
  }

  lemma FileLayout(basic: bool, fbb: nat, prefix: seq<Byte>, size: nat, codes: seq<Byte>)
    requires |prefix| == 20
    ensures var file := FileOf(basic, fbb, prefix, size, codes); var at := LengthAtOf(basic, fbb);
            && |file| == at + 4 + |codes|
            && file[at..at + 4] == Le32(size) && file[at + 4..] == codes && file[at..] == Le32(size) + codes
            && (!basic && fbb >= 2 ==> file[20..22] == CrcBytes(Crc.Fold(Le32(size) + codes, Zeros(16))))
  {
    hide Le32, Crc.Fold, CrcBytes;
    var body := Le32(size) + codes;
    var crc := CrcBytes(Crc.Fold(body, Zeros(16)));
    if basic {
      InFrame([], Le32(size), codes);
      assert [] + body == body;
    } else if fbb >= 2 {
      InFrame(prefix + crc, Le32(size), codes);
      assert prefix + (crc + body) == (prefix + crc) + body;
      assert (prefix + crc + body)[20..22] == crc;
    } else {
      InFrame(prefix, Le32(size), codes);
      assert (crc + body)[2..] == body;
    }
  }

  lemma InFrame(front: seq<Byte>, length: seq<Byte>, codes: seq<Byte>)
    ensures var file, at := front + (length + codes), |front|;
            && |file| == at + |length| + |codes|
            && file[at..at + |length|] == length && file[at + |length|..] == codes && file[at..] == length + codes
  {}

  lemma LengthIs(file: seq<Byte>, at: nat, size: nat)
    requires at + 4 <= |file| && file[at..at + 4] == Le32(size)
    ensures LengthAt(file, at) == Wrap32(size)
  {
    Le32RoundTrip(size);
    var s := file[at..at + 4];
    assert s[0] == file[at] && s[1] == file[at + 1] && s[2] == file[at + 2] && s[3] == file[at + 3];
    assert [LengthByte(file, at), LengthByte(file, at + 1), LengthByte(file, at + 2), LengthByte(file, at + 3)]
        == Le32(size);
  }

  /** The header as it lies in a file: the length at its place, the CRC in front of it. */
  ghost predicate HeaderLies(file: seq<Byte>, basic: bool, fbb: nat, size: nat, fcrc: Register) {
    var at := LengthAtOf(basic, fbb);
    && at + 4 <= |file| && file[at..at + 4] == Le32(size)
    && (!basic && fbb >= 2 ==> file[20..22] == CrcBytes(fcrc))
  }

  /** A header is accepted with what its fields say, unless the guard refuses it. */
  lemma HeaderSays(file: seq<Byte>, basic: bool, fbb: nat, size: nat, fcrc: Register)
    requires 0 < size < MAX32 && LengthAtOf(basic, fbb) + 4 <= |file|
    requires basic ==> OfLe32(file[..4]) == size
    requires !basic ==> LengthAt(file, LengthAtOf(basic, fbb)) == size
    requires !basic && fbb >= 2 ==> OfCrcBytes(file[20..22]) == fcrc
    ensures var at := LengthAtOf(basic, fbb); var checked := !basic && fbb >= 2;
            ReadHeader(file, basic, fbb) ==
              if Absurd(size, |file|) then Refused
              else Accepted(size, checked, if checked then fcrc else Zeros(16), if basic then 4 else at, at + 4)
  {}

  /** The header read back: a length the field can hold comes out as it went in, and is
      refused only by the guard. */
  lemma HeaderReadBack(file: seq<Byte>, basic: bool, fbb: nat, size: nat, fcrc: Register)
    requires 0 < size < MAX32 && HeaderLies(file, basic, fbb, size, fcrc)
    ensures var at := LengthAtOf(basic, fbb); var checked := !basic && fbb >= 2;
            ReadHeader(file, basic, fbb) ==
              if Absurd(size, |file|) then Refused
              else Accepted(size, checked, if checked then fcrc else Zeros(16), if basic then 4 else at, at + 4)
  {
    if basic {
      BasicLength(file, size);
    } else {
      LengthIs(file, LengthAtOf(basic, fbb), size);
      CrcRoundTrip(fcrc);
    }
    HeaderSays(file, basic, fbb, size, fcrc);
  }

  lemma BasicLength(file: seq<Byte>, size: nat)
    requires 4 <= |file| && file[0..4] == Le32(size)
    ensures OfLe32(file[..4]) == Wrap32(size)
  {
    Le32RoundTrip(size);
    assert file[..4] == file[0..4];
  }

  /** A byte of a file as a number; past its end 255. */
  function NumberByte(file: seq<Byte>, i: nat): nat {
    if i < |file| then PositionCode.NumOf(file[i]) else 255
  }

  /** A number of four bytes, the lowest first. */
  function NumberAt(file: seq<Byte>, at: nat): nat {
    NumberByte(file, at)
    + 256 * (NumberByte(file, at + 1) + 256 * (NumberByte(file, at + 2) + 256 * NumberByte(file, at + 3)))
  }

  lemma AllOnes()
    ensures PositionCode.NumOf(seq(8, _ => true)) == 255
  {
    var two, four := [true, true], [true, true, true, true];
    PositionCode.PowersOfTwo();
    assert two[..1] == [true] && [true][..0] == [];
    assert PositionCode.NumOf([true]) == 1 && PositionCode.NumOf(two) == 3;
    PositionCode.NumOfConcat(two, two);
    assert two + two == four;
    PositionCode.NumOfConcat(four, four);
    assert seq(8, _ => true) == four + four;
  }

  lemma LengthNumber(file: seq<Byte>, at: nat)
    ensures LengthAt(file, at) == NumberAt(file, at)
    ensures at >= |file| ==> NumberAt(file, at) == MAX32
  {
    AllOnes();
  }

  /** Exactly these headers are accepted, with the length they hold: the length is there, is not
      zero, and passes the guard; outside of basic mode it is not 2^32 - 1 either, which is also
      what a file that ends in front of it reads as. */
  lemma AcceptsExactly(file: seq<Byte>, basic: bool, fbb: nat)
    ensures var at := LengthAtOf(basic, fbb); var size := NumberAt(file, at); var hd := ReadHeader(file, basic, fbb);
            && (hd.Accepted? <==>
                  && (basic ==> |file| >= 4) && (!basic && fbb >= 2 ==> |file| >= 22) && (!basic ==> size < MAX32)
                  && 0 < size <= 100 * (|file| - 4) % 0x1_0000_0000)
            && (hd.Accepted? ==> hd.size == size && (!basic ==> at < |file|))
  {
    hide OfLe32, LengthAt, NumberAt;
    LengthNumber(file, LengthAtOf(basic, fbb));
    WrapTwice(|file|);
    if basic && |file| >= 4 { BasicNumber(file); }
  }

  lemma WrapTwice(filelen: nat)
    ensures Wrap32(100 * Wrap32(filelen - 4)) == 100 * (filelen - 4) % 0x1_0000_0000
  {
    var n := filelen - 4;
    assert n == 0x1_0000_0000 * (n / 0x1_0000_0000) + Wrap32(n);
    assert 100 * n == 0x1_0000_0000 * (100 * (n / 0x1_0000_0000)) + 100 * Wrap32(n);
  }

  lemma BasicNumber(file: seq<Byte>)
    requires |file| >= 4
    ensures OfLe32(file[..4]) == LengthAt(file, 0)
  {
    assert file[..4] == [LengthByte(file, 0), LengthByte(file, 1), LengthByte(file, 2), LengthByte(file, 3)];
  }

  // ---------- the guard ----------

  /** A match covers at most 60 bytes and costs at least 10 bits: the text is at most 48
      times as long as its codes. */
  lemma TextPerCodes(text: seq<byte>, ks: seq<Token>, codes: seq<Byte>)
    requires WellTokens(ks) && Covers(Line(text), ks, START + |text|) && Packs(codes, BitsOfTokens(ks))
    ensures |text| <= 48 * |codes|
  {
    hide Covers, Line;
    FbbCostly();
    PacksFront(codes, BitsOfTokens(ks));
    TextPerBits(FBB, StartTree(), Line(text), ks, START + |text|);
  }

  /** The guard never refuses genuine output, as long as 100 times the code size fits in
      32 bits. */
  lemma GuardPasses(basic: bool, fbb: nat, prefix: seq<Byte>, text: seq<byte>, ks: seq<Token>, codes: seq<Byte>)
    requires |prefix| == 20 && WellTokens(ks) && Covers(Line(text), ks, START + |text|)
    requires Packs(codes, BitsOfTokens(ks))
    requires |FileOf(basic, fbb, prefix, |text|, codes)| <= 42949676
    ensures !Absurd(|text|, |FileOf(basic, fbb, prefix, |text|, codes)|)
  {
    TextPerCodes(text, ks, codes);
    FileLayout(basic, fbb, prefix, |text|, codes);
  }

  /** What the guard does with `c` bytes of codes, the product wrapped: already one byte more
      refuses every text of more than four bytes. */
  lemma GuardWraps(size: nat, c: nat)
    requires c <= MAX32
    ensures Absurd(size, c + 4) <==> size > 100 * c - 100 * c / 0x1_0000_0000 * 0x1_0000_0000
    ensures c == 42949673 ==> (Absurd(size, c + 4) <==> size > 4)
  {}

  /** Codes are at most twenty-one eighths as long as their text. */
  lemma CodesPerText(text: seq<byte>, ks: seq<Token>, codes: seq<Byte>)
    requires WellTokens(ks) && Covers(Line(text), ks, START + |text|) && Packs(codes, BitsOfTokens(ks))
    ensures 8 * |codes| <= 21 * |text| + 7
  {
    hide Covers, Line, Shape, EncodedBits;
    FbbCheap();
    PackedSize(codes, BitsOfTokens(ks));
    BitsPerText(FBB, StartTree(), Line(text), ks, START + |text|);
  }

  /** From the first length at which the product wraps, the next 164000 refuse every genuine
      text. */
  lemma GuardRefuses(basic: bool, fbb: nat, prefix: seq<Byte>, text: seq<byte>, ks: seq<Token>, codes: seq<Byte>)
    requires |prefix| == 20 && WellTokens(ks) && Covers(Line(text), ks, START + |text|)
    requires Packs(codes, BitsOfTokens(ks))
    requires 42949677 <= |FileOf(basic, fbb, prefix, |text|, codes)| <= 43113920
    ensures Absurd(|text|, |FileOf(basic, fbb, prefix, |text|, codes)|)
  {
    hide Covers, Line, Packs, FileOf, Absurd, BitsOfTokens, WellTokens;
    CodesPerText(text, ks, codes);
    FileLayout(basic, fbb, prefix, |text|, codes);
    WrappedBelow(|text|, |codes|, |FileOf(basic, fbb, prefix, |text|, codes)|);
  }

  lemma WrappedBelow(size: nat, c: nat, filelen: nat)
    requires 8 * c <= 21 * size + 7 && filelen <= c + 26 && 42949677 <= filelen <= 43113920
    ensures Absurd(size, filelen)
  {
    assert 100 * (filelen - 4) / 0x1_0000_0000 == 1;
    GuardWraps(size, filelen - 4);
  }

  /** The only file lengths at which the wrapped product refuses a text no longer than 48 times
      its codes. */
  lemma GuardLengths(filelen: nat)
    requires 4 <= filelen <= MAX32
    ensures (exists size: nat :: size <= 48 * (filelen - 4) && Absurd(size, filelen)) <==>
            42949677 <= filelen <= 82595528 || 85899350 <= filelen
  {
    var c := filelen - 4;
    var q := 100 * c / 0x1_0000_0000;
    assert 0x1_0000_0000 * q <= 100 * c < 0x1_0000_0000 * (q + 1);
    GuardWraps(48 * c, c);
    assert Absurd(48 * c, filelen) <==> 52 * c < 0x1_0000_0000 * q;
    forall size: nat | size <= 48 * c && Absurd(size, filelen) ensures Absurd(48 * c, filelen) {}
  }

  // ---------- the whole file ----------

  lemma Tail(file: seq<Byte>, at: nat)
    requires at <= |file|
    ensures file[at..|file|] == file[at..]
  {}

  lemma BehindHistory(h: seq<byte>, text: seq<byte>)
    requires |h| == N
    ensures (h + text)[N..] == text
  {}

  /** Behind an accepted header the codes decode to the text, and the CRC has been computed
      over everything from the length on. */
  lemma CodesDecode(file: seq<Byte>, basic: bool, fbb: nat, at: nat, text: seq<byte>, ks: seq<Token>,
                    codes: seq<Byte>, stale: seq<byte>)
    requires |stale| == SearchTree.F && WellTokens(ks) && Covers(Line(text), ks, START + |text|)
    requires Packs(codes, BitsOfTokens(ks))
    requires at + 4 + |codes| == |file| && file[at + 4..] == codes
    requires var checked := !basic && fbb >= 2;
             ReadHeader(file, basic, fbb) ==
               Accepted(|text|, checked, if checked then Crc.Fold(file[at..], Zeros(16)) else Zeros(16),
                        if basic then 4 else at, at + 4)
    ensures DecodeFile(file, basic, fbb, stale) == Decoded(true, Normalise(text, 0))
  {
    hide BitsOfTokens, LengthAt, OfLe32, Covers;
    CodesReadBack(text, ks, codes, stale);
    PacksFront(codes, BitsOfTokens(ks));
    Tail(file, at);
    BehindHistory(StartHistory(stale), text);
  }

  /** The main result: a file that holds the tokens of a text decodes to the text, passed
      through the output rule, and its CRC matches, exactly when the guard lets it through.
      `stale` is whatever the decoder's buffer held before. */
  lemma FileReadsBack(basic: bool, fbb: nat, prefix: seq<Byte>, text: seq<byte>, ks: seq<Token>,
                      codes: seq<Byte>, stale: seq<byte>)
    requires |prefix| == 20 && |stale| == SearchTree.F && 0 < |text| < MAX32
    requires WellTokens(ks) && Covers(Line(text), ks, START + |text|) && Packs(codes, BitsOfTokens(ks))
    ensures var file := FileOf(basic, fbb, prefix, |text|, codes);
            DecodeFile(file, basic, fbb, stale) ==
              if Absurd(|text|, |file|) then Decoded(false, []) else Decoded(true, Normalise(text, 0))
  {
    var file := FileOf(basic, fbb, prefix, |text|, codes);
    var at := LengthAtOf(basic, fbb);
    FileLayout(basic, fbb, prefix, |text|, codes);
    HeaderReadBack(file, basic, fbb, |text|, Crc.Fold(file[at..], Zeros(16)));
    if !Absurd(|text|, |file|) {
      CodesDecode(file, basic, fbb, at, text, ks, codes, stale);
    }
  }

  // ---------- what the decoder reads ----------

  /** One token: read back exactly if its code survives in the code word. */
  lemma TokenReadsBack(t: HuffTree, k: Token, bits: seq<bool>, n: nat)
    requires WellToken(k) && StartsAt(bits, n, SentToken(t, k))
    ensures FBB.read(t, bits, n).0 == Symbol(k) <==> Carried(CodeIn(t, k))
    ensures Carried(CodeIn(t, k)) ==>
      && FBB.read(t, bits, n) == (Symbol(k), n + |CodeIn(t, k)|)
      && (k.Match? ==> FBB.readPlace(bits, n + |CodeIn(t, k)|) == (k.pos, n + |SentToken(t, k)|))
  {
    hide Code, CodeWord, StartsAt, Carried, CodeOf, DecodeSymbol, BitAt;
    hide PositionCode.DecodePosition, PositionCode.PositionBits;
    var p := CodeIn(t, k);
    var rest := if k.Match? then FBB.place(k.pos) else [];
    StartsAtConcat(bits, n, Code(CodeWord(p), |p|), rest);
    CodeWordReads(t, Symbol(k), bits, n);
    if k.Match? {
      PlaceReadable(k.pos, bits, n + |p|);
    }
  }

  /** The decoder stands behind these tokens, with the coder's tree. */
  ghost function Behind(ks: seq<Token>): Reading<HuffTree>
    requires WellTokens(ks)
  {
    Reading(ks, TreeAfter(ks), |SentBits(ks)|)
  }

  lemma ByteSent(t: HuffTree, k: Token)
    requires WellToken(k)
    ensures k.Lit? ==> |SentToken(t, k)| == |CodeIn(t, k)|
  {}

  /** Where a token has been sent the decoder reads that token exactly if its code survives. */
  lemma NextReadsBack(r: Reading<HuffTree>, k: Token, bits: seq<bool>)
    requires WellToken(k) && StartsAt(bits, r.at, SentToken(r.state, k))
    ensures Carried(CodeIn(r.state, k)) ==>
      ReadNext(FBB, r, bits) == Reading(r.tokens + [k], FBB.next(r.state, Symbol(k)), r.at + |SentToken(r.state, k)|)
    ensures !Carried(CodeIn(r.state, k)) ==> ReadNext(FBB, r, bits).tokens[|r.tokens|] != k
  {
    hide SentToken, Carried, CodeIn, ReadNext, FBB, StartsAt, Symbol, HuffmanTables.Valid;
    var n, m := r.at + |CodeIn(r.state, k)|, r.at + |SentToken(r.state, k)|;
    ByteSent(r.state, k);
    TokenReadsBack(r.state, k, bits, r.at);
    ReadNextIs(FBB, r, bits, k, n, m, Carried(CodeIn(r.state, k)));
  }

  /** The bits sent for a list begin with those of its front, and go on with the last token. */
  lemma SentFront(a: seq<bool>, b: seq<bool>, bits: seq<bool>)
    requires a + b <= bits
    ensures a <= bits && StartsAt(bits, |a|, b)
  {
    assert bits[..|a + b|] == a + b;
  }

  lemma LastSent(ks: seq<Token>, k: Token)
    requires WellTokens(ks) && WellToken(k)
    ensures WellTokens(ks + [k]) && Behind(ks + [k]) ==
      Reading(ks + [k], FBB.next(TreeAfter(ks), Symbol(k)), |SentBits(ks)| + |SentToken(TreeAfter(ks), k)|)
    ensures SentBits(ks + [k]) == SentBits(ks) + SentToken(TreeAfter(ks), k)
    ensures AllCarried(ks + [k]) <==> AllCarried(ks) && Carried(CodeIn(TreeAfter(ks), k))
  {
    OneMore(ks, k);
  }

  lemma LastReadsBack(ks: seq<Token>, k: Token, bits: seq<bool>)
    requires WellTokens(ks) && WellToken(k) && WellTokens(ks + [k])
    requires StartsAt(bits, |SentBits(ks)|, SentToken(TreeAfter(ks), k))
    requires ReadBackIfCarried(ks, bits)
    ensures ReadBackIfCarried(ks + [k], bits)
  {
    hide Carried, SentToken, SentBits, TreeAfter, AllCarried, ReadNext, CodeIn, TokenBits, StartTree, StateAfter;
    var r := ReadTokens(FBB, StartTree(), bits, |ks|);
    ReadNextExtends(FBB, r, bits);
    LastSent(ks, k);
    if AllCarried(ks) {
      NextReadsBack(r, k, bits);
    } else {
      assert (ks + [k])[..|ks|] == ks;
    }
  }

  /** The decoder reads the tokens back exactly if every code survives in its code word, and
      then stands behind them with the coder's tree. */
  ghost predicate ReadBackIfCarried(ks: seq<Token>, bits: seq<bool>)
    requires WellTokens(ks)
  {
    var r := ReadTokens(FBB, StartTree(), bits, |ks|);
    (r.tokens == ks <==> AllCarried(ks)) && (AllCarried(ks) ==> r == Behind(ks))
  }

  lemma NothingReadBack(bits: seq<bool>)
    ensures WellTokens([]) && ReadBackIfCarried([], bits)
  {}

  /** Whatever tokens were sent: they are read back exactly if every code survives. */
  lemma {:induction false} TokensReadBack(ks: seq<Token>, bits: seq<bool>)
    requires WellTokens(ks) && SentBits(ks) <= bits
    ensures ReadBackIfCarried(ks, bits)
    decreases |ks|
  {
    hide SentToken, SentBits, TreeAfter, CodeIn, ReadBackIfCarried, AllCarried, BitsOfTokens;
    if ks == [] {
      NothingReadBack(bits);
    } else {
      var init, last := ks[..|ks| - 1], ks[|ks| - 1];
      assert ks == init + [last] && WellToken(last);
      LastSent(init, last);
      SentFront(SentBits(init), SentToken(TreeAfter(init), last), bits);
      TokensReadBack(init, bits);
      LastReadsBack(init, last, bits);
    }
  }

  // ---------- texts that always fit ----------

  lemma OneHeavier(t: HuffTree, s: nat)
    requires s < N_CHAR && t.freq[R] < MAX_FREQ
    ensures FBB.next(t, s).freq[R] == t.freq[R] + 1
  {
    UpdatedWeights(t, s, s);
  }

  lemma LightCodes(t: HuffTree, s: nat)
    requires s < N_CHAR && t.freq[R] < 4181
    ensures |FBB.code(t, s)| <= 16
  {
    CodeLength(t, s);
  }

  /** Until the first halving the root counts the symbols coded. */
  lemma {:induction false} RootAfter(ks: seq<Token>)
    requires WellTokens(ks) && N_CHAR + |ks| <= MAX_FREQ
    ensures TreeAfter(ks).freq[R] == N_CHAR + |ks|
    decreases |ks|
  {
    if ks == [] {
      StartRoot();
    } else {
      var init, last := ks[..|ks| - 1], ks[|ks| - 1];
      assert ks == init + [last] && WellToken(last);
      RootAfter(init);
      OneMore(init, last);
      OneHeavier(TreeAfter(init), Symbol(last));
    }
  }

  /** The first 3867 tokens always fit: the tree is too light for a code of 17 bits. */
  lemma {:induction false} ShortTextsFit(ks: seq<Token>)
    requires WellTokens(ks) && |ks| <= 3867
    ensures AllCodesFit(ks) && Waiting(ks) <= 7
    decreases |ks|
  {
    if ks == [] {
    } else {
      var init, last := ks[..|ks| - 1], ks[|ks| - 1];
      assert ks == init + [last] && WellToken(last);
      ShortTextsFit(init);
      RootAfter(init);
      LightCodes(TreeAfter(init), Symbol(last));
      OneMore(init, last);
    }
  }

  /** Every token covers at least one byte. */
  lemma {:induction false} TokensCover(w: seq<byte>, ks: seq<Token>, r: nat)
    requires Covers(w, ks, r)
    ensures START + |ks| <= r
    decreases |ks|
  {
    if ks == [] {
    } else {
      TokensCover(w, ks[..|ks| - 1], r - Width(ks[|ks| - 1]));
      CoversInit(w, ks, r);
    }
  }

  lemma PackedSize(codes: seq<Byte>, bits: seq<bool>)
    requires Packs(codes, bits)
    ensures 8 * |codes| < |bits| + 8
  {}

  /** So a text of at most 3867 bytes passes every limit: its codes fit, and the file is far
      too short for the guard to wrap. */
  lemma ShortTextPasses(basic: bool, fbb: nat, prefix: seq<Byte>, text: seq<byte>, ks: seq<Token>, codes: seq<Byte>)
    requires |prefix| == 20 && |text| <= 3867 && WellTokens(ks) && Covers(Line(text), ks, START + |text|)
    ensures AllCodesFit(ks)
    ensures Packs(codes, BitsOfTokens(ks)) ==> !Absurd(|text|, |FileOf(basic, fbb, prefix, |text|, codes)|)
  {
    TokensCover(Line(text), ks, START + |text|);
    ShortTextsFit(ks);
    if Packs(codes, BitsOfTokens(ks)) {
      FbbCheap();
      BitsPerToken(FBB, StartTree(), ks);
      PackedSize(codes, BitsOfTokens(ks));
      FileLayout(basic, fbb, prefix, |text|, codes);
      GuardPasses(basic, fbb, prefix, text, ks, codes);
    }
  }
}
