/** `Encode`: the whole compression, from message header and file to compressed file. */
module Encoder {
  import opened Words
  import opened BitIO
  import opened Bytes
  import opened SearchTree
  import opened MatchFinder
  import opened Newlines
  import opened Lzss
  import opened Stream
  import opened WindowModel
  import opened SlidingWindow
  import opened TokenWriter
  import opened Framing

  /** The window's arrays are not the coder's. */
  ghost predicate Apart(window: Window, writer: Writer) {
    {window.finder.lson, window.finder.rson, window.finder.dad} !! {writer.coder.freq, writer.coder.prnt, writer.coder.fils}
  }

  /** Code the match found at the current position, or the byte there. */
  method CodeToken(window: Window, writer: Writer) returns (width: nat, ghost k: Token)
    requires window.Valid() && writer.Valid() && Apart(window, writer)
    modifies writer, writer.coder.freq, writer.coder.prnt, writer.coder.fils, writer.sink, writer.sink.file
    ensures writer.Valid() && writer.tokens == old(writer.tokens) + [k]
    ensures Describes(window.w, window.at, k) && Longest(window.w, window.at, k)
    ensures width == Width(k) && 1 <= width <= window.len
  {
    hide Writer.Valid;
    TokenRight(window.finder.Window(), window.before, window.finder.K(), window.w, window.at, window.end,
               window.finder.match_length, window.finder.match_position);
    HereInText(window);
    k := TokenFor(window.w, window.at, window.len, window.finder.match_length, window.finder.match_position);
    width := window.finder.match_length;
    if width > window.len {
      width := window.len;
    }
    if width <= THRESHOLD {
      width := 1;
      writer.Put(Lit(window.finder.text_buf[window.r]));
    } else {
      writer.Put(Match(window.finder.match_position, width));
    }
  }

  /** The byte at the current position is the line's. */
  lemma HereInText(window: Window)
    requires window.Valid()
    ensures window.finder.Arrays() && window.at < window.end <= |window.w| && window.len == window.end - window.at
    ensures window.finder.text_buf[window.r] == window.w[window.at]
  {
    KeyIs(window.finder.Window(), window.w, window.at - START, window.end, window.at, 0);
  }

  /** The first inner loop: take as many bytes as the token covered, unless the text ends. */
  method TakeBytes(window: Window, taker: Taker, width: nat) returns (i: nat)
    requires window.Valid() && taker.Valid() && width <= window.len && window.end <= |window.w|
    requires taker.Rest() == window.w[window.end..]
    modifies taker, window`r, window`s, window`at, window`end, window`before
    modifies window.finder`forest, window.finder`match_length, window.finder`match_position
    modifies window.finder.text_buf, window.finder.lson, window.finder.rson, window.finder.dad
    ensures window.Valid() && taker.Valid()
    ensures i <= width && (i < width ==> window.end == |window.w|)
    ensures window.at == old(window.at) + i && window.end == old(window.end) + i && window.end <= |window.w|
    ensures taker.Rest() == window.w[window.end..]
  {
    hide InStep, Reported, Finder.Valid;
    i := 0;
    while i < width
      invariant i <= width && window.Valid() && taker.Valid()
      invariant window.at == old(window.at) + i && window.end == old(window.end) + i && window.end <= |window.w|
      invariant taker.Rest() == window.w[window.end..]
    {
      var t := taker.Take();
      if t.Eof? {
        assert window.w[window.end..] == [];
        return;
      }
      assert window.w[window.end..][1..] == window.w[window.end + 1..];
      window.AdvanceTaking(t.c);
      i := i + 1;
    }
  }

  /** The second inner loop: move on without new bytes until the token is passed. */
  method Drain(window: Window, i: nat, width: nat)
    requires window.Valid() && i <= width && width - i <= window.len
    requires i < width ==> window.end == |window.w|
    modifies window`r, window`s, window`at, window`end, window`len, window`before
    modifies window.finder`forest, window.finder`match_length, window.finder`match_position
    modifies window.finder.lson, window.finder.rson, window.finder.dad
    ensures window.at == old(window.at) + (width - i) && window.end == old(window.end)
    ensures window.len == old(window.len) - (width - i)
    ensures window.len > 0 ==> window.Valid()
    ensures window.len == 0 ==> window.at == window.end == |window.w|
  {
    var j := i;
    window.LookaheadFull();
    while j < width
      invariant i <= j <= width
      invariant window.at == old(window.at) + (j - i) && window.end == old(window.end)
      invariant window.len == old(window.len) - (j - i)
      invariant window.len > 0 ==> window.Valid()
      invariant window.len == 0 ==> window.at == window.end == |window.w|
    {
      window.AdvanceEmpty();
      j := j + 1;
    }
  }

  /** Window and reader are in step, or everything has been passed. */
  ghost predicate Ahead(window: Window, taker: Taker)
    reads window, window.finder`forest, window.finder`match_length, window.finder`match_position
    reads window.finder.text_buf, window.finder.lson, window.finder.rson, window.finder.dad, taker
  {
    && taker.Valid() && window.end <= |window.w| && window.len == window.end - window.at
    && taker.Rest() == window.w[window.end..]
    && (window.len > 0 ==> window.Valid())
    && (window.len == 0 ==> window.at == |window.w|)
  }

  /** Both inner loops: past the token just coded. */
  method Advance(window: Window, taker: Taker, width: nat) returns (i: nat)
    requires Ahead(window, taker) && 1 <= width <= window.len
    modifies taker, window`r, window`s, window`at, window`end, window`len, window`before
    modifies window.finder`forest, window.finder`match_length, window.finder`match_position
    modifies window.finder.text_buf, window.finder.lson, window.finder.rson, window.finder.dad
    ensures Ahead(window, taker)
    ensures window.at == old(window.at) + width && window.end == old(window.end) + i
  {
    i := TakeBytes(window, taker, width);
    window.LookaheadFull();
    Drain(window, i, width);
  }

  /** One round of the coding loop: one token, and the window moved past it. */
  method Step(window: Window, taker: Taker, writer: Writer) returns (i: nat, ghost k: Token)
    requires Ahead(window, taker) && window.len > 0 && writer.Valid() && Apart(window, writer)
    modifies writer, writer.coder.freq, writer.coder.prnt, writer.coder.fils, writer.sink, writer.sink.file
    modifies taker, window`r, window`s, window`at, window`end, window`len, window`before
    modifies window.finder`forest, window.finder`match_length, window.finder`match_position
    modifies window.finder.text_buf, window.finder.lson, window.finder.rson, window.finder.dad
    ensures Ahead(window, taker) && writer.Valid() && writer.tokens == old(writer.tokens) + [k]
    ensures Describes(window.w, old(window.at), k) && Longest(window.w, old(window.at), k)
    ensures window.at == old(window.at) + Width(k) && window.end == old(window.end) + i
  {
    hide Window.Valid, Writer.Valid;
    window.LookaheadFull();
    var width;
    width, k := CodeToken(window, writer);
    i := Advance(window, taker, width);
  }

  /** Everything the text needs, once coding has gone through it. */
  ghost predicate TokensOf(text: seq<byte>, ks: seq<Token>) {
    WellTokens(ks) && Covers(Line(text), ks, START + |text|)
  }

  /** The coding loop: the tokens of the whole text, each the longest match there is. */
  method CodeText(taker: Taker, writer: Writer) returns (textsize: nat)
    requires taker.Valid() && taker.Rest() != [] && writer.Valid() && writer.tokens == []
    modifies taker, writer, writer.coder.freq, writer.coder.prnt, writer.coder.fils, writer.sink, writer.sink.file
    ensures writer.Valid() && textsize == |old(taker.Rest())|
    ensures TokensOf(old(taker.Rest()), writer.tokens)
  {
    hide Window.Valid, Writer.Valid, Covers, Describes, Longest, WellTokens;
    ghost var text := taker.Rest();
    var window := new Window();
    window.Start(taker);
    window.LookaheadFull();
    textsize := window.len;
    CoversNothing(window.w);
    while window.len > 0
      invariant Ahead(window, taker) && writer.Valid() && Apart(window, writer)
      invariant window.w == Line(text) && textsize == window.end - START
      invariant Covers(window.w, writer.tokens, window.at)
      decreases |window.w| - window.at
    {
      ghost var ks, at := writer.tokens, window.at;
      var i, k := Step(window, taker, writer);
      CoversSnoc(window.w, ks, at, k);
      textsize := textsize + i;
    }
    CoversWell(window.w, writer.tokens, window.at);
  }

  /** A compressed file for a text: tokens that cover the text, packed, in a frame. */
  ghost predicate Compressed(text: seq<byte>, basic: bool, file: seq<Byte>, result: nat, codes: seq<Byte>,
                             tokens: seq<Token>) {
    && TokensOf(text, tokens)
    && file == Frame(basic, |text|, codes) && result == |codes| + 4
    && (Flushed(tokens) ==> Packs(codes, SentBits(tokens)))
  }

  /** `Encode`. The length goes out first and through the CRC, or last and in front of
      everything in basic mode; the text of `take` is announced by the counting pass. */
  method Encode(head: seq<byte>, infile: seq<byte>, basic: bool) returns (file: seq<Byte>, result: nat)
    requires TakeStream(head, infile) != []
    ensures exists codes, tokens :: Compressed(TakeStream(head, infile), basic, file, result, codes, tokens)
  {
    hide Writer.Valid, BitSink.Valid, BitSink.Pending, CrcWriter.Valid, TokensOf, WellTokens, Flushed, SentBits;
    hide Packs, Le32, Frame, Zeros, FileStream;
    var filesize := CountFile(|head|, infile);
    var outfile := new CrcWriter(if basic then [] else Le32(filesize));
    var sink := new BitSink(outfile);
    var writer := new Writer(sink);
    var taker := new Taker(head, infile);
    var textsize := CodeText(taker, writer);
    Finish(writer);
    ghost var codes := outfile.out[|outfile.head|..];
    result := sink.codesize + 4;
    file := CloseFile(outfile, textsize, basic, codes);
    assert Compressed(TakeStream(head, infile), basic, file, result, codes, writer.tokens);
  }

  /** The rewind: the CRC, or in basic mode the length, in front of everything written. */
  method CloseFile(outfile: CrcWriter, textsize: nat, basic: bool, ghost codes: seq<Byte>) returns (file: seq<Byte>)
    requires outfile.Valid() && outfile.head == (if basic then [] else Le32(textsize))
    requires codes == outfile.out[|outfile.head|..]
    ensures file == Frame(basic, textsize, codes)
  {
    assert outfile.out == outfile.head + codes;
    file := (if basic then Le32(textsize) else CrcBytes(outfile.crc)) + outfile.out;
  }

  /** `EncodeEnd`, behind the last token. */
  method Finish(writer: Writer)
    requires writer.Valid()
    modifies writer.sink, writer.sink.file
    ensures writer.sink.file.Valid()
    ensures var outfile := writer.sink.file; var codes := outfile.out[|outfile.head|..];
            && |codes| == writer.sink.codesize
            && (Flushed(writer.tokens) ==> Packs(codes, SentBits(writer.tokens)))
  {
    writer.sink.EncodeEnd();
  }
}
