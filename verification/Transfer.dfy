/** A message from sender to receiver: `Encode`, the file on its way, `Decode`. */
module Transfer {
  import opened Words
  import opened Bytes
  import opened SearchTree
  import opened Newlines
  import opened Lzss
  import opened Stream
  import opened TokenWriter
  import opened Framing
  import opened RoundTrip
  import Encoder
  import Decoder

  /** The law of the compressor. Whatever the message and whatever the receiver's buffer
      held, the receiver accepts the file, CRC and all, and gets the sender's stream through
      the line-end rule: unless a code had a bit set past the sixteenth or overran the
      buffer, or the guard's product wrapped. None of this happens to texts of at most 3867
      bytes. The result is the sender's stream itself exactly when the message header holds
      no line feed. */
  method Deliver(header: seq<byte>, infile: seq<byte>, basic: bool, fbb: nat, prefix: seq<Byte>, text_buf: array<byte>)
      returns (d: Decoded, ghost sent: seq<Byte>, ghost codes: seq<Byte>, ghost tokens: seq<Token>)
    requires |prefix| == 20 && text_buf.Length == N + SearchTree.F - 1
    requires 0 < |TakeStream(ScanHeader(header), infile)| < MAX32
    modifies text_buf
    ensures var text := TakeStream(ScanHeader(header), infile);
            && Encoder.TokensOf(text, tokens) && sent == FileOf(basic, fbb, prefix, |text|, codes)
            && (Flushed(tokens) ==> Packs(codes, SentBits(tokens)))
            && d == DecodeFile(sent, basic, fbb, old(text_buf[START..N]))
            && (AllCodesFit(tokens) ==>
                  d == if Absurd(|text|, |sent|) then Decoded(false, []) else Decoded(true, Normalise(text, 0)))
            && (AllCodesFit(tokens) && |sent| <= 42949676 ==> d.ok && (d.out == text <==> LF !in header))
            && (|text| <= 3867 ==> d.ok && (d.out == text <==> LF !in header))
  {
    hide Covers, Flushed, AllCarried, SentBits, BitsOfTokens, Packs, DecodeFile;
    hide Normalise, TakeStream, ScanHeader, Absurd;
    ghost var text := TakeStream(ScanHeader(header), infile);
    ghost var stale := text_buf[START..N];
    var head := ScanHeader(header);
    var file, size := Encoder.Encode(head, infile, basic);
    ghost var cs, ks :| Encoder.Compressed(text, basic, file, size, cs, ks);
    codes, tokens := cs, ks;
    var onItsWay := if basic then file else prefix + (if fbb >= 2 then file else file[2..]);
    sent := onItsWay;
    assert sent == FileOf(basic, fbb, prefix, |text|, codes);
    d := Decoder.Decode(onItsWay, basic, fbb, text_buf);
    if |text| <= 3867 {
      ShortTextPasses(basic, fbb, prefix, text, ks, codes);
    }
    if AllCodesFit(ks) {
      SentExact(ks);
      FileReadsBack(basic, fbb, prefix, text, ks, codes, stale);
      if |sent| <= 42949676 {
        GuardPasses(basic, fbb, prefix, text, ks, codes);
      }
    }
    StreamSurvives(header, infile);
  }
}
