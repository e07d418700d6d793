# FBB mailbox: a verified model of its compressor and message protocols

The FBB packet-radio mailbox passes messages between stations as compressed files. Its
compressor (`src/lzhuf.c`) finds repetitions with 256 binary search trees over a sliding
window, codes them with an adaptive Huffman tree kept in three arrays, packs the codes
through 16-bit buffers and wraps them in a frame with length and CRC. This project models
that compressor in full, arrays and loops included, and proves that what one station sends
is what the other one gets. Around it stand the other cores of the mailbox whose
correctness is not obvious: the conditional command files, the Telnet filter, the
forwarding session, the mail gateways, the satellite catalogue, the forwarding rules and
the chunked indexes.

## How the proof of the compressor is built

| layer | files | main results |
|---|---|---|
| CRC, words, bit buffers | `Words`, `Crc`, `BitIO` | `Crc.TableIsSerial`, `BitIO.PutExact` |
| Huffman tree | `HuffmanTables`, `HuffmanRebuild`, `HuffmanOrder`, `HuffmanCode`, `StartCodes`, `Huffman` | `HuffmanRebuild.RebuiltValid`, `HuffmanOrder.RebuiltOrder`, `StartCodes.StartCode`, `HuffmanCode.UpdatedWeights` |
| position code | `PositionCode` | `PositionCode.DecodeInvertsPosition` |
| match finder | `SearchTree`, `Forest`, `ForestDelete`, `MatchFinder` | `MatchFinder.Finder.InsertNode`, `MatchFinder.Finder.DeleteNode` |
| sliding window | `WindowModel`, `SlidingWindow` | `WindowModel.TokenLongest`, `WindowModel.StoreKeeps` |
| tokens and texts | `Lzss`, `FbbCode`, `Stream`, `TokenWriter` | `Lzss.DecodeInvertsEncode`, `Stream.Rebuilds` |
| line ends, frame | `Newlines`, `Framing` | `Newlines.StreamSurvives` |
| both programs | `Encoder`, `Decoder`, `RoundTrip`, `CrcVerdict`, `Transfer` | `RoundTrip.FileReadsBack`, `RoundTrip.TokensReadBack`, `CrcVerdict.VerdictIs`, `Transfer.Deliver` |
| codes too long for the word | `DeepCodes` | `DeepCodes.MisreadStream` |

Bytes and registers on the packed side are sequences of bits (`Words`), so that "the bits
written are the bits of the tokens" can be said literally. The trees of the match finder
have a ghost forest beside the arrays `lson`, `rson`, `dad`; the text has a ghost line, the
blank start of the window and then everything `take` delivers, on which positions never
wrap. `Lzss` is written for any adaptive code whose symbols read back, so the tree's
invariant does not weigh on the proof of the whole.

`Transfer.Deliver` is the sum of it: for every header and file, every protocol version,
basic mode, and whatever the receiver's buffer held before, the receiver accepts the file
and gets the sender's stream, unless a Huffman code had a bit set past the sixteenth (the
program keeps codes in a 16-bit word, while the tree allows 21 bits), a long code did not fit
in the 32 bits `Putcode` can shift, or the length guard's 32-bit product wrapped (files above
42949676 bytes). None of this can happen to texts of at most 3867 bytes. The tokens behind
the file are read back exactly if no code lost a set bit (`RoundTrip.TokensReadBack`).

## Where the code does not do what one would expect

Each of these is kept as the code has it and pinned down by a lemma.

- A code of more than 16 bits reads back as its symbol exactly if no bit past the sixteenth is
  set (`HuffmanCode.CodeWordReads`), and a whole token list exactly if that holds of all its
  codes (`RoundTrip.TokensReadBack`). It does happen: `DeepCodes.MisreadStream` gives a list
  of tokens that is not read back, because any tree with those weights has such a code.
- The guard against absurd lengths wraps: `RoundTrip.GuardRefuses` gives file lengths at which
  it refuses every genuine text, `RoundTrip.GuardPasses` those at which it refuses none, and
  `RoundTrip.GuardLengths` the only ones at which it could refuse any.
- A line feed in a message header does not survive the trip: `Newlines.StreamSurvives`.
- The Telnet escaper compares a `char` with 255, which never matches where `char` is signed:
  `Telnet.FilterInvertsExactly`. Right behind a CR an IAC is taken for text:
  `TelnetLaws.Commands`. A subnegotiation, once begun, never ends:
  `Telnet.SubnegotiationNeverEnds`.
- The end mark of a POP3 message swallows the part of a line that came in the same piece:
  `PopSend.EndBehindLine` says when, `PopSend.PartLost` what.
- A NOT line without text hides those behind it, up to nine: `FwdRules.EmptyHides`, and exactly
  when, `FwdRules.ExceptionsAre`.
- `ch_bbs` goes on behind a stray ENDIF and then runs both parts of an IF: `Cron.BothPartsRun`.
- The check of forward files accepts an IF left open in a block that is not closed:
  `FwdCheck.OpenBlockPasses`, and `FwdCheck.PassesBalanced` says when a file that passes
  nests.
- In merge mode new satellites are dated only behind the last old one:
  `OrbitalMerge.EntryExplained`.
- The message search misses messages when numbers come out of the order of the blocks:
  `Indexes.OutOfOrderMissed`; exactly when, `Indexes.FoundExactly` and
  `Indexes.SkippingFinds` say.
- The list of messages put off has fifty places and no check: `MblForward.CanOverrun`. A
  session is safe, whatever the partner sends, exactly if it begins with at most fifty messages
  waiting: `MblForward.SafeSessions`.
- The flag for a continued header line outlives its message and can make the title of the next
  one disappear: `Smtp.TitleLost`, with `Smtp.TitleLostExample`, and exactly when,
  `Smtp.StaleHarmless`.
- A line of a message that looks like the mailbox's own end mark is sent as it is, and ends the
  text there: `Smtp.TakenWhole`.

## Model

| member | source | states |
|---|---|---|
| `Crc.TableIsSerial` | src/autobin.c:117-130 | for every byte string, folding the table step from 0 equals folding the bit-serial step over the string and two zero bytes |
| `Crc.TabIsRemainder` | include/crc.h:24-57 | each of the 256 table constants is the remainder of its index under polynomial 0x1021 |
| `Crc.UpdCrcIsShift` | include/crc.h:73-73 | one table step divides eight more bits of (CRC xor byte at the top) |
| `Crc.FoldConcat` | include/crc.h:73-73 | the CRC of a concatenation is the CRC of the second part started from the CRC of the first |
| `Crc.ComputeCrc` | src/autobin.c:117-130 | the shifting loop feeds the eight bits of the byte, highest first, into the register with polynomial 0x1021 |
| `BitIO.PutExact` | src/lzhuf.c:870-895 | bits sent out and bits kept in the buffer are exactly the bits that waited followed by the code; nothing lies behind them |
| `BitIO.BitSink.Putcode` | src/lzhuf.c:870-895 | everything written so far grows by exactly the code while buffer and code hold at most 32 bits; how many bits then wait; codes of at most 16 bits leave at most 7 |
| `BitIO.BitSink.EncodeEnd` | src/lzhuf.c:1060-1070 | the packed bytes are all bits written, padded with less than a byte of zeros |
| `BitIO.CrcWriter.Put` | src/lzhuf.c:149-154 | one more byte in the file, its bits behind the packed bits, the CRC that of everything written |
| `BitIO.CrcReader.Get` | src/lzhuf.c:156-165 | delivers the next byte or end of file; the CRC is that of exactly the bytes delivered |
| `BitIO.BitSource.GetBit` | src/lzhuf.c:831-846 | delivers the next bit of the packed stream, zero past its end, and advances by one |
| `BitIO.BitSource.GetByte` | src/lzhuf.c:849-864 | delivers the next eight bits of the packed stream, zeros past its end, and advances by eight |
| `BitIO.BitSource.ReadSoFar` | src/lzhuf.c:831-846 | after a single bit the file stands behind the byte holding the last bit delivered and at most one more |
| `HuffmanTables.NeverAncestor` | src/lzhuf.c:986-1011 | the node a raised node is exchanged with is never one of its ancestors |
| `HuffmanTables.TargetWeight` | src/lzhuf.c:986-995 | the exchange partner weighs exactly what the raised node weighed and is the last such node |
| `HuffmanTables.BumpLinks` | src/lzhuf.c:997-1008 | the exchange keeps fils and prnt mutually inverse, sons at even/odd neighbours, parents above children |
| `HuffmanTables.BumpOrdered` | src/lzhuf.c:986-995 | raising keeps the weights non-decreasing below the sentinel and adds one to exactly one place of the ordered list |
| `HuffmanTables.BumpSums` | src/lzhuf.c:984-1013 | after a step only the raised node's parent is one short of the sum of its sons, and it lies above |
| `HuffmanTables.ClimbWeight` | src/lzhuf.c:983-1013 | a whole climb raises the weight of exactly the symbol it started from, by one |
| `HuffmanTables.Climb` | src/lzhuf.c:984-1013 | the climb ends at the root with the full invariant, and the root's weight is one more |
| `HuffmanCode.UpdatedWeights` | src/lzhuf.c:975-1014 | update adds one to exactly one symbol, after halving all (f+1)/2 when the root was full, and one to the root |
| `Huffman.Coder.Update` | src/lzhuf.c:975-1014 | the arrays afterwards are those of one counted symbol (their invariant holds by type) |
| `Huffman.Coder.Exchange` | src/lzhuf.c:994-1008 | the exact new contents of freq, fils and prnt when two subtrees change places |
| `Huffman.Coder.StartHuff` | src/lzhuf.c:900-922 | the arrays of the starting tree |
| `StartCodes.StartCode` | src/lzhuf.c:900-922 | the first code of every symbol: the nine bits of 396 + s for the symbols below 116, the eight bits of s - 116 for the others |
| `StartCodes.FirstToken` | src/lzhuf.c:1184-1195 | the first token of any file, bit by bit: a byte as its first code; a match as the eight bits of its length and 137, and its position |
| `HuffmanCode.StartValid` | src/lzhuf.c:900-922 | the starting tree satisfies the whole Huffman invariant |
| `HuffmanCode.StartRoot` | src/lzhuf.c:900-922 | the starting root weighs 314: every symbol once |
| `HuffmanRebuild.LeafCount` | src/lzhuf.c:934-943 | the first loop of reconst finds exactly N_CHAR leaves |
| `HuffmanRebuild.PlaceBehindPair` | src/lzhuf.c:945-957 | every insertion of reconst lands behind the pair just joined, and not behind the end |
| `HuffmanRebuild.JoinBuilds` | src/lzhuf.c:945-957 | joining a pair keeps the partial tree sorted, complete, without duplicates, with the leaves' halved weights |
| `HuffmanRebuild.RebuiltValid` | src/lzhuf.c:927-970 | the rebuilt tree satisfies the whole invariant, every symbol weighs (f+1)/2, and the root is below MAX_FREQ and at most half the old root plus 157 |
| `HuffmanRebuild.RebuiltRoot` | src/lzhuf.c:934-957 | twice the new root weight is at most the old one plus N_CHAR |
| `HuffmanOrder.RebuiltOrder` | src/lzhuf.c:927-970 | the rebuilt tree is settled down to its ties: leaves keep their order, joined pairs follow the order of their sons, and of a leaf and a pair of equal weight the leaf comes first |
| `Huffman.Coder.Reconst` | src/lzhuf.c:927-970 | the in-place loops produce exactly the rebuilt tables |
| `Huffman.Coder.JoinPairs` | src/lzhuf.c:945-957 | the insertion loop, with its block moves, joins the pairs one after the other |
| `HuffmanCode.DecodeInvertsCode` | src/lzhuf.c:1073-1090 | wherever the code of a symbol lies in a stream, decoding there yields the symbol and takes exactly the code's length |
| `HuffmanCode.DecodeReadsCode` | src/lzhuf.c:1073-1090 | whatever the stream, what is read is exactly the code of the symbol delivered |
| `HuffmanCode.FibonacciGrowth` | src/lzhuf.c:1019-1044 | weights grow like Fibonacci numbers on the way from any node to the root |
| `HuffmanCode.LongCodeNeedsWeight` | src/lzhuf.c:1019-1044 | a code of length d needs a root weight of at least the (d+2)nd Fibonacci number |
| `HuffmanCode.CodeLength` | src/lzhuf.c:1019-1044 | every code has 1 to 21 bits, and at most 16 while the root weighs less than 4181 |
| `HuffmanCode.CodeWordExact` | src/lzhuf.c:1019-1044 | the 16-bit word stands for the code exactly if every bit past the sixteenth is clear |
| `HuffmanCode.CodeWordReads` | src/lzhuf.c:1019-1090 | from the code word of a symbol the decoder reads that symbol exactly if every bit of its code past the sixteenth is clear, and otherwise another one |
| `DeepCodes.HeavyLeafOnTop` | src/lzhuf.c:975-1014 | where everything before the sons of a node hangs below it, the heaviest leaf there is one of the sons if it has more than two fifths of the node's weight |
| `DeepCodes.DeepCodeLost` | src/lzhuf.c:1019-1044 | in every tree with certain weights, whatever its shape, some symbol has a code whose seventeenth bit is set and lost |
| `DeepCodes.LostBehind` | src/lzhuf.c:975-1044 | behind any tokens with these counts, in any order, there is a token whose code is lost |
| `DeepCodes.MisreadStream` | src/lzhuf.c:1019-1090 | a stream of 17973 tokens that the decoder does not read back |
| `Huffman.Coder.CollectCode` | src/lzhuf.c:1024-1039 | the climb from leaf to root collects the length and the first 16 bits of the symbol's path |
| `Huffman.Coder.EncodeChar` | src/lzhuf.c:1019-1044 | writes the first 16 bits of the symbol's code, padded to its length, which is the code itself when it fits, and counts the symbol |
| `Huffman.Coder.DecodeChar` | src/lzhuf.c:1073-1090 | reads the symbol the tree assigns to the bits at hand and counts it as the coder does |
| `PositionCode.DecodeInvertsPosition` | src/lzhuf.c:1093-1109 | wherever the code of a match position lies in a stream, decoding there yields the position and takes exactly its length |
| `PositionCode.TablesAgree` | src/lzhuf.c:662-760 | all bytes beginning with the upper code of i decode to i and its length |
| `PositionCode.PositionCosts` | src/lzhuf.c:662-692 | a position below 64, 256, 768, 1536, 3072, 4096 costs 9 to 14 bits; the codes of the upper parts count up from all zeros to all ones; the lower six bits are verbatim |
| `Huffman.EncodePosition` | src/lzhuf.c:1047-1057 | writes upper six bits by table and lower six verbatim |
| `Huffman.DecodePosition` | src/lzhuf.c:1093-1109 | reads a position back from the bits at hand |
| `MatchFinder.Finder.InitTree` | src/lzhuf.c:534-542 | 256 well-formed empty trees: no position is registered |
| `MatchFinder.Finder.Compare` | src/lzhuf.c:580-582 | the length of the common prefix of two keys, and which of them is smaller |
| `MatchFinder.FarSideWorse` | src/lzhuf.c:556-599 | no node on the side a search turns away from shares a longer prefix than the node it turned at |
| `MatchFinder.SearchedAll` | src/lzhuf.c:556-599 | what is best on the search path is best among all registered positions |
| `MatchFinder.Finder.InsertNode` | src/lzhuf.c:545-610 | keeps all trees well formed; registers r and forgets only a position with the same 60 bytes; its match is the longest over everything registered, and the nearest of the equal ones its search compared with |
| `Forest.AttachOk` | src/lzhuf.c:558-579 | hanging a node into an empty place keeps every tree ordered and linked and registers just that node |
| `Forest.ReplaceOk` | src/lzhuf.c:600-609 | replacing a node by one with the same key keeps every tree ordered and linked and exchanges just these two |
| `MatchFinder.Finder.DeleteNode` | src/lzhuf.c:613-647 | keeps all trees well formed and loses exactly the given position |
| `ForestDelete.LastOnLeft` | src/lzhuf.c:625-646 | pulling up the last node left of a deleted one gives an ordered, linked tree without it |
| `WindowModel.StoreKeeps` | src/lzhuf.c:1200-1202 | overwriting the oldest slot and its copy changes no live key and breaks no tree |
| `WindowModel.DropOldest` | src/lzhuf.c:1197-1206 | forgetting the oldest position leaves every younger text position represented |
| `WindowModel.TokenLongest` | src/lzhuf.c:1184-1195 | the token chosen is at least as long as any repetition starting at a text position of the last N - F bytes, unless that is too short to use |
| `WindowModel.TokenDescribes` | src/lzhuf.c:1184-1195 | the token chosen stands for the next bytes of the text, and a match never reaches behind the blank start |
| `SlidingWindow.Window.Start` | src/lzhuf.c:1160-1181 | blanks, lookahead and trees before the first token, for any non-empty stream; the sixty blank positions in front of the text are all represented |
| `SlidingWindow.FirstLongest` | src/lzhuf.c:1178-1195 | so the first token is at least as long as any repetition of those blanks |
| `SlidingWindow.Window.AdvanceTaking` | src/lzhuf.c:1197-1206 | one step with a byte taken: window and trees stand one position further on the same text |
| `SlidingWindow.Window.AdvanceEmpty` | src/lzhuf.c:1212-1219 | one step without bytes left: window and trees stand one position further, one byte less ahead |
| `Lzss.DecodeInvertsEncode` | src/lzhuf.c:1114-1268 | for any readable adaptive code: the decoder's loop on the bits of any tokens, whatever follows, rebuilds their expansion and stops right behind them |
| `Lzss.LoopReadsTokens` | src/lzhuf.c:1414-1522 | for any stream: the decoder's loop expands exactly the tokens read one after the other |
| `FbbCode.FbbReadable` | src/lzhuf.c:1073-1109 | coder and decoder stay in lockstep: from equal trees every symbol and position reads back, with the same next tree |
| `Stream.Rebuilds` | src/lzhuf.c:1418-1522 | tokens that stand for a text rebuild it, overlapping matches included, whatever the last F slots held before |
| `Stream.TextPerBits` | src/lzhuf.c:1184-1195 | text is at most six times as long as its bits: a match covers at most 60 bytes and costs at least 10 bits |
| `Stream.BitsPerText` | src/lzhuf.c:1184-1195 | a byte of text costs at most 21 bits |
| `Lzss.BitsPerToken` | src/lzhuf.c:1047-1057 | a token costs at most 35 bits |
| `TokenWriter.Writer.Put` | src/lzhuf.c:1186-1195 | the bits written are those sent for all tokens so far, the bits waiting are counted right, and the tree is the one after the tokens, as long as buffer and code hold at most 32 bits |
| `TokenWriter.SentExact` | src/lzhuf.c:1019-1057 | the bits sent for a list of tokens are the bits of the tokens exactly if no code has a bit set past the sixteenth |
| `Newlines.Taker.Take` | src/lzhuf.c:792-828 | delivers header and file with carriage returns dropped and line feeds made CR LF, byte by byte, then end of file |
| `Newlines.CountFile` | src/lzhuf.c:1125-1138 | the counting pass announces exactly the number of bytes take will deliver |
| `Newlines.NormaliseIdentity` | src/lzhuf.c:1436-1458 | the decoder's line-end rule changes nothing exactly if every CR is followed by LF and every LF follows a CR |
| `Newlines.NormaliseConcat` | src/lzhuf.c:1436-1458 | the line-end rule works piece by piece, carrying only its one byte of state |
| `Newlines.RunBecomes` | src/lzhuf.c:1436-1460 | by whole runs of line ends: a run comes out as many CR LF as its first byte occurs in it, any other byte as it is |
| `Newlines.FileStreamIs` | src/lzhuf.c:792-828 | what `take` makes of a file is well formed and differs from it in carriage returns only |
| `Newlines.WellFormedApart` | src/lzhuf.c:792-828 | and no other well-formed stream does |
| `Newlines.ScanHeaderIs` | src/lzhuf.c:778-789 | each carriage return of a header gets a line feed, everything else stays |
| `Newlines.StreamSurvives` | src/lzhuf.c:778-828 | a sender's stream passes the line-end rule unchanged exactly if the message header holds no line feed |
| `Framing.Le32RoundTrip` | src/lzhuf.c:1157-1167 | a length written byte by byte reads back modulo 2^32 |
| `Encoder.CodeToken` | src/lzhuf.c:1184-1195 | codes a token that stands for the bytes at the current position and is the longest there |
| `Encoder.TakeBytes` | src/lzhuf.c:1197-1206 | takes one byte per position until the token is passed or the text ends |
| `Encoder.Drain` | src/lzhuf.c:1212-1219 | passes the rest of the token when no bytes are left, ending at the end of the text |
| `Encoder.CodeText` | src/lzhuf.c:1171-1221 | the tokens written cover the whole text, each the longest match, and textsize is its length |
| `Encoder.Encode` | src/lzhuf.c:1114-1268 | the file is the frame of length (the announced size equals the size coded), CRC and packed codes of tokens covering the stream; the result is its code size plus 4 |
| `Decoder.Ring.Copy` | src/lzhuf.c:1465-1515 | a match copies byte by byte from the distance given, overlapping itself if it must, and writes each byte by the line-end rule |
| `Decoder.OpenFile` | src/lzhuf.c:1336-1410 | reads length and CRC as the header function says, refusing short files, empty texts and absurd lengths |
| `Decoder.ExpandFile` | src/lzhuf.c:1414-1522 | the loop rebuilds the history of the decoding function and has read exactly the bytes its bits came from, at most one more |
| `Decoder.Decode` | src/lzhuf.c:1325-1544 | header, loop, line-end rule and CRC: the text is that of the file function, and with a CRC the file is taken for whole exactly if it carries the bit-serial CRC of what was read |
| `CrcVerdict.VerdictIs` | src/lzhuf.c:1534-1541 | a file with a CRC is taken for whole exactly if its bytes 21 and 20 are the bit-serial CRC of all that was read from the length on |
| `CrcVerdict.OneAccepted` | src/lzhuf.c:1534-1541 | of all files alike except for bytes 20 and 21 exactly one is taken for whole |
| `CrcVerdict.ChangedCrcRefused` | src/lzhuf.c:1534-1541 | what `Encode` wrote carries the bit-serial CRC of its whole rest, and with any other CRC is refused, though the same text comes out |
| `CrcVerdict.NeighboursSeen` | src/lzhuf.c:1534-1541 | a file with one or two neighbouring bytes changed, if it is read as far as before, is not taken for whole together with the original |
| `RoundTrip.HeaderReadBack` | src/lzhuf.c:1336-1410 | length and CRC read back as written; only the guard can refuse |
| `RoundTrip.AcceptsExactly` | src/lzhuf.c:1336-1405 | exactly which headers are accepted, on any file, and with what length; a file that ends in front of its length is refused outside of basic mode |
| `RoundTrip.TextPerCodes` | src/lzhuf.c:1378-1378 | genuine text is at most 48 times as long as its packed codes |
| `RoundTrip.GuardPasses` | src/lzhuf.c:1378-1402 | the guard never refuses a genuine file of at most 42949676 bytes |
| `RoundTrip.GuardRefuses` | src/lzhuf.c:1378-1402 | every genuine file of 42949677 to 43113920 bytes is refused, because the product has wrapped |
| `RoundTrip.GuardLengths` | src/lzhuf.c:1378-1402 | a text no longer than 48 times its codes can be refused only at file lengths 42949677 to 82595528, and from 85899350 on; at each of these some such size is |
| `RoundTrip.CodesReadBack` | src/lzhuf.c:1414-1522 | the packed codes of the tokens of a text read back as the text |
| `RoundTrip.FileReadsBack` | src/lzhuf.c:1325-1543 | a file holding the tokens of a text decodes to the text through the line-end rule with matching CRC exactly if the guard lets it through, in every protocol version and in basic mode |
| `RoundTrip.TokensReadBack` | src/lzhuf.c:1019-1109 | whatever tokens were sent: the decoder reads them back exactly if no code has a bit set past the sixteenth, and then has the coder's tree |
| `RoundTrip.ShortTextsFit` | src/lzhuf.c:1019-1044 | the first 3867 tokens of any stream have codes of at most 16 bits |
| `RoundTrip.ShortTextPasses` | src/lzhuf.c:1019-1044 | a text of at most 3867 bytes meets both limits, code length and guard |
| `Transfer.Deliver` | src/lzhuf.c:1114-1543 | encode, carry, decode: the file is the frame of codes packed from tokens that cover the text; it is accepted with the sender's stream unless a code lost a set bit or overran the buffer or the guard wrapped, none of which happens up to 3867 bytes; unchanged exactly if the header holds no line feed |
| `Nesting.SkipBlock` | src/initfwd.c:1077-1101 | counting IF and ENDIF passes over a whole nested block |
| `Nesting.BalancedIsBlock` | src/initfwd.c:1060-1136 | letters nest exactly if the lines are those of a recursive IF / ELSE / ENDIF structure |
| `Cron.CronMeaning` | src/initfwd.c:1060-1136 | on every well-nested file cron runs exactly the commands of the recursive reading and ends with cptif 0 |
| `Cron.CronStray` | src/initfwd.c:1060-1136 | an ELSE or ENDIF without IF stops cron, with exactly what ran before it |
| `Cron.CronOpen` | src/initfwd.c:1060-1136 | an IF never closed: what follows runs if it holds, else the search for its end fails |
| `Cron.RunCron` | src/initfwd.c:1060-1195 | for any lines, nested or not: the commands run, the open IFs or the error, as the counting semantics says |
| `Cron.SkipLines` | src/initfwd.c:1077-1135 | the inner loops stop at the ENDIF or ELSE of the level they were entered at, or report end of file |
| `Cron.BbsMeaning` | src/fwdovl6.c:705-783 | on every well-nested file ch_bbs picks the stations of the recursive reading, in order, at most 80, and ends with cptif 0 |
| `Cron.BbsAll` | src/fwdovl6.c:691-784 | in `all` mode conditions do not matter, nested or not: the first eighty stations are picked |
| `Cron.BothPartsRun` | src/fwdovl6.c:705-783 | behind a stray ENDIF both parts of an IF that holds are run |
| `Cron.RunBbs` | src/fwdovl6.c:691-784 | for any lines and both modes: the stations picked, as the counting semantics says |
| `FwdCheck.LetterCheck.TstLigne` | src/initfwd.c:182-272 | error or not, and the new counters either way, for every letter in every state |
| `FwdCheck.AcceptsExactly` | src/initfwd.c:182-272 | the whole table by letters: which are accepted outside of blocks, inside and behind NOT, and what each does to the state |
| `FwdCheck.PassesBalanced` | src/initfwd.c:182-272 | a file that passes the check nests properly exactly if it does not end inside a block with an IF open |
| `FwdCheck.PassesIsBlock` | src/initfwd.c:182-272 | a file that passes and ends outside of blocks is the file of a recursive structure |
| `FwdCheck.OpenBlockPasses` | src/initfwd.c:380-384 | an accepted file that does not nest |
| `Telnet.SndDt` | src/drv_tcp.c:1249-1281 | the buffer holds the escaped bytes: CR LF for CR where asked for, IAC doubled where char is unsigned |
| `TelnetLaws.EscapeLength` | src/drv_tcp.c:1249-1281 | nothing is escaped in binary mode; else how long the escaped bytes are: one more for each CR where asked for, and for each 255 where char is unsigned |
| `Telnet.Channel.Trame` | src/drv_tcp.c:988-1161 | in place, never writing ahead of the reads: output, state and answers of the byte-wise filter, from any state |
| `TelnetLaws.TextDelivered` | src/drv_tcp.c:1007-1161 | text without IAC, by positions: delivered are all bytes but the line feeds behind an odd number of CR where CR LF is the line end; and the state behind it |
| `TelnetLaws.TextUnchanged` | src/drv_tcp.c:1007-1161 | it comes out unchanged exactly if there is no such line feed |
| `TelnetLaws.Commands` | src/drv_tcp.c:1027-1155 | IAC IAC is the byte 255; a short command and an option command are nothing; only SB changes the state; right behind CR an IAC is text |
| `TelnetLaws.Answers` | src/drv_tcp.c:1109-1147 | DO is answered WONT but for ECHO, WILL LINEMODE is answered DONT, nothing else is answered; nothing at all where char is signed |
| `TelnetLaws.InSubnegotiation` | src/drv_tcp.c:1007-1035 | inside a subnegotiation every second IAC is delivered and nothing else |
| `Telnet.CutAnywhere` | src/drv_tcp.c:988-1161 | however reads cut the stream, output, answers and final state are the same |
| `Telnet.FilterInverts` | src/drv_tcp.c:988-1161 | the filter undoes the escaping of every byte string, where char is signed of those without byte 255, and is idle again |
| `Telnet.FilterInvertsExactly` | src/drv_tcp.c:1263-1281 | it does so exactly if char is unsigned or the string has no byte 255 |
| `Telnet.SubnegotiationNeverEnds` | src/drv_tcp.c:1011-1035 | once a subnegotiation has begun the filter stays in it and delivers nothing but 255 |
| `MblForward.Sender.SndFwd` | src/forward.c:281-376 | states 4 to 8: one call is one step of the session machine, events included |
| `MblForward.Sender.RcvRevFwd` | src/forward.c:458-559 | states 0 to 4 of the reversed session likewise |
| `MblForward.Sender.FinEnvoi` | src/forward.c:281-292 | `fin_envoi_fwd`: closes the message in hand, or does nothing if there is none |
| `MblForward.ClosesExactly` | src/forward.c:281-292 | a call closes a message exactly if its proposal is settled and the line is the prompt |
| `MblForward.AnswersExactly` | src/forward.c:303-350 | a call records an answer exactly for the message proposed, and it is the letter received: O, N, R or L |
| `MblForward.SendsExactly` | src/forward.c:303-355 | a body is out exactly if its message was accepted, now or before, and `snd_mess` comes to its end |
| `MblForward.Sender.MessSuiv` | src/fwdovl2.c:988-1037 | the search loop: the message found, and those cleared on the way |
| `MblForward.NextSays` | src/fwdovl2.c:988-1037 | only a message that waits, was not put off and exists is proposed, and only one that waits, was not put off and is gone is cleared |
| `MblNext.SearchStops` | src/fwdovl2.c:988-1037 | the search takes the gone messages in front off the list, each once, and stops at the first that is not gone, with what it finds there |
| `MblNext.ProposesExactly` | src/forward.c:281-376 | a call proposes a message exactly if the session moves on and the search finds that message on the lists as they are then |
| `MblNext.EndsExactly` | src/forward.c:281-376 | a session is over exactly behind a letter it does not know, or when it moves on and finds nothing: then a reversed one hands over and any other hangs up |
| `MblForward.Sender.Deliver` | src/k_tasks.c:1373-1373 | fields and log are those of the run over all calls so far |
| `MblForward.StepKeeps` | src/forward.c:281-376 | every call keeps: the log is orderly, no message is proposed twice, what was waiting waits or was closed or cleared, what was put off is remembered and waits, the statistics count the closings |
| `MblForward.ClosedByPartner` | src/forward.c:281-376 | in every run of inputs: a message is closed only if the partner's letter to its proposal was N or R, or was O and a call that found the session sending it brought its body to the end |
| `MblForward.SessionClosesOnce` | src/forward.c:281-376 | in every run: what is closed was waiting, is closed once, and was not answered L |
| `MblForward.OverrunsExactly` | src/forward.c:334-336 | a call writes past `mess_egal` exactly if it is an L to a proposal and fifty have come before |
| `MblForward.SafeExactly` | src/forward.c:334-336 | a session stays inside `mess_egal` exactly if the partner puts off at most fifty messages |
| `MblForward.CanOverrun` | src/forward.c:334-336 | with fifty-one messages waiting there are calls, a prompt and an L for each, behind which the next L writes past `mess_egal` |
| `MblForward.SafeSessions` | src/forward.c:334-336 | whatever the calls, a session stays inside `mess_egal`, exactly if it begins with at most fifty messages waiting |
| `MblForward.Sender.Serve` | src/forward.c:281-376 | a whole session in the code: the fields and the log are those of the run |
| `MblForward.ClosedOnlyWhenSettled` | src/forward.c:281-371 | a message is closed only right behind a refusal N or R of its proposal, or behind answer O and its complete body |
| `MblForward.ClosedOnce` | src/forward.c:281-371 | no message is closed twice, and none answered L is closed at all |
| `PopSend.Channel.SndDt` | src/drv_pop.c:1476-1530 | one call writes the byte-wise stuffing of its piece, in any state, and ends the message as it should |
| `PopSend.AnyChunks` | src/drv_pop.c:1476-1530 | however the message is cut into pieces, the same bytes and state result |
| `PopSend.Channel.SendPieces` | src/drv_pop.c:1476-1530 | calls of the code on the pieces of a message, one after the other: the socket gets what the whole text makes |
| `PopSend.Channel.Transmit` | src/drv_pop.c:2184-2270 | the same for a message asked for with RETR or TOP, from its first byte |
| `PopSend.EndBehindLine` | src/drv_pop.c:1485-1490 | a call writes all it should exactly if the end mark comes first in the piece or right behind a line end (or later than the message's end) |
| `PopSend.PartLost` | src/drv_pop.c:1485-1490 | otherwise exactly the part of the line in the piece is lost: the lines before it go out, then the end mark |
| `PopSend.SendMessage` | src/drv_pop.c:1476-1530 | a complete message goes out as all its lines, dots doubled, and the end mark (section 3 of RFC 1939) |
| `PopSend.SendOneLine` | src/drv_pop.c:1476-1530 | the shortest message byte for byte: a leading dot doubled, CR LF, dot, CR LF |
| `PopSend.SendUnfinished` | src/drv_pop.c:1476-1530 | a message that ends in an unfinished line: that line goes out, dot doubled, and the end mark right behind it |
| `PopSend.TopMessage` | src/drv_pop.c:1476-1530 | TOP n sends headers, the empty line and exactly n body lines, then the end mark (section 7 of RFC 1939) |
| `PopSend.TopEndsOnce` | src/drv_pop.c:1476-1530 | TOP n with the end of the message behind: at most n body lines and one end mark, whichever comes first |
| `Smtp.UndottedDotted` | src/drv_pop.c:2456-2472 | dropping a dot inverts the stuffing of any line, and no stuffed line is taken for the end; of lines not stuffed only those with two dots in front lose one |
| `Smtp.DeliveryOf` | src/drv_pop.c:2323-2352 | each recipient gets one command and one copy of the text, in the order of the RCPT commands |
| `Smtp.CommandNames` | src/drv_pop.c:2323-2352 | the command names the recipient as it came, and of the sender what stands before its first '@' |
| `Smtp.Channel.Message` | src/drv_pop.c:2313-2360 | appends the deliveries for all recipients and empties addresses and text |
| `Smtp.Channel.RcvDt` | src/drv_pop.c:2446-2571 | one line of a message: final dot, end of headers, header or body line, each with its whole effect on text, kept headers, replies and mailbox |
| `Smtp.HeadersRead` | src/drv_pop.c:2514-2563 | of the headers exactly the titles of subject lines that continue nothing go to the text, and exactly the multipart types with their continuation lines are kept |
| `Smtp.TitleIs` | src/drv_pop.c:2543-2552 | a title is what stands behind the colon and any blanks |
| `Smtp.ContainsExactly` | src/drv_pop.c:2532-2532 | a multipart type is recognised wherever in the line the word stands |
| `Smtp.Channel.ReceiveMessage` | src/drv_pop.c:2446-2571 | a whole message, headers and body: every recipient is sent the titles, what replaces the headers, every body line as it was, and the end mark |
| `Smtp.StaleHarmless` | src/drv_pop.c:2514-2529 | a continuation flag left from the message before does no harm exactly if no line it swallows is a title or belongs to a multipart type |
| `Smtp.TitleLost` | src/drv_pop.c:2514-2552 | when the headers of one message end in an unfinished multipart type, the title of the next one disappears |
| `Smtp.Channel.ReceiveBody` | src/drv_pop.c:2446-2571 | a stuffed body of any lines, and the final dot: every recipient is sent every line as it was |
| `Smtp.TakenWhole` | src/drv_pop.c:2456-2472 | the mailbox (`get_mess_fwd`) takes a text whole exactly if no line of it begins like its own end mark /EX, like /AB or with control-Z |
| `Smtp.EndsTextExactly` | src/drv_pop.c:2456-2472 | which lines those are: control-Z, /EX or /AB in front, in either case |
| `Smtp.Channel.EndHeaders` | src/drv_pop.c:2478-2513 | the lines that replace the headers |
| `Smtp.PreambleAt` | src/drv_pop.c:2478-2513 | those lines by their places: the kept headers, or a notice with the sender and then every recipient in order; and an empty line |
| `Smtp.Channel.Mail` | src/drv_pop.c:2854-2888 | a sender only after authentication and only one, with the reply codes of each refusal |
| `Smtp.Channel.Rcpt` | src/drv_pop.c:2890-2938 | a recipient only after a sender, behind those before it, with the reply codes |
| `Smtp.Channel.Data` | src/drv_pop.c:2953-2970 | a message is entered exactly with authentication and a recipient |
| `Smtp.Channel.Process` | src/drv_pop.c:1074-1174 | one line, whatever it is: the new state, sender, recipients, authentication, socket, gathered text, mailbox and reply codes, each exactly; recipients imply a sender, a sender authentication, a message a recipient |
| `Smtp.Channel.Serve` | src/drv_pop.c:1074-1174 | in every run of lines on a port that asks for a login: as long as none is accepted there is no sender and no recipient, and the mailbox hears nothing but goodbyes |
| `Smtp.StartsExactly` | src/drv_pop.c:1148-1174 | commands are recognised in either case of their letters |
| `OrbitalMerge.TriCat` | src/ajoursat.c:1374-1399 | the exchange sort leaves the same records in ascending order |
| `OrbitalMerge.Doublons` | src/ajoursat.c:723-770 | keeps exactly the records no other one supersedes, in order |
| `OrbitalMerge.SurvivorsLatest` | src/ajoursat.c:723-770 | no satellite is lost, and what stays of each is as new as any of its records |
| `OrbitalMerge.SurvivorIs` | src/ajoursat.c:723-770 | of each satellite the last of its latest records stays, and no other |
| `OrbitalMerge.SurvivorsAscending` | src/ajoursat.c:723-770 | of a sorted list one record of each satellite stays, in strictly ascending order |
| `OrbitalMerge.Misajour` | src/ajoursat.c:888-1078 | the index loops compute the merge of the two lists in all three modes, and nsat |
| `OrbitalMerge.MergedCats` | src/ajoursat.c:902-1071 | the result has the satellites of both lists (F), the new (S), the old (U) |
| `OrbitalMerge.MergedAscending` | src/ajoursat.c:902-1071 | the result is strictly ascending |
| `OrbitalMerge.EntryExplained` | src/ajoursat.c:902-1071 | every entry is an old one, a new one, or the choice of the two; in mode F a new satellite is dated only if no old one lies behind it |
| `OrbitalMerge.MergedFields` | src/ajoursat.c:915-935 | every entry by its fields: a known satellite with a newer record has everything from that one but the date of today and the beacon and step of the old one; otherwise it is the old record; a new one is the new record |
| `OrbitalMerge.PickLater` | src/ajoursat.c:915-935 | of two records the later epoch wins, and the old beacon and step stay |
| `OrbitalMerge.TakenCounts` | src/ajoursat.c:902-1071 | nsat counts exactly the entries that are not old ones |
| `OrbitalMerge.ExplainedLatest` | src/ajoursat.c:902-1071 | an entry accounted for is as new as every record read of its satellite, old or new |
| `OrbitalMerge.Update` | src/ajoursat.c:390-394 | sort, drop duplicates, merge: strictly ascending, exactly the satellites of the mode, each entry with its fields from the right record and as new as any record read, nsat right |
| `FwdRules.Router.TestForward` | src/fwdovl1.c:283-519 | for every rule file: the masks are those of running its lines (which `FwdRules.FileDecides` explains block by block), and no station is wrongly chosen |
| `FwdRules.ChosenStations` | src/fwdovl1.c:283-519 | chosen stations are not marked done, not in the R: lines, not done before, and in a forwarding session not the sender |
| `FwdRules.BlockDecides` | src/fwdovl1.c:321-505 | a block of G, H, B, F and NOT lines in any mixture: its station is chosen, marked as done or noted as the sender exactly if some line names the message with that outcome, and nothing else changes |
| `FwdRules.StationDecides` | src/fwdovl1.c:358-377 | a station's line: one in the R: lines is marked as done, its block and that of one done before are skipped, any other starts afresh |
| `FwdRules.BlockSkipped` | src/fwdovl1.c:321-505 | a skipped block decides nothing |
| `FwdRules.FileDecides` | src/fwdovl1.c:321-505 | behind any front of the file, a station's line and its block: marked as done, left alone, or decided by the block alone |
| `FwdRules.ExceptionsAre` | src/fwdovl1.c:232-252 | an exception counts exactly if none of its ten up to it is empty, whichever block of the list holds it |
| `FwdRules.EmptyHides` | src/fwdovl1.c:242-243 | a NOT line without text hides the next one |
| `Indexes.StationIndex.InsNoeud` | src/arbre.c:57-111 | a name keeps its number for good; a new one gets the next and a fresh entry; no other entry changes; an empty one gets no entry |
| `Indexes.StationIndex.CherNoeud` | src/arbre.c:291-317 | found exactly if it is there, with its number |
| `Indexes.SameStation` | src/arbre.c:82-84 | two names are one station exactly if they agree in their first six characters |
| `Indexes.MessageIndex.InsMess` | src/arbre.c:148-170 | the message, with its record and station, goes behind all others, in a new block when the last is full |
| `Indexes.MessageIndex.FindMess` | src/arbre.c:177-198 | finds only what is there, with its entry; with distinct numbers exactly what skipping can reach; everything if the numbers are in the order of the blocks, as when they only grow |
| `Indexes.FoundExactly` | src/arbre.c:177-198 | a number is found exactly if no block up to its own begins with a greater number and the next block does |
| `Indexes.SkippingFinds` | src/arbre.c:177-198 | every number is found exactly if a block begins with a number no greater than another just when it begins no later |
| `Indexes.OutOfOrderMissed` | src/arbre.c:177-198 | when number 1 comes behind 2 to 101, none of these is found any more |

## Left out

- Huffman.Coder.EncodeChar: what is written once more than 32 bits meet in the buffer (only codes of at least 17 bits can bring that about) is not modelled, because the original then shifts by a negative count.
- Transfer.Deliver: the text is stated to arrive if no code lost a set bit; the converse is stated of the tokens (`RoundTrip.TokensReadBack`), not of the text, since other tokens may happen to expand to the same text. Whether the match finder produces a list like that of `DeepCodes.MisreadStream` from some text is not decided.
- WindowModel.TokenLongest: covers text positions; a match into the blank start is only shown to be right (but for the first token: `SlidingWindow.FirstLongest`), and among equally long matches the one chosen is fixed only among the positions the search compares with (`MatchFinder.Finder.InsertNode`).
- Encoder.Encode: the stream must not be empty (the original divides by its length); 32-bit counters are unbounded here except where the length is written.
- PopSend.Channel.SndDt: a NUL byte in the text, at which the original stops a write, is not modelled.
- MblForward.Sender.Deliver: what happens behind a write past `mess_egal` is not modelled. A session begins with no message in hand, as `src/fwdovl6.c:208` sets it up; the order in which waiting messages are searched is left open.
- OrbitalMerge.Misajour: epochs are compared as exact numbers, and the arrays must have room for both lists.
- FwdRules.Router.TestForward: whether a station is in the R: lines or is the sender depends on its number only; type T messages (their own function) and expired messages are not part of this model.
- FwdCheck.PassesIsBlock: one letter stands for one line; a NOT line counts as two.
- Cron.RunBbs: a line that names a station is recorded whole; its number and the table slot are not modelled.
- Smtp.Channel.ReceiveMessage: stated up to the list `lsend` that the mailbox reads; of the mailbox only where it takes the end of a text is modelled, line by line.
- Smtp.Channel.Process: the verdict on a login, the address in a line and the text of replies are inputs or left out; memory never runs out.
- The `moto` byte order, the `basic` checksum `chck`, progress display, the log of decoded lines (`ligne`, `test_ligne`, `check_bin`) and write errors in `src/lzhuf.c`.
- The building of message headers (`make_header`, `analyse_header`) and the size of `bin_header`: the header is any byte string.
- The order of independent initialisations in `Encode` and `Decode`.
- Connection scripts and the states 0 to 3 of `snd_fwd`, and the receiving side of forwarding.
- The NNTP gateway, POP3 commands other than RETR and TOP, and the ring buffers of the drivers.
- Text parsers and ageing in `src/ajoursat.c`, and the sort by name.
- The sorted list of `ins_iliste` in `src/arbre.c` and the chunked list of `wrbuf` in `src/autobin.c`.
- Sockets, files, terminals and menus.
