/** Coding tokens: Huffman coder and bit packer together. */
module TokenWriter {
  import opened Sequences
  import opened Words
  import opened BitIO
  import opened HuffmanCode
  import opened Huffman
  import opened Lzss
  import opened FbbCode
  import PositionCode
  import HuffmanTables

  /** The tree every stream starts from. */
  function StartTree(): HuffTree {
    StartValid();
    StartTables()
  }

  ghost function BitsOfTokens(ks: seq<Token>): seq<bool>
    requires WellTokens(ks)
  {
    EncodedBits(FBB, StartTree(), ks)
  }

  ghost function TreeAfter(ks: seq<Token>): HuffTree
    requires WellTokens(ks)
  {
    StateAfter(FBB, StartTree(), ks)
  }

  // ---------- what goes out for a token ----------

  function CodeIn(t: HuffTree, k: Token): seq<bool>
    requires WellToken(k)
  {
    FBB.code(t, Symbol(k))
  }

  /** The code word of the token's symbol, which holds sixteen bits of the code, and the
      position of a match. */
  function SentToken(t: HuffTree, k: Token): (s: seq<bool>)
    requires WellToken(k)
    ensures |s| == |TokenBits(FBB, t, k)|
  {
    var p := CodeIn(t, k);
    Code(CodeWord(p), |p|) + (if k.Match? then FBB.place(k.pos) else [])
  }

  ghost function SentBits(ks: seq<Token>): (s: seq<bool>)
    requires WellTokens(ks)
    ensures |s| == |BitsOfTokens(ks)|
    decreases |ks|
  {
    if ks == [] then []
    else
      var init, last := ks[..|ks| - 1], ks[|ks| - 1];
      SentBits(init) + SentToken(TreeAfter(init), last)
  }

  /** Every code survives in its code word: no bit past the sixteenth is set. */
  ghost predicate AllCarried(ks: seq<Token>)
    requires WellTokens(ks)
    decreases |ks|
  {
    ks != [] ==>
      var init, last := ks[..|ks| - 1], ks[|ks| - 1];
      AllCarried(init) && Carried(CodeIn(TreeAfter(init), last))
  }

  lemma SentExactToken(t: HuffTree, k: Token)
    requires WellToken(k)
    ensures SentToken(t, k) == TokenBits(FBB, t, k) <==> Carried(CodeIn(t, k))
  {
    var p := CodeIn(t, k);
    CodeWordExact(p);
    assert SentToken(t, k)[..|p|] == Code(CodeWord(p), |p|);
    assert TokenBits(FBB, t, k)[..|p|] == p;
  }

  /** What is sent is what the tokens mean exactly when every code survives. */
  lemma {:induction false} SentExact(ks: seq<Token>)
    requires WellTokens(ks)
    ensures SentBits(ks) == BitsOfTokens(ks) <==> AllCarried(ks)
    decreases |ks|
  {
    if ks == [] {
    } else {
      var init, last := ks[..|ks| - 1], ks[|ks| - 1];
      SentExact(init);
      SentExactToken(TreeAfter(init), last);
      SplitEqual(SentBits(init), BitsOfTokens(init), SentToken(TreeAfter(init), last),
                 TokenBits(FBB, TreeAfter(init), last));
    }
  }

  lemma SplitEqual(a: seq<bool>, b: seq<bool>, x: seq<bool>, y: seq<bool>)
    requires |a| == |b|
    ensures a + x == b + y <==> a == b && x == y
  {
    assert (a + x)[..|a|] == a && (a + x)[|a|..] == x;
    assert (b + y)[..|b|] == b && (b + y)[|b|..] == y;
  }

  // ---------- room in the buffer ----------

  function LeftBehind(n: nat, t: HuffTree, k: Token): nat
    requires WellToken(k)
  {
    var l := Left(n, |CodeIn(t, k)|);
    if k.Match? then Left(Left(l, PositionCode.PLen(k.pos / 64)), 6) else l
  }

  /** How many bits wait in the buffer behind the tokens. */
  ghost function Waiting(ks: seq<Token>): nat
    requires WellTokens(ks)
    decreases |ks|
  {
    if ks == [] then 0
    else
      var init, last := ks[..|ks| - 1], ks[|ks| - 1];
      LeftBehind(Waiting(init), TreeAfter(init), last)
  }

  /** Buffer and code together never hold more than the 32 bits `Putcode` can shift. */
  ghost predicate Roomy(ks: seq<Token>)
    requires WellTokens(ks)
    decreases |ks|
  {
    ks != [] ==>
      var init, last := ks[..|ks| - 1], ks[|ks| - 1];
      Roomy(init) && Waiting(init) + |CodeIn(TreeAfter(init), last)| <= 32
  }

  /** And what waits at the end is no more than the one byte `EncodeEnd` writes. */
  ghost predicate Flushed(ks: seq<Token>)
    requires WellTokens(ks)
  {
    Roomy(ks) && Waiting(ks) <= 8
  }

  /** Everything the tokens mean reaches the file. */
  ghost predicate AllCodesFit(ks: seq<Token>)
    requires WellTokens(ks)
  {
    Flushed(ks) && AllCarried(ks)
  }

  lemma OneMore(ks: seq<Token>, k: Token)
    requires WellTokens(ks) && WellToken(k)
    ensures WellTokens(ks + [k])
    ensures TreeAfter(ks + [k]) == FBB.next(TreeAfter(ks), Symbol(k))
    ensures BitsOfTokens(ks + [k]) == BitsOfTokens(ks) + TokenBits(FBB, TreeAfter(ks), k)
    ensures SentBits(ks + [k]) == SentBits(ks) + SentToken(TreeAfter(ks), k)
    ensures AllCarried(ks + [k]) <==> AllCarried(ks) && Carried(CodeIn(TreeAfter(ks), k))
    ensures Waiting(ks + [k]) == LeftBehind(Waiting(ks), TreeAfter(ks), k)
    ensures Roomy(ks + [k]) <==> Roomy(ks) && Waiting(ks) + |CodeIn(TreeAfter(ks), k)| <= 32
  {
    assert (ks + [k])[..|ks|] == ks;
  }

  class Writer {
    const coder: Coder
    const sink: BitSink
    ghost var tokens: seq<Token>

    ghost predicate Valid()
      reads this, coder.freq, coder.prnt, coder.fils, sink, sink.file
    {
      && coder.Sized() && sink.Valid() && WellTokens(tokens)
      && coder.Model() == TreeAfter(tokens)
      && (Roomy(tokens) ==> sink.Pending(16) && sink.putlen == Waiting(tokens) && sink.Written() == SentBits(tokens))
    }

    constructor (sink: BitSink)
      requires sink.Valid() && sink.Pending(16) && sink.putlen == 0 && sink.Written() == []
      ensures Valid() && this.sink == sink && tokens == []
      ensures fresh(coder) && fresh(coder.freq) && fresh(coder.prnt) && fresh(coder.fils)
    {
      this.sink := sink;
      coder := new Coder();
      tokens := [];
      new;
      coder.StartHuff();
    }

    /** Code one token; the record `tokens` follows. */
    method Put(k: Token)
      requires Valid() && WellToken(k)
      modifies this, coder.freq, coder.prnt, coder.fils, sink, sink.file
      ensures Valid() && tokens == old(tokens) + [k]
    {
      hide Roomy, Waiting, SentBits, SentToken, LeftBehind, AllCarried, TreeAfter, Updated;
      hide HuffmanTables.Valid, BitSink.Valid, BitSink.Pending, BitSink.Written;
      OneMore(tokens, k);
      PutToken(coder, sink, k);
      tokens := tokens + [k];
    }
  }

  /** The two calls that code a token: its symbol, and the position of a match. */
  method PutToken(coder: Coder, sink: BitSink, k: Token)
    requires coder.Sized() && sink.Valid() && HuffmanTables.Valid(coder.Model()) && WellToken(k)
    modifies coder.freq, coder.prnt, coder.fils, sink, sink.file
    ensures sink.Valid() && coder.Model() == FBB.next(old(coder.Model()), Symbol(k))
    ensures sink.putlen == LeftBehind(old(sink.putlen), old(coder.Model()), k)
    ensures old(sink.Pending(16)) && old(sink.putlen) + |CodeIn(old(coder.Model()), k)| <= 32 ==>
      sink.Pending(16) && sink.Written() == old(sink.Written()) + SentToken(old(coder.Model()), k)
  {
    hide HuffmanTables.Valid, Updated, BitSink.Valid;
    ghost var written := if sink.Pending(16) then sink.Written() else [];
    ghost var code := CodeIn(coder.Model(), k);
    coder.EncodeChar(Symbol(k), sink);
    if k.Match? {
      EncodePosition(k.pos, sink);
      Assoc(written, Code(CodeWord(code), |code|), FBB.place(k.pos));
    }
  }
}
