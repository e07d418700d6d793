/** What the compressed bits mean: a list of tokens, read back by extending a history.
    Nothing here depends on how symbols are coded, only on each symbol's code being
    readable wherever it lies. */
module Lzss {
  import opened Bytes
  import opened SearchTree
  import opened BitIO

  const SYMBOLS: nat := 256 - THRESHOLD + F

  /** One step of the coder: a byte, or a copy of `len` bytes from `pos + 1` back. */
  datatype Token = Lit(b: byte) | Match(pos: nat, len: nat)

  ghost predicate WellToken(k: Token) {
    k.Match? ==> k.pos < N && THRESHOLD < k.len <= F
  }

  /** `EncodeChar`'s argument for a token. */
  function Symbol(k: Token): (s: nat)
    requires WellToken(k)
    ensures s < SYMBOLS
  {
    match k
    case Lit(b) => b
    case Match(_, len) => 255 - THRESHOLD + len
  }

  ghost predicate WellTokens(ks: seq<Token>) {
    forall i :: 0 <= i < |ks| ==> WellToken(ks[i])
  }

  // ---------- an adaptive code ----------

  /** The code of each symbol in a state, the state after coding it, the code of each match
      position, and how symbols and positions are read from a stream: the value, and the
      place behind it. */
  datatype AdaptiveCode<!T> = AdaptiveCode(
    code: (T, nat) -> seq<bool>,
    next: (T, nat) -> T,
    read: (T, seq<bool>, nat) -> (nat, nat),
    place: nat -> seq<bool>,
    readPlace: (seq<bool>, nat) -> (nat, nat))

  /** Reading inverts writing, wherever a code lies in a stream. */
  ghost predicate Readable<T(!new)>(c: AdaptiveCode<T>) {
    && (forall t: T, s: nat, bits: seq<bool>, n: nat {:trigger c.read(t, bits, n), c.code(t, s)} ::
          s < SYMBOLS && StartsAt(bits, n, c.code(t, s)) ==> c.read(t, bits, n) == (s, n + |c.code(t, s)|))
    && (forall p: nat, bits: seq<bool>, n: nat {:trigger c.readPlace(bits, n), c.place(p)} ::
          p < N && StartsAt(bits, n, c.place(p)) ==> c.readPlace(bits, n) == (p, n + |c.place(p)|))
  }

  /** Every symbol costs at least a bit, every position at least nine. */
  ghost predicate Costly<T(!new)>(c: AdaptiveCode<T>) {
    && (forall t: T, s: nat {:trigger c.code(t, s)} :: s < SYMBOLS ==> |c.code(t, s)| >= 1)
    && (forall p: nat {:trigger c.place(p)} :: p < N ==> |c.place(p)| >= 9)
  }

  ghost function TokenBits<T>(c: AdaptiveCode<T>, t: T, k: Token): seq<bool>
    requires WellToken(k)
  {
    c.code(t, Symbol(k)) + (if k.Match? then c.place(k.pos) else [])
  }

  /** The state after coding the tokens. */
  ghost function StateAfter<T>(c: AdaptiveCode<T>, t: T, ks: seq<Token>): T
    requires WellTokens(ks)
    decreases |ks|
  {
    if ks == [] then t
    else c.next(StateAfter(c, t, ks[..|ks| - 1]), Symbol(ks[|ks| - 1]))
  }

  /** The bits the coder writes. */
  ghost function EncodedBits<T>(c: AdaptiveCode<T>, t: T, ks: seq<Token>): seq<bool>
    requires WellTokens(ks)
    decreases |ks|
  {
    if ks == [] then []
    else
      var init, last := ks[..|ks| - 1], ks[|ks| - 1];
      EncodedBits(c, t, init) + TokenBits(c, StateAfter(c, t, init), last)
  }

  // ---------- histories ----------

  /** Extend a history by `k` bytes, each repeating the one `dist` back. */
  function CopyBack(h: seq<byte>, dist: nat, k: nat): (r: seq<byte>)
    requires 1 <= dist <= |h|
    ensures |r| == |h| + k && h <= r
    decreases k
  {
    if k == 0 then h else CopyBack(h + [h[|h| - dist]], dist, k - 1)
  }

  /** The decoder's history always holds a full window. */
  function Expand(h: seq<byte>, k: Token): (r: seq<byte>)
    requires |h| >= N
    ensures h <= r && |r| == |h| + (if k.Match? then k.len else 1)
  {
    match k
    case Lit(b) => h + [b]
    case Match(pos, len) => CopyBack(h, pos % N + 1, len)
  }

  ghost function ExpandAll(h: seq<byte>, ks: seq<Token>): (r: seq<byte>)
    requires |h| >= N
    ensures h <= r
    decreases |ks|
  {
    if ks == [] then h else Expand(ExpandAll(h, ks[..|ks| - 1]), ks[|ks| - 1])
  }

  /** `Decode`'s loop on the bits from `n` on, until the history is `goal` bytes long: the
      history and the position reached. */
  ghost function DecodeLoop<T>(c: AdaptiveCode<T>, t: T, bits: seq<bool>, n: nat, h: seq<byte>, goal: nat):
      (r: (seq<byte>, nat))
    requires |h| >= N
    ensures h <= r.0 && goal <= |r.0|
    decreases goal - |h|
  {
    if |h| >= goal then (h, n)
    else
      var (s, n1) := c.read(t, bits, n);
      if s < 256 then
        DecodeLoop(c, c.next(t, s), bits, n1, h + [s], goal)
      else
        var (pos, n2) := c.readPlace(bits, n1);
        DecodeLoop(c, c.next(t, s), bits, n2, CopyBack(h, pos % N + 1, s - 255 + THRESHOLD), goal)
  }

  lemma StartsAtConcat(bits: seq<bool>, n: nat, a: seq<bool>, b: seq<bool>)
    requires StartsAt(bits, n, a + b)
    ensures StartsAt(bits, n, a) && StartsAt(bits, n + |a|, b)
  {
    assert bits[n..n + |a|] == bits[n..n + |a + b|][..|a|];
    assert bits[n + |a|..n + |a| + |b|] == bits[n..n + |a + b|][|a|..];
  }

  /** One token read back: from the bits of a token the loop takes exactly that token. */
  lemma DecodeToken<T(!new)>(c: AdaptiveCode<T>, t: T, k: Token, bits: seq<bool>, n: nat, h: seq<byte>, goal: nat)
    requires Readable(c) && WellToken(k) && N <= |h| < goal && StartsAt(bits, n, TokenBits(c, t, k))
    ensures DecodeLoop(c, t, bits, n, h, goal) ==
            DecodeLoop(c, c.next(t, Symbol(k)), bits, n + |TokenBits(c, t, k)|, Expand(h, k), goal)
  {
    var code := c.code(t, Symbol(k));
    var rest := if k.Match? then c.place(k.pos) else [];
    StartsAtConcat(bits, n, code, rest);
    assert c.read(t, bits, n) == (Symbol(k), n + |code|);
    if k.Match? {
      assert c.readPlace(bits, n + |code|) == (k.pos, n + |TokenBits(c, t, k)|);
    }
  }

  lemma NoTokens<T>(c: AdaptiveCode<T>, t: T, h: seq<byte>)
    requires |h| >= N
    ensures WellTokens([]) && StateAfter(c, t, []) == t && EncodedBits(c, t, []) == [] && ExpandAll(h, []) == h
  {}

  lemma LastToken<T>(c: AdaptiveCode<T>, t: T, ks: seq<Token>, h: seq<byte>)
    requires WellTokens(ks) && ks != [] && |h| >= N
    ensures var init, last := ks[..|ks| - 1], ks[|ks| - 1];
            && WellTokens(init) && WellToken(last)
            && StateAfter(c, t, ks) == c.next(StateAfter(c, t, init), Symbol(last))
            && EncodedBits(c, t, ks) == EncodedBits(c, t, init) + TokenBits(c, StateAfter(c, t, init), last)
            && ExpandAll(h, ks) == Expand(ExpandAll(h, init), last)
  {}

  /** Decoding reads back the tokens: as many as are still short of the goal. */
  lemma {:induction false} DecodeTokens<T(!new)>(c: AdaptiveCode<T>, t: T, ks: seq<Token>, bits: seq<bool>, n: nat,
                                                 h: seq<byte>, goal: nat)
    requires Readable(c) && WellTokens(ks) && |h| >= N && StartsAt(bits, n, EncodedBits(c, t, ks))
    requires |ExpandAll(h, ks)| <= goal
    ensures DecodeLoop(c, t, bits, n, h, goal) ==
            DecodeLoop(c, StateAfter(c, t, ks), bits, n + |EncodedBits(c, t, ks)|, ExpandAll(h, ks), goal)
    decreases |ks|
  {
    hide DecodeLoop, TokenBits, Expand, Readable, StartsAt, EncodedBits, StateAfter, ExpandAll, WellTokens;
    if ks == [] {
      NoTokens(c, t, h);
    } else {
      var init, last := ks[..|ks| - 1], ks[|ks| - 1];
      LastToken(c, t, ks, h);
      var u, first := StateAfter(c, t, init), EncodedBits(c, t, init);
      StartsAtConcat(bits, n, first, TokenBits(c, u, last));
      DecodeTokens(c, t, init, bits, n, h, goal);
      DecodeToken(c, u, last, bits, n + |first|, ExpandAll(h, init), goal);
    }
  }

  /** A symbol costs at most 21 bits, a position at most 14. */
  ghost predicate Cheap<T(!new)>(c: AdaptiveCode<T>) {
    && (forall t: T, s: nat {:trigger c.code(t, s)} :: s < SYMBOLS ==> |c.code(t, s)| <= 21)
    && (forall p: nat {:trigger c.place(p)} :: p < N ==> |c.place(p)| <= 14)
  }

  /** A token costs at most 35 bits. */
  lemma {:induction false} BitsPerToken<T(!new)>(c: AdaptiveCode<T>, t: T, ks: seq<Token>)
    requires WellTokens(ks) && Cheap(c)
    ensures |EncodedBits(c, t, ks)| <= 35 * |ks|
    decreases |ks|
  {
    if ks == [] {
    } else {
      var init, last := ks[..|ks| - 1], ks[|ks| - 1];
      assert WellToken(last);
      BitsPerToken(c, t, init);
    }
  }

  /** The decoder's loop inverts the coder: given the bits of the tokens, and whatever
      follows them, it rebuilds the history and stops right behind them. */
  lemma DecodeInvertsEncode<T(!new)>(c: AdaptiveCode<T>, t: T, ks: seq<Token>, bits: seq<bool>, n: nat, h: seq<byte>)
    requires Readable(c) && WellTokens(ks) && |h| >= N && StartsAt(bits, n, EncodedBits(c, t, ks))
    ensures DecodeLoop(c, t, bits, n, h, |ExpandAll(h, ks)|) ==
            (ExpandAll(h, ks), n + |EncodedBits(c, t, ks)|)
  {
    DecodeTokens(c, t, ks, bits, n, h, |ExpandAll(h, ks)|);
  }

  // ---------- the tokens read ----------

  /** Tokens read from a stream, and the state and the place behind them. */
  datatype Reading<T> = Reading(tokens: seq<Token>, state: T, at: nat)

  ghost function ReadNext<T>(c: AdaptiveCode<T>, r: Reading<T>, bits: seq<bool>): Reading<T> {
    var (s, n) := c.read(r.state, bits, r.at);
    if s < 256 then Reading(r.tokens + [Lit(s)], c.next(r.state, s), n)
    else
      var (pos, m) := c.readPlace(bits, n);
      Reading(r.tokens + [Match(pos, s - 255 + THRESHOLD)], c.next(r.state, s), m)
  }

  ghost function ReadTokens<T>(c: AdaptiveCode<T>, t: T, bits: seq<bool>, count: nat): Reading<T> {
    if count == 0 then Reading([], t, 0) else ReadNext(c, ReadTokens(c, t, bits, count - 1), bits)
  }

  lemma ReadNextExtends<T>(c: AdaptiveCode<T>, r: Reading<T>, bits: seq<bool>)
    ensures |ReadNext(c, r, bits).tokens| == |r.tokens| + 1
    ensures ReadNext(c, r, bits).tokens[..|r.tokens|] == r.tokens
    ensures var k := ReadNext(c, r, bits).tokens[|r.tokens|]; k.Match? ==> k.len > THRESHOLD
  {}

  lemma ReadNextIs<T>(c: AdaptiveCode<T>, r: Reading<T>, bits: seq<bool>, k: Token, n: nat, m: nat, right: bool)
    requires WellToken(k) && (c.read(r.state, bits, r.at).0 == Symbol(k) <==> right)
    requires right ==> c.read(r.state, bits, r.at) == (Symbol(k), n)
                       && if k.Match? then c.readPlace(bits, n) == (k.pos, m) else m == n
    ensures right ==> ReadNext(c, r, bits) == Reading(r.tokens + [k], c.next(r.state, Symbol(k)), m)
    ensures !right ==> ReadNext(c, r, bits).tokens[|r.tokens|] != k
  {}

  lemma LoopReadsNext<T>(c: AdaptiveCode<T>, r: Reading<T>, bits: seq<bool>, h: seq<byte>, goal: nat)
    requires N <= |h| < goal
    ensures var s := ReadNext(c, r, bits);
            DecodeLoop(c, r.state, bits, r.at, h, goal) ==
            DecodeLoop(c, s.state, bits, s.at, Expand(h, s.tokens[|r.tokens|]), goal)
  {}

  /** The tokens read are what the decoder's loop expands. */
  lemma {:induction false} LoopReadsTokens<T>(c: AdaptiveCode<T>, t: T, bits: seq<bool>, count: nat,
                                               h: seq<byte>, goal: nat)
    requires |h| >= N && |ExpandAll(h, ReadTokens(c, t, bits, count).tokens)| <= goal
    ensures var r := ReadTokens(c, t, bits, count);
            DecodeLoop(c, t, bits, 0, h, goal) == DecodeLoop(c, r.state, bits, r.at, ExpandAll(h, r.tokens), goal)
  {
    hide DecodeLoop, ReadNext;
    if count == 0 {
    } else {
      var r := ReadTokens(c, t, bits, count - 1);
      ReadNextExtends(c, r, bits);
      LoopReadsTokens(c, t, bits, count - 1, h, goal);
      LoopReadsNext(c, r, bits, ExpandAll(h, r.tokens), goal);
    }
  }
}
