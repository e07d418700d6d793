/** The text as one line: the blank window the coder starts from, then everything `take`
    delivers. Index `x` of the line lives in slot `x % N` of the circular buffer. */
module Stream {
  import opened Bytes
  import opened SearchTree
  import opened Lzss

  const BLANK: byte := 32
  const START: nat := N - F   // where the text begins

  /** The line for a text. */
  function Line(text: seq<byte>): (w: seq<byte>)
    ensures |w| == START + |text|
  {
    seq(START, _ => BLANK) + text
  }

  function Width(k: Token): nat {
    if k.Match? then k.len else 1
  }

  /** The token stands for the bytes of the line from `r` on. */
  ghost predicate Describes(w: seq<byte>, r: nat, k: Token) {
    && WellToken(k) && r + Width(k) <= |w|
    && match k
       case Lit(b) => w[r] == b
       case Match(pos, len) => pos < r && forall j :: r <= j < r + len ==> w[j] == w[j - (pos + 1)]
  }

  /** `len` bytes repeat at `p` and `r`. */
  ghost predicate Repeats(w: seq<byte>, p: nat, r: nat, len: nat) {
    p < r && r + len <= |w| && forall j :: r <= j < r + len ==> w[j] == w[j - (r - p)]
  }

  /** No text position of the last N - F bytes offers a longer match than the token takes,
      unless too short to be worth it. */
  ghost predicate Longest(w: seq<byte>, r: nat, k: Token) {
    forall p: nat, len: nat :: START <= p && r <= p + START && len <= F && Repeats(w, p, r, len) ==>
      len <= THRESHOLD || len <= Width(k)
  }

  /** The tokens stand for the text up to index `r`, each the longest match there. */
  ghost predicate Covers(w: seq<byte>, ks: seq<Token>, r: nat)
    decreases |ks|
  {
    if ks == [] then r == START
    else
      var init, last := ks[..|ks| - 1], ks[|ks| - 1];
      && START + Width(last) <= r
      && Describes(w, r - Width(last), last) && Longest(w, r - Width(last), last)
      && Covers(w, init, r - Width(last))
  }

  lemma CoversNothing(w: seq<byte>)
    ensures Covers(w, [], START)
  {}

  lemma CoversSnoc(w: seq<byte>, ks: seq<Token>, r: nat, k: Token)
    requires Covers(w, ks, r) && START <= r && Describes(w, r, k) && Longest(w, r, k)
    ensures Covers(w, ks + [k], r + Width(k)) && Width(k) >= 1
  {
    assert (ks + [k])[..|ks|] == ks;
  }

  lemma {:induction false} CoversWell(w: seq<byte>, ks: seq<Token>, r: nat)
    requires Covers(w, ks, r)
    ensures WellTokens(ks) && START <= r && (ks == [] || r <= |w|)
    decreases |ks|
  {
    if ks == [] {
    } else {
      var init, last := ks[..|ks| - 1], ks[|ks| - 1];
      CoversWell(w, init, r - Width(last));
      assert ks == init + [last];
    }
  }

  lemma CopyByte(w: seq<byte>, q: nat, dist: nat, g: seq<byte>)
    requires q < |w| && 1 <= dist <= q && w[q] == w[q - dist]
    ensures var h := g + w[..q]; h + [h[|h| - dist]] == g + w[..q + 1]
  {}

  /** Copying from behind repeats the line, whatever lies in front of it. */
  lemma {:induction false} CopyOne(w: seq<byte>, q: nat, dist: nat, len: nat, g: seq<byte>)
    requires q + len <= |w| && 1 <= dist <= q
    requires forall j :: q <= j < q + len ==> w[j] == w[j - dist]
    ensures CopyBack(g + w[..q], dist, len) == g + w[..q + len]
    decreases len
  {
    if len == 0 {
    } else {
      CopyByte(w, q, dist, g);
      CopyOne(w, q + 1, dist, len - 1, g);
    }
  }

  lemma ExpandOne(w: seq<byte>, q: nat, k: Token, g: seq<byte>)
    requires Describes(w, q, k) && |g| == F && START <= q
    ensures Expand(g + w[..q], k) == g + w[..q + Width(k)]
  {
    match k
    case Lit(b) => assert g + w[..q] + [b] == g + w[..q + 1];
    case Match(pos, len) =>
      assert pos % N == pos;
      CopyOne(w, q, pos + 1, len, g);
  }

  /** A token list without its last token. */
  lemma CoversInit(w: seq<byte>, ks: seq<Token>, r: nat)
    requires Covers(w, ks, r) && ks != []
    ensures var init, last := ks[..|ks| - 1], ks[|ks| - 1]; var q := r - Width(last);
            START <= q && Covers(w, init, q) && Describes(w, q, last)
  {
    CoversWell(w, ks[..|ks| - 1], r - Width(ks[|ks| - 1]));
  }

  /** Whatever bytes the window held before, the tokens rebuild the line from its blank
      start: no match reaches back beyond it. */
  lemma {:induction false} Rebuilds(w: seq<byte>, ks: seq<Token>, r: nat, h: seq<byte>, g: seq<byte>)
    requires Covers(w, ks, r) && |g| == F && START <= |w| && h == g + w[..START]
    ensures START <= r <= |w| && ExpandAll(h, ks) == g + w[..r]
    decreases |ks|
  {
    hide CopyBack, Expand, Describes;
    if ks == [] {
    } else {
      var init, last := ks[..|ks| - 1], ks[|ks| - 1];
      CoversInit(w, ks, r);
      Rebuilds(w, init, r - Width(last), h, g);
      ExpandOne(w, r - Width(last), last, g);
    }
  }

  // ---------- sizes ----------

  /** A byte of text costs at most 21 bits. */
  lemma {:induction false} BitsPerText<T(!new)>(c: AdaptiveCode<T>, t: T, w: seq<byte>, ks: seq<Token>, r: nat)
    requires Cheap(c) && Covers(w, ks, r)
    ensures WellTokens(ks) && START <= r && |EncodedBits(c, t, ks)| <= 21 * (r - START)
    decreases |ks|
  {
    CoversWell(w, ks, r);
    if ks == [] {
    } else {
      var init, last := ks[..|ks| - 1], ks[|ks| - 1];
      BitsPerText(c, t, w, init, r - Width(last));
      assert WellToken(last);
      assert |TokenBits(c, StateAfter(c, t, init), last)| <= 21 * Width(last);
    }
  }

  /** A match covers at most 60 bytes and costs at least 10 bits; a byte costs at least one. */
  lemma {:induction false} TextPerBits<T(!new)>(c: AdaptiveCode<T>, t: T, w: seq<byte>, ks: seq<Token>, r: nat)
    requires Costly(c) && Covers(w, ks, r)
    ensures WellTokens(ks) && r - START <= 6 * |EncodedBits(c, t, ks)|
    decreases |ks|
  {
    CoversWell(w, ks, r);
    if ks == [] {
    } else {
      var init, last := ks[..|ks| - 1], ks[|ks| - 1];
      TextPerBits(c, t, w, init, r - Width(last));
      assert WellToken(last);
      assert |TokenBits(c, StateAfter(c, t, init), last)| >= (if last.Match? then 10 else 1);
    }
  }
}
