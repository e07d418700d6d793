/** The circular buffer and the trees as a view of the line of text: which slot holds which
    byte, which positions are registered, and why keys never change under a live node. */
module WindowModel {
  import opened Bytes
  import opened SearchTree
  import opened Forest
  import opened MatchFinder
  import opened Lzss
  import opened Stream

  /** The last position up to `r` that lives in slot `p`. */
  function At(r: nat, p: Pos): int {
    r - (r - p) % N
  }

  lemma AtFacts(r: nat, p: Pos)
    ensures At(r, p) % N == p && r - N < At(r, p) <= r
    ensures (r - p) % N == (r % N - p) % N
  {
    var q, m := (r - p) / N, (r - p) % N;
    assert r - p == N * q + m;
    Remainder(At(r, p), q, p);
    Remainder(r % N - p, q - r / N, m);
  }

  lemma Remainder(a: int, q: int, m: nat)
    requires a == N * q + m && m < N
    ensures a % N == m
  {}

  lemma AtUnique(r: nat, p: Pos, x: nat)
    requires r - N < x <= r && x % N == p
    ensures At(r, p) == x
  {}

  lemma AtNext(r: nat, p: Pos)
    ensures At(r + 1, p) == if p == (r + 1) % N then r + 1 else At(r, p)
  {
    var q, m := (r - p) / N, (r - p) % N;
    assert r - p == N * q + m;
    if m == N - 1 {
      Remainder(r + 1, q + 1, p);
      Remainder(r + 1 - p, q + 1, 0);
    } else {
      Remainder(r + 1 - p, q, m + 1);
    }
  }

  lemma DistanceAt(r: nat, p: Pos)
    ensures Distance(r % N, p) == r - At(r, p)
  {
    AtFacts(r, p);
  }

  /** The buffer holds the line from `lo` up to `e`; the copy behind the window repeats its
      start once the line has run past the end of the buffer. */
  ghost predicate Holds(text: Text, w: seq<byte>, lo: int, e: nat) {
    && e <= |w|
    && forall x: nat :: lo <= x < e ==>
         && text[x % N] == w[x]
         && (x >= N && x % N < F - 1 ==> text[x % N + N] == w[x])
  }

  /** A key read from the buffer is the line's, as far as the buffer holds it. */
  lemma KeyIs(text: Text, w: seq<byte>, lo: int, e: nat, p: nat, j: nat)
    requires Holds(text, w, lo, e) && lo <= p && p + j < e && j < F
    ensures KeyAt(text, p % N, j) == w[p + j]
  {
    var x := p + j;
    if p % N + j < N {
      assert x % N == p % N + j;
    } else {
      assert x % N == p % N + j - N;
    }
  }

  /** Registered positions lie in the last N - F bytes, none before the first inserted. */
  ghost predicate Recent(k: Links, r: nat, reach: nat)
    requires Sized(k)
  {
    forall p: Pos :: Registered(k, p) ==> At(r, p) >= START - F && At(r, p) >= r - reach
  }

  /** Every text position in reach, up to `hi`, is registered, or a later one with the same key is. */
  ghost predicate Covered(text: Text, k: Links, r: nat, reach: nat, hi: int)
    requires Sized(k)
  {
    forall x: nat :: START <= x && r - reach <= x <= hi ==> Stands(text, k, r, x)
  }

  ghost predicate Stands(text: Text, k: Links, r: nat, x: nat)
    requires Sized(k)
  {
    exists q: Pos :: Registered(k, q) && At(r, q) >= x && Lcp(text, x % N, q) == F
  }

  // ---------- forgetting the oldest position ----------

  /** Slot of the position about to be overwritten. */
  lemma OldestSlot(r: nat)
    requires r >= START
    ensures At(r, (r + F) % N) == r - START
  {
    AtUnique(r, (r + F) % N, r - START);
  }

  /** Deleting the oldest position shortens the reach by one. */
  lemma DropOldest(text: Text, k: Links, m: Links, r: nat)
    requires r >= START && Sized(k) && Sized(m)
    requires Recent(k, r, START) && Covered(text, k, r, START, r)
    requires forall n: Pos :: Registered(m, n) <==> n != (r + F) % N && Registered(k, n)
    ensures Recent(m, r, START - 1) && Covered(text, m, r, START - 1, r)
  {
    var s: Pos := (r + F) % N;
    OldestSlot(r);
    forall p: Pos | Registered(m, p) ensures At(r, p) >= START - F && At(r, p) >= r - (START - 1) {
      if At(r, p) == r - START {
        AtFacts(r, p);
        AtFacts(r, s);
      }
    }
    forall x: nat | START <= x && r - (START - 1) <= x <= r ensures Stands(text, m, r, x) {
      assert Stands(text, k, r, x);
      var q: Pos :| Registered(k, q) && At(r, q) >= x && Lcp(text, x % N, q) == F;
      assert q != s;
      assert Registered(m, q);
    }
  }

  // ---------- storing the next byte ----------

  /** The buffer after `c` has been stored in slot `s`, and in the copy if it has one. */
  function Stored(text: Text, s: Pos, c: byte): Text {
    if s < F - 1 then text[s := c][s + N := c] else text[s := c]
  }

  ghost predicate SameKey(text: Text, text2: Text, p: Pos) {
    forall j :: 0 <= j < F ==> KeyAt(text, p, j) == KeyAt(text2, p, j)
  }

  /** Keys of positions after the oldest one do not meet the slot being stored. */
  lemma StoreKeepsKey(text: Text, r: nat, x: nat, c: byte)
    requires r >= START && r - START < x <= r
    ensures SameKey(text, Stored(text, (r + F) % N, c), x % N)
  {
    forall j | 0 <= j < F
      ensures KeyAt(text, x % N, j) == KeyAt(Stored(text, (r + F) % N, c), x % N, j)
    {
      SlotMissed(r, x, j);
    }
  }

  lemma SlotMissed(r: nat, x: nat, j: nat)
    requires r >= START && r - START < x <= r && j < F
    ensures x % N + j != (r + F) % N && x % N + j != (r + F) % N + N
  {}

  /** Storing the next byte of the line extends what the buffer holds. */
  lemma StoreHolds(text: Text, w: seq<byte>, r: nat)
    requires r >= START && r + F < |w| && Holds(text, w, r - START, r + F)
    ensures Holds(Stored(text, (r + F) % N, w[r + F]), w, r - START + 1, r + F + 1)
  {
    var s: Pos := (r + F) % N;
    var text2 := Stored(text, s, w[r + F]);
    forall x: nat | r - START + 1 <= x < r + F + 1
      ensures text2[x % N] == w[x] && (x >= N && x % N < F - 1 ==> text2[x % N + N] == w[x])
    {
      if x < r + F {
        assert x % N != s by { assert (r + F) - x < N; }
      }
    }
  }

  /** Trees depend on the buffer only through the keys of registered positions. */
  lemma {:induction false} SortedKeys(t: Tree, text: Text, text2: Text)
    requires Sorted(t, text) && forall p :: p in Elems(t) ==> SameKey(text, text2, p)
    ensures Sorted(t, text2)
  {
    match t
    case Nil =>
    case Node(l, p, r) =>
      assert p in Elems(t);
      SortedKeys(l, text, text2);
      SortedKeys(r, text, text2);
      forall a | a in Elems(l) ensures Less(text2, a, p) { assert a in Elems(t); KeysLcp(text, text2, a, p); }
      forall a | a in Elems(r) ensures Less(text2, p, a) { assert a in Elems(t); KeysLcp(text, text2, p, a); }
  }

  lemma KeysLcp(text: Text, text2: Text, a: Pos, z: Pos)
    requires SameKey(text, text2, a) && SameKey(text, text2, z)
    ensures Lcp(text2, a, z) == Lcp(text, a, z)
    ensures Less(text, a, z) <==> Less(text2, a, z)
  {
    LcpIs(text2, a, z, Lcp(text, a, z));
  }

  lemma KeysForest(f: seq<Tree>, k: Links, text: Text, text2: Text)
    requires ForestOk(f, k, text) && forall p: Pos :: Registered(k, p) ==> SameKey(text, text2, p)
    ensures ForestOk(f, k, text2)
  {
    forall b | 0 <= b < 256 ensures TreeOk(f[b], b, k, text2) {
      assert TreeOk(f[b], b, k, text);
      LinkedRegistered(f[b], k.rson[Root(b)], Root(b), k);
      SortedKeys(f[b], text, text2);
    }
  }

  /** Storing the next byte disturbs neither the trees nor what is covered. */
  lemma StoreKeeps(f: seq<Tree>, k: Links, text: Text, r: nat, c: byte)
    requires r >= START && ForestOk(f, k, text)
    requires Recent(k, r, START - 1) && Covered(text, k, r, START - 1, r)
    ensures ForestOk(f, k, Stored(text, (r + F) % N, c))
    ensures Covered(Stored(text, (r + F) % N, c), k, r, START - 1, r)
  {
    var text2 := Stored(text, (r + F) % N, c);
    forall p: Pos | Registered(k, p) ensures SameKey(text, text2, p) {
      AtFacts(r, p);
      StoreKeepsKey(text, r, At(r, p), c);
    }
    KeysForest(f, k, text, text2);
    forall x: nat | START <= x && r - (START - 1) <= x <= r ensures Stands(text2, k, r, x) {
      assert Stands(text, k, r, x);
      var q: Pos :| Registered(k, q) && At(r, q) >= x && Lcp(text, x % N, q) == F;
      StoreKeepsKey(text, r, x, c);
      KeysLcp(text, text2, x % N, q);
    }
  }

  // ---------- moving on and inserting ----------

  lemma FreeSlot(r: nat)
    ensures At(r, (r + 1) % N) == r + 1 - N
  {}

  /** Moving on by one: the slot of the new position is free. */
  lemma MoveOn(text: Text, k: Links, r: nat)
    requires r >= START && Sized(k) && Recent(k, r, START - 1) && Covered(text, k, r, START - 1, r)
    ensures !Registered(k, (r + 1) % N)
    ensures Recent(k, r + 1, START) && Covered(text, k, r + 1, START, r)
  {
    FreeSlot(r);
    forall p: Pos | Registered(k, p) ensures At(r + 1, p) == At(r, p) { AtNext(r, p); }
    var r1 := r + 1;
    forall x: nat | START <= x && r1 - START <= x <= r ensures Stands(text, k, r1, x) {
      assert Stands(text, k, r, x);
      var q: Pos :| Registered(k, q) && At(r, q) >= x && Lcp(text, x % N, q) == F;
      assert At(r + 1, q) == At(r, q);
    }
  }

  /** Inserting the new position covers it, and keeps covered what a twin of it covered. */
  lemma InsertCovers(text: Text, k: Links, m: Links, r: nat)
    requires r >= START && Sized(k) && Sized(m) && Recent(k, r, START) && Covered(text, k, r, START, r - 1)
    requires forall n: Pos :: Registered(m, n) <==>
      n == r % N || (Registered(k, n) && Lcp(text, r % N, n) < F)
    ensures Recent(m, r, START) && Covered(text, m, r, START, r)
  {
    var z: Pos := r % N;
    AtUnique(r, z, r);
    forall x: nat | START <= x && r - START <= x <= r ensures Stands(text, m, r, x) {
      if x < r {
        assert Stands(text, k, r, x);
        var q: Pos :| Registered(k, q) && At(r, q) >= x && Lcp(text, x % N, q) == F;
        if Registered(m, q) {
        } else {
          LcpSymmetric(text, z, q);
          LcpSymmetric(text, x % N, q);
          SameKeyLcp(text, q, x % N, z);
          assert Registered(m, z);
        }
      } else {
        LcpIs(text, z, z, F);
        assert Registered(m, z);
      }
    }
  }

  // ---------- what a reported match means ----------

  /** The token `Encode` makes of the match reported for position `r`, when `len` bytes are
      left in the lookahead. */
  function TokenFor(w: seq<byte>, r: nat, len: nat, matchLength: nat, matchPosition: nat): Token
    requires r < |w|
  {
    var m := if matchLength > len then len else matchLength;
    if m <= THRESHOLD then Token.Lit(w[r]) else Token.Match(matchPosition, m)
  }

  lemma AgreeLcp(text: Text, a: Pos, z: Pos, m: nat)
    requires m <= F && SearchTree.Agree(text, a, z, m)
    ensures Lcp(text, a, z) >= m
  {}

  /** Repeating text means agreeing keys. */
  lemma RepeatsAgree(text: Text, w: seq<byte>, r: nat, e: nat, p: nat, m: nat)
    requires r >= START && Holds(text, w, r - START, e) && r - START <= p && m <= F
    requires Repeats(w, p, r, m) && r + m <= e
    ensures Lcp(text, r % N, p % N) >= m
  {
    forall j | 0 <= j < m ensures KeyAt(text, r % N, j) == KeyAt(text, p % N, j) {
      KeyIs(text, w, r - START, e, r, j);
      KeyIs(text, w, r - START, e, p, j);
      assert w[r + j] == w[r + j - (r - p)];
    }
    AgreeLcp(text, r % N, p % N, m);
  }

  lemma TwinLcp(text: Text, r: Pos, p: Pos, q: Pos)
    requires Lcp(text, p, q) == F
    ensures Lcp(text, r, p) == Lcp(text, r, q)
  {
    assert forall j :: 0 <= j < F ==> KeyAt(text, p, j) == KeyAt(text, q, j);
    LcpIs(text, r, q, Lcp(text, r, p));
  }

  lemma TokenLongest(text: Text, k: Links, w: seq<byte>, r: nat, e: nat, ml: nat, mp: nat)
    requires Sized(k) && START <= r < e && Holds(text, w, r - START, e) && e <= r + F && (e == r + F || e == |w|)
    requires Covered(text, k, r, START, r - 1) && BestLive(text, k, r % N, ml, mp)
    ensures Longest(w, r, TokenFor(w, r, e - r, ml, mp))
  {
    var t := TokenFor(w, r, e - r, ml, mp);
    forall p: nat, m: nat | START <= p && r <= p + START && m <= F && Repeats(w, p, r, m)
      ensures m <= THRESHOLD || m <= Width(t)
    {
      if m > THRESHOLD {
        RepeatsAgree(text, w, r, e, p, m);
        assert Stands(text, k, r, p);
        var q: Pos :| Registered(k, q) && At(r, q) >= p && Lcp(text, p % N, q) == F;
        TwinLcp(text, r % N, p % N, q);
      }
    }
  }

  lemma TokenDescribes(text: Text, k: Links, w: seq<byte>, r: nat, e: nat, ml: nat, mp: nat)
    requires Sized(k) && START <= r < e && Holds(text, w, r - START, e) && e <= r + F
    requires Recent(k, r, START) && BestLive(text, k, r % N, ml, mp) && !Registered(k, r % N)
    ensures Describes(w, r, TokenFor(w, r, e - r, ml, mp))
  {
    hide Lcp, Less, Sized;
    var t := TokenFor(w, r, e - r, ml, mp);
    if t.Match? {
      var q: Pos :| Registered(k, q) && Lcp(text, r % N, q) == ml && Distance(r % N, q) == mp + 1;
      DistanceAt(r, q);
      AtFacts(r, q);
      var x := At(r, q);
      assert x == r - (mp + 1) && x >= START - F;
      forall j | r <= j < r + t.len ensures w[j] == w[j - (mp + 1)] {
        KeyIs(text, w, r - START, e, r, j - r);
        KeyIs(text, w, r - START, e, x, j - r);
        assert KeyAt(text, r % N, j - r) == KeyAt(text, q, j - r);
      }
    }
  }
}