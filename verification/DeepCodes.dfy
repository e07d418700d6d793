/** Codes longer than the sixteen bits of `EncodeChar`'s word do occur, and lose set bits:
    what the weights of a stream force upon every tree that can stand for them. */
module DeepCodes {
  import opened HuffmanTables
  import opened HuffmanRebuild
  import opened HuffmanCode
  import opened Lzss
  import opened FbbCode
  import opened TokenWriter
  import opened RoundTrip
  import PositionCode

  // ---------- heavy symbols, one below the other ----------

  const HEAVY: nat := 8

  /** Symbols 1 to 8 are heavy, each more than two thirds of all lighter ones together. */
  function HeavyWeight(k: nat): (w: nat)
    requires 1 <= k <= HEAVY
    ensures w >= 2
  {
    [205, 341, 569, 948, 1580, 2633, 4389, 7315][k - 1]
  }

  function WeightOf(s: nat): (w: nat)
    ensures w >= 1
  {
    if 1 <= s <= HEAVY then HeavyWeight(s) else 1
  }

  /** The weight of all symbols but the heavy ones behind `k`. */
  function Total(k: nat): nat
    requires k <= HEAVY
  {
    if k == 0 then N_CHAR - HEAVY else Total(k - 1) + HeavyWeight(k)
  }

  lemma TotalIs()
    ensures Total(HEAVY) == 18286
  {
    assert Total(4) == 2369;
  }

  lemma HeavyEnough(k: nat)
    requires 1 <= k <= HEAVY
    ensures 5 * HeavyWeight(k) > 2 * Total(k) && Total(k - 1) >= HeavyWeight(k)
  {
    assert Total(0) == 306 && Total(1) == 511 && Total(2) == 852;
    assert Total(3) == 1421 && Total(4) == 2369 && Total(5) == 3949;
    assert Total(6) == 6582 && Total(7) == 10971;
  }

  lemma HeavierThan(s: nat, k: nat)
    requires 1 <= k <= HEAVY && s != k && !(k < s <= HEAVY)
    ensures WeightOf(s) < HeavyWeight(k)
  {}

  /** The symbols weigh what `WeightOf` says. */
  ghost predicate Loaded(t: HuffTree) {
    && t.freq[R] == Total(HEAVY)
    && forall s :: 0 <= s < N_CHAR ==> LeafLinked(t, T + s) && Weight(t, s) == WeightOf(s)
  }

  /** All nodes before the sons of `q` hang below `q`. */
  ghost predicate Below(t: HuffTree, q: nat)
    requires q < T
  {
    && t.fils[q] < T && t.fils[q] + 1 < q && t.fils[q] % 2 == 0
    && forall x :: 0 <= x < t.fils[q] ==> t.prnt[x] <= t.fils[q] + 1
  }

  lemma BelowRoot(t: HuffTree)
    ensures Below(t, R)
  {
    RootIsInternal(t);
    assert LinkedDown(t, R) && LinkedUp(t, 625);
    forall x | 0 <= x < 624 ensures t.prnt[x] <= 625 { assert LinkedUp(t, x); }
  }

  lemma Sons(t: HuffTree, k: nat)
    requires k < T && !IsLeaf(t, k)
    ensures var e := t.fils[k]; e % 2 == 0 && e + 1 < k && t.freq[k] == t.freq[e] + t.freq[e + 1]
    ensures var e := t.fils[k]; t.prnt[e] == k && t.prnt[e + 1] == k
  {
    assert LinkedDown(t, k) && SumAt(t, k);
  }

  lemma Heavier(t: HuffTree, i: nat, j: nat)
    requires i <= j < T
    ensures t.freq[i] <= t.freq[j]
  {}

  lemma ParentOf(t: HuffTree, c: nat)
    requires c < R
    ensures c < t.prnt[c] < T && t.fils[t.prnt[c]] == c - c % 2
  {
    assert LinkedUp(t, c);
  }

  lemma LeafHangs(t: HuffTree, s: nat)
    requires s < N_CHAR
    ensures LeafOf(t, s) < T && t.fils[LeafOf(t, s)] == T + s
  {
    assert LeafLinked(t, T + s);
  }

  /** Where both sons of `q` have sons, no node before them carries more than two fifths of
      what is below `q`. */
  lemma InnerSons(t: HuffTree, q: nat, x: nat)
    requires q < T && Below(t, q) && !IsLeaf(t, t.fils[q]) && !IsLeaf(t, t.fils[q] + 1) && x < t.fils[q]
    ensures 5 * t.freq[x] <= 2 * t.freq[q]
  {
    assert Shape(t);
    hide Valid;
    var e := t.fils[q];
    Sons(t, q);
    Sons(t, e);
    Sons(t, e + 1);
    ParentOf(t, e - 1);
    var a := t.prnt[e - 1];
    var b := if a == e then e + 1 else e;
    assert t.fils[a] == e - 2;
    var f := t.fils[b];
    Heavier(t, f, e - 2);
    Heavier(t, f + 1, e - 2);
    Heavier(t, e - 1, b);
    Heavier(t, x, e - 1);
  }

  /** A leaf that carries more than two fifths of everything below `q`, and is the heaviest
      there, is a son of `q`. */
  lemma HeavyLeafOnTop(t: HuffTree, q: nat, x: nat)
    requires q < T && Below(t, q) && x <= t.fils[q] + 1 && IsLeaf(t, x) && 5 * t.freq[x] > 2 * t.freq[q]
    requires forall i :: 0 <= i <= t.fils[q] + 1 && i != x && IsLeaf(t, i) ==> t.freq[i] < t.freq[x]
    ensures x == t.fils[q] || x == t.fils[q] + 1
  {
    var e := t.fils[q];
    if x < e {
      assert t.freq[x] <= t.freq[e] && t.freq[x] <= t.freq[e + 1];
      InnerSons(t, q, x);
    }
  }

  // ---------- the chain of heavy leaves ----------

  /** Node `q` carries everything but the symbols heavier than `k`, each of which has made
      one step of the way down to it. */
  ghost predicate Carries(t: HuffTree, q: nat, k: nat) {
    && q < T && k <= HEAVY && Below(t, q) && t.freq[q] == Total(k) && |Path(t, q)| == HEAVY - k
    && forall s :: 0 <= s < N_CHAR ==> (LeafOf(t, s) > t.fils[q] + 1 <==> k < s <= HEAVY)
  }

  lemma RootCarries(t: HuffTree)
    requires Loaded(t)
    ensures Carries(t, R, HEAVY)
  {
    BelowRoot(t);
    assert LinkedDown(t, R) && LinkedUp(t, 625);
    forall s | 0 <= s < N_CHAR ensures LeafOf(t, s) <= 625 { assert LeafLinked(t, T + s); }
  }

  /** A leaf below `q` that is not that of symbol `k` is lighter. */
  lemma LighterBelow(t: HuffTree, q: nat, k: nat, i: nat)
    requires Loaded(t) && Carries(t, q, k) && k >= 1
    requires i <= t.fils[q] + 1 && i != LeafOf(t, k) && IsLeaf(t, i)
    ensures t.freq[i] < HeavyWeight(k)
  {
    assert LinkedDown(t, i);
    var s := t.fils[i] - T;
    assert LeafOf(t, s) == i && Weight(t, s) == WeightOf(s);
    HeavierThan(s, k);
  }

  /** The brother of the heaviest leaf carries the rest. */
  lemma NextCarries(t: HuffTree, q: nat, k: nat) returns (r: nat)
    requires Loaded(t) && Carries(t, q, k) && k >= 1
    ensures Carries(t, r, k - 1)
  {
    assert Shape(t);
    hide Valid;
    var e, x := t.fils[q], LeafOf(t, k);
    HeavyEnough(k);
    LeafHangs(t, k);
    assert Weight(t, k) == HeavyWeight(k);
    forall i | 0 <= i <= e + 1 && i != x && IsLeaf(t, i) ensures t.freq[i] < t.freq[x] { LighterBelow(t, q, k, i); }
    HeavyLeafOnTop(t, q, x);
    r := if x == e then e + 1 else e;
    Sons(t, q);
    assert t.freq[r] == Total(k - 1) && !IsLeaf(t, r);
    PathDown(t, q, r);
    RestBelow(t, q, x, r);
    forall s | 0 <= s < N_CHAR ensures LeafOf(t, s) > e - 1 <==> k - 1 < s <= HEAVY { LeafHangs(t, s); }
  }

  lemma RestBelow(t: HuffTree, q: nat, x: nat, r: nat)
    requires q < T && Below(t, q) && x < T && IsLeaf(t, x) && r < T && !IsLeaf(t, r)
    requires {x, r} == {t.fils[q], t.fils[q] + 1}
    ensures t.fils[r] + 2 == t.fils[q] && Below(t, r)
  {
    var e := t.fils[q];
    assert LinkedDown(t, r) && LinkedUp(t, e - 1);
    forall y | 0 <= y < e - 2 ensures t.prnt[y] <= e - 1 { assert LinkedUp(t, y); }
  }

  lemma {:induction false} ChainDown(t: HuffTree, k: nat) returns (q: nat)
    requires Loaded(t) && k <= HEAVY
    ensures Carries(t, q, k)
    decreases HEAVY - k
  {
    if k == HEAVY {
      RootCarries(t);
      q := R;
    } else {
      q := ChainDown(t, k + 1);
      q := NextCarries(t, q, k + 1);
    }
  }

  // ---------- down to a code that is lost ----------

  /** Among leaves of weight one, a node heavier than two to the `d` has a node more than
      `d` steps below it, at the end of a set bit. */
  lemma {:induction false} LightIsDeep(t: HuffTree, q: nat, top: nat, d: nat) returns (m: nat)
    requires q <= top < T && t.freq[q] > PositionCode.Pow2(d)
    requires forall i :: 0 <= i <= top && IsLeaf(t, i) ==> t.freq[i] == 1
    ensures m < q && m % 2 == 1 && |Path(t, m)| == |Path(t, q)| + d + 1
    decreases d
  {
    assert LinkedDown(t, q) && SumAt(t, q);
    var son := t.fils[q] + 1;
    PathDown(t, q, son);
    assert t.freq[son - 1] <= t.freq[son];
    if d == 0 {
      m := son;
    } else {
      m := LightIsDeep(t, son, top, d - 1);
    }
  }

  /** Some symbol's code leads through any given node. */
  lemma {:induction false} SymbolBelow(t: HuffTree, k: nat) returns (s: nat)
    requires k < T
    ensures s < N_CHAR && Path(t, k) <= CodeOf(t, s)
    decreases k
  {
    assert LinkedDown(t, k);
    if IsLeaf(t, k) {
      PathOfLeaf(t, k);
      s := t.fils[k] - T;
    } else {
      PathDown(t, k, t.fils[k]);
      s := SymbolBelow(t, t.fils[k]);
    }
  }

  /** In every tree with these weights some symbol has a code whose seventeenth bit is set,
      so that its code word does not carry it. */
  lemma DeepCodeLost(t: HuffTree) returns (s: nat)
    requires Loaded(t)
    ensures s < N_CHAR && |CodeOf(t, s)| >= 17 && CodeOf(t, s)[16] && !Carried(CodeOf(t, s))
  {
    var q := ChainDown(t, 0);
    var top := t.fils[q] + 1;
    forall i | 0 <= i <= top && IsLeaf(t, i) ensures t.freq[i] == 1 {
      assert LinkedDown(t, i);
      var s := t.fils[i] - T;
      assert LeafOf(t, s) == i && Weight(t, s) == WeightOf(s);
    }
    assert PositionCode.Pow2(4) == 16;
    assert LinkedDown(t, q) && SumAt(t, q) && t.freq[top] >= 153;
    PathDown(t, q, top);
    var m := LightIsDeep(t, top, top, 7);
    s := SymbolBelow(t, m);
    assert CodeOf(t, s)[16] == Path(t, m)[16];
  }

  // ---------- streams that come to such a tree ----------

  /** How often a symbol is coded. */
  function Count(ks: seq<Token>, s: nat): nat
    requires WellTokens(ks)
    decreases |ks|
  {
    if ks == [] then 0
    else Count(ks[..|ks| - 1], s) + (if Symbol(ks[|ks| - 1]) == s then 1 else 0)
  }

  lemma StartWeight(s: nat)
    requires s < N_CHAR
    ensures LeafLinked(StartTree(), T + s) && Weight(StartTree(), s) == 1
  {}

  /** Until the first halving a symbol weighs one more than it has been coded. */
  lemma {:induction false} WeightAfter(ks: seq<Token>, s: nat)
    requires WellTokens(ks) && N_CHAR + |ks| <= MAX_FREQ && s < N_CHAR
    ensures LeafLinked(TreeAfter(ks), T + s) && Weight(TreeAfter(ks), s) == 1 + Count(ks, s)
    decreases |ks|
  {
    if ks == [] {
      StartWeight(s);
    } else {
      hide Valid, Weight, Updated;
      var init, last := ks[..|ks| - 1], ks[|ks| - 1];
      assert ks == init + [last] && WellToken(last);
      WeightAfter(init, s);
      RootAfter(init);
      OneMore(init, last);
      UpdatedWeights(TreeAfter(init), Symbol(last), s);
    }
  }

  lemma {:induction false} CountConcat(a: seq<Token>, b: seq<Token>, s: nat)
    requires WellTokens(a) && WellTokens(b)
    ensures WellTokens(a + b) && Count(a + b, s) == Count(a, s) + Count(b, s)
    decreases |b|
  {
    if b == [] {
      assert a + b == a;
    } else {
      var init := b[..|b| - 1];
      assert (a + b)[..|a + b| - 1] == a + init;
      CountConcat(a, init, s);
    }
  }

  function Repeat(k: nat, n: nat): (ks: seq<Token>)
    requires k < 256
    ensures |ks| == n && WellTokens(ks)
  {
    seq(n, _ => Lit(k))
  }

  lemma {:induction false} CountRepeat(k: nat, n: nat, s: nat)
    requires k < 256
    ensures Count(Repeat(k, n), s) == if s == k then n else 0
  {
    if n == 0 {
    } else {
      assert Repeat(k, n)[..n - 1] == Repeat(k, n - 1);
      CountRepeat(k, n - 1, s);
    }
  }

  /** Each of the heavy bytes up to `k`, as often as its weight asks for. */
  function HeavyBytes(k: nat): (ks: seq<Token>)
    requires k <= HEAVY
    ensures WellTokens(ks) && |ks| + N_CHAR - HEAVY + k == Total(k)
  {
    if k == 0 then [] else HeavyBytes(k - 1) + Repeat(k, HeavyWeight(k) - 1)
  }

  lemma {:induction false} CountHeavy(k: nat, s: nat)
    requires k <= HEAVY
    ensures Count(HeavyBytes(k), s) == if 1 <= s <= k then WeightOf(s) - 1 else 0
  {
    hide HeavyWeight, Symbol, Total, Repeat;
    if k == 0 {
    } else {
      CountHeavy(k - 1, s);
      CountRepeat(k, HeavyWeight(k) - 1, s);
      CountConcat(HeavyBytes(k - 1), Repeat(k, HeavyWeight(k) - 1), s);
    }
  }

  /** The tokens code every symbol as often as `WeightOf` asks for, in any order. */
  ghost predicate Loading(ks: seq<Token>) {
    && WellTokens(ks) && N_CHAR + |ks| == Total(HEAVY)
    && forall s :: 0 <= s < N_CHAR ==> 1 + Count(ks, s) == WeightOf(s)
  }

  lemma LoadingLoads(ks: seq<Token>)
    requires Loading(ks)
    ensures Loaded(TreeAfter(ks))
  {
    TotalIs();
    RootAfter(ks);
    forall s | 0 <= s < N_CHAR
      ensures LeafLinked(TreeAfter(ks), T + s) && Weight(TreeAfter(ks), s) == WeightOf(s)
    {
      WeightAfter(ks, s);
    }
  }

  function TokenOf(s: nat): (k: Token)
    requires s < SYMBOLS
    ensures WellToken(k) && Symbol(k) == s
  {
    if s < 256 then Lit(s) else Match(0, s - 255 + 2)
  }

  /** Behind any such tokens there is one whose code does not survive in its code word. */
  lemma LostBehind(ks: seq<Token>) returns (k: Token)
    requires Loading(ks)
    ensures WellToken(k) && WellTokens(ks + [k]) && |CodeIn(TreeAfter(ks), k)| >= 17 && !AllCarried(ks + [k])
  {
    LoadingLoads(ks);
    var s := DeepCodeLost(TreeAfter(ks));
    k := TokenOf(s);
    OneMore(ks, k);
  }

  /** A stream the decoder does not read back: 17972 bytes with the values 1 to 8, and one
      token more. */
  lemma MisreadStream() returns (ks: seq<Token>)
    ensures |ks| == 17973 && WellTokens(ks) && HeavyBytes(HEAVY) <= ks
    ensures !AllCarried(ks) && ReadTokens(FBB, StartTree(), SentBits(ks), |ks|).tokens != ks
  {
    var front := HeavyBytes(HEAVY);
    TotalIs();
    forall s | 0 <= s < N_CHAR ensures 1 + Count(front, s) == WeightOf(s) { CountHeavy(HEAVY, s); }
    var k := LostBehind(front);
    ks := front + [k];
    TokensReadBack(ks, SentBits(ks));
  }
}
