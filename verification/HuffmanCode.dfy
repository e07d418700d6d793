/** The code the tree gives each symbol: how it evolves, how it is walked, how long it is. */
module HuffmanCode {
  import opened Words
  import opened HuffmanTables
  import opened HuffmanRebuild
  import opened BitIO

  /** A tree in good order. */
  type HuffTree = t: Tables | Valid(t) ghost witness (StartValid(); StartTables())

  // ---------- evolution ----------

  /** `update`: count one more occurrence of symbol `s`. */
  function Updated(t: HuffTree, s: nat): HuffTree
    requires s < N_CHAR
  {
    var u := if t.freq[R] == MAX_FREQ then Rebuilt(t) else t;
    RebuiltIfFull(t, s);
    Climb(u, u.prnt[T + s])
  }

  /** The tree `update` climbs in: rebuilt first when the root is full. */
  function Prepared(t: HuffTree): Tables
  {
    if t.freq[R] == MAX_FREQ then Rebuilt(t) else t
  }

  lemma RebuiltIfFull(t: HuffTree, s: nat)
    requires s < N_CHAR
    ensures var u := Prepared(t);
            && Valid(u) && LeafLinked(u, T + s)
            && Mid(u, u.prnt[T + s])
  {
    if t.freq[R] == MAX_FREQ { RebuiltValid(t); }
    assert LeafLinked(Prepared(t), T + s);
  }

  /** Exactly one symbol gains exactly one, after halving when the root was full. */
  lemma UpdatedWeights(t: HuffTree, s: nat, x: nat)
    requires s < N_CHAR && x < N_CHAR
    ensures LeafLinked(t, T + x) && LeafLinked(Updated(t, s), T + x)
    ensures var w := if t.freq[R] == MAX_FREQ then Halve(Weight(t, x)) else Weight(t, x);
            Weight(Updated(t, s), x) == w + (if x == s then 1 else 0)
    ensures t.freq[R] < MAX_FREQ ==> Updated(t, s).freq[R] == t.freq[R] + 1
    ensures t.freq[R] == MAX_FREQ ==> Updated(t, s).freq[R] <= (MAX_FREQ + N_CHAR) / 2 + 1
  {
    RebuiltIfFull(t, s);
    if t.freq[R] == MAX_FREQ { RebuiltValid(t); }
    var u := Prepared(t);
    assert LeafLinked(t, T + x) && LeafLinked(u, T + x);
    ClimbWeight(u, u.prnt[T + s], x);
  }

  function StartFreq(j: nat): (f: nat)
    requires j < T
    ensures f >= 1
  {
    if j < N_CHAR then 1
    else StartFreq(2 * (j - N_CHAR)) + StartFreq(2 * (j - N_CHAR) + 1)
  }

  function StartParent(i: nat): nat {
    if i < R then N_CHAR + i / 2 else if i == R then 0 else i - T
  }

  function StartSon(j: nat): nat {
    if j < N_CHAR then j + T else 2 * (j - N_CHAR)
  }

  /** `StartHuff`: every symbol once, joined pair by pair. */
  function StartTables(): (t: Tables)
    ensures Shape(t)
  {
    Tables(
      seq(T + 1, j requires 0 <= j <= T => if j < T then StartFreq(j) else SENTINEL),
      seq(T, j requires 0 <= j < T => StartSon(j)),
      seq(T + N_CHAR, i requires 0 <= i < T + N_CHAR => StartParent(i)))
  }

  lemma StartTablesAre(freq: seq<nat>, fils: seq<nat>, prnt: seq<nat>)
    requires Shape(Tables(freq, fils, prnt))
    requires forall m :: 0 <= m < T ==> freq[m] == StartFreq(m)
    requires freq[T] == SENTINEL
    requires forall m :: 0 <= m < T ==> fils[m] == StartSon(m)
    requires forall m :: 0 <= m < T + N_CHAR ==> prnt[m] == StartParent(m)
    ensures Tables(freq, fils, prnt) == StartTables()
  {
    var t := StartTables();
    assert freq == t.freq;
    assert fils == t.fils;
    assert prnt == t.prnt;
  }

  lemma {:induction false} StartGrows(j: nat)
    requires j < R
    ensures StartFreq(j) <= StartFreq(j + 1)
  {
    if j < N_CHAR {
    } else {
      var a := 2 * (j - N_CHAR);
      StartGrows(a);
      StartGrows(a + 1);
      StartGrows(a + 2);
    }
  }

  lemma {:induction false} StartSorted(i: nat, j: nat)
    requires i <= j < T
    ensures StartFreq(i) <= StartFreq(j)
    decreases j
  {
    if i == j {
    } else {
      StartSorted(i, j - 1);
      StartGrows(j - 1);
    }
  }

  lemma StartDoubles(j: nat)
    requires N_CHAR <= j < T
    ensures StartFreq(j) <= 2 * StartFreq(2 * (j - N_CHAR) + 1)
  {
    StartGrows(2 * (j - N_CHAR));
  }

  lemma StartHalfWay()
    ensures StartFreq(595) <= 16
  {
    StartDoubles(595); StartDoubles(563); StartDoubles(499); StartDoubles(371);
  }

  lemma StartRootBound()
    ensures StartFreq(R) <= 512
  {
    hide StartFreq;
    StartDoubles(626); StartDoubles(625); StartDoubles(623); StartDoubles(619); StartDoubles(611);
    StartHalfWay();
  }

  lemma StartOrdered()
    ensures Ordered(StartTables().freq)
  {
    var f := StartTables().freq;
    forall i, j | 0 <= i <= j < T ensures f[i] <= f[j] { StartSorted(i, j); }
    StartRootBound();
  }

  lemma StartValid()
    ensures Valid(StartTables())
  {
    StartOrdered();
    var t := StartTables();
    forall i | 0 <= i < T ensures LinkedDown(t, i) && SumAt(t, i) {}
    forall i | 0 <= i < R ensures LinkedUp(t, i) {}
    forall x | T <= x < T + N_CHAR ensures LeafLinked(t, x) {}
  }

  lemma {:induction false} StartTotal(x: nat)
    requires x <= T
    ensures ActiveSum(StartTables(), 0, x) == if x < N_CHAR then N_CHAR - x else 0
    decreases T - x
  {
    if x == T {
    } else {
      StartTotal(x + 1);
    }
  }

  /** The first root weight is the number of symbols. */
  lemma StartRoot()
    ensures StartTables().freq[R] == N_CHAR
  {
    StartValid();
    StartTotal(0);
    ActiveSumIsRoot(StartTables(), 0);
  }

  // ---------- codes ----------

  /** The way from the root down to node `k`: one bit a level, set for the later son. */
  function Path(t: HuffTree, k: nat): (p: seq<bool>)
    requires k < T
    ensures k == R <==> p == []
    decreases T - k
  {
    if k == R then []
    else
      assert LinkedUp(t, k);
      Path(t, t.prnt[k]) + [k % 2 == 1]
  }

  /** The code of a symbol. */
  function CodeOf(t: HuffTree, s: nat): (p: seq<bool>)
    requires s < N_CHAR
    ensures |p| >= 1
  {
    assert LeafLinked(t, T + s);
    RootIsInternal(t);
    Path(t, t.prnt[T + s])
  }

  /** `DecodeChar`'s walk from the son pair `s`: the symbol reached and the position after. */
  function Descend(t: HuffTree, s: nat, bits: seq<bool>, n: nat): (r: (nat, nat))
    requires s < T + N_CHAR && (s < T ==> s + 1 < T)
    ensures r.0 < N_CHAR && r.1 >= n
    decreases if s < T then s + 1 else 0
  {
    if s >= T then (s - T, n)
    else
      var c := if BitAt(bits, n) then s + 1 else s;
      assert LinkedDown(t, c);
      Descend(t, t.fils[c], bits, n + 1)
  }

  function DecodeSymbol(t: HuffTree, bits: seq<bool>, n: nat): (r: (nat, nat))
    ensures r.0 < N_CHAR && r.1 > n
  {
    RootIsInternal(t);
    assert LinkedDown(t, R);
    Descend(t, t.fils[R], bits, n)
  }

  /** Reading the path of `k` leads from the root to `k`. */
  lemma {:induction false} DescendPath(t: HuffTree, k: nat, bits: seq<bool>, n: nat)
    requires k < T && StartsAt(bits, n, Path(t, k))
    ensures LinkedDown(t, R) && LinkedDown(t, k)
    ensures Descend(t, t.fils[R], bits, n) == Descend(t, t.fils[k], bits, n + |Path(t, k)|)
    decreases T - k
  {
    assert LinkedDown(t, R) && LinkedDown(t, k);
    if k == R {
    } else {
      assert LinkedUp(t, k);
      var p := t.prnt[k];
      var m := |Path(t, p)|;
      assert bits[n..n + m] == bits[n..n + m + 1][..m];
      DescendPath(t, p, bits, n);
      assert bits[n + m] == bits[n..n + m + 1][m];
    }
  }

  /** Decoding inverts coding: the code of `s`, wherever it lies in a stream, reads back as
      `s` and takes exactly its own length. */
  lemma DecodeInvertsCode(t: HuffTree, s: nat, bits: seq<bool>, n: nat)
    requires s < N_CHAR && StartsAt(bits, n, CodeOf(t, s))
    ensures DecodeSymbol(t, bits, n) == (s, n + |CodeOf(t, s)|)
  {
    assert LeafLinked(t, T + s);
    DescendPath(t, t.prnt[T + s], bits, n);
  }

  lemma PathDown(t: HuffTree, k: nat, c: nat)
    requires k < T && t.fils[k] < T && (c == t.fils[k] || c == t.fils[k] + 1)
    ensures c < k && Path(t, c) == Path(t, k) + [c != t.fils[k]]
  {
    assert LinkedDown(t, k);
  }

  lemma PathOfLeaf(t: HuffTree, k: nat)
    requires k < T && t.fils[k] >= T
    ensures t.fils[k] < T + N_CHAR && CodeOf(t, t.fils[k] - T) == Path(t, k)
  {
    assert LinkedDown(t, k);
  }

  /** The bits of a stream from `n` on begin with `p`; zeros follow the end of the stream. */
  ghost predicate Reads(bits: seq<bool>, n: nat, p: seq<bool>) {
    forall i :: 0 <= i < |p| ==> BitAt(bits, n + i) == p[i]
  }

  /** From node `k` on, whatever bits follow, the walk takes the rest of some symbol's code. */
  lemma {:induction false} DescendReads(t: HuffTree, k: nat, bits: seq<bool>, n: nat)
    requires k < T && Reads(bits, n, Path(t, k))
    ensures LinkedDown(t, k)
    ensures var (s, m) := Descend(t, t.fils[k], bits, n + |Path(t, k)|);
            m == n + |CodeOf(t, s)| && Reads(bits, n, CodeOf(t, s))
    decreases k
  {
    assert LinkedDown(t, k);
    var e := t.fils[k];
    if e >= T {
      PathOfLeaf(t, k);
    } else {
      var c := if BitAt(bits, n + |Path(t, k)|) then e + 1 else e;
      PathDown(t, k, c);
      DescendReads(t, c, bits, n);
    }
  }

  /** Whatever the stream, what `DecodeChar` reads is the code of the symbol it delivers. */
  lemma DecodeReadsCode(t: HuffTree, bits: seq<bool>, n: nat)
    ensures var (s, m) := DecodeSymbol(t, bits, n);
            m == n + |CodeOf(t, s)| && Reads(bits, n, CodeOf(t, s))
  {
    RootIsInternal(t);
    DescendReads(t, R, bits, n);
  }

  // ---------- code length ----------

  function Fib(n: nat): nat {
    if n < 2 then n else Fib(n - 1) + Fib(n - 2)
  }

  lemma Distribute(a: nat, b: nat, x: nat, y: nat, g: nat, top: nat)
    requires g >= x + y && top >= a * g + b * x
    ensures top >= (a + b) * x + a * y
  {
    assert a * g >= a * (x + y);
    assert a * (x + y) == a * x + a * y;
    assert (a + b) * x == a * x + b * x;
  }

  /** A brother weighs at least as much as anything below the other brother. */
  lemma UncleWeight(t: HuffTree, k: nat)
    requires k < R && t.prnt[k] < R
    ensures var p := t.prnt[k]; LinkedUp(t, p) && t.freq[t.prnt[p]] >= t.freq[p] + t.freq[k]
  {
    assert LinkedUp(t, k);
    var p := t.prnt[k];
    assert LinkedUp(t, p);
    var g := t.prnt[p];
    assert LinkedDown(t, g) && SumAt(t, g);
    var uncle := if p % 2 == 0 then p + 1 else p - 1;
    assert k <= uncle;
    assert t.freq[k] <= t.freq[uncle];
  }

  /** Weights grow like Fibonacci numbers on the way up. */
  lemma {:induction false} FibonacciGrowth(t: HuffTree, k: nat)
    requires k < R
    ensures var d := |Path(t, k)|;
            d >= 1 && t.prnt[k] < T && t.freq[R] >= Fib(d) * t.freq[t.prnt[k]] + Fib(d - 1) * t.freq[k]
    decreases T - k
  {
    assert LinkedUp(t, k);
    var p := t.prnt[k];
    if p == R {
    } else {
      FibonacciGrowth(t, p);
      UncleWeight(t, k);
      var d := |Path(t, k)|;
      Distribute(Fib(d - 1), Fib(d - 2), t.freq[p], t.freq[k], t.freq[t.prnt[p]], t.freq[R]);
    }
  }

  /** A code of length `d` needs a root weight of at least the `d + 2`nd Fibonacci number. */
  lemma LongCodeNeedsWeight(t: HuffTree, s: nat)
    requires s < N_CHAR
    ensures t.freq[R] >= Fib(|CodeOf(t, s)| + 2)
  {
    assert LeafLinked(t, T + s);
    RootIsInternal(t);
    var k := t.prnt[T + s];
    FibonacciGrowth(t, k);
    assert LinkedUp(t, k);
    var p := t.prnt[k];
    assert LinkedDown(t, p) && SumAt(t, p);
    var d := |Path(t, k)|;
    var son := t.fils[p];
    assert t.freq[0] <= t.freq[son] && t.freq[0] <= t.freq[son + 1];
    TwoOfOne(Fib(d), t.freq[p], Fib(d - 1), t.freq[k]);
  }

  lemma TwoOfOne(a: nat, x: nat, b: nat, y: nat)
    requires x >= 2 && y >= 1
    ensures a * x + b * y >= 2 * a + b
  {
    assert a * x >= a * 2;
    assert b * y >= b * 1;
  }

  lemma {:induction false} FibGrows(m: nat, n: nat)
    requires m <= n
    ensures Fib(m) <= Fib(n)
    decreases n
  {
    if m == n {
    } else {
      FibGrows(m, n - 1);
    }
  }

  lemma FibValues()
    ensures Fib(19) == 4181 && Fib(24) == 46368
  {
    assert Fib(4) == 3 && Fib(5) == 5;
    assert Fib(6) == 8 && Fib(7) == 13;
    assert Fib(8) == 21 && Fib(9) == 34;
    assert Fib(10) == 55 && Fib(11) == 89;
    assert Fib(12) == 144 && Fib(13) == 233;
    assert Fib(14) == 377 && Fib(15) == 610;
    assert Fib(16) == 987 && Fib(17) == 1597;
    assert Fib(18) == 2584 && Fib(19) == 4181;
    assert Fib(20) == 6765 && Fib(21) == 10946;
    assert Fib(22) == 17711 && Fib(23) == 28657;
  }

  /** Every code has 1 to 21 bits, and at most 16 while the root weighs less than 4181. */
  lemma CodeLength(t: HuffTree, s: nat)
    requires s < N_CHAR
    ensures 1 <= |CodeOf(t, s)| <= 21
    ensures t.freq[R] < 4181 ==> |CodeOf(t, s)| <= 16
  {
    LongCodeNeedsWeight(t, s);
    FibValues();
    var d := |CodeOf(t, s)|;
    if d > 21 { FibGrows(24, d + 2); }
    if d > 16 { FibGrows(19, d + 2); }
  }

  // ---------- the 16-bit code word ----------

  /** The word `EncodeChar` collects on its way up: the first sixteen bits of the path. */
  function CodeWord(p: seq<bool>): Register {
    (p + Zeros(16))[..16]
  }

  /** No bit past the sixteenth is set. */
  ghost predicate Carried(p: seq<bool>) {
    forall i :: 16 <= i < |p| ==> !p[i]
  }

  /** The code word stands for the path exactly when every bit past the sixteenth is clear;
      so always for paths of at most sixteen bits. */
  lemma CodeWordExact(p: seq<bool>)
    ensures Code(CodeWord(p), |p|) == p <==> Carried(p)
  {
    var c := Code(CodeWord(p), |p|);
    assert forall i :: 0 <= i < |p| ==> c[i] == (i < 16 && p[i]);
  }

  /** What the decoder makes of a code word: the symbol exactly when every bit of its code
      past the sixteenth is clear, and another symbol otherwise. */
  lemma CodeWordReads(t: HuffTree, s: nat, bits: seq<bool>, n: nat)
    requires s < N_CHAR && StartsAt(bits, n, Code(CodeWord(CodeOf(t, s)), |CodeOf(t, s)|))
    ensures DecodeSymbol(t, bits, n).0 == s <==> Carried(CodeOf(t, s))
    ensures DecodeSymbol(t, bits, n) == (s, n + |CodeOf(t, s)|) <==> Carried(CodeOf(t, s))
  {
    var p := CodeOf(t, s);
    var c := Code(CodeWord(p), |p|);
    CodeWordExact(p);
    DecodeReadsCode(t, bits, n);
    if DecodeSymbol(t, bits, n).0 == s {
      SameBits(bits, n, c, p);
    }
    if Carried(p) {
      DecodeInvertsCode(t, s, bits, n);
    }
  }

  lemma SameBits(bits: seq<bool>, n: nat, p: seq<bool>, q: seq<bool>)
    requires StartsAt(bits, n, p) && Reads(bits, n, q) && |p| == |q|
    ensures p == q
  {
    forall i | 0 <= i < |p| ensures p[i] == q[i] {
      assert BitAt(bits, n + i) == bits[n..n + |p|][i];
    }
  }
}
