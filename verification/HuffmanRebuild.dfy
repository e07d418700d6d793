/** Rebuilding the Huffman tree with halved weights, as `reconst` does when the root weight
    reaches MAX_FREQ. */
module HuffmanRebuild {
  import opened HuffmanTables

  // ---------- collecting the leaves ----------

  /** The leaves among the first `n` nodes, in order. */
  function LeavesUpTo(fils: seq<nat>, n: nat): (r: seq<nat>)
    requires n <= |fils|
    ensures |r| <= n
    ensures forall p :: 0 <= p < |r| ==> r[p] < n && fils[r[p]] >= T
  {
    if n == 0 then []
    else if fils[n - 1] >= T then LeavesUpTo(fils, n - 1) + [n - 1]
    else LeavesUpTo(fils, n - 1)
  }

  lemma {:induction false} LeavesPrefix(fils: seq<nat>, m: nat, n: nat)
    requires m <= n <= |fils|
    ensures LeavesUpTo(fils, m) <= LeavesUpTo(fils, n)
  {
    if m == n {
    } else {
      LeavesPrefix(fils, m, n - 1);
    }
  }

  lemma {:induction false} LeavesIncrease(fils: seq<nat>, n: nat)
    requires n <= |fils|
    ensures forall p, q :: 0 <= p < q < |LeavesUpTo(fils, n)| ==>
      LeavesUpTo(fils, n)[p] < LeavesUpTo(fils, n)[q]
  {
    if n == 0 {
    } else {
      LeavesIncrease(fils, n - 1);
    }
  }

  lemma {:induction false} LeavesComplete(fils: seq<nat>, n: nat, i: nat)
    requires i < n <= |fils| && fils[i] >= T
    ensures i in LeavesUpTo(fils, n)
    decreases n
  {
    if i < n - 1 {
      LeavesComplete(fils, n - 1, i);
    } else {
      assert LeavesUpTo(fils, n)[|LeavesUpTo(fils, n)| - 1] == i;
    }
  }

  function Halve(w: nat): nat { (w + 1) / 2 }

  function LeafOf(t: Tables, s: nat): nat
    requires Shape(t) && s < N_CHAR
  {
    t.prnt[T + s]
  }

  /** The leaf positions of the first `n` symbols. */
  ghost function PositionsOf(t: Tables, n: nat): (r: set<nat>)
    requires Shape(t) && n <= N_CHAR
    ensures forall s {:trigger LeafOf(t, s)} :: 0 <= s < n ==> LeafOf(t, s) in r
    ensures forall i :: i in r ==> exists s {:trigger LeafOf(t, s)} :: 0 <= s < n && LeafOf(t, s) == i
  {
    if n == 0 then {}
    else
      var r := PositionsOf(t, n - 1) + {LeafOf(t, n - 1)};
      assert forall i :: i in r ==> exists s {:trigger LeafOf(t, s)} :: 0 <= s < n && LeafOf(t, s) == i;
      r
  }

  lemma LeavesApart(t: Tables, s: nat, u: nat)
    requires Shape(t) && Links(t) && s < u < N_CHAR
    ensures LeafOf(t, s) != LeafOf(t, u)
  {
    assert LeafLinked(t, T + s) && LeafLinked(t, T + u);
  }

  lemma NewPosition(t: Tables, n: nat)
    requires Shape(t) && Links(t) && n < N_CHAR
    ensures LeafOf(t, n) !in PositionsOf(t, n)
  {
    hide Shape, Links, LeafOf;
    if LeafOf(t, n) in PositionsOf(t, n) {
      var s :| 0 <= s < n && LeafOf(t, s) == LeafOf(t, n);
      LeavesApart(t, s, n);
    }
  }

  /** Different symbols have different leaves. */
  lemma {:induction false} PositionsDistinct(t: Tables, n: nat)
    requires Shape(t) && Links(t) && n <= N_CHAR
    ensures |PositionsOf(t, n)| == n
  {
    hide Shape, Links, LeafOf;
    if n == 0 {
    } else {
      PositionsDistinct(t, n - 1);
      NewPosition(t, n - 1);
    }
  }

  ghost function Elements(s: seq<nat>): (r: set<nat>)
    ensures forall x :: x in r <==> x in s
    ensures (forall p, q :: 0 <= p < q < |s| ==> s[p] < s[q]) ==> |r| == |s|
  {
    if s == [] then {}
    else
      var init := s[..|s| - 1];
      assert s == init + [s[|s| - 1]];
      Elements(init) + {s[|s| - 1]}
  }

  lemma LeafIsPosition(t: Tables, i: nat)
    requires Valid(t)
    ensures i in LeavesUpTo(t.fils, T) <==> i in PositionsOf(t, N_CHAR)
  {
    if i in LeavesUpTo(t.fils, T) {
      assert LinkedDown(t, i);
      assert LeafOf(t, t.fils[i] - T) == i;
    }
    if i in PositionsOf(t, N_CHAR) {
      var s :| 0 <= s < N_CHAR && LeafOf(t, s) == i;
      assert LeafLinked(t, T + s);
      LeavesComplete(t.fils, T, i);
    }
  }

  lemma CountElements(s: seq<nat>, positions: set<nat>)
    requires forall p, q :: 0 <= p < q < |s| ==> s[p] < s[q]
    requires forall i :: i in s ==> i in positions
    requires forall i :: i in positions ==> i in s
    ensures |s| == |positions|
  {
    assert Elements(s) == positions;
  }

  lemma LeafCount(t: Tables)
    requires Valid(t)
    ensures |LeavesUpTo(t.fils, T)| == N_CHAR
  {
    PositionsDistinct(t, N_CHAR);
    var leaves, positions := LeavesUpTo(t.fils, T), PositionsOf(t, N_CHAR);
    forall i | i in leaves ensures i in positions { LeafIsPosition(t, i); }
    forall i | i in positions ensures i in leaves { LeafIsPosition(t, i); }
    LeavesIncrease(t.fils, T);
    CountElements(leaves, positions);
  }

  // ---------- building the inner nodes ----------

  /** The nodes built so far. */
  datatype Partial = Partial(freq: seq<nat>, fils: seq<nat>)

  function HalvedAt(freq: seq<nat>, at: seq<nat>): (r: seq<nat>)
    requires forall p :: 0 <= p < |at| ==> at[p] < |freq|
    ensures |r| == |at|
    ensures forall p :: 0 <= p < |at| ==> r[p] == Halve(freq[at[p]])
  {
    seq(|at|, p requires 0 <= p < |at| => Halve(freq[at[p]]))
  }

  function Collected(t: Tables): (r: Partial)
    requires Shape(t)
    ensures |r.freq| == |r.fils|
  {
    var leaves := LeavesUpTo(t.fils, T);
    Partial(HalvedAt(t.freq, leaves),
            seq(|leaves|, p requires 0 <= p < |leaves| => t.fils[leaves[p]]))
  }

  /** The next pair to be joined, when `j` nodes exist. */
  function NextPair(j: nat): nat
    requires j >= N_CHAR
  {
    2 * (j - N_CHAR)
  }

  /** Where a node of weight `f` goes: behind the last one that is not heavier. */
  function Place(freq: seq<nat>, f: nat, k: int): (r: int)
    requires -1 <= k < |freq|
    ensures 0 <= r <= k + 1
    ensures r > 0 ==> freq[r - 1] <= f
    ensures forall m :: r <= m <= k ==> f < freq[m]
    decreases k + 1
  {
    if k >= 0 && f < freq[k] then Place(freq, f, k - 1) else k + 1
  }

  function Insert(s: seq<nat>, k: nat, x: nat): (r: seq<nat>)
    requires k <= |s|
    ensures |r| == |s| + 1 && r[k] == x
    ensures forall m :: 0 <= m < k ==> r[m] == s[m]
    ensures forall m :: k < m < |r| ==> r[m] == s[m - 1]
  {
    s[..k] + [x] + s[k..]
  }

  function Join(b: Partial): (r: Partial)
    requires N_CHAR <= |b.freq| < T && |b.fils| == |b.freq|
    ensures |r.freq| == |b.freq| + 1 && |r.fils| == |r.freq|
  {
    var j := |b.freq|;
    var i := NextPair(j);
    var f := b.freq[i] + b.freq[i + 1];
    var k := Place(b.freq, f, j - 1);
    Partial(Insert(b.freq, k, f), Insert(b.fils, k, i))
  }

  function JoinAll(b: Partial): (r: Partial)
    requires N_CHAR <= |b.freq| <= T && |b.fils| == |b.freq|
    ensures |r.freq| == T && |r.fils| == T
    decreases T - |b.freq|
  {
    if |b.freq| == T then b else JoinAll(Join(b))
  }

  /** A node of the growing table: a leaf, or a joined pair further down. */
  ghost predicate Node(b: Partial, p: nat)
    requires |b.freq| == |b.fils| >= N_CHAR && p < |b.fils|
  {
    var s := b.fils[p];
    if s >= T then s < T + N_CHAR
    else s % 2 == 0 && s + 1 < p && s + 2 <= NextPair(|b.freq|) && b.freq[p] == b.freq[s] + b.freq[s + 1]
  }

  ghost predicate Sorted(freq: seq<nat>) {
    forall p, q :: 0 <= p <= q < |freq| ==> freq[p] <= freq[q]
  }

  ghost predicate Distinct(fils: seq<nat>) {
    forall p, q :: 0 <= p < q < |fils| ==> fils[p] != fils[q]
  }

  /** Everything that should have a parent by now has one. */
  ghost predicate Complete(b: Partial)
    requires |b.freq| == |b.fils| >= N_CHAR
  {
    && (forall x :: T <= x < T + N_CHAR ==> x in b.fils)
    && (forall s :: 0 <= s < NextPair(|b.freq|) && s % 2 == 0 ==> s in b.fils)
  }

  /** Leaf weights are the old ones, halved. */
  ghost predicate HalvedLeaves(t: Tables, b: Partial)
    requires Shape(t) && Links(t) && |b.freq| == |b.fils|
  {
    forall p :: 0 <= p < |b.fils| && T <= b.fils[p] < T + N_CHAR ==>
      LeafLinked(t, b.fils[p]) && b.freq[p] == Halve(t.freq[t.prnt[b.fils[p]]])
  }

  ghost predicate Building(t: Tables, b: Partial) {
    && Shape(t) && Links(t)
    && |b.freq| == |b.fils| && N_CHAR <= |b.freq| <= T
    && Sorted(b.freq) && b.freq[0] >= 1
    && (forall p :: 0 <= p < |b.fils| ==> Node(b, p))
    && Distinct(b.fils)
    && Complete(b)
    && HalvedLeaves(t, b)
  }

  lemma CollectedAt(t: Tables, p: nat)
    requires Valid(t) && p < |Collected(t).fils|
    ensures var x := Collected(t).fils[p];
            && T <= x < T + N_CHAR
            && t.prnt[x] == LeavesUpTo(t.fils, T)[p]
            && LeafLinked(t, x)
            && Collected(t).freq[p] == Halve(t.freq[t.prnt[x]])
  {
    var i := LeavesUpTo(t.fils, T)[p];
    assert LinkedDown(t, i);
    assert LeafLinked(t, t.fils[i]);
  }

  lemma CollectedComplete(t: Tables)
    requires Valid(t) && |Collected(t).freq| == N_CHAR
    ensures Complete(Collected(t)) && Distinct(Collected(t).fils)
  {
    var leaves := LeavesUpTo(t.fils, T);
    var b := Collected(t);
    forall x | T <= x < T + N_CHAR ensures x in b.fils {
      assert LeafLinked(t, x);
      LeavesComplete(t.fils, T, t.prnt[x]);
      var p :| 0 <= p < |leaves| && leaves[p] == t.prnt[x];
      assert b.fils[p] == x;
    }
    LeavesIncrease(t.fils, T);
    forall p, q | 0 <= p < q < |b.fils| ensures b.fils[p] != b.fils[q] {
      CollectedAt(t, p);
      CollectedAt(t, q);
    }
  }

  lemma CollectedSorted(t: Tables)
    requires Valid(t)
    ensures Sorted(Collected(t).freq)
  {
    var leaves := LeavesUpTo(t.fils, T);
    var b := Collected(t);
    LeavesIncrease(t.fils, T);
    forall p, q | 0 <= p <= q < |b.freq| ensures b.freq[p] <= b.freq[q] {
      assert leaves[p] <= leaves[q];
      assert t.freq[leaves[p]] <= t.freq[leaves[q]];
    }
  }

  lemma CollectedBuilds(t: Tables)
    requires Valid(t)
    ensures Building(t, Collected(t)) && |Collected(t).freq| == N_CHAR
  {
    LeafCount(t);
    CollectedComplete(t);
    CollectedSorted(t);
    forall p | 0 <= p < |Collected(t).fils|
      ensures Node(Collected(t), p) && LeafLinked(t, Collected(t).fils[p])
    {
      CollectedAt(t, p);
    }
    forall p | 0 <= p < |Collected(t).fils|
      ensures Collected(t).freq[p] == Halve(t.freq[t.prnt[Collected(t).fils[p]]])
    {
      CollectedAt(t, p);
    }
    CollectedAt(t, 0);
    var i := LeavesUpTo(t.fils, T)[0];
    assert t.freq[0] <= t.freq[i];
  }

  /** Where `Join` puts the node it makes. */
  function JoinPlace(b: Partial): int
    requires N_CHAR <= |b.freq| < T
  {
    var i := NextPair(|b.freq|);
    Place(b.freq, b.freq[i] + b.freq[i + 1], |b.freq| - 1)
  }

  /** The pair being joined has been consumed: the new node lands behind it. */
  lemma PlaceBehindPair(t: Tables, b: Partial)
    requires Building(t, b) && |b.freq| < T
    ensures NextPair(|b.freq|) + 2 <= JoinPlace(b) <= |b.freq|
  {
    var i := NextPair(|b.freq|);
    assert b.freq[0] <= b.freq[i];
    assert b.freq[i + 1] < b.freq[i] + b.freq[i + 1];
  }

  lemma JoinSorted(t: Tables, b: Partial)
    requires Building(t, b) && |b.freq| < T
    ensures Sorted(Join(b).freq) && Join(b).freq[0] >= 1
  {
    hide Shape;
    PlaceBehindPair(t, b);
    var k := JoinPlace(b);
    var f := Join(b).freq;
    forall p, q | 0 <= p <= q < |f| ensures f[p] <= f[q] {
      if p < k { assert b.freq[p] <= b.freq[k - 1]; }
      if p < k && q > k { assert b.freq[p] <= b.freq[q - 1]; }
      if p > k { assert b.freq[p - 1] <= b.freq[q - 1]; }
    }
  }

  lemma JoinNodes(t: Tables, b: Partial, p: nat)
    requires Building(t, b) && |b.freq| < T && p < |b.freq| + 1
    ensures Node(Join(b), p)
  {
    hide Sum, Complete, Distinct, Halve, HalvedLeaves;
    PlaceBehindPair(t, b);
    var r := Join(b);
    var k := JoinPlace(b);
    assert forall m :: 0 <= m < k ==> r.freq[m] == b.freq[m];
    assert NextPair(|r.freq|) == NextPair(|b.freq|) + 2;
    if p != k {
      var q := if p < k then p else p - 1;
      assert Node(b, q);
      assert r.fils[p] == b.fils[q] && r.freq[p] == b.freq[q];
    }
  }

  lemma JoinDistinct(t: Tables, b: Partial)
    requires Building(t, b) && |b.freq| < T
    ensures Distinct(Join(b).fils)
  {
    var j := |b.freq|;
    var i := NextPair(j);
    forall p | 0 <= p < j ensures b.fils[p] != i { assert Node(b, p); }
  }

  lemma InsertKeeps(s: seq<nat>, k: nat, x: nat)
    requires k <= |s|
    ensures x in Insert(s, k, x)
    ensures forall y :: y in s ==> y in Insert(s, k, x)
  {
    var r := Insert(s, k, x);
    forall y | y in s ensures y in r {
      var p :| 0 <= p < |s| && s[p] == y;
      assert r[if p < k then p else p + 1] == y;
    }
  }

  lemma JoinComplete(t: Tables, b: Partial)
    requires Building(t, b) && |b.freq| < T
    ensures Complete(Join(b))
  {
    hide Insert, HalvedLeaves;
    InsertKeeps(b.fils, JoinPlace(b), NextPair(|b.freq|));
    assert NextPair(|Join(b).freq|) == NextPair(|b.freq|) + 2;
  }

  lemma JoinHalved(t: Tables, b: Partial)
    requires Building(t, b) && |b.freq| < T
    ensures HalvedLeaves(t, Join(b))
  {
    var r := Join(b);
    var k := JoinPlace(b);
    forall p | 0 <= p < |r.fils| && T <= r.fils[p] < T + N_CHAR
      ensures LeafLinked(t, r.fils[p]) && r.freq[p] == Halve(t.freq[t.prnt[r.fils[p]]])
    {
      assert p != k;
      var q := if p < k then p else p - 1;
      assert r.fils[p] == b.fils[q] && r.freq[p] == b.freq[q];
    }
  }

  lemma JoinBuilds(t: Tables, b: Partial)
    requires Building(t, b) && |b.freq| < T
    ensures Building(t, Join(b))
  {
    JoinSorted(t, b);
    JoinDistinct(t, b);
    JoinComplete(t, b);
    JoinHalved(t, b);
    forall p | 0 <= p < |b.freq| + 1 ensures Node(Join(b), p) { JoinNodes(t, b, p); }
  }

  lemma {:induction false} JoinAllBuilds(t: Tables, b: Partial)
    requires Building(t, b)
    ensures Building(t, JoinAll(b))
    decreases T - |b.freq|
  {
    if |b.freq| == T {
    } else {
      JoinBuilds(t, b);
      JoinAllBuilds(t, Join(b));
    }
  }

  // ---------- the new root weight ----------

  function Sum(s: seq<nat>): nat
    decreases |s|
  {
    if s == [] then 0 else s[0] + Sum(s[1..])
  }

  lemma {:induction false} SumConcat(a: seq<nat>, b: seq<nat>)
    ensures Sum(a + b) == Sum(a) + Sum(b)
    decreases |a|
  {
    if a == [] {
      assert a + b == b;
    } else {
      assert (a + b)[1..] == a[1..] + b;
      SumConcat(a[1..], b);
    }
  }

  lemma SumOne(x: nat)
    ensures Sum([x]) == x
  {
    assert [x][1..] == [];
  }

  lemma SumInsert(s: seq<nat>, i: nat, k: nat)
    requires i + 2 <= k <= |s|
    ensures Sum(Insert(s, k, s[i] + s[i + 1])[i + 2..]) == Sum(s[i..])
  {
    var f := s[i] + s[i + 1];
    var mid, rest := s[i + 2..k], s[k..];
    assert Insert(s, k, f)[i + 2..] == mid + ([f] + rest);
    SumConcat(mid, [f] + rest);
    SumConcat([f], rest);
    assert s[i..] == [s[i]] + ([s[i + 1]] + (mid + rest));
    SumConcat([s[i]], [s[i + 1]] + (mid + rest));
    SumConcat([s[i + 1]], mid + rest);
    SumConcat(mid, rest);
    SumOne(f);
    SumOne(s[i]);
    SumOne(s[i + 1]);
  }

  /** Joining two nodes keeps the total weight of the nodes still without a parent. */
  lemma JoinSum(t: Tables, b: Partial)
    requires Building(t, b) && |b.freq| < T
    ensures NextPair(|b.freq|) + 2 <= |b.freq|
    ensures Sum(Join(b).freq[NextPair(|b.freq|) + 2..]) == Sum(b.freq[NextPair(|b.freq|)..])
  {
    hide Sum, Complete, Distinct, Halve, Valid, Building, Insert, HalvedLeaves, LeafLinked;
    PlaceBehindPair(t, b);
    SumInsert(b.freq, NextPair(|b.freq|), JoinPlace(b));
  }

  lemma {:induction false} JoinAllSum(t: Tables, b: Partial)
    requires Building(t, b)
    ensures NextPair(|b.freq|) <= |b.freq|
    ensures JoinAll(b).freq[R] == Sum(b.freq[NextPair(|b.freq|)..])
    decreases T - |b.freq|
  {
    hide Join, Sum;
    if |b.freq| < T {
      JoinBuilds(t, b);
      JoinSum(t, b);
      JoinAllSum(t, Join(b));
      assert NextPair(|Join(b).freq|) == NextPair(|b.freq|) + 2;
    } else {
      LastSum(b.freq);
    }
  }

  lemma LastSum(freq: seq<nat>)
    requires |freq| == T
    ensures Sum(freq[R..]) == freq[R]
  {
    assert freq[R..] == [freq[R]];
    SumOne(freq[R]);
  }

  /** The total weight of the nodes from `x` on that are leaves or have both sons among
      the first `m` pairs. */
  ghost function ActiveSum(t: Tables, m: nat, x: nat): nat
    requires Shape(t) && x <= T
    decreases T - x
  {
    if x == T then 0
    else (if t.fils[x] >= T || t.fils[x] < 2 * m then t.freq[x] else 0) + ActiveSum(t, m, x + 1)
  }

  lemma {:induction false} ActivateParent(t: Tables, m: nat, x: nat)
    requires Valid(t) && 2 * m < R && x <= T
    ensures LinkedUp(t, 2 * m)
    ensures ActiveSum(t, m + 1, x) ==
            ActiveSum(t, m, x) + (if x <= t.prnt[2 * m] then t.freq[t.prnt[2 * m]] else 0)
    decreases T - x
  {
    assert LinkedUp(t, 2 * m);
    if x == T {
    } else {
      ActivateParent(t, m, x + 1);
      assert LinkedDown(t, x);
    }
  }

  lemma {:induction false} ActiveSumIsRoot(t: Tables, m: nat)
    requires Valid(t) && 2 * m <= R
    ensures ActiveSum(t, m, 2 * m) == t.freq[R]
    decreases R - 2 * m
  {
    if 2 * m == R {
      RootIsInternal(t);
      assert LinkedDown(t, R);
      assert ActiveSum(t, m, R) == t.freq[R] + ActiveSum(t, m, T);
    } else {
      ActiveSumIsRoot(t, m + 1);
      ActivateParent(t, m, 2 * m + 2);
      assert LinkedDown(t, 2 * m) && LinkedDown(t, 2 * m + 1);
      var p := t.prnt[2 * m];
      assert LinkedDown(t, p) && SumAt(t, p);
      assert ActiveSum(t, m, 2 * m) == t.freq[2 * m] + ActiveSum(t, m, 2 * m + 1);
    }
  }

  lemma HalvedSnoc(freq: seq<nat>, at: seq<nat>, x: nat)
    requires x < |freq| && forall p :: 0 <= p < |at| ==> at[p] < |freq|
    ensures Sum(HalvedAt(freq, at + [x])) == Sum(HalvedAt(freq, at)) + Halve(freq[x])
  {
    assert HalvedAt(freq, at + [x]) == HalvedAt(freq, at) + [Halve(freq[x])];
    SumConcat(HalvedAt(freq, at), [Halve(freq[x])]);
    SumOne(Halve(freq[x]));
  }

  /** The weights of the leaves among the first `n` nodes, halved. */
  ghost function HalvedTotal(t: Tables, n: nat): nat
    requires Shape(t) && n <= T
  {
    Sum(HalvedAt(t.freq, LeavesUpTo(t.fils, n)))
  }

  lemma HalvedTotalStep(t: Tables, n: nat)
    requires Shape(t) && n < T
    ensures t.fils[n] >= T ==>
      && HalvedTotal(t, n + 1) == HalvedTotal(t, n) + Halve(t.freq[n])
      && |LeavesUpTo(t.fils, n + 1)| == |LeavesUpTo(t.fils, n)| + 1
    ensures t.fils[n] < T ==>
      && HalvedTotal(t, n + 1) == HalvedTotal(t, n)
      && |LeavesUpTo(t.fils, n + 1)| == |LeavesUpTo(t.fils, n)|
  {
    if t.fils[n] >= T {
      HalvedSnoc(t.freq, LeavesUpTo(t.fils, n), n);
      assert LeavesUpTo(t.fils, n + 1) == LeavesUpTo(t.fils, n) + [n];
    } else {
      assert LeavesUpTo(t.fils, n + 1) == LeavesUpTo(t.fils, n);
    }
  }

  /** Halving leaves at most half the weight, and half a unit a leaf for rounding. */
  ghost predicate HalvedBound(t: Tables, total: nat, n: nat)
    requires Shape(t) && n <= T
  {
    2 * HalvedTotal(t, n) <= total - ActiveSum(t, 0, n) + |LeavesUpTo(t.fils, n)|
  }

  lemma HalvedBoundStep(t: Tables, total: nat, n: nat)
    requires Shape(t) && n < T && HalvedBound(t, total, n)
    ensures HalvedBound(t, total, n + 1)
  {
    HalvedTotalStep(t, n);
    assert 2 * Halve(t.freq[n]) <= t.freq[n] + 1;
  }

  lemma {:induction false} HalvedSum(t: Tables, total: nat, n: nat)
    requires Shape(t) && n <= T && total == ActiveSum(t, 0, 0)
    ensures HalvedBound(t, total, n)
  {
    if n == 0 {
      assert HalvedAt(t.freq, []) == [];
    } else {
      HalvedSum(t, total, n - 1);
      HalvedBoundStep(t, total, n - 1);
    }
  }

  lemma RebuiltRoot(t: Tables)
    requires Valid(t)
    ensures |Collected(t).freq| == N_CHAR
    ensures 2 * JoinAll(Collected(t)).freq[R] <= t.freq[R] + N_CHAR
  {
    CollectedBuilds(t);
    JoinAllSum(t, Collected(t));
    assert Collected(t).freq[0..] == Collected(t).freq;
    HalvedSum(t, ActiveSum(t, 0, 0), T);
    ActiveSumIsRoot(t, 0);
  }

  // ---------- connecting the parents ----------

  /** The last loop of `reconst`, from node `i` on. */
  function Connect(prnt: seq<nat>, fils: seq<nat>, i: nat): (r: seq<nat>)
    requires |prnt| == T + N_CHAR && |fils| == T && i <= T
    requires forall p :: 0 <= p < T ==> fils[p] < T + N_CHAR
    ensures |r| == |prnt|
    decreases T - i
  {
    if i == T then prnt else Connect(Adopt(prnt, fils[i], i), fils, i + 1)
  }

  ghost predicate Owns(fils: seq<nat>, p: nat, x: nat)
    requires p < |fils|
  {
    x == fils[p] || (fils[p] < T && x == fils[p] + 1)
  }

  /** Sons come in even pairs below the root, and nothing is anybody's son twice. */
  ghost predicate Pairs(fils: seq<nat>) {
    && |fils| == T && Distinct(fils)
    && forall p :: 0 <= p < T ==> fils[p] < T + N_CHAR && (fils[p] < T ==> fils[p] % 2 == 0 && fils[p] + 1 < R)
  }

  lemma OneOwner(fils: seq<nat>, p: nat, q: nat, x: nat)
    requires Pairs(fils) && p < q < T && Owns(fils, p, x)
    ensures !Owns(fils, q, x)
  {
    assert fils[p] != fils[q];
  }

  lemma {:induction false} ConnectLeaves(prnt: seq<nat>, fils: seq<nat>, i: nat, x: nat)
    requires |prnt| == T + N_CHAR && Pairs(fils) && i <= T && x < T + N_CHAR
    requires forall p :: i <= p < T ==> !Owns(fils, p, x)
    ensures Connect(prnt, fils, i)[x] == prnt[x]
    decreases T - i
  {
    if i == T {
    } else {
      assert !Owns(fils, i, x);
      ConnectLeaves(Adopt(prnt, fils[i], i), fils, i + 1, x);
    }
  }

  /** `Connect` gives `x` the node that owns it. */
  lemma {:induction false} ConnectOwner(prnt: seq<nat>, fils: seq<nat>, i: nat, p: nat, x: nat)
    requires |prnt| == T + N_CHAR && Pairs(fils) && i <= p < T && x < T + N_CHAR && Owns(fils, p, x)
    ensures Connect(prnt, fils, i)[x] == p
    decreases T - i
  {
    hide Distinct;
    var next := Adopt(prnt, fils[i], i);
    if i < p {
      ConnectOwner(next, fils, i + 1, p, x);
    } else {
      forall q | i + 1 <= q < T ensures !Owns(fils, q, x) { OneOwner(fils, p, q, x); }
      ConnectLeaves(next, fils, i + 1, x);
    }
  }

  /** The whole of `reconst`. */
  function Rebuilt(t: Tables): Tables
    requires Valid(t)
  {
    BuiltPairs(t);
    var b := JoinAll(Collected(t));
    Tables(b.freq + [t.freq[T]], b.fils, Connect(t.prnt, b.fils, 0))
  }

  lemma BuiltPairs(t: Tables)
    requires Valid(t)
    ensures |Collected(t).freq| == N_CHAR
    ensures Building(t, JoinAll(Collected(t))) && Pairs(JoinAll(Collected(t)).fils)
  {
    CollectedBuilds(t);
    JoinAllBuilds(t, Collected(t));
    var b := JoinAll(Collected(t));
    forall p | 0 <= p < T
      ensures b.fils[p] < T + N_CHAR && (b.fils[p] < T ==> b.fils[p] % 2 == 0 && b.fils[p] + 1 < R)
    {
      assert Node(b, p);
    }
  }

  lemma RebuiltDown(t: Tables, i: nat)
    requires Valid(t) && i < T
    ensures Shape(Rebuilt(t)) && LinkedDown(Rebuilt(t), i) && SumAt(Rebuilt(t), i)
  {
    BuiltPairs(t);
    var b := JoinAll(Collected(t));
    assert Node(b, i);
    ConnectOwner(t.prnt, b.fils, 0, i, b.fils[i]);
    if b.fils[i] < T { ConnectOwner(t.prnt, b.fils, 0, i, b.fils[i] + 1); }
  }

  lemma OwnerOf(t: Tables, e: nat) returns (p: nat)
    requires Valid(t) && e < R && e % 2 == 0
    ensures |Collected(t).freq| == N_CHAR
    ensures e + 1 < p < T && JoinAll(Collected(t)).fils[p] == e
  {
    BuiltPairs(t);
    var b := JoinAll(Collected(t));
    assert e < NextPair(|b.freq|) && Complete(b);
    assert e in b.fils;
    p :| 0 <= p < T && b.fils[p] == e;
    assert Node(b, p);
  }

  lemma RebuiltUp(t: Tables, i: nat)
    requires Valid(t) && i < R
    ensures Shape(Rebuilt(t)) && LinkedUp(Rebuilt(t), i)
  {
    var e := i - i % 2;
    var p := OwnerOf(t, e);
    BuiltPairs(t);
    ConnectOwner(t.prnt, JoinAll(Collected(t)).fils, 0, p, i);
  }

  lemma RebuiltLeaf(t: Tables, x: nat)
    requires Valid(t) && T <= x < T + N_CHAR
    ensures Shape(Rebuilt(t)) && LeafLinked(Rebuilt(t), x) && LeafLinked(t, x)
    ensures Rebuilt(t).freq[Rebuilt(t).prnt[x]] == Halve(t.freq[t.prnt[x]])
  {
    BuiltPairs(t);
    var b := JoinAll(Collected(t));
    assert x in b.fils;
    var p :| 0 <= p < T && b.fils[p] == x;
    ConnectOwner(t.prnt, b.fils, 0, p, x);
  }

  lemma RebuiltRootParent(t: Tables)
    requires Valid(t)
    ensures Rebuilt(t).prnt[R] == 0
  {
    BuiltPairs(t);
    ConnectLeaves(t.prnt, JoinAll(Collected(t)).fils, 0, R);
  }

  lemma RebuiltOrdered(t: Tables)
    requires Valid(t)
    ensures Shape(Rebuilt(t)) && Ordered(Rebuilt(t).freq) && Rebuilt(t).freq[R] < MAX_FREQ
  {
    hide Join, JoinAll, Connect, Collected;
    BuiltPairs(t);
    RebuiltRoot(t);
    var b := JoinAll(Collected(t));
    assert forall i :: 0 <= i < T ==> Rebuilt(t).freq[i] == b.freq[i];
  }

  /** Rebuilding restores the whole invariant, halves every symbol's weight and brings the
      root below the limit. */
  lemma RebuiltValid(t: Tables)
    requires Valid(t)
    ensures Valid(Rebuilt(t)) && Rebuilt(t).freq[R] < MAX_FREQ
    ensures 2 * Rebuilt(t).freq[R] <= t.freq[R] + N_CHAR
    ensures forall s :: 0 <= s < N_CHAR ==>
      LeafLinked(t, T + s) && LeafLinked(Rebuilt(t), T + s) && Weight(Rebuilt(t), s) == Halve(Weight(t, s))
  {
    RebuiltOrdered(t);
    RebuiltRoot(t);
    RebuiltRootParent(t);
    forall i | 0 <= i < T ensures LinkedDown(Rebuilt(t), i) && SumAt(Rebuilt(t), i) { RebuiltDown(t, i); }
    forall i | 0 <= i < R ensures LinkedUp(Rebuilt(t), i) { RebuiltUp(t, i); }
    forall x | T <= x < T + N_CHAR
      ensures LeafLinked(Rebuilt(t), x) && LeafLinked(t, x)
      ensures Rebuilt(t).freq[Rebuilt(t).prnt[x]] == Halve(t.freq[t.prnt[x]])
    {
      RebuiltLeaf(t, x);
    }
  }
}
