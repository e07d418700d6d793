/** The adaptive Huffman tree of the compressor as the values of its three tables.
    Nodes are numbered by weight; `fils[i]` is the even one of the two sons of node `i`, or
    `T` plus a symbol when `i` is a leaf; `prnt` leads back up. */
module HuffmanTables {

  const N_CHAR: nat := 314        // 256 - THRESHOLD + F
  const T: nat := 627             // 2 * N_CHAR - 1
  const R: nat := 626             // the root
  const MAX_FREQ: nat := 0x8000
  const SENTINEL: nat := 0xffff

  datatype Tables = Tables(freq: seq<nat>, fils: seq<nat>, prnt: seq<nat>)

  ghost predicate Shape(t: Tables) {
    |t.freq| == T + 1 && |t.fils| == T && |t.prnt| == T + N_CHAR
  }

  ghost predicate IsLeaf(t: Tables, i: nat)
    requires Shape(t) && i < T
  {
    t.fils[i] >= T
  }

  /** Node `i` and what hangs below it point at each other; sons come earlier, in pairs. */
  ghost predicate LinkedDown(t: Tables, i: nat)
    requires Shape(t) && i < T
  {
    var s := t.fils[i];
    if s >= T then
      s < T + N_CHAR && t.prnt[s] == i
    else
      s % 2 == 0 && s + 1 < i && t.prnt[s] == i && t.prnt[s + 1] == i
  }

  ghost predicate LinkedUp(t: Tables, i: nat)
    requires Shape(t) && i < R
  {
    i < t.prnt[i] < T && t.fils[t.prnt[i]] == i - i % 2
  }

  ghost predicate LeafLinked(t: Tables, x: nat)
    requires Shape(t) && T <= x < T + N_CHAR
  {
    t.prnt[x] < T && t.fils[t.prnt[x]] == x
  }

  ghost predicate Links(t: Tables)
    requires Shape(t)
  {
    && (forall i :: 0 <= i < T ==> LinkedDown(t, i))
    && (forall i :: 0 <= i < R ==> LinkedUp(t, i))
    && (forall x :: T <= x < T + N_CHAR ==> LeafLinked(t, x))
    && t.prnt[R] == 0
  }

  /** Weights never fall from one node to the next, and a sentinel ends the table. */
  ghost predicate Ordered(freq: seq<nat>)
    requires |freq| == T + 1
  {
    && (forall i, j :: 0 <= i <= j < T ==> freq[i] <= freq[j])
    && freq[0] >= 1
    && freq[R] <= MAX_FREQ
    && freq[T] == SENTINEL
  }

  ghost predicate SumAt(t: Tables, i: nat)
    requires Shape(t) && i < T && LinkedDown(t, i)
  {
    !IsLeaf(t, i) ==> t.freq[i] == t.freq[t.fils[i]] + t.freq[t.fils[i] + 1]
  }

  /** The Huffman invariant. */
  ghost predicate Valid(t: Tables) {
    && Shape(t)
    && Links(t)
    && Ordered(t.freq)
    && forall i :: 0 <= i < T ==> SumAt(t, i)
  }

  /** In the middle of an update: node `c` is the one whose weight is still one short. */
  ghost predicate Mid(t: Tables, c: nat) {
    && Shape(t)
    && Links(t)
    && Ordered(t.freq)
    && c < T
    && t.freq[R] < MAX_FREQ
    && (forall i :: 0 <= i < T && i != c ==> SumAt(t, i))
    && (!IsLeaf(t, c) ==> t.freq[c] + 1 == t.freq[t.fils[c]] + t.freq[t.fils[c] + 1])
  }

  // ---------- one step of `update` ----------

  /** A 16-bit value read as a `short`. */
  function Short(n: nat): int {
    if n < 0x8000 then n else n - 0x10000
  }

  /** The last node after `l` whose weight is below `k`. */
  function Scan(freq: seq<nat>, l: nat, k: int): (r: nat)
    requires l < T && |freq| == T + 1 && k <= freq[T]
    ensures l <= r < T && k <= freq[r + 1]
    ensures forall m :: l < m <= r ==> freq[m] < k
    decreases T - l
  {
    if k > freq[l + 1] then Scan(freq, l + 1, k) else l
  }

  /** Hang the subtree `s` (a leaf code or a pair of sons) under node `p`. */
  function Adopt(prnt: seq<nat>, s: nat, p: nat): (r: seq<nat>)
    requires |prnt| == T + N_CHAR && s < T + N_CHAR
    ensures |r| == |prnt|
  {
    if s < T then prnt[s := p][s + 1 := p] else prnt[s := p]
  }

  /** Where node `c` ends up when its weight grows by one. */
  function Target(t: Tables, c: nat): (l: nat)
    requires Shape(t) && c < T && t.freq[T] == SENTINEL && t.freq[c] < MAX_FREQ
    ensures c <= l < T
  {
    var k := Short(t.freq[c] + 1);
    if k > t.freq[c + 1] then Scan(t.freq, c + 1, k) else c
  }

  /** Raise the weight of node `c`, exchanging it with the last node it overtakes. */
  function Bump(t: Tables, c: nat): (r: Tables)
    requires Mid(t, c)
    ensures Shape(r)
  {
    RootIsMax(t, c);
    var k := t.freq[c] + 1;
    var l := Target(t, c);
    if l == c then
      t.(freq := t.freq[c := k])
    else
      var i, j := t.fils[c], t.fils[l];
      assert LinkedDown(t, c) && LinkedDown(t, l);
      Tables(t.freq[c := t.freq[l]][l := k],
             t.fils[l := i][c := j],
             Adopt(Adopt(t.prnt, i, l), j, c))
  }

  lemma RootIsMax(t: Tables, c: nat)
    requires Shape(t) && Ordered(t.freq) && c < T && t.freq[R] < MAX_FREQ
    ensures t.freq[c] <= t.freq[R]
  {}

  /** Below the root a node weighs less than the root. */
  lemma LighterThanRoot(t: Tables, c: nat)
    requires Shape(t) && Links(t) && Ordered(t.freq) && c < R && (forall i :: c < i < T ==> SumAt(t, i))
    ensures t.freq[c] < t.freq[R]
  {
    assert LinkedUp(t, c);
    var p := t.prnt[c];
    assert LinkedDown(t, p) && SumAt(t, p);
    assert t.freq[p] <= t.freq[R];
    assert t.freq[0] <= t.freq[if c % 2 == 0 then c + 1 else c - 1];
  }

  /** The exchange partner weighs exactly what `c` weighed. */
  lemma TargetWeight(t: Tables, c: nat)
    requires Mid(t, c) && c < R
    ensures var l := Target(t, c);
            && l < R && t.freq[l] == t.freq[c] && t.freq[c] < t.freq[l + 1]
            && (l == c || c + 1 <= l)
  {
    LighterThanRoot(t, c);
    var k := t.freq[c] + 1;
    var l := Target(t, c);
    if l != c {
      assert t.freq[c] <= t.freq[l];
      if l == c + 1 { assert t.freq[c + 1] < k; } else { assert t.freq[l] < k; }
    }
  }

  /** Sons of the exchange partner lie below `c`: it is not an ancestor of `c`. */
  lemma PartnerSonsBelow(t: Tables, c: nat, l: nat)
    requires Mid(t, c) && c < l < R && t.freq[l] == t.freq[c]
    ensures !IsLeaf(t, l) ==> t.fils[l] + 1 < c
  {
    if !IsLeaf(t, l) {
      assert LinkedDown(t, l) && SumAt(t, l);
      var j := t.fils[l];
      assert t.freq[0] <= t.freq[j];
      assert t.freq[j + 1] < t.freq[c];
    }
  }

  /** Node `a` lies on the way from `c` to the root. */
  ghost predicate Ancestor(t: Tables, a: nat, c: nat)
    requires Shape(t) && Links(t) && c < T
    decreases T - c
  {
    c < R && (assert LinkedUp(t, c); t.prnt[c] == a || Ancestor(t, a, t.prnt[c]))
  }

  lemma {:induction false} AncestorHeavier(t: Tables, c: nat, a: nat, x: nat)
    requires Mid(t, c) && c <= x < R && Ancestor(t, a, x)
    ensures x < a < T && t.freq[a] > t.freq[x]
    decreases T - x
  {
    assert LinkedUp(t, x);
    var p := t.prnt[x];
    assert LinkedDown(t, p) && SumAt(t, p);
    assert t.freq[0] <= t.freq[if x % 2 == 0 then x + 1 else x - 1];
    if p == a {
    } else {
      AncestorHeavier(t, c, a, p);
    }
  }

  /** A node is never exchanged with one of its own ancestors. */
  lemma NeverAncestor(t: Tables, c: nat, a: nat)
    requires Mid(t, c) && c < R && Ancestor(t, a, c)
    ensures Target(t, c) != a
  {
    TargetWeight(t, c);
    AncestorHeavier(t, c, a, c);
  }

  lemma BumpOrdered(t: Tables, c: nat)
    requires Mid(t, c)
    ensures var l := Target(t, c);
            && Ordered(Bump(t, c).freq)
            && Bump(t, c).freq == t.freq[l := t.freq[l] + 1]
            && (c == R ==> l == R)
  {
    if c == R {
      assert Short(t.freq[R] + 1) <= t.freq[T];
    } else {
      TargetWeight(t, c);
      var l := Target(t, c);
      var f := Bump(t, c).freq;
      assert f == t.freq[l := t.freq[l] + 1];
      assert forall j :: l < j < T ==> t.freq[l + 1] <= t.freq[j];
      LighterThanRoot(t, l);
    }
  }

  lemma RootStays(t: Tables, c: nat)
    requires Mid(t, c) && c < R
    ensures Bump(t, c).prnt[R] == 0
  {
    TargetWeight(t, c);
    var l := Target(t, c);
    if l != c {
      PartnerSonsBelow(t, c, l);
      assert LinkedDown(t, c) && LinkedDown(t, l);
    }
  }

  lemma BumpDown(t: Tables, c: nat, i: nat)
    requires Mid(t, c) && c < R && i < T
    ensures LinkedDown(Bump(t, c), i)
  {
    TargetWeight(t, c);
    var l := Target(t, c);
    if l != c {
      PartnerSonsBelow(t, c, l);
      assert LinkedDown(t, i) && LinkedDown(t, c) && LinkedDown(t, l);
    } else {
      assert LinkedDown(t, i);
    }
  }

  lemma BumpUp(t: Tables, c: nat, i: nat)
    requires Mid(t, c) && c < R && i < R
    ensures LinkedUp(Bump(t, c), i)
  {
    TargetWeight(t, c);
    var l := Target(t, c);
    assert LinkedUp(t, i);
    if l != c {
      PartnerSonsBelow(t, c, l);
      assert LinkedDown(t, c) && LinkedDown(t, l);
    }
  }

  lemma BumpLeaf(t: Tables, c: nat, x: nat)
    requires Mid(t, c) && c < R && T <= x < T + N_CHAR
    ensures LeafLinked(Bump(t, c), x)
  {
    TargetWeight(t, c);
    var l := Target(t, c);
    assert LeafLinked(t, x);
    if l != c {
      PartnerSonsBelow(t, c, l);
      assert LinkedDown(t, c) && LinkedDown(t, l);
    }
  }

  lemma BumpLinks(t: Tables, c: nat)
    requires Mid(t, c)
    ensures Links(Bump(t, c))
  {
    if c == R {
      BumpOrdered(t, c);
      forall i | 0 <= i < T ensures LinkedDown(Bump(t, c), i) { assert LinkedDown(t, i); }
      forall i | 0 <= i < R ensures LinkedUp(Bump(t, c), i) { assert LinkedUp(t, i); }
      forall x | T <= x < T + N_CHAR ensures LeafLinked(Bump(t, c), x) { assert LeafLinked(t, x); }
    } else {
      RootStays(t, c);
      forall i | 0 <= i < T ensures LinkedDown(Bump(t, c), i) { BumpDown(t, c, i); }
      forall i | 0 <= i < R ensures LinkedUp(Bump(t, c), i) { BumpUp(t, c, i); }
      forall x | T <= x < T + N_CHAR ensures LeafLinked(Bump(t, c), x) { BumpLeaf(t, c, x); }
    }
  }

  /** What the step does to the tables, stated without `Bump`'s branches. */
  lemma BumpShape(t: Tables, c: nat)
    requires Mid(t, c) && c < R
    ensures var l := Target(t, c); var r := Bump(t, c);
            && c <= l < R
            && r.freq == t.freq[l := t.freq[l] + 1] && t.freq[l] == t.freq[c]
            && r.fils == t.fils[c := t.fils[l]][l := t.fils[c]]
            && r.prnt[l] == t.prnt[l]
            && (!IsLeaf(t, l) && l != c ==> t.fils[l] + 1 < c)
  {
    TargetWeight(t, c);
    BumpOrdered(t, c);
    var l := Target(t, c);
    assert LinkedDown(t, c) && LinkedDown(t, l);
    if l != c {
      PartnerSonsBelow(t, c, l);
    }
  }

  /** The shortfall of node `i` when node `c` is one short. */
  ghost predicate ShortAt(t: Tables, i: nat)
    requires Shape(t) && i < T && LinkedDown(t, i)
  {
    !IsLeaf(t, i) && t.freq[i] + 1 == t.freq[t.fils[i]] + t.freq[t.fils[i] + 1]
  }

  lemma BumpSumMoved(t: Tables, c: nat, i: nat)
    requires Mid(t, c) && c < R && (i == c || i == Target(t, c))
    ensures i < T && LinkedDown(Bump(t, c), i) && SumAt(Bump(t, c), i)
  {
    BumpShape(t, c);
    BumpDown(t, c, i);
    var l := Target(t, c);
    assert LinkedDown(t, c);
    if l != c {
      assert LinkedDown(t, l) && SumAt(t, l);
    }
  }

  lemma BumpSumOther(t: Tables, c: nat, i: nat)
    requires Mid(t, c) && c < R && i < T && i != c && i != Target(t, c)
    ensures LinkedDown(Bump(t, c), i)
    ensures if i == t.prnt[Target(t, c)] then ShortAt(Bump(t, c), i) else SumAt(Bump(t, c), i)
  {
    hide Target, Bump, LinkedDown;
    BumpShape(t, c);
    BumpDown(t, c, i);
    var l := Target(t, c);
    assert SumAt(t, i) && LinkedUp(t, l);
  }

  /** After the step the shortfall has moved to the parent of the raised node. */
  lemma BumpSums(t: Tables, c: nat)
    requires Mid(t, c) && c < R
    ensures var r := Bump(t, c); var p := r.prnt[Target(t, c)];
            && c < p < T && Mid(r, p)
  {
    var l := Target(t, c);
    var r := Bump(t, c);
    BumpShape(t, c);
    BumpLinks(t, c);
    BumpOrdered(t, c);
    assert LinkedUp(t, l);
    forall i | 0 <= i < T ensures if i == r.prnt[l] then ShortAt(r, i) else SumAt(r, i) {
      if i == c || i == l { BumpSumMoved(t, c, i); } else { BumpSumOther(t, c, i); }
    }
    assert ShortAt(r, r.prnt[l]);
  }

  /** At the root the update ends, with every sum restored. */
  lemma BumpRoot(t: Tables)
    requires Mid(t, R)
    ensures Valid(Bump(t, R)) && Bump(t, R).prnt[Target(t, R)] == 0
    ensures Bump(t, R) == t.(freq := t.freq[R := t.freq[R] + 1])
  {
    BumpOrdered(t, R);
    BumpLinks(t, R);
    var r := Bump(t, R);
    forall i | 0 <= i < T ensures SumAt(r, i) {
      assert LinkedDown(t, i);
      if i != R { assert SumAt(t, i); }
    }
  }

  // ---------- the whole climb ----------

  /** The loop of `update`: raise nodes from `c` up to the root. */
  function Climb(t: Tables, c: nat): (r: Tables)
    requires Mid(t, c)
    ensures Valid(r)
    ensures r.freq[R] == t.freq[R] + 1
    decreases T - c
  {
    var r := Bump(t, c);
    var p := r.prnt[Target(t, c)];
    if c == R then
      BumpRoot(t);
      r
    else
      BumpSums(t, c);
      BumpShape(t, c);
      Climb(r, p)
  }

  lemma ClimbUnfolds(t: Tables, c: nat)
    requires Mid(t, c)
    ensures var r := Bump(t, c); var p := r.prnt[Target(t, c)];
            if c == R then p == 0 && Climb(t, c) == r
            else c < p < T && Mid(r, p) && Climb(t, c) == Climb(r, p)
  {
    if c == R {
      BumpRoot(t);
    } else {
      BumpSums(t, c);
      BumpShape(t, c);
    }
  }

  /** The weight of a symbol is the weight of its leaf. */
  function Weight(t: Tables, s: nat): nat
    requires Shape(t) && s < N_CHAR && t.prnt[T + s] < T
  {
    t.freq[t.prnt[T + s]]
  }

  /** One step moves leaves but changes no leaf weight, except that of `c` itself. */
  lemma BumpWeight(t: Tables, c: nat, s: nat)
    requires Mid(t, c) && c < R && s < N_CHAR
    ensures LeafLinked(t, T + s) && LeafLinked(Bump(t, c), T + s)
    ensures Weight(Bump(t, c), s) == Weight(t, s) + (if t.fils[c] == T + s then 1 else 0)
  {
    BumpShape(t, c);
    BumpLeaf(t, c, T + s);
    assert LeafLinked(t, T + s);
    var l := Target(t, c);
    assert LinkedDown(t, c) && LinkedDown(t, l);
  }

  lemma {:induction false} ClimbWeight(t: Tables, c: nat, s: nat)
    requires Mid(t, c) && s < N_CHAR
    ensures LeafLinked(t, T + s) && LeafLinked(Climb(t, c), T + s)
    ensures Weight(Climb(t, c), s) == Weight(t, s) + (if t.fils[c] == T + s then 1 else 0)
    decreases T - c
  {
    if c == R {
      BumpRoot(t);
      RootIsInternal(t);
      assert LeafLinked(t, T + s);
    } else {
      BumpWeight(t, c, s);
      BumpSums(t, c);
      BumpShape(t, c);
      var r := Bump(t, c);
      var p := r.prnt[Target(t, c)];
      assert LinkedUp(r, Target(t, c));
      ClimbWeight(r, p, s);
    }
  }

  /** The root is never a leaf: node 0 has a parent chain that ends there. */
  lemma RootIsInternal(t: Tables)
    requires Shape(t) && Links(t)
    ensures !IsLeaf(t, R)
  {
    assert LinkedUp(t, R - 1);
  }
}
