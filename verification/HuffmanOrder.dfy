/** Where everything stands in a rebuilt tree. Coder and decoder rebuild on their own, so it is
    not enough that the tree is a good one: ties have to fall the same way. */
module HuffmanOrder {
  import opened HuffmanTables
  import opened HuffmanRebuild

  /** Leaves stand as they stood in the old tree. */
  ghost predicate LeavesKept(t: Tables, b: Partial)
    requires Shape(t) && forall p :: 0 <= p < |b.fils| ==> b.fils[p] < T + N_CHAR
  {
    forall p, q :: 0 <= p < q < |b.fils| && b.fils[p] >= T && b.fils[q] >= T ==>
      t.prnt[b.fils[p]] < t.prnt[b.fils[q]]
  }

  /** Joined pairs stand in the order of their sons. */
  ghost predicate PairsOrdered(b: Partial) {
    forall p, q :: 0 <= p < q < |b.fils| && b.fils[p] < T && b.fils[q] < T ==> b.fils[p] < b.fils[q]
  }

  /** A pair stands behind every leaf that is not heavier. */
  ghost predicate LeavesFirst(b: Partial)
    requires |b.freq| == |b.fils|
  {
    forall p, q :: 0 <= p < q < |b.fils| && b.fils[p] < T <= b.fils[q] ==> b.freq[p] < b.freq[q]
  }

  ghost predicate InOrder(t: Tables, b: Partial)
    requires Building(t, b)
  {
    (forall p :: 0 <= p < |b.fils| ==> Node(b, p) && b.fils[p] < T + N_CHAR)
    && LeavesKept(t, b) && PairsOrdered(b) && LeavesFirst(b)
  }

  lemma SonsBelow(t: Tables, b: Partial)
    requires Building(t, b)
    ensures forall p :: 0 <= p < |b.fils| ==> Node(b, p) && b.fils[p] < T + N_CHAR
  {
    forall p | 0 <= p < |b.fils| ensures Node(b, p) && b.fils[p] < T + N_CHAR {
      assert Node(b, p);
    }
  }

  lemma CollectedInOrder(t: Tables)
    requires Valid(t)
    ensures Building(t, Collected(t)) && InOrder(t, Collected(t))
  {
    hide Building, Valid, Halve;
    CollectedBuilds(t);
    var b := Collected(t);
    SonsBelow(t, b);
    LeavesIncrease(t.fils, T);
    forall p | 0 <= p < |b.fils| ensures b.fils[p] >= T && t.prnt[b.fils[p]] == LeavesUpTo(t.fils, T)[p] {
      CollectedAt(t, p);
    }
  }

  /** Behind the place of the new node every pair would be heavier than two nodes that are no
      lighter than its own sons: there is none. */
  lemma OnlyLeavesBehind(t: Tables, b: Partial, m: nat)
    requires Building(t, b) && |b.freq| < T && JoinPlace(b) <= m < |b.freq|
    ensures b.fils[m] >= T
  {
    assert Node(b, m);
  }

  /** The pairs joined before come before the next one. */
  lemma PairTaken(t: Tables, b: Partial, m: nat)
    requires Building(t, b) && |b.freq| < T && m < |b.fils| && b.fils[m] < T
    ensures b.fils[m] < NextPair(|b.freq|)
  {
    assert Node(b, m);
  }

  lemma Sized(t: Tables, b: Partial)
    requires Building(t, b)
    ensures |b.freq| == |b.fils| && N_CHAR <= |b.freq| <= T && Shape(t)
  {}

  lemma PairNumber(j: nat)
    requires N_CHAR <= j < T
    ensures NextPair(j) < R
  {}

  /** The leaves of a joined table are the old ones, in their order. */
  lemma OldLeaf(b: Partial, p: nat) returns (q: nat)
    requires N_CHAR <= |b.freq| == |b.fils| < T && p < |Join(b).fils| && Join(b).fils[p] >= T
    ensures q < |b.fils| && b.fils[q] == Join(b).fils[p] && q == (if p < JoinPlace(b) then p else p - 1)
    ensures p != JoinPlace(b)
  {
    PairNumber(|b.freq|);
    q := if p < JoinPlace(b) then p else p - 1;
  }

  lemma JoinKeepsLeaves(t: Tables, b: Partial)
    requires Building(t, b) && InOrder(t, b) && |b.freq| < T
    ensures forall p :: 0 <= p < |Join(b).fils| ==> Join(b).fils[p] < T + N_CHAR
    ensures LeavesKept(t, Join(b))
  {
    hide Building, Node, Join, JoinPlace, PairsOrdered, LeavesFirst;
    Sized(t, b);
    JoinBuilds(t, b);
    SonsBelow(t, Join(b));
    var r := Join(b).fils;
    forall p, q | 0 <= p < q < |r| && r[p] >= T && r[q] >= T ensures t.prnt[r[p]] < t.prnt[r[q]] {
      var p1 := OldLeaf(b, p);
      var q1 := OldLeaf(b, q);
    }
  }

  lemma JoinKeepsPairs(t: Tables, b: Partial)
    requires Building(t, b) && InOrder(t, b) && |b.freq| < T
    ensures PairsOrdered(Join(b))
  {
    hide Building, Node, Sorted, LeavesKept, LeavesFirst;
    Sized(t, b);
    forall m | JoinPlace(b) <= m < |b.freq| ensures b.fils[m] >= T { OnlyLeavesBehind(t, b, m); }
    forall m | 0 <= m < |b.freq| && b.fils[m] < T ensures b.fils[m] < NextPair(|b.freq|) { PairTaken(t, b, m); }
  }

  lemma JoinLeavesFirst(t: Tables, b: Partial)
    requires Building(t, b) && InOrder(t, b) && |b.freq| < T
    ensures LeavesFirst(Join(b))
  {
    hide Building, Node, Sorted, LeavesKept, PairsOrdered;
    Sized(t, b);
    forall m | JoinPlace(b) <= m < |b.freq| ensures b.fils[m] >= T { OnlyLeavesBehind(t, b, m); }
    PairNumber(|b.freq|);
  }

  lemma JoinInOrder(t: Tables, b: Partial)
    requires Building(t, b) && InOrder(t, b) && |b.freq| < T
    ensures Building(t, Join(b)) && InOrder(t, Join(b))
  {
    hide Building, Node, LeavesKept, PairsOrdered, LeavesFirst;
    JoinBuilds(t, b);
    SonsBelow(t, Join(b));
    JoinKeepsLeaves(t, b);
    JoinKeepsPairs(t, b);
    JoinLeavesFirst(t, b);
  }

  lemma {:induction false} JoinAllInOrder(t: Tables, b: Partial)
    requires Building(t, b) && InOrder(t, b)
    ensures |b.freq| == |b.fils| && N_CHAR <= |b.freq| <= T
    ensures Building(t, JoinAll(b)) && InOrder(t, JoinAll(b))
    decreases T - |b.freq|
  {
    hide Building, InOrder, Join;
    Sized(t, b);
    if |b.freq| < T {
      JoinInOrder(t, b);
      JoinAllInOrder(t, Join(b));
    }
  }

  /** The rebuilt tree is settled down to its ties: leaves keep their order, pairs follow the
      order of their sons, and at equal weight a leaf comes before a pair. */
  lemma RebuiltOrder(t: Tables, i: nat, j: nat)
    requires Valid(t) && i < j < T
    ensures var r, f := Rebuilt(t).fils, Rebuilt(t).freq;
            && |r| == T && |f| == T + 1 && r[i] < T + N_CHAR && r[j] < T + N_CHAR
            && (r[i] >= T && r[j] >= T ==> t.prnt[r[i]] < t.prnt[r[j]])
            && (r[i] < T && r[j] < T ==> r[i] < r[j])
            && (r[i] < T <= r[j] ==> f[i] < f[j])
  {
    hide Building, Collected, Join, JoinAll, Node;
    CollectedInOrder(t);
    JoinAllInOrder(t, Collected(t));
    BuiltPairs(t);
    Sized(t, JoinAll(Collected(t)));
  }
}
