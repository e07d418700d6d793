/** The binary search trees of the match finder, and what they mean: one tree for each
    first byte, ordered by the F bytes of text at each position. */
module SearchTree {
  import opened Bytes

  const N: nat := 2048        // size of the window
  const F: nat := 60          // longest match
  const THRESHOLD: nat := 2   // longest match not worth coding
  const NIL: nat := N

  /** A position in the window. */
  type Pos = p: nat | p < N witness 0

  // ---------- keys ----------

  /** The window and the copy of its start that lets keys run past its end. */
  type Text = s: seq<byte> | |s| == N + F - 1 witness seq(N + F - 1, _ => 0)

  /** Byte `j` of the key at `p`. */
  function KeyAt(text: Text, p: Pos, j: nat): byte
    requires j < F
  {
    text[p + j]
  }

  ghost predicate Agree(text: Text, a: Pos, b: Pos, m: nat)
    requires m <= F
  {
    forall j :: 0 <= j < m ==> KeyAt(text, a, j) == KeyAt(text, b, j)
  }

  /** How far the keys at `a` and `b` agree, when they agree up to byte `i`. */
  function LcpFrom(text: Text, a: Pos, b: Pos, i: nat): (m: nat)
    requires i <= F
    ensures i <= m <= F
    ensures Agree(text, a, b, i) ==> Agree(text, a, b, m)
    ensures m < F ==> KeyAt(text, a, m) != KeyAt(text, b, m)
    decreases F - i
  {
    if i < F && KeyAt(text, a, i) == KeyAt(text, b, i) then LcpFrom(text, a, b, i + 1) else i
  }

  /** The length of the match between two positions. */
  function Lcp(text: Text, a: Pos, b: Pos): (m: nat)
    ensures m <= F && Agree(text, a, b, m)
    ensures m < F ==> KeyAt(text, a, m) != KeyAt(text, b, m)
  {
    LcpFrom(text, a, b, 0)
  }

  /** Key order. */
  predicate Less(text: Text, a: Pos, b: Pos)
  {
    var m := Lcp(text, a, b);
    m < F && KeyAt(text, a, m) < KeyAt(text, b, m)
  }

  /** The first difference is unique. */
  lemma LcpIs(text: Text, a: Pos, b: Pos, m: nat)
    requires m <= F && Agree(text, a, b, m)
    requires m < F ==> KeyAt(text, a, m) != KeyAt(text, b, m)
    ensures Lcp(text, a, b) == m
  {}

  lemma LcpSymmetric(text: Text, a: Pos, b: Pos)
    ensures Lcp(text, a, b) == Lcp(text, b, a)
  {
    LcpIs(text, b, a, Lcp(text, a, b));
  }

  lemma LessTotal(text: Text, a: Pos, b: Pos)
    ensures Lcp(text, a, b) == F || Less(text, a, b) || Less(text, b, a)
    ensures Less(text, a, b) ==> !Less(text, b, a)
  {
    LcpSymmetric(text, a, b);
  }

  /** Key order is transitive, and a key between two others agrees with each of them at
      least as far as they agree with each other. */
  lemma Between(text: Text, a: Pos, b: Pos, c: Pos)
    requires Less(text, a, b) && Less(text, b, c)
    ensures Less(text, a, c)
    ensures Lcp(text, a, c) <= Lcp(text, a, b) && Lcp(text, a, c) <= Lcp(text, b, c)
  {
    var m, n := Lcp(text, a, b), Lcp(text, b, c);
    if m < n {
      assert KeyAt(text, b, m) == KeyAt(text, c, m);
      LcpIs(text, a, c, m);
    } else {
      if n < m { assert KeyAt(text, a, n) == KeyAt(text, b, n); }
      LcpIs(text, a, c, n);
    }
  }

  // ---------- trees ----------

  datatype Tree = Nil | Node(left: Tree, pos: Pos, right: Tree)

  function Elems(t: Tree): set<Pos> {
    match t
    case Nil => {}
    case Node(l, p, r) => Elems(l) + {p} + Elems(r)
  }

  /** A search tree: keys strictly ascending from left to right. */
  ghost predicate Sorted(t: Tree, text: Text) {
    match t
    case Nil => true
    case Node(l, p, r) =>
      && Sorted(l, text) && Sorted(r, text)
      && (forall a :: a in Elems(l) ==> Less(text, a, p))
      && (forall b :: b in Elems(r) ==> Less(text, p, b))
  }

  /** A tree with a hole: what a search has passed on its way down. */
  datatype Context =
    | Top
    | InLeft(up: Context, pos: Pos, right: Tree)
    | InRight(up: Context, left: Tree, pos: Pos)

  function Plug(c: Context, t: Tree): Tree {
    match c
    case Top => t
    case InLeft(up, p, r) => Plug(up, Node(t, p, r))
    case InRight(up, l, p) => Plug(up, Node(l, p, t))
  }

  function ContextElems(c: Context): set<Pos> {
    match c
    case Top => {}
    case InLeft(up, p, r) => ContextElems(up) + {p} + Elems(r)
    case InRight(up, l, p) => ContextElems(up) + {p} + Elems(l)
  }

  lemma {:induction false} PlugElems(c: Context, t: Tree)
    ensures Elems(Plug(c, t)) == ContextElems(c) + Elems(t)
    decreases c
  {
    match c
    case Top =>
    case InLeft(up, p, r) => PlugElems(up, Node(t, p, r));
    case InRight(up, l, p) => PlugElems(up, Node(l, p, t));
  }

  /** `q` may stand in the hole: it compares rightly with every node above it. */
  ghost predicate Fits(c: Context, text: Text, q: Pos) {
    match c
    case Top => true
    case InLeft(up, p, r) => Less(text, q, p) && Fits(up, text, q)
    case InRight(up, l, p) => Less(text, p, q) && Fits(up, text, q)
  }

  ghost predicate AllFit(c: Context, text: Text, t: Tree) {
    forall q :: q in Elems(t) ==> Fits(c, text, q)
  }

  /** A sorted tree with a hole. */
  ghost predicate SortedContext(c: Context, text: Text) {
    match c
    case Top => true
    case InLeft(up, p, r) =>
      && SortedContext(up, text) && Fits(up, text, p)
      && Sorted(r, text) && AllFit(up, text, r)
      && (forall b :: b in Elems(r) ==> Less(text, p, b))
    case InRight(up, l, p) =>
      && SortedContext(up, text) && Fits(up, text, p)
      && Sorted(l, text) && AllFit(up, text, l)
      && (forall a :: a in Elems(l) ==> Less(text, a, p))
  }

  /** Filling the hole keeps the order exactly when what goes in is sorted and fits. */
  lemma {:induction false} PlugSorted(c: Context, t: Tree, text: Text)
    ensures Sorted(Plug(c, t), text) <==>
            SortedContext(c, text) && Sorted(t, text) && AllFit(c, text, t)
    decreases c
  {
    hide Less;
    match c
    case Top =>
    case InLeft(up, p, r) =>
      PlugSorted(up, Node(t, p, r), text);
      assert Elems(Node(t, p, r)) == Elems(t) + {p} + Elems(r);
    case InRight(up, l, p) =>
      PlugSorted(up, Node(l, p, t), text);
      assert Elems(Node(l, p, t)) == Elems(l) + {p} + Elems(t);
  }

  // ---------- trees in the arrays ----------

  /** The three arrays: sons, and the way up. Nodes are window positions; `N + 1 + b` is
      the root of the tree for first byte `b`, and only has a right son. */
  datatype Links = Links(lson: seq<nat>, rson: seq<nat>, dad: seq<nat>)

  ghost predicate Sized(k: Links) {
    |k.lson| == N + 1 && |k.rson| == N + 257 && |k.dad| == N + 1
  }

  /** Pointer `x`, held by `d`, is the tree `t`. */
  ghost predicate Linked(t: Tree, x: nat, d: nat, k: Links)
    requires Sized(k)
  {
    match t
    case Nil => x == NIL
    case Node(l, p, r) =>
      && x == p && k.dad[p] == d
      && Linked(l, k.lson[p], p, k) && Linked(r, k.rson[p], p, k)
  }

  /** Pointer `y`, held by `d`, is the context `c` around a hole that is the pointer `x`,
      held by `e`. */
  ghost predicate LinkedContext(c: Context, x: nat, e: nat, y: nat, d: nat, k: Links)
    requires Sized(k)
  {
    match c
    case Top => x == y && e == d
    case InLeft(up, p, r) =>
      && e == p && k.lson[p] == x && Linked(r, k.rson[p], p, k)
      && LinkedContext(up, p, k.dad[p], y, d, k)
    case InRight(up, l, p) =>
      && e == p && k.rson[p] == x && Linked(l, k.lson[p], p, k)
      && LinkedContext(up, p, k.dad[p], y, d, k)
  }

  lemma {:induction false} PlugLinked(c: Context, t: Tree, x: nat, e: nat, y: nat, d: nat, k: Links)
    requires Sized(k) && LinkedContext(c, x, e, y, d, k) && Linked(t, x, e, k)
    ensures Linked(Plug(c, t), y, d, k)
    decreases c
  {
    match c
    case Top =>
    case InLeft(up, p, r) => PlugLinked(up, Node(t, p, r), p, k.dad[p], y, d, k);
    case InRight(up, l, p) => PlugLinked(up, Node(l, p, t), p, k.dad[p], y, d, k);
  }

  /** Who holds the hole. */
  function Holder(c: Context, d: nat): nat {
    match c
    case Top => d
    case InLeft(_, p, _) => p
    case InRight(_, _, p) => p
  }

  lemma {:induction false} UnplugLinked(c: Context, t: Tree, y: nat, d: nat, k: Links) returns (x: nat)
    requires Sized(k) && Linked(Plug(c, t), y, d, k)
    ensures LinkedContext(c, x, Holder(c, d), y, d, k) && Linked(t, x, Holder(c, d), k)
    decreases c
  {
    match c
    case Top => x := y;
    case InLeft(up, p, r) =>
      var z := UnplugLinked(up, Node(t, p, r), y, d, k);
      x := k.lson[p];
    case InRight(up, l, p) =>
      var z := UnplugLinked(up, Node(l, p, t), y, d, k);
      x := k.rson[p];
  }

  /** `k` and `m` agree on every node in `s`. */
  ghost predicate SameOn(s: set<Pos>, k: Links, m: Links)
    requires Sized(k) && Sized(m)
  {
    forall p :: p in s ==> k.lson[p] == m.lson[p] && k.rson[p] == m.rson[p] && k.dad[p] == m.dad[p]
  }

  lemma {:induction false} LinkedFrame(t: Tree, x: nat, d: nat, k: Links, m: Links)
    requires Sized(k) && Sized(m) && Linked(t, x, d, k) && SameOn(Elems(t), k, m)
    ensures Linked(t, x, d, m)
  {
    match t
    case Nil =>
    case Node(l, p, r) =>
      LinkedFrame(l, k.lson[p], p, k, m);
      LinkedFrame(r, k.rson[p], p, k, m);
  }

  /** The same context with another pointer `z` in its hole. */
  ghost predicate HoleSet(c: Context, k: Links, m: Links, z: nat)
    requires Sized(k) && Sized(m)
  {
    match c
    case Top => true
    case InLeft(up, p, r) =>
      && m.lson[p] == z && m.rson[p] == k.rson[p] && m.dad[p] == k.dad[p]
      && SameOn(ContextElems(up) + Elems(r), k, m)
    case InRight(up, l, p) =>
      && m.rson[p] == z && m.lson[p] == k.lson[p] && m.dad[p] == k.dad[p]
      && SameOn(ContextElems(up) + Elems(l), k, m)
  }

  lemma {:induction false} ContextFrame(c: Context, x: nat, e: nat, y: nat, d: nat, k: Links, m: Links)
    requires Sized(k) && Sized(m) && LinkedContext(c, x, e, y, d, k) && SameOn(ContextElems(c), k, m)
    ensures LinkedContext(c, x, e, y, d, m)
    decreases c
  {
    match c
    case Top =>
    case InLeft(up, p, r) =>
      LinkedFrame(r, k.rson[p], p, k, m);
      ContextFrame(up, p, k.dad[p], y, d, k, m);
    case InRight(up, l, p) =>
      LinkedFrame(l, k.lson[p], p, k, m);
      ContextFrame(up, p, k.dad[p], y, d, k, m);
  }

  /** Changing only the hole's pointer. */
  lemma RefillHole(c: Context, x: nat, e: nat, y: nat, d: nat, k: Links, m: Links, z: nat)
    requires Sized(k) && Sized(m) && LinkedContext(c, x, e, y, d, k) && HoleSet(c, k, m, z)
    ensures LinkedContext(c, z, e, if c.Top? then z else y, d, m)
  {
    match c
    case Top =>
    case InLeft(up, p, r) =>
      LinkedFrame(r, k.rson[p], p, k, m);
      ContextFrame(up, p, k.dad[p], y, d, k, m);
    case InRight(up, l, p) =>
      LinkedFrame(l, k.lson[p], p, k, m);
      ContextFrame(up, p, k.dad[p], y, d, k, m);
  }
}
