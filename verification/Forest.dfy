/** The 256 trees of the match finder together, and what inserting and deleting do to them. */
module Forest {
  import opened Bytes
  import opened SearchTree

  function Root(b: nat): nat { N + 1 + b }

  /** The tree for first byte `b` is in order and in place. */
  ghost predicate TreeOk(t: Tree, b: nat, k: Links, text: Text)
    requires Sized(k) && b < 256
  {
    && Linked(t, k.rson[Root(b)], Root(b), k)
    && Sorted(t, text)
    && forall p :: p in Elems(t) ==> KeyAt(text, p, 0) == b
  }

  /** A position is registered when it has a parent. */
  ghost predicate Registered(k: Links, p: Pos)
    requires Sized(k)
  {
    k.dad[p] != NIL
  }

  /** All trees are well formed and hold exactly the registered positions. */
  ghost predicate ForestOk(f: seq<Tree>, k: Links, text: Text) {
    && |f| == 256 && Sized(k)
    && (forall b :: 0 <= b < 256 ==> TreeOk(f[b], b, k, text))
    && (forall p: Pos :: Registered(k, p) ==> p in Elems(f[KeyAt(text, p, 0)]))
  }

  // ---------- distinctness, from order ----------

  lemma NotLessSelf(text: Text, p: Pos)
    ensures !Less(text, p, p)
  {}

  lemma {:induction false} FitsOutside(c: Context, text: Text, q: Pos)
    requires SortedContext(c, text) && Fits(c, text, q)
    ensures q !in ContextElems(c)
    decreases c
  {
    NotLessSelf(text, q);
    match c
    case Top =>
    case InLeft(up, p, r) =>
      LessTotal(text, q, p);
      FitsOutside(up, text, q);
    case InRight(up, l, p) =>
      LessTotal(text, p, q);
      FitsOutside(up, text, q);
  }

  lemma SidesApart(l: Tree, p: Pos, r: Tree, text: Text)
    requires Sorted(Node(l, p, r), text)
    ensures p !in Elems(l) && p !in Elems(r) && Elems(l) !! Elems(r)
  {
    NotLessSelf(text, p);
    forall a | a in Elems(l) && a in Elems(r) ensures false { LessTotal(text, a, p); }
  }

  /** The top pointer of a tree points into it, or nowhere. */
  lemma TopPointer(t: Tree, x: nat, d: nat, k: Links)
    requires Sized(k) && Linked(t, x, d, k)
    ensures if t.Nil? then x == NIL else x < N && x in Elems(t)
  {}

  /** Everything in a tree hanging from a real parent is registered. */
  lemma {:induction false} LinkedRegistered(t: Tree, x: nat, d: nat, k: Links)
    requires Sized(k) && Linked(t, x, d, k) && d != NIL
    ensures forall p :: p in Elems(t) ==> Registered(k, p)
  {
    match t
    case Nil =>
    case Node(l, p, r) =>
      LinkedRegistered(l, k.lson[p], p, k);
      LinkedRegistered(r, k.rson[p], p, k);
  }

  /** In a good forest, being registered and being in the tree of one's first byte are one. */
  lemma RegisteredIffIn(f: seq<Tree>, k: Links, text: Text, p: Pos)
    requires ForestOk(f, k, text)
    ensures Registered(k, p) <==> p in Elems(f[KeyAt(text, p, 0)])
    ensures forall b :: 0 <= b < 256 && p in Elems(f[b]) ==> b == KeyAt(text, p, 0)
  {
    var b := KeyAt(text, p, 0);
    assert TreeOk(f[b], b, k, text);
    LinkedRegistered(f[b], k.rson[Root(b)], Root(b), k);
    forall c | 0 <= c < 256 && p in Elems(f[c]) ensures c == b { assert TreeOk(f[c], c, k, text); }
  }

  // ---------- changing one tree ----------

  /** Nodes and root pointers of the other trees are untouched. */
  ghost predicate OthersKept(f: seq<Tree>, b: nat, k: Links, m: Links)
    requires |f| == 256 && Sized(k) && Sized(m)
  {
    forall c :: 0 <= c < 256 && c != b ==> SameOn(Elems(f[c]), k, m) && k.rson[Root(c)] == m.rson[Root(c)]
  }

  /** A new tree for `b`, with the rest kept, makes a good forest. */
  lemma ReplaceTree(f: seq<Tree>, k: Links, m: Links, text: Text, b: nat, t: Tree)
    requires ForestOk(f, k, text) && Sized(m) && b < 256
    requires OthersKept(f, b, k, m) && TreeOk(t, b, m, text)
    requires forall p: Pos :: Registered(m, p) ==> p in Elems(t) || (Registered(k, p) && p !in Elems(f[b]))
    ensures ForestOk(f[b := t], m, text)
  {
    forall c | 0 <= c < 256 && c != b ensures TreeOk(f[c], c, m, text) {
      assert TreeOk(f[c], c, k, text);
      LinkedFrame(f[c], k.rson[Root(c)], Root(c), k, m);
    }
    forall p: Pos | Registered(m, p) ensures p in Elems(f[b := t][KeyAt(text, p, 0)]) {
      if p !in Elems(t) { RegisteredIffIn(f, k, text, p); }
    }
  }

  /** A change confined to the nodes in `s`, the new node and the root of tree `b` keeps
      the other trees. */
  lemma ConfinedKeepsOthers(f: seq<Tree>, k: Links, m: Links, text: Text, b: nat, s: set<Pos>)
    requires ForestOk(f, k, text) && Sized(m) && b < 256
    requires forall p :: p in s ==> KeyAt(text, p, 0) == b
    requires forall p: Pos :: p !in s ==> k.lson[p] == m.lson[p] && k.rson[p] == m.rson[p] && k.dad[p] == m.dad[p]
    requires forall c :: 0 <= c < 256 && c != b ==> k.rson[Root(c)] == m.rson[Root(c)]
    ensures OthersKept(f, b, k, m)
  {
    forall c | 0 <= c < 256 && c != b ensures SameOn(Elems(f[c]), k, m) {
      assert TreeOk(f[c], c, k, text);
    }
  }

  // ---------- the hole's pointer ----------

  ghost predicate HoleRight(c: Context) {
    !c.InLeft?
  }

  /** Store `z` in the pointer that holder `e` has for the hole. */
  function SetHole(k: Links, right: bool, e: nat, z: nat): (m: Links)
    requires Sized(k) && (if right then e < N + 257 else e <= N)
    ensures Sized(m)
  {
    if right then k.(rson := k.rson[e := z]) else k.(lson := k.lson[e := z])
  }

  // ---------- inserting at a leaf ----------

  function Attached(k: Links, right: bool, e: nat, r: Pos): (m: Links)
    requires Sized(k) && (if right then e < N + 257 else e <= N)
    ensures Sized(m)
  {
    var cleared := Links(k.lson[r := NIL], k.rson[r := NIL], k.dad[r := e]);
    SetHole(cleared, right, e, r)
  }

  lemma AttachHoleLeft(up: Context, p: Pos, t: Tree, k: Links, r: Pos)
    requires Sized(k) && p !in ContextElems(up) && p !in Elems(t) && r !in ContextElems(InLeft(up, p, t))
    ensures HoleSet(InLeft(up, p, t), k, Attached(k, false, p, r), r)
  {
    forall q | q in ContextElems(up) + Elems(t) ensures q != p && q != r {}
  }

  lemma AttachHoleRight(up: Context, t: Tree, p: Pos, k: Links, r: Pos)
    requires Sized(k) && p !in ContextElems(up) && p !in Elems(t) && r !in ContextElems(InRight(up, t, p))
    ensures HoleSet(InRight(up, t, p), k, Attached(k, true, p, r), r)
  {
    forall q | q in ContextElems(up) + Elems(t) ensures q != p && q != r {}
  }

  lemma AttachHole(c: Context, k: Links, text: Text, b: nat, r: Pos)
    requires Sized(k) && b < 256 && SortedContext(c, text) && Fits(c, text, r)
    ensures var e := Holder(c, Root(b));
            && (if HoleRight(c) then e < N + 257 else e <= N)
            && HoleSet(c, k, Attached(k, HoleRight(c), e, r), r)
  {
    ContextHolder(c, text);
    FitsOutside(c, text, r);
    match c
    case Top =>
    case InLeft(up, p, t) => AttachHoleLeft(up, p, t, k, r);
    case InRight(up, t, p) => AttachHoleRight(up, t, p, k, r);
  }

  /** The tree of `r`'s first byte, with `r` in the hole. */
  lemma AttachTree(t: Tree, k: Links, text: Text, c: Context, r: Pos, b: nat)
    requires Sized(k) && b == KeyAt(text, r, 0) && TreeOk(t, b, k, text)
    requires t == Plug(c, Nil) && Fits(c, text, r)
    ensures var e := Holder(c, Root(b));
            && (if HoleRight(c) then e < N + 257 else e <= N)
            && TreeOk(Plug(c, Node(Nil, r, Nil)), b, Attached(k, HoleRight(c), e, r), text)
  {
    hide Less;
    var e := Holder(c, Root(b));
    PlugSorted(c, Nil, text);
    PlugSorted(c, Node(Nil, r, Nil), text);
    PlugElems(c, Nil);
    PlugElems(c, Node(Nil, r, Nil));
    AttachHole(c, k, text, b, r);
    var m := Attached(k, HoleRight(c), e, r);
    var x := UnplugLinked(c, Nil, k.rson[Root(b)], Root(b), k);
    RefillHole(c, x, e, k.rson[Root(b)], Root(b), k, m, r);
    PlugLinked(c, Node(Nil, r, Nil), r, e, m.rson[Root(b)], Root(b), m);
  }

  /** A search that ends at an empty hole where `r` fits may put it there. */
  lemma AttachOk(f: seq<Tree>, k: Links, text: Text, c: Context, r: Pos)
    requires ForestOk(f, k, text) && !Registered(k, r)
    requires f[KeyAt(text, r, 0)] == Plug(c, Nil) && Fits(c, text, r)
    ensures var b := KeyAt(text, r, 0); var e := Holder(c, Root(b));
            && (if HoleRight(c) then e < N + 257 else e <= N)
            && ForestOk(f[b := Plug(c, Node(Nil, r, Nil))], Attached(k, HoleRight(c), e, r), text)
            && forall n: Pos :: Registered(Attached(k, HoleRight(c), e, r), n) <==> n == r || Registered(k, n)
  {
    hide Less, Fits, KeyAt, Linked;
    var b := KeyAt(text, r, 0);
    assert TreeOk(f[b], b, k, text);
    AttachTree(f[b], k, text, c, r, b);
    PlugElems(c, Nil);
    PlugElems(c, Node(Nil, r, Nil));
    var m := Attached(k, HoleRight(c), Holder(c, Root(b)), r);
    ConfinedKeepsOthers(f, k, m, text, b, ContextElems(c) + {r});
    ReplaceTree(f, k, m, text, b, Plug(c, Node(Nil, r, Nil)));
  }

  /** The node that holds the hole is none of the other nodes of the context. */
  lemma ContextHolder(c: Context, text: Text)
    requires SortedContext(c, text)
    ensures match c
      case Top => true
      case InLeft(up, p, r) => p !in ContextElems(up) && p !in Elems(r)
      case InRight(up, l, p) => p !in ContextElems(up) && p !in Elems(l)
  {
    match c
    case Top =>
    case InLeft(up, p, r) => FitsOutside(up, text, p); NotLessSelf(text, p);
    case InRight(up, l, p) => FitsOutside(up, text, p); NotLessSelf(text, p);
  }

  // ---------- exchanging a subtree ----------

  /** In `m`, the hole of `c` holds `z`, and nothing above it has changed. */
  ghost predicate HoleNow(c: Context, k: Links, m: Links, b: nat, z: nat)
    requires Sized(k) && Sized(m) && b < 256
  {
    && HoleSet(c, k, m, z)
    && m.rson[Root(b)] == if c.Top? then z else k.rson[Root(b)]
  }

  lemma SwapTree(t: Tree, k: Links, m: Links, text: Text, b: nat, c: Context, was: Tree, now: Tree, z: nat)
    requires Sized(k) && Sized(m) && b < 256 && TreeOk(t, b, k, text) && t == Plug(c, was)
    requires HoleNow(c, k, m, b, z)
    requires Linked(now, z, Holder(c, Root(b)), m) && Sorted(now, text) && AllFit(c, text, now)
    requires forall p :: p in Elems(now) ==> KeyAt(text, p, 0) == b
    ensures TreeOk(Plug(c, now), b, m, text)
  {
    PlugSorted(c, was, text);
    PlugSorted(c, now, text);
    PlugElems(c, was);
    PlugElems(c, now);
    var x := UnplugLinked(c, was, k.rson[Root(b)], Root(b), k);
    RefillHole(c, x, Holder(c, Root(b)), k.rson[Root(b)], Root(b), k, m, z);
    PlugLinked(c, now, z, Holder(c, Root(b)), m.rson[Root(b)], Root(b), m);
  }

  /** Hang a whole tree from another parent. */
  lemma Rehang(t: Tree, x: nat, d: nat, e: nat, k: Links, m: Links)
    requires Sized(k) && Sized(m) && Linked(t, x, d, k)
    requires t.Node? ==> m.dad[t.pos] == e && m.lson[t.pos] == k.lson[t.pos] && m.rson[t.pos] == k.rson[t.pos]
    requires t.Node? ==> SameOn(Elems(t.left) + Elems(t.right), k, m)
    ensures Linked(t, x, e, m)
  {
    match t
    case Nil =>
    case Node(l, p, r) =>
      LinkedFrame(l, k.lson[p], p, k, m);
      LinkedFrame(r, k.rson[p], p, k, m);
  }

  // ---------- replacing a node by one with the same key ----------

  lemma SameKeyLess(text: Text, p: Pos, r: Pos, q: Pos)
    requires Lcp(text, p, r) == F
    ensures Less(text, q, p) <==> Less(text, q, r)
    ensures Less(text, p, q) <==> Less(text, r, q)
  {
    assert forall j :: 0 <= j < F ==> KeyAt(text, p, j) == KeyAt(text, r, j);
    LcpIs(text, q, r, Lcp(text, q, p));
    LcpIs(text, r, q, Lcp(text, p, q));
  }

  lemma {:induction false} SameKeyFits(c: Context, text: Text, p: Pos, r: Pos)
    requires Lcp(text, p, r) == F && Fits(c, text, p)
    ensures Fits(c, text, r)
    decreases c
  {
    match c
    case Top =>
    case InLeft(up, q, t) => SameKeyLess(text, p, r, q); SameKeyFits(up, text, p, r);
    case InRight(up, t, q) => SameKeyLess(text, p, r, q); SameKeyFits(up, text, p, r);
  }

  /** The arrays after `r` has taken the place of `p`. */
  function Replaced(k: Links, p: Pos, r: Pos): (m: Links)
    requires Sized(k) && k.lson[p] <= N && k.rson[p] <= N
    requires k.dad[p] < N + 257 && (k.rson[k.dad[p]] != p ==> k.dad[p] <= N)
    ensures Sized(m)
  {
    var dad := k.dad[r := k.dad[p]][k.lson[p] := r][k.rson[p] := r];
    var moved := Links(k.lson[r := k.lson[p]], k.rson[r := k.rson[p]], dad);
    var d := moved.dad[p];
    var m := SetHole(moved, moved.rson[d] == p, d, r);
    m.(dad := m.dad[p := NIL])
  }

  /** The node `p`, with sons `l` and `q`, under the context `c`: how it is held, and that
      everything around it is distinct. */
  ghost predicate AtNode(c: Context, l: Tree, p: Pos, q: Tree, k: Links, b: nat)
    requires Sized(k) && b < 256
  {
    var e := Holder(c, Root(b));
    && k.dad[p] == e && e < N + 257 && e != NIL && (k.rson[e] == p <==> HoleRight(c))
    && (!HoleRight(c) ==> e < N && k.lson[e] == p)
    && p !in ContextElems(c) && Elems(l) !! ContextElems(c) && Elems(q) !! ContextElems(c)
    && p !in Elems(l) && p !in Elems(q) && Elems(l) !! Elems(q)
    && SonAt(l, k.lson[p], p, k) && SonAt(q, k.rson[p], p, k)
  }

  /** The son `t` of `p`: nothing below its top is its top. */
  ghost predicate SonAt(t: Tree, x: nat, p: Pos, k: Links)
    requires Sized(k)
  {
    && Linked(t, x, p, k)
    && (if t.Nil? then x == NIL
        else x == t.pos && x in Elems(t) && x !in Elems(t.left) && x !in Elems(t.right))
  }

  lemma SonAtLinked(t: Tree, x: nat, p: Pos, k: Links, text: Text)
    requires Sized(k) && Linked(t, x, p, k) && Sorted(t, text)
    ensures SonAt(t, x, p, k)
  {
    if t.Node? { SidesApart(t.left, t.pos, t.right, text); }
  }

  lemma HolderSide(c: Context, l: Tree, p: Pos, q: Tree, k: Links, text: Text, b: nat)
    requires Sized(k) && b < 256 && TreeOk(Plug(c, Node(l, p, q)), b, k, text)
    ensures AtNode(c, l, p, q, k, b)
    ensures SortedContext(c, text) && Sorted(Node(l, p, q), text) && AllFit(c, text, Node(l, p, q))
  {
    var t := Node(l, p, q);
    PlugSorted(c, t, text);
    var x := UnplugLinked(c, t, k.rson[Root(b)], Root(b), k);
    forall a | a in Elems(t) ensures a !in ContextElems(c) { FitsOutside(c, text, a); }
    SidesApart(l, p, q, text);
    assert p in Elems(t);
    SonAtLinked(l, k.lson[p], p, k, text);
    SonAtLinked(q, k.rson[p], p, k, text);
    match c
    case Top =>
    case InLeft(up, e, s) => TopPointer(s, k.rson[e], e, k);
    case InRight(up, s, e) =>
  }

  /** Nodes off the changed places keep their links. */
  ghost predicate ChangedOnlyAt(k: Links, m: Links, s: set<nat>)
    requires Sized(k) && Sized(m)
  {
    forall n: Pos :: n !in s ==> k.lson[n] == m.lson[n] && k.rson[n] == m.rson[n] && k.dad[n] == m.dad[n]
  }

  /** The holder `e` now points to `z` instead, and is otherwise as it was. */
  ghost predicate HolderNow(c: Context, k: Links, m: Links, b: nat, z: nat)
    requires Sized(k) && Sized(m) && b < 256
  {
    && (forall a :: 0 <= a < 256 && !(a == b && c.Top?) ==> m.rson[Root(a)] == k.rson[Root(a)])
    && match c
       case Top => m.rson[Root(b)] == z
       case InLeft(_, e, _) => m.lson[e] == z && m.rson[e] == k.rson[e] && m.dad[e] == k.dad[e]
       case InRight(_, _, e) => m.rson[e] == z && m.lson[e] == k.lson[e] && m.dad[e] == k.dad[e]
  }

  lemma SameOff(k: Links, m: Links, s: set<nat>, t: set<Pos>)
    requires Sized(k) && Sized(m) && ChangedOnlyAt(k, m, s) && forall n :: n in t ==> n !in s
    ensures SameOn(t, k, m)
  {}

  /** A holder's pointer is all that changes in a context whose other nodes are off the
      changed places. */
  lemma HoleFromChanges(c: Context, k: Links, m: Links, text: Text, b: nat, z: nat, s: set<nat>)
    requires Sized(k) && Sized(m) && b < 256 && SortedContext(c, text)
    requires ChangedOnlyAt(k, m, s) && HolderNow(c, k, m, b, z)
    requires forall n :: n in s && n in ContextElems(c) ==> n == Holder(c, Root(b))
    ensures HoleNow(c, k, m, b, z)
  {
    ContextHolder(c, text);
    match c
    case Top =>
    case InLeft(up, p, t) => SameOff(k, m, s, ContextElems(up) + Elems(t));
    case InRight(up, t, p) => SameOff(k, m, s, ContextElems(up) + Elems(t));
  }

  /** `r` has taken over the links of `p`. */
  ghost predicate TookOver(k: Links, m: Links, p: Pos, r: Pos)
    requires Sized(k) && Sized(m)
  {
    && m.dad[r] == k.dad[p] && m.lson[r] == k.lson[p] && m.rson[r] == k.rson[p] && m.dad[p] == NIL
    && (k.lson[p] < N ==> var x := k.lson[p]; m.dad[x] == r && m.lson[x] == k.lson[x] && m.rson[x] == k.rson[x])
    && (k.rson[p] < N ==> var x := k.rson[p]; m.dad[x] == r && m.lson[x] == k.lson[x] && m.rson[x] == k.rson[x])
  }

  ghost function ReplacedPlaces(k: Links, e: nat, p: Pos, r: Pos): set<nat>
    requires Sized(k)
  {
    {p, r, e, k.lson[p], k.rson[p]}
  }

  ghost predicate Outside(r: Pos, c: Context, l: Tree, p: Pos, q: Tree) {
    r != p && r !in ContextElems(c) && r !in Elems(l) && r !in Elems(q)
  }

  /** What the assignments at the end of `InsertNode` do, place by place. */
  lemma ReplacedAt(c: Context, l: Tree, p: Pos, q: Tree, k: Links, b: nat, r: Pos)
    requires Sized(k) && b < 256 && AtNode(c, l, p, q, k, b) && Outside(r, c, l, p, q)
    ensures k.lson[p] <= N && k.rson[p] <= N
    ensures k.dad[p] < N + 257 && (k.rson[k.dad[p]] != p ==> k.dad[p] <= N)
    ensures var m := Replaced(k, p, r);
            && TookOver(k, m, p, r) && HolderNow(c, k, m, b, r)
            && ChangedOnlyAt(k, m, ReplacedPlaces(k, Holder(c, Root(b)), p, r))
  {
    hide Elems;
  }

  lemma ReplacedSub(c: Context, l: Tree, p: Pos, q: Tree, k: Links, m: Links, b: nat, r: Pos)
    requires Sized(k) && Sized(m) && b < 256 && AtNode(c, l, p, q, k, b) && Outside(r, c, l, p, q)
    requires TookOver(k, m, p, r)
    requires ChangedOnlyAt(k, m, ReplacedPlaces(k, Holder(c, Root(b)), p, r))
    ensures Linked(Node(l, r, q), r, Holder(c, Root(b)), m)
  {
    var s := ReplacedPlaces(k, Holder(c, Root(b)), p, r);
    HolderElsewhere(c, l, p, q, k, b);
    if l.Node? { SameOff(k, m, s, Elems(l.left) + Elems(l.right)); }
    if q.Node? { SameOff(k, m, s, Elems(q.left) + Elems(q.right)); }
    Rehang(l, k.lson[p], p, r, k, m);
    Rehang(q, k.rson[p], p, r, k, m);
  }

  lemma HolderElsewhere(c: Context, l: Tree, p: Pos, q: Tree, k: Links, b: nat)
    requires Sized(k) && b < 256 && AtNode(c, l, p, q, k, b)
    ensures Holder(c, Root(b)) !in Elems(l) && Holder(c, Root(b)) !in Elems(q) && Holder(c, Root(b)) != p
  {}

  lemma SameKeySorted(c: Context, l: Tree, p: Pos, q: Tree, text: Text, r: Pos)
    requires Lcp(text, p, r) == F && Sorted(Node(l, p, q), text) && AllFit(c, text, Node(l, p, q))
    ensures Sorted(Node(l, r, q), text) && AllFit(c, text, Node(l, r, q))
  {
    forall a | a in Elems(l) ensures Less(text, a, r) { SameKeyLess(text, p, r, a); }
    forall a | a in Elems(q) ensures Less(text, r, a) { SameKeyLess(text, p, r, a); }
    assert p in Elems(Node(l, p, q));
    SameKeyFits(c, text, p, r);
    forall a | a in Elems(Node(l, r, q)) ensures Fits(c, text, a) {
      if a != r { assert a in Elems(Node(l, p, q)); }
    }
  }

  lemma NewcomerOutside(c: Context, l: Tree, p: Pos, q: Tree, k: Links, text: Text, b: nat, r: Pos)
    requires Sized(k) && b < 256 && TreeOk(Plug(c, Node(l, p, q)), b, k, text) && !Registered(k, r)
    ensures Outside(r, c, l, p, q)
  {
    LinkedRegistered(Plug(c, Node(l, p, q)), k.rson[Root(b)], Root(b), k);
    PlugElems(c, Node(l, p, q));
  }

  /** The places of a replacement meet the context only at the holder. */
  lemma ReplacedMeetsContext(c: Context, l: Tree, p: Pos, q: Tree, k: Links, b: nat, r: Pos)
    requires Sized(k) && b < 256 && AtNode(c, l, p, q, k, b) && Outside(r, c, l, p, q)
    ensures forall n :: n in ReplacedPlaces(k, Holder(c, Root(b)), p, r) && n in ContextElems(c) ==>
      n == Holder(c, Root(b))
  {}

  /** The tree after a replacement, whatever arrays it was done in. */
  lemma ReplacedTree(c: Context, l: Tree, p: Pos, q: Tree, k: Links, m: Links, text: Text, b: nat, r: Pos)
    requires Sized(k) && Sized(m) && b == KeyAt(text, r, 0) && TreeOk(Plug(c, Node(l, p, q)), b, k, text)
    requires AtNode(c, l, p, q, k, b) && Outside(r, c, l, p, q) && Lcp(text, p, r) == F
    requires SortedContext(c, text) && Sorted(Node(l, p, q), text) && AllFit(c, text, Node(l, p, q))
    requires TookOver(k, m, p, r) && HolderNow(c, k, m, b, r)
    requires ChangedOnlyAt(k, m, ReplacedPlaces(k, Holder(c, Root(b)), p, r))
    ensures TreeOk(Plug(c, Node(l, r, q)), b, m, text)
  {
    ReplacedSub(c, l, p, q, k, m, b, r);
    SameKeySorted(c, l, p, q, text, r);
    PlugElems(c, Node(l, p, q));
    ReplacedMeetsContext(c, l, p, q, k, b, r);
    HoleFromChanges(c, k, m, text, b, r, ReplacedPlaces(k, Holder(c, Root(b)), p, r));
    SwapTree(Plug(c, Node(l, p, q)), k, m, text, b, c, Node(l, p, q), Node(l, r, q), r);
  }

  lemma ReplaceTreeOk(c: Context, l: Tree, p: Pos, q: Tree, k: Links, text: Text, b: nat, r: Pos)
    requires Sized(k) && b == KeyAt(text, r, 0) && TreeOk(Plug(c, Node(l, p, q)), b, k, text)
    requires !Registered(k, r) && Lcp(text, p, r) == F
    ensures Outside(r, c, l, p, q) && AtNode(c, l, p, q, k, b)
    ensures k.lson[p] <= N && k.rson[p] <= N
    ensures k.dad[p] < N + 257 && (k.rson[k.dad[p]] != p ==> k.dad[p] <= N)
    ensures TreeOk(Plug(c, Node(l, r, q)), b, Replaced(k, p, r), text)
    ensures TookOver(k, Replaced(k, p, r), p, r) && HolderNow(c, k, Replaced(k, p, r), b, r)
    ensures ChangedOnlyAt(k, Replaced(k, p, r), ReplacedPlaces(k, Holder(c, Root(b)), p, r))
  {
    NewcomerOutside(c, l, p, q, k, text, b, r);
    HolderSide(c, l, p, q, k, text, b);
    ReplacedAt(c, l, p, q, k, b, r);
    ReplacedTree(c, l, p, q, k, Replaced(k, p, r), text, b, r);
  }

  /** A change to tree `b` only, confined to its nodes and one newcomer. */
  lemma ConfinedChange(f: seq<Tree>, k: Links, m: Links, text: Text, b: nat, t: Tree, r: Pos, s: set<nat>)
    requires ForestOk(f, k, text) && Sized(m) && b < 256 && TreeOk(t, b, m, text)
    requires KeyAt(text, r, 0) == b && ChangedOnlyAt(k, m, s)
    requires forall n: Pos :: n in s ==> n == r || n in Elems(f[b])
    requires forall c :: 0 <= c < 256 && c != b ==> k.rson[Root(c)] == m.rson[Root(c)]
    requires forall p: Pos :: Registered(m, p) ==> p in Elems(t) || (Registered(k, p) && p !in Elems(f[b]))
    ensures ForestOk(f[b := t], m, text)
  {
    assert TreeOk(f[b], b, k, text);
    ConfinedKeepsOthers(f, k, m, text, b, Elems(f[b]) + {r});
    ReplaceTree(f, k, m, text, b, t);
  }

  lemma ReplacedRegistered(f: seq<Tree>, k: Links, m: Links, text: Text, c: Context, l: Tree, p: Pos, q: Tree, r: Pos)
    requires ForestOk(f, k, text) && Sized(m) && f[KeyAt(text, r, 0)] == Plug(c, Node(l, p, q))
    requires ForestOk(f[KeyAt(text, r, 0) := Plug(c, Node(l, r, q))], m, text) && Outside(r, c, l, p, q)
    ensures forall n: Pos :: Registered(m, n) <==> n == r || (n != p && Registered(k, n))
  {
    hide ContextElems, Lcp, Sorted, TreeOk, Sized, Root;
    var b := KeyAt(text, r, 0);
    assert TreeOk(f[b], b, k, text);
    HolderSide(c, l, p, q, k, text, b);
    PlugElems(c, Node(l, p, q));
    PlugElems(c, Node(l, r, q));
    forall n: Pos ensures Registered(m, n) <==> n == r || (n != p && Registered(k, n)) {
      RegisteredIffIn(f, k, text, n);
      RegisteredIffIn(f[b := Plug(c, Node(l, r, q))], m, text, n);
    }
  }

  /** `r` may take the place of a node with the same key. */
  lemma ReplaceOk(f: seq<Tree>, k: Links, text: Text, c: Context, l: Tree, p: Pos, q: Tree, r: Pos)
    requires ForestOk(f, k, text) && !Registered(k, r) && Lcp(text, p, r) == F
    requires f[KeyAt(text, r, 0)] == Plug(c, Node(l, p, q))
    ensures k.lson[p] <= N && k.rson[p] <= N
    ensures k.dad[p] < N + 257 && (k.rson[k.dad[p]] != p ==> k.dad[p] <= N)
    ensures ForestOk(f[KeyAt(text, r, 0) := Plug(c, Node(l, r, q))], Replaced(k, p, r), text)
    ensures forall n: Pos :: Registered(Replaced(k, p, r), n) <==> n == r || (n != p && Registered(k, n))
  {
    hide Less, Replaced, TreeOk, Lcp, Sorted;
    var b := KeyAt(text, r, 0);
    assert TreeOk(f[b], b, k, text);
    ReplaceTreeOk(c, l, p, q, k, text, b, r);
    var m := Replaced(k, p, r);
    PlugElems(c, Node(l, p, q));
    PlugElems(c, Node(l, r, q));
    HolderPlace(c, b);
    ConfinedChange(f, k, m, text, b, Plug(c, Node(l, r, q)), r, ReplacedPlaces(k, Holder(c, Root(b)), p, r));
    ReplacedRegistered(f, k, m, text, c, l, p, q, r);
  }

  lemma HolderPlace(c: Context, b: nat)
    ensures if c.Top? then Holder(c, Root(b)) == Root(b) else Holder(c, Root(b)) in ContextElems(c)
  {}
}