/** The match finder on its arrays: `InsertNode` searches for the longest earlier match of a
    position while registering it, `DeleteNode` forgets a position. */
module MatchFinder {
  import opened Bytes
  import opened SearchTree
  import opened Forest
  import opened ForestDelete

  /** How far back `p` lies from `r` in the circular window. */
  function Distance(r: Pos, p: Pos): nat {
    (r - p) % N
  }

  // ---------- the best match so far ----------

  /** Among the positions `seen`, the recorded match is the longest one worth coding. */
  ghost predicate BestOf(text: Text, r: Pos, seen: set<Pos>, length: nat, position: nat) {
    && (forall q :: q in seen && Lcp(text, r, q) > THRESHOLD ==> Lcp(text, r, q) <= length)
    && (length == 0 || (length > THRESHOLD &&
          exists q :: q in seen && Lcp(text, r, q) == length && Distance(r, q) == position + 1))
  }

  /** The new record after comparing with `p`. */
  function NewLength(length: nat, i: nat): nat {
    if i > THRESHOLD && i > length then i else length
  }

  function NewPosition(length: nat, position: nat, i: nat, d: nat): nat {
    if i > THRESHOLD && (i > length || (i == length && d < position)) then d else position
  }

  /** Comparing with `p` also settles every position that cannot match better than `p`. */
  lemma BestGrows(text: Text, r: Pos, seen: set<Pos>, length: nat, position: nat, p: Pos, worse: set<Pos>)
    requires BestOf(text, r, seen, length, position) && Distance(r, p) >= 1
    requires forall q :: q in worse ==> Lcp(text, r, q) <= Lcp(text, r, p)
    ensures var i := Lcp(text, r, p);
            BestOf(text, r, seen + {p} + worse, NewLength(length, i),
                   NewPosition(length, position, i, Distance(r, p) - 1))
  {
    var i := Lcp(text, r, p);
    var all := seen + {p} + worse;
    var length' := NewLength(length, i);
    var position' := NewPosition(length, position, i, Distance(r, p) - 1);
    forall q | q in all && Lcp(text, r, q) > THRESHOLD ensures Lcp(text, r, q) <= length' {}
    if length' != 0 {
      if length' == length && position' == position {
        var q :| q in seen && Lcp(text, r, q) == length && Distance(r, q) == position + 1;
        assert q in all;
      } else {
        assert p in all;
      }
    }
  }

  // ---------- the nearest of equal matches ----------

  /** The positions a search for `r` compares with, from the root down. */
  function Visited(t: Tree, text: Text, r: Pos): set<Pos> {
    match t
    case Nil => {}
    case Node(l, p, q) =>
      {p} + (if Less(text, p, r) then Visited(q, text, r) else if Less(text, r, p) then Visited(l, text, r) else {})
  }

  /** Those of them above the hole. */
  function Above(c: Context): set<Pos> {
    match c
    case Top => {}
    case InLeft(up, p, _) => Above(up) + {p}
    case InRight(up, _, p) => Above(up) + {p}
  }

  lemma {:induction false} VisitedPlug(c: Context, t: Tree, text: Text, r: Pos)
    requires Fits(c, text, r)
    ensures Visited(Plug(c, t), text, r) == Above(c) + Visited(t, text, r)
    decreases c
  {
    hide Less;
    match c
    case Top =>
    case InLeft(up, p, q) =>
      LessTotal(text, r, p);
      VisitedPlug(up, Node(t, p, q), text, r);
      assert Above(up) + ({p} + Visited(t, text, r)) == Above(up) + {p} + Visited(t, text, r);
    case InRight(up, l, p) =>
      VisitedPlug(up, Node(l, p, t), text, r);
      assert Above(up) + ({p} + Visited(t, text, r)) == Above(up) + {p} + Visited(t, text, r);
  }

  /** The match recorded is one of the longest among the positions seen, and no other of these
      is nearer. */
  ghost predicate Nearest(text: Text, r: Pos, seen: set<Pos>, length: nat, position: nat) {
    && (forall q :: q in seen && Lcp(text, r, q) > THRESHOLD ==>
          Lcp(text, r, q) < length || (Lcp(text, r, q) == length && position + 1 <= Distance(r, q)))
    && (length == 0 || (length > THRESHOLD &&
          exists q :: q in seen && Lcp(text, r, q) == length && Distance(r, q) == position + 1))
  }

  lemma NearestStart(text: Text, r: Pos)
    ensures Nearest(text, r, Above(Top), 0, 0) && forall position: nat :: Nearest(text, r, Above(Top), 0, position)
  {}

  lemma NearestGrows(text: Text, r: Pos, seen: set<Pos>, length: nat, position: nat, p: Pos)
    requires Nearest(text, r, seen, length, position) && Distance(r, p) >= 1
    ensures var i := Lcp(text, r, p);
            Nearest(text, r, seen + {p}, NewLength(length, i), NewPosition(length, position, i, Distance(r, p) - 1))
  {
    hide Distance;
    var i := Lcp(text, r, p);
    var length', position' := NewLength(length, i), NewPosition(length, position, i, Distance(r, p) - 1);
    if length' != 0 {
      if length' == length && position' == position {
        var q :| q in seen && Lcp(text, r, q) == length && Distance(r, q) == position + 1;
        assert q in seen + {p};
      } else {
        assert p in seen + {p};
      }
    }
  }

  /** A position nobody has registered is at distance zero from none of them. */
  lemma DistancePositive(r: Pos, p: Pos)
    requires r != p
    ensures 1 <= Distance(r, p) < N
  {}

  /** Everything on the far side of `p` matches `r` no better than `p` does. */
  lemma FarSideWorse(text: Text, l: Tree, p: Pos, q: Tree, r: Pos)
    requires Sorted(Node(l, p, q), text)
    ensures Less(text, p, r) ==> forall a :: a in Elems(l) ==> Lcp(text, r, a) <= Lcp(text, r, p)
    ensures Less(text, r, p) ==> forall a :: a in Elems(q) ==> Lcp(text, r, a) <= Lcp(text, r, p)
  {
    LcpSymmetric(text, r, p);
    if Less(text, p, r) {
      forall a | a in Elems(l) ensures Lcp(text, r, a) <= Lcp(text, r, p) {
        LcpSymmetric(text, r, a);
        Between(text, a, p, r);
      }
    }
    if Less(text, r, p) {
      forall a | a in Elems(q) ensures Lcp(text, r, a) <= Lcp(text, r, p) {
        Between(text, r, p, a);
      }
    }
  }

  /** Reading a node of the tree being searched: where it hangs and what is below it. */
  lemma NodeRead(f: seq<Tree>, k: Links, text: Text, c: Context, l: Tree, p: Pos, q: Tree, b: nat)
    requires ForestOk(f, k, text) && b < 256 && f[b] == Plug(c, Node(l, p, q))
    ensures KeyAt(text, p, 0) == b && Registered(k, p) && Sorted(Node(l, p, q), text)
    ensures Linked(l, k.lson[p], p, k) && Linked(q, k.rson[p], p, k) && AtNode(c, l, p, q, k, b)
  {
    assert TreeOk(f[b], b, k, text);
    HolderSide(c, l, p, q, k, text, b);
    PlugElems(c, Node(l, p, q));
    assert p in Elems(Node(l, p, q));
    LinkedRegistered(f[b], k.rson[Root(b)], Root(b), k);
  }

  /** One step of the search past `p`: the record covers everything now above the hole. */
  lemma StepDown(text: Text, r: Pos, c: Context, l: Tree, p: Pos, q: Tree, length: nat, position: nat)
    requires r != p && Sorted(Node(l, p, q), text) && Fits(c, text, r)
    requires BestOf(text, r, ContextElems(c), length, position) && Lcp(text, r, p) < F
    ensures var i := Lcp(text, r, p);
            var c' := if Less(text, p, r) then InRight(c, l, p) else InLeft(c, p, q);
            && Fits(c', text, r)
            && BestOf(text, r, ContextElems(c'), NewLength(length, i),
                      NewPosition(length, position, i, Distance(r, p) - 1))
  {
    DistancePositive(r, p);
    LessTotal(text, r, p);
    FarSideWorse(text, l, p, q, r);
    if Less(text, p, r) {
      BestGrows(text, r, ContextElems(c), length, position, p, Elems(l));
    } else {
      BestGrows(text, r, ContextElems(c), length, position, p, Elems(q));
    }
  }

  /** Where a search for `r` stands: below `p`, on the side given, with the tree `cur` still
      to look at. */
  ghost predicate Searching(f: seq<Tree>, k: Links, text: Text, r: Pos, p: nat, right: bool, c: Context, cur: Tree) {
    var b := KeyAt(text, r, 0);
    && ForestOk(f, k, text) && !Registered(k, r)
    && f[b] == Plug(c, cur) && Fits(c, text, r)
    && p == Holder(c, Root(b)) && right == HoleRight(c)
    && (if right then p < N + 257 else p < N)
    && Linked(cur, if right then k.rson[p] else k.lson[p], p, k)
  }

  lemma NilPointer(f: seq<Tree>, k: Links, text: Text, r: Pos, p: nat, right: bool, c: Context, cur: Tree)
    requires Searching(f, k, text, r, p, right, c, cur)
    requires (if right then k.rson[p] else k.lson[p]) == NIL
    ensures cur.Nil?
  {}

  lemma NodePointer(f: seq<Tree>, k: Links, text: Text, r: Pos, p: nat, right: bool, c: Context, cur: Tree)
    requires Searching(f, k, text, r, p, right, c, cur)
    requires (if right then k.rson[p] else k.lson[p]) != NIL
    ensures var x := if right then k.rson[p] else k.lson[p];
            && cur.Node? && x == cur.pos && x != r && Registered(k, x) && KeyAt(text, x, 0) == KeyAt(text, r, 0)
            && Sorted(cur, text)
  {
    NodeRead(f, k, text, c, cur.left, cur.pos, cur.right, KeyAt(text, r, 0));
  }

  /** After comparing with a node of another key, the search goes on below it. */
  lemma SearchStep(f: seq<Tree>, k: Links, text: Text, r: Pos, c: Context, l: Tree, p: Pos, q: Tree,
                   length: nat, position: nat)
    requires ForestOk(f, k, text) && !Registered(k, r) && Fits(c, text, r)
    requires f[KeyAt(text, r, 0)] == Plug(c, Node(l, p, q)) && Lcp(text, r, p) < F
    requires BestOf(text, r, ContextElems(c), length, position)
    ensures r != p && Distance(r, p) >= 1
    ensures var i := Lcp(text, r, p);
            var c' := if Less(text, p, r) then InRight(c, l, p) else InLeft(c, p, q);
            && Searching(f, k, text, r, p, Less(text, p, r), c', if Less(text, p, r) then q else l)
            && BestOf(text, r, ContextElems(c'), NewLength(length, i),
                      NewPosition(length, position, i, Distance(r, p) - 1))
  {
    NodeRead(f, k, text, c, l, p, q, KeyAt(text, r, 0));
    DistancePositive(r, p);
    StepDown(text, r, c, l, p, q, length, position);
  }

  lemma LcpBound(text: Text, r: Pos, p: Pos, length: nat)
    requires length < F && NewLength(length, Lcp(text, r, p)) >= F
    ensures Lcp(text, r, p) == F && NewLength(length, F) == F
  {}

  /** An empty hole ends the path, and so does a node with the same key. */
  lemma PathEnds(f: seq<Tree>, k: Links, text: Text, r: Pos, p: nat, right: bool, c: Context, cur: Tree)
    requires Searching(f, k, text, r, p, right, c, cur) && cur.Nil?
    ensures Visited(f[KeyAt(text, r, 0)], text, r) == Above(c)
  {
    VisitedPlug(c, cur, text, r);
  }

  lemma PathHits(f: seq<Tree>, text: Text, r: Pos, c: Context, l: Tree, p: Pos, q: Tree)
    requires |f| == 256 && f[KeyAt(text, r, 0)] == Plug(c, Node(l, p, q)) && Fits(c, text, r) && Lcp(text, r, p) == F
    ensures Visited(f[KeyAt(text, r, 0)], text, r) == Above(c) + {p}
  {
    VisitedPlug(c, Node(l, p, q), text, r);
    LcpSymmetric(text, r, p);
  }

  lemma AboveStep(c: Context, l: Tree, p: Pos, q: Tree)
    ensures Above(InRight(c, l, p)) == Above(c) + {p} && Above(InLeft(c, p, q)) == Above(c) + {p}
  {}

  lemma SearchFits(f: seq<Tree>, k: Links, text: Text, r: Pos, p: nat, right: bool, c: Context, cur: Tree)
    requires Searching(f, k, text, r, p, right, c, cur)
    ensures |f| == 256 && f[KeyAt(text, r, 0)] == Plug(c, cur) && Fits(c, text, r)
  {}

  /** Every registered position. */
  ghost predicate BestLive(text: Text, k: Links, r: Pos, length: nat, position: nat)
    requires Sized(k)
  {
    && (forall q: Pos :: Registered(k, q) && Lcp(text, r, q) > THRESHOLD ==> Lcp(text, r, q) <= length)
    && (length == 0 || (length > THRESHOLD &&
          exists q: Pos :: Registered(k, q) && Lcp(text, r, q) == length && Distance(r, q) == position + 1))
  }

  /** A position with another first byte matches nothing. */
  lemma OtherByte(text: Text, r: Pos, q: Pos)
    requires KeyAt(text, r, 0) != KeyAt(text, q, 0)
    ensures Lcp(text, r, q) == 0
  {
    LcpIs(text, r, q, 0);
  }

  /** The search has seen every registered position that matches at all. */
  lemma SearchedAll(f: seq<Tree>, k: Links, text: Text, r: Pos, p: nat, right: bool, c: Context,
                    length: nat, position: nat)
    requires Searching(f, k, text, r, p, right, c, Nil) && length < F
    requires BestOf(text, r, ContextElems(c), length, position)
    ensures BestLive(text, k, r, length, position)
    ensures forall q: Pos :: Registered(k, q) ==> Lcp(text, r, q) < F
  {
    var b := KeyAt(text, r, 0);
    PlugElems(c, Nil);
    forall q: Pos | Registered(k, q)
      ensures Lcp(text, r, q) > THRESHOLD ==> q in ContextElems(c)
    {
      RegisteredIffIn(f, k, text, q);
      if KeyAt(text, q, 0) != b { OtherByte(text, r, q); }
    }
    if length != 0 {
      var q :| q in ContextElems(c) && Lcp(text, r, q) == length && Distance(r, q) == position + 1;
      assert TreeOk(f[b], b, k, text);
      RegisteredIffIn(f, k, text, q);
    }
  }

  lemma {:induction false} SortedDistinct(t: Tree, text: Text, a: Pos, z: Pos)
    requires Sorted(t, text) && a in Elems(t) && z in Elems(t) && a != z
    ensures Lcp(text, a, z) < F
  {
    var Node(l, p, q) := t;
    if a in Elems(l) && z in Elems(l) { SortedDistinct(l, text, a, z); }
    else if a in Elems(q) && z in Elems(q) { SortedDistinct(q, text, a, z); }
    else {
      LcpSymmetric(text, a, z);
      if a in Elems(l) && z in Elems(q) { Between(text, a, p, z); }
      if z in Elems(l) && a in Elems(q) { Between(text, z, p, a); }
    }
  }

  /** Only one registered position can have the key of `r`. */
  lemma OneTwin(f: seq<Tree>, k: Links, text: Text, r: Pos, p: Pos)
    requires ForestOk(f, k, text) && Registered(k, p) && Lcp(text, r, p) == F
    ensures forall q: Pos :: Registered(k, q) && q != p ==> Lcp(text, r, q) < F
  {
    forall q: Pos | Registered(k, q) && q != p ensures Lcp(text, r, q) < F {
      if Lcp(text, r, q) == F {
        assert KeyAt(text, r, 0) == KeyAt(text, p, 0) == KeyAt(text, q, 0);
        var b := KeyAt(text, r, 0);
        assert TreeOk(f[b], b, k, text);
        RegisteredIffIn(f, k, text, p);
        RegisteredIffIn(f, k, text, q);
        SortedDistinct(f[b], text, p, q);
        SameKeyLcp(text, r, p, q);
        assert false;
      }
    }
  }

  lemma SameKeyLcp(text: Text, r: Pos, p: Pos, q: Pos)
    requires Lcp(text, r, p) == F && Lcp(text, r, q) == F
    ensures Lcp(text, p, q) == F
  {
    assert forall j :: 0 <= j < F ==> KeyAt(text, r, j) == KeyAt(text, p, j);
    LcpIs(text, p, q, F);
  }

  /** Taking an unregistered node's sons away changes nothing. */
  lemma ClearOk(f: seq<Tree>, k: Links, text: Text, r: Pos)
    requires ForestOk(f, k, text) && !Registered(k, r)
    ensures ForestOk(f, Links(k.lson[r := NIL], k.rson[r := NIL], k.dad), text)
  {
    var m := Links(k.lson[r := NIL], k.rson[r := NIL], k.dad);
    var b := KeyAt(text, r, 0);
    RegisteredIffIn(f, k, text, r);
    assert TreeOk(f[b], b, k, text);
    LinkedFrame(f[b], k.rson[Root(b)], Root(b), k, m);
    ConfinedChange(f, k, m, text, b, f[b], r, {r});
    assert f[b := f[b]] == f;
  }

  lemma ReplaceReady(f: seq<Tree>, k: Links, text: Text, c: Context, l: Tree, p: Pos, q: Tree, r: Pos)
    requires ForestOk(f, k, text) && !Registered(k, r) && f[KeyAt(text, r, 0)] == Plug(c, Node(l, p, q))
    ensures r != p && k.lson[p] != p && k.rson[p] != p && k.dad[p] != r
  {
    var b := KeyAt(text, r, 0);
    assert TreeOk(f[b], b, k, text);
    HolderSide(c, l, p, q, k, text, b);
    NewcomerOutside(c, l, p, q, k, text, b, r);
    HolderPlace(c, b);
  }

  lemma FullForest(f: seq<Tree>, k: Links, text: Text)
    requires ForestOk(f, k, text)
    ensures |f| == 256
  {}

  class Finder {
    const text_buf: array<byte>
    const lson: array<nat>
    const rson: array<nat>
    const dad: array<nat>
    var match_position: nat
    var match_length: nat
    ghost var forest: seq<Tree>

    ghost predicate Arrays() {
      && text_buf.Length == N + F - 1
      && lson.Length == N + 1 && rson.Length == N + 257 && dad.Length == N + 1
      && lson != rson && lson != dad && rson != dad
    }

    ghost function K(): Links
      reads lson, rson, dad
    {
      Links(lson[..], rson[..], dad[..])
    }

    ghost function Window(): Text
      requires Arrays()
      reads text_buf
    {
      text_buf[..]
    }

    ghost predicate Valid()
      reads `forest, text_buf, lson, rson, dad
    {
      Arrays() && ForestOk(forest, K(), Window())
    }

    /** The registered positions. */
    ghost function Live(): set<Pos>
      requires Arrays()
      reads lson, rson, dad
    {
      set p: Pos | p < N && Registered(K(), p)
    }

    constructor ()
      ensures Arrays() && fresh(text_buf) && fresh(lson) && fresh(rson) && fresh(dad)
    {
      text_buf := new byte[N + F - 1];
      lson := new nat[N + 1];
      rson := new nat[N + 257];
      dad := new nat[N + 1];
      match_position := 0;
      match_length := 0;
      forest := [];
    }

    method InitTree()
      requires Arrays()
      modifies rson, dad, `forest
      ensures Valid() && Live() == {}
    {
      for i := N + 1 to N + 257
        invariant forall j :: N + 1 <= j < i ==> rson[j] == NIL
      {
        rson[i] := NIL;
      }
      for i := 0 to N
        invariant forall j :: N + 1 <= j < N + 257 ==> rson[j] == NIL
        invariant forall j :: 0 <= j < i ==> dad[j] == NIL
      {
        dad[i] := NIL;
      }
      forest := seq(256, _ => Nil);
    }

    /** The inner loop of `InsertNode`: the first difference after the first byte. */
    method Compare(r: Pos, p: Pos) returns (i: nat, cmp: int)
      requires Arrays() && KeyAt(Window(), r, 0) == KeyAt(Window(), p, 0)
      ensures i == Lcp(Window(), r, p)
      ensures cmp == 0 <==> i == F
      ensures cmp > 0 <==> Less(Window(), p, r)
      ensures cmp < 0 <==> Less(Window(), r, p)
    {
      i, cmp := 1, 0;
      while i < F
        invariant 1 <= i <= F && cmp == 0
        invariant SearchTree.Agree(Window(), r, p, i)
      {
        assert KeyAt(Window(), r, i) == text_buf[r + i] && KeyAt(Window(), p, i) == text_buf[p + i];
        var a: int, c: int := text_buf[r + i], text_buf[p + i];
        cmp := a - c;
        if cmp != 0 {
          break;
        }
        i := i + 1;
      }
      LcpIs(Window(), r, p, i);
      LcpSymmetric(Window(), r, p);
    }

    /** Remember a match of length `i` with `p`, if it is worth coding and no shorter than
        the best so far. */
    method Record(r: Pos, p: Pos, i: nat)
      requires r != p
      modifies `match_length, `match_position
      ensures match_length == NewLength(old(match_length), i)
      ensures match_position == NewPosition(old(match_length), old(match_position), i, Distance(r, p) - 1)
    {
      DistancePositive(r, p);
      if i > THRESHOLD {
        if i > match_length {
          match_position := Distance(r, p) - 1;
          match_length := i;
        } else if i == match_length {
          var c := Distance(r, p) - 1;
          if c < match_position {
            match_position := c;
          }
        }
      }
    }

    /** An empty hole takes the new node. */
    method Attach(r: Pos, p: nat, right: bool, ghost c: Context)
      requires Valid() && !Registered(K(), r) && lson[r] == NIL && rson[r] == NIL
      requires Searching(forest, K(), Window(), r, p, right, c, Nil)
      modifies lson, rson, dad, `forest
      ensures Valid()
      ensures forall n: Pos :: Registered(K(), n) <==> n == r || old(Registered(K(), n))
    {
      hide TreeOk, Less, Fits;
      ghost var k := K();
      ghost var b := KeyAt(Window(), r, 0);
      AttachOk(forest, k, Window(), c, r);
      if right { rson[p] := r; } else { lson[p] := r; }
      dad[r] := p;
      assert K() == Attached(k, right, p, r);
      forest := forest[b := Plug(c, Node(Nil, r, Nil))];
      HolderPlace(c, b);
    }

    /** The assignments that give `r` the links of `p`. */
    method TakeOver(r: Pos, p: Pos)
      requires Arrays() && r != p && lson[p] <= N && rson[p] <= N && lson[p] != p && rson[p] != p
      requires dad[p] < N + 257 && dad[p] != r && (rson[dad[p]] != p ==> dad[p] <= N)
      modifies lson, rson, dad
      ensures K() == Replaced(old(K()), p, r)
    {
      dad[r] := dad[p];
      lson[r] := lson[p];
      rson[r] := rson[p];
      dad[lson[p]] := r;
      dad[rson[p]] := r;
      if rson[dad[p]] == p {
        rson[dad[p]] := r;
      } else {
        lson[dad[p]] := r;
      }
      dad[p] := NIL;
    }

    /** A node with the same key gives its place to the newcomer. */
    method Replace(r: Pos, p: Pos, ghost c: Context, ghost l: Tree, ghost q: Tree)
      requires Valid() && !Registered(K(), r) && Lcp(Window(), p, r) == F
      requires forest[KeyAt(Window(), r, 0)] == Plug(c, Node(l, p, q))
      modifies lson, rson, dad, `forest
      ensures Valid()
      ensures forall n: Pos :: Registered(K(), n) <==> n == r || (n != p && old(Registered(K(), n)))
    {
      ghost var b := KeyAt(Window(), r, 0);
      ReplaceOk(forest, K(), Window(), c, l, p, q, r);
      ReplaceReady(forest, K(), Window(), c, l, p, q, r);
      TakeOver(r, p);
      forest := forest[b := Plug(c, Node(l, r, q))];
    }

    /** The search of `InsertNode`. It ends at an empty hole, or at a node with the same key. */
    method Search(r: Pos) returns (p: nat, right: bool, ghost c: Context, ghost l: Tree, ghost q: Tree)
      requires Valid() && !Registered(K(), r)
      modifies `match_length, `match_position
      ensures match_length < F ==> Searching(forest, K(), Window(), r, p, right, c, Nil)
      ensures match_length < F ==> BestOf(Window(), r, ContextElems(c), match_length, match_position)
      ensures Nearest(Window(), r, Visited(forest[KeyAt(Window(), r, 0)], Window(), r), match_length, match_position)
      ensures match_length >= F ==>
        && match_length == F && p < N && Registered(K(), p) && Lcp(Window(), r, p) == F
        && match_position + 1 == Distance(r, p)
        && forest[KeyAt(Window(), r, 0)] == Plug(c, Node(l, p, q))
    {
      hide LcpFrom, Sorted, Less, Arrays, Linked, Above, Agree;
      ghost var f, k, text, b := forest, K(), Window(), KeyAt(Window(), r, 0);
      var cmp := 1;
      p := N + 1 + text_buf[r];
      match_length := 0;
      c, l, q := Top, Nil, Nil;
      ghost var cur := f[b];
      assert TreeOk(f[b], b, k, text);
      NearestStart(text, r);
      hide ForestOk, BestOf, Less, Nearest, Visited, Above;
      while true
        invariant Searching(f, k, text, r, p, cmp >= 0, c, cur)
        invariant match_length < F && BestOf(text, r, ContextElems(c), match_length, match_position)
        invariant Nearest(text, r, Above(c), match_length, match_position)
        decreases cur
      {
        var next := if cmp >= 0 then rson[p] else lson[p];
        if next == NIL {
          NilPointer(f, k, text, r, p, cmp >= 0, c, cur);
          PathEnds(f, k, text, r, p, cmp >= 0, c, cur);
          right := cmp >= 0;
          return;
        }
        NodePointer(f, k, text, r, p, cmp >= 0, c, cur);
        SearchFits(f, k, text, r, p, cmp >= 0, c, cur);
        p := next;
        DistancePositive(r, p);
        l, q := cur.left, cur.right;
        ghost var length, position := match_length, match_position;
        var i;
        i, cmp := Compare(r, p);
        Record(r, p, i);
        NearestGrows(text, r, Above(c), length, position, p);
        if match_length >= F {
          LcpBound(text, r, p, length);
          PathHits(f, text, r, c, l, p, q);
          right := false;
          return;
        }
        SearchStep(f, k, text, r, c, l, p, q, length, position);
        AboveStep(c, l, p, q);
        c, cur := if Less(text, p, r) then InRight(c, l, p) else InLeft(c, p, q), if Less(text, p, r) then q else l;
      }
    }

    method Clear(r: Pos)
      requires Valid() && !Registered(K(), r)
      modifies lson, rson
      ensures Valid() && lson[r] == NIL && rson[r] == NIL
      ensures forall n: Pos :: Registered(K(), n) <==> old(Registered(K(), n))
    {
      ClearOk(forest, K(), Window(), r);
      rson[r], lson[r] := NIL, NIL;
      assert K() == Links(old(lson[..])[r := NIL], old(rson[..])[r := NIL], old(dad[..]));
    }

    /** Register `r`, and report the longest match among all registered positions. A
        position with the same F bytes gives its place to `r`. */
    method InsertNode(r: Pos)
      requires Valid() && !Registered(K(), r)
      modifies lson, rson, dad, `forest, `match_length, `match_position
      ensures Valid()
      ensures forall n: Pos :: Registered(K(), n) <==>
        n == r || (old(Registered(K(), n)) && Lcp(Window(), r, n) < F)
      ensures BestLive(Window(), old(K()), r, match_length, match_position)
      // of the equal ones it came by, the nearest
      ensures |old(forest)| == 256
      ensures Nearest(Window(), r, Visited(old(forest)[KeyAt(Window(), r, 0)], Window(), r), match_length, match_position)
    {
      hide ForestOk, Searching, BestOf, Less, KeyAt, TreeOk, Lcp, Agree, AtNode, Nearest, Visited;
      FullForest(forest, K(), Window());
      Clear(r);
      var p, right;
      ghost var c, l, q;
      p, right, c, l, q := Search(r);
      if match_length < F {
        SearchedAll(forest, K(), Window(), r, p, right, c, match_length, match_position);
        Attach(r, p, right, c);
      } else {
        OneTwin(forest, K(), Window(), r, p);
        LcpSymmetric(Window(), r, p);
        Replace(r, p, c, l, q);
      }
    }

    // ---------- forgetting a position ----------

    method StoreUnhook(p: Pos, z: nat)
      requires Arrays() && z <= N && z != p && dad[p] < N + 257 && dad[p] != z
      requires rson[dad[p]] != p ==> dad[p] <= N
      modifies lson, rson, dad
      ensures K() == Unhook(old(K()), p, z)
    {
      dad[z] := dad[p];
      if rson[dad[p]] == p {
        rson[dad[p]] := z;
      } else {
        lson[dad[p]] := z;
      }
      dad[p] := NIL;
    }

    method StoreAdoptRight(p: Pos, z: Pos)
      requires Arrays() && z != p && rson[p] <= N
      modifies rson, dad
      ensures K() == AdoptRight(old(K()), p, z)
    {
      rson[z] := rson[p];
      dad[rson[p]] := z;
    }

    method StorePullUp(p: Pos, z: Pos)
      requires Arrays() && z != p && dad[z] <= N && lson[z] <= N && lson[p] <= N
      requires lson[z] != z && lson[p] != z
      modifies lson, rson, dad
      ensures K() == PullUp(old(K()), p, z)
    {
      rson[dad[z]] := lson[z];
      dad[lson[z]] := dad[z];
      lson[z] := lson[p];
      dad[lson[p]] := z;
    }

    /** Going right from the left son of a node until there is no right son. */
    method FindLast(u: Pos, ghost l: Tree, ghost d: nat) returns (z: Pos, ghost s: Context, ghost ql: Tree)
      requires Arrays() && Linked(l, u, d, K()) && rson[u] != NIL
      ensures LastOf(l, s, ql, z)
    {
      z := u;
      ghost var k := K();
      ghost var cur := l;
      s := Top;
      while rson[z] != NIL
        invariant Plug(s, cur) == l && cur.Node? && cur.pos == z && Linked(cur, z, k.dad[z], k)
        invariant s.Top? || Spine(s)
        invariant s.Top? ==> z == u
        decreases cur
      {
        s, cur := InRight(s, cur.left, z), cur.right;
        z := rson[z];
      }
      ql := cur.left;
    }

    method DeleteOneSon(p: Pos, ghost c: Context, ghost l: Tree, ghost q: Tree)
      requires Valid() && Placed(forest, K(), Window(), c, l, p, q) && (lson[p] == NIL || rson[p] == NIL)
      modifies lson, rson, dad, `forest
      ensures Valid() && Lost(forest, old(K()), K(), Window(), p)
    {
      ghost var f := LoseOneSon(forest, K(), Window(), c, l, p, q);
      PlacedBounds(forest, K(), Window(), c, l, p, q);
      StoreUnhook(p, if rson[p] == NIL then lson[p] else rson[p]);
      forest := f;
    }

    method DeleteLeftSon(p: Pos, ghost c: Context, ghost l: Tree, ghost q: Tree)
      requires Valid() && Placed(forest, K(), Window(), c, l, p, q) && lson[p] < N && rson[p] != NIL
      requires rson[lson[p]] == NIL
      modifies lson, rson, dad, `forest
      ensures Valid() && Lost(forest, old(K()), K(), Window(), p)
    {
      hide Placed, ForestOk;
      ghost var f := LoseLeftSon(forest, K(), Window(), c, l, p, q);
      PlacedBounds(forest, K(), Window(), c, l, p, q);
      var z := lson[p];
      StoreAdoptRight(p, z);
      StoreUnhook(p, z);
      forest := f;
    }

    method DeletePulling(p: Pos, z: Pos, ghost c: Context, ghost l: Tree, ghost q: Tree, ghost s: Context, ghost ql: Tree)
      requires Valid() && Placed(forest, K(), Window(), c, l, p, q) && rson[p] != NIL && LastOf(l, s, ql, z)
      modifies lson, rson, dad, `forest
      ensures Valid() && Lost(forest, old(K()), K(), Window(), p)
    {
      hide Placed, AtNode, LcpFrom, Lcp;
      ghost var f := LosePulled(forest, K(), Window(), c, l, p, q, s, ql, z);
      PulledBounds(forest, K(), Window(), c, l, p, q, s, ql, z);
      StorePullUp(p, z);
      StoreAdoptRight(p, z);
      StoreUnhook(p, z);
      forest := f;
    }

    /** Forget a position, if it is registered. */
    method DeleteNode(p: Pos)
      requires Valid()
      modifies lson, rson, dad, `forest
      ensures Valid()
      ensures forall n: Pos :: Registered(K(), n) <==> n != p && old(Registered(K(), n))
    {
      if dad[p] == NIL {
        return;
      }
      ghost var c, l, q := Place(forest, K(), Window(), p);
      PlacedBounds(forest, K(), Window(), c, l, p, q);
      if rson[p] == NIL || lson[p] == NIL {
        DeleteOneSon(p, c, l, q);
      } else if rson[lson[p]] == NIL {
        DeleteLeftSon(p, c, l, q);
      } else {
        var z;
        ghost var s, ql;
        z, s, ql := FindLast(lson[p], l, p);
        DeletePulling(p, z, c, l, q, s, ql);
      }
    }
  }
}
