/** Deleting a position from the match finder's trees. */
module ForestDelete {
  import opened Bytes
  import opened SearchTree
  import opened Forest

  // ---------- the node that takes the place of the deleted one ----------

  /** A context that goes right at every step. */
  ghost predicate Spine(c: Context) {
    c.InRight? && (c.up.Top? || Spine(c.up))
  }

  /** Everything on a right spine is below what fits at its end. */
  lemma {:induction false} SpineBelow(c: Context, text: Text, z: Pos)
    requires Spine(c) && SortedContext(c, text) && Fits(c, text, z)
    ensures forall a :: a in ContextElems(c) ==> Less(text, a, z)
    decreases c
  {
    if !c.up.Top? { SpineBelow(c.up, text, z); }
    forall a | a in Elems(c.left) ensures Less(text, a, z) { Between(text, a, c.pos, z); }
  }

  /** Relinking a right spine: the node `e` at its end gets the new right son `w`, and its
      top `u` gets the new parent `d2`. */
  lemma {:induction false} SpineRelinked(c: Context, x: nat, e: nat, u: nat, d: nat, k: Links, m: Links,
                                         text: Text, w: nat, d2: nat)
    requires Spine(c) && SortedContext(c, text) && Sized(k) && Sized(m)
    requires LinkedContext(c, x, e, u, d, k)
    requires e < N && u < N && m.rson[e] == w && m.dad[u] == d2
    requires forall n :: n in ContextElems(c) ==>
      m.lson[n] == k.lson[n] && (n != e ==> m.rson[n] == k.rson[n]) && (n != u ==> m.dad[n] == k.dad[n])
    ensures LinkedContext(c, w, e, u, d2, m) && u in ContextElems(c)
    decreases c
  {
    var InRight(up, t, n) := c;
    ContextHolder(c, text);
    if up.Top? {
      LinkedFrame(t, k.lson[n], n, k, m);
    } else {
      SpineRelinked(up, n, k.dad[n], u, d, k, m, text, n, d2);
      forall a | a in Elems(t) ensures a != u && a != n { FitsOutside(up, text, a); }
      LinkedFrame(t, k.lson[n], n, k, m);
    }
  }

  /** The last node of a tree: going right until there is no right son. */
  lemma {:induction false} LastSorted(c: Context, l: Tree, z: Pos, text: Text)
    requires Spine(c) && Sorted(Plug(c, Node(l, z, Nil)), text)
    ensures Sorted(Plug(c, l), text)
    ensures Elems(Plug(c, l)) == Elems(Plug(c, Node(l, z, Nil))) - {z}
    ensures forall a :: a in Elems(Plug(c, l)) ==> Less(text, a, z)
  {
    hide Less, SortedContext, ContextElems, Plug, Spine;
    var t := Node(l, z, Nil);
    PlugSorted(c, t, text);
    PlugElems(c, t);
    PlugElems(c, l);
    assert z in Elems(t);
    FitsOutside(c, text, z);
    NotLessSelf(text, z);
    SpineBelow(c, text, z);
    forall a | a in Elems(l) ensures Fits(c, text, a) { assert a in Elems(t); }
    PlugSorted(c, l, text);
  }

  // ---------- finishing ----------

  /** Whatever tree `now` takes the place of the deleted node: if it is linked, sorted and
      holds everything but `p`, the forest is good and has lost exactly `p`. */
  lemma DeleteFinish(f: seq<Tree>, k: Links, m: Links, text: Text, c: Context, l: Tree, p: Pos, q: Tree,
                     now: Tree, z: nat, s: set<nat>)
    requires ForestOk(f, k, text) && Sized(m)
    requires f[KeyAt(text, p, 0)] == Plug(c, Node(l, p, q))
    requires var b := KeyAt(text, p, 0);
             && HolderNow(c, k, m, b, z) && Linked(now, z, Holder(c, Root(b)), m)
             && (forall n :: n in s && n in ContextElems(c) ==> n == Holder(c, Root(b)))
             && (forall n: Pos :: n in s ==> n in Elems(f[b]))
    requires ChangedOnlyAt(k, m, s) && m.dad[p] == NIL
    requires Sorted(now, text) && Elems(now) == Elems(Node(l, p, q)) - {p}
    ensures ForestOk(f[KeyAt(text, p, 0) := Plug(c, now)], m, text)
    ensures forall n: Pos :: Registered(m, n) <==> Registered(k, n) && n != p
  {
    hide Elems, Agree, Sorted, Linked;
    var b := KeyAt(text, p, 0);
    var was := Node(l, p, q);
    assert TreeOk(f[b], b, k, text);
    HolderSide(c, l, p, q, k, text, b);
    PlugElems(c, was);
    PlugElems(c, now);
    HoleFromChanges(c, k, m, text, b, z, s);
    SwapTree(f[b], k, m, text, b, c, was, now, z);
    ConfinedChange(f, k, m, text, b, Plug(c, now), p, s);
    forall n: Pos ensures Registered(m, n) <==> Registered(k, n) && n != p {
      RegisteredIffIn(f, k, text, n);
      RegisteredIffIn(f[b := Plug(c, now)], m, text, n);
    }
  }

  // ---------- the assignments of `DeleteNode` ----------

  /** The common end: `z` takes the place of `p` under `p`'s parent. */
  function Unhook(k: Links, p: Pos, z: nat): (m: Links)
    requires Sized(k) && z <= N
    requires k.dad[p] < N + 257 && (k.rson[k.dad[p]] != p ==> k.dad[p] <= N)
    ensures Sized(m)
  {
    var d := k.dad[p];
    var k1 := k.(dad := k.dad[z := d]);
    var k2 := SetHole(k1, k1.rson[d] == p, d, z);
    k2.(dad := k2.dad[p := NIL])
  }

  /** The son `z` adopts the right son of `p`. */
  function AdoptRight(k: Links, p: Pos, z: Pos): (m: Links)
    requires Sized(k) && k.rson[p] <= N
    ensures Sized(m)
  {
    k.(rson := k.rson[z := k.rson[p]], dad := k.dad[k.rson[p] := z])
  }

  /** `z`, the last node left of `p`, leaves its place and adopts the left son of `p`. */
  function PullUp(k: Links, p: Pos, z: Pos): (m: Links)
    requires Sized(k) && k.dad[z] <= N && k.lson[z] <= N && k.lson[p] <= N
    ensures Sized(m)
  {
    Links(k.lson[z := k.lson[p]],
          k.rson[k.dad[z] := k.lson[z]],
          k.dad[k.lson[z] := k.dad[z]][k.lson[p] := z])
  }

  /** What `Unhook` does to a node that is held as `AtNode` says. */
  lemma UnhookAt(c: Context, p: Pos, k: Links, b: nat, z: nat)
    requires Sized(k) && b < 256 && z <= N && z != p
    requires var e := Holder(c, Root(b));
             && k.dad[p] == e && e < N + 257 && e != NIL && e != p && e != z
             && (k.rson[e] == p <==> HoleRight(c)) && (!HoleRight(c) ==> e < N)
    ensures var e := Holder(c, Root(b)); var m := Unhook(k, p, z);
            && m.dad[p] == NIL && HolderNow(c, k, m, b, z)
            && (z < N ==> m.dad[z] == e && m.lson[z] == k.lson[z] && m.rson[z] == k.rson[z])
            && ChangedOnlyAt(k, m, {p, z, e})
  {}

  // ---------- the four cases ----------

  /** Everything `DeleteFinish` asks of the new arrays and the new subtree. */
  ghost predicate Finishes(c: Context, l: Tree, p: Pos, q: Tree, k: Links, m: Links, text: Text, b: nat,
                           now: Tree, z: nat, s: set<nat>)
    requires Sized(k) && Sized(m) && b < 256
  {
    && HolderNow(c, k, m, b, z) && Linked(now, z, Holder(c, Root(b)), m)
    && (forall n :: n in s && n in ContextElems(c) ==> n == Holder(c, Root(b)))
    && (forall n: Pos :: n in s ==> n in ContextElems(c) || n in Elems(Node(l, p, q)))
    && ChangedOnlyAt(k, m, s) && m.dad[p] == NIL
    && Sorted(now, text) && Elems(now) == Elems(Node(l, p, q)) - {p}
  }

  lemma Finish(f: seq<Tree>, k: Links, m: Links, text: Text, c: Context, l: Tree, p: Pos, q: Tree,
               now: Tree, z: nat, s: set<nat>)
    requires ForestOk(f, k, text) && Sized(m) && f[KeyAt(text, p, 0)] == Plug(c, Node(l, p, q))
    requires Finishes(c, l, p, q, k, m, text, KeyAt(text, p, 0), now, z, s)
    ensures ForestOk(f[KeyAt(text, p, 0) := Plug(c, now)], m, text)
    ensures forall n: Pos :: Registered(m, n) <==> Registered(k, n) && n != p
  {
    PlugElems(c, Node(l, p, q));
    DeleteFinish(f, k, m, text, c, l, p, q, now, z, s);
  }

  /** In `m`, node `x` hangs from `d` and keeps its sons. */
  ghost predicate Hung(x: nat, d: nat, k: Links, m: Links)
    requires Sized(k) && Sized(m)
  {
    x < N ==> m.dad[x] == d && m.lson[x] == k.lson[x] && m.rson[x] == k.rson[x]
  }

  /** A son of `p`, hung from `d`: its inside is untouched. */
  lemma SonHung(t: Tree, x: nat, p: Pos, d: nat, k: Links, m: Links, s: set<nat>)
    requires Sized(k) && Sized(m) && SonAt(t, x, p, k) && Hung(x, d, k, m) && ChangedOnlyAt(k, m, s)
    requires forall n :: n in s && n in Elems(t) ==> n == x
    ensures Linked(t, x, d, m)
  {
    if t.Node? { SameOff(k, m, s, Elems(t.left) + Elems(t.right)); }
    Rehang(t, x, p, d, k, m);
  }

  lemma OneSonFinishes(c: Context, l: Tree, p: Pos, q: Tree, k: Links, m: Links, text: Text, b: nat,
                       now: Tree, z: nat)
    requires Sized(k) && Sized(m) && b < 256 && AtNode(c, l, p, q, k, b) && Sorted(Node(l, p, q), text)
    requires if q.Nil? then now == l && z == k.lson[p] else l.Nil? && now == q && z == k.rson[p]
    requires var e := Holder(c, Root(b));
             HolderNow(c, k, m, b, z) && Hung(z, e, k, m) && m.dad[p] == NIL && ChangedOnlyAt(k, m, {p, z, e})
    ensures Finishes(c, l, p, q, k, m, text, b, now, z, {p, z, Holder(c, Root(b))})
  {
    hide Less, Linked, Hung;
    var e := Holder(c, Root(b));
    SonPlaces(c, l, p, q, k, text, b, now, z);
    hide AtNode, HolderNow, ChangedOnlyAt, ContextElems;
    SonHung(now, z, p, e, k, m, {p, z, e});
  }

  /** A son `z` of `p`, `p` itself and its holder: where they lie. */
  lemma SonPlaces(c: Context, l: Tree, p: Pos, q: Tree, k: Links, text: Text, b: nat, now: Tree, z: nat)
    requires Sized(k) && b < 256 && AtNode(c, l, p, q, k, b) && Sorted(Node(l, p, q), text)
    requires (now == l && z == k.lson[p]) || (now == q && z == k.rson[p])
    ensures var s := {p, z, Holder(c, Root(b))};
            && SonAt(now, z, p, k)
            && (forall n :: n in s && n in Elems(now) ==> n == z)
            && (forall n :: n in s && n in ContextElems(c) ==> n == Holder(c, Root(b)))
            && (forall n: Pos :: n in s ==> n in ContextElems(c) || n in Elems(Node(l, p, q)))
  {
    hide Less, HolderNow;
    HolderPlace(c, b);
    HolderElsewhere(c, l, p, q, k, b);
  }

  /** One son is missing: the other takes the place of `p`. */
  lemma OneSon(c: Context, l: Tree, p: Pos, q: Tree, k: Links, text: Text, b: nat)
    requires Sized(k) && b < 256 && AtNode(c, l, p, q, k, b) && Sorted(Node(l, p, q), text)
    requires l.Nil? || q.Nil?
    ensures var z := if q.Nil? then k.lson[p] else k.rson[p]; var now := if q.Nil? then l else q;
            && z <= N && k.dad[p] < N + 257 && (k.rson[k.dad[p]] != p ==> k.dad[p] <= N)
            && Finishes(c, l, p, q, k, Unhook(k, p, z), text, b, now, z, {p, z, Holder(c, Root(b))})
  {
    var z := if q.Nil? then k.lson[p] else k.rson[p];
    HolderElsewhere(c, l, p, q, k, b);
    UnhookAt(c, p, k, b, z);
    OneSonFinishes(c, l, p, q, k, Unhook(k, p, z), text, b, if q.Nil? then l else q, z);
  }

  lemma LeftSonFinishes(c: Context, ll: Tree, z: Pos, p: Pos, q: Tree, k: Links, m: Links, text: Text, b: nat)
    requires Sized(k) && Sized(m) && b < 256 && AtNode(c, Node(ll, z, Nil), p, q, k, b)
    requires Sorted(Node(Node(ll, z, Nil), p, q), text)
    requires var e := Holder(c, Root(b)); var x := k.rson[p];
             && HolderNow(c, k, m, b, z) && m.dad[p] == NIL && Hung(x, z, k, m)
             && m.dad[z] == e && m.lson[z] == k.lson[z] && m.rson[z] == x
             && ChangedOnlyAt(k, m, {p, z, e, x})
    ensures Finishes(c, Node(ll, z, Nil), p, q, k, m, text, b, Node(ll, z, q), z,
                     {p, z, Holder(c, Root(b)), k.rson[p]})
  {
    hide Less, ChangedOnlyAt, HolderNow, ContextElems;
    var s := {p, z, Holder(c, Root(b)), k.rson[p]};
    HolderPlace(c, b);
    HolderElsewhere(c, Node(ll, z, Nil), p, q, k, b);
    SidesApart(ll, z, Nil, text);
    SameOff(k, m, s, Elems(ll));
    LinkedFrame(ll, k.lson[z], z, k, m);
    SonHung(q, k.rson[p], p, z, k, m, s);
    LeftSonSorted(ll, z, p, q, text);
  }

  /** What `AdoptRight` and `Unhook` do together. */
  lemma AdoptAt(c: Context, p: Pos, k: Links, b: nat, z: Pos)
    requires Sized(k) && b < 256 && z != p && k.rson[p] <= N && k.rson[p] != p && k.rson[p] != z
    requires var e := Holder(c, Root(b));
             && k.dad[p] == e && e < N + 257 && e != NIL && e != p && e != z && e != k.rson[p]
             && (k.rson[e] == p <==> HoleRight(c)) && (!HoleRight(c) ==> e < N)
    ensures var k1 := AdoptRight(k, p, z);
            && k1.dad[p] == k.dad[p] && (k1.rson[k1.dad[p]] != p ==> k1.dad[p] <= N)
    ensures var e := Holder(c, Root(b)); var x := k.rson[p]; var m := Unhook(AdoptRight(k, p, z), p, z);
            && HolderNow(c, k, m, b, z) && m.dad[p] == NIL && Hung(x, z, k, m)
            && m.dad[z] == e && m.lson[z] == k.lson[z] && m.rson[z] == x
            && ChangedOnlyAt(k, m, {p, z, e, x})
  {
    UnhookAt(c, p, AdoptRight(k, p, z), b, z);
  }

  /** The left son has no right son: it takes the place of `p`. */
  lemma LeftSon(c: Context, ll: Tree, z: Pos, p: Pos, q: Tree, k: Links, text: Text, b: nat)
    requires Sized(k) && b < 256 && AtNode(c, Node(ll, z, Nil), p, q, k, b)
    requires Sorted(Node(Node(ll, z, Nil), p, q), text) && q.Node?
    ensures k.lson[p] == z && k.rson[p] < N && k.dad[p] < N + 257
    ensures var k1 := AdoptRight(k, p, z);
            && k1.dad[p] == k.dad[p] && (k1.rson[k1.dad[p]] != p ==> k1.dad[p] <= N)
            && Finishes(c, Node(ll, z, Nil), p, q, k, Unhook(k1, p, z), text, b, Node(ll, z, q), z,
                        {p, z, Holder(c, Root(b)), k.rson[p]})
  {
    HolderElsewhere(c, Node(ll, z, Nil), p, q, k, b);
    AdoptAt(c, p, k, b, z);
    LeftSonFinishes(c, ll, z, p, q, k, Unhook(AdoptRight(k, p, z), p, z), text, b);
  }

  lemma LeftSonSorted(ll: Tree, z: Pos, p: Pos, q: Tree, text: Text)
    requires Sorted(Node(Node(ll, z, Nil), p, q), text)
    ensures Sorted(Node(ll, z, q), text)
    ensures Elems(Node(ll, z, q)) == Elems(Node(Node(ll, z, Nil), p, q)) - {p}
  {
    SidesApart(Node(ll, z, Nil), p, q, text);
    assert z in Elems(Node(ll, z, Nil));
    forall a | a in Elems(q) ensures Less(text, z, a) { Between(text, z, p, a); }
  }

  /** The nodes whose links change when the last node left of `p` is pulled up. */
  ghost function PulledPlaces(k: Links, e: nat, p: Pos, z: Pos): set<nat>
    requires Sized(k)
  {
    {p, z, e, k.rson[p], k.dad[z], k.lson[z], k.lson[p]}
  }

  /** In `m`, the last node `z` left of `p` has been pulled up into the place of `p`. */
  ghost predicate PulledUp(c: Context, k: Links, m: Links, b: nat, p: Pos, z: Pos)
    requires Sized(k) && Sized(m) && b < 256 && k.dad[z] < N && k.lson[p] < N
  {
    var e, x, y, w, u := Holder(c, Root(b)), k.rson[p], k.dad[z], k.lson[z], k.lson[p];
    && HolderNow(c, k, m, b, z) && m.dad[p] == NIL
    && m.dad[z] == e && m.lson[z] == u && m.rson[z] == x
    && Hung(x, z, k, m) && Hung(w, y, k, m)
    && m.rson[y] == w && m.lson[y] == k.lson[y] && (y != u ==> m.dad[y] == k.dad[y])
    && m.dad[u] == z && m.lson[u] == k.lson[u] && (y != u ==> m.rson[u] == k.rson[u])
    && ChangedOnlyAt(k, m, PulledPlaces(k, e, p, z))
  }

  /** What `PullUp` does to the nodes it names, and to nobody else. */
  ghost predicate UpPulled(k: Links, m: Links, p: Pos, z: Pos)
    requires Sized(k) && Sized(m) && k.dad[z] < N && k.lson[p] < N && k.lson[z] <= N
  {
    var y, w, u := k.dad[z], k.lson[z], k.lson[p];
    && m.lson[z] == u && m.rson[y] == w && m.dad[u] == z && Hung(w, y, k, m)
    && m.lson[y] == k.lson[y] && (y != u ==> m.dad[y] == k.dad[y])
    && m.lson[u] == k.lson[u] && (y != u ==> m.rson[u] == k.rson[u])
    && ChangedOnlyAt(k, m, {z, y, w, u})
  }

  lemma PullUpIs(k: Links, p: Pos, z: Pos)
    requires Sized(k) && k.dad[z] < N && k.lson[p] < N && k.lson[z] <= N
    requires var y, w, u := k.dad[z], k.lson[z], k.lson[p];
             p != z && y != z && u != z && (w != NIL ==> w != z && w != y && w != u)
    ensures UpPulled(k, PullUp(k, p, z), p, z)
  {}

  lemma ChangedTwice(k: Links, m: Links, r: Links, s: set<nat>, t: set<nat>)
    requires Sized(k) && Sized(m) && Sized(r) && ChangedOnlyAt(k, m, s) && ChangedOnlyAt(m, r, t)
    ensures ChangedOnlyAt(k, r, s + t)
  {}

  lemma Untouched(k: Links, m: Links, s: set<nat>, n: nat)
    requires Sized(k) && Sized(m) && ChangedOnlyAt(k, m, s) && n !in s
    ensures n < N ==> m.lson[n] == k.lson[n] && m.dad[n] == k.dad[n] && m.rson[n] == k.rson[n]
  {}

  /** The roots keep their sons, and so does the holder. */
  ghost predicate HolderKept(c: Context, k: Links, m: Links, b: nat)
    requires Sized(k) && Sized(m) && b < 256
  {
    && (forall a :: 0 <= a < 256 ==> m.rson[Root(a)] == k.rson[Root(a)])
    && (var e := Holder(c, Root(b)); e < N ==> m.lson[e] == k.lson[e] && m.rson[e] == k.rson[e] && m.dad[e] == k.dad[e])
  }

  lemma HolderThrough(c: Context, k: Links, m: Links, r: Links, b: nat, z: nat)
    requires Sized(k) && Sized(m) && Sized(r) && b < 256 && HolderKept(c, k, m, b) && HolderNow(c, m, r, b, z)
    ensures HolderNow(c, k, r, b, z)
  {}

  lemma PullUpHolder(c: Context, k: Links, b: nat, p: Pos, z: Pos)
    requires Sized(k) && b < 256 && k.dad[z] < N && k.lson[p] < N && k.lson[z] <= N
    requires var e := Holder(c, Root(b)); e != z && e != k.dad[z] && e != k.lson[z] && e != k.lson[p]
    ensures HolderKept(c, k, PullUp(k, p, z), b)
    ensures var e := Holder(c, Root(b)); e < N + 257 ==> PullUp(k, p, z).rson[e] == k.rson[e]
  {}

  lemma PullUpAt(c: Context, k: Links, b: nat, p: Pos, z: Pos)
    requires Sized(k) && b < 256 && k.dad[z] < N && k.lson[p] < N && k.rson[p] <= N && k.lson[z] <= N
    requires var e, x, y, w, u := Holder(c, Root(b)), k.rson[p], k.dad[z], k.lson[z], k.lson[p];
             && k.dad[p] == e && e < N + 257 && e != NIL
             && (k.rson[e] == p <==> HoleRight(c)) && (!HoleRight(c) ==> e < N)
             && p != z && x != p && x != z && y != p && y != z && y != x && u != p && u != z && u != x
             && w != p && w != z && (w != NIL ==> w != x && w != y && w != u)
             && e != p && e != z && e != x && e != y && e != w && e != u
    ensures var k1 := AdoptRight(PullUp(k, p, z), p, z);
            && k1.dad[p] == k.dad[p] && (k1.rson[k1.dad[p]] != p ==> k1.dad[p] <= N)
            && PullUp(k, p, z).rson[p] == k.rson[p]
    ensures PulledUp(c, k, Unhook(AdoptRight(PullUp(k, p, z), p, z), p, z), b, p, z)
  {
    var k0 := PullUp(k, p, z);
    var e, x, y, w, u := Holder(c, Root(b)), k.rson[p], k.dad[z], k.lson[z], k.lson[p];
    PullUpIs(k, p, z);
    PullUpHolder(c, k, b, p, z);
    hide PullUp, AdoptRight, Unhook, ChangedOnlyAt, HolderNow, HolderKept, HoleRight;
    Untouched(k, k0, {z, y, w, u}, p);
    AdoptAt(c, p, k0, b, z);
    var m := Unhook(AdoptRight(k0, p, z), p, z);
    HolderThrough(c, k, k0, m, b, z);
    PulledUpIs(c, k, k0, m, b, p, z);
  }

  lemma PulledUpIs(c: Context, k: Links, k0: Links, m: Links, b: nat, p: Pos, z: Pos)
    requires Sized(k) && Sized(k0) && Sized(m) && b < 256 && k.dad[z] < N && k.lson[p] < N && k.lson[z] <= N
    requires var e, x, y, w, u := Holder(c, Root(b)), k.rson[p], k.dad[z], k.lson[z], k.lson[p];
             && p != z && x != z && y != p && y != z && y != x && u != p && u != z && u != x
             && w != p && w != z && (w != NIL ==> w != x && w != y && w != u)
             && e != y && e != w && e != u
             && UpPulled(k, k0, p, z) && k0.rson[p] == x
             && HolderNow(c, k, m, b, z) && m.dad[p] == NIL && Hung(x, z, k0, m)
             && m.dad[z] == e && m.lson[z] == k0.lson[z] && m.rson[z] == x && ChangedOnlyAt(k0, m, {p, z, e, x})
    ensures PulledUp(c, k, m, b, p, z)
  {
    hide ChangedOnlyAt, HolderNow;
    var e, x, y, w, u := Holder(c, Root(b)), k.rson[p], k.dad[z], k.lson[z], k.lson[p];
    Untouched(k0, m, {p, z, e, x}, y);
    Untouched(k0, m, {p, z, e, x}, u);
    if w < N { Untouched(k0, m, {p, z, e, x}, w); }
    if x < N { Untouched(k, k0, {z, y, w, u}, x); }
    ChangedTwice(k, k0, m, {z, y, w, u}, {p, z, e, x});
    assert {z, y, w, u} + {p, z, e, x} == PulledPlaces(k, e, p, z);
  }

  /** The last node left of `p`, at the end of the spine `s`. */
  lemma SpineFacts(c: Context, s: Context, ql: Tree, z: Pos, p: Pos, q: Tree, k: Links, text: Text, b: nat)
    requires Sized(k) && b < 256 && Spine(s)
    requires var l := Plug(s, Node(ql, z, Nil)); AtNode(c, l, p, q, k, b) && Sorted(Node(l, p, q), text)
    ensures var y, w, u := k.dad[z], k.lson[z], k.lson[p];
            && u < N && y < N && u in ContextElems(s) && y in ContextElems(s)
            && LinkedContext(s, z, y, u, p, k) && SonAt(ql, w, z, k)
    ensures SortedContext(s, text) && z !in ContextElems(s) && z !in Elems(ql) && Elems(ql) !! ContextElems(s)
    ensures Elems(Plug(s, Node(ql, z, Nil))) == ContextElems(s) + Elems(ql) + {z}
    ensures k.dad[z] == Holder(s, p)
  {
    hide Less, SortedContext, LinkedContext, Spine;
    var t := Node(ql, z, Nil);
    var l := Plug(s, t);
    PlugSorted(s, t, text);
    PlugElems(s, t);
    var x := UnplugLinked(s, t, k.lson[p], p, k);
    assert z in Elems(t);
    forall a | a in Elems(t) ensures a !in ContextElems(s) { FitsOutside(s, text, a); }
    SidesApart(ql, z, Nil, text);
    SonAtLinked(ql, k.lson[z], z, k, text);
    SpineTop(s, z, k.dad[z], k.lson[p], p, k);
  }

  lemma {:induction false} SpineTop(s: Context, x: nat, e: nat, u: nat, d: nat, k: Links)
    requires Spine(s) && Sized(k) && LinkedContext(s, x, e, u, d, k)
    ensures u < N && u in ContextElems(s) && e < N && e in ContextElems(s)
    decreases s
  {
    if s.up.Top? {
    } else {
      SpineTop(s.up, s.pos, k.dad[s.pos], u, d, k);
    }
  }

  /** The places of a pull-up, told apart. */
  lemma PulledApart(c: Context, s: Context, ql: Tree, z: Pos, p: Pos, q: Tree, k: Links, text: Text, b: nat)
    requires Sized(k) && b < 256 && Spine(s) && q.Node?
    requires var l := Plug(s, Node(ql, z, Nil)); AtNode(c, l, p, q, k, b) && Sorted(Node(l, p, q), text)
    ensures k.dad[z] < N && k.lson[p] < N && k.rson[p] < N && k.lson[z] <= N
    ensures var e, x, y, w, u := Holder(c, Root(b)), k.rson[p], k.dad[z], k.lson[z], k.lson[p];
            && p != z && x != p && x != z && y != p && y != z && y != x && u != p && u != z && u != x
            && w != p && w != z && (w != NIL ==> w != x && w != y && w != u)
            && e != p && e != z && e != x && e != y && e != w && e != u
  {
    SpineFacts(c, s, ql, z, p, q, k, text, b);
    HolderPlace(c, b);
    HolderElsewhere(c, Plug(s, Node(ql, z, Nil)), p, q, k, b);
  }

  /** How a pull-up changes the nodes of the spine. */
  lemma PulledOnSpine(s: Context, k: Links, m: Links, e: nat, p: Pos, z: Pos)
    requires Sized(k) && Sized(m) && k.dad[z] < N && k.lson[p] < N
    requires ChangedOnlyAt(k, m, PulledPlaces(k, e, p, z))
    requires p !in ContextElems(s) && z !in ContextElems(s) && e !in ContextElems(s)
    requires k.lson[z] !in ContextElems(s) && k.rson[p] !in ContextElems(s)
    requires var y, u := k.dad[z], k.lson[p];
             && m.lson[y] == k.lson[y] && (y != u ==> m.dad[y] == k.dad[y])
             && m.lson[u] == k.lson[u] && (y != u ==> m.rson[u] == k.rson[u])
    ensures forall n :: n in ContextElems(s) ==>
      m.lson[n] == k.lson[n] && (n != k.dad[z] ==> m.rson[n] == k.rson[n]) && (n != k.lson[p] ==> m.dad[n] == k.dad[n])
  {}

  /** The nodes involved in a pull-up lie outside the part of `l` they do not name. */
  lemma PulledOff(c: Context, s: Context, ql: Tree, z: Pos, p: Pos, q: Tree, k: Links, text: Text, b: nat)
    requires Sized(k) && b < 256 && Spine(s) && q.Node?
    requires var l := Plug(s, Node(ql, z, Nil)); AtNode(c, l, p, q, k, b) && Sorted(Node(l, p, q), text)
    ensures var e, w := Holder(c, Root(b)), k.lson[z];
            && p !in ContextElems(s) && z !in ContextElems(s) && e !in ContextElems(s)
            && w !in ContextElems(s) && k.rson[p] !in ContextElems(s)
            && forall n :: n in PulledPlaces(k, e, p, z) && n in Elems(ql) ==> n == w
  {
    hide Less, Sorted, SortedContext, Linked, LinkedContext, Plug, Spine;
    SpineFacts(c, s, ql, z, p, q, k, text, b);
    HolderElsewhere(c, Plug(s, Node(ql, z, Nil)), p, q, k, b);
  }

  /** The left side of the node pulled up: the spine without its end. */
  lemma PulledLeft(c: Context, s: Context, ql: Tree, z: Pos, p: Pos, q: Tree, k: Links, m: Links, text: Text, b: nat)
    requires Sized(k) && Sized(m) && b < 256 && Spine(s) && q.Node?
    requires var l := Plug(s, Node(ql, z, Nil)); AtNode(c, l, p, q, k, b) && Sorted(Node(l, p, q), text)
    requires k.dad[z] < N && k.lson[p] < N && PulledUp(c, k, m, b, p, z)
    ensures Linked(Plug(s, ql), k.lson[p], z, m)
  {
    SpineFacts(c, s, ql, z, p, q, k, text, b);
    PulledOff(c, s, ql, z, p, q, k, text, b);
    var e, y, w, u := Holder(c, Root(b)), k.dad[z], k.lson[z], k.lson[p];
    SonHung(ql, w, z, y, k, m, PulledPlaces(k, e, p, z));
    PulledOnSpine(s, k, m, e, p, z);
    SpineRelinked(s, z, y, u, p, k, m, text, w, z);
    PlugLinked(s, ql, w, y, u, z, m);
  }

  lemma PulledSorted(s: Context, ql: Tree, z: Pos, p: Pos, q: Tree, text: Text)
    requires Spine(s) && Sorted(Node(Plug(s, Node(ql, z, Nil)), p, q), text)
    ensures Sorted(Node(Plug(s, ql), z, q), text)
    ensures Elems(Node(Plug(s, ql), z, q)) == Elems(Node(Plug(s, Node(ql, z, Nil)), p, q)) - {p}
  {
    hide Less, SortedContext, ContextElems, Plug, Spine;
    var l := Plug(s, Node(ql, z, Nil));
    LastSorted(s, ql, z, text);
    PlugElems(s, Node(ql, z, Nil));
    assert z in Elems(l);
    SidesApart(l, p, q, text);
    forall a | a in Elems(q) ensures Less(text, z, a) { Between(text, z, p, a); }
  }

  lemma PulledFinishes(c: Context, s: Context, ql: Tree, z: Pos, p: Pos, q: Tree, k: Links, m: Links, text: Text, b: nat)
    requires Sized(k) && Sized(m) && b < 256 && Spine(s) && q.Node?
    requires var l := Plug(s, Node(ql, z, Nil)); AtNode(c, l, p, q, k, b) && Sorted(Node(l, p, q), text)
    requires k.dad[z] < N && k.lson[p] < N && PulledUp(c, k, m, b, p, z)
    ensures Finishes(c, Plug(s, Node(ql, z, Nil)), p, q, k, m, text, b, Node(Plug(s, ql), z, q), z,
                     PulledPlaces(k, Holder(c, Root(b)), p, z))
  {
    var l := Plug(s, Node(ql, z, Nil));
    SpineFacts(c, s, ql, z, p, q, k, text, b);
    PulledLeft(c, s, ql, z, p, q, k, m, text, b);
    PulledSorted(s, ql, z, p, q, text);
    HolderPlace(c, b);
    HolderElsewhere(c, l, p, q, k, b);
    PulledPlacesMeet(c, l, z, p, q, k, b);
    SonHung(q, k.rson[p], p, z, k, m, PulledPlaces(k, Holder(c, Root(b)), p, z));
  }

  /** Where the places of a pull-up lie. */
  lemma PulledPlacesMeet(c: Context, l: Tree, z: Pos, p: Pos, q: Tree, k: Links, b: nat)
    requires Sized(k) && b < 256 && AtNode(c, l, p, q, k, b) && q.Node?
    requires z in Elems(l) && k.dad[z] in Elems(l) && (k.lson[z] == NIL || k.lson[z] in Elems(l)) && k.lson[p] in Elems(l)
    ensures var places := PulledPlaces(k, Holder(c, Root(b)), p, z);
            && (forall n :: n in places && n in ContextElems(c) ==> n == Holder(c, Root(b)))
            && (forall n: Pos :: n in places ==> n in ContextElems(c) || n in Elems(Node(l, p, q)))
            && (forall n :: n in places && n in Elems(q) ==> n == k.rson[p])
  {
    HolderPlace(c, b);
    HolderElsewhere(c, l, p, q, k, b);
  }

  /** Two sons, and the left one has a right son: the last node left of `p` is pulled up. */
  lemma LastOnLeft(c: Context, s: Context, ql: Tree, z: Pos, p: Pos, q: Tree, k: Links, text: Text, b: nat)
    requires Sized(k) && b < 256 && Spine(s) && q.Node?
    requires var l := Plug(s, Node(ql, z, Nil)); AtNode(c, l, p, q, k, b) && Sorted(Node(l, p, q), text)
    ensures k.dad[z] <= N && k.lson[p] <= N && k.rson[p] <= N && k.lson[z] <= N && k.dad[p] < N + 257
    ensures var k1 := AdoptRight(PullUp(k, p, z), p, z);
            && PullUp(k, p, z).rson[p] == k.rson[p]
            && k1.dad[p] == k.dad[p] && (k1.rson[k1.dad[p]] != p ==> k1.dad[p] <= N)
            && Finishes(c, Plug(s, Node(ql, z, Nil)), p, q, k, Unhook(k1, p, z), text, b,
                        Node(Plug(s, ql), z, q), z, PulledPlaces(k, Holder(c, Root(b)), p, z))
  {
    PulledApart(c, s, ql, z, p, q, k, text, b);
    PullUpAt(c, k, b, p, z);
    PulledFinishes(c, s, ql, z, p, q, k, Unhook(AdoptRight(PullUp(k, p, z), p, z), p, z), text, b);
  }

  // ---------- deleting from the forest ----------

  /** Where `p` is in a tree that contains it. */
  lemma {:induction false} Locate(t: Tree, p: Pos) returns (c: Context, l: Tree, q: Tree)
    requires p in Elems(t)
    ensures t == Plug(c, Node(l, p, q))
  {
    var Node(tl, tp, tr) := t;
    if p == tp {
      c, l, q := Top, tl, tr;
    } else if p in Elems(tl) {
      c, l, q := Locate(tl, p);
      c := Under(c, InLeft(Top, tp, tr), Node(l, p, q));
    } else {
      c, l, q := Locate(tr, p);
      c := Under(c, InRight(Top, tl, tp), Node(l, p, q));
    }
  }

  /** The context `c` inside the one-step context `outer`. */
  lemma {:induction false} Under(c: Context, outer: Context, t: Tree) returns (d: Context)
    requires !outer.Top? && outer.up.Top?
    ensures Plug(d, t) == Plug(outer, Plug(c, t))
    decreases c
  {
    match c
    case Top => d := outer;
    case InLeft(up, p, r) => d := Under(up, outer, Node(t, p, r)); d := InLeft(d, p, r);
    case InRight(up, l, p) => d := Under(up, outer, Node(l, p, t)); d := InRight(d, l, p);
  }

  /** `p` is in the forest at the place described. */
  ghost predicate Placed(f: seq<Tree>, k: Links, text: Text, c: Context, l: Tree, p: Pos, q: Tree) {
    && ForestOk(f, k, text)
    && f[KeyAt(text, p, 0)] == Plug(c, Node(l, p, q))
    && AtNode(c, l, p, q, k, KeyAt(text, p, 0))
    && Sorted(Node(l, p, q), text)
  }

  lemma Place(f: seq<Tree>, k: Links, text: Text, p: Pos) returns (c: Context, l: Tree, q: Tree)
    requires ForestOk(f, k, text) && Registered(k, p)
    ensures Placed(f, k, text, c, l, p, q)
  {
    var b := KeyAt(text, p, 0);
    c, l, q := Locate(f[b], p);
    assert TreeOk(f[b], b, k, text);
    HolderSide(c, l, p, q, k, text, b);
  }

  /** The arrays `m` hold a good forest that has lost exactly `p`. */
  ghost predicate Lost(f: seq<Tree>, k: Links, m: Links, text: Text, p: Pos) {
    && Sized(k) && ForestOk(f, m, text)
    && forall n: Pos :: Registered(m, n) <==> Registered(k, n) && n != p
  }

  lemma LoseOneSon(f: seq<Tree>, k: Links, text: Text, c: Context, l: Tree, p: Pos, q: Tree) returns (f': seq<Tree>)
    requires Placed(f, k, text, c, l, p, q) && (k.lson[p] == NIL || k.rson[p] == NIL)
    ensures k.dad[p] < N + 257 && (k.rson[k.dad[p]] != p ==> k.dad[p] <= N)
    ensures var z := if k.rson[p] == NIL then k.lson[p] else k.rson[p];
            z <= N && Lost(f', k, Unhook(k, p, z), text, p)
  {
    var b := KeyAt(text, p, 0);
    OneSon(c, l, p, q, k, text, b);
    var z := if k.rson[p] == NIL then k.lson[p] else k.rson[p];
    var now := if q.Nil? then l else q;
    Finish(f, k, Unhook(k, p, z), text, c, l, p, q, now, z, {p, z, Holder(c, Root(b))});
    f' := f[b := Plug(c, now)];
  }

  lemma LoseLeftSon(f: seq<Tree>, k: Links, text: Text, c: Context, l: Tree, p: Pos, q: Tree) returns (f': seq<Tree>)
    requires Placed(f, k, text, c, l, p, q) && k.lson[p] != NIL && k.rson[p] != NIL
    requires k.lson[p] < N && k.rson[k.lson[p]] == NIL
    ensures k.rson[p] < N && k.dad[p] < N + 257
    ensures var z := k.lson[p]; var k1 := AdoptRight(k, p, z);
            && (k1.rson[k1.dad[p]] != p ==> k1.dad[p] <= N) && k1.dad[p] == k.dad[p]
            && Lost(f', k, Unhook(k1, p, z), text, p)
  {
    var b := KeyAt(text, p, 0);
    var Node(ll, z, lr) := l;
    assert lr.Nil? by { TopPointer(lr, k.rson[z], z, k); }
    LeftSon(c, ll, z, p, q, k, text, b);
    var m := Unhook(AdoptRight(k, p, z), p, z);
    Finish(f, k, m, text, c, l, p, q, Node(ll, z, q), z, {p, z, Holder(c, Root(b)), k.rson[p]});
    f' := f[b := Plug(c, Node(ll, z, q))];
  }

  /** `z` is the last node of `l`, at the end of the spine `s`. */
  ghost predicate LastOf(l: Tree, s: Context, ql: Tree, z: Pos) {
    Spine(s) && l == Plug(s, Node(ql, z, Nil))
  }

  lemma LosePulled(f: seq<Tree>, k: Links, text: Text, c: Context, l: Tree, p: Pos, q: Tree,
                   s: Context, ql: Tree, z: Pos) returns (f': seq<Tree>)
    requires Placed(f, k, text, c, l, p, q) && k.rson[p] != NIL && LastOf(l, s, ql, z)
    ensures k.dad[z] <= N && k.lson[p] <= N && k.rson[p] <= N && k.lson[z] <= N && k.dad[p] < N + 257
    ensures var k0 := PullUp(k, p, z); var k1 := AdoptRight(k0, p, z);
            && k0.rson[p] == k.rson[p] && k1.dad[p] == k.dad[p]
            && (k1.rson[k1.dad[p]] != p ==> k1.dad[p] <= N)
            && Lost(f', k, Unhook(k1, p, z), text, p)
  {
    var b := KeyAt(text, p, 0);
    LastOnLeft(c, s, ql, z, p, q, k, text, b);
    var m := Unhook(AdoptRight(PullUp(k, p, z), p, z), p, z);
    var now := Node(Plug(s, ql), z, q);
    Finish(f, k, m, text, c, l, p, q, now, z, PulledPlaces(k, Holder(c, Root(b)), p, z));
    f' := f[b := Plug(c, now)];
  }

  /** What `DeleteNode` may rely on when it starts moving pointers. */
  lemma PlacedBounds(f: seq<Tree>, k: Links, text: Text, c: Context, l: Tree, p: Pos, q: Tree)
    requires Placed(f, k, text, c, l, p, q)
    ensures k.lson[p] <= N && k.rson[p] <= N && k.dad[p] < N + 257
    ensures k.lson[p] != p && k.rson[p] != p && k.dad[p] != p
    ensures k.dad[p] != k.lson[p] && k.dad[p] != k.rson[p]
    ensures k.lson[p] < N ==> l.Node? && Linked(l, k.lson[p], p, k)
    ensures k.rson[k.dad[p]] != p ==> k.dad[p] <= N
  {
    HolderElsewhere(c, l, p, q, k, KeyAt(text, p, 0));
  }

  lemma PulledBounds(f: seq<Tree>, k: Links, text: Text, c: Context, l: Tree, p: Pos, q: Tree,
                     s: Context, ql: Tree, z: Pos)
    requires Placed(f, k, text, c, l, p, q) && k.rson[p] != NIL && LastOf(l, s, ql, z)
    ensures k.dad[z] <= N && k.lson[z] <= N && k.lson[p] <= N && k.lson[z] != z && k.lson[p] != z && z != p
    ensures k.dad[p] != z && k.rson[p] != z
  {
    PulledApart(c, s, ql, z, p, q, k, text, KeyAt(text, p, 0));
  }
}
