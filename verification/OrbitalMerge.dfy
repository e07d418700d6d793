/** The satellite catalogue update: sort the new elements by catalogue number, drop all but
    the latest of each satellite, and merge them with the old list in one of three modes. */
module OrbitalMerge {
  /** What the update looks at in a record; `rest` is everything else. */
  datatype Sat = Sat(cat: int, y3: int, d3: real, f1: real, pas: int, maj: int, marked: bool, rest: string)

  /** A strictly later epoch. */
  predicate Newer(a: Sat, b: Sat) {
    (a.y3 == b.y3 && a.d3 > b.d3) || a.y3 > b.y3
  }

  predicate Ascending(s: seq<Sat>) {
    forall i, j :: 0 <= i < j < |s| ==> s[i].cat < s[j].cat
  }

  predicate Sorted(s: seq<Sat>) {
    forall i, j :: 0 <= i < j < |s| ==> s[i].cat <= s[j].cat
  }

  function Cats(s: seq<Sat>): set<int> { set i | 0 <= i < |s| :: s[i].cat }

  // ---------- sorting ----------

  lemma SwapSame(a: seq<Sat>, i: nat, j: nat)
    requires i < j < |a|
    ensures multiset(a[i := a[j]][j := a[i]]) == multiset(a)
  {}

  /** One comparison of `Tri_Cat`. */
  method Exchange(stru: array<Sat>, i: nat, j: nat)
    requires i < j < stru.Length
    modifies stru
    ensures multiset(stru[..]) == multiset(old(stru[..]))
    ensures forall k :: 0 <= k < stru.Length && k != i && k != j ==> stru[k] == old(stru[k])
    ensures stru[i].cat <= stru[j].cat
    ensures stru[i] == (if old(stru[i]).cat > old(stru[j]).cat then old(stru[j]) else old(stru[i]))
    ensures stru[j] == (if old(stru[i]).cat > old(stru[j]).cat then old(stru[i]) else old(stru[j]))
  {
    if stru[i].cat > stru[j].cat {
      SwapSame(stru[..], i, j);
      ghost var was := stru[..];
      var t := stru[i];
      stru[i] := stru[j];
      stru[j] := t;
      assert stru[..] == was[i := was[j]][j := was[i]];
    }
  }

  /** The first `i` records are in place. */
  ghost predicate Settled(s: seq<Sat>, i: nat) {
    forall a, b :: 0 <= a < i && a < b < |s| ==> s[a].cat <= s[b].cat
  }

  /** One round of `Tri_Cat`: the smallest of what is left comes to place `i`. */
  method Round(stru: array<Sat>, nombre: nat, i: nat)
    requires i < nombre <= stru.Length && Settled(stru[..nombre], i)
    modifies stru
    ensures Settled(stru[..nombre], i + 1)
    ensures multiset(stru[..]) == multiset(old(stru[..])) && stru[nombre..] == old(stru[nombre..])
  {
    for j := i + 1 to nombre
      invariant i < j <= nombre && Settled(stru[..nombre], i)
      invariant multiset(stru[..]) == multiset(old(stru[..])) && stru[nombre..] == old(stru[nombre..])
      invariant forall k :: i < k < j ==> stru[i].cat <= stru[k].cat
    {
      ghost var was := stru[..nombre];
      Exchange(stru, i, j);
      ExchangeSettled(was, stru[..nombre], i, j);
    }
  }

  lemma ExchangeSettled(s: seq<Sat>, t: seq<Sat>, i: nat, j: nat)
    requires i < j < |s| == |t| && Settled(s, i)
    requires forall k :: 0 <= k < |s| && k != i && k != j ==> t[k] == s[k]
    requires (t[i] == s[i] && t[j] == s[j]) || (t[i] == s[j] && t[j] == s[i])
    ensures Settled(t, i)
  {}

  /** `Tri_Cat`: the records stay, in ascending order. */
  method TriCat(stru: array<Sat>, nombre: nat)
    requires nombre <= stru.Length
    modifies stru
    ensures Sorted(stru[..nombre])
    ensures multiset(stru[..nombre]) == multiset(old(stru[..nombre])) && stru[nombre..] == old(stru[nombre..])
  {
    var i := 0;
    while i + 1 < nombre
      invariant i <= nombre && Settled(stru[..nombre], i)
      invariant multiset(stru[..]) == multiset(old(stru[..])) && stru[nombre..] == old(stru[nombre..])
    {
      Round(stru, nombre, i);
      i := i + 1;
    }
    FrontSame(old(stru[..]), stru[..], nombre);
  }

  lemma FrontSame(s: seq<Sat>, t: seq<Sat>, n: nat)
    requires n <= |s| == |t| && s[n..] == t[n..] && multiset(s) == multiset(t)
    ensures multiset(s[..n]) == multiset(t[..n])
  {
    assert s == s[..n] + s[n..] && t == t[..n] + t[n..];
    assert multiset(s) == multiset(s[..n]) + multiset(s[n..]);
    assert multiset(t) == multiset(t[..n]) + multiset(t[n..]);
    assert multiset(s[..n]) == multiset(s) - multiset(s[n..]);
    assert multiset(t[..n]) == multiset(t) - multiset(t[n..]);
  }

  // ---------- duplicates ----------

  /** Record `i` stays: no later one of the same satellite is at least as new, no earlier one
      is newer. */
  predicate Stays(s: seq<Sat>, i: nat)
    requires i < |s|
  {
    && !s[i].marked
    && (forall j :: i < j < |s| && s[j].cat == s[i].cat ==> Newer(s[i], s[j]))
    && (forall j :: 0 <= j < i && s[j].cat == s[i].cat ==> !Newer(s[j], s[i]))
  }

  /** Those of the first `n` records that stay. */
  function Survivors(s: seq<Sat>, n: nat): (r: seq<Sat>)
    requires n <= |s|
    ensures |r| <= n
  {
    if n == 0 then [] else Survivors(s, n - 1) + (if Stays(s, n - 1) then [s[n - 1]] else [])
  }

  /** The marks after comparing: record `i` against all, and the earlier ones against all. */
  predicate MarkedBy(s: seq<Sat>, i: nat, upto: nat, k: nat)
    requires k < |s| && i <= |s| && upto <= |s|
  {
    || s[k].marked
    || (exists j :: 0 <= j < |s| && k < j && k < i && s[j].cat == s[k].cat && !Newer(s[k], s[j]))
    || (exists j :: 0 <= j < |s| && j < k && j < i && s[j].cat == s[k].cat && Newer(s[j], s[k]))
    || (k == i && exists j :: i < j < upto && s[j].cat == s[k].cat && !Newer(s[k], s[j]))
    || (i < k < upto && s[i].cat == s[k].cat && Newer(s[i], s[k]))
  }

  /** Only the marks have changed. */
  ghost predicate SameButMarks(s: seq<Sat>, t: seq<Sat>) {
    |s| == |t| && forall k :: 0 <= k < |s| ==> t[k] == s[k].(marked := t[k].marked)
  }

  /** The first loops of `doublons`. */
  method Mark(a: array<Sat>, nombre: nat)
    requires nombre <= a.Length
    modifies a
    ensures SameButMarks(old(a[..nombre]), a[..nombre]) && a[nombre..] == old(a[nombre..])
    ensures forall k :: 0 <= k < nombre ==> (a[k].marked <==> !Stays(old(a[..nombre]), k))
  {
    ghost var s := a[..nombre];
    var i := 0;
    while i + 1 < nombre
      invariant i <= nombre && SameButMarks(s, a[..nombre]) && a[nombre..] == old(a[nombre..])
      invariant forall k :: 0 <= k < nombre ==> (a[k].marked <==> MarkedBy(s, i, i, k))
    {
      MarkAgainst(a, nombre, i, s);
      i := i + 1;
    }
    forall k | 0 <= k < nombre ensures a[k].marked <==> !Stays(s, k) { AllMarked(s, i, k); }
  }

  lemma AllMarked(s: seq<Sat>, i: nat, k: nat)
    requires k < |s| && i <= |s| <= i + 1
    ensures MarkedBy(s, i, i, k) <==> !Stays(s, k)
  {}

  /** Record `i` against all behind it. */
  method MarkAgainst(a: array<Sat>, nombre: nat, i: nat, ghost s: seq<Sat>)
    requires i < nombre <= a.Length && |s| == nombre && SameButMarks(s, a[..nombre])
    requires forall k :: 0 <= k < nombre ==> (a[k].marked <==> MarkedBy(s, i, i, k))
    modifies a
    ensures SameButMarks(s, a[..nombre]) && a[nombre..] == old(a[nombre..])
    ensures forall k :: 0 <= k < nombre ==> (a[k].marked <==> MarkedBy(s, i + 1, i + 1, k))
  {
    for j := i + 1 to nombre
      invariant SameButMarks(s, a[..nombre]) && a[nombre..] == old(a[nombre..])
      invariant forall k :: 0 <= k < nombre ==> (a[k].marked <==> MarkedBy(s, i, j, k))
    {
      assert a[i] == s[i].(marked := a[..nombre][i].marked) && a[j] == s[j].(marked := a[..nombre][j].marked);
      if a[i].cat == a[j].cat {
        if Newer(a[i], a[j]) {
          a[j] := a[j].(marked := true);
        } else {
          a[i] := a[i].(marked := true);
        }
      }
    }
  }

  /** `doublons`: those that stay, in order, at the front. */
  method Doublons(nouveaux: array<Sat>, tampon: array<Sat>, nombre: nat) returns (k: nat)
    requires nombre <= nouveaux.Length && nombre <= tampon.Length && nouveaux != tampon
    modifies nouveaux, tampon
    ensures k <= nombre && nouveaux[..k] == Survivors(old(nouveaux[..nombre]), nombre)
  {
    ghost var s := nouveaux[..nombre];
    Mark(nouveaux, nombre);
    k := 0;
    for i := 0 to nombre
      invariant k <= i && tampon[..k] == Survivors(s, i)
      invariant SameButMarks(s, nouveaux[..nombre])
      invariant forall m :: 0 <= m < nombre ==> (nouveaux[m].marked <==> !Stays(s, m))
    {
      if !nouveaux[i].marked {
        assert nouveaux[..nombre][i] == s[i];
        tampon[k] := nouveaux[i];
        k := k + 1;
      }
    }
    CopyBack(tampon, k, nouveaux);
  }

  lemma {:induction false} SurvivorFrom(s: seq<Sat>, n: nat, x: Sat) returns (i: nat)
    requires n <= |s| && x in Survivors(s, n)
    ensures i < n && s[i] == x && Stays(s, i)
  {
    if x in Survivors(s, n - 1) { i := SurvivorFrom(s, n - 1, x); } else { i := n - 1; }
  }

  lemma {:induction false} SurvivorIn(s: seq<Sat>, n: nat, i: nat)
    requires i < n <= |s| && Stays(s, i)
    ensures s[i] in Survivors(s, n)
  {
    if i == n - 1 {
    } else {
      SurvivorIn(s, n - 1, i);
    }
  }

  /** Of a sorted list those that stay are strictly ascending: one for each satellite. */
  lemma {:induction false} SurvivorsAscending(s: seq<Sat>, n: nat)
    requires Sorted(s) && n <= |s|
    ensures Ascending(Survivors(s, n))
  {
    if n == 0 {
    } else {
      SurvivorsAscending(s, n - 1);
      var front := Survivors(s, n - 1);
      if Stays(s, n - 1) {
        forall k | 0 <= k < |front| ensures front[k].cat < s[n - 1].cat {
          var i := SurvivorFrom(s, n - 1, front[k]);
          assert s[i].cat <= s[n - 1].cat;
        }
      }
    }
  }

  /** The record that stays among the first `n` of satellite `c`. */
  lemma {:induction false} BestOf(s: seq<Sat>, n: nat, c: int) returns (i: nat)
    requires n <= |s| && exists j :: 0 <= j < n && s[j].cat == c
    ensures i < n && s[i].cat == c
    ensures forall j :: i < j < n && s[j].cat == c ==> Newer(s[i], s[j])
    ensures forall j :: 0 <= j < i && s[j].cat == c ==> !Newer(s[j], s[i])
  {
    if exists j :: 0 <= j < n - 1 && s[j].cat == c {
      i := BestOf(s, n - 1, c);
      if s[n - 1].cat == c && !Newer(s[i], s[n - 1]) {
        i := n - 1;
      }
    } else {
      i := n - 1;
    }
  }

  lemma SurvivorOf(s: seq<Sat>, c: int)
    requires c in Cats(s) && forall i :: 0 <= i < |s| ==> !s[i].marked
    ensures c in Cats(Survivors(s, |s|))
  {
    var r := Survivors(s, |s|);
    var i := BestOf(s, |s|, c);
    SurvivorIn(s, |s|, i);
    var k :| 0 <= k < |r| && r[k] == s[i];
    assert r[k].cat == c;
  }

  lemma StaysLatest(s: seq<Sat>, i: nat, j: nat)
    requires i < |s| && j < |s| && Stays(s, i) && s[j].cat == s[i].cat
    ensures !Newer(s[j], s[i])
  {}

  lemma SurvivorLatest(s: seq<Sat>, x: Sat)
    requires x in Survivors(s, |s|)
    ensures x in s && x.cat in Cats(s) && forall j :: 0 <= j < |s| && s[j].cat == x.cat ==> !Newer(s[j], x)
  {
    var i := SurvivorFrom(s, |s|, x);
    hide Survivors, Stays, Newer;
    assert s[i].cat in Cats(s);
    forall j | 0 <= j < |s| && s[j].cat == x.cat ensures !Newer(s[j], x) { StaysLatest(s, i, j); }
  }

  /** No satellite is lost, and what stays of each is as new as any of its records. */
  lemma SurvivorsLatest(s: seq<Sat>)
    requires forall i :: 0 <= i < |s| ==> !s[i].marked
    ensures Cats(Survivors(s, |s|)) == Cats(s)
    ensures forall x :: x in Survivors(s, |s|) ==>
      x in s && (forall j :: 0 <= j < |s| && s[j].cat == x.cat ==> !Newer(s[j], x))
  {
    hide Survivors, Newer;
    var r := Survivors(s, |s|);
    forall c | c in Cats(s) ensures c in Cats(r) { SurvivorOf(s, c); }
    forall x | x in r
      ensures x in s && x.cat in Cats(s) && forall j :: 0 <= j < |s| && s[j].cat == x.cat ==> !Newer(s[j], x)
    {
      SurvivorLatest(s, x);
    }
  }

  /** Of each satellite the last of its latest records stays, and no other. */
  lemma SurvivorIs(s: seq<Sat>, i: nat)
    requires Sorted(s) && i < |s| && forall j :: 0 <= j < |s| ==> !s[j].marked
    requires forall j :: 0 <= j < |s| && s[j].cat == s[i].cat ==>
      s[j].y3 < s[i].y3 || (s[j].y3 == s[i].y3 && (s[j].d3 < s[i].d3 || (s[j].d3 == s[i].d3 && j <= i)))
    ensures s[i] in Survivors(s, |s|)
    ensures forall x :: x in Survivors(s, |s|) && x.cat == s[i].cat ==> x == s[i]
  {
    SurvivorIn(s, |s|, i);
    forall x | x in Survivors(s, |s|) && x.cat == s[i].cat ensures x == s[i] {
      var j := SurvivorFrom(s, |s|, x);
    }
  }

  // ---------- the merge ----------

  /** A new record of a known satellite: taken if newer, keeping beacon and step. */
  function Pick(young: Sat, known: Sat, jour: int): Sat {
    if Newer(young, known) then young.(maj := jour, f1 := known.f1, pas := known.pas) else known
  }

  function Stamped(s: seq<Sat>, jour: int): seq<Sat> {
    if s == [] then [] else [s[0].(maj := jour)] + Stamped(s[1..], jour)
  }

  /** What `Misajour` makes of an old and a new list; `option` is F to merge, S to keep the
      satellites of the new list, U those of the old one. */
  function Merged(v: seq<Sat>, n: seq<Sat>, option: char, jour: int): seq<Sat>
    requires option in {'F', 'S', 'U'}
    decreases |v| + |n|
  {
    if n == [] then (if option == 'S' then [] else v)
    else if v == [] then (if option == 'U' then [] else Stamped(n, jour))
    else if n[0].cat < v[0].cat then
      (if option == 'F' then [n[0]] else if option == 'S' then [n[0].(maj := jour)] else [])
      + Merged(v, n[1..], option, jour)
    else if n[0].cat == v[0].cat then [Pick(n[0], v[0], jour)] + Merged(v[1..], n[1..], option, jour)
    else (if option == 'S' then [] else [v[0]]) + Merged(v[1..], n, option, jour)
  }

  /** How many entries of the result come from the new list. */
  function Taken(v: seq<Sat>, n: seq<Sat>, option: char): nat
    requires option in {'F', 'S', 'U'}
    decreases |v| + |n|
  {
    if n == [] then 0
    else if v == [] then (if option == 'U' then 0 else |n|)
    else if n[0].cat < v[0].cat then (if option == 'U' then 0 else 1) + Taken(v, n[1..], option)
    else if n[0].cat == v[0].cat then (if Newer(n[0], v[0]) then 1 else 0) + Taken(v[1..], n[1..], option)
    else Taken(v[1..], n, option)
  }

  function Wanted(v: seq<Sat>, n: seq<Sat>, option: char): set<int> {
    if option == 'F' then Cats(v) + Cats(n) else if option == 'S' then Cats(n) else Cats(v)
  }

  lemma CatsFirst(x: Sat, s: seq<Sat>)
    ensures Cats([x] + s) == {x.cat} + Cats(s)
  {
    var t := [x] + s;
    assert t[0] == x;
    forall i | 0 <= i < |s| ensures s[i].cat in Cats(t) { assert t[i + 1] == s[i]; }
  }

  lemma CatsTail(s: seq<Sat>)
    requires s != []
    ensures Cats(s) == {s[0].cat} + Cats(s[1..])
  {
    assert s == [s[0]] + s[1..];
    CatsFirst(s[0], s[1..]);
  }

  lemma {:induction false} StampedIs(s: seq<Sat>, jour: int)
    ensures |Stamped(s, jour)| == |s| && Cats(Stamped(s, jour)) == Cats(s)
    ensures forall i :: 0 <= i < |s| ==> Stamped(s, jour)[i] == s[i].(maj := jour)
  {
    if s == [] {
    } else {
      StampedIs(s[1..], jour);
      CatsTail(s);
      CatsFirst(s[0].(maj := jour), Stamped(s[1..], jour));
    }
  }

  lemma PickCat(y: Sat, known: Sat, jour: int)
    requires y.cat == known.cat
    ensures Pick(y, known, jour).cat == y.cat
  {}

  /** Each mode keeps exactly its satellites. */
  lemma {:induction false} MergedCats(v: seq<Sat>, n: seq<Sat>, option: char, jour: int)
    requires Ascending(v) && Ascending(n) && option in {'F', 'S', 'U'}
    ensures Cats(Merged(v, n, option, jour)) == Wanted(v, n, option)
    decreases |v| + |n|
  {
    hide Pick, Newer;
    if n == [] {
    } else if v == [] {
      StampedIs(n, jour);
    } else {
      CatsTail(v);
      CatsTail(n);
      Above(v);
      Above(n);
      if n[0].cat < v[0].cat {
        MergedCats(v, n[1..], option, jour);
        CatsFirst(n[0], Merged(v, n[1..], option, jour));
        CatsFirst(n[0].(maj := jour), Merged(v, n[1..], option, jour));
        assert [] + Merged(v, n[1..], option, jour) == Merged(v, n[1..], option, jour);
      } else if n[0].cat == v[0].cat {
        PickCat(n[0], v[0], jour);
        MergedCats(v[1..], n[1..], option, jour);
        CatsFirst(Pick(n[0], v[0], jour), Merged(v[1..], n[1..], option, jour));
      } else {
        MergedCats(v[1..], n, option, jour);
        CatsFirst(v[0], Merged(v[1..], n, option, jour));
        assert [] + Merged(v[1..], n, option, jour) == Merged(v[1..], n, option, jour);
      }
    }
  }

  lemma Above(s: seq<Sat>)
    requires Ascending(s) && s != []
    ensures forall c :: c in Cats(s[1..]) ==> s[0].cat < c
  {}

  lemma AscendingFirst(x: Sat, s: seq<Sat>)
    requires Ascending(s) && forall c :: c in Cats(s) ==> x.cat < c
    ensures Ascending([x] + s)
  {
    forall i | 0 <= i < |s| ensures x.cat < s[i].cat { assert s[i].cat in Cats(s); }
  }

  /** The result is strictly ascending. */
  lemma {:induction false} MergedAscending(v: seq<Sat>, n: seq<Sat>, option: char, jour: int)
    requires Ascending(v) && Ascending(n) && option in {'F', 'S', 'U'}
    ensures Ascending(Merged(v, n, option, jour))
    decreases |v| + |n|
  {
    hide Pick, Newer, Stamped;
    if n == [] {
    } else if v == [] {
      StampedIs(n, jour);
    } else {
      CatsTail(v);
      CatsTail(n);
      Above(v);
      Above(n);
      if n[0].cat < v[0].cat {
        var rest := Merged(v, n[1..], option, jour);
        MergedAscending(v, n[1..], option, jour);
        MergedCats(v, n[1..], option, jour);
        AscendingFirst(n[0], rest);
        AscendingFirst(n[0].(maj := jour), rest);
      } else if n[0].cat == v[0].cat {
        PickCat(n[0], v[0], jour);
        MergedAscending(v[1..], n[1..], option, jour);
        MergedCats(v[1..], n[1..], option, jour);
        AscendingFirst(Pick(n[0], v[0], jour), Merged(v[1..], n[1..], option, jour));
      } else {
        MergedAscending(v[1..], n, option, jour);
        MergedCats(v[1..], n, option, jour);
        AscendingFirst(v[0], Merged(v[1..], n, option, jour));
      }
    }
  }

  /** The later epoch wins, and the old beacon and step are kept either way. */
  lemma PickLater(young: Sat, known: Sat, jour: int)
    ensures var x := Pick(young, known, jour);
            !Newer(young, x) && !Newer(known, x) && x.f1 == known.f1 && x.pas == known.pas
  {}

  ghost predicate FromBoth(v: seq<Sat>, n: seq<Sat>, jour: int, x: Sat) {
    exists i, j :: 0 <= i < |v| && 0 <= j < |n| && v[i].cat == n[j].cat && x == Pick(n[j], v[i], jour)
  }

  ghost predicate FromOld(v: seq<Sat>, n: seq<Sat>, x: Sat) {
    x in v && x.cat !in Cats(n)
  }

  /** In merge mode a new satellite gets today's date only if no old one lies behind it. */
  ghost predicate FromNew(v: seq<Sat>, n: seq<Sat>, option: char, jour: int, x: Sat) {
    && x.cat !in Cats(v)
    && exists j :: 0 <= j < |n| && x == NewEntry(v, n[j], option, jour)
  }

  ghost function NewEntry(v: seq<Sat>, y: Sat, option: char, jour: int): Sat {
    if option == 'F' && (exists c :: c in Cats(v) && c > y.cat) then y else y.(maj := jour)
  }

  ghost predicate Explained(v: seq<Sat>, n: seq<Sat>, option: char, jour: int, x: Sat) {
    FromBoth(v, n, jour, x) || FromOld(v, n, x) || FromNew(v, n, option, jour, x)
  }

  /** Explanations by the tails hold for the whole lists. */
  lemma ExplainedOldFirst(v: seq<Sat>, n: seq<Sat>, option: char, jour: int, x: Sat)
    requires Ascending(v) && Ascending(n) && v != [] && n != [] && v[0].cat < n[0].cat
    requires Explained(v[1..], n, option, jour, x)
    ensures Explained(v, n, option, jour, x)
  {
    hide Cats;
    CatsTail(v);
    if FromBoth(v[1..], n, jour, x) {
      var i, j :| 0 <= i < |v[1..]| && 0 <= j < |n| && v[1..][i].cat == n[j].cat && x == Pick(n[j], v[1..][i], jour);
      assert v[i + 1] == v[1..][i];
    } else if FromNew(v[1..], n, option, jour, x) {
      var j :| 0 <= j < |n| && x == NewEntry(v[1..], n[j], option, jour);
      assert n[0].cat <= n[j].cat;
      assert NewEntry(v, n[j], option, jour) == NewEntry(v[1..], n[j], option, jour);
    }
  }

  lemma ExplainedNewFirst(v: seq<Sat>, n: seq<Sat>, option: char, jour: int, x: Sat)
    requires Ascending(v) && Ascending(n) && n != [] && (v != [] ==> n[0].cat < v[0].cat)
    requires Explained(v, n[1..], option, jour, x)
    ensures Explained(v, n, option, jour, x)
  {
    CatsTail(n);
    if FromBoth(v, n[1..], jour, x) {
      var i, j :| 0 <= i < |v| && 0 <= j < |n[1..]| && v[i].cat == n[1..][j].cat && x == Pick(n[1..][j], v[i], jour);
      assert n[j + 1] == n[1..][j];
    } else if FromNew(v, n[1..], option, jour, x) {
      var j :| 0 <= j < |n[1..]| && x == NewEntry(v, n[1..][j], option, jour);
      assert n[j + 1] == n[1..][j];
    } else {
      assert x.cat > n[0].cat;
    }
  }

  lemma NewEntrySame(v: seq<Sat>, y: Sat, option: char, jour: int)
    requires v != [] && v[0].cat < y.cat
    ensures NewEntry(v[1..], y, option, jour) == NewEntry(v, y, option, jour)
  {
    CatsTail(v);
  }

  lemma NewBothFirst(v: seq<Sat>, n: seq<Sat>, option: char, jour: int, x: Sat)
    requires Ascending(v) && Ascending(n) && n != [] && v != [] && n[0].cat == v[0].cat
    requires FromNew(v[1..], n[1..], option, jour, x)
    ensures FromNew(v, n, option, jour, x)
  {
    hide NewEntry;
    var j :| 0 <= j < |n[1..]| && x == NewEntry(v[1..], n[1..][j], option, jour);
    var y := n[j + 1];
    assert n[1..][j] == y && n[0].cat < y.cat;
    NewEntrySame(v, y, option, jour);
    NewEntryCat(v, y, option, jour);
    CatsTail(v);
  }

  lemma NewEntryCat(v: seq<Sat>, y: Sat, option: char, jour: int)
    ensures NewEntry(v, y, option, jour).cat == y.cat
  {}

  lemma ExplainedBothFirst(v: seq<Sat>, n: seq<Sat>, option: char, jour: int, x: Sat)
    requires Ascending(v) && Ascending(n) && n != [] && v != [] && n[0].cat == v[0].cat
    requires Explained(v[1..], n[1..], option, jour, x)
    ensures Explained(v, n, option, jour, x)
  {
    hide Pick, NewEntry;
    var v1, n1 := v[1..], n[1..];
    if FromBoth(v1, n1, jour, x) {
      var i, j :| 0 <= i < |v1| && 0 <= j < |n1| && v1[i].cat == n1[j].cat && x == Pick(n1[j], v1[i], jour);
      assert n[j + 1] == n1[j] && v[i + 1] == v1[i];
    } else if FromNew(v1, n1, option, jour, x) {
      NewBothFirst(v, n, option, jour, x);
    } else {
      OldBothFirst(v, n, x);
    }
  }

  lemma OldBothFirst(v: seq<Sat>, n: seq<Sat>, x: Sat)
    requires Ascending(v) && n != [] && v != [] && n[0].cat == v[0].cat && FromOld(v[1..], n[1..], x)
    ensures FromOld(v, n, x)
  {
    var i :| 0 <= i < |v[1..]| && v[1..][i] == x;
    assert v[i + 1] == x && v[0].cat < x.cat;
    CatsTail(n);
  }

  lemma TailAscends(s: seq<Sat>)
    requires Ascending(s) && s != []
    ensures Ascending(s[1..])
  {}

  function NewHead(y: Sat, option: char, jour: int): seq<Sat> {
    if option == 'F' then [y] else if option == 'S' then [y.(maj := jour)] else []
  }

  /** The first of both lists, when it is an old one or a new one. */
  lemma FirstExplained(v: seq<Sat>, n: seq<Sat>, option: char, jour: int)
    requires Ascending(v) && Ascending(n) && v != [] && n != [] && option in {'F', 'S', 'U'}
    ensures n[0].cat < v[0].cat ==> forall x :: x in NewHead(n[0], option, jour) ==> Explained(v, n, option, jour, x)
    ensures n[0].cat > v[0].cat ==> Explained(v, n, option, jour, v[0])
    ensures n[0].cat == v[0].cat ==> Explained(v, n, option, jour, Pick(n[0], v[0], jour))
  {
    hide Pick, Newer;
    CatsTail(v);
    Above(v);
    CatsTail(n);
    Above(n);
    assert v[0].cat in Cats(v);
    NewEntryCat(v, n[0], option, jour);
    assert n[0].cat < v[0].cat ==> forall x :: x in NewHead(n[0], option, jour) ==> x == NewEntry(v, n[0], option, jour);
  }

  lemma OneListExplained(v: seq<Sat>, n: seq<Sat>, option: char, jour: int, x: Sat)
    requires (v == [] || n == []) && option in {'F', 'S', 'U'} && x in Merged(v, n, option, jour)
    ensures Explained(v, n, option, jour, x)
  {
    hide Pick, Newer;
    if n == [] {
      assert FromOld(v, n, x);
    } else {
      StampedIs(n, jour);
      var j :| 0 <= j < |n| && x == Stamped(n, jour)[j];
      assert x == NewEntry(v, n[j], option, jour);
    }
  }

  lemma MergedHead(v: seq<Sat>, n: seq<Sat>, option: char, jour: int)
    requires v != [] && n != [] && option in {'F', 'S', 'U'}
    ensures Merged(v, n, option, jour) ==
      if n[0].cat < v[0].cat then NewHead(n[0], option, jour) + Merged(v, n[1..], option, jour)
      else if n[0].cat == v[0].cat then [Pick(n[0], v[0], jour)] + Merged(v[1..], n[1..], option, jour)
      else (if option == 'S' then [] else [v[0]]) + Merged(v[1..], n, option, jour)
  {
    hide Pick, Newer;
  }

  /** Every entry of the result is an old one, a new one, or the choice between the two. */
  lemma {:induction false} EntryExplained(v: seq<Sat>, n: seq<Sat>, option: char, jour: int, x: Sat)
    requires Ascending(v) && Ascending(n) && option in {'F', 'S', 'U'} && x in Merged(v, n, option, jour)
    ensures Explained(v, n, option, jour, x)
    decreases |v| + |n|
  {
    hide Pick, Newer, Ascending, NewHead, Explained, Merged;
    if v == [] || n == [] {
      OneListExplained(v, n, option, jour, x);
    } else {
      TailAscends(v);
      TailAscends(n);
      FirstExplained(v, n, option, jour);
      MergedHead(v, n, option, jour);
      if n[0].cat < v[0].cat {
        if x !in NewHead(n[0], option, jour) {
          EntryExplained(v, n[1..], option, jour, x);
          ExplainedNewFirst(v, n, option, jour, x);
        }
      } else if n[0].cat == v[0].cat {
        if x != Pick(n[0], v[0], jour) {
          EntryExplained(v[1..], n[1..], option, jour, x);
          ExplainedBothFirst(v, n, option, jour, x);
        }
      } else if x != v[0] {
        EntryExplained(v[1..], n, option, jour, x);
        ExplainedOldFirst(v, n, option, jour, x);
      }
    }
  }

  lemma HeadsUnfold(v: seq<Sat>, n: seq<Sat>, a: nat, b: nat, option: char, jour: int)
    requires a < |v| && b < |n| && option in {'F', 'S', 'U'}
    ensures var merged, taken := Merged(v[a..], n[b..], option, jour), Taken(v[a..], n[b..], option);
      if n[b].cat < v[a].cat then
        && merged == NewHead(n[b], option, jour) + Merged(v[a..], n[b + 1..], option, jour)
        && taken == (if option == 'U' then 0 else 1) + Taken(v[a..], n[b + 1..], option)
      else if n[b].cat == v[a].cat then
        && merged == [Pick(n[b], v[a], jour)] + Merged(v[a + 1..], n[b + 1..], option, jour)
        && taken == (if Newer(n[b], v[a]) then 1 else 0) + Taken(v[a + 1..], n[b + 1..], option)
      else
        && merged == (if option == 'S' then [] else [v[a]]) + Merged(v[a + 1..], n[b..], option, jour)
        && taken == Taken(v[a + 1..], n[b..], option)
  {
    hide Pick, Newer;
    assert v[a..][1..] == v[a + 1..] && n[b..][1..] == n[b + 1..];
    assert v[a..][0] == v[a] && n[b..][0] == n[b];
  }

  // ---------- how many were taken ----------

  function Foreign(s: seq<Sat>, v: seq<Sat>): nat {
    if s == [] then 0 else (if s[0] in v then 0 else 1) + Foreign(s[1..], v)
  }

  lemma ForeignFirst(x: Sat, s: seq<Sat>, v: seq<Sat>)
    ensures Foreign([x] + s, v) == (if x in v then 0 else 1) + Foreign(s, v)
  {
    assert ([x] + s)[1..] == s;
  }

  lemma {:induction false} AllForeign(s: seq<Sat>, v: seq<Sat>)
    requires forall i :: 0 <= i < |s| ==> s[i] !in v
    ensures Foreign(s, v) == |s|
  {
    if s == [] {
    } else {
      AllForeign(s[1..], v);
    }
  }

  lemma {:induction false} NoneForeign(s: seq<Sat>, v: seq<Sat>)
    requires forall i :: 0 <= i < |s| ==> s[i] in v
    ensures Foreign(s, v) == 0
  {
    if s == [] {
    } else {
      NoneForeign(s[1..], v);
    }
  }

  lemma OneCat(v: seq<Sat>, i: nat, x: Sat)
    requires Ascending(v) && i < |v| && x in v && x.cat == v[i].cat
    ensures x == v[i]
  {}

  lemma LastTaken(v: seq<Sat>, n: seq<Sat>, a: nat, b: nat, option: char, jour: int)
    requires option in {'F', 'S', 'U'} && a <= |v| && b <= |n| && (a == |v| || b == |n|)
    requires forall i, j :: 0 <= i < a && b <= j < |n| ==> v[i].cat < n[j].cat
    ensures Foreign(Merged(v[a..], n[b..], option, jour), v) == Taken(v[a..], n[b..], option)
  {
    var v1, n1 := v[a..], n[b..];
    if n1 == [] {
      NoneForeign(v1, v);
    } else {
      StampedIs(n1, jour);
      AllForeign(Stamped(n1, jour), v);
    }
  }

  /** At the place of a comparison: a new satellite in front is not in the old list, and what is
      passed in the old list stays below the new one. */
  lemma NewInFront(v: seq<Sat>, n: seq<Sat>, a: nat, b: nat)
    requires Ascending(v) && Ascending(n) && a < |v| && b < |n|
    requires forall i, j :: 0 <= i < a && b <= j < |n| ==> v[i].cat < n[j].cat
    ensures n[b].cat < v[a].cat ==> n[b].cat !in Cats(v)
    ensures n[b].cat > v[a].cat ==> forall i, j :: 0 <= i < a + 1 && b <= j < |n| ==> v[i].cat < n[j].cat
    ensures n[b].cat == v[a].cat ==> forall i, j :: 0 <= i < a + 1 && b + 1 <= j < |n| ==> v[i].cat < n[j].cat
  {}

  /** `nsat` counts the entries that are not old ones, counted from the places `a` and `b` on. */
  lemma {:induction false} TakenCounts(v: seq<Sat>, n: seq<Sat>, a: nat, b: nat, option: char, jour: int)
    requires Ascending(v) && Ascending(n) && option in {'F', 'S', 'U'} && a <= |v| && b <= |n|
    requires forall i, j :: 0 <= i < a && b <= j < |n| ==> v[i].cat < n[j].cat
    ensures Foreign(Merged(v[a..], n[b..], option, jour), v) == Taken(v[a..], n[b..], option)
    decreases |v| - a + |n| - b
  {
    hide Merged, Taken, Pick, Newer, Foreign, Ascending, NewHead;
    var v1, n1 := v[a..], n[b..];
    if v1 == [] || n1 == [] {
      LastTaken(v, n, a, b, option, jour);
    } else {
      NewInFront(v, n, a, b);
      HeadsUnfold(v, n, a, b, option, jour);
      if n[b].cat < v[a].cat {
        TakenCounts(v, n, a, b + 1, option, jour);
        ForeignHead(n[b], Merged(v1, n[b + 1..], option, jour), v, option, jour);
      } else if n[b].cat == v[a].cat {
        TakenCounts(v, n, a + 1, b + 1, option, jour);
        ForeignPick(v, a, n[b], jour);
        ForeignFirst(Pick(n[b], v[a], jour), Merged(v[a + 1..], n[b + 1..], option, jour), v);
      } else {
        TakenCounts(v, n, a + 1, b, option, jour);
        ForeignFirst(v[a], Merged(v[a + 1..], n1, option, jour), v);
        assert [] + Merged(v[a + 1..], n1, option, jour) == Merged(v[a + 1..], n1, option, jour);
      }
    }
  }

  lemma ForeignPick(v: seq<Sat>, a: nat, y: Sat, jour: int)
    requires Ascending(v) && a < |v| && y.cat == v[a].cat
    ensures Pick(y, v[a], jour) in v <==> !Newer(y, v[a])
  {
    var x := Pick(y, v[a], jour);
    if x in v { OneCat(v, a, x); }
  }

  lemma ForeignHead(y: Sat, s: seq<Sat>, v: seq<Sat>, option: char, jour: int)
    requires option in {'F', 'S', 'U'} && y.cat !in Cats(v)
    ensures Foreign(NewHead(y, option, jour) + s, v) == (if option == 'U' then 0 else 1) + Foreign(s, v)
  {
    ForeignFirst(y, s, v);
    ForeignFirst(y.(maj := jour), s, v);
    assert [] + s == s;
  }

  // ---------- the code ----------

  /** The rest of the old list. */
  method CopyOld(vieux: array<Sat>, vvv: nat, vv: nat, tampon: array<Sat>, i: nat) returns (k: nat)
    requires vvv <= vv <= vieux.Length && i + (vv - vvv) <= tampon.Length && vieux != tampon
    modifies tampon
    ensures k == i + (vv - vvv) && tampon[..k] == old(tampon[..i]) + vieux[vvv..vv]
  {
    k := i;
    for m := vvv to vv
      invariant k == i + (m - vvv) && tampon[..k] == old(tampon[..i]) + vieux[vvv..m]
    {
      tampon[k] := vieux[m];
      k := k + 1;
    }
  }

  lemma {:induction false} StampedSnoc(s: seq<Sat>, x: Sat, jour: int)
    ensures Stamped(s + [x], jour) == Stamped(s, jour) + [x.(maj := jour)]
  {
    if s == [] {
      assert ([] + [x])[1..] == [];
    } else {
      StampedSnoc(s[1..], x, jour);
      assert (s + [x])[1..] == s[1..] + [x];
    }
  }

  /** The rest of the new list, with today's date. */
  method CopyNew(nouv: array<Sat>, nnn: nat, nn: nat, tampon: array<Sat>, i: nat, jour: int) returns (k: nat)
    requires nnn <= nn <= nouv.Length && i + (nn - nnn) <= tampon.Length && nouv != tampon
    modifies tampon, nouv
    ensures k == i + (nn - nnn) && tampon[..k] == old(tampon[..i]) + Stamped(old(nouv[nnn..nn]), jour)
  {
    k := i;
    for m := nnn to nn
      invariant k == i + (m - nnn) && nouv[m..] == old(nouv[m..])
      invariant tampon[..k] == old(tampon[..i]) + Stamped(old(nouv[nnn..m]), jour)
    {
      assert nouv[m] == nouv[m..][0] == old(nouv[m]);
      assert old(nouv[nnn..m + 1]) == old(nouv[nnn..m]) + [old(nouv[m])];
      StampedSnoc(old(nouv[nnn..m]), nouv[m], jour);
      assert nouv[m + 1..] == nouv[m..][1..];
      nouv[m] := nouv[m].(maj := jour);
      tampon[k] := nouv[m];
      k := k + 1;
    }
  }

  /** What is still to come at places `a` and `b`, behind what has been collected. */
  ghost predicate OnCourse(out: seq<Sat>, count: nat, v: seq<Sat>, n: seq<Sat>, a: nat, b: nat, option: char, jour: int) {
    && option in {'F', 'S', 'U'} && a <= |v| && b <= |n| && |out| <= a + b
    && out + Merged(v[a..], n[b..], option, jour) == Merged(v, n, option, jour)
    && count + Taken(v[a..], n[b..], option) == Taken(v, n, option)
  }

  lemma CourseStart(v: seq<Sat>, n: seq<Sat>, option: char, jour: int)
    requires option in {'F', 'S', 'U'}
    ensures OnCourse([], 0, v, n, 0, 0, option, jour)
  {
    assert v[0..] == v && n[0..] == n && [] + Merged(v, n, option, jour) == Merged(v, n, option, jour);
  }

  /** Collecting `x`, taking `t` from the new list and moving to places `a2` and `b2`. */
  lemma CourseMoves(out: seq<Sat>, count: nat, v: seq<Sat>, n: seq<Sat>, a: nat, b: nat, option: char, jour: int,
                    x: seq<Sat>, t: nat, a2: nat, b2: nat)
    requires OnCourse(out, count, v, n, a, b, option, jour) && a2 <= |v| && b2 <= |n|
    requires |x| + a + b <= a2 + b2
    requires Merged(v[a..], n[b..], option, jour) == x + Merged(v[a2..], n[b2..], option, jour)
    requires Taken(v[a..], n[b..], option) == t + Taken(v[a2..], n[b2..], option)
    ensures OnCourse(out + x, count + t, v, n, a2, b2, option, jour)
  {
    hide Merged, Taken;
    assert out + x + Merged(v[a2..], n[b2..], option, jour) == out + (x + Merged(v[a2..], n[b2..], option, jour));
  }

  /** One comparison. */
  lemma NextStep(out: seq<Sat>, count: nat, v: seq<Sat>, n: seq<Sat>, a: nat, b: nat, option: char, jour: int)
    requires OnCourse(out, count, v, n, a, b, option, jour) && a < |v| && b < |n|
    ensures n[b].cat < v[a].cat ==>
      OnCourse(out + NewHead(n[b], option, jour), count + (if option == 'U' then 0 else 1), v, n, a, b + 1, option, jour)
    ensures n[b].cat == v[a].cat ==>
      OnCourse(out + [Pick(n[b], v[a], jour)], count + (if Newer(n[b], v[a]) then 1 else 0), v, n, a + 1, b + 1, option, jour)
    ensures n[b].cat > v[a].cat ==>
      OnCourse(out + (if option == 'S' then [] else [v[a]]), count, v, n, a + 1, b, option, jour)
  {
    hide Pick, Newer, Merged, Taken;
    HeadsUnfold(v, n, a, b, option, jour);
    if n[b].cat < v[a].cat {
      CourseMoves(out, count, v, n, a, b, option, jour,
                  NewHead(n[b], option, jour), if option == 'U' then 0 else 1, a, b + 1);
    } else if n[b].cat == v[a].cat {
      CourseMoves(out, count, v, n, a, b, option, jour,
                  [Pick(n[b], v[a], jour)], if Newer(n[b], v[a]) then 1 else 0, a + 1, b + 1);
    } else {
      CourseMoves(out, count, v, n, a, b, option, jour, if option == 'S' then [] else [v[a]], 0, a + 1, b);
    }
  }

  /** The record `doublons` left for a satellite that is already known. */
  method Refresh(known: Sat, nouv: array<Sat>, b: nat, jour: int) returns (x: Sat, taken: nat)
    requires b < nouv.Length
    modifies nouv
    ensures x == Pick(old(nouv[b]), known, jour) && taken == (if Newer(old(nouv[b]), known) then 1 else 0)
    ensures nouv[b + 1..] == old(nouv[b + 1..])
  {
    if Newer(nouv[b], known) {
      x := nouv[b];
      nouv[b] := nouv[b].(maj := jour);
      x := x.(maj := nouv[b].maj, f1 := known.f1, pas := known.pas);
      taken := 1;
    } else {
      x := known;
      taken := 0;
    }
  }

  /** `CopyStru` to the next place of `tampon`. */
  method Keep(tampon: array<Sat>, i: nat, x: Sat) returns (k: nat)
    requires i < tampon.Length
    modifies tampon
    ensures k == i + 1 && tampon[..k] == old(tampon[..i]) + [x]
  {
    tampon[i] := x;
    k := i + 1;
  }

  /** A satellite that only the new list has so far. */
  method KeepNew(nouv: array<Sat>, b: nat, tampon: array<Sat>, i: nat, option: char, jour: int) returns (k: nat)
    requires b < nouv.Length && i < tampon.Length && option in {'F', 'S', 'U'} && nouv != tampon
    modifies nouv, tampon
    ensures k == i + (if option == 'U' then 0 else 1) && nouv[b + 1..] == old(nouv[b + 1..])
    ensures tampon[..k] == old(tampon[..i]) + NewHead(old(nouv[b]), option, jour)
  {
    k := i;
    if option != 'U' {
      if option == 'S' {
        nouv[b] := nouv[b].(maj := jour);
      }
      k := Keep(tampon, i, nouv[b]);
    }
  }

  /** One round of the comparing loop of `Misajour`, the same for its three options but for
      what is kept. */
  method CompareOne(vieux: array<Sat>, nouv: array<Sat>, tampon: array<Sat>, option: char, jour: int,
                    i0: nat, nsat0: nat, a: nat, b: nat, ghost v: seq<Sat>, ghost n: seq<Sat>)
      returns (i: nat, nsat: nat, vvv: nat, nnn: nat)
    requires a < |v| <= vieux.Length && b < |n| <= nouv.Length && i0 <= a + b && |v| + |n| <= tampon.Length
    requires vieux != nouv && vieux != tampon && nouv != tampon && option in {'F', 'S', 'U'}
    requires vieux[a] == v[a] && nouv[b] == n[b] && OnCourse(tampon[..i0], nsat0, v, n, a, b, option, jour)
    modifies nouv, tampon
    ensures a <= vvv <= |v| && b <= nnn <= |n| && a + b < vvv + nnn && nnn <= b + 1 && i <= vvv + nnn
    ensures OnCourse(tampon[..i], nsat, v, n, vvv, nnn, option, jour)
    ensures nouv[b + 1..] == old(nouv[b + 1..]) && (nnn == b ==> nouv[..] == old(nouv[..]))
  {
    hide OnCourse, Pick, Newer, Merged, Taken, NewHead;
    NextStep(tampon[..i0], nsat0, v, n, a, b, option, jour);
    i, nsat, vvv, nnn := i0, nsat0, a, b;
    if nouv[b].cat < vieux[a].cat {
      i := KeepNew(nouv, b, tampon, i, option, jour);
      nsat := nsat + (if option == 'U' then 0 else 1);
      nnn := nnn + 1;
    } else if nouv[b].cat == vieux[a].cat {
      var x, taken := Refresh(vieux[a], nouv, b, jour);
      i := Keep(tampon, i, x);
      nsat := nsat + taken;
      nnn := nnn + 1;
      vvv := vvv + 1;
    } else {
      if option != 'S' {
        i := Keep(tampon, i, vieux[a]);
      } else {
        assert tampon[..i] + [] == tampon[..i];
      }
      vvv := vvv + 1;
    }
  }

  method Compare(vieux: array<Sat>, vv: nat, nouv: array<Sat>, nn: nat, tampon: array<Sat>, option: char, jour: int)
      returns (i: nat, nsat: nat, vvv: nat, nnn: nat)
    requires vv <= vieux.Length && nn <= nouv.Length && vv + nn <= tampon.Length && option in {'F', 'S', 'U'}
    requires vieux != nouv && vieux != tampon && nouv != tampon
    modifies nouv, tampon
    ensures vvv <= vv && nnn <= nn && (vvv == vv || nnn == nn) && i <= vvv + nnn
    ensures OnCourse(tampon[..i], nsat, vieux[..vv], old(nouv[..nn]), vvv, nnn, option, jour)
    ensures nouv[nnn..] == old(nouv[nnn..])
  {
    i, nsat, vvv, nnn := 0, 0, 0, 0;
    ghost var v, n := vieux[..vv], nouv[..nn];
    hide OnCourse, Pick, Newer, Merged, Taken;
    CourseStart(v, n, option, jour);
    assert tampon[..0] == [];
    while nnn < nn && vvv < vv
      invariant vvv <= vv && nnn <= nn && i <= vvv + nnn
      invariant OnCourse(tampon[..i], nsat, v, n, vvv, nnn, option, jour)
      invariant nouv[nnn..] == old(nouv[nnn..])
      decreases vv - vvv + nn - nnn
    {
      assert nouv[nnn] == nouv[nnn..][0] == n[nnn];
      assert nouv[nnn + 1..] == old(nouv[nnn..])[1..];
      i, nsat, vvv, nnn := CompareOne(vieux, nouv, tampon, option, jour, i, nsat, vvv, nnn, v, n);
    }
  }

  /** `Misajour`; any option but the three gives an empty list. */
  method Misajour(vieux: array<Sat>, vv: nat, nouv: array<Sat>, nn: nat, tampon: array<Sat>, option: char, jour: int)
      returns (k: nat, nsat: nat)
    requires vv <= vieux.Length && nn <= nouv.Length && vv + nn <= tampon.Length && vv + nn <= nouv.Length
    requires vieux != nouv && vieux != tampon && nouv != tampon
    modifies nouv, tampon
    ensures option in {'F', 'S', 'U'} ==>
      && k <= vv + nn && nouv[..k] == Merged(vieux[..vv], old(nouv[..nn]), option, jour)
      && nsat == Taken(vieux[..vv], old(nouv[..nn]), option)
    ensures option !in {'F', 'S', 'U'} ==> k == 0 && nsat == 0
  {
    hide Pick, Newer;
    k, nsat := 0, 0;
    if option == 'F' || option == 'S' || option == 'U' {
      ghost var v, n := vieux[..vv], nouv[..nn];
      var vvv, nnn;
      k, nsat, vvv, nnn := Compare(vieux, vv, nouv, nn, tampon, option, jour);
      assert v[vvv..] == vieux[vvv..vv] && n[nnn..] == nouv[nnn..nn];
      if option != 'S' && nnn + 1 >= nn {
        k := CopyOld(vieux, vvv, vv, tampon, k);
        vvv := vv;
      }
      if option != 'U' && vvv + 1 >= vv {
        k := CopyNew(nouv, nnn, nn, tampon, k, jour);
        nsat := nsat + (nn - nnn);
      }
      CopyBack(tampon, k, nouv);
    }
  }

  method CopyBack(tampon: array<Sat>, k: nat, nouv: array<Sat>)
    requires k <= tampon.Length && k <= nouv.Length && nouv != tampon
    modifies nouv
    ensures nouv[..k] == tampon[..k]
  {
    for j := 0 to k
      invariant nouv[..j] == tampon[..j]
    {
      nouv[j] := tampon[j];
    }
  }

  lemma SameCats(s: seq<Sat>, t: seq<Sat>)
    requires multiset(s) == multiset(t)
    ensures Cats(s) == Cats(t) && forall x :: x in s <==> x in t
  {
    forall x | x in s ensures x in t { assert x in multiset(s); }
    forall x | x in t ensures x in s { assert x in multiset(t); }
    forall i | 0 <= i < |s| ensures s[i].cat in Cats(t) { assert s[i] in t; }
    forall i | 0 <= i < |t| ensures t[i].cat in Cats(s) { assert t[i] in s; }
  }

  /** No record of the same satellite in `s` is newer. */
  ghost predicate Latest(x: Sat, s: seq<Sat>) {
    forall y :: y in s && y.cat == x.cat ==> !Newer(y, x)
  }

  /** The new list as it is merged: one record of each satellite read, none of them older than
      another that was read. */
  ghost predicate Prepared(raw: seq<Sat>, young: seq<Sat>) {
    && Ascending(young) && Cats(young) == Cats(raw)
    && forall x :: x in young ==> x in raw && Latest(x, raw)
  }

  /** The new list sorted and without duplicates: its satellites, in order, each with a record
      as new as any that was read. */
  method Prepare(nouveaux: array<Sat>, m: nat, tampon: array<Sat>) returns (j: nat)
    requires m <= nouveaux.Length && m <= tampon.Length && nouveaux != tampon
    requires forall i :: 0 <= i < m ==> !nouveaux[i].marked
    modifies nouveaux, tampon
    ensures j <= m && Prepared(old(nouveaux[..m]), nouveaux[..j])
  {
    ghost var raw := nouveaux[..m];
    TriCat(nouveaux, m);
    ghost var s := nouveaux[..m];
    SameCats(raw, s);
    j := Doublons(nouveaux, tampon, m);
    forall i | 0 <= i < |s| ensures !s[i].marked { assert s[i] in raw; }
    SurvivorsAscending(s, m);
    SurvivorsLatest(s);
  }

  /** What is accounted for is as new as any record read, old or new. */
  lemma ExplainedLatest(v: seq<Sat>, raw: seq<Sat>, young: seq<Sat>, option: char, jour: int, x: Sat)
    requires Ascending(v) && Prepared(raw, young) && Explained(v, young, option, jour, x)
    ensures Latest(x, v) && Latest(x, raw)
  {
    if FromBoth(v, young, jour, x) {
      var i, j :| 0 <= i < |v| && 0 <= j < |young| && v[i].cat == young[j].cat && x == Pick(young[j], v[i], jour);
      assert Latest(young[j], raw);
    } else if FromOld(v, young, x) {
      forall y | y in raw ensures y.cat != x.cat { InCats(raw, y); }
    } else {
      var j :| 0 <= j < |young| && x == NewEntry(v, young[j], option, jour);
      assert Latest(young[j], raw);
      forall y | y in v ensures y.cat != x.cat { InCats(v, y); }
    }
  }

  /** A known satellite: the newer record `y` comes in whole, but for today's date and the
      beacon and step of the old one; an older or equal one changes nothing. */
  ghost predicate Renewed(x: Sat, known: Sat, y: Sat, jour: int) {
    if y.y3 > known.y3 || (y.y3 == known.y3 && y.d3 > known.d3) then
      && x.cat == y.cat && x.y3 == y.y3 && x.d3 == y.d3 && x.marked == y.marked && x.rest == y.rest
      && x.maj == jour && x.f1 == known.f1 && x.pas == known.pas
    else
      x == known
  }

  /** A satellite of the new list only: its record, with today's date unless a merge meets an
      old satellite behind it. */
  ghost predicate Admitted(x: Sat, v: seq<Sat>, y: Sat, option: char, jour: int) {
    && x == y.(maj := x.maj)
    && x.maj == if option == 'F' && (exists i :: 0 <= i < |v| && v[i].cat > y.cat) then y.maj else jour
  }

  /** An entry of the result by its fields: what it has from the old record of its satellite and
      what from the new one. */
  ghost predicate ByFields(v: seq<Sat>, n: seq<Sat>, option: char, jour: int, x: Sat) {
    && (forall i, j :: 0 <= i < |v| && 0 <= j < |n| && v[i].cat == x.cat && n[j].cat == x.cat ==>
          Renewed(x, v[i], n[j], jour))
    && (forall i :: 0 <= i < |v| && v[i].cat == x.cat && x.cat !in Cats(n) ==> x == v[i])
    && (forall j :: 0 <= j < |n| && n[j].cat == x.cat && x.cat !in Cats(v) ==> Admitted(x, v, n[j], option, jour))
  }

  lemma SameRecord(s: seq<Sat>, i: nat, j: nat)
    requires Ascending(s) && i < |s| && j < |s| && s[i].cat == s[j].cat
    ensures i == j
  {}

  lemma PickRenews(known: Sat, y: Sat, jour: int)
    requires y.cat == known.cat
    ensures Renewed(Pick(y, known, jour), known, y, jour)
  {}

  lemma NewEntryAdmitted(v: seq<Sat>, y: Sat, option: char, jour: int)
    ensures Admitted(NewEntry(v, y, option, jour), v, y, option, jour)
  {
    if c :| c in Cats(v) && c > y.cat {
      var i :| 0 <= i < |v| && v[i].cat == c;
    }
    forall i | 0 <= i < |v| ensures v[i].cat in Cats(v) {}
  }

  /** What is accounted for is so by its fields. */
  lemma ExplainedFields(v: seq<Sat>, n: seq<Sat>, option: char, jour: int, x: Sat)
    requires Ascending(v) && Ascending(n) && Explained(v, n, option, jour, x)
    ensures ByFields(v, n, option, jour, x)
  {
    hide Ascending, Pick, Newer, NewEntry, Admitted, Renewed;
    if FromBoth(v, n, jour, x) {
      var i, j :| 0 <= i < |v| && 0 <= j < |n| && v[i].cat == n[j].cat && x == Pick(n[j], v[i], jour);
      PickCat(n[j], v[i], jour);
      PickRenews(v[i], n[j], jour);
      forall a | 0 <= a < |v| && v[a].cat == x.cat ensures a == i { SameRecord(v, a, i); }
      forall b | 0 <= b < |n| && n[b].cat == x.cat ensures b == j { SameRecord(n, b, j); }
      assert v[i].cat in Cats(v) && n[j].cat in Cats(n);
    } else if FromOld(v, n, x) {
      var i :| 0 <= i < |v| && v[i] == x;
      assert v[i].cat in Cats(v);
      forall a | 0 <= a < |v| && v[a].cat == x.cat ensures a == i { SameRecord(v, a, i); }
      forall b | 0 <= b < |n| ensures n[b].cat in Cats(n) {}
    } else {
      var j :| 0 <= j < |n| && x == NewEntry(v, n[j], option, jour);
      NewEntryCat(v, n[j], option, jour);
      NewEntryAdmitted(v, n[j], option, jour);
      forall b | 0 <= b < |n| && n[b].cat == x.cat ensures b == j { SameRecord(n, b, j); }
      forall a | 0 <= a < |v| ensures v[a].cat in Cats(v) {}
    }
  }

  /** So is every entry of the merge of two ascending lists. */
  lemma MergedFields(v: seq<Sat>, n: seq<Sat>, option: char, jour: int)
    requires Ascending(v) && Ascending(n) && option in {'F', 'S', 'U'}
    ensures forall x :: x in Merged(v, n, option, jour) ==> ByFields(v, n, option, jour, x)
  {
    hide Ascending, Merged, ByFields, Explained;
    forall x | x in Merged(v, n, option, jour) ensures ByFields(v, n, option, jour, x) {
      EntryExplained(v, n, option, jour, x);
      ExplainedFields(v, n, option, jour, x);
    }
  }

  lemma InCats(s: seq<Sat>, y: Sat)
    requires y in s
    ensures y.cat in Cats(s)
  {
    var i :| 0 <= i < |s| && s[i] == y;
  }

  /** The whole update: against an old list with ascending numbers the result is strictly
      ascending and holds exactly the satellites its mode asks for; each entry has its fields
      from the right record and is as new as any record read; and `nsat` of the entries were not in the old list as
      they are now. */
  method Update(vieux: array<Sat>, n: nat, nouveaux: array<Sat>, m: nat, tampon: array<Sat>, option: char, jour: int)
      returns (k: nat, nsat: nat, ghost young: seq<Sat>)
    requires n <= vieux.Length && m <= nouveaux.Length && n + m <= tampon.Length && n + m <= nouveaux.Length
    requires vieux != nouveaux && vieux != tampon && nouveaux != tampon && option in {'F', 'S', 'U'}
    requires Ascending(vieux[..n]) && forall i :: 0 <= i < m ==> !nouveaux[i].marked
    modifies nouveaux, tampon
    ensures k <= n + m && Ascending(nouveaux[..k])
    ensures Cats(nouveaux[..k]) == Wanted(vieux[..n], old(nouveaux[..m]), option)
    ensures nsat == Foreign(nouveaux[..k], vieux[..n])
    ensures Prepared(old(nouveaux[..m]), young)
    ensures forall x :: x in nouveaux[..k] ==> ByFields(vieux[..n], young, option, jour, x)
                                               && Latest(x, vieux[..n]) && Latest(x, old(nouveaux[..m]))
  {
    ghost var raw := nouveaux[..m];
    hide Newer, Pick, Merged, Taken, Explained, ByFields;
    var j := Prepare(nouveaux, m, tampon);
    ghost var v := vieux[..n];
    young := nouveaux[..j];
    k, nsat := Misajour(vieux, n, nouveaux, j, tampon, option, jour);
    MergedAscending(v, young, option, jour);
    MergedCats(v, young, option, jour);
    TakenCounts(v, young, 0, 0, option, jour);
    MergedFields(v, young, option, jour);
    assert v[0..] == v && young[0..] == young;
    forall x | x in nouveaux[..k] ensures ByFields(v, young, option, jour, x) && Latest(x, v) && Latest(x, raw) {
      EntryExplained(v, young, option, jour, x);
      ExplainedLatest(v, raw, young, option, jour, x);
    }
  }
}
