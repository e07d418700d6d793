/** The adaptive Huffman coder on its arrays. */
module Huffman {
  import opened Sequences
  import opened Words
  import opened HuffmanTables
  import opened HuffmanRebuild
  import opened HuffmanCode
  import opened BitIO
  import opened PositionCode

  /** Collecting one more bit, on its way up. */
  lemma CodeWordPush(p: seq<bool>, m: nat)
    requires m < |p|
    ensures var i := Shr(CodeWord(p[m + 1..]), 1);
            CodeWord(p[m..]) == if p[m] then [true] + i[1..] else i
  {
    var q, i := p[m + 1..], Shr(CodeWord(p[m + 1..]), 1);
    assert p[m..] == [p[m]] + q;
    assert ([p[m]] + q + Zeros(16))[..16] == [p[m]] + (q + Zeros(16))[..15];
    assert i[1..] == (q + Zeros(16))[..15];
  }

  lemma SonBelow(t: Tables, c: nat, son: nat)
    requires Valid(t) && c + 1 < T && (son == c || son == c + 1)
    ensures var d := t.fils[son]; d < T + N_CHAR && (d < T ==> d < c && d + 1 < T)
  {
    assert LinkedDown(t, son);
  }

  lemma DecodeStarts(t: HuffTree, bits: seq<bool>, n: nat)
    ensures var d := t.fils[R];
            d < T && d + 1 < T && DecodeSymbol(t, bits, n) == Descend(t, d, bits, n)
  {
    RootIsInternal(t);
    assert LinkedDown(t, R);
  }

  lemma DescendStep(t: HuffTree, c: nat, bits: seq<bool>, n: nat)
    requires c + 1 < T
    ensures var d := t.fils[if BitAt(bits, n) then c + 1 else c];
            && d < T + N_CHAR && (d < T ==> d < c && d + 1 < T)
            && Descend(t, c, bits, n) == Descend(t, d, bits, n + 1)
  {
    SonBelow(t, c, if BitAt(bits, n) then c + 1 else c);
  }

  lemma DescendEnds(t: HuffTree, c: nat, bits: seq<bool>, n: nat)
    requires T <= c < T + N_CHAR
    ensures Descend(t, c, bits, n) == (c - T, n)
  {}

  class Coder {
    const freq: array<nat>
    const prnt: array<nat>
    const fils: array<nat>

    ghost predicate Sized() {
      && freq.Length == T + 1 && prnt.Length == T + N_CHAR && fils.Length == T
      && freq != prnt && freq != fils && prnt != fils
    }

    ghost function Model(): Tables
      reads freq, prnt, fils
    {
      Tables(freq[..], fils[..], prnt[..])
    }

    constructor ()
      ensures Sized() && fresh(freq) && fresh(prnt) && fresh(fils)
    {
      freq := new nat[T + 1];
      prnt := new nat[T + N_CHAR];
      fils := new nat[T];
    }

    /** The two loops of `StartHuff`; `want` holds the weights they are to make. */
    method StartNodes(ghost want: seq<nat>)
      requires Sized() && |want| == T
      requires forall m :: 0 <= m < N_CHAR ==> want[m] == 1
      requires forall m :: N_CHAR <= m < T ==>
        want[m] == want[StartSon(m)] + want[StartSon(m) + 1]
      modifies freq, prnt, fils
      ensures forall m :: 0 <= m < T ==> freq[m] == want[m]
      ensures forall m :: 0 <= m < T ==> fils[m] == StartSon(m)
      ensures forall m :: 0 <= m < R ==> prnt[m] == StartParent(m)
      ensures forall x :: T <= x < T + N_CHAR ==> prnt[x] == StartParent(x)
    {
      for i := 0 to N_CHAR
        invariant forall m :: 0 <= m < i ==> freq[m] == 1
        invariant forall m :: 0 <= m < i ==> fils[m] == m + T
        invariant forall x :: T <= x < T + i ==> prnt[x] == x - T
      {
        freq[i] := 1;
        fils[i] := i + T;
        prnt[i + T] := i;
      }
      var i, j := 0, N_CHAR;
      while j <= R
        invariant N_CHAR <= j <= T && i == 2 * (j - N_CHAR)
        invariant forall m :: 0 <= m < j ==> freq[m] == want[m]
        invariant forall m :: 0 <= m < j ==> fils[m] == StartSon(m)
        invariant forall m :: 0 <= m < i ==> prnt[m] == StartParent(m)
        invariant forall x :: T <= x < T + N_CHAR ==> prnt[x] == StartParent(x)
      {
        assert StartSon(j) == i;
        freq[j] := freq[i] + freq[i + 1];
        fils[j] := i;
        prnt[i], prnt[i + 1] := j, j;
        i := i + 2;
        j := j + 1;
      }
    }

    /** The tree before any symbol has been counted. */
    method StartHuff()
      requires Sized()
      modifies freq, prnt, fils
      ensures Model() == StartTables()
    {
      ghost var want := seq(T, m requires 0 <= m < T => StartFreq(m));
      StartNodes(want);
      freq[T] := SENTINEL;
      prnt[R] := 0;
      StartTablesAre(freq[..], fils[..], prnt[..]);
    }

    /** Exchange the subtrees of nodes `c` and `l`; `l` takes the raised weight `k`. */
    method Exchange(c: nat, l: nat, k: nat)
      requires Sized() && c < l < T
      requires fils[c] < T + N_CHAR && fils[l] < T + N_CHAR && fils[c] != T - 1 && fils[l] != T - 1
      modifies freq, prnt, fils
      ensures freq[..] == old(freq[..])[c := old(freq[l])][l := k]
      ensures fils[..] == old(fils[..])[l := old(fils[c])][c := old(fils[l])]
      ensures prnt[..] == Adopt(Adopt(old(prnt[..]), old(fils[c]), l), old(fils[l]), c)
    {
      freq[c] := freq[l];
      freq[l] := k;
      var i := fils[c];
      prnt[i] := l;
      if i < T { prnt[i + 1] := l; }
      var j := fils[l];
      fils[l] := i;
      prnt[j] := c;
      if j < T { prnt[j + 1] := c; }
      fils[c] := j;
    }

    /** One turn of the loop of `update`. */
    method Raise(c: nat) returns (l: nat)
      requires Sized() && Mid(Model(), c)
      modifies freq, prnt, fils
      ensures Model() == Bump(old(Model()), c) && l == Target(old(Model()), c)
    {
      hide Scan, SumAt;
      ghost var t := Model();
      RootIsMax(t, c);
      freq[c] := freq[c] + 1;
      var k := Short(freq[c]);
      l := c + 1;
      if k > freq[l] {
        l := l + 1;
        while k > freq[l]
          invariant c + 2 <= l <= T
          invariant freq[..] == t.freq[c := t.freq[c] + 1]
          invariant Scan(t.freq, l - 1, k) == Scan(t.freq, c + 1, k)
          decreases T - l
        {
          l := l + 1;
        }
        l := l - 1;
        assert LinkedDown(t, c) && LinkedDown(t, l);
        Exchange(c, l, k);
        assert freq[..] == t.freq[c := t.freq[l]][l := k];
      } else {
        l := c;
      }
    }

    /** The insertion step of `reconst`: node `j` moves down to its place `k`. */
    method Slide(j: nat, k: nat, f: nat, i: nat)
      requires Sized() && k <= j < T
      modifies freq, fils
      ensures freq[..j + 1] == Insert(old(freq[..j]), k, f)
      ensures fils[..j + 1] == Insert(old(fils[..j]), k, i)
      ensures freq[T] == old(freq[T])
    {
      forall m | k < m <= j { freq[m] := freq[m - 1]; }
      freq[k] := f;
      forall m | k < m <= j { fils[m] := fils[m - 1]; }
      fils[k] := i;
    }

    /** The first loop of `reconst`: leaves move to the front, their weights halved. */
    method CollectLeaves(ghost leaves: seq<nat>)
      requires Sized() && leaves == LeavesUpTo(fils[..], T)
      modifies freq, fils
      ensures |leaves| <= T && freq[T] == old(freq[T])
      ensures forall p :: 0 <= p < |leaves| ==> freq[p] == Halve(old(freq[leaves[p]]))
      ensures forall p :: 0 <= p < |leaves| ==> fils[p] == old(fils[leaves[p]])
    {
      ghost var f, s := freq[..], fils[..];
      var j := 0;
      for i := 0 to T
        invariant j <= i && j <= |leaves| && LeavesUpTo(s, i) == leaves[..j]
        invariant Gathering(f, s, leaves, i, j)
      {
        LeavesPrefix(s, i + 1, T);
        assert LeavesUpTo(s, i + 1) == if s[i] >= T then leaves[..j] + [i] else leaves[..j];
        j := CollectLeaf(i, j, f, s, leaves);
      }
    }

    /** The first `j` leaves are in front; from `i` on nothing has changed. */
    ghost predicate Gathering(f: seq<nat>, s: seq<nat>, leaves: seq<nat>, i: nat, j: nat)
      reads freq, fils
    {
      && Sized() && j <= i <= T && j <= |leaves| && |f| == T + 1 && |s| == T
      && (forall p :: 0 <= p < |leaves| ==> leaves[p] < T)
      && (forall p :: 0 <= p < j ==> freq[p] == Halve(f[leaves[p]]))
      && (forall p :: 0 <= p < j ==> fils[p] == s[leaves[p]])
      && (forall m :: i <= m <= T ==> freq[m] == f[m])
      && (forall m :: i <= m < T ==> fils[m] == s[m])
    }

    method CollectLeaf(i: nat, j: nat, ghost f: seq<nat>, ghost s: seq<nat>, ghost leaves: seq<nat>) returns (k: nat)
      requires i < T && Gathering(f, s, leaves, i, j) && (s[i] >= T ==> j < |leaves| && leaves[j] == i)
      modifies freq, fils
      ensures k == (if s[i] >= T then j + 1 else j) && Gathering(f, s, leaves, i + 1, k)
    {
      k := j;
      if fils[i] >= T {
        freq[j] := (freq[i] + 1) / 2;
        fils[j] := fils[i];
        k := j + 1;
      }
    }

    ghost function Built(j: nat): Partial
      requires Sized() && j <= T
      reads freq, fils
    {
      Partial(freq[..j], fils[..j])
    }

    /** The search for a node's place, down from the end of the built part. */
    method FindPlace(j: nat, f: nat) returns (k: nat)
      requires Sized() && j < T && Place(freq[..j], f, j - 1) >= 1
      ensures k == Place(freq[..j], f, j - 1)
    {
      var m: int := j - 1;
      while f < freq[m]
        invariant 0 <= m < j && Place(freq[..j], f, m) == Place(freq[..j], f, j - 1)
        decreases m
      {
        m := m - 1;
      }
      k := m + 1;
    }

    /** One turn of the second loop of `reconst`: join the pair at `i` into node `j`. */
    method JoinPair(i: nat, j: nat)
      requires Sized() && N_CHAR <= j < T && i == NextPair(j)
      requires i + 2 <= JoinPlace(Built(j)) <= j
      modifies freq, fils
      ensures Built(j + 1) == Join(old(Built(j))) && freq[T] == old(freq[T])
    {
      hide NextPair, Insert, Place;
      ghost var b := Built(j);
      var f := freq[i] + freq[i + 1];
      freq[j] := f;
      assert freq[..j] == b.freq;
      var k := FindPlace(j, f);
      Slide(j, k, f, i);
    }

    method JoinPairs(ghost t: Tables)
      requires Sized() && Building(t, Built(N_CHAR))
      modifies freq, fils
      ensures Built(T) == JoinAll(old(Built(N_CHAR))) && freq[T] == old(freq[T])
    {
      ghost var goal := JoinAll(Built(N_CHAR));
      var i, j := 0, N_CHAR;
      while j < T
        invariant N_CHAR <= j <= T && i == NextPair(j)
        invariant Building(t, Built(j)) && JoinAll(Built(j)) == goal
        invariant freq[T] == old(freq[T])
      {
        JoinBuilds(t, Built(j));
        PlaceBehindPair(t, Built(j));
        JoinPair(i, j);
        i, j := i + 2, j + 1;
      }
    }

    /** The last loop of `reconst`. */
    method ConnectParents()
      requires Sized() && Pairs(fils[..])
      modifies prnt
      ensures prnt[..] == Connect(old(prnt[..]), fils[..], 0)
    {
      ghost var goal := Connect(prnt[..], fils[..], 0);
      for i := 0 to T
        invariant Connect(prnt[..], fils[..], i) == goal
      {
        var k := fils[i];
        assert fils[..][i] == k;
        ghost var p := prnt[..];
        if k >= T {
          prnt[k] := i;
        } else {
          prnt[k], prnt[k + 1] := i, i;
        }
        assert prnt[..] == Adopt(p, k, i);
      }
    }

    method Reconst()
      requires Sized() && Valid(Model())
      modifies freq, prnt, fils
      ensures Model() == Rebuilt(old(Model()))
    {
      hide Valid, JoinAll;
      ghost var t := Model();
      BuiltPairs(t);
      CollectedBuilds(t);
      CollectLeaves(LeavesUpTo(fils[..], T));
      assert Built(N_CHAR) == Collected(t);
      JoinPairs(t);
      assert fils[..] == Built(T).fils && freq[..] == Built(T).freq + [freq[T]];
      ConnectParents();
    }

    /** The loop of `update`. */
    method ClimbUp(leaf: nat)
      requires Sized() && Mid(Model(), leaf)
      modifies freq, prnt, fils
      ensures Model() == Climb(old(Model()), leaf)
    {
      ghost var u := Model();
      ghost var goal := Climb(u, leaf);
      var c := leaf;
      var done := false;
      while !done
        invariant Model() == u
        invariant if done then u == goal else Mid(u, c) && Climb(u, c) == goal
        decreases !done, if done then 0 else T - c
      {
        ClimbUnfolds(u, c);
        c := Raise(c);
        u := Model();
        c := prnt[c];
        done := c == 0;
      }
    }

    /** Count one more occurrence of a symbol. */
    method Update(s: nat)
      requires Sized() && Valid(Model()) && s < N_CHAR
      modifies freq, prnt, fils
      ensures Model() == Updated(old(Model()), s)
    {
      RebuiltIfFull(Model(), s);
      if freq[R] == MAX_FREQ {
        Reconst();
      }
      ClimbUp(prnt[s + T]);
    }

    /** The climb of `EncodeChar`: the path from a symbol's leaf up to the root, collected
        in a 16-bit word, latest bit on top. */
    method CollectCode(s: nat) returns (j: nat, i: Register)
      requires Sized() && Valid(Model()) && s < N_CHAR
      ensures j == |CodeOf(Model(), s)| && i == CodeWord(CodeOf(Model(), s))
    {
      ghost var t := Model();
      ghost var p := CodeOf(t, s);
      assert LeafLinked(t, T + s);
      RootIsInternal(t);
      i := Zeros(16);
      j := 0;
      var k := prnt[s + T];
      while k != R
        invariant k < T && j == |p| - |Path(t, k)| && p[..|p| - j] == Path(t, k)
        invariant i == CodeWord(p[|p| - j..])
        decreases T - k
      {
        assert LinkedUp(t, k);
        ghost var m := |p| - j - 1;
        assert p[m] == Path(t, k)[m] == (k % 2 == 1);
        assert p[..m] == Path(t, k)[..m];
        CodeWordPush(p, m);
        i := Shr(i, 1);
        if k % 2 == 1 {
          i := [true] + i[1..];
        }
        j := j + 1;
        k := prnt[k];
      }
      assert p[0..] == p;
    }

    /** Code a symbol and count it. */
    method EncodeChar(s: nat, sink: BitSink)
      requires Sized() && Valid(Model()) && s < N_CHAR && sink.Valid()
      modifies freq, prnt, fils, sink, sink.file
      ensures Model() == Updated(old(Model()), s) && sink.Valid()
      ensures var p := CodeOf(old(Model()), s);
              && sink.putlen == Left(old(sink.putlen), |p|)
              && (old(sink.Pending(16)) && old(sink.putlen) + |p| <= 32 ==>
                    sink.Pending(16) && sink.Written() == old(sink.Written()) + Code(CodeWord(p), |p|))
              && (old(sink.Pending(7)) && |p| <= 16 ==>
                    sink.Pending(7) && sink.Written() == old(sink.Written()) + p)
    {
      CodeLength(Model(), s);
      CodeWordExact(CodeOf(Model(), s));
      var j, i := CollectCode(s);
      sink.Putcode(j, i);
      Update(s);
    }

    /** One level of the descent of `DecodeChar`: a bit picks one of the sons at `c`. */
    method StepDown(c: nat, source: BitSource) returns (d: nat)
      requires Sized() && source.Valid() && c + 1 < T
      modifies source, source.file
      ensures source.Valid() && 8 <= source.getlen <= 15 && source.consumed == old(source.consumed) + 1
      ensures var son := if BitAt(source.bits, old(source.consumed)) then c + 1 else c;
              d == fils[son]
    {
      var bit := source.GetBit();
      d := if bit then fils[c + 1] else fils[c];
    }

    /** The descent of `DecodeChar`. */
    method ReadLeaf(source: BitSource) returns (s: nat)
      requires Sized() && Valid(Model()) && source.Valid()
      modifies source, source.file
      ensures source.Valid() && 8 <= source.getlen <= 15
      ensures (s, source.consumed) == DecodeSymbol(Model(), source.bits, old(source.consumed))
    {
      ghost var t := Model();
      ghost var bits := source.bits;
      DecodeStarts(t, bits, source.consumed);
      hide Valid, Descend, DecodeSymbol, BitAt;
      var c: nat := fils[R];
      ghost var goal := Descend(t, c, bits, source.consumed);
      while c < T
        invariant source.Valid()
        invariant c < T + N_CHAR && (c < T ==> c + 1 < T)
        invariant c >= T ==> 8 <= source.getlen <= 15
        invariant Descend(t, c, bits, source.consumed) == goal
        decreases if c < T then c + 1 else 0
      {
        DescendStep(t, c, bits, source.consumed);
        c := StepDown(c, source);
      }
      DescendEnds(t, c, bits, source.consumed);
      s := c - T;
    }

    /** Read a symbol and count it. */
    method DecodeChar(source: BitSource) returns (s: nat)
      requires Sized() && Valid(Model()) && source.Valid()
      modifies freq, prnt, fils, source, source.file
      ensures source.Valid() && 8 <= source.getlen <= 15 && s < N_CHAR
      ensures (s, source.consumed) == DecodeSymbol(old(Model()), source.bits, old(source.consumed))
      ensures Model() == Updated(old(Model()), s)
    {
      s := ReadLeaf(source);
      Update(s);
    }
  }

  method PutUpper(i: nat, sink: BitSink)
    requires i < 64 && sink.Valid()
    modifies sink, sink.file
    ensures sink.Valid()
    ensures sink.putlen == Left(old(sink.putlen), PLen(i))
    ensures old(sink.Pending(16)) ==> sink.Pending(16) && sink.Written() == old(sink.Written()) + UpperBits(i)
  {
    var upper: Register := NumBits(PCode(i), 8) + Zeros(8);
    CodeWordTop(i);
    assert Code(upper, PLen(i)) == UpperBits(i);
    sink.Putcode(PLen(i), upper);
  }

  method PutLower(y: nat, sink: BitSink)
    requires y < 64 && sink.Valid()
    modifies sink, sink.file
    ensures sink.Valid()
    ensures sink.putlen == Left(old(sink.putlen), 6)
    ensures old(sink.Pending(16)) ==> sink.Pending(16) && sink.Written() == old(sink.Written()) + NumBits(y, 6)
  {
    var lower: Register := NumBits(y, 6) + Zeros(10);
    assert Code(lower, 6) == NumBits(y, 6);
    sink.Putcode(6, lower);
  }

  /** Upper six bits by table, lower six bits verbatim. */
  method EncodePosition(c: nat, sink: BitSink)
    requires c < 4096 && sink.Valid()
    modifies sink, sink.file
    ensures sink.Valid()
    ensures sink.putlen == Left(Left(old(sink.putlen), PLen(c / 64)), 6)
    ensures old(sink.Pending(16)) ==> sink.Pending(16) && sink.Written() == old(sink.Written()) + PositionBits(c)
  {
    ghost var w := if sink.Pending(16) then sink.Written() else [];
    PutUpper(c / 64, sink);
    PutLower(c % 64, sink);
    Assoc(w, UpperBits(c / 64), NumBits(c % 64, 6));
  }

  /** `j` more bits behind the number `i`. */
  method ReadMore(i: nat, j: nat, source: BitSource, ghost m: nat) returns (r: nat)
    requires source.Valid() && m <= source.consumed && j >= 1
    requires i == NumAt(source.bits, source.consumed - m, m)
    modifies source, source.file
    ensures source.Valid() && 8 <= source.getlen <= 15 && source.consumed == old(source.consumed) + j
    ensures r == NumAt(source.bits, old(source.consumed) - m, m + j)
  {
    hide BitAt;
    ghost var n := source.consumed;
    ghost var bits := source.bits;
    r := i;
    var left := j;
    while left > 0
      invariant source.Valid() && left <= j && source.consumed == n + (j - left)
      invariant r == NumAt(bits, n - m, m + (j - left))
      invariant left < j ==> 8 <= source.getlen <= 15
    {
      var bit := source.GetBit();
      r := 2 * r + (if bit then 1 else 0);
      left := left - 1;
    }
  }

  method DecodePosition(source: BitSource) returns (c: nat)
    requires source.Valid()
    modifies source, source.file
    ensures source.Valid() && 8 <= source.getlen <= 15
    ensures (c, source.consumed) == PositionCode.DecodePosition(source.bits, old(source.consumed))
  {
    hide NumAt;
    ghost var n := source.consumed;
    var b := source.GetByte();
    FirstEight(source.bits, n, b);
    var i := NumOf(b);
    c := DCode(i) * 64;
    i := ReadMore(i, DLen(i) - 2, source, 8);
    c := c + i % 64;
  }

  lemma FirstEight(bits: seq<bool>, n: nat, b: Byte)
    requires forall i :: 0 <= i < 8 ==> b[i] == BitAt(bits, n + i)
    ensures NumOf(b) == NumAt(bits, n, 8) < 256
  {
    FirstBits(bits, n, b, 8);
    assert b[..8] == b;
    NumOfBound(b);
    PowersOfTwo();
  }

  lemma {:induction false} FirstBits(bits: seq<bool>, n: nat, b: Byte, k: nat)
    requires k <= 8 && forall i :: 0 <= i < 8 ==> b[i] == BitAt(bits, n + i)
    ensures NumOf(b[..k]) == NumAt(bits, n, k)
  {
    if k == 0 {
    } else {
      FirstBits(bits, n, b, k - 1);
      assert b[..k][..k - 1] == b[..k - 1];
    }
  }
}
