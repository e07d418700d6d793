/** The window of `Encode`: buffer, trees and lookahead moving along the text. */
module SlidingWindow {
  import opened Bytes
  import opened SearchTree
  import opened Forest
  import opened MatchFinder
  import opened Lzss
  import opened Stream
  import opened WindowModel
  import opened Newlines

  /** The buffer and the trees stand at index `at` of the line, with lookahead up to `end`. */
  ghost predicate InStep(text: Text, k: Links, w: seq<byte>, at: nat, end: nat) {
    && Sized(k) && START <= at < end <= |w| && end <= at + F && (end == at + F || end == |w|)
    && Holds(text, w, at - START, end)
    && Recent(k, at, START) && Covered(text, k, at, START, at)
  }

  /** The reported match is the one for position `at`, among what was registered in `k`. */
  ghost predicate Reported(text: Text, k: Links, w: seq<byte>, at: nat, ml: nat, mp: nat) {
    && Sized(k) && START <= at
    && Recent(k, at, START) && Covered(text, k, at, START, at - 1) && !Registered(k, at % N)
    && BestLive(text, k, at % N, ml, mp)
  }

  /** Arrays ready for inserting position `at`. */
  ghost predicate Ready(text: Text, k: Links, w: seq<byte>, at: nat, end: nat) {
    && Sized(k) && START <= at < end <= |w| && end <= at + F && (end == at + F || end == |w|)
    && Holds(text, w, at - START, end)
    && Recent(k, at, START) && Covered(text, k, at, START, at - 1) && !Registered(k, at % N)
  }

  lemma Inserted(text: Text, k: Links, m: Links, w: seq<byte>, at: nat, end: nat)
    requires Ready(text, k, w, at, end) && Sized(m)
    requires forall n: Pos :: Registered(m, n) <==>
      n == at % N || (Registered(k, n) && Lcp(text, at % N, n) < F)
    ensures InStep(text, m, w, at, end)
  {
    InsertCovers(text, k, m, at);
  }

  /** The token for the reported match is right, and the longest. */
  lemma TokenRight(text: Text, k: Links, m: Links, w: seq<byte>, at: nat, end: nat, ml: nat, mp: nat)
    requires InStep(text, m, w, at, end) && Reported(text, k, w, at, ml, mp)
    ensures var t := TokenFor(w, at, end - at, ml, mp);
            Describes(w, at, t) && Longest(w, at, t) && Width(t) <= end - at
  {
    TokenDescribes(text, k, w, at, end, ml, mp);
    TokenLongest(text, k, w, at, end, ml, mp);
  }

  /** The oldest position has been forgotten; its slot may be overwritten. */
  ghost predicate Dropped(text: Text, k: Links, w: seq<byte>, at: nat, end: nat) {
    && Sized(k) && START <= at && end <= |w|
    && Holds(text, w, at - START + 1, end)
    && Recent(k, at, START - 1) && Covered(text, k, at, START - 1, at)
  }

  lemma Moved(text: Text, k: Links, w: seq<byte>, at: nat, end: nat)
    requires Dropped(text, k, w, at, end) && at + 1 < end <= at + 1 + F && (end == at + 1 + F || end == |w|)
    ensures Ready(text, k, w, at + 1, end)
  {
    MoveOn(text, k, at);
  }

  lemma NextSlot(x: nat)
    ensures (x % N + 1) % N == (x + 1) % N
  {}

  /** Only blank positions from `lo` up to the text are registered. */
  ghost predicate OnlyBlanks(k: Links, lo: nat)
    requires Sized(k)
  {
    forall p: Pos :: Registered(k, p) ==> lo <= p < START
  }

  /** Position `x`, or one with the same key, is registered. */
  ghost predicate Represented(text: Text, k: Links, x: Pos)
    requires Sized(k)
  {
    exists q: Pos :: Registered(k, q) && Lcp(text, x, q) == F
  }

  /** So are all blank positions from `lo` up to the text. */
  ghost predicate BlanksKnown(text: Text, k: Links, lo: nat)
    requires Sized(k)
  {
    forall x: nat :: lo <= x < START ==> Represented(text, k, x)
  }

  /** Inserting one more keeps all represented, itself included. */
  lemma OneMoreKnown(text: Text, k: Links, m: Links, r: Pos)
    requires Sized(k) && Sized(m) && r < START && BlanksKnown(text, k, r + 1)
    requires forall n: Pos :: Registered(m, n) <==> n == r || (Registered(k, n) && Lcp(text, r, n) < F)
    ensures BlanksKnown(text, m, r)
  {
    forall x: nat | r <= x < START ensures Represented(text, m, x) {
      if x == r {
        LcpIs(text, r, r, F);
        assert Registered(m, r);
      } else {
        assert Represented(text, k, x);
        var q: Pos :| Registered(k, q) && Lcp(text, x, q) == F;
        if Lcp(text, r, q) < F {
          assert Registered(m, q);
        } else {
          LcpSymmetric(text, r, q);
          LcpSymmetric(text, x, q);
          SameKeyLcp(text, q, x, r);
          assert Registered(m, r);
        }
      }
    }
  }

  lemma SameSlot(p: nat)
    requires p < N
    ensures START % N == START && p % N == p
  {}

  /** The first token is at least as long as any repetition of the blanks in front of the text. */
  lemma FirstLongest(text: Text, k: Links, w: seq<byte>, e: nat, ml: nat, mp: nat, p: nat, len: nat)
    requires Sized(k) && START < e <= |w| && e <= START + F && (e == START + F || e == |w|) && Holds(text, w, 0, e)
    requires BlanksKnown(text, k, START - F) && BestLive(text, k, START, ml, mp)
    requires START - F <= p < START && len <= F && Repeats(w, p, START, len)
    ensures len <= THRESHOLD || len <= Width(TokenFor(w, START, e - START, ml, mp))
  {
    hide Holds, Lcp, Registered;
    if len > THRESHOLD {
      RepeatsAgree(text, w, START, e, p, len);
      SameSlot(p);
      assert Represented(text, k, p);
      var q: Pos :| Registered(k, q) && Lcp(text, p, q) == F;
      TwinLcp(text, START, p, q);
    }
  }

  lemma BlanksReady(text: Text, k: Links, w: seq<byte>, end: nat)
    requires Sized(k) && OnlyBlanks(k, START - F) && Holds(text, w, 0, end)
    requires START < end <= |w| && end <= START + F && (end == START + F || end == |w|)
    ensures Ready(text, k, w, START, end)
  {
    assert START % N == START;
    forall p: Pos | Registered(k, p) ensures At(START, p) == p { AtUnique(START, p, p); }
  }

  lemma FirstHolds(text: Text, w: seq<byte>, end: nat)
    requires end <= N && end <= |w| && forall x :: 0 <= x < end ==> text[x] == w[x]
    ensures Holds(text, w, 0, end)
  {}

  lemma LineStarts(text: seq<byte>)
    ensures START == 1988 && forall x :: 0 <= x < START ==> Line(text)[x] == 32
  {}

  lemma RestOfLine(text: seq<byte>, n: nat)
    requires n <= |text|
    ensures Line(text)[START + n..] == text[n..]
  {}

  class Window {
    const finder: Finder
    var r: Pos
    var s: Pos
    var len: nat
    ghost var w: seq<byte>     // the whole line
    ghost var at: nat          // where position `r` is on it
    ghost var end: nat         // how much of it has been taken
    ghost var before: Links    // the trees `r` was searched in

    ghost predicate Placed()
      reads this
    {
      r == at % N && s == (at + F) % N && len + at == end
    }

    ghost predicate Valid()
      reads this, finder`forest, finder`match_length, finder`match_position,
            finder.text_buf, finder.lson, finder.rson, finder.dad
    {
      && finder.Valid() && Placed()
      && InStep(finder.Window(), finder.K(), w, at, end)
      && Reported(finder.Window(), before, w, at, finder.match_length, finder.match_position)
    }

    constructor ()
      ensures finder.Arrays() && fresh(finder) && fresh(finder.text_buf)
      ensures fresh(finder.lson) && fresh(finder.rson) && fresh(finder.dad)
    {
      finder := new Finder();
      r, s, len := START, 0, 0;
      w, at, end := [], START, START;
      before := Links([], [], []);
    }

    /** Insert the current position and note what it was searched in. */
    method InsertHere()
      requires finder.Valid() && Placed() && Ready(finder.Window(), finder.K(), w, at, end)
      modifies this`before, finder`forest, finder`match_length, finder`match_position,
               finder.lson, finder.rson, finder.dad
      ensures Valid() && before == old(finder.K())
    {
      hide ForestOk, Holds, Registered, Sized, Recent, Nearest, Visited;
      before := finder.K();
      finder.InsertNode(r);
      Inserted(finder.Window(), before, finder.K(), w, at, end);
    }

    /** `DeleteNode(s)`. */
    method Forget()
      requires Valid()
      modifies finder`forest, finder.lson, finder.rson, finder.dad
      ensures finder.Valid() && Dropped(finder.Window(), finder.K(), w, at, end)
      ensures Holds(finder.Window(), w, at - START, end)
    {
      hide Lcp;
      ghost var k := finder.K();
      finder.DeleteNode(s);
      DropOldest(finder.Window(), k, finder.K(), at);
    }

    /** Store the next byte over the oldest one, and in the copy if the slot has one. */
    method Store(c: byte)
      requires finder.Valid() && Placed() && Dropped(finder.Window(), finder.K(), w, at, end)
      requires end == at + F < |w| && c == w[end] && Holds(finder.Window(), w, at - START, end)
      modifies finder.text_buf
      ensures finder.Valid() && Dropped(finder.Window(), finder.K(), w, at, end + 1)
    {
      ghost var text := finder.Window();
      StoreKeeps(finder.forest, finder.K(), text, at, c);
      StoreHolds(text, w, at);
      finder.text_buf[s] := c;
      if s < F - 1 {
        finder.text_buf[s + N] := c;
      }
      assert finder.Window() == Stored(text, s, c);
    }

    /** On to the next position, with lookahead up to `next`. */
    method Step(ghost next: nat)
      requires finder.Valid() && r == at % N && s == (at + F) % N && len + at + 1 == next
      requires Dropped(finder.Window(), finder.K(), w, at, next)
      requires at + 1 < next <= at + 1 + F && (next == at + 1 + F || next == |w|)
      modifies this`r, this`s, this`at, this`end, this`before
      modifies finder`forest, finder`match_length, finder`match_position
      modifies finder.lson, finder.rson, finder.dad
      ensures Valid() && at == old(at) + 1 && end == next
    {
      Moved(finder.Window(), finder.K(), w, at, next);
      NextSlot(at);
      NextSlot(at + F);
      s := (s + 1) % N;
      r := (r + 1) % N;
      at, end := at + 1, next;
      InsertHere();
    }

    lemma LookaheadFull()
      requires Valid()
      ensures end < |w| ==> end == at + F
      ensures START <= at < end <= |w| && len == end - at
    {}

    /** One byte further, with the byte `c` taken. */
    method AdvanceTaking(c: byte)
      requires Valid() && end < |w| && c == w[end]
      modifies this`r, this`s, this`at, this`end, this`before
      modifies finder`forest, finder`match_length, finder`match_position
      modifies finder.text_buf, finder.lson, finder.rson, finder.dad
      ensures Valid() && at == old(at) + 1 && end == old(end) + 1
    {
      hide InStep, Reported, Ready, Holds, Recent, Covered;
      LookaheadFull();
      Forget();
      Store(c);
      Step(end + 1);
    }

    /** One byte further, with nothing left to take. */
    method AdvanceEmpty()
      requires Valid() && end == |w|
      modifies this`r, this`s, this`at, this`end, this`len, this`before
      modifies finder`forest, finder`match_length, finder`match_position
      modifies finder.lson, finder.rson, finder.dad
      ensures at == old(at) + 1 && end == old(end) && len == old(len) - 1
      ensures if len > 0 then Valid() else finder.Valid() && at == end
    {
      hide ForestOk, Recent, Covered, Holds;
      LookaheadFull();
      Forget();
      len := len - 1;
      if len > 0 {
        Step(end);
      } else {
        s := (s + 1) % N;
        r := (r + 1) % N;
        at := at + 1;
      }
    }

    // ---------- before the first token ----------

    method FillBlank()
      requires finder.Arrays()
      modifies finder.text_buf
      ensures forall x :: 0 <= x < START ==> finder.text_buf[x] == BLANK
    {
      for i := 0 to START
        invariant forall x :: 0 <= x < i ==> finder.text_buf[x] == BLANK
      {
        finder.text_buf[i] := BLANK;
      }
    }

    /** Take the first bytes of the text into the lookahead. */
    method FillLookahead(taker: Taker, ghost text: seq<byte>) returns (n: nat)
      requires finder.Arrays() && taker.Valid() && taker.Rest() == text
      requires forall x :: 0 <= x < START ==> finder.text_buf[x] == BLANK
      modifies finder.text_buf, taker
      ensures taker.Valid() && n <= F && n <= |text| && (n == F || n == |text|) && taker.Rest() == text[n..]
      ensures forall x :: 0 <= x < START + n ==> finder.text_buf[x] == Line(text)[x]
    {
      n := 0;
      while n < F
        invariant n <= F && n <= |text| && taker.Valid() && taker.Rest() == text[n..]
        invariant forall x :: 0 <= x < START + n ==> finder.text_buf[x] == Line(text)[x]
        decreases F - n
      {
        var t := taker.Take();
        if t.Eof? {
          assert text[n..] == [];
          break;
        }
        assert text[n..][1..] == text[n + 1..];
        finder.text_buf[START + n] := t.c;
        n := n + 1;
      }
    }

    /** The blank positions in front of the text are inserted backwards. */
    method InsertBlanks()
      requires finder.Valid() && OnlyBlanks(finder.K(), START)
      modifies finder`forest, finder`match_length, finder`match_position
      modifies finder.lson, finder.rson, finder.dad
      ensures finder.Valid() && OnlyBlanks(finder.K(), START - F)
      ensures BlanksKnown(finder.Window(), finder.K(), START - F)
    {
      var i := 1;
      while i <= F
        invariant 1 <= i <= F + 1 && finder.Valid() && OnlyBlanks(finder.K(), START - i + 1)
        invariant BlanksKnown(finder.Window(), finder.K(), START - i + 1)
      {
        hide Represented, BestLive, Nearest, Visited;
        ghost var k := finder.K();
        finder.InsertNode(START - i);
        OneMoreKnown(finder.Window(), k, finder.K(), START - i);
        i := i + 1;
      }
    }

    /** The trees before the first token. */
    method StartTrees()
      requires finder.Arrays() && Placed() && at == START && Holds(finder.Window(), w, 0, end)
      requires START < end <= |w| && end <= START + F && (end == START + F || end == |w|)
      modifies this`before, finder, finder.lson, finder.rson, finder.dad
      ensures Valid() && BlanksKnown(finder.Window(), before, START - F)
    {
      finder.InitTree();
      forall p: Pos | Registered(finder.K(), p) ensures p in finder.Live() {}
      InsertBlanks();
      BlanksReady(finder.Window(), finder.K(), w, end);
      InsertHere();
    }

    /** Everything before the first token: blanks, the first bytes of the text, the trees. */
    method Start(taker: Taker)
      requires finder.Arrays() && taker.Valid() && taker.Rest() != []
      modifies this, finder, taker, finder.text_buf, finder.lson, finder.rson, finder.dad
      ensures taker.Valid() && w == Line(old(taker.Rest())) && at == START
      ensures Valid() && taker.Rest() == w[end..]
      ensures BlanksKnown(finder.Window(), before, START - F)
      ensures at == 1988 && forall x :: 0 <= x < at ==> w[x] == 32
    {
      hide InStep, Reported, Ready, Recent, Covered, ForestOk, Line, BlanksKnown;
      ghost var text := taker.Rest();
      FillBlank();
      var n := FillLookahead(taker, text);
      r, s, len := START, 0, n;
      w, at, end := Line(text), START, START + n;
      FirstHolds(finder.Window(), w, end);
      RestOfLine(text, n);
      LineStarts(text);
      StartTrees();
    }
  }
}