/** The two chunked indexes of the mailbox: stations, numbered for good in order of arrival,
    and messages, found by skipping whole blocks. */
module Indexes {
  // ---------- stations, in blocks of T_BLOC_INFO = 50 ----------

  /** A station's entry; the name is empty in a free one. */
  datatype Node = Node(indic: string, coord: nat, nbmess: int, nbnew: int, val: int)

  const FREE := Node("", 0, 0, 0, 0)

  /** Names are compared and kept in their first six characters. */
  function Key(name: string): (k: string)
    ensures |k| <= 6
  {
    if |name| > 6 then name[..6] else name
  }

  /** So two names are one station exactly if they are equally long, or both of six characters or
      more, and agree in the first six. */
  lemma SameStation(a: string, b: string)
    ensures Key(a) == Key(b) <==>
      (|a| == |b| || (|a| >= 6 && |b| >= 6)) && forall i :: 0 <= i < 6 && i < |a| && i < |b| ==> a[i] == b[i]
  {
    if Key(a) == Key(b) {
      forall i | 0 <= i < 6 && i < |a| && i < |b| ensures a[i] == b[i] { assert Key(a)[i] == Key(b)[i]; }
    }
  }

  /** The entry with number `50 * b + o` fits the list of names. */
  ghost predicate Fits(n: Node, names: seq<string>, k: nat) {
    if k < |names| then n.indic == names[k] else n.indic == ""
  }

  lemma FitsStill(n: Node, names: seq<string>, key: string, k: nat)
    requires Fits(n, names, k) && k != |names|
    ensures Fits(n, names + [key], k)
  {}

  lemma FitsHere(key: string, names: seq<string>)
    ensures Fits(Node(key, 0xffff, 0, 0, 1), if key == "" then names else names + [key], |names|)
  {}

  class StationIndex {
    var blocks: seq<array<Node>>   // the linked blocks
    ghost var names: seq<string>

    ghost predicate Blocks()
      reads this
    {
      && |blocks| > 0
      && (forall b :: 0 <= b < |blocks| ==> blocks[b].Length == 50)
      && (forall b, c :: 0 <= b < c < |blocks| ==> blocks[b] != blocks[c])
    }

    ghost predicate Valid()
      reads this, blocks
    {
      && Blocks()
      && 50 * (|blocks| - 1) <= |names| <= 50 * |blocks|
      && (forall b, o :: 0 <= b < |blocks| && 0 <= o < 50 ==> Fits(blocks[b][o], names, 50 * b + o))
      && (forall k :: 0 <= k < |names| ==> names[k] != "" && |names[k]| <= 6)
      && (forall j, k :: 0 <= j < k < |names| ==> names[j] != names[k])
    }

    /** The entry with number `k`. */
    ghost function Entry(k: nat): Node
      requires Blocks() && k < 50 * |blocks|
      reads this, blocks
    {
      blocks[k / 50][k % 50]
    }

    constructor ()
      ensures Valid() && names == []
    {
      var first := new Node[50](_ => FREE);
      blocks := [first];
      names := [];
    }

    /** `new_bloc_info` behind the last block. */
    method Extend()
      requires Valid() && |names| == 50 * |blocks|
      modifies this`blocks
      ensures Valid() && |blocks| == |old(blocks)| + 1 && old(blocks) <= blocks && fresh(blocks[|blocks| - 1])
    {
      var more := new Node[50](_ => FREE);
      blocks := blocks + [more];
    }

    /** Walk to the entry of a name, or to the first free one: its block, place and number. */
    method Walk(key: string) returns (b: nat, o: nat, num: nat, found: bool)
      requires Valid() && |key| <= 6
      modifies this`blocks
      ensures Valid() && old(blocks) <= blocks && (forall c :: |old(blocks)| <= c < |blocks| ==> fresh(blocks[c]))
      ensures b < |blocks| && o < 50 && num == 50 * b + o && num <= |names| && key !in names[..num]
      ensures found <==> key in names
      ensures if found then num < |names| && names[num] == key else num == |names|
    {
      b, o, num, found := 0, 0, 0, false;
      while true
        invariant Valid() && old(blocks) <= blocks && (forall c :: |old(blocks)| <= c < |blocks| ==> fresh(blocks[c]))
        invariant b < |blocks| && o < 50 && num == 50 * b + o && num <= |names|
        invariant key !in names[..num]
        decreases |names| - num
      {
        assert Fits(blocks[b][o], names, num);
        if blocks[b][o].indic == "" {
          assert names[..num] == names;
          return;
        }
        if blocks[b][o].indic == key {
          found := true;
          return;
        }
        assert names[..num + 1] == names[..num] + [names[num]];
        o := o + 1;
        num := num + 1;
        if o == 50 {
          if b + 1 == |blocks| {
            Extend();
          }
          b := b + 1;
          o := 0;
        }
      }
    }

    /** `insnoeud`: a name keeps the number it once got; a new one gets the next number and a
        fresh entry; no other entry changes. An empty name gets a number but no entry. */
    method InsNoeud(name: string) returns (num: nat)
      requires Valid()
      modifies this, blocks
      ensures Valid() && old(names) <= names
      ensures var key := Key(name);
              if key in old(names) then names == old(names) && num < |names| && names[num] == key
              else num == |old(names)| && names == old(names) + (if key == "" then [] else [key])
      ensures num < 50 * |blocks| && (Key(name) !in old(names) ==> Entry(num) == Node(Key(name), 0xffff, 0, 0, 1))
      ensures forall k :: 0 <= k < |old(names)| ==> Entry(k) == old(Entry(k))
    {
      var key := Key(name);
      var b, o, found;
      b, o, num, found := Walk(key);
      if !found {
        Fill(b, o, key);
      }
    }

    /** The free place behind the last entry. */
    method Fill(b: nat, o: nat, key: string)
      requires Valid() && b < |blocks| && o < 50 && 50 * b + o == |names| && |key| <= 6 && key !in names
      modifies this`names, blocks[b]
      ensures Valid() && names == old(names) + (if key == "" then [] else [key])
      ensures Entry(50 * b + o) == Node(key, 0xffff, 0, 0, 1)
      ensures forall k :: 0 <= k < 50 * |blocks| && k != 50 * b + o ==> Entry(k) == old(Entry(k))
    {
      hide Fits;
      ghost var before := names;
      blocks[b][o] := Node(key, 0xffff, 0, 0, 1);
      if key != "" {
        names := names + [key];
      }
      forall c, p | 0 <= c < |blocks| && 0 <= p < 50 ensures Fits(blocks[c][p], names, 50 * c + p) {
        if c == b && p == o {
          FitsHere(key, before);
        } else {
          assert old(Fits(blocks[c][p], before, 50 * c + p));
          FitsStill(blocks[c][p], before, key, 50 * c + p);
        }
      }
    }

    /** `cher_noeud`: found exactly if it is there, without changing anything. */
    method CherNoeud(name: string) returns (found: bool, num: nat)
      requires Valid()
      ensures found <==> Key(name) in names
      ensures found ==> num < |names| && names[num] == Key(name)
    {
      var key := Key(name);
      found, num := false, 0;
      var b, o := 0, 0;
      while b < |blocks|
        invariant b <= |blocks| && o < 50 && num == 50 * b + o && num <= |names| && key !in names[..num]
        decreases 50 * |blocks| - num
      {
        assert Fits(blocks[b][o], names, num);
        if blocks[b][o].indic == "" {
          assert names[..num] == names;
          return;
        }
        if blocks[b][o].indic == key {
          found := true;
          return;
        }
        assert names[..num + 1] == names[..num] + [names[num]];
        o := o + 1;
        num := num + 1;
        if o == 50 {
          b := b + 1;
          o := 0;
        }
      }
      assert names[..num] == names;
    }
  }

  // ---------- messages, in blocks of T_BLOC_MESS = 100 ----------

  /** The message numbers, block by block; 0 is a free place. */
  type Chunks = c: seq<seq<nat>> | |c| > 0 && forall b :: 0 <= b < |c| ==> |c[b]| == 100
    witness [seq(100, _ => 0)]

  /** Where `findmess` looks: the last block before one that begins with a greater number. */
  function BlockFor(c: Chunks, n: nat, b: nat): (r: nat)
    requires b < |c|
    ensures b <= r < |c|
    decreases |c| - b
  {
    if b + 1 < |c| && c[b + 1][0] <= n then BlockFor(c, n, b + 1) else b
  }

  /** The blocks hold the numbers one after the other, and no block is there for nothing. */
  ghost predicate Holds(c: Chunks, nums: seq<nat>) {
    && 100 * (|c| - 1) <= |nums| <= 100 * |c| && (|c| > 1 ==> 100 * (|c| - 1) < |nums|)
    && forall b, o :: 0 <= b < |c| && 0 <= o < 100 ==> c[b][o] == At(nums, 100 * b + o)
  }

  function At(nums: seq<nat>, k: nat): nat { if k < |nums| then nums[k] else 0 }

  /** The first number of block `j`. */
  function First(nums: seq<nat>, j: nat): nat
    requires 100 * j < |nums|
  {
    nums[100 * j]
  }

  /** The search for the number at place `k` stops at its block: no block up to it begins with
      a greater number, and the next one does. */
  ghost predicate Reachable(nums: seq<nat>, k: nat)
    requires k < |nums|
  {
    && (forall j :: 0 < j <= k / 100 ==> First(nums, j) <= nums[k])
    && (100 * (k / 100 + 1) < |nums| ==> First(nums, k / 100 + 1) > nums[k])
  }

  /** A block begins with a number no greater than another exactly if it begins no later. */
  ghost predicate InBlockOrder(nums: seq<nat>) {
    forall j, k :: 0 < j && 100 * j < |nums| && 0 <= k < |nums| ==> (First(nums, j) <= nums[k] <==> 100 * j <= k)
  }

  /** Message numbers are positive, and no two messages share one. */
  ghost predicate Proper(nums: seq<nat>) {
    && (forall k :: 0 <= k < |nums| ==> nums[k] > 0)
    && (forall j, k :: 0 <= j < k < |nums| ==> nums[j] != nums[k])
  }

  ghost predicate Increasing(nums: seq<nat>) {
    forall j, k :: 0 <= j < k < |nums| ==> nums[j] < nums[k]
  }

  lemma {:induction false} BlockForIs(c: Chunks, n: nat, b: nat)
    requires b < |c|
    ensures var r := BlockFor(c, n, b);
            && (forall k :: b < k <= r ==> c[k][0] <= n)
            && (r + 1 < |c| ==> c[r + 1][0] > n)
    decreases |c| - b
  {
    if b + 1 < |c| && c[b + 1][0] <= n {
      BlockForIs(c, n, b + 1);
    } else {
    }
  }

  lemma FirstOf(c: Chunks, nums: seq<nat>, b: nat)
    requires Holds(c, nums) && 0 < b < |c|
    ensures 100 * b < |nums| && c[b][0] == First(nums, b)
  {
    assert c[b][0] == At(nums, 100 * b + 0);
  }

  /** The search stops at the block of the number at place `k` exactly if that is reachable. */
  lemma StopsAtBlock(c: Chunks, nums: seq<nat>, k: nat)
    requires Holds(c, nums) && k < |nums|
    ensures k / 100 < |c| && (BlockFor(c, nums[k], 0) == k / 100 <==> Reachable(nums, k))
  {
    hide Holds;
    var b := k / 100;
    BlockCount(c, nums, k);
    BlockForIs(c, nums[k], 0);
    forall j | 0 < j < |c| ensures 100 * j < |nums| && c[j][0] == First(nums, j) { FirstOf(c, nums, j); }
    var r := BlockFor(c, nums[k], 0);
  }

  lemma BlockCount(c: Chunks, nums: seq<nat>, k: nat)
    requires Holds(c, nums) && k < |nums|
    ensures k / 100 < |c| && (100 * (k / 100 + 1) < |nums| <==> k / 100 + 1 < |c|)
  {}

  lemma InBlock(c: Chunks, nums: seq<nat>, b: nat, n: nat)
    requires Holds(c, nums) && b < |c| && n > 0
    ensures n in c[b] <==> exists k :: 100 * b <= k < 100 * b + 100 && k < |nums| && nums[k] == n
  {
    if n in c[b] {
      var o :| 0 <= o < 100 && c[b][o] == n;
      assert c[b][o] == At(nums, 100 * b + o);
      assert nums[100 * b + o] == n;
    }
    if k :| 100 * b <= k < 100 * b + 100 && k < |nums| && nums[k] == n {
      assert c[b][k - 100 * b] == At(nums, 100 * b + (k - 100 * b));
    }
  }

  /** The number at place `k` is found exactly if it is reachable. */
  lemma FoundExactly(c: Chunks, nums: seq<nat>, k: nat)
    requires Holds(c, nums) && Proper(nums) && k < |nums|
    ensures nums[k] in c[BlockFor(c, nums[k], 0)] <==> Reachable(nums, k)
  {
    hide Holds, Reachable;
    StopsAtBlock(c, nums, k);
    InBlock(c, nums, BlockFor(c, nums[k], 0), nums[k]);
  }

  /** Skipping blocks misses nothing exactly if the numbers are in the order of the blocks;
      within a block any order will do. */
  lemma SkippingFinds(c: Chunks, nums: seq<nat>)
    requires Holds(c, nums) && Proper(nums)
    ensures (forall k :: 0 <= k < |nums| ==> nums[k] in c[BlockFor(c, nums[k], 0)]) <==> InBlockOrder(nums)
  {
    forall k | 0 <= k < |nums| ensures nums[k] in c[BlockFor(c, nums[k], 0)] <==> Reachable(nums, k) {
      FoundExactly(c, nums, k);
    }
    if forall k :: 0 <= k < |nums| ==> Reachable(nums, k) {
      ReachableOrder(nums);
    }
    if InBlockOrder(nums) {
      forall k | 0 <= k < |nums| ensures Reachable(nums, k) { OrderReachable(nums, k); }
    }
  }

  lemma OrderReachable(nums: seq<nat>, k: nat)
    requires InBlockOrder(nums) && k < |nums|
    ensures Reachable(nums, k)
  {}

  lemma ReachableOrder(nums: seq<nat>)
    requires forall k :: 0 <= k < |nums| ==> Reachable(nums, k)
    ensures InBlockOrder(nums)
  {
    forall j, k | 0 < j && 100 * j < |nums| && 0 <= k < |nums|
      ensures First(nums, j) <= nums[k] <==> 100 * j <= k
    {
      assert Reachable(nums, k);
      if 100 * j > k { FirstsGrow(nums, k / 100 + 1, j); }
    }
  }

  /** Then the first numbers of the blocks increase. */
  lemma {:induction false} FirstsGrow(nums: seq<nat>, i: nat, j: nat)
    requires forall k :: 0 <= k < |nums| ==> Reachable(nums, k)
    requires i <= j && 100 * j < |nums|
    ensures First(nums, i) <= First(nums, j)
    decreases j
  {
    if i == j {
    } else {
      FirstsGrow(nums, i, j - 1);
      assert Reachable(nums, 100 * (j - 1));
    }
  }

  /** Numbers that only grow are in order. */
  lemma IncreasingOrder(nums: seq<nat>)
    requires Increasing(nums)
    ensures InBlockOrder(nums)
  {}

  /** When number 1 comes behind 2 to 101, none of these is found any more. */
  lemma OutOfOrderMissed(n: nat)
    requires 2 <= n <= 101
    ensures var nums := seq(101, k => if k < 100 then k + 2 else 1);
            var c: Chunks := [seq(100, o => o + 2), seq(100, o => if o == 0 then 1 else 0)];
            Holds(c, nums) && Proper(nums) && n in nums && n !in c[BlockFor(c, n, 0)]
  {
    var nums := seq(101, k => if k < 100 then k + 2 else 1);
    var c: Chunks := [seq(100, o => o + 2), seq(100, o => if o == 0 then 1 else 0)];
    assert nums[n - 2] == n;
    assert BlockFor(c, n, 1) == 1;
  }

  /** A message's entry: its number, where its record lies, its station's number. */
  datatype Mess = Mess(nmess: nat, noenr: nat, noIndic: nat)

  function Numbers(entries: seq<Mess>): (nums: seq<nat>)
    ensures |nums| == |entries|
  {
    seq(|entries|, k requires 0 <= k < |entries| => entries[k].nmess)
  }

  const NOTHING := Mess(0, 0, 0)

  function EntryAt(entries: seq<Mess>, k: nat): Mess { if k < |entries| then entries[k] else NOTHING }

  class MessageIndex {
    var blocks: seq<array<Mess>>
    ghost var entries: seq<Mess>

    ghost predicate Blocks()
      reads this
    {
      && |blocks| > 0
      && (forall b :: 0 <= b < |blocks| ==> blocks[b].Length == 100)
      && (forall b, c :: 0 <= b < c < |blocks| ==> blocks[b] != blocks[c])
    }

    ghost function View(): Chunks
      requires Blocks()
      reads this, blocks
    {
      seq(|blocks|, b requires 0 <= b < |blocks| reads this, blocks => Numbers(blocks[b][..]))
    }

    ghost predicate Valid()
      reads this, blocks
    {
      && Blocks()
      && 100 * (|blocks| - 1) <= |entries| <= 100 * |blocks| && (|blocks| > 1 ==> 100 * (|blocks| - 1) < |entries|)
      && (forall b, o :: 0 <= b < |blocks| && 0 <= o < 100 ==> blocks[b][o] == EntryAt(entries, 100 * b + o))
      && (forall k :: 0 <= k < |entries| ==> entries[k].nmess > 0)
    }

    lemma ViewHolds()
      requires Valid()
      ensures Holds(View(), Numbers(entries))
    {
      forall b, o | 0 <= b < |blocks| && 0 <= o < 100
        ensures View()[b][o] == At(Numbers(entries), 100 * b + o)
      {
        assert blocks[b][o] == EntryAt(entries, 100 * b + o);
      }
    }

    constructor ()
      ensures Valid() && entries == []
    {
      var first := new Mess[100](_ => NOTHING);
      blocks := [first];
      entries := [];
    }

    /** `insmess`: the message goes behind all the others. */
    method InsMess(r: nat, numInd: nat, numero: nat)
      requires Valid() && numero > 0
      modifies this, blocks
      ensures Valid() && entries == old(entries) + [Mess(numero, r, numInd)]
    {
      var temp := |blocks| - 1;
      var last := blocks[temp];
      var i := 0;
      while i < 100 && last[i].nmess != 0
        invariant i <= 100 && 100 * temp + i <= |entries|
      {
        assert last[i] == EntryAt(entries, 100 * temp + i);
        i := i + 1;
      }
      if i < 100 { assert last[i] == EntryAt(entries, 100 * temp + i); }
      if i == 100 {
        var more := new Mess[100](_ => NOTHING);
        blocks := blocks + [more];
        last := more;
        i := 0;
      }
      ghost var before := entries;
      assert |before| == 100 * (|blocks| - 1) + i;
      last[i] := Mess(numero, r, numInd);
      entries := entries + [Mess(numero, r, numInd)];
      forall b, o | 0 <= b < |blocks| && 0 <= o < 100 ensures blocks[b][o] == EntryAt(entries, 100 * b + o) {
        if b < |old(blocks)| { assert old(blocks[b][o]) == EntryAt(before, 100 * b + o); }
      }
    }

    /** What a search for a number says: of what is there it finds, with distinct numbers,
        exactly what the skipping of blocks can reach; and everything if the numbers are in the
        order of the blocks, as when they only grow. */
    ghost predicate FoundRight(found: bool, numero: nat)
      reads this
    {
      var nums := Numbers(entries);
      && (found ==> numero in nums)
      && (Proper(nums) ==> forall k :: 0 <= k < |nums| && nums[k] == numero ==> (found <==> Reachable(nums, k)))
      && (InBlockOrder(nums) || Increasing(nums) ==> (found <==> numero in nums))
    }

    /** `findmess`. */
    method FindMess(numero: nat) returns (found: bool, b: nat, o: nat)
      requires Valid()
      ensures FoundRight(found, numero)
      ensures found ==> b < |blocks| && o < 100 && 100 * b + o < |entries|
                        && blocks[b][o] == entries[100 * b + o] && entries[100 * b + o].nmess == numero
    {
      found, b, o := false, 0, 0;
      if numero == 0 {
        return;
      }
      hide FoundRight;
      Laws(numero);
      while b + 1 < |blocks| && blocks[b + 1][0].nmess <= numero
        invariant b < |blocks| && BlockFor(View(), numero, b) == BlockFor(View(), numero, 0)
      {
        assert View()[b + 1][0] == blocks[b + 1][0].nmess;
        b := b + 1;
      }
      if b + 1 < |blocks| { assert View()[b + 1][0] == blocks[b + 1][0].nmess; }
      while o < 100
        invariant o <= 100 && numero !in View()[b][..o]
      {
        if blocks[b][o].nmess == numero {
          found := true;
          assert View()[b][o] == numero;
          assert blocks[b][o] == EntryAt(entries, 100 * b + o);
          return;
        }
        assert View()[b][..o + 1] == View()[b][..o] + [View()[b][o]];
        o := o + 1;
      }
      assert View()[b][..100] == View()[b];
    }

    /** The block at which the search stops gives the right answer. */
    lemma Laws(numero: nat)
      requires Valid() && numero > 0
      ensures FoundRight(numero in View()[BlockFor(View(), numero, 0)], numero)
    {
      ViewHolds();
      hide Valid, Holds, Reachable, InBlockOrder, Increasing;
      var c, nums := View(), Numbers(entries);
      InBlock(c, nums, BlockFor(c, numero, 0), numero);
      if Proper(nums) {
        forall k | 0 <= k < |nums| && nums[k] == numero
          ensures numero in c[BlockFor(c, numero, 0)] <==> Reachable(nums, k)
        {
          FoundExactly(c, nums, k);
        }
      }
      if Increasing(nums) { IncreasingOrder(nums); }
      if InBlockOrder(nums) && numero in nums {
        var k :| 0 <= k < |nums| && nums[k] == numero;
        OrderReachable(nums, k);
        StopsAtBlock(c, nums, k);
      }
    }
  }
}
