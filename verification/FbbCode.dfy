/** The adaptive code of the compressor: Huffman codes for symbols, the fixed code for
    match positions. */
module FbbCode {
  import opened BitIO
  import opened HuffmanTables
  import opened HuffmanCode
  import opened Lzss
  import PositionCode

  function SymbolBits(t: HuffTree, s: nat): seq<bool> {
    if s < N_CHAR then CodeOf(t, s) else []
  }

  function NextTree(t: HuffTree, s: nat): HuffTree {
    if s < N_CHAR then Updated(t, s) else t
  }

  function ReadSymbol(t: HuffTree, bits: seq<bool>, n: nat): (nat, nat) {
    DecodeSymbol(t, bits, n)
  }

  function PlaceBits(p: nat): seq<bool> {
    if p < 4096 then PositionCode.PositionBits(p) else []
  }

  function ReadPlace(bits: seq<bool>, n: nat): (nat, nat) {
    PositionCode.DecodePosition(bits, n)
  }

  const FBB: AdaptiveCode<HuffTree> :=
    AdaptiveCode(SymbolBits, NextTree, ReadSymbol, PlaceBits, ReadPlace)

  lemma SymbolReadable(t: HuffTree, s: nat, bits: seq<bool>, n: nat)
    requires s < SYMBOLS && StartsAt(bits, n, FBB.code(t, s))
    ensures FBB.read(t, bits, n) == (s, n + |FBB.code(t, s)|)
  {
    DecodeInvertsCode(t, s, bits, n);
  }

  lemma PlaceReadable(p: nat, bits: seq<bool>, n: nat)
    requires p < 2048 && StartsAt(bits, n, FBB.place(p))
    ensures FBB.readPlace(bits, n) == (p, n + |FBB.place(p)|)
  {
    PositionCode.DecodeInvertsPosition(p, bits, n);
  }

  /** Coder and decoder stay in lockstep: from equal trees, whatever the decoder reads at
      the place of a code is what was coded, and both go on with the same tree. */
  lemma FbbReadable()
    ensures Readable(FBB)
  {
    forall t: HuffTree, s: nat, bits: seq<bool>, n: nat | s < SYMBOLS && StartsAt(bits, n, FBB.code(t, s))
      ensures FBB.read(t, bits, n) == (s, n + |FBB.code(t, s)|)
    {
      SymbolReadable(t, s, bits, n);
    }
    forall p: nat, bits: seq<bool>, n: nat | p < 2048 && StartsAt(bits, n, FBB.place(p))
      ensures FBB.readPlace(bits, n) == (p, n + |FBB.place(p)|)
    {
      PlaceReadable(p, bits, n);
    }
  }

  lemma SymbolCosts(t: HuffTree, s: nat)
    requires s < SYMBOLS
    ensures |FBB.code(t, s)| >= 1
  {}

  lemma PlaceCosts(p: nat)
    requires p < 2048
    ensures |FBB.place(p)| >= 9
  {}

  lemma FbbCostly()
    ensures Costly(FBB)
  {
    forall t: HuffTree, s: nat | s < SYMBOLS ensures |FBB.code(t, s)| >= 1 { SymbolCosts(t, s); }
    forall p: nat | p < 2048 ensures |FBB.place(p)| >= 9 { PlaceCosts(p); }
  }

  lemma SymbolCheap(t: HuffTree, s: nat)
    requires s < SYMBOLS
    ensures |FBB.code(t, s)| <= 21
  {
    CodeLength(t, s);
  }

  lemma PlaceCheap(p: nat)
    requires p < 2048
    ensures |FBB.place(p)| <= 14
  {}

  lemma FbbCheap()
    ensures Cheap(FBB)
  {
    forall t: HuffTree, s: nat | s < SYMBOLS ensures |FBB.code(t, s)| <= 21 { SymbolCheap(t, s); }
    forall p: nat | p < 2048 ensures |FBB.place(p)| <= 14 { PlaceCheap(p); }
  }
}
