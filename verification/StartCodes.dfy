/** The codes of the tree every stream starts from, and the order of a rebuilt one: the two
    trees both stations have to agree on without ever sending them. */
module StartCodes {
  import opened HuffmanTables
  import opened HuffmanCode
  import opened PositionCode
  import opened BitIO
  import opened Lzss
  import opened TokenWriter

  /** The nodes of depth `d` are the last ones below the number 628 - 2^d; their paths count up. */
  lemma {:induction false} StartPath(k: nat, d: nat)
    requires k < T && 628 - 2 * Pow2(d) <= k < 628 - Pow2(d)
    ensures Path(StartTree(), k) == NumBits(k - 628 + 2 * Pow2(d), d)
    decreases d
  {
    hide HuffmanTables.Valid, StartFreq;
    if d == 0 {
      assert k == R;
    } else {
      assert Pow2(d) == 2 * Pow2(d - 1);
      assert StartTree().prnt[k] == N_CHAR + k / 2;
      StartPath(N_CHAR + k / 2, d - 1);
    }
  }

  /** The first code of every symbol: nine bits for the first 116, eight for the others. */
  lemma StartCode(s: nat)
    requires s < N_CHAR
    ensures CodeOf(StartTree(), s) == if s < 116 then NumBits(396 + s, 9) else NumBits(s - 116, 8)
  {
    hide HuffmanTables.Valid, StartFreq, Path;
    PowersOfTwo();
    assert Pow2(9) == 512;
    assert StartTree().prnt[T + s] == s;
    if s < 116 { StartPath(s, 9); } else { StartPath(s, 8); }
  }

  /** The first token of any stream: a byte as its first code; a match of 3 to 60 bytes as the
      eight bits of its length and 137, and its position. */
  lemma FirstToken(k: Token)
    requires WellToken(k)
    ensures SentToken(StartTree(), k) ==
      match k
      case Lit(b) => if b < 116 then NumBits(396 + b, 9) else NumBits(b - 116, 8)
      case Match(pos, len) => NumBits(len + 137, 8) + PositionBits(pos)
  {
    hide Code, CodeWord, CodeOf, PositionBits, Carried;
    StartCode(Symbol(k));
    var p := CodeIn(StartTree(), k);
    CarriedShort(p);
    CodeWordExact(p);
    assert p + [] == p;
  }

  lemma CarriedShort(p: seq<bool>)
    requires |p| <= 16
    ensures Carried(p)
  {}
}
