/** The check of a forward file, letter by letter: which commands may stand where, and
    whether IF and ENDIF match inside and outside of station blocks. */
module FwdCheck {
  import opened Nesting

  const ERROR: nat := 0
  const FINE: nat := 1
  const OPENS: nat := 2
  const IF: nat := 3
  const ELSE: nat := 4
  const ENDIF: nat := 5
  const CLOSES: nat := 6
  const NOT: nat := 7

  /** The letters the check is called with. */
  predicate Letter(c: char) {
    'a' <= c <= 'z' || 'A' <= c <= 'Z' || c == '-' || c == '!' || c == '@'
  }

  function Column(c: char): (i: nat)
    requires Letter(c)
    ensures i < 29
  {
    if c == '-' then 26 else if c == '!' then 27 else if c == '@' then 28
    else if 'a' <= c then (c - 'a') as nat else (c - 'A') as nat
  }

  const OUTSIDE: seq<nat> :=
    [2, 0, 0, 1, 5, 0, 0, 0, 3, 0, 0, 1, 0, 0, 0, 1, 0, 0, 0, 0, 0, 0, 0, 1, 0, 0, 0, 0, 4]
  const INSIDE: seq<nat> :=
    [0, 1, 1, 1, 5, 1, 1, 1, 3, 1, 1, 1, 1, 1, 1, 1, 1, 1, 1, 1, 1, 1, 1, 1, 1, 1, 6, 7, 4]
  const NEGATED: seq<nat> :=
    [0, 1, 0, 0, 0, 1, 1, 1, 0, 0, 0, 0, 0, 0, 0, 0, 0, 0, 0, 0, 0, 0, 0, 0, 0, 1, 0, 0, 0]

  /** What a letter is where the check stands: 0 outside a block, 1 inside, 2 behind a NOT. */
  function Entry(state: nat, c: char): nat
    requires Letter(c)
  {
    (if state == 0 then OUTSIDE else if state == 1 then INSIDE else NEGATED)[Column(c)]
  }

  datatype State = State(block: nat, nbif0: int, nbif1: int)

  const START := State(0, 0, 0)

  class LetterCheck {
    var etatBloc: nat
    var nbif0: int
    var nbif1: int

    function Now(): State
      reads this
    {
      State(etatBloc, nbif0, nbif1)
    }

    constructor ()
      ensures Now() == START
    {
      etatBloc, nbif0, nbif1 := 0, 0, 0;
    }

    /** `tst_ligne`: true means an error. */
    method TstLigne(c: char) returns (retour: bool)
      requires Letter(c)
      modifies this
      ensures retour == !Accepts(old(Now()), c)
      ensures Now() == Next(old(Now()), c)
    {
      hide Letter, Column;
      var e := Entry(etatBloc, c);
      retour := false;
      match e {
        case 0 => retour := true;
        case 1 =>
          if etatBloc == 2 {
            etatBloc := 1;
          }
        case 2 =>
          etatBloc := 1;
          nbif1 := 0;
        case 3 =>
          if etatBloc > 0 {
            nbif1 := nbif1 + 1;
          } else {
            nbif0 := nbif0 + 1;
          }
        case 4 => retour := (if etatBloc > 0 then nbif1 else nbif0) == 0;
        case 5 =>
          retour := (if etatBloc > 0 then nbif1 else nbif0) == 0;
          if etatBloc > 0 {
            nbif1 := nbif1 - 1;
          } else {
            nbif0 := nbif0 - 1;
          }
        case 6 =>
          retour := etatBloc == 0 || nbif1 != 0;
          etatBloc := 0;
        case _ => etatBloc := 2;
      }
    }
  }

  /** The IF counter in force. */
  function Count(s: State): int { if s.block > 0 then s.nbif1 else s.nbif0 }

  function Recount(s: State, n: int): State {
    if s.block > 0 then s.(nbif1 := n) else s.(nbif0 := n)
  }

  predicate Accepts(s: State, c: char)
    requires Letter(c)
  {
    var e := Entry(s.block, c);
    && e != ERROR
    && (e == ELSE || e == ENDIF ==> Count(s) != 0)
    && (e == CLOSES ==> s.block != 0 && s.nbif1 == 0)
  }

  function Next(s: State, c: char): State
    requires Letter(c)
  {
    var e := Entry(s.block, c);
    if e == FINE then (if s.block == 2 then s.(block := 1) else s)
    else if e == OPENS then s.(block := 1, nbif1 := 0)
    else if e == IF then Recount(s, Count(s) + 1)
    else if e == ENDIF then Recount(s, Count(s) - 1)
    else if e == CLOSES then s.(block := 0)
    else if e == NOT then s.(block := 2)
    else s
  }

  /** A whole file: every letter accepted, and no IF open outside of blocks. */
  ghost predicate Passes(s: State, ls: seq<Line>)
    decreases |ls|
  {
    if |ls| == 0 then s.nbif0 == 0
    else Letter(ls[0].kind) && Accepts(s, ls[0].kind) && Passes(Next(s, ls[0].kind), ls[1..])
  }

  function Last(s: State, ls: seq<Line>): State
    decreases |ls|
  {
    if |ls| == 0 || !Letter(ls[0].kind) then s else Last(Next(s, ls[0].kind), ls[1..])
  }

  /** IFs open altogether. */
  function Depth(s: State): int { s.nbif0 + (if s.block > 0 then s.nbif1 else 0) }

  ghost predicate Sane(s: State) { s.block <= 2 && s.nbif0 >= 0 && s.nbif1 >= 0 }

  /** Where the letters of IF, ELSE and ENDIF stand in a row of the table. */
  ghost predicate RowIs(row: seq<nat>) {
    && |row| == 29
    && forall i :: 0 <= i < 29 ==>
         && (row[i] == IF ==> i == 8) && (row[i] == ENDIF ==> i == 4) && (row[i] == ELSE ==> i == 28)
         && (i == 8 ==> row[i] == IF || row[i] == ERROR) && (i == 4 ==> row[i] == ENDIF || row[i] == ERROR)
         && (i == 28 ==> row[i] == ELSE || row[i] == ERROR)
         && (row[i] == OPENS ==> row == OUTSIDE) && (row[i] == NOT ==> row == INSIDE) && row[i] <= NOT
  }

  lemma OutsideRow()
    ensures RowIs(OUTSIDE) && OUTSIDE[0] == OPENS
  {}

  lemma InsideRow()
    ensures RowIs(INSIDE) && INSIDE[0] == ERROR && INSIDE[2] == FINE
  {}

  lemma NegatedRow()
    ensures RowIs(NEGATED) && NEGATED[0] == ERROR && NEGATED[2] == ERROR
  {}

  lemma EntryIs(s: State, c: char)
    requires Letter(c) && c != 'i' && c != 'e'
    ensures var e := Entry(s.block, c);
            && (e == IF ==> c == 'I') && (e == ENDIF ==> c == 'E') && (e == ELSE ==> c == '@')
            && (c == 'I' ==> e == IF || e == ERROR) && (c == 'E' ==> e == ENDIF || e == ERROR)
            && (c == '@' ==> e == ELSE || e == ERROR)
            && (e == OPENS ==> s.block == 0) && (e == NOT ==> s.block == 1) && e <= NOT
  {
    hide OUTSIDE, INSIDE, NEGATED;
    OutsideRow();
    InsideRow();
    NegatedRow();
  }

  /** The letter in upper case, as the table is indexed. */
  function Up(c: char): char {
    if 'a' <= c <= 'z' then (c - 'a' + 'A') as char else c
  }

  lemma OutsideAt(i: nat)
    requires i < 29
    ensures OUTSIDE[i] == if i == 0 then OPENS else if i == 4 then ENDIF else if i == 8 then IF else if i == 28 then ELSE
                          else if i in {3, 11, 15, 23} then FINE else ERROR
  {}

  lemma InsideAt(i: nat)
    requires i < 29
    ensures INSIDE[i] == if i == 0 then ERROR else if i == 4 then ENDIF else if i == 8 then IF else if i == 28 then ELSE
                         else if i == 26 then CLOSES else if i == 27 then NOT else FINE
  {}

  lemma NegatedAt(i: nat)
    requires i < 29
    ensures NEGATED[i] == if i in {1, 5, 6, 7, 25} then FINE else ERROR
  {}

  /** The whole table by letters. Outside of blocks stand A, which opens one, D, L, P, X and
      conditions; inside, every letter but A, NOT, conditions, and the end of the block once no
      IF is open in it; behind NOT only B, F, G, H and Z. */
  lemma AcceptsExactly(s: State, c: char)
    requires Letter(c) && s.block <= 2
    ensures var u := Up(c);
            && (s.block == 0 ==>
                  && (Accepts(s, c) <==> u in "ADLPXI" || (u in "E@" && s.nbif0 != 0))
                  && (Accepts(s, c) ==>
                        Next(s, c) == if u == 'A' then State(1, s.nbif0, 0) else if u == 'I' then s.(nbif0 := s.nbif0 + 1)
                                      else if u == 'E' then s.(nbif0 := s.nbif0 - 1) else s))
            && (s.block == 1 ==>
                  && (Accepts(s, c) <==> u != 'A' && (u in "E@" ==> s.nbif1 != 0) && (u == '-' ==> s.nbif1 == 0))
                  && (Accepts(s, c) ==>
                        Next(s, c) == if u == '-' then s.(block := 0) else if u == '!' then s.(block := 2)
                                      else if u == 'I' then s.(nbif1 := s.nbif1 + 1)
                                      else if u == 'E' then s.(nbif1 := s.nbif1 - 1) else s))
            && (s.block == 2 ==>
                  && (Accepts(s, c) <==> u in "BFGHZ") && (Accepts(s, c) ==> Next(s, c) == s.(block := 1)))
  {
    hide OUTSIDE, INSIDE, NEGATED;
    OutsideAt(Column(c));
    InsideAt(Column(c));
    NegatedAt(Column(c));
  }

  /** One accepted letter moves the nesting depth as the letter says. */
  lemma NextDepth(s: State, c: char)
    requires Sane(s) && Letter(c) && Accepts(s, c) && c != 'i' && c != 'e'
    ensures Sane(Next(s, c))
    ensures c == 'I' ==> Depth(Next(s, c)) == Depth(s) + 1
    ensures c == 'E' ==> Depth(s) > 0 && Depth(Next(s, c)) == Depth(s) - 1
    ensures c == '@' ==> Depth(s) > 0 && Depth(Next(s, c)) == Depth(s)
    ensures c != 'I' && c != 'E' ==> Depth(Next(s, c)) == Depth(s)
  {
    hide Entry;
    EntryIs(s, c);
  }

  /** No lower-case IF or ENDIF: commands come in upper case, except the DOS variants. */
  ghost predicate Upper(ls: seq<Line>) {
    forall i :: 0 <= i < |ls| ==> ls[i].kind != 'i' && ls[i].kind != 'e'
  }

  /** A file that passes nests properly exactly when it does not end inside a block with an
      IF open. */
  lemma {:induction false} PassesBalanced(s: State, ls: seq<Line>)
    requires Sane(s) && Passes(s, ls) && Upper(ls)
    ensures Depth(s) >= 0
    ensures Balanced(ls, Depth(s)) <==> (Last(s, ls).block == 0 || Last(s, ls).nbif1 == 0)
    decreases |ls|
  {
    if ls == [] {
    } else {
      NextDepth(s, ls[0].kind);
      PassesBalanced(Next(s, ls[0].kind), ls[1..]);
    }
  }

  /** So a file that passes and ends outside of blocks is the file of some block, and both
      interpreters' theorems apply to it. */
  lemma PassesIsBlock(ls: seq<Line>)
    requires Passes(START, ls) && Upper(ls) && Last(START, ls).block == 0
    ensures exists b :: Proper(b) && Lines(b) == ls
  {
    PassesBalanced(START, ls);
    BalancedIsBlock(ls);
  }

  /** The check misses an IF left open in a block that is not closed. */
  lemma OpenBlockPasses()
    ensures var ls := [Line('A', "F6FBB"), Line('I', "H 0-12")]; Passes(START, ls) && !Balanced(ls, 0)
  {
    var ls := [Line('A', "F6FBB"), Line('I', "H 0-12")];
    assert ls[1..] == [ls[1]] && ls[1..][1..] == [];
    assert Entry(0, 'A') == OPENS && Entry(1, 'I') == IF;
    assert Next(START, 'A') == State(1, 0, 0);
    assert Next(State(1, 0, 0), 'I') == State(1, 0, 1);
    assert Passes(State(1, 0, 1), []);
  }
}
