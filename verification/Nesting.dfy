/** Conditional command files: what IF / ELSE / ENDIF mean, and the counter that `cron` and
    `ch_bbs` use instead of a stack. */
module Nesting {
  import opened Sequences

  /** A line: its command letter ('@' for ELSE) and the rest. */
  datatype Line = Line(kind: char, text: string)

  /** The recursive form. The source allows any number of ELSE parts; only the first one is
      ever run. */
  datatype Block =
    | Done
    | Do(cmd: Line, rest: Block)
    | When(cond: string, yes: Block, alts: Alts, endText: string, rest: Block)
  datatype Alts = NoMore | Else(elseText: string, b: Block, more: Alts)

  predicate Conditional(kind: char) { kind == 'I' || kind == '@' || kind == 'E' }

  ghost predicate Proper(b: Block) {
    match b
    case Done => true
    case Do(cmd, rest) => !Conditional(cmd.kind) && Proper(rest)
    case When(_, yes, alts, _, rest) => Proper(yes) && ProperAlts(alts) && Proper(rest)
  }

  ghost predicate ProperAlts(a: Alts) {
    a.Else? ==> Proper(a.b) && ProperAlts(a.more)
  }

  /** The block as lines. */
  function Lines(b: Block): seq<Line> {
    match b
    case Done => []
    case Do(cmd, rest) => [cmd] + Lines(rest)
    case When(cond, yes, alts, endText, rest) =>
      [Line('I', cond)] + (Lines(yes) + (AltLines(alts) + ([Line('E', endText)] + Lines(rest))))
  }

  function AltLines(a: Alts): seq<Line> {
    match a
    case NoMore => []
    case Else(text, b, more) => [Line('@', text)] + (Lines(b) + AltLines(more))
  }

  /** What tells whether a condition holds, given the commands run so far, and which command
      letters do something. */
  datatype World = World(holds: (seq<Line>, string) -> bool, acts: char -> bool)

  function Ran(w: World, cmd: Line, done: seq<Line>): seq<Line> {
    if w.acts(cmd.kind) then done + [cmd] else done
  }

  /** The meaning of a block: the commands run, behind those run before. */
  function Exec(w: World, b: Block, done: seq<Line>): (after: seq<Line>)
    ensures done <= after
  {
    match b
    case Done => done
    case Do(cmd, rest) => Exec(w, rest, Ran(w, cmd, done))
    case When(cond, yes, alts, _, rest) =>
      var mid := if w.holds(done, cond) then Exec(w, yes, done)
                 else match alts { case NoMore => done case Else(_, other, _) => Exec(w, other, done) };
      Exec(w, rest, mid)
  }

  // ---------- skipping by counting ----------

  datatype Skipped = Missing | Found(rest: seq<Line>, onElse: bool)

  /** Skip with `e` levels open: to the ENDIF of the outermost one, or to its ELSE. */
  function Skip(ls: seq<Line>, e: nat, elses: bool): Skipped
    requires e > 0
  {
    if ls == [] then Missing
    else if ls[0].kind == 'I' then Skip(ls[1..], e + 1, elses)
    else if ls[0].kind == 'E' then (if e == 1 then Found(ls[1..], false) else Skip(ls[1..], e - 1, elses))
    else if ls[0].kind == '@' && elses && e == 1 then Found(ls[1..], true)
    else Skip(ls[1..], e, elses)
  }

  lemma {:induction false} FoundIsTail(ls: seq<Line>, e: nat, elses: bool)
    requires e > 0
    ensures Skip(ls, e, elses).Found? ==> |Skip(ls, e, elses).rest| < |ls|
  {
    if ls == [] {
    } else if ls[0].kind == 'I' {
      FoundIsTail(ls[1..], e + 1, elses);
    } else if ls[0].kind == 'E' {
      if e > 1 { FoundIsTail(ls[1..], e - 1, elses); }
    } else {
      FoundIsTail(ls[1..], e, elses);
    }
  }

  lemma SkipFirst(l: Line, tail: seq<Line>, e: nat, elses: bool)
    requires e > 0
    ensures Skip([l] + tail, e, elses) ==
      if l.kind == 'I' then Skip(tail, e + 1, elses)
      else if l.kind == 'E' then (if e == 1 then Found(tail, false) else Skip(tail, e - 1, elses))
      else if l.kind == '@' && elses && e == 1 then Found(tail, true)
      else Skip(tail, e, elses)
  {
    assert ([l] + tail)[1..] == tail;
  }

  /** Counting passes over a whole block, whatever is nested in it. */
  lemma {:induction false} SkipBlock(b: Block, tail: seq<Line>, e: nat, elses: bool)
    requires Proper(b) && e > 0
    ensures Skip(Lines(b) + tail, e, elses) == Skip(tail, e, elses)
    decreases b
  {
    match b
    case Done => assert [] + tail == tail;
    case Do(cmd, rest) =>
      Assoc([cmd], Lines(rest), tail);
      SkipFirst(cmd, Lines(rest) + tail, e, elses);
      SkipBlock(rest, tail, e, elses);
    case When(cond, yes, alts, endText, rest) =>
      var x := [Line('E', endText)] + Lines(rest);
      WhenRegroup(b, tail);
      SkipFirst(Line('I', cond), Lines(yes) + (AltLines(alts) + (x + tail)), e, elses);
      SkipBlock(yes, AltLines(alts) + (x + tail), e + 1, elses);
      SkipAlts(alts, x + tail, e + 1, elses);
      Assoc([Line('E', endText)], Lines(rest), tail);
      SkipFirst(Line('E', endText), Lines(rest) + tail, e + 1, elses);
      SkipBlock(rest, tail, e, elses);
  }

  lemma {:induction false} SkipAlts(a: Alts, tail: seq<Line>, e: nat, elses: bool)
    requires ProperAlts(a) && e > 0 && (elses ==> e > 1)
    ensures Skip(AltLines(a) + tail, e, elses) == Skip(tail, e, elses)
    decreases a
  {
    match a
    case NoMore => assert [] + tail == tail;
    case Else(text, b, more) =>
      AltRegroup(a, tail);
      SkipFirst(Line('@', text), Lines(b) + (AltLines(more) + tail), e, elses);
      SkipBlock(b, AltLines(more) + tail, e, elses);
      SkipAlts(more, tail, e, elses);
  }

  lemma WhenRegroup(b: Block, tail: seq<Line>)
    requires b.When?
    ensures Lines(b) + tail ==
      [Line('I', b.cond)] + (Lines(b.yes) + (AltLines(b.alts) + (([Line('E', b.endText)] + Lines(b.rest)) + tail)))
  {
    var x := [Line('E', b.endText)] + Lines(b.rest);
    Assoc([Line('I', b.cond)], Lines(b.yes) + (AltLines(b.alts) + x), tail);
    Assoc(Lines(b.yes), AltLines(b.alts) + x, tail);
    Assoc(AltLines(b.alts), x, tail);
  }

  lemma AltRegroup(a: Alts, tail: seq<Line>)
    requires a.Else?
    ensures AltLines(a) + tail == [Line('@', a.elseText)] + (Lines(a.b) + (AltLines(a.more) + tail))
  {
    Assoc([Line('@', a.elseText)], Lines(a.b) + AltLines(a.more), tail);
    Assoc(Lines(a.b), AltLines(a.more), tail);
  }

  // ---------- well-nested sequences ----------

  /** The letters nest: `depth` counts the open IFs. */
  predicate Balanced(ls: seq<Line>, depth: nat) {
    if ls == [] then depth == 0
    else match ls[0].kind
      case 'I' => Balanced(ls[1..], depth + 1)
      case 'E' => depth > 0 && Balanced(ls[1..], depth - 1)
      case '@' => depth > 0 && Balanced(ls[1..], depth)
      case _ => Balanced(ls[1..], depth)
  }

  /** A block in front changes nothing. */
  lemma {:induction false} BlockBalanced(b: Block, tail: seq<Line>, depth: nat)
    requires Proper(b)
    ensures Balanced(Lines(b) + tail, depth) == Balanced(tail, depth)
    decreases b
  {
    match b
    case Done => assert [] + tail == tail;
    case Do(cmd, rest) =>
      Assoc([cmd], Lines(rest), tail);
      BalancedFirst(cmd, Lines(rest) + tail, depth);
      BlockBalanced(rest, tail, depth);
    case When(cond, yes, alts, endText, rest) =>
      var x := [Line('E', endText)] + Lines(rest);
      WhenRegroup(b, tail);
      BalancedFirst(Line('I', cond), Lines(yes) + (AltLines(alts) + (x + tail)), depth);
      BlockBalanced(yes, AltLines(alts) + (x + tail), depth + 1);
      AltsBalanced(alts, x + tail, depth + 1);
      Assoc([Line('E', endText)], Lines(rest), tail);
      BalancedFirst(Line('E', endText), Lines(rest) + tail, depth + 1);
      BlockBalanced(rest, tail, depth);
  }

  lemma {:induction false} AltsBalanced(a: Alts, tail: seq<Line>, depth: nat)
    requires ProperAlts(a) && depth > 0
    ensures Balanced(AltLines(a) + tail, depth) == Balanced(tail, depth)
    decreases a
  {
    match a
    case NoMore => assert [] + tail == tail;
    case Else(text, b, more) =>
      AltRegroup(a, tail);
      BalancedFirst(Line('@', text), Lines(b) + (AltLines(more) + tail), depth);
      BlockBalanced(b, AltLines(more) + tail, depth);
      AltsBalanced(more, tail, depth);
  }

  lemma BalancedFirst(l: Line, tail: seq<Line>, depth: nat)
    ensures Balanced([l] + tail, depth) ==
      (match l.kind
       case 'I' => Balanced(tail, depth + 1)
       case 'E' => depth > 0 && Balanced(tail, depth - 1)
       case '@' => depth > 0 && Balanced(tail, depth)
       case _ => Balanced(tail, depth))
  {
    assert ([l] + tail)[1..] == tail;
  }

  /** The front block of a balanced sequence, up to the ELSE or ENDIF of the level it is in. */
  lemma {:induction false} ParseBlock(ls: seq<Line>, depth: nat) returns (b: Block, tail: seq<Line>)
    requires Balanced(ls, depth)
    ensures Proper(b) && ls == Lines(b) + tail && Balanced(tail, depth)
    ensures tail == [] || (depth > 0 && (tail[0].kind == '@' || tail[0].kind == 'E'))
    ensures depth > 0 ==> tail != []
    decreases |ls|
  {
    if ls == [] || ls[0].kind == '@' || ls[0].kind == 'E' {
      b, tail := Done, ls;
      assert ls == [] + tail;
    } else if ls[0].kind == 'I' {
      var yes, t1 := ParseBlock(ls[1..], depth + 1);
      var alts, t2 := ParseAlts(t1, depth + 1);
      var rest, t3 := ParseBlock(t2[1..], depth);
      b, tail := When(ls[0].text, yes, alts, t2[0].text, rest), t3;
      WhenRegroup(b, tail);
      assert ls[0] == Line('I', ls[0].text) && t2[0] == Line('E', t2[0].text);
      assert ls == [ls[0]] + ls[1..] && t2 == [t2[0]] + t2[1..];
      Assoc([t2[0]], Lines(rest), tail);
    } else {
      var rest, t1 := ParseBlock(ls[1..], depth);
      b, tail := Do(ls[0], rest), t1;
      assert ls == [ls[0]] + ls[1..];
      Assoc([ls[0]], Lines(rest), tail);
    }
  }

  lemma {:induction false} ParseAlts(ls: seq<Line>, depth: nat) returns (a: Alts, tail: seq<Line>)
    requires Balanced(ls, depth) && depth > 0 && ls != [] && (ls[0].kind == '@' || ls[0].kind == 'E')
    ensures ProperAlts(a) && ls == AltLines(a) + tail && Balanced(tail, depth) && tail != [] && tail[0].kind == 'E'
    decreases |ls|
  {
    hide Lines, Proper;
    if ls[0].kind == 'E' {
      a, tail := NoMore, ls;
      assert ls == [] + tail;
    } else {
      var b, t1 := ParseBlock(ls[1..], depth);
      var more, t2 := ParseAlts(t1, depth);
      a, tail := Else(ls[0].text, b, more), t2;
      AltRegroup(a, tail);
      assert ls[0] == Line('@', ls[0].text) && ls == [ls[0]] + ls[1..];
    }
  }

  /** Letters nest exactly when the lines are those of a block. */
  lemma BalancedIsBlock(ls: seq<Line>)
    ensures Balanced(ls, 0) <==> exists b :: Proper(b) && Lines(b) == ls
  {
    if Balanced(ls, 0) {
      var b, tail := ParseBlock(ls, 0);
      assert Lines(b) + [] == Lines(b);
    }
    forall b | Proper(b) && Lines(b) == ls ensures Balanced(ls, 0) {
      BlockBalanced(b, [], 0);
      assert Lines(b) + [] == Lines(b);
    }
  }
}
