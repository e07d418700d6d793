/** The two interpreters of conditional command files, `cron` and `ch_bbs`, and the check
    that forward files pass before `ch_bbs` sees them. */
module Cron {
  import opened Nesting
  import opened Sequences

  // ---------- cron ----------

  datatype Outcome = Finished(trace: seq<Line>, cptif: nat) | Failed(trace: seq<Line>)

  /** `cron` on any lines, nested or not. */
  function CronRun(w: World, ls: seq<Line>, cptif: nat, done: seq<Line>): Outcome
    decreases |ls|
  {
    if ls == [] then Finished(done, cptif)
    else match ls[0].kind
      case 'E' => if cptif == 0 then Failed(done) else CronRun(w, ls[1..], cptif - 1, done)
      case '@' =>
        if cptif == 0 then Failed(done)
        else CronSkip(w, ls[1..], cptif - 1, false, done)
      case 'I' =>
        if w.holds(done, ls[0].text) then CronRun(w, ls[1..], cptif + 1, done)
        else CronSkip(w, ls[1..], cptif, true, done)
      case _ => CronRun(w, ls[1..], cptif, Ran(w, ls[0], done))
  }

  /** Going on behind the lines skipped from `ls` on. */
  function CronSkip(w: World, ls: seq<Line>, cptif: nat, elses: bool, done: seq<Line>): Outcome
    decreases |ls|
  {
    FoundIsTail(ls, 1, elses);
    match Skip(ls, 1, elses)
    case Missing => Failed(done)
    case Found(rest, onElse) => CronRun(w, rest, if onElse then cptif + 1 else cptif, done)
  }

  lemma CronFirst(w: World, l: Line, tail: seq<Line>, cptif: nat, done: seq<Line>)
    ensures CronRun(w, [l] + tail, cptif, done) ==
      match l.kind
      case 'E' => (if cptif == 0 then Failed(done) else CronRun(w, tail, cptif - 1, done))
      case '@' => (if cptif == 0 then Failed(done) else CronSkip(w, tail, cptif - 1, false, done))
      case 'I' => (if w.holds(done, l.text) then CronRun(w, tail, cptif + 1, done)
                   else CronSkip(w, tail, cptif, true, done))
      case _ => CronRun(w, tail, cptif, Ran(w, l, done))
  {
    assert ([l] + tail)[1..] == tail;
  }

  /** At the end of the branch that was run: the remaining ELSE parts are passed over. */
  lemma CronPastElses(w: World, a: Alts, endText: string, tail: seq<Line>, cptif: nat, done: seq<Line>)
    requires ProperAlts(a)
    ensures CronRun(w, AltLines(a) + ([Line('E', endText)] + tail), cptif + 1, done) == CronRun(w, tail, cptif, done)
  {
    var x := [Line('E', endText)] + tail;
    match a
    case NoMore =>
      assert [] + x == x;
      CronFirst(w, Line('E', endText), tail, cptif + 1, done);
    case Else(text, b, more) =>
      AltRegroup(a, x);
      CronFirst(w, Line('@', text), Lines(b) + (AltLines(more) + x), cptif + 1, done);
      SkipBlock(b, AltLines(more) + x, 1, false);
      SkipAlts(more, x, 1, false);
      SkipFirst(Line('E', endText), tail, 1, false);
  }

  /** The counter does what the nesting says: a block in front runs exactly its meaning. */
  lemma {:induction false} CronBlock(w: World, b: Block, tail: seq<Line>, cptif: nat, done: seq<Line>)
    requires Proper(b)
    ensures CronRun(w, Lines(b) + tail, cptif, done) == CronRun(w, tail, cptif, Exec(w, b, done))
    decreases b
  {
    match b
    case Done => assert [] + tail == tail;
    case Do(cmd, rest) =>
      Assoc([cmd], Lines(rest), tail);
      CronFirst(w, cmd, Lines(rest) + tail, cptif, done);
      CronBlock(w, rest, tail, cptif, Ran(w, cmd, done));
    case When(cond, yes, alts, endText, rest) =>
      var x := [Line('E', endText)] + (Lines(rest) + tail);
      Assoc([Line('E', endText)], Lines(rest), tail);
      WhenRegroup(b, tail);
      CronFirst(w, Line('I', cond), Lines(yes) + (AltLines(alts) + x), cptif, done);
      if w.holds(done, cond) {
        CronBlock(w, yes, AltLines(alts) + x, cptif + 1, done);
        CronPastElses(w, alts, endText, Lines(rest) + tail, cptif, Exec(w, yes, done));
        CronBlock(w, rest, tail, cptif, Exec(w, yes, done));
      } else {
        SkipBlock(yes, AltLines(alts) + x, 1, true);
        match alts
        case NoMore =>
          assert [] + x == x;
          SkipFirst(Line('E', endText), Lines(rest) + tail, 1, true);
          CronBlock(w, rest, tail, cptif, done);
        case Else(text, other, more) =>
          AltRegroup(alts, x);
          SkipFirst(Line('@', text), Lines(other) + (AltLines(more) + x), 1, true);
          CronBlock(w, other, AltLines(more) + x, cptif + 1, done);
          CronPastElses(w, more, endText, Lines(rest) + tail, cptif, Exec(w, other, done));
          CronBlock(w, rest, tail, cptif, Exec(w, other, done));
      }
  }

  /** On every well-nested file `cron` runs exactly the commands the recursive reading
      selects, and ends with no IF open. */
  lemma CronMeaning(w: World, b: Block)
    requires Proper(b)
    ensures CronRun(w, Lines(b), 0, []) == Finished(Exec(w, b, []), 0)
  {
    CronBlock(w, b, [], 0, []);
    assert Lines(b) + [] == Lines(b);
  }

  /** An ELSE or ENDIF without its IF stops `cron` for good, with what ran before it. */
  lemma CronStray(w: World, b: Block, l: Line, tail: seq<Line>)
    requires Proper(b) && (l.kind == '@' || l.kind == 'E')
    ensures CronRun(w, Lines(b) + ([l] + tail), 0, []) == Failed(Exec(w, b, []))
  {
    CronBlock(w, b, [l] + tail, 0, []);
    CronFirst(w, l, tail, 0, Exec(w, b, []));
  }

  /** An IF that is never closed: if it holds, what follows runs and the file ends with one IF
      open; if not, the search for its end comes to the end of the file. */
  lemma CronOpen(w: World, b: Block, cond: string, yes: Block)
    requires Proper(b) && Proper(yes)
    ensures var before := Exec(w, b, []);
            CronRun(w, Lines(b) + ([Line('I', cond)] + Lines(yes)), 0, []) ==
              if w.holds(before, cond) then Finished(Exec(w, yes, before), 1) else Failed(before)
  {
    var before := Exec(w, b, []);
    CronBlock(w, b, [Line('I', cond)] + Lines(yes), 0, []);
    CronFirst(w, Line('I', cond), Lines(yes), 0, before);
    CronBlock(w, yes, [], 1, before);
    SkipBlock(yes, [], 1, true);
    assert Lines(yes) + [] == Lines(yes);
  }

  lemma Advance(lines: seq<Line>, i: nat)
    requires i < |lines|
    ensures lines[i..] != [] && lines[i..][0] == lines[i] && lines[i..][1..] == lines[i + 1..]
  {}

  /** The inner loops of `cron`: read on until the counter says the level is closed, or its
      ELSE has come. */
  method SkipLines(lines: seq<Line>, start: nat, open: int, elses: bool)
      returns (i: nat, cptif: int, eof: bool)
    requires start <= |lines|
    ensures start <= i <= |lines| && eof == Skip(lines[start..], 1, elses).Missing?
    ensures !eof ==> Skip(lines[start..], 1, elses) == Found(lines[i..], cptif == open)
    ensures !eof ==> cptif == open || cptif == open - 1
    ensures !eof && !elses ==> cptif == open - 1
  {
    i, cptif, eof := start, open, false;
    var temp := cptif - 1;
    while cptif != temp
      invariant start <= i <= |lines| && temp <= cptif && (temp == open - 1 || (temp == open && cptif == temp && elses))
      invariant cptif > temp ==> Skip(lines[i..], cptif - temp, elses) == Skip(lines[start..], 1, elses)
      invariant cptif == temp ==> Skip(lines[start..], 1, elses) == Found(lines[i..], temp == open)
      decreases |lines| - i
    {
      if i == |lines| {
        eof := true;
        return;
      }
      Advance(lines, i);
      match lines[i].kind {
        case 'I' => cptif := cptif + 1;
        case 'E' => cptif := cptif - 1;
        case '@' =>
          if elses && cptif == temp + 1 {
            temp := temp + 1;
          }
        case _ =>
      }
      i := i + 1;
    }
  }

  /** `cron`. */
  method RunCron(w: World, lines: seq<Line>) returns (o: Outcome)
    ensures o == CronRun(w, lines, 0, [])
  {
    var i: nat, cptif: int, fin := 0, 0, false;
    var trace: seq<Line> := [];
    assert lines[0..] == lines;
    while !fin && i < |lines|
      invariant i <= |lines| && (!fin ==> cptif >= 0)
      invariant CronRun(w, lines, 0, []) == if fin then Failed(trace) else CronRun(w, lines[i..], cptif, trace)
      decreases |lines| - i, !fin
    {
      Advance(lines, i);
      var l := lines[i];
      i := i + 1;
      match l.kind {
        case 'E' =>
          if cptif != 0 {
            cptif := cptif - 1;
          } else {
            fin := true;
          }
        case '@' =>
          if cptif != 0 {
            i, cptif, fin := SkipLines(lines, i, cptif, false);
          } else {
            fin := true;
          }
        case 'I' =>
          cptif := cptif + 1;
          if !w.holds(trace, l.text) {
            i, cptif, fin := SkipLines(lines, i, cptif, true);
          }
        case _ =>
          if w.acts(l.kind) {
            trace := trace + [l];
          }
      }
    }
    o := if fin then Failed(trace) else Finished(trace, cptif);
  }

  // ---------- ch_bbs ----------

  /** How many stations the table holds. */
  const LIMIT: nat := 80

  datatype Picked = Ended(trace: seq<Line>, cptif: int) | Full(trace: seq<Line>) | CutOff(trace: seq<Line>)

  /** `ch_bbs` on any lines; in `all` mode it ignores conditions altogether. */
  function BbsRun(w: World, all: bool, ls: seq<Line>, cptif: int, done: seq<Line>): Picked
    decreases |ls|
  {
    if |done| >= LIMIT then Full(done)
    else if ls == [] then Ended(done, cptif)
    else if all && Conditional(ls[0].kind) then BbsRun(w, all, ls[1..], cptif, done)
    else match ls[0].kind
      case 'E' => BbsRun(w, all, ls[1..], cptif - 1, done)
      case '@' =>
        if cptif == 0 then BbsRun(w, all, ls[1..], cptif, done)
        else BbsSkip(w, all, ls[1..], cptif - 1, false, done)
      case 'I' =>
        if w.holds(done, ls[0].text) then BbsRun(w, all, ls[1..], cptif + 1, done)
        else BbsSkip(w, all, ls[1..], cptif, true, done)
      case _ => BbsRun(w, all, ls[1..], cptif, Ran(w, ls[0], done))
  }

  function BbsSkip(w: World, all: bool, ls: seq<Line>, cptif: int, elses: bool, done: seq<Line>): Picked
    decreases |ls|
  {
    FoundIsTail(ls, 1, elses);
    match Skip(ls, 1, elses)
    case Missing => CutOff(done)
    case Found(rest, onElse) => BbsRun(w, all, rest, if onElse then cptif + 1 else cptif, done)
  }

  lemma BbsFirst(w: World, l: Line, tail: seq<Line>, cptif: int, done: seq<Line>)
    ensures BbsRun(w, false, [l] + tail, cptif, done) ==
      if |done| >= LIMIT then Full(done)
      else match l.kind
        case 'E' => BbsRun(w, false, tail, cptif - 1, done)
        case '@' => (if cptif == 0 then BbsRun(w, false, tail, cptif, done)
                     else BbsSkip(w, false, tail, cptif - 1, false, done))
        case 'I' => (if w.holds(done, l.text) then BbsRun(w, false, tail, cptif + 1, done)
                     else BbsSkip(w, false, tail, cptif, true, done))
        case _ => BbsRun(w, false, tail, cptif, Ran(w, l, done))
  {
    assert ([l] + tail)[1..] == tail;
  }

  lemma BbsPastElses(w: World, a: Alts, endText: string, tail: seq<Line>, cptif: nat, done: seq<Line>)
    requires ProperAlts(a)
    ensures BbsRun(w, false, AltLines(a) + ([Line('E', endText)] + tail), cptif + 1, done) ==
            BbsRun(w, false, tail, cptif, done)
  {
    var x := [Line('E', endText)] + tail;
    match a
    case NoMore =>
      assert [] + x == x;
      BbsFirst(w, Line('E', endText), tail, cptif + 1, done);
    case Else(text, b, more) =>
      AltRegroup(a, x);
      BbsFirst(w, Line('@', text), Lines(b) + (AltLines(more) + x), cptif + 1, done);
      SkipBlock(b, AltLines(more) + x, 1, false);
      SkipAlts(more, x, 1, false);
      SkipFirst(Line('E', endText), tail, 1, false);
  }

  /** What is picked when the meaning of a front part is `f`: everything, or the table is
      full on the way. */
  function After(w: World, f: seq<Line>, tail: seq<Line>, cptif: int): Picked {
    if |f| >= LIMIT then Full(f[..LIMIT]) else BbsRun(w, false, tail, cptif, f)
  }

  lemma {:induction false} BbsBlock(w: World, b: Block, tail: seq<Line>, cptif: nat, done: seq<Line>)
    requires Proper(b) && |done| <= LIMIT
    ensures BbsRun(w, false, Lines(b) + tail, cptif, done) == After(w, Exec(w, b, done), tail, cptif)
    decreases b, 2
  {
    match b
    case Done => assert [] + tail == tail;
    case Do(cmd, rest) =>
      Assoc([cmd], Lines(rest), tail);
      BbsFirst(w, cmd, Lines(rest) + tail, cptif, done);
      if |done| < LIMIT {
        BbsBlock(w, rest, tail, cptif, Ran(w, cmd, done));
      }
    case When(_, _, _, _, _) => BbsWhen(w, b, tail, cptif, done);
  }

  lemma {:induction false} BbsWhen(w: World, b: Block, tail: seq<Line>, cptif: nat, done: seq<Line>)
    requires b.When? && Proper(b) && |done| <= LIMIT
    ensures BbsRun(w, false, Lines(b) + tail, cptif, done) == After(w, Exec(w, b, done), tail, cptif)
    decreases b, 1
  {
    var When(cond, yes, alts, endText, rest) := b;
    var x := [Line('E', endText)] + (Lines(rest) + tail);
    Assoc([Line('E', endText)], Lines(rest), tail);
    WhenRegroup(b, tail);
    BbsFirst(w, Line('I', cond), Lines(yes) + (AltLines(alts) + x), cptif, done);
    if |done| == LIMIT {
    } else if w.holds(done, cond) {
      BbsBranch(w, b, yes, alts, tail, cptif, done);
    } else {
      SkipBlock(yes, AltLines(alts) + x, 1, true);
      match alts
      case NoMore =>
        assert [] + x == x;
        SkipFirst(Line('E', endText), Lines(rest) + tail, 1, true);
        BbsBlock(w, rest, tail, cptif, done);
      case Else(text, other, more) =>
        AltRegroup(alts, x);
        SkipFirst(Line('@', text), Lines(other) + (AltLines(more) + x), 1, true);
        BbsBranch(w, b, other, more, tail, cptif, done);
    }
  }

  /** The branch taken, the ELSE parts behind it, and the rest of the block. */
  lemma {:induction false} BbsBranch(w: World, b: Block, taken: Block, more: Alts, tail: seq<Line>, cptif: nat, done: seq<Line>)
    requires b.When? && (taken == b.yes || (b.alts.Else? && taken == b.alts.b))
    requires Proper(taken) && ProperAlts(more) && Proper(b.rest) && |done| < LIMIT
    ensures BbsRun(w, false, Lines(taken) + (AltLines(more) + ([Line('E', b.endText)] + (Lines(b.rest) + tail))), cptif + 1, done)
         == After(w, Exec(w, b.rest, Exec(w, taken, done)), tail, cptif)
    decreases b, 0
  {
    var x := [Line('E', b.endText)] + (Lines(b.rest) + tail);
    var mid := Exec(w, taken, done);
    BbsBlock(w, taken, AltLines(more) + x, cptif + 1, done);
    if |mid| < LIMIT {
      BbsPastElses(w, more, b.endText, Lines(b.rest) + tail, cptif, mid);
      BbsBlock(w, b.rest, tail, cptif, mid);
    } else {
      assert mid[..LIMIT] == Exec(w, b.rest, mid)[..LIMIT];
    }
  }

  /** On every well-nested file `ch_bbs` picks the stations the recursive reading selects, in
      order, until its table is full; and it ends with no IF open. */
  lemma BbsMeaning(w: World, b: Block)
    requires Proper(b)
    ensures var picked := Exec(w, b, []);
            BbsRun(w, false, Lines(b), 0, []) ==
              if |picked| >= LIMIT then Full(picked[..LIMIT]) else Ended(picked, 0)
  {
    BbsBlock(w, b, [], 0, []);
    assert Lines(b) + [] == Lines(b);
  }

  /** The lines that do something, conditions aside. */
  function Acting(w: World, ls: seq<Line>): seq<Line> {
    if ls == [] then []
    else (if !Conditional(ls[0].kind) && w.acts(ls[0].kind) then [ls[0]] else []) + Acting(w, ls[1..])
  }

  lemma {:induction false} BbsAllFrom(w: World, ls: seq<Line>, cptif: int, done: seq<Line>)
    requires |done| <= LIMIT
    ensures var f := done + Acting(w, ls);
            BbsRun(w, true, ls, cptif, done) == if |f| >= LIMIT then Full(f[..LIMIT]) else Ended(f, cptif)
    decreases |ls|
  {
    if |done| == LIMIT {
      assert (done + Acting(w, ls))[..LIMIT] == done;
    } else if ls == [] {
      assert done + [] == done;
    } else if !Conditional(ls[0].kind) && w.acts(ls[0].kind) {
      BbsAllFrom(w, ls[1..], cptif, done + [ls[0]]);
      Assoc(done, [ls[0]], Acting(w, ls[1..]));
    } else {
      BbsAllFrom(w, ls[1..], cptif, done);
      assert [] + Acting(w, ls[1..]) == Acting(w, ls[1..]);
    }
  }

  /** With `all`, conditions do not matter, nested or not: the first eighty stations are picked. */
  lemma BbsAll(w: World, ls: seq<Line>)
    ensures var f := Acting(w, ls);
            BbsRun(w, true, ls, 0, []) == if |f| >= LIMIT then Full(f[..LIMIT]) else Ended(f, 0)
  {
    BbsAllFrom(w, ls, 0, []);
    assert [] + Acting(w, ls) == Acting(w, ls);
  }

  lemma BbsNothing(w: World, cptif: int, done: seq<Line>)
    requires |done| < LIMIT
    ensures BbsRun(w, false, [], cptif, done) == Ended(done, cptif)
  {}

  /** `ch_bbs` does not stop at a stray ENDIF: it counts below zero, and from then on runs both
      parts of an IF that holds. */
  lemma BothPartsRun(w: World, end: string, cond: string, x: Line, y: Line)
    requires w.holds([], cond) && w.acts(x.kind) && w.acts(y.kind) && !Conditional(x.kind) && !Conditional(y.kind)
    ensures BbsRun(w, false, [Line('E', end), Line('I', cond), x, Line('@', end), y, Line('E', end)], 0, []) ==
            Ended([x, y], -1)
  {
    hide BbsRun, BbsSkip;
    var a, b := [Line('@', end), y, Line('E', end)], [y, Line('E', end)];
    assert [Line('E', end), Line('I', cond), x, Line('@', end), y, Line('E', end)] ==
           [Line('E', end)] + ([Line('I', cond)] + ([x] + a));
    assert a == [Line('@', end)] + b && b == [y] + ([Line('E', end)] + []);
    BbsFirst(w, Line('E', end), [Line('I', cond)] + ([x] + a), 0, []);
    BbsFirst(w, Line('I', cond), [x] + a, -1, []);
    BbsFirst(w, x, a, 0, []);
    BbsFirst(w, Line('@', end), b, 0, [x]);
    BbsFirst(w, y, [Line('E', end)] + [], 0, [x]);
    BbsFirst(w, Line('E', end), [], 0, [x, y]);
    BbsNothing(w, -1, [x, y]);
    assert [] + [x] == [x] && [x] + [y] == [x, y];
  }

  /** `ch_bbs`. */
  method RunBbs(w: World, all: bool, lines: seq<Line>) returns (o: Picked)
    ensures o == BbsRun(w, all, lines, 0, [])
  {
    var i: nat, cptif: int, eof := 0, 0, false;
    var trace: seq<Line> := [];
    assert lines[0..] == lines;
    while !eof && i < |lines|
      invariant i <= |lines| && |trace| < LIMIT
      invariant BbsRun(w, all, lines, 0, []) == if eof then CutOff(trace) else BbsRun(w, all, lines[i..], cptif, trace)
      decreases |lines| - i, !eof
    {
      Advance(lines, i);
      var l := lines[i];
      i := i + 1;
      match l.kind {
        case 'E' =>
          if !all {
            cptif := cptif - 1;
          }
        case 'I' =>
          if !all {
            cptif := cptif + 1;
            if !w.holds(trace, l.text) {
              i, cptif, eof := SkipLines(lines, i, cptif, true);
            }
          }
        case '@' =>
          if !all && cptif != 0 {
            i, cptif, eof := SkipLines(lines, i, cptif, false);
          }
        case _ =>
          if w.acts(l.kind) {
            trace := trace + [l];
          }
      }
      if |trace| == LIMIT {
        return Full(trace);
      }
    }
    o := if eof then CutOff(trace) else Ended(trace, cptif);
  }
}
