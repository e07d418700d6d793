/** How the POP3 gateway sends a message: byte-stuffed as in section 3 of RFC 1939, in
    whatever pieces the message arrives, and cut short for TOP (section 7). */
module PopSend {
  import opened Sequences

  const CR: char := '\r'
  const LF: char := '\n'
  const DOT: char := '.'
  const ESC: char := 27 as char   // ends the message
  const END: string := ".\r\n"

  // ---------- lines ----------

  /** A line with its leading dot doubled. */
  function Dotted(line: string): string {
    if line != [] && line[0] == DOT then [DOT] + line else line
  }

  /** A line as it goes out. */
  function OnWire(line: string): string { Dotted(line) + [CR, LF] }

  function AllOnWire(lines: seq<string>): string {
    if lines == [] then [] else OnWire(lines[0]) + AllOnWire(lines[1..])
  }

  /** The lines as they arrive. */
  function Text(lines: seq<string>): string {
    if lines == [] then [] else lines[0] + [CR] + Text(lines[1..])
  }

  ghost predicate Plain(s: string) {
    forall i :: 0 <= i < |s| ==> s[i] != CR && s[i] != ESC
  }

  ghost predicate PlainLines(lines: seq<string>) {
    forall i :: 0 <= i < |lines| ==> Plain(lines[i])
  }

  /** How many lines TOP `n` sends: through the first empty line, and `n` more. RETR has a
      negative `n` and sends everything. */
  function TopCount(lines: seq<string>, head: bool, n: int): nat {
    if lines == [] then 0
    else
      var headAfter := head && lines[0] != [];
      if !headAfter && n == 0 then 1
      else 1 + TopCount(lines[1..], headAfter, if headAfter then n else n - 1)
  }

  /** Whether the end comes within these lines. */
  function TopEnds(lines: seq<string>, head: bool, n: int): bool {
    if lines == [] then false
    else
      var headAfter := head && lines[0] != [];
      (!headAfter && n == 0) || TopEnds(lines[1..], headAfter, if headAfter then n else n - 1)
  }

  // ---------- byte by byte ----------

  /** Between two bytes: after a line end, still in the headers, lines left, still sending. */
  datatype State = State(cr: bool, head: bool, nbLines: int, open: bool)

  function Starting(n: int): State { State(true, true, n, true) }

  datatype Step = Step(next: State, out: string)

  /** What becomes of one byte of text: a dot is doubled after a line end, a line feed joins
      a carriage return. */
  function Emit(cr: bool, c: char): string {
    if cr && c == DOT then [DOT, DOT] else if c == CR then [CR, LF] else [c]
  }

  function Send1(s: State, c: char): Step {
    if !s.open then Step(s, [])
    else if c == ESC then Step(s.(open := false), END)
    else if c == CR then
      var head := s.head && !s.cr;
      if !head && s.nbLines == 0 then Step(s.(open := false), Emit(s.cr, c) + END)
      else Step(State(true, head, if head then s.nbLines else s.nbLines - 1, true), Emit(s.cr, c))
    else
      Step(s.(cr := false), Emit(s.cr, c))
  }

  function Send(s: State, input: string): Step {
    if input == [] then Step(s, [])
    else
      var before := Send(s, input[..|input| - 1]);
      var last := Send1(before.next, input[|input| - 1]);
      Step(last.next, before.out + last.out)
  }

  lemma {:induction false} SendConcat(s: State, a: string, b: string)
    ensures var first := Send(s, a);
            var second := Send(first.next, b);
            Send(s, a + b) == Step(second.next, first.out + second.out)
    decreases |b|
  {
    if b == [] {
      assert a + b == a;
    } else {
      hide Send1;
      var n := |b| - 1;
      assert (a + b)[..|a + b| - 1] == a + b[..n];
      SendConcat(s, a, b[..n]);
      var first := Send(s, a);
      var mid := Send(first.next, b[..n]);
      Assoc(first.out, mid.out, Send1(mid.next, b[n]).out);
    }
  }

  function Joined(chunks: seq<string>): string {
    if chunks == [] then [] else Joined(chunks[..|chunks| - 1]) + chunks[|chunks| - 1]
  }

  function SendAll(s: State, chunks: seq<string>): Step {
    if chunks == [] then Step(s, [])
    else
      var before := SendAll(s, chunks[..|chunks| - 1]);
      var last := Send(before.next, chunks[|chunks| - 1]);
      Step(last.next, before.out + last.out)
  }

  /** However the message is cut into pieces, the same goes out. */
  lemma {:induction false} AnyChunks(s: State, chunks: seq<string>)
    ensures SendAll(s, chunks) == Send(s, Joined(chunks))
    decreases |chunks|
  {
    if chunks == [] {
    } else {
      AnyChunks(s, chunks[..|chunks| - 1]);
      SendConcat(s, Joined(chunks[..|chunks| - 1]), chunks[|chunks| - 1]);
    }
  }

  // ---------- whole messages ----------

  lemma SendOne(s: State, c: char)
    ensures Send(s, [c]) == Send1(s, c)
  {
    assert [c][..0] == [];
  }

  lemma SendSnoc(s: State, a: string, c: char)
    ensures var before := Send(s, a);
            var last := Send1(before.next, c);
            Send(s, a + [c]) == Step(last.next, before.out + last.out)
  {
    assert (a + [c])[..|a|] == a;
  }

  lemma DottedSnoc(line: string, c: char)
    ensures Dotted(line + [c]) == (if line == [] then Emit(true, c) else Dotted(line) + [c]) || c == CR
  {}

  lemma {:induction false} SendPlain(s: State, line: string)
    requires s.open && s.cr && Plain(line)
    ensures Send(s, line) == Step(s.(cr := line == []), Dotted(line))
    decreases |line|
  {
    if line == [] {
    } else {
      hide Send, Dotted;
      var init, c := line[..|line| - 1], line[|line| - 1];
      assert line == init + [c];
      SendPlain(s, init);
      SendSnoc(s, init, c);
      DottedSnoc(init, c);
    }
  }

  /** One line, with its end. */
  lemma SendLine(s: State, line: string)
    requires s.open && s.cr && Plain(line)
    ensures var head := s.head && line != [];
            Send(s, line + [CR]) ==
              if !head && s.nbLines == 0 then Step(s.(cr := line == [], open := false), OnWire(line) + END)
              else Step(State(true, head, if head then s.nbLines else s.nbLines - 1, true), OnWire(line))
  {
    SendPlain(s, line);
    SendConcat(s, line, [CR]);
    SendOne(s.(cr := line == []), CR);
    Assoc(Dotted(line), [CR, LF], END);
  }

  lemma {:induction false} ClosedSends(s: State, input: string)
    requires !s.open
    ensures Send(s, input) == Step(s, [])
  {
    if input == [] {
    } else {
      ClosedSends(s, input[..|input| - 1]);
    }
  }

  lemma FirstLine(line: string, lines: seq<string>, k: nat)
    requires k <= |lines|
    ensures Text([line] + lines) == line + [CR] + Text(lines)
    ensures AllOnWire(([line] + lines)[..k + 1]) == OnWire(line) + AllOnWire(lines[..k])
  {
    hide OnWire;
    assert ([line] + lines)[1..] == lines;
    assert ([line] + lines)[..k + 1] == [line] + lines[..k];
    FirstOnWire(line, lines[..k]);
  }

  lemma FirstOnWire(line: string, lines: seq<string>)
    ensures AllOnWire([line] + lines) == OnWire(line) + AllOnWire(lines)
  {
    hide OnWire;
    assert ([line] + lines)[1..] == lines;
  }

  lemma TopFirst(line: string, lines: seq<string>, head: bool, n: int)
    ensures var headAfter := head && line != []; var m := if headAfter then n else n - 1;
            && TopCount([line] + lines, head, n) ==
                 (if !headAfter && n == 0 then 1 else 1 + TopCount(lines, headAfter, m))
            && TopEnds([line] + lines, head, n) == ((!headAfter && n == 0) || TopEnds(lines, headAfter, m))
  {
    assert ([line] + lines)[1..] == lines;
  }

  /** The lines go out stuffed, in order, as many as TOP asks for; and the end mark follows the
      last of those at once, if it is reached. */
  ghost predicate Sends(s: State, lines: seq<string>) {
    var k := TopCount(lines, s.head, s.nbLines);
    var ends := TopEnds(lines, s.head, s.nbLines);
    && k <= |lines| && (!ends ==> k == |lines|)
    && Send(s, Text(lines)).out == AllOnWire(lines[..k]) + (if ends then END else [])
    && Send(s, Text(lines)).next.open == !ends
  }

  lemma SendsFirst(s: State, line: string, lines: seq<string>)
    requires s.open && s.cr && Plain(line)
    requires var mid := Send(s, line + [CR]).next; mid.open ==> Sends(mid, lines)
    ensures Sends(s, [line] + lines)
  {
    hide Send, OnWire, Text, AllOnWire, TopCount, TopEnds;
    var mid := Send(s, line + [CR]).next;
    SendLine(s, line);
    SendConcat(s, line + [CR], Text(lines));
    TopFirst(line, lines, s.head, s.nbLines);
    if mid.open {
      var k := TopCount(lines, mid.head, mid.nbLines);
      FirstLine(line, lines, k);
      Assoc(OnWire(line), AllOnWire(lines[..k]), if TopEnds(lines, mid.head, mid.nbLines) then END else []);
    } else {
      ClosedSends(mid, Text(lines));
      FirstLine(line, lines, 0);
      NoLines(lines);
    }
  }

  /** A message of any lines. */
  lemma {:induction false} SendLines(s: State, lines: seq<string>)
    requires s.open && s.cr && PlainLines(lines)
    ensures Sends(s, lines)
    decreases |lines|
  {
    if lines != [] {
      assert Plain(lines[0]);
      SendLine(s, lines[0]);
      var mid := Send(s, lines[0] + [CR]).next;
      if mid.open { SendLines(mid, lines[1..]); }
      SendsFirst(s, lines[0], lines[1..]);
      assert [lines[0]] + lines[1..] == lines;
    } else {
      assert lines[..0] == [];
    }
  }

  lemma NoLines(lines: seq<string>)
    ensures AllOnWire(lines[..0]) == []
  {}

  /** The `n` lines of TOP are counted from the first empty line: nothing ends before it. */
  lemma {:induction false} TopIsHeadersAndBody(headers: seq<string>, body: seq<string>, n: nat)
    requires forall i :: 0 <= i < |headers| ==> headers[i] != []
    ensures var lines := headers + [[]] + body;
            && TopCount(lines, true, n) == |headers| + 1 + (if n <= |body| then n else |body|)
            && TopEnds(lines, true, n) == (n <= |body|)
    decreases |headers|
  {
    var lines := headers + [[]] + body;
    if headers == [] {
      assert lines[0] == [] && lines[1..] == body;
      if n > 0 { TopBody(body, n - 1); }
    } else {
      assert lines[0] == headers[0] && lines[1..] == headers[1..] + [[]] + body;
      TopIsHeadersAndBody(headers[1..], body, n);
    }
  }

  lemma {:induction false} TopBody(body: seq<string>, n: nat)
    ensures TopCount(body, false, n) == if n < |body| then n + 1 else |body|
    ensures TopEnds(body, false, n) == (n < |body|)
    decreases |body|
  {
    if body == [] || n == 0 {
    } else {
      TopBody(body[1..], n - 1);
    }
  }

  /** RETR never ends early. */
  lemma {:induction false} RetrSendsAll(lines: seq<string>, head: bool, n: int)
    requires n < 0
    ensures TopCount(lines, head, n) == |lines| && !TopEnds(lines, head, n)
    decreases |lines|
  {
    if lines == [] {
    } else {
      var headAfter := head && lines[0] != [];
      RetrSendsAll(lines[1..], headAfter, if headAfter then n else n - 1);
    }
  }

  /** The end of a message behind whole lines: the end mark comes once, now or before. */
  lemma MarkEnds(s: State, lines: seq<string>)
    requires s.open && s.cr && PlainLines(lines)
    ensures var k := TopCount(lines, s.head, s.nbLines);
            k <= |lines| && Send(s, Text(lines) + [ESC]).out == AllOnWire(lines[..k]) + END
  {
    hide Send, AllOnWire, Text, TopCount, TopEnds;
    SendLines(s, lines);
    var before := Send(s, Text(lines));
    SendConcat(s, Text(lines), [ESC]);
    SendOne(before.next, ESC);
    if !before.next.open {
      assert before.out + [] == before.out;
    } else {
      assert AllOnWire(lines[..TopCount(lines, s.head, s.nbLines)]) + [] == before.out;
    }
  }

  /** A message sent in full, and its end: all lines stuffed, then the end mark. */
  lemma SendMessage(lines: seq<string>)
    requires PlainLines(lines)
    ensures Send(Starting(-1), Text(lines) + [ESC]).out == AllOnWire(lines) + END
  {
    hide Send, AllOnWire, Text, TopCount, TopEnds;
    RetrSendsAll(lines, true, -1);
    MarkEnds(Starting(-1), lines);
    assert lines[..|lines|] == lines;
  }

  /** TOP: the headers, the empty line and exactly `n` lines of the body, then the end mark;
      the whole message and no end mark yet when the body is shorter. */
  lemma TopMessage(headers: seq<string>, body: seq<string>, n: nat)
    requires PlainLines(headers) && PlainLines(body) && forall i :: 0 <= i < |headers| ==> headers[i] != []
    ensures Send(Starting(n), Text(headers + [[]] + body)).out ==
      if n <= |body| then AllOnWire(headers + [[]] + body[..n]) + END else AllOnWire(headers + [[]] + body)
  {
    hide Send, AllOnWire, Text, TopCount, TopEnds;
    var lines := headers + [[]] + body;
    assert PlainLines(lines);
    SendLines(Starting(n), lines);
    TopIsHeadersAndBody(headers, body, n);
    if n <= |body| {
      assert lines[..|headers| + 1 + n] == headers + [[]] + body[..n];
    } else {
      assert lines[..|lines|] == lines;
    }
  }

  /** The shortest message, byte for byte. */
  lemma SendOneLine(line: string)
    requires Plain(line)
    ensures Send(Starting(-1), line + "\r" + [27 as char]).out ==
            (if "." <= line then "." else "") + line + "\r\n.\r\n"
  {
    var lines := [line];
    assert lines[1..] == [];
    assert Text(lines) == line + [CR] + [] && line + [CR] + [] == line + "\r";
    SendMessage(lines);
    assert AllOnWire(lines) == OnWire(line) + [];
    assert OnWire(line) + [] + END == Dotted(line) + "\r\n.\r\n";
    if line != [] && line[0] == DOT { assert line[..1] == "."; }
    if !("." <= line) { assert [] + line == line; }
  }

  /** A message that ends in an unfinished line: that line goes out too, without a line end, and
      the end mark right behind it. */
  lemma SendUnfinished(lines: seq<string>, part: string)
    requires PlainLines(lines) && Plain(part)
    ensures Send(Starting(-1), Text(lines) + part + [ESC]).out == AllOnWire(lines) + Dotted(part) + END
  {
    hide Send, AllOnWire, Text, TopCount, TopEnds, Dotted;
    var before := Send(Starting(-1), Text(lines));
    RetrSendsAll(lines, true, -1);
    SendLines(Starting(-1), lines);
    assert lines[..|lines|] == lines;
    BehindText(Starting(-1), lines);
    SendPlain(before.next, part);
    SendConcat(Starting(-1), Text(lines), part);
    SendConcat(Starting(-1), Text(lines) + part, [ESC]);
    SendOne(Send(Starting(-1), Text(lines) + part).next, ESC);
  }

  /** Behind whole lines the next byte begins a line. */
  lemma {:induction false} BehindText(s: State, lines: seq<string>)
    requires s.open && s.cr && PlainLines(lines) && Send(s, Text(lines)).next.open
    ensures Send(s, Text(lines)).next.cr
    decreases |lines|
  {
    if lines == [] {
    } else {
      hide Send;
      assert Plain(lines[0]);
      SendLine(s, lines[0]);
      SendConcat(s, lines[0] + [CR], Text(lines[1..]));
      var mid := Send(s, lines[0] + [CR]).next;
      if mid.open { BehindText(mid, lines[1..]); } else { ClosedSends(mid, Text(lines[1..])); }
    }
  }

  lemma FrontOf(headers: seq<string>, body: seq<string>, m: nat)
    requires m <= |body|
    ensures (headers + [[]] + body)[..|headers| + 1 + m] == headers + [[]] + body[..m]
  {}

  lemma PlainParts(headers: seq<string>, body: seq<string>)
    requires PlainLines(headers) && PlainLines(body)
    ensures PlainLines(headers + [[]] + body)
  {}

  function Min(a: nat, b: nat): nat { if a <= b then a else b }

  /** TOP with the end of the message behind it: the end mark comes once, whether the lines asked
      for or the message ended first. */
  lemma TopEndsOnce(headers: seq<string>, body: seq<string>, n: nat)
    requires PlainLines(headers) && PlainLines(body) && forall i :: 0 <= i < |headers| ==> headers[i] != []
    ensures Send(Starting(n), Text(headers + [[]] + body) + [ESC]).out ==
            AllOnWire(headers + [[]] + body[..Min(n, |body|)]) + END
  {
    hide Send, AllOnWire, Text, TopCount, TopEnds, PlainLines;
    PlainParts(headers, body);
    TopIsHeadersAndBody(headers, body, n);
    MarkEnds(Starting(n), headers + [[]] + body);
    FrontOf(headers, body, Min(n, |body|));
  }

  // ---------- the code ----------

  function FirstEsc(s: string): (k: nat)
    ensures k <= |s| && ESC !in s[..k] && (k < |s| ==> s[k] == ESC)
  {
    if s == [] then 0
    else
      var k := FirstEsc(s[..|s| - 1]);
      assert s[..|s| - 1][..k] == s[..k];
      assert k == |s| - 1 ==> s == s[..k] + [s[k]];
      if k < |s| - 1 then k else if s[|s| - 1] == ESC then |s| - 1 else |s|
  }

  /** What has been written when a piece has been read this far: whole lines only. */
  function Written(s: State, input: string): string {
    if input == [] then []
    else if input[|input| - 1] == CR then Send(s, input).out
    else Written(s, input[..|input| - 1])
  }

  /** What one call writes. The text of an unfinished line is written at the end of the piece,
      but not when the end of the message comes first. */
  function CallWrites(s: State, piece: string): string {
    var k := FirstEsc(piece);
    if k == |piece| || !Send(s, piece[..k]).next.open then Send(s, piece).out
    else Written(s, piece[..k]) + END
  }

  lemma {:induction false} WrittenShort(s: State, input: string)
    requires Send(s, input).next.open
    ensures Written(s, input) <= Send(s, input).out
    ensures Written(s, input) == Send(s, input).out <==> input == [] || input[|input| - 1] == CR || input[|input| - 1] == ESC
    decreases |input|
  {
    if input == [] {
    } else {
      var front := input[..|input| - 1];
      if input[|input| - 1] != CR {
        WrittenShort(s, front);
      }
    }
  }

  /** A call writes what it should exactly when the end of the message, if it comes while the
      message is open, comes first in the piece or right behind a line end; otherwise the
      part of the line before it is lost. */
  lemma EndBehindLine(s: State, piece: string)
    requires s.open
    ensures var k := FirstEsc(piece);
            CallWrites(s, piece) == Send(s, piece).out <==>
              k == |piece| || !Send(s, piece[..k]).next.open || k == 0 || piece[k - 1] == CR
  {
    hide FirstEsc, Send, Written;
    var k := FirstEsc(piece);
    if k < |piece| && Send(s, piece[..k]).next.open {
      WrittenShort(s, piece[..k]);
      EscHere(s, piece, k);
      SameFront(Written(s, piece[..k]), Send(s, piece[..k]).out, END);
      if k > 0 { assert piece[k - 1] in piece[..k]; }
    } else {
      assert CallWrites(s, piece) == Send(s, piece).out;
    }
  }

  lemma {:induction false} WrittenToLine(s: State, front: string, part: string)
    requires (front == [] || front[|front| - 1] == CR) && CR !in part
    ensures Written(s, front + part) == Send(s, front).out
    decreases |part|
  {
    if part == [] {
      assert front + part == front;
    } else {
      hide Send;
      var n := |part| - 1;
      assert (front + part)[..|front + part| - 1] == front + part[..n] && part[n] in part;
      WrittenToLine(s, front, part[..n]);
    }
  }

  /** And what is lost is exactly that part: the lines before it go out, then the end mark. */
  lemma PartLost(s: State, front: string, part: string, rest: string)
    requires (front == [] || front[|front| - 1] == CR) && CR !in part && ESC !in front + part
    requires Send(s, front + part).next.open
    ensures CallWrites(s, front + part + ([ESC] + rest)) == Send(s, front).out + END
  {
    hide Send, Written, CallWrites;
    var piece := front + part + ([ESC] + rest);
    assert piece[..|front + part|] == front + part;
    WrittenToLine(s, front, part);
    EscHere(s, piece, |front + part|);
  }

  lemma SameFront(a: string, b: string, c: string)
    ensures a + c == b + c <==> a == b
  {
    if a + c == b + c {
      assert |a| == |b|;
      assert a == (a + c)[..|a|] && b == (b + c)[..|b|];
    }
  }

  lemma OneMore(s: State, piece: string, i: nat)
    requires i < |piece|
    ensures var before := Send(s, piece[..i]);
            var last := Send1(before.next, piece[i]);
            Send(s, piece[..i + 1]) == Step(last.next, before.out + last.out)
    ensures Written(s, piece[..i + 1]) ==
              if piece[i] == CR then Send(s, piece[..i + 1]).out else Written(s, piece[..i])
  {
    assert piece[..i + 1][..i] == piece[..i];
  }

  /** Reading has come to byte `i` of the piece: what is written, what is held back. */
  ghost predicate At(start: State, piece: string, i: nat, now: State, held: string, wrote: string) {
    && i <= |piece| && ESC !in piece[..i] && now.open && Send(start, piece[..i]).next == now
    && wrote == Written(start, piece[..i]) && Send(start, piece[..i]).out == wrote + held
  }

  lemma AtStart(start: State, piece: string)
    requires start.open
    ensures At(start, piece, 0, start, "", "")
  {
    assert piece[..0] == "";
  }

  lemma AtEsc(start: State, piece: string, i: nat, now: State, held: string, wrote: string)
    requires At(start, piece, i, now, held, wrote) && i < |piece| && piece[i] == ESC
    ensures CallWrites(start, piece) == wrote + END && !Send(start, piece).next.open
  {
    EscHere(start, piece, i);
  }

  lemma AtEnd(start: State, piece: string, now: State, held: string, wrote: string)
    requires At(start, piece, |piece|, now, held, wrote)
    ensures CallWrites(start, piece) == wrote + held && Send(start, piece).next == now
  {
    assert piece[..|piece|] == piece;
  }

  lemma AtNext(start: State, piece: string, i: nat, now: State, held: string, wrote: string)
    requires At(start, piece, i, now, held, wrote) && i < |piece| && piece[i] != ESC
    ensures var e, next := Emit(now.cr, piece[i]), Send1(now, piece[i]).next;
            if piece[i] != CR then At(start, piece, i + 1, next, held + e, wrote)
            else if next.open then At(start, piece, i + 1, next, "", wrote + (held + e))
            else CallWrites(start, piece) == wrote + (held + e) + END && !Send(start, piece).next.open
  {
    hide Send, Written, CallWrites, Emit;
    var e := Emit(now.cr, piece[i]);
    OneMore(start, piece, i);
    assert piece[..i + 1] == piece[..i] + [piece[i]];
    Assoc(wrote, held, e);
    Assoc(wrote + held, e, END);
    if !Send1(now, piece[i]).next.open {
      ClosedHere(start, piece, i + 1);
    }
  }

  /** Byte `i` finds room in the line buffer, as does the end of the string behind the line
      or the piece. */
  ghost predicate Room(s: State, piece: string, i: nat)
    requires i < |piece|
  {
    var before := Send(s, piece[..i]);
    var line := |before.out| - |Written(s, piece[..i])| + |Emit(before.next.cr, piece[i])|;
    line <= 600 && (piece[i] == CR || i + 1 == |piece| ==> line < 600)
  }

  /** Every byte that is collected finds room: all before the message ends. */
  ghost predicate Fits(s: State, piece: string) {
    forall i :: 0 <= i < |piece| && ESC !in piece[..i + 1] && Send(s, piece[..i]).next.open ==> Room(s, piece, i)
  }

  lemma RoomAt(s: State, piece: string, i: nat, now: State, held: string, wrote: string)
    requires Fits(s, piece) && At(s, piece, i, now, held, wrote) && i < |piece| && piece[i] != ESC
    ensures |held| + |Emit(now.cr, piece[i])| <= 600
    ensures piece[i] == CR || i + 1 == |piece| ==> |held| + |Emit(now.cr, piece[i])| < 600
  {
    hide Send, Written, Emit;
    assert piece[..i + 1] == piece[..i] + [piece[i]];
    assert Room(s, piece, i);
  }

  /** The end of the message, if it comes, comes where a call loses nothing. */
  ghost predicate EndsWell(s: State, piece: string) {
    var k := FirstEsc(piece);
    k == |piece| || !Send(s, piece[..k]).next.open || k == 0 || piece[k - 1] == CR
  }

  class Channel {
    var cr: bool
    var head: bool
    var nbLines: int
    var inMessage: bool    // state POP_MSG
    var socket: string     // everything written

    function Now(): State
      reads this
    {
      State(cr, head, nbLines, inMessage)
    }

    /** RETR, or TOP with its line count. */
    method Begin(n: int)
      modifies this`cr, this`head, this`nbLines, this`inMessage
      ensures Now() == Starting(n)
    {
      nbLines, cr, head, inMessage := n, true, true, true;
    }

    /** `pop_snd_dt` in state POP_MSG: lines are collected in `buf` and written at their end;
        the fields are only written back when the message goes on. */
    method SndDt(buffer: string)
      requires inMessage && Fits(Now(), buffer)
      modifies this
      ensures socket == old(socket) + CallWrites(old(Now()), buffer)
      ensures inMessage == Send(old(Now()), buffer).next.open
      ensures inMessage ==> Now() == Send(old(Now()), buffer).next
    {
      hide Emit, Send;
      ghost var start, wrote := Now(), "";
      AtStart(start, buffer);
      hide At, Send, Written, CallWrites, Emit, Fits;
      var crNow, headNow, lines := cr, head, nbLines;
      var buf := new char[600](_ => '\0');
      var ptr: nat := 0;
      assert buf[..0] == "";
      for i := 0 to |buffer|
        invariant buf.Length == 600 && 0 <= ptr <= 600 && inMessage
        invariant At(start, buffer, i, State(crNow, headNow, lines, true), buf[..ptr], wrote)
        invariant socket == old(socket) + wrote
      {
        var c := buffer[i];
        ghost var now, held := State(crNow, headNow, lines, true), buf[..ptr];
        if c == ESC {
          AtEsc(start, buffer, i, now, held, wrote);
          Assoc(old(socket), wrote, END);
          socket := socket + END;
          inMessage := false;
          return;
        }
        AtNext(start, buffer, i, now, held, wrote);
        RoomAt(start, buffer, i, now, held, wrote);
        ptr := Collect(buf, ptr, c, crNow);
        if c == CR {
          Assoc(old(socket), wrote, buf[..ptr]);
          wrote := wrote + buf[..ptr];
          socket := socket + buf[..ptr];
          ptr := 0;
          if crNow {
            headNow := false;
          }
          crNow := true;
          assert buf[..0] == "";
          if !headNow {
            lines := lines - 1;
            if lines + 1 == 0 {
              Assoc(old(socket), wrote, END);
              socket := socket + END;
              inMessage := false;
              return;
            }
          }
        } else {
          crNow := false;
        }
      }
      AtEnd(start, buffer, State(crNow, headNow, lines, true), buf[..ptr], wrote);
      Assoc(old(socket), wrote, buf[..ptr]);
      socket := socket + buf[..ptr];
      cr, head, nbLines := crNow, headNow, lines;
    }

    /** A message in pieces, until it ends: what goes out is what the whole text makes. */
    method SendPieces(chunks: seq<string>)
      requires inMessage
      requires forall i :: 0 <= i < |chunks| ==>
        var s := SendAll(Now(), chunks[..i]).next; s.open ==> Fits(s, chunks[i]) && EndsWell(s, chunks[i])
      modifies this
      ensures socket == old(socket) + Send(old(Now()), Joined(chunks)).out
      ensures inMessage == Send(old(Now()), Joined(chunks)).next.open
    {
      ghost var start := Now();
      hide Fits, EndsWell, Send, CallWrites;
      AnyChunks(start, chunks);
      for i := 0 to |chunks|
        invariant socket == old(socket) + SendAll(start, chunks[..i]).out
        invariant inMessage == SendAll(start, chunks[..i]).next.open
        invariant inMessage ==> Now() == SendAll(start, chunks[..i]).next
      {
        assert chunks[..i + 1][..i] == chunks[..i];
        ghost var before := SendAll(start, chunks[..i]);
        if inMessage {
          WellEnded(before.next, chunks[i]);
          Assoc(old(socket), before.out, Send(before.next, chunks[i]).out);
          SndDt(chunks[i]);
        } else {
          ClosedSends(before.next, chunks[i]);
        }
      }
      assert chunks[..|chunks|] == chunks;
    }

    /** A message asked for with RETR, or with TOP and a line count, as it comes in pieces. */
    method Transmit(n: int, chunks: seq<string>)
      requires forall i :: 0 <= i < |chunks| ==>
        var s := SendAll(Starting(n), chunks[..i]).next; s.open ==> Fits(s, chunks[i]) && EndsWell(s, chunks[i])
      modifies this
      ensures socket == old(socket) + Send(Starting(n), Joined(chunks)).out
      ensures inMessage == Send(Starting(n), Joined(chunks)).next.open
    {
      Begin(n);
      SendPieces(chunks);
    }

    method Collect(buf: array<char>, ptr: nat, c: char, cr: bool) returns (n: nat)
      requires ptr + |Emit(cr, c)| <= buf.Length
      modifies buf
      ensures n == ptr + |Emit(cr, c)| && buf[..n] == old(buf[..ptr]) + Emit(cr, c)
    {
      n := ptr;
      if cr && c == DOT {
        buf[n] := DOT;
        n := n + 1;
      }
      buf[n] := c;
      n := n + 1;
      if c == CR {
        buf[n] := LF;
        n := n + 1;
      }
    }
  }

  lemma WellEnded(s: State, piece: string)
    requires s.open && EndsWell(s, piece)
    ensures CallWrites(s, piece) == Send(s, piece).out
  {
    EndBehindLine(s, piece);
  }

  lemma EscHere(s: State, piece: string, k: nat)
    requires k < |piece| && piece[k] == ESC && ESC !in piece[..k] && Send(s, piece[..k]).next.open
    ensures CallWrites(s, piece) == Written(s, piece[..k]) + END
    ensures Send(s, piece).out == Send(s, piece[..k]).out + END && !Send(s, piece).next.open
  {
    var j := FirstEsc(piece);
    var rest := piece[k + 1..];
    assert piece == piece[..k] + ([ESC] + rest);
    SendConcat(s, piece[..k], [ESC] + rest);
    SendConcat(Send(s, piece[..k]).next, [ESC], rest);
    SendOne(Send(s, piece[..k]).next, ESC);
    ClosedSends(Send(s, piece[..k]).next.(open := false), rest);
  }

  lemma ClosedHere(s: State, piece: string, k: nat)
    requires k <= |piece| && ESC !in piece[..k] && !Send(s, piece[..k]).next.open
    ensures CallWrites(s, piece) == Send(s, piece[..k]).out && !Send(s, piece).next.open
  {
    var j := FirstEsc(piece);
    var mid := piece[k..j];
    assert piece == piece[..k] + piece[k..] && piece[..j] == piece[..k] + mid;
    SendConcat(s, piece[..k], piece[k..]);
    SendConcat(s, piece[..k], mid);
    ClosedSends(Send(s, piece[..k]).next, piece[k..]);
    ClosedSends(Send(s, piece[..k]).next, mid);
  }
}
