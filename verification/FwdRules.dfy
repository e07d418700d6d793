/** Choosing the stations a message is forwarded to: the rule lines of the forward file,
    station by station, with their lists of exceptions. */
module FwdRules {
  const STATIONS: nat := 80
  const MAXNOT: nat := 10

  /** A rule line: its letter, for a NOT line the letter behind it, its text, and for a
      station line the number of the station (0 if it is unknown). */
  datatype Line = Line(kind: char, second: char, text: string, bbs: nat)

  /** The message and its channel. `via` is the first part of the address `bbsv`; a station
      is known by its number: whether it is in the message's R: lines, and whether it is the
      one at the other end. `unknownDone` is what the bit test gives for number 0. */
  datatype World = World(
    bbsv: string, via: string, desti: string, bulletin: bool, homeKnown: bool, forwarding: bool,
    isRoute: nat -> bool, isSender: nat -> bool, unknownDone: bool, matches: (string, string) -> bool)

  // ---------- masks ----------

  /** A mask with the bit of station `n` set; number 0 has none. */
  function WithBit(mask: seq<bool>, n: nat): seq<bool>
    requires n <= |mask|
  {
    if n == 0 then mask else mask[n - 1 := true]
  }

  function HasBit(w: World, mask: seq<bool>, n: nat): bool
    requires n <= |mask|
  {
    if n == 0 then w.unknownDone else mask[n - 1]
  }

  // ---------- exceptions ----------

  datatype Entry = Entry(kind: char, text: string)

  /** Within a block of entries an empty text ends the search. */
  function ChunkHas(w: World, chunk: seq<Entry>, kind: char, text: string): bool {
    if chunk == [] || chunk[0].text == "" then false
    else (chunk[0].kind == kind && w.matches(text, chunk[0].text)) || ChunkHas(w, chunk[1..], kind, text)
  }

  function IsNot(w: World, nots: seq<seq<Entry>>, kind: char, text: string): bool {
    if nots == [] then false else ChunkHas(w, nots[0], kind, text) || IsNot(w, nots[1..], kind, text)
  }

  /** One more entry, in a new block when the last one is full. */
  function AddNot(nots: seq<seq<Entry>>, e: Entry): seq<seq<Entry>> {
    if nots == [] || |nots[|nots| - 1]| >= MAXNOT then nots + [[e]]
    else nots[..|nots| - 1] + [nots[|nots| - 1] + [e]]
  }

  function Clip40(s: string): string { if |s| > 40 then s[..40] else s }

  // ---------- one line ----------

  datatype State = State(
    route: bool, routeBbs: bool, nobbs: nat, notB: bool, notG: bool, notH: bool, nots: seq<seq<Entry>>,
    forw: seq<bool>, fbbs: seq<bool>, fwdOk: bool, pingPong: bool)

  predicate Sized(s: State) { |s.forw| == STATIONS && |s.fbbs| == STATIONS && s.nobbs <= STATIONS }

  /** What a line decides about the station in hand. */
  datatype Verdict = Nothing | Chosen | Done | Ping

  /** Chosen, unless the message just came from there. */
  function ChosenOrPing(w: World, s: State): Verdict {
    if !w.forwarding || !w.isSender(s.nobbs) then Chosen else Ping
  }

  function Verdict1(w: World, s: State, l: Line): Verdict {
    match l.kind
    case 'A' => if w.isRoute(l.bbs) then Done else Nothing
    case 'G' =>
      if s.route && w.via != "" && w.bulletin && !s.notG && !IsNot(w, s.nots, 'G', w.via) && w.matches(w.via, l.text)
      then (if w.isSender(s.nobbs) then Done else Chosen) else Nothing
    case 'H' =>
      if s.route && w.bbsv != "" && !w.bulletin && !s.notH && !IsNot(w, s.nots, 'H', w.bbsv) && w.matches(w.bbsv, l.text)
      then ChosenOrPing(w, s) else Nothing
    case 'B' =>
      if s.route && w.via != "" && !w.bulletin && !s.notB && !IsNot(w, s.nots, 'B', w.via) && w.matches(w.via, l.text)
      then ChosenOrPing(w, s) else Nothing
    case 'F' =>
      if !s.route || IsNot(w, s.nots, 'F', l.text) || s.notB || !w.matches(w.desti, l.text) then Nothing
      else if w.via == "" && w.homeKnown then ChosenOrPing(w, s)
      else if !s.routeBbs && !w.isSender(s.nobbs) then Chosen
      else Nothing
    case _ => Nothing
  }

  /** The flags after a line. */
  function Flags1(w: World, s: State, l: Line): (r: State)
    requires Sized(s) && l.bbs <= STATIONS
    ensures Sized(r) && r.forw == s.forw && r.fbbs == s.fbbs && r.fwdOk == s.fwdOk && r.pingPong == s.pingPong
    ensures r.nobbs == if l.kind == 'A' then l.bbs else s.nobbs
    ensures r.route == if l.kind == 'A' then !w.isRoute(l.bbs) && !HasBit(w, s.forw, l.bbs) else s.route
  {
    match l.kind
    case 'A' =>
      if w.isRoute(l.bbs) || HasBit(w, s.forw, l.bbs) then s.(route := false, routeBbs := false, nobbs := l.bbs)
      else s.(route := true, routeBbs := false, nobbs := l.bbs, nots := [], notB := false, notG := false, notH := false)
    case '!' =>
      if s.route && l.second in {'B', 'F', 'G', 'H'} then s.(nots := AddNot(s.nots, Entry(l.second, Clip40(l.text)))) else s
    case 'G' =>
      if s.route then s.(routeBbs := false, notG := s.notG || (w.via != "" && w.bulletin && IsNot(w, s.nots, 'G', w.via)))
      else s
    case 'H' =>
      if s.route then s.(routeBbs := false, notH := s.notH || (w.bbsv != "" && !w.bulletin && IsNot(w, s.nots, 'H', w.bbsv)))
      else s
    case 'B' =>
      if s.route then s.(routeBbs := true, notB := s.notB || (w.via != "" && !w.bulletin && IsNot(w, s.nots, 'B', w.via)))
      else s
    case _ => s
  }

  function Apply(s: State, v: Verdict): (r: State)
    requires Sized(s)
    ensures Sized(r)
  {
    match v
    case Nothing => s
    case Chosen => s.(fbbs := WithBit(s.fbbs, s.nobbs), fwdOk := true)
    case Done => s.(forw := WithBit(s.forw, s.nobbs))
    case Ping => s.(pingPong := true)
  }

  function Step(w: World, s: State, l: Line): (r: State)
    requires Sized(s) && l.bbs <= STATIONS
    ensures Sized(r)
  {
    Apply(Flags1(w, s, l), Verdict1(w, s, l))
  }

  function Start(forw: seq<bool>): State
  {
    State(false, false, 0, false, false, false, [], forw, seq(STATIONS, _ => false), false, false)
  }

  ghost predicate KnownNumbers(lines: seq<Line>) {
    forall i :: 0 <= i < |lines| ==> lines[i].bbs <= STATIONS
  }

  function Run(w: World, s: State, lines: seq<Line>): (r: State)
    requires Sized(s) && forall i :: 0 <= i < |lines| ==> lines[i].bbs <= STATIONS
    ensures Sized(r)
  {
    if lines == [] then s else Step(w, Run(w, s, lines[..|lines| - 1]), lines[|lines| - 1])
  }

  // ---------- safety ----------

  /** What holds of every station after every line. */
  ghost predicate SafeAt(w: World, s: State, before: seq<bool>, i: nat)
    requires Sized(s) && |before| == STATIONS && i < STATIONS
  {
    && (before[i] ==> s.forw[i])
    && (s.fbbs[i] ==> s.fwdOk && !before[i] && !w.isRoute(i + 1))
    && (s.fbbs[i] && w.isSender(i + 1) ==> !w.forwarding && !(w.bulletin && w.via != ""))
    && (s.forw[i] && !before[i] ==> w.isRoute(i + 1) || (w.isSender(i + 1) && w.bulletin && w.via != ""))
  }

  ghost predicate Safe(w: World, s: State, before: seq<bool>)
    requires |before| == STATIONS
  {
    && Sized(s)
    && (s.route && s.nobbs > 0 ==> !w.isRoute(s.nobbs) && !before[s.nobbs - 1])
    && forall i :: 0 <= i < STATIONS ==> SafeAt(w, s, before, i)
  }

  /** When the rules choose a station, and when they mark it as done. */
  lemma VerdictRight(w: World, s: State, l: Line)
    ensures var v := Verdict1(w, s, l);
            && (v == Chosen ==> s.route && l.kind != 'A')
            && (v == Chosen && w.isSender(s.nobbs) ==> !w.forwarding && !(w.bulletin && w.via != ""))
            && (v == Done ==> if l.kind == 'A' then w.isRoute(l.bbs)
                              else w.isSender(s.nobbs) && w.bulletin && w.via != "")
  {
    hide IsNot;
  }

  lemma ApplySafe(w: World, s: State, before: seq<bool>, v: Verdict)
    requires |before| == STATIONS && Safe(w, s, before)
    requires v == Chosen ==> s.route && (w.isSender(s.nobbs) ==> !w.forwarding && !(w.bulletin && w.via != ""))
    requires v == Done ==> w.isRoute(s.nobbs) || (w.isSender(s.nobbs) && w.bulletin && w.via != "")
    ensures Safe(w, Apply(s, v), before)
  {
    forall i | 0 <= i < STATIONS ensures SafeAt(w, Apply(s, v), before, i) { assert SafeAt(w, s, before, i); }
  }

  lemma StepSafe(w: World, s: State, before: seq<bool>, l: Line)
    requires |before| == STATIONS && Safe(w, s, before) && l.bbs <= STATIONS
    ensures Safe(w, Step(w, s, l), before)
  {
    hide Flags1, Verdict1, Apply;
    var t := Flags1(w, s, l);
    if l.kind == 'A' && l.bbs > 0 { assert SafeAt(w, s, before, l.bbs - 1); }
    forall i | 0 <= i < STATIONS ensures SafeAt(w, t, before, i) { assert SafeAt(w, s, before, i); }
    VerdictRight(w, s, l);
    ApplySafe(w, t, before, Verdict1(w, s, l));
  }

  lemma StartSafe(w: World, before: seq<bool>)
    requires |before| == STATIONS
    ensures Safe(w, Start(before), before)
  {
    forall i | 0 <= i < STATIONS ensures SafeAt(w, Start(before), before, i) {}
  }

  lemma {:induction false} RunSafe(w: World, before: seq<bool>, lines: seq<Line>)
    requires |before| == STATIONS && KnownNumbers(lines)
    ensures Safe(w, Run(w, Start(before), lines), before)
    decreases |lines|
  {
    hide Safe, Step;
    if lines == [] {
      StartSafe(w, before);
    } else {
      var front := lines[..|lines| - 1];
      RunSafe(w, before, front);
      StepSafe(w, Run(w, Start(before), front), before, lines[|lines| - 1]);
    }
  }

  /** Station `i + 1`, if chosen, is not also marked as done, is not in the R: lines, was not
      done before, and in a forwarding session is not the sender. */
  ghost predicate WellChosenAt(w: World, s: State, before: seq<bool>, i: nat)
    requires Sized(s) && |before| == STATIONS && i < STATIONS
  {
    s.fbbs[i] ==> !s.forw[i] && !before[i] && !w.isRoute(i + 1) && (w.forwarding ==> !w.isSender(i + 1))
  }

  ghost predicate WellChosen(w: World, s: State, before: seq<bool>)
    requires Sized(s) && |before| == STATIONS
  {
    forall i :: 0 <= i < STATIONS ==> WellChosenAt(w, s, before, i)
  }

  lemma SafeIsWellChosen(w: World, s: State, before: seq<bool>)
    requires |before| == STATIONS && Safe(w, s, before)
    ensures WellChosen(w, s, before)
  {
    forall i | 0 <= i < STATIONS ensures WellChosenAt(w, s, before, i) { assert SafeAt(w, s, before, i); }
  }

  /** Whatever the rules, starting without any station chosen. */
  lemma ChosenStations(w: World, before: seq<bool>, lines: seq<Line>)
    requires |before| == STATIONS && KnownNumbers(lines)
    ensures WellChosen(w, Run(w, Start(before), lines), before)
  {
    RunSafe(w, before, lines);
    SafeIsWellChosen(w, Run(w, Start(before), lines), before);
  }

  // ---------- exceptions by their number ----------

  /** The exceptions among the first `n` lines behind a station's line. */
  function Entries(ls: seq<Line>, n: nat): (es: seq<Entry>)
    requires n <= |ls|
  {
    if n == 0 then []
    else Entries(ls, n - 1) +
         (if ls[n - 1].kind == '!' && ls[n - 1].second in {'B', 'F', 'G', 'H'}
          then [Entry(ls[n - 1].second, Clip40(ls[n - 1].text))] else [])
  }

  /** Exception `e` is looked at: exceptions are kept by tens, and an empty one hides itself and
      those behind it among its ten. */
  predicate Seen(es: seq<Entry>, e: nat)
    requires e < |es|
  {
    forall d :: e - e % MAXNOT <= d <= e ==> es[d].text != ""
  }

  predicate Hits(w: World, e: Entry, kind: char, text: string) {
    e.kind == kind && w.matches(text, e.text)
  }

  ghost predicate Excepted(w: World, es: seq<Entry>, kind: char, text: string) {
    exists e :: 0 <= e < |es| && Hits(w, es[e], kind, text) && Seen(es, e)
  }

  /** Block `c` of the entries, by tens. */
  function Chunk(es: seq<Entry>, c: nat): seq<Entry>
    requires MAXNOT * c <= |es|
  {
    es[MAXNOT * c..if MAXNOT * c + MAXNOT < |es| then MAXNOT * c + MAXNOT else |es|]
  }

  ghost predicate Chunked(nots: seq<seq<Entry>>, es: seq<Entry>) {
    && |nots| == (|es| + MAXNOT - 1) / MAXNOT
    && forall c :: 0 <= c < |nots| ==> nots[c] == Chunk(es, c)
  }

  lemma ChunkStays(es: seq<Entry>, e: Entry, c: nat)
    requires MAXNOT * c + MAXNOT <= |es|
    ensures Chunk(es + [e], c) == Chunk(es, c) && |Chunk(es, c)| == MAXNOT
  {}

  lemma ChunkGrows(es: seq<Entry>, e: Entry, c: nat)
    requires MAXNOT * c <= |es| < MAXNOT * c + MAXNOT
    ensures Chunk(es + [e], c) == Chunk(es, c) + [e] && |Chunk(es, c)| == |es| - MAXNOT * c
  {}

  lemma ChunkedAdd(nots: seq<seq<Entry>>, es: seq<Entry>, e: Entry)
    requires Chunked(nots, es)
    ensures Chunked(AddNot(nots, e), es + [e])
  {
    hide Chunk;
    var last := |es| / MAXNOT;
    forall c | 0 <= c < last ensures Chunk(es + [e], c) == nots[c] && |nots[c]| == MAXNOT { ChunkStays(es, e, c); }
    ChunkGrows(es, e, last);
    var r := AddNot(nots, e);
    if |es| % MAXNOT == 0 {
      assert r == nots + [[e]];
      assert Chunk(es, last) + [e] == [e];
    } else {
      assert r == nots[..last] + [nots[last] + [e]];
    }
  }

  lemma {:induction false} ChunkHasIs(w: World, chunk: seq<Entry>, kind: char, text: string)
    ensures ChunkHas(w, chunk, kind, text) <==>
      exists d :: 0 <= d < |chunk| && Hits(w, chunk[d], kind, text) && forall b :: 0 <= b <= d ==> chunk[b].text != ""
  {
    if chunk == [] || chunk[0].text == "" {
    } else {
      var rest := chunk[1..];
      ChunkHasIs(w, rest, kind, text);
      if Hits(w, chunk[0], kind, text) {
        assert forall b :: 0 <= b <= 0 ==> chunk[b].text != "";
      }
      if d :| 0 <= d < |rest| && Hits(w, rest[d], kind, text) && forall b :: 0 <= b <= d ==> rest[b].text != "" {
        forall b | 0 <= b <= d + 1 ensures chunk[b].text != "" { if b > 0 { assert rest[b - 1] == chunk[b]; } }
        assert Hits(w, chunk[d + 1], kind, text);
      }
      if d :| 1 <= d < |chunk| && Hits(w, chunk[d], kind, text) && forall b :: 0 <= b <= d ==> chunk[b].text != "" {
        assert Hits(w, rest[d - 1], kind, text) && forall b :: 0 <= b <= d - 1 ==> rest[b].text == chunk[b + 1].text;
      }
    }
  }

  lemma {:induction false} IsNotIs(w: World, nots: seq<seq<Entry>>, kind: char, text: string)
    ensures IsNot(w, nots, kind, text) <==> exists c :: 0 <= c < |nots| && ChunkHas(w, nots[c], kind, text)
  {
    if nots == [] {
    } else {
      IsNotIs(w, nots[1..], kind, text);
      if c :| 0 <= c < |nots[1..]| && ChunkHas(w, nots[1..][c], kind, text) {
        assert ChunkHas(w, nots[c + 1], kind, text);
      }
      if c :| 1 <= c < |nots| && ChunkHas(w, nots[c], kind, text) {
        assert ChunkHas(w, nots[1..][c - 1], kind, text);
      }
    }
  }

  /** Entry `e` lies in block `e / 10`, and is seen exactly if nothing empty comes before it there. */
  lemma SeenInChunk(nots: seq<seq<Entry>>, es: seq<Entry>, e: nat)
    requires Chunked(nots, es) && e < |es|
    ensures e / MAXNOT < |nots| && e % MAXNOT < |nots[e / MAXNOT]| && nots[e / MAXNOT][e % MAXNOT] == es[e]
    ensures Seen(es, e) <==> forall b :: 0 <= b <= e % MAXNOT ==> nots[e / MAXNOT][b].text != ""
  {
    var c, d := e / MAXNOT, e % MAXNOT;
    assert e - d == MAXNOT * c;
    forall b | 0 <= b <= d ensures nots[c][b] == es[MAXNOT * c + b] {}
    if forall b :: 0 <= b <= d ==> nots[c][b].text != "" {
      forall b | e - d <= b <= e ensures es[b].text != "" { assert nots[c][b - MAXNOT * c] == es[b]; }
    }
  }

  lemma EntryOf(nots: seq<seq<Entry>>, es: seq<Entry>, c: nat, d: nat)
    requires Chunked(nots, es) && c < |nots| && d < |nots[c]|
    ensures var e := MAXNOT * c + d; e < |es| && e / MAXNOT == c && e % MAXNOT == d
  {}

  /** An exception counts exactly if it is seen, in whichever block of entries it is kept. */
  lemma ExceptionsAre(w: World, nots: seq<seq<Entry>>, es: seq<Entry>, kind: char, text: string)
    requires Chunked(nots, es)
    ensures IsNot(w, nots, kind, text) <==> Excepted(w, es, kind, text)
  {
    hide ChunkHas, IsNot, Hits, Chunked, Seen;
    IsNotIs(w, nots, kind, text);
    if c :| 0 <= c < |nots| && ChunkHas(w, nots[c], kind, text) {
      ChunkHasIs(w, nots[c], kind, text);
      var d :| 0 <= d < |nots[c]| && Hits(w, nots[c][d], kind, text)
               && forall b :: 0 <= b <= d ==> nots[c][b].text != "";
      EntryOf(nots, es, c, d);
      SeenInChunk(nots, es, MAXNOT * c + d);
    }
    if e :| 0 <= e < |es| && Hits(w, es[e], kind, text) && Seen(es, e) {
      SeenInChunk(nots, es, e);
      ChunkHasIs(w, nots[e / MAXNOT], kind, text);
    }
  }

  /** A NOT line without text hides the next one from every rule. */
  lemma EmptyHides(w: World, e: Entry, first: char, kind: char, text: string)
    ensures !Excepted(w, [Entry(first, ""), e], kind, text)
  {
    var es := [Entry(first, ""), e];
    forall i | 0 <= i < |es| ensures !Seen(es, i) { assert es[0].text == "" && i - i % MAXNOT == 0; }
  }

  lemma {:induction false} EntriesGrow(ls: seq<Line>, m: nat, n: nat)
    requires m <= n <= |ls|
    ensures Entries(ls, m) <= Entries(ls, n)
    decreases n
  {
    if m < n { EntriesGrow(ls, m, n - 1); }
  }

  lemma ExceptedGrows(w: World, es: seq<Entry>, fs: seq<Entry>, kind: char, text: string)
    requires es <= fs && Excepted(w, es, kind, text)
    ensures Excepted(w, fs, kind, text)
  {
    var e :| 0 <= e < |es| && Hits(w, es[e], kind, text) && Seen(es, e);
    assert Seen(fs, e);
  }

  // ---------- what a block of rules means ----------

  /** An exception of this kind for this text stands before line `i` and is seen. */
  ghost predicate ExceptedAt(w: World, ls: seq<Line>, i: nat, kind: char, text: string)
    requires i <= |ls|
  {
    Excepted(w, Entries(ls, i), kind, text)
  }

  /** A B line is in force at line `i`: the last G, H or B line before it. */
  ghost predicate BbsInForce(ls: seq<Line>, i: nat)
    requires i <= |ls|
  {
    exists j :: 0 <= j < i && ls[j].kind == 'B' && forall m :: j < m < i ==> ls[m].kind != 'G' && ls[m].kind != 'H'
  }

  /** A B line before line `i` has met an exception for the message's address. */
  ghost predicate BbsExcepted(w: World, ls: seq<Line>, i: nat)
    requires i <= |ls|
  {
    w.via != "" && !w.bulletin && exists j :: 0 <= j < i && ls[j].kind == 'B' && ExceptedAt(w, ls, j, 'B', w.via)
  }

  /** The message goes by its addressee's home: there is no @ address, and the home is known. */
  predicate ByHome(w: World) { w.via == "" && w.homeKnown }

  /** Line `i` names the message. G lines go by the @ station of a bulletin, H lines by the whole
      hierarchical address and B lines by the @ station of another message, F lines by the
      addressee: without further conditions if the message goes by its home, else only while no
      B line is in force and none has met an exception. In each case no exception of its kind
      stands before it, which for an F line is one for the line's own text. */
  ghost predicate Names(w: World, ls: seq<Line>, i: nat)
    requires i < |ls|
  {
    match ls[i].kind
    case 'G' => w.bulletin && w.via != "" && w.matches(w.via, ls[i].text) && !ExceptedAt(w, ls, i, 'G', w.via)
    case 'H' => !w.bulletin && w.bbsv != "" && w.matches(w.bbsv, ls[i].text) && !ExceptedAt(w, ls, i, 'H', w.bbsv)
    case 'B' => !w.bulletin && w.via != "" && w.matches(w.via, ls[i].text) && !ExceptedAt(w, ls, i, 'B', w.via)
    case 'F' => w.matches(w.desti, ls[i].text) && !ExceptedAt(w, ls, i, 'F', ls[i].text)
                && (ByHome(w) || (!BbsInForce(ls, i) && !BbsExcepted(w, ls, i)))
    case _ => false
  }

  /** What becomes of a station a line names: it is chosen, unless the message came from there;
      then a G line marks it as done, an F line that does not go by the home leaves it, and the
      others leave it too, or in a session that is not a forwarding one choose it all the same. */
  function Outcome(w: World, station: nat, kind: char): Verdict {
    if !w.isSender(station) then Chosen
    else if kind == 'G' then Done
    else if kind == 'F' && !ByHome(w) then Nothing
    else if w.forwarding then Ping else Chosen
  }

  /** Some line among the first `n` names the message, with this outcome for the station. */
  ghost predicate Some(w: World, ls: seq<Line>, n: nat, station: nat, v: Verdict)
    requires n <= |ls|
  {
    exists i :: 0 <= i < n && Names(w, ls, i) && Outcome(w, station, ls[i].kind) == v
  }

  /** Right behind the line of a station that may be chosen. */
  predicate Fresh(s: State) {
    Sized(s) && s.route && s.nots == [] && !s.routeBbs && !s.notB && !s.notG && !s.notH
  }

  /** Lines behind a station's line and before the next one. */
  ghost predicate Block(ls: seq<Line>) {
    forall i :: 0 <= i < |ls| ==> ls[i].kind != 'A' && ls[i].bbs <= STATIONS
  }

  /** The flags behind the first `n` lines, by the positions of the lines. */
  ghost predicate FlagsAt(w: World, s: State, t: State, ls: seq<Line>, n: nat)
    requires n <= |ls|
  {
    && Sized(t) && t.route && t.nobbs == s.nobbs && Chunked(t.nots, Entries(ls, n))
    && (t.routeBbs <==> BbsInForce(ls, n)) && (t.notB <==> BbsExcepted(w, ls, n))
    && (t.notG ==> w.bulletin && ExceptedAt(w, ls, n, 'G', w.via))
    && (t.notH ==> !w.bulletin && ExceptedAt(w, ls, n, 'H', w.bbsv))
  }

  lemma InForceNext(ls: seq<Line>, n: nat)
    requires n < |ls|
    ensures BbsInForce(ls, n + 1) <==>
      ls[n].kind == 'B' || (ls[n].kind != 'G' && ls[n].kind != 'H' && BbsInForce(ls, n))
  {
    if ls[n].kind != 'B' && BbsInForce(ls, n + 1) {
      var j :| 0 <= j < n + 1 && ls[j].kind == 'B' && forall m :: j < m < n + 1 ==> ls[m].kind != 'G' && ls[m].kind != 'H';
      assert j < n;
    }
  }

  lemma BbsExceptedNext(w: World, ls: seq<Line>, n: nat)
    requires n < |ls|
    ensures BbsExcepted(w, ls, n + 1) <==>
      BbsExcepted(w, ls, n) || (w.via != "" && !w.bulletin && ls[n].kind == 'B' && ExceptedAt(w, ls, n, 'B', w.via))
  {
    hide ExceptedAt;
  }

  lemma ExceptedOn(w: World, ls: seq<Line>, n: nat, kind: char, text: string)
    requires n < |ls| && ExceptedAt(w, ls, n, kind, text)
    ensures ExceptedAt(w, ls, n + 1, kind, text)
  {
    ExceptedGrows(w, Entries(ls, n), Entries(ls, n + 1), kind, text);
  }

  lemma {:induction false} BbsExceptedStays(w: World, ls: seq<Line>, n: nat)
    requires n <= |ls| && BbsExcepted(w, ls, n)
    ensures ExceptedAt(w, ls, n, 'B', w.via)
  {
    var j :| 0 <= j < n && ls[j].kind == 'B' && ExceptedAt(w, ls, j, 'B', w.via);
    EntriesGrow(ls, j, n);
    ExceptedGrows(w, Entries(ls, j), Entries(ls, n), 'B', w.via);
  }

  /** The next line moves the flags to its own place. */
  lemma FlagsNext(w: World, s: State, t: State, ls: seq<Line>, n: nat)
    requires Block(ls) && n < |ls| && FlagsAt(w, s, t, ls, n)
    ensures FlagsAt(w, s, Flags1(w, t, ls[n]), ls, n + 1)
  {
    hide Excepted, IsNot, BbsInForce, BbsExcepted, Chunked, AddNot, Clip40, ExceptedAt;
    var l := ls[n];
    InForceNext(ls, n);
    BbsExceptedNext(w, ls, n);
    ExceptedIs(w, t, ls, n, 'G', w.via);
    ExceptedIs(w, t, ls, n, 'H', w.bbsv);
    ExceptedIs(w, t, ls, n, 'B', w.via);
    if ExceptedAt(w, ls, n, 'G', w.via) { ExceptedOn(w, ls, n, 'G', w.via); }
    if ExceptedAt(w, ls, n, 'H', w.bbsv) { ExceptedOn(w, ls, n, 'H', w.bbsv); }
    ChunkedAdd(t.nots, Entries(ls, n), Entry(l.second, Clip40(l.text)));
    assert Entries(ls, n) + [] == Entries(ls, n);
  }

  lemma ExceptedIs(w: World, t: State, ls: seq<Line>, n: nat, kind: char, text: string)
    requires n <= |ls| && Chunked(t.nots, Entries(ls, n))
    ensures IsNot(w, t.nots, kind, text) <==> ExceptedAt(w, ls, n, kind, text)
  {
    ExceptionsAre(w, t.nots, Entries(ls, n), kind, text);
  }

  /** What a line decides, by the positions of the lines. */
  lemma VerdictAt(w: World, s: State, t: State, ls: seq<Line>, n: nat)
    requires Block(ls) && n < |ls| && FlagsAt(w, s, t, ls, n)
    ensures Verdict1(w, t, ls[n]) == if Names(w, ls, n) then Outcome(w, s.nobbs, ls[n].kind) else Nothing
  {
    hide Excepted, IsNot, BbsInForce, Chunked, ExceptedAt, Entries;
    ExceptedIs(w, t, ls, n, 'G', w.via);
    ExceptedIs(w, t, ls, n, 'H', w.bbsv);
    ExceptedIs(w, t, ls, n, 'B', w.via);
    ExceptedIs(w, t, ls, n, 'F', ls[n].text);
    if BbsExcepted(w, ls, n) { BbsExceptedStays(w, ls, n); }
  }

  /** The decisions of the first `n` lines. */
  ghost predicate DecidedAt(w: World, s: State, t: State, ls: seq<Line>, n: nat)
    requires n <= |ls| && Sized(s)
  {
    && Sized(t)
    && (forall i :: 0 <= i < STATIONS ==>
          (t.fbbs[i] <==> s.fbbs[i] || (i + 1 == s.nobbs && Some(w, ls, n, s.nobbs, Chosen))))
    && (forall i :: 0 <= i < STATIONS ==>
          (t.forw[i] <==> s.forw[i] || (i + 1 == s.nobbs && Some(w, ls, n, s.nobbs, Done))))
    && (t.pingPong <==> s.pingPong || Some(w, ls, n, s.nobbs, Ping))
    && (t.fwdOk <==> s.fwdOk || Some(w, ls, n, s.nobbs, Chosen))
  }

  lemma SomeNext(w: World, ls: seq<Line>, n: nat, station: nat, v: Verdict)
    requires n < |ls|
    ensures Some(w, ls, n + 1, station, v) <==>
      Some(w, ls, n, station, v) || (Names(w, ls, n) && Outcome(w, station, ls[n].kind) == v)
  {
    hide Names, Outcome;
  }

  lemma DecidedNext(w: World, s: State, t: State, ls: seq<Line>, n: nat)
    requires Sized(s) && Block(ls) && n < |ls| && FlagsAt(w, s, t, ls, n) && DecidedAt(w, s, t, ls, n)
    ensures DecidedAt(w, s, Step(w, t, ls[n]), ls, n + 1)
  {
    hide Flags1, Verdict1, Names, Outcome, Some, BbsInForce, BbsExcepted, Chunked, ExceptedAt;
    VerdictAt(w, s, t, ls, n);
    SomeNext(w, ls, n, s.nobbs, Chosen);
    SomeNext(w, ls, n, s.nobbs, Done);
    SomeNext(w, ls, n, s.nobbs, Ping);
  }

  lemma FlagsKept(w: World, s: State, t: State, ls: seq<Line>, n: nat, v: Verdict)
    requires n <= |ls| && FlagsAt(w, s, t, ls, n)
    ensures FlagsAt(w, s, Apply(t, v), ls, n)
  {
    hide BbsInForce, BbsExcepted, Chunked, ExceptedAt;
  }

  lemma BlockStart(w: World, s: State, ls: seq<Line>)
    requires Fresh(s)
    ensures FlagsAt(w, s, s, ls, 0) && DecidedAt(w, s, s, ls, 0)
  {}

  lemma {:induction false} BlockUpTo(w: World, s: State, ls: seq<Line>, n: nat)
    requires Fresh(s) && Block(ls) && n <= |ls|
    ensures FlagsAt(w, s, Run(w, s, ls[..n]), ls, n) && DecidedAt(w, s, Run(w, s, ls[..n]), ls, n)
    decreases n
  {
    hide FlagsAt, DecidedAt, Flags1, Verdict1, Apply;
    if n == 0 {
      BlockStart(w, s, ls);
    } else {
      var t := Run(w, s, ls[..n - 1]);
      assert ls[..n][..n - 1] == ls[..n - 1];
      BlockUpTo(w, s, ls, n - 1);
      FlagsNext(w, s, t, ls, n - 1);
      FlagsKept(w, s, Flags1(w, t, ls[n - 1]), ls, n, Verdict1(w, t, ls[n - 1]));
      DecidedNext(w, s, t, ls, n - 1);
    }
  }

  /** A block of rules in any mixture: the station is chosen, marked as done, or noted as one
      the message came from, exactly if some line names the message with that outcome; nothing
      else changes. */
  lemma BlockDecides(w: World, s: State, ls: seq<Line>)
    requires Fresh(s) && Block(ls)
    ensures DecidedAt(w, s, Run(w, s, ls), ls, |ls|)
  {
    hide DecidedAt;
    BlockUpTo(w, s, ls, |ls|);
    assert ls[..|ls|] == ls;
  }

  /** A station's line: one in the R: lines is marked as done and its block is skipped, so is the
      block of one that was done before; any other starts afresh. */
  lemma StationDecides(w: World, s: State, l: Line)
    requires Sized(s) && l.kind == 'A' && l.bbs <= STATIONS
    ensures var t := Step(w, s, l);
            && t.nobbs == l.bbs && t.fbbs == s.fbbs && t.fwdOk == s.fwdOk && t.pingPong == s.pingPong
            && (forall i :: 0 <= i < STATIONS ==> (t.forw[i] <==> s.forw[i] || (w.isRoute(l.bbs) && i + 1 == l.bbs)))
            && if w.isRoute(l.bbs) || (if l.bbs == 0 then w.unknownDone else s.forw[l.bbs - 1]) then !t.route else Fresh(t)
  {}

  /** A skipped block decides nothing. */
  lemma {:induction false} BlockSkipped(w: World, s: State, ls: seq<Line>)
    requires Sized(s) && !s.route && Block(ls)
    ensures Run(w, s, ls) == s
    decreases |ls|
  {
    if ls == [] {
    } else {
      BlockSkipped(w, s, ls[..|ls| - 1]);
    }
  }

  lemma {:induction false} RunConcat(w: World, s: State, a: seq<Line>, b: seq<Line>)
    requires Sized(s) && KnownNumbers(a) && KnownNumbers(b)
    ensures KnownNumbers(a + b) && Run(w, s, a + b) == Run(w, Run(w, s, a), b)
    decreases |b|
  {
    hide Step;
    if b == [] {
      assert a + b == a;
    } else {
      assert (a + b)[..|a + b| - 1] == a + b[..|b| - 1];
      RunConcat(w, s, a, b[..|b| - 1]);
    }
  }

  /** The masks and flags that a file leaves behind. */
  ghost predicate SameDecisions(s: State, t: State) {
    s.fbbs == t.fbbs && s.forw == t.forw && s.pingPong == t.pingPong && s.fwdOk == t.fwdOk
  }

  /** A whole file, block by block: behind whatever came before, a station in the R: lines is
      marked as done, for one that was done nothing changes, and for any other its block decides. */
  lemma FileDecides(w: World, s: State, station: Line, block: seq<Line>)
    requires Sized(s) && station.kind == 'A' && station.bbs <= STATIONS && Block(block)
    ensures KnownNumbers([station] + block)
    ensures var t := Run(w, s, [station] + block);
            if w.isRoute(station.bbs) then
              && t.fbbs == s.fbbs && t.pingPong == s.pingPong && t.fwdOk == s.fwdOk
              && forall i :: 0 <= i < STATIONS ==> (t.forw[i] <==> s.forw[i] || i + 1 == station.bbs)
            else if (if station.bbs == 0 then w.unknownDone else s.forw[station.bbs - 1]) then SameDecisions(t, s)
            else DecidedAt(w, s.(nobbs := station.bbs), t, block, |block|)
  {
    hide Step, Run, Fresh, DecidedAt;
    var u := Step(w, s, station);
    OneLine(w, s, station, block);
    StationDecides(w, s, station);
    if u.route {
      BlockDecides(w, u, block);
      DecidedAlike(w, u, s.(nobbs := station.bbs), Run(w, u, block), block);
    } else {
      BlockSkipped(w, u, block);
    }
  }

  lemma OneLine(w: World, s: State, l: Line, block: seq<Line>)
    requires Sized(s) && l.bbs <= STATIONS && Block(block)
    ensures KnownNumbers([l] + block) && Run(w, s, [l] + block) == Run(w, Step(w, s, l), block)
  {
    RunConcat(w, s, [l], block);
    assert [l][..0] == [];
  }

  /** What a block decides depends on the masks and the station alone. */
  lemma DecidedAlike(w: World, u: State, s: State, t: State, ls: seq<Line>)
    requires Sized(u) && Sized(s) && SameDecisions(u, s) && u.nobbs == s.nobbs && DecidedAt(w, u, t, ls, |ls|)
    ensures DecidedAt(w, s, t, ls, |ls|)
  {
    hide Some;
  }

  // ---------- the code ----------

  class Router {
    const w: World
    const forw: array<bool>
    const fbbs: array<bool>
    var route: bool
    var routeBbs: bool
    var nobbs: nat
    var notB: bool
    var notG: bool
    var notH: bool
    var tNot: seq<seq<Entry>>
    var fwdOk: bool
    var pingPong: bool

    function Now(): State
      reads this, forw, fbbs
    {
      State(route, routeBbs, nobbs, notB, notG, notH, tNot, forw[..], fbbs[..], fwdOk, pingPong)
    }

    ghost predicate Valid()
      reads this
    {
      forw.Length == STATIONS && fbbs.Length == STATIONS && forw != fbbs && nobbs <= STATIONS
    }

    constructor (w: World, forw: array<bool>)
      requires forw.Length == STATIONS
      ensures Valid() && this.w == w && this.forw == forw && Now() == Start(forw[..])
    {
      this.w, this.forw := w, forw;
      fbbs := new bool[STATIONS](_ => false);
      route, routeBbs, nobbs, notB, notG, notH, tNot := false, false, 0, false, false, false, [];
      fwdOk, pingPong := false, false;
    }

    method SetBit(masque: array<bool>, n: nat)
      requires n <= masque.Length
      modifies masque
      ensures masque[..] == WithBit(old(masque[..]), n)
    {
      if n != 0 {
        masque[n - 1] := true;
      }
    }

    method Take()
      requires Valid()
      modifies this`fwdOk, fbbs
      ensures Valid() && Now() == Apply(old(Now()), Chosen)
    {
      SetBit(fbbs, nobbs);
      fwdOk := true;
    }

    method TakeOrPing()
      requires Valid()
      modifies this`fwdOk, this`pingPong, fbbs
      ensures Valid() && Now() == Apply(old(Now()), ChosenOrPing(w, old(Now())))
    {
      if !w.forwarding || !w.isSender(nobbs) {
        Take();
      } else {
        pingPong := true;
      }
    }

    method StationLine(bbs: nat)
      requires Valid() && bbs <= STATIONS
      modifies this, forw
      ensures Valid() && forall l: Line :: l.kind == 'A' && l.bbs == bbs ==> Now() == Step(w, old(Now()), l)
    {
      hide Clip40, ChunkHas;
      route := false;
      routeBbs := false;
      nobbs := bbs;
      if w.isRoute(bbs) {
        SetBit(forw, bbs);
        return;
      }
      var done := if bbs == 0 then w.unknownDone else forw[bbs - 1];
      if done {
        return;
      }
      route := true;
      tNot := [];
      notB, notG, notH := false, false, false;
    }

    method GroupLine(pcom: string)
      requires Valid() && route
      modifies this, forw, fbbs
      ensures Valid() && forall l: Line :: l.kind == 'G' && l.text == pcom && l.bbs <= STATIONS ==> Now() == Step(w, old(Now()), l)
    {
      routeBbs := false;
      if w.via != "" && w.bulletin {
        if notG || IsNot(w, tNot, 'G', w.via) {
          notG := true;
        } else if w.matches(w.via, pcom) {
          if !w.isSender(nobbs) {
            Take();
          } else {
            SetBit(forw, nobbs);
          }
        }
      }
    }

    method HierarchyLine(pcom: string)
      requires Valid() && route
      modifies this, fbbs
      ensures Valid() && forall l: Line :: l.kind == 'H' && l.text == pcom && l.bbs <= STATIONS ==> Now() == Step(w, old(Now()), l)
    {
      routeBbs := false;
      if w.bbsv != "" && !w.bulletin {
        if notH || IsNot(w, tNot, 'H', w.bbsv) {
          notH := true;
        } else if w.matches(w.bbsv, pcom) {
          TakeOrPing();
        }
      }
    }

    method BbsLine(pcom: string)
      requires Valid() && route
      modifies this, fbbs
      ensures Valid() && forall l: Line :: l.kind == 'B' && l.text == pcom && l.bbs <= STATIONS ==> Now() == Step(w, old(Now()), l)
    {
      routeBbs := true;
      if w.via != "" && !w.bulletin {
        if notB || IsNot(w, tNot, 'B', w.via) {
          notB := true;
        } else if w.matches(w.via, pcom) {
          TakeOrPing();
        }
      }
    }

    method ForwardLine(pcom: string)
      requires Valid() && route
      modifies this, fbbs
      ensures Valid() && forall l: Line :: l.kind == 'F' && l.text == pcom && l.bbs <= STATIONS ==> Now() == Step(w, old(Now()), l)
    {
      hide Sized;
      if IsNot(w, tNot, 'F', pcom) {
        return;
      }
      if w.via == "" && w.homeKnown {
        if !notB && w.matches(w.desti, pcom) {
          TakeOrPing();
        }
      } else if !routeBbs {
        if !notB && w.matches(w.desti, pcom) && !w.isSender(nobbs) {
          Take();
        }
      }
    }

    /** One rule line of `test_forward`. */
    method RuleLine(l: Line)
      requires Valid() && l.bbs <= STATIONS
      modifies this, forw, fbbs
      ensures Valid() && Now() == Step(w, old(Now()), l)
    {
      match l.kind {
        case '!' =>
          if route && (l.second == 'B' || l.second == 'F' || l.second == 'G' || l.second == 'H') {
            tNot := AddNot(tNot, Entry(l.second, Clip40(l.text)));
          }
        case 'A' => StationLine(l.bbs);
        case 'G' => if route { GroupLine(l.text); }
        case 'H' => if route { HierarchyLine(l.text); }
        case 'B' => if route { BbsLine(l.text); }
        case 'F' => if route { ForwardLine(l.text); }
        case _ =>
      }
    }

    /** `test_forward` for one message and the whole file of rules. */
    method TestForward(lines: seq<Line>)
      requires Valid() && KnownNumbers(lines) && Now() == Start(forw[..])
      modifies this, forw, fbbs
      ensures Valid() && Now() == Run(w, old(Now()), lines)
      ensures WellChosen(w, Now(), old(forw[..]))
    {
      hide Step, WellChosen;
      ghost var before, start := forw[..], Now();
      for i := 0 to |lines|
        invariant Valid() && Now() == Run(w, start, lines[..i])
      {
        assert lines[..i + 1][..i] == lines[..i];
        RuleLine(lines[i]);
      }
      assert lines[..|lines|] == lines;
      ChosenStations(w, before, lines);
    }
  }
}
