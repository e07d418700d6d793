/** When a forwarding session goes on to another message, to which, and when it is over. */
module MblNext {
  import opened MblForward

  /** The messages at the places before `i` wait and were not put off, but are gone; each is met
      once. */
  ghost predicate Gone(waiting: set<nat>, egal: seq<nat>, picks: seq<nat>, alive: set<nat>, i: nat) {
    && i <= |picks|
    && (forall j :: 0 <= j < i ==> picks[j] in waiting && picks[j] !in egal && picks[j] !in alive)
    && (forall j, k :: 0 <= j < k < i ==> picks[j] != picks[k])
  }

  /** Place `i` of the search holds the message to propose: it waits, was not put off and exists,
      and all before it are gone. */
  ghost predicate Found(waiting: set<nat>, egal: seq<nat>, picks: seq<nat>, alive: set<nat>, i: nat) {
    && i < |picks| && picks[i] in waiting && picks[i] !in egal && picks[i] in alive
    && Gone(waiting, egal, picks, alive, i)
  }

  lemma GoneFirst(waiting: set<nat>, egal: seq<nat>, picks: seq<nat>, alive: set<nat>, i: nat)
    requires picks != [] && picks[0] in waiting && picks[0] !in egal && picks[0] !in alive
    ensures Gone(waiting - {picks[0]}, egal, picks[1..], alive, i) <==> Gone(waiting, egal, picks, alive, i + 1)
    ensures Found(waiting - {picks[0]}, egal, picks[1..], alive, i) <==> Found(waiting, egal, picks, alive, i + 1)
  {
    var rest := picks[1..];
    forall j | 0 <= j < |rest| ensures rest[j] == picks[j + 1] {}
    if Gone(waiting - {picks[0]}, egal, rest, alive, i) {
      forall j, k | 0 <= j < k < i + 1 ensures picks[j] != picks[k] { assert picks[k] == rest[k - 1]; }
      forall j | 0 <= j < i + 1 ensures picks[j] in waiting && picks[j] !in egal && picks[j] !in alive {
        if j > 0 { assert picks[j] == rest[j - 1]; }
      }
    }
    if Gone(waiting, egal, picks, alive, i + 1) {
      forall j | 0 <= j < i ensures rest[j] in waiting - {picks[0]} { assert picks[j + 1] != picks[0]; }
    }
  }

  /** The messages at the places before `i`, and what clearing them logs. */
  ghost function Passed(picks: seq<nat>, i: nat): set<nat>
    requires i <= |picks|
  {
    set n | n in picks[..i]
  }

  ghost function AllCleared(picks: seq<nat>, i: nat): seq<Event>
    requires i <= |picks|
  {
    seq(i, j requires 0 <= j < i => Cleared(picks[j]))
  }

  lemma PassedFirst(waiting: set<nat>, picks: seq<nat>, i: nat)
    requires 0 < i <= |picks|
    ensures waiting - {picks[0]} - Passed(picks[1..], i - 1) == waiting - Passed(picks, i)
    ensures AllCleared(picks, i) == [Cleared(picks[0])] + AllCleared(picks[1..], i - 1)
  {
    assert picks[..i] == [picks[0]] + picks[1..][..i - 1];
  }

  /** The search stops at the first place that is not gone, with what it finds there, and takes
      the gone ones before it off the list. */
  lemma {:induction false} SearchStops(s: Session, picks: seq<nat>, alive: set<nat>) returns (i: nat)
    ensures Gone(s.waiting, s.egal, picks, alive, i) && !Gone(s.waiting, s.egal, picks, alive, i + 1)
    ensures var found := Found(s.waiting - Passed(picks, i), s.egal, picks[i..], alive, 0);
            Search(s, picks, alive) ==
              (Move(s.(entmes := if found then picks[i] else s.entmes, waiting := s.waiting - Passed(picks, i)),
                    AllCleared(picks, i)), found)
    decreases |picks|
  {
    if picks == [] || picks[0] !in s.waiting || picks[0] in s.egal || picks[0] in alive {
      i := 0;
      assert s.waiting - Passed(picks, 0) == s.waiting && AllCleared(picks, 0) == [] && picks[0..] == picks;
    } else {
      i := SearchStops(s.(waiting := s.waiting - {picks[0]}), picks[1..], alive);
      GoneFirst(s.waiting, s.egal, picks, alive, i);
      GoneFirst(s.waiting, s.egal, picks, alive, i + 1);
      i := i + 1;
      PassedFirst(s.waiting, picks, i);
      assert picks[1..][i - 1..] == picks[i..];
    }
  }

  lemma FoundAt(waiting: set<nat>, egal: seq<nat>, picks: seq<nat>, alive: set<nat>, i: nat)
    requires Gone(waiting, egal, picks, alive, i)
    ensures Found(waiting - Passed(picks, i), egal, picks[i..], alive, 0) <==> Found(waiting, egal, picks, alive, i)
  {
    if i < |picks| && picks[i] in alive { assert picks[i] !in picks[..i]; }
  }

  lemma OneStop(waiting: set<nat>, egal: seq<nat>, picks: seq<nat>, alive: set<nat>, i: nat, k: nat)
    requires Gone(waiting, egal, picks, alive, i) && !Gone(waiting, egal, picks, alive, i + 1)
    requires Gone(waiting, egal, picks, alive, k) && !Gone(waiting, egal, picks, alive, k + 1)
    ensures i == k
  {}

  lemma SearchFinds(s: Session, picks: seq<nat>, alive: set<nat>, i: nat)
    requires Found(s.waiting, s.egal, picks, alive, i)
    ensures Search(s, picks, alive) ==
      (Move(s.(entmes := picks[i], waiting := s.waiting - Passed(picks, i)), AllCleared(picks, i)), true)
  {
    hide Search;
    var k := SearchStops(s, picks, alive);
    OneStop(s.waiting, s.egal, picks, alive, i, k);
    FoundAt(s.waiting, s.egal, picks, alive, k);
  }

  lemma SearchFound(s: Session, picks: seq<nat>, alive: set<nat>) returns (i: nat)
    requires Search(s, picks, alive).1
    ensures Found(s.waiting, s.egal, picks, alive, i)
  {
    i := SearchStops(s, picks, alive);
    FoundAt(s.waiting, s.egal, picks, alive, i);
  }

  /** The search succeeds exactly if there is such a place; it takes that message in hand and the
      gone ones before it off the list. */
  lemma SearchExactly(s: Session, picks: seq<nat>, alive: set<nat>)
    ensures Search(s, picks, alive).1 <==> exists i: nat :: Found(s.waiting, s.egal, picks, alive, i)
    ensures forall i: nat :: Found(s.waiting, s.egal, picks, alive, i) ==>
      Search(s, picks, alive).0 ==
        Move(s.(entmes := picks[i], waiting := s.waiting - Passed(picks, i)), AllCleared(picks, i))
  {
    hide Search;
    forall i: nat | Found(s.waiting, s.egal, picks, alive, i)
      ensures Search(s, picks, alive) ==
        (Move(s.(entmes := picks[i], waiting := s.waiting - Passed(picks, i)), AllCleared(picks, i)), true)
    {
      SearchFinds(s, picks, alive, i);
    }
    if Search(s, picks, alive).1 { var i := SearchFound(s, picks, alive); }
  }

  /** The session moves on to another message: at the prompt behind a settled proposal or one put
      off, and a reversed session also in its first call. */
  predicate MovesOn(s: Session, input: Input) {
    Active(s) && if s.reverse then s.niv3 == 0 || (input.prompt && s.niv3 in {2, 4})
                 else input.prompt && s.niv3 in {5, 8}
  }

  /** The messages it can move on to: all that wait, but for the one it closes now. */
  function Still(s: Session): set<nat> {
    if s.niv3 == Closing(s) then s.waiting - {s.entmes} else s.waiting
  }

  /** A message is proposed by a call exactly if the session moves on and the search finds it. */
  lemma ProposesExactly(s: Session, log: seq<Event>, initial: set<nat>, input: Input, n: nat)
    requires Orderly(s, log, initial) && Active(s)
    ensures Proposed(n) in Step(s, input).events <==>
            MovesOn(s, input) && exists i: nat :: Found(Still(s), s.egal, input.picks, input.alive, i) && input.picks[i] == n
  {
    hide Accounts, Found, Search;
    MovesToNext(s, log, initial, input);
    NextExactly(s, input, n);
    NextExactly(Close(s).next, input, n);
  }

  lemma NextExactly(s: Session, input: Input, n: nat)
    ensures Proposed(n) in Next(s, input).events <==>
            exists i: nat :: Found(s.waiting, s.egal, input.picks, input.alive, i) && input.picks[i] == n
  {
    hide Search, Found;
    SearchExactly(s, input.picks, input.alive);
    var (m, ok) := Search(s, input.picks, input.alive);
    if Proposed(n) in m.events { SearchClears(s, input.picks, input.alive, Proposed(n)); }
    if ok { var i := SearchFound(s, input.picks, input.alive); }
  }

  /** Moving on is a search on the lists as they are then; any other call proposes nothing. */
  lemma MovesToNext(s: Session, log: seq<Event>, initial: set<nat>, input: Input)
    requires Orderly(s, log, initial) && Active(s)
    ensures MovesOn(s, input) ==>
      var t := if s.niv3 == Closing(s) then Close(s) else Move(s, []);
      && t.next.waiting == Still(s) && t.next.egal == s.egal
      && t.next.reverse == s.reverse && t.next.revMode == s.revMode && Active(t.next)
      && Step(s, input) == Move(Next(t.next, input).next, t.events + Next(t.next, input).events)
      && forall n :: Proposed(n) !in t.events
    ensures !MovesOn(s, input) ==> forall n :: Proposed(n) !in Step(s, input).events
  {
    hide Next, Books, Track, Closings, Deferrals;
    ZeroNever(s, log, initial);
    if MovesOn(s, input) && s.niv3 != Closing(s) { assert [] + Next(s, input).events == Next(s, input).events; }
  }

  lemma ZeroNever(s: Session, log: seq<Event>, initial: set<nat>)
    requires Orderly(s, log, initial)
    ensures 0 !in s.waiting
  {}

  /** Nothing is found. */
  ghost predicate NoneLeft(s: Session, input: Input) {
    MovesOn(s, input) && forall i: nat :: !Found(Still(s), s.egal, input.picks, input.alive, i)
  }

  /** A session is over exactly behind an answer it does not know, or when it moves on and finds
      nothing: then a reversed one and one whose mode is reversed hand over, any other hangs up. */
  lemma EndsExactly(s: Session, log: seq<Event>, initial: set<nat>, input: Input)
    requires Orderly(s, log, initial) && Active(s)
    ensures var t := Step(s, input).next;
            && (t.left <==> NoneLeft(s, input) && (s.reverse || s.revMode))
            && (t.deconnect <==>
                  (NoneLeft(s, input) && !s.reverse && !s.revMode)
                  || (s.niv3 == Asking(s) && input.first !in "ONRLonrl"))
  {
    hide Next, Found, Accounts, Track;
    MovesToNext(s, log, initial, input);
    NextEnds(s, input);
    NextEnds(Close(s).next, input);
  }

  lemma NextEnds(s: Session, input: Input)
    requires Active(s)
    ensures var t := Next(s, input).next; var none := forall i: nat :: !Found(s.waiting, s.egal, input.picks, input.alive, i);
            && (t.left <==> none && (s.reverse || s.revMode)) && (t.deconnect <==> none && !s.reverse && !s.revMode)
  {
    hide Search, Found;
    SearchExactly(s, input.picks, input.alive);
    SearchFrame(s, input.picks, input.alive);
  }
}
