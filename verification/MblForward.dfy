/** The sending side of an MBL forwarding session: propose a message, take the partner's
    answer, send the body, close the message; in `snd_fwd` and, with the roles of the call
    reversed, in `rcv_rev_fwd`. */
module MblForward {
  // ---------- what may happen, in any session ----------

  datatype Event =
    | Proposed(n: nat)
    | Answered(n: nat, c: char)
    | Sent(n: nat)      // the body is out completely
    | Closed(n: nat)    // taken off the forward list as done
    | Cleared(n: nat)   // taken off the list because the message is gone

  datatype Phase = Free | Offered(n: nat) | Sending(n: nat) | Settled(n: nat) | Wrong

  /** One event of an orderly session. */
  function Follow(p: Phase, e: Event): Phase {
    match e
    case Proposed(n) => if p == Free then Offered(n) else Wrong
    case Answered(n, c) =>
      if p != Offered(n) then Wrong
      else if c == 'O' then Sending(n)
      else if c == 'N' || c == 'R' then Settled(n)
      else if c == 'L' then Free
      else Wrong
    case Sent(n) => if p == Sending(n) then Settled(n) else Wrong
    case Closed(n) => if p == Settled(n) then Free else Wrong
    case Cleared(_) => if p == Free then Free else Wrong
  }

  function Track(log: seq<Event>): Phase {
    if log == [] then Free else Follow(Track(log[..|log| - 1]), log[|log| - 1])
  }

  /** A message is put to rest: closed or cleared. */
  predicate Ends(e: Event, n: nat) { e == Closed(n) || e == Cleared(n) }

  ghost predicate Ended(log: seq<Event>, n: nat) {
    exists i :: 0 <= i < |log| && Ends(log[i], n)
  }

  lemma TrackSnoc(log: seq<Event>, e: Event)
    ensures Track(log + [e]) == Follow(Track(log), e)
  {
    assert (log + [e])[..|log|] == log;
  }

  /** Right before index `i` the proposal of `n` was refused, or accepted and sent whole. */
  ghost predicate SettledAt(log: seq<Event>, i: nat, n: nat)
    requires i <= |log|
  {
    || (i >= 2 && log[i - 2] == Proposed(n) && (log[i - 1] == Answered(n, 'N') || log[i - 1] == Answered(n, 'R')))
    || (i >= 3 && log[i - 3] == Proposed(n) && log[i - 2] == Answered(n, 'O') && log[i - 1] == Sent(n))
  }

  lemma OfferedShape(log: seq<Event>, n: nat)
    requires Track(log) == Offered(n)
    ensures log != [] && log[|log| - 1] == Proposed(n)
  {}

  lemma SendingShape(log: seq<Event>, n: nat)
    requires Track(log) == Sending(n)
    ensures |log| >= 2 && log[|log| - 2] == Proposed(n) && log[|log| - 1] == Answered(n, 'O')
  {
    OfferedShape(log[..|log| - 1], n);
  }

  /** What led to a settled proposal. */
  lemma SettledShape(log: seq<Event>, n: nat)
    requires Track(log) == Settled(n)
    ensures SettledAt(log, |log|, n)
  {
    var a := log[..|log| - 1];
    if log[|log| - 1].Sent? {
      SendingShape(a, n);
    } else {
      OfferedShape(a, n);
    }
  }

  /** The front of an orderly log is orderly. */
  lemma {:induction false} TrackFront(log: seq<Event>, k: nat)
    requires Track(log) != Wrong && k <= |log|
    ensures Track(log[..k]) != Wrong
    decreases |log|
  {
    if k < |log| {
      TrackFront(log[..|log| - 1], k);
      assert log[..|log| - 1][..k] == log[..k];
    } else {
      assert log[..k] == log;
    }
  }

  /** In an orderly log every closing comes right behind a refusal of that proposal, or behind
      its acceptance and its whole body. */
  lemma ClosedOnlyWhenSettled(log: seq<Event>, i: nat)
    requires Track(log) != Wrong && i < |log| && log[i].Closed?
    ensures SettledAt(log, i, log[i].n)
  {
    TrackFront(log, i + 1);
    assert log[..i + 1][..i] == log[..i];
    SettledShape(log[..i], log[i].n);
  }

  /** In an orderly log an answer comes right behind the proposal. */
  lemma AnsweredWhenProposed(log: seq<Event>, i: nat)
    requires Track(log) != Wrong && i < |log| && log[i].Answered?
    ensures i >= 1 && log[i - 1] == Proposed(log[i].n)
  {
    TrackFront(log, i + 1);
    assert log[..i + 1][..i] == log[..i];
    OfferedShape(log[..i], log[i].n);
  }

  /** No message is proposed twice. */
  ghost predicate ProposedOnce(log: seq<Event>) {
    forall i, j :: 0 <= i < j < |log| && log[i].Proposed? && log[j].Proposed? ==> log[i].n != log[j].n
  }

  /** Where the proposal that a closing settles was made. */
  lemma ProposalOf(log: seq<Event>, i: nat) returns (p: nat)
    requires Track(log) != Wrong && i < |log| && log[i].Closed?
    ensures p + 1 < i && log[p] == Proposed(log[i].n) && log[p + 1] != Answered(log[i].n, 'L')
    ensures forall k :: p < k < i ==> !log[k].Proposed? && !log[k].Closed?
  {
    ClosedOnlyWhenSettled(log, i);
    p := if log[i - 2].Proposed? then i - 2 else i - 3;
  }

  lemma SameProposal(log: seq<Event>, p: nat, q: nat)
    requires ProposedOnce(log) && p < |log| && q < |log|
    requires log[p].Proposed? && log[q].Proposed? && log[p].n == log[q].n
    ensures p == q
  {}

  /** So no message is closed twice, and none that the partner has put off is closed at all. */
  lemma ClosedOnce(log: seq<Event>, i: nat, j: nat)
    requires Track(log) != Wrong && ProposedOnce(log)
    requires i < |log| && j < |log| && log[i].Closed? && i != j
    ensures log[j] != log[i] && log[j] != Answered(log[i].n, 'L')
  {
    var p := ProposalOf(log, i);
    if log[j] == log[i] {
      var q := ProposalOf(log, j);
      SameProposal(log, p, q);
    }
    if log[j] == Answered(log[i].n, 'L') {
      AnsweredWhenProposed(log, j);
    }
  }

  // ---------- the forward list ----------

  /** The message a session is busy with. */
  predicate Busy(p: Phase, n: nat) {
    p == Offered(n) || p == Sending(n) || p == Settled(n)
  }

  /** Log, list of waiting messages and list of deferred ones fit together: what was waiting
      is still waiting or has been put to rest, what was deferred is remembered and waits, and what has
      been proposed is at rest, deferred, or in hand. */
  ghost predicate Books(log: seq<Event>, waiting: set<nat>, egal: seq<nat>, initial: set<nat>) {
    && Track(log) != Wrong && ProposedOnce(log) && 0 !in waiting
    && (forall n :: n in initial <==> n in waiting || Closed(n) in log || Cleared(n) in log)
    && (forall n :: n in waiting ==> Closed(n) !in log && Cleared(n) !in log)
    && (forall n :: Answered(n, 'L') in log ==> n in egal && n in waiting)
    && (forall n :: Proposed(n) in log ==> n !in waiting || n in egal || Busy(Track(log), n))
    && (forall n :: Busy(Track(log), n) ==> n in waiting)
  }

  function Closings(log: seq<Event>): nat {
    if log == [] then 0 else Closings(log[..|log| - 1]) + (if log[|log| - 1].Closed? then 1 else 0)
  }

  lemma AddProposed(log: seq<Event>, waiting: set<nat>, egal: seq<nat>, initial: set<nat>, n: nat)
    requires Books(log, waiting, egal, initial) && Track(log) == Free && n in waiting && n !in egal
    ensures Books(log + [Proposed(n)], waiting, egal, initial) && Track(log + [Proposed(n)]) == Offered(n)
  {
    hide Track;
    TrackSnoc(log, Proposed(n));
    assert Proposed(n) !in log;
  }

  lemma AddAnswered(log: seq<Event>, waiting: set<nat>, egal: seq<nat>, initial: set<nat>, n: nat, c: char)
    requires Books(log, waiting, egal, initial) && Track(log) == Offered(n)
    requires c == 'O' || c == 'N' || c == 'R' || c == 'L'
    ensures Books(log + [Answered(n, c)], waiting, if c == 'L' then egal + [n] else egal, initial)
    ensures Track(log + [Answered(n, c)]) == if c == 'O' then Sending(n) else if c == 'L' then Free else Settled(n)
  {
    hide Track;
    TrackSnoc(log, Answered(n, c));
  }

  lemma AddSent(log: seq<Event>, waiting: set<nat>, egal: seq<nat>, initial: set<nat>, n: nat)
    requires Books(log, waiting, egal, initial) && Track(log) == Sending(n)
    ensures Books(log + [Sent(n)], waiting, egal, initial) && Track(log + [Sent(n)]) == Settled(n)
  {
    hide Track;
    TrackSnoc(log, Sent(n));
  }

  lemma AddClosed(log: seq<Event>, waiting: set<nat>, egal: seq<nat>, initial: set<nat>, n: nat)
    requires Books(log, waiting, egal, initial) && Track(log) == Settled(n)
    ensures Books(log + [Closed(n)], waiting - {n}, egal, initial) && Track(log + [Closed(n)]) == Free
  {
    hide Track;
    TrackSnoc(log, Closed(n));
    SettledShape(log, n);
    if Answered(n, 'L') in log {
      var j :| 0 <= j < |log| && log[j] == Answered(n, 'L');
      AnsweredWhenProposed(log, j);
    }
  }

  lemma AddCleared(log: seq<Event>, waiting: set<nat>, egal: seq<nat>, initial: set<nat>, n: nat)
    requires Books(log, waiting, egal, initial) && Track(log) == Free && n in waiting && n !in egal
    ensures Books(log + [Cleared(n)], waiting - {n}, egal, initial) && Track(log + [Cleared(n)]) == Free
  {
    hide Track;
    TrackSnoc(log, Cleared(n));
  }

  // ---------- one call of the machine ----------

  const NB_DEL: nat := 50

  /** What a call of the machine finds: the first letter of the line, whether it is a prompt,
      whether `snd_mess` gets the rest of the body out this time, and what the search for the
      next message comes upon. */
  datatype Input = Input(first: char, prompt: bool, bodyDone: bool, picks: seq<nat>, alive: set<nat>)

  function Upper(c: char): char {
    if 'a' <= c <= 'z' then (c - 'a' + 'A') as char else c
  }

  /** The fields of a session: `rcv_rev_fwd` rather than `snd_fwd`, the mode behind it, the
      state, whether it is over, the message in hand, the forward list, what has been put
      off, and the statistics. */
  datatype Session = Session(reverse: bool, revMode: bool, niv3: nat, deconnect: bool, left: bool, entmes: nat,
                             waiting: set<nat>, egal: seq<nat>, statFwd: nat)

  /** What a call makes of a session, and what happens in it. */
  datatype Move = Move(next: Session, events: seq<Event>)

  predicate Active(s: Session) { !s.deconnect && !s.left }

  /** The states in which the partner's answer, the rest of the body, the prompt behind a
      settled proposal and the prompt behind one put off are awaited. */
  function Asking(s: Session): nat { if s.reverse then 1 else 6 }
  function SendingState(s: Session): nat { if s.reverse then 3 else 7 }
  function Closing(s: Session): nat { if s.reverse then 2 else 5 }
  function Later(s: Session): nat { if s.reverse then 4 else 8 }

  /** `fin_envoi_fwd`. */
  function Close(s: Session): Move {
    if s.entmes == 0 then Move(s, [])
    else Move(s.(waiting := s.waiting - {s.entmes}, statFwd := s.statFwd + 1), [Closed(s.entmes)])
  }

  /** `mess_suiv`: the next message that waits, is not put off and still exists; those that
      are gone are taken off the list on the way. */
  function Search(s: Session, picks: seq<nat>, alive: set<nat>): (r: (Move, bool))
    ensures r.1 ==> r.0.next.entmes in r.0.next.waiting && r.0.next.entmes !in r.0.next.egal
    decreases |picks|
  {
    if picks == [] || picks[0] !in s.waiting || picks[0] in s.egal then (Move(s, []), false)
    else if picks[0] in alive then (Move(s.(entmes := picks[0]), []), true)
    else
      var (m, ok) := Search(s.(waiting := s.waiting - {picks[0]}), picks[1..], alive);
      (Move(m.next, [Cleared(picks[0])] + m.events), ok)
  }

  /** On to the next message, or out. */
  function Next(s: Session, input: Input): Move {
    var (m, ok) := Search(s, input.picks, input.alive);
    if ok then Move(m.next.(niv3 := Asking(s)), m.events + [Proposed(m.next.entmes)])
    else if s.reverse || s.revMode then Move(m.next.(left := true), m.events)
    else Move(m.next.(deconnect := true), m.events)
  }

  /** The body, or as much of it as can go now. */
  function SendBody(s: Session, bodyDone: bool): Move {
    if bodyDone then Move(s.(niv3 := Closing(s)), [Sent(s.entmes)]) else Move(s.(niv3 := SendingState(s)), [])
  }

  /** The partner's answer to the proposal. */
  function Answer(s: Session, input: Input): Move {
    var c := Upper(input.first);
    var said := [Answered(s.entmes, c)];
    if c == 'O' then
      var m := SendBody(s, input.bodyDone);
      Move(m.next, said + m.events)
    else if c == 'N' || c == 'R' then Move(s.(niv3 := Closing(s)), said)
    else if c == 'L' then Move(s.(niv3 := Later(s), egal := s.egal + [s.entmes]), said)
    else Move(s.(deconnect := true), [])
  }

  /** One call; a session that is over is not called any more. */
  function Step(s: Session, input: Input): Move {
    if !Active(s) then Move(s, [])
    else if s.niv3 == Asking(s) then Answer(s, input)
    else if s.niv3 == SendingState(s) then SendBody(s, input.bodyDone)
    else if s.reverse && s.niv3 == 0 then Next(s, input)
    else if !input.prompt then Move(s, [])
    else if s.niv3 == Closing(s) then
      var closed := Close(s);
      var m := Next(closed.next, input);
      Move(m.next, closed.events + m.events)
    else if s.niv3 == Later(s) then Next(s, input)
    else Move(s.(niv3 := Closing(s)), [])
  }

  // ---------- what every call keeps ----------

  function Deferrals(log: seq<Event>): nat {
    if log == [] then 0
    else Deferrals(log[..|log| - 1]) + (if log[|log| - 1].Answered? && log[|log| - 1].c == 'L' then 1 else 0)
  }

  /** Log, lists and statistics agree. */
  ghost predicate Accounts(s: Session, log: seq<Event>, initial: set<nat>) {
    && Books(log, s.waiting, s.egal, initial)
    && s.statFwd == Closings(log) && |s.egal| == Deferrals(log)
  }

  /** Where the machine stands in the session. */
  ghost predicate Standing(s: Session, p: Phase) {
    if s.reverse then
      && s.niv3 <= 4
      && (s.niv3 == 0 || s.niv3 == 4 ==> p == Free)
      && (s.niv3 == 1 ==> p == Offered(s.entmes))
      && (s.niv3 == 2 ==> p == Settled(s.entmes) && s.entmes != 0)
      && (s.niv3 == 3 ==> p == Sending(s.entmes))
    else
      && 4 <= s.niv3 <= 8
      && (s.niv3 == 4 ==> p == Free && s.entmes == 0)
      && (s.niv3 == 5 ==> if s.entmes == 0 then p == Free else p == Settled(s.entmes))
      && (s.niv3 == 6 ==> p == Offered(s.entmes))
      && (s.niv3 == 7 ==> p == Sending(s.entmes))
      && (s.niv3 == 8 ==> p == Free)
  }

  ghost predicate Orderly(s: Session, log: seq<Event>, initial: set<nat>) {
    Accounts(s, log, initial) && (Active(s) ==> Standing(s, Track(log)))
  }

  lemma InHandWaits(s: Session, log: seq<Event>, initial: set<nat>)
    requires Accounts(s, log, initial) && Busy(Track(log), s.entmes)
    ensures s.entmes != 0
  {}

  lemma Snoc(log: seq<Event>, e: Event)
    ensures Closings(log + [e]) == Closings(log) + (if e.Closed? then 1 else 0)
    ensures Deferrals(log + [e]) == Deferrals(log) + (if e.Answered? && e.c == 'L' then 1 else 0)
  {
    assert (log + [e])[..|log|] == log;
  }

  lemma CloseKeeps(s: Session, log: seq<Event>, initial: set<nat>)
    requires Accounts(s, log, initial) && Track(log) == (if s.entmes == 0 then Free else Settled(s.entmes))
    ensures var m := Close(s); Accounts(m.next, log + m.events, initial) && Track(log + m.events) == Free
  {
    hide Books, Track, Closings, Deferrals;
    if s.entmes == 0 {
      assert log + [] == log;
    } else {
      AddClosed(log, s.waiting, s.egal, initial, s.entmes);
      Snoc(log, Closed(s.entmes));
    }
  }

  lemma {:induction false} SearchKeeps(s: Session, log: seq<Event>, initial: set<nat>, picks: seq<nat>, alive: set<nat>)
    requires Accounts(s, log, initial) && Track(log) == Free
    ensures var m := Search(s, picks, alive).0;
            Accounts(m.next, log + m.events, initial) && Track(log + m.events) == Free
    decreases |picks|
  {
    hide Books, Track, Closings, Deferrals;
    if picks == [] || picks[0] !in s.waiting || picks[0] in s.egal || picks[0] in alive {
      assert log + [] == log;
    } else {
      var e := Cleared(picks[0]);
      AddCleared(log, s.waiting, s.egal, initial, picks[0]);
      Snoc(log, e);
      var rest := s.(waiting := s.waiting - {picks[0]});
      SearchKeeps(rest, log + [e], initial, picks[1..], alive);
      assert log + [e] + Search(rest, picks[1..], alive).0.events == log + Search(s, picks, alive).0.events;
    }
  }

  lemma NextKeeps(s: Session, log: seq<Event>, initial: set<nat>, input: Input)
    requires Accounts(s, log, initial) && Track(log) == Free
    ensures var m := Next(s, input); Orderly(m.next, log + m.events, initial)
  {
    hide Books, Track, Closings, Deferrals, Search;
    SearchKeeps(s, log, initial, input.picks, input.alive);
    SearchFrame(s, input.picks, input.alive);
    var (m, ok) := Search(s, input.picks, input.alive);
    if ok {
      var e := Proposed(m.next.entmes);
      AddProposed(log + m.events, m.next.waiting, m.next.egal, initial, m.next.entmes);
      Snoc(log + m.events, e);
      assert log + m.events + [e] == log + (m.events + [e]);
    }
  }

  lemma {:induction false} SearchFrame(s: Session, picks: seq<nat>, alive: set<nat>)
    ensures var t := Search(s, picks, alive).0.next; t == s.(entmes := t.entmes, waiting := t.waiting)
    decreases |picks|
  {
    if picks == [] || picks[0] !in s.waiting || picks[0] in s.egal || picks[0] in alive {
    } else {
      SearchFrame(s.(waiting := s.waiting - {picks[0]}), picks[1..], alive);
    }
  }

  lemma SendKeeps(s: Session, log: seq<Event>, initial: set<nat>, bodyDone: bool)
    requires Accounts(s, log, initial) && Track(log) == Sending(s.entmes) && Active(s)
    ensures var m := SendBody(s, bodyDone); Orderly(m.next, log + m.events, initial)
  {
    InHandWaits(s, log, initial);
    hide Books, Track, Closings, Deferrals;
    if bodyDone {
      AddSent(log, s.waiting, s.egal, initial, s.entmes);
      Snoc(log, Sent(s.entmes));
    } else {
      assert log + [] == log;
    }
  }

  lemma AnswerKeeps(s: Session, log: seq<Event>, initial: set<nat>, input: Input)
    requires Accounts(s, log, initial) && Track(log) == Offered(s.entmes) && Active(s)
    ensures var m := Answer(s, input); Orderly(m.next, log + m.events, initial)
  {
    hide Books, Track, Closings, Deferrals, Upper, SendBody;
    InHandWaits(s, log, initial);
    var c := Upper(input.first);
    if c == 'O' || c == 'N' || c == 'R' || c == 'L' {
      var e := Answered(s.entmes, c);
      AddAnswered(log, s.waiting, s.egal, initial, s.entmes, c);
      Snoc(log, e);
      if c == 'O' {
        SendKeeps(s, log + [e], initial, input.bodyDone);
        assert log + [e] + SendBody(s, input.bodyDone).events == log + Answer(s, input).events;
      }
    } else {
      assert log + [] == log;
    }
  }

  /** Every call keeps the session orderly, whatever it finds. */
  lemma StepKeeps(s: Session, log: seq<Event>, initial: set<nat>, input: Input)
    requires Orderly(s, log, initial)
    ensures var m := Step(s, input); Orderly(m.next, log + m.events, initial)
  {
    hide Books, Track, Closings, Deferrals, Next, Answer, SendBody;
    assert log + [] == log;
    if !Active(s) {
    } else if s.niv3 == Asking(s) {
      AnswerKeeps(s, log, initial, input);
    } else if s.niv3 == SendingState(s) {
      SendKeeps(s, log, initial, input.bodyDone);
    } else if s.niv3 == Closing(s) && input.prompt {
      CloseKeeps(s, log, initial);
      var closed := Close(s);
      NextKeeps(closed.next, log + closed.events, initial, input);
      assert log + closed.events + Next(closed.next, input).events == log + Step(s, input).events;
    } else if s.niv3 == Later(s) || (s.reverse && s.niv3 == 0) {
      NextKeeps(s, log, initial, input);
    }
  }

  // ---------- what a call says, by what has gone before ----------

  lemma {:induction false} SearchClears(s: Session, picks: seq<nat>, alive: set<nat>, e: Event)
    requires e in Search(s, picks, alive).0.events
    ensures e.Cleared? && e.n in s.waiting && e.n !in s.egal && e.n !in alive
    decreases |picks|
  {
    if picks == [] || picks[0] !in s.waiting || picks[0] in s.egal || picks[0] in alive {
      assert false;
    } else if e != Cleared(picks[0]) {
      SearchClears(s.(waiting := s.waiting - {picks[0]}), picks[1..], alive, e);
    }
  }

  lemma {:induction false} SearchFinds(s: Session, picks: seq<nat>, alive: set<nat>)
    ensures var (m, ok) := Search(s, picks, alive); ok ==>
      m.next.entmes in s.waiting && m.next.entmes !in s.egal && m.next.entmes in alive
    decreases |picks|
  {
    if picks == [] || picks[0] !in s.waiting || picks[0] in s.egal || picks[0] in alive {
    } else {
      SearchFinds(s.(waiting := s.waiting - {picks[0]}), picks[1..], alive);
    }
  }

  /** The search for the next message clears only messages that wait, were not put off and are
      gone, and proposes only one that waits, was not put off and exists. */
  lemma NextSays(s: Session, input: Input, e: Event)
    requires e in Next(s, input).events
    ensures (e.Cleared? && e.n !in input.alive) || (e.Proposed? && e.n in input.alive)
    ensures e.n in s.waiting && e.n !in s.egal
  {
    var (m, ok) := Search(s, input.picks, input.alive);
    SearchFinds(s, input.picks, input.alive);
    if e in m.events { SearchClears(s, input.picks, input.alive, e); }
  }

  /** A message is closed by a call exactly if its proposal has been settled and the line is
      the prompt. */
  lemma ClosesExactly(s: Session, log: seq<Event>, initial: set<nat>, input: Input, n: nat)
    requires Orderly(s, log, initial) && Active(s)
    ensures Closed(n) in Step(s, input).events <==> Track(log) == Settled(n) && input.prompt
  {
    hide Books, Track, Closings, Deferrals, Next;
    if Busy(Track(log), 0) { NothingZero(s, log, initial); }
    var next := Next(Close(s).next, input);
    if Closed(n) in next.events { NextSays(Close(s).next, input, Closed(n)); }
    if Closed(n) in Next(s, input).events { NextSays(s, input, Closed(n)); }
  }

  lemma NothingZero(s: Session, log: seq<Event>, initial: set<nat>)
    requires Accounts(s, log, initial)
    ensures !Busy(Track(log), 0)
  {}

  /** An answer is recorded exactly for the message proposed, and is the letter received. */
  lemma AnswersExactly(s: Session, log: seq<Event>, initial: set<nat>, input: Input, n: nat, c: char)
    requires Orderly(s, log, initial) && Active(s)
    ensures Answered(n, c) in Step(s, input).events <==>
            Track(log) == Offered(n) && c == Upper(input.first) && c in {'O', 'N', 'R', 'L'}
  {
    hide Books, Track, Closings, Deferrals, Next;
    NothingZero(s, log, initial);
    var e := Answered(n, c);
    if e in Next(Close(s).next, input).events { NextSays(Close(s).next, input, e); }
    if e in Next(s, input).events { NextSays(s, input, e); }
  }

  /** A body is out exactly if the message was accepted, now or before, and `snd_mess` comes
      to its end. */
  lemma SendsExactly(s: Session, log: seq<Event>, initial: set<nat>, input: Input, n: nat)
    requires Orderly(s, log, initial) && Active(s)
    ensures Sent(n) in Step(s, input).events <==>
            input.bodyDone && (Track(log) == Sending(n) || (Track(log) == Offered(n) && Upper(input.first) == 'O'))
  {
    hide Books, Track, Closings, Deferrals, Next;
    NothingZero(s, log, initial);
    var e := Sent(n);
    if e in Next(Close(s).next, input).events { NextSays(Close(s).next, input, e); }
    if e in Next(s, input).events { NextSays(s, input, e); }
  }

  // ---------- whole sessions ----------

  /** A session at its beginning; no message in hand. */
  function Start(reverse: bool, revMode: bool, clock: bool, waiting: set<nat>): Session {
    Session(reverse, revMode, if reverse then 0 else if clock then 4 else 5, false, false, 0, waiting, [], 0)
  }

  lemma StartOrderly(reverse: bool, revMode: bool, clock: bool, waiting: set<nat>)
    requires 0 !in waiting
    ensures Orderly(Start(reverse, revMode, clock, waiting), [], waiting)
  {}

  /** Everything a session comes to, and everything that happens in it. */
  function Run(s: Session, inputs: seq<Input>): Move {
    if inputs == [] then Move(s, [])
    else
      var m := Run(s, inputs[..|inputs| - 1]);
      var last := Step(m.next, inputs[|inputs| - 1]);
      Move(last.next, m.events + last.events)
  }

  /** A move behind what happened before. */
  function Then(log: seq<Event>, m: Move): Move {
    Move(m.next, log + m.events)
  }

  lemma RunOn(s: Session, inputs: seq<Input>, more: Input)
    ensures Run(s, inputs + [more]) == Then(Run(s, inputs).events, Step(Run(s, inputs).next, more))
  {
    assert (inputs + [more])[..|inputs|] == inputs;
  }

  lemma {:induction false} RunKeeps(s: Session, inputs: seq<Input>, initial: set<nat>)
    requires Orderly(s, [], initial)
    ensures Orderly(Run(s, inputs).next, Run(s, inputs).events, initial)
    decreases |inputs|
  {
    if inputs == [] {
    } else {
      hide Orderly, Step;
      var m := Run(s, inputs[..|inputs| - 1]);
      RunKeeps(s, inputs[..|inputs| - 1], initial);
      StepKeeps(m.next, m.events, initial, inputs[|inputs| - 1]);
    }
  }

  /** At call `a` the partner answered the proposal of `n` with letter `c`. */
  ghost predicate AnsweredAt(s: Session, inputs: seq<Input>, a: nat, n: nat, c: char)
    requires a < |inputs|
  {
    && Active(Run(s, inputs[..a]).next) && Track(Run(s, inputs[..a]).events) == Offered(n)
    && Upper(inputs[a].first) == c
  }

  /** In call `a` the partner refused message `n`; or accepted it, and call `b`, in which the
      session was still sending it, brought its body to the end. */
  ghost predicate AccountedAt(s: Session, inputs: seq<Input>, a: nat, b: nat, n: nat)
    requires a <= b < |inputs|
  {
    || AnsweredAt(s, inputs, a, n, 'N')
    || AnsweredAt(s, inputs, a, n, 'R')
    || (AnsweredAt(s, inputs, a, n, 'O') && inputs[b].bodyDone && (a == b || SendingAt(s, inputs, b, n)))
  }

  ghost predicate SendingAt(s: Session, inputs: seq<Input>, b: nat, n: nat)
    requires b < |inputs|
  {
    Active(Run(s, inputs[..b]).next) && Track(Run(s, inputs[..b]).events) == Sending(n)
  }

  ghost predicate Accounted(s: Session, inputs: seq<Input>, n: nat) {
    exists a, b :: 0 <= a <= b < |inputs| && AccountedAt(s, inputs, a, b, n)
  }

  ghost predicate Accepted(s: Session, inputs: seq<Input>, n: nat) {
    exists a :: 0 <= a < |inputs| && AnsweredAt(s, inputs, a, n, 'O')
  }

  lemma AnsweredBefore(s: Session, inputs: seq<Input>, more: Input, a: nat, n: nat, c: char)
    requires a < |inputs|
    ensures AnsweredAt(s, inputs + [more], a, n, c) <==> AnsweredAt(s, inputs, a, n, c)
    ensures SendingAt(s, inputs + [more], a, n) <==> SendingAt(s, inputs, a, n)
  {
    assert (inputs + [more])[..a] == inputs[..a];
  }

  lemma AnsweredNow(s: Session, inputs: seq<Input>, more: Input, n: nat)
    requires Active(Run(s, inputs).next) && Track(Run(s, inputs).events) == Offered(n)
    ensures AnsweredAt(s, inputs + [more], |inputs|, n, Upper(more.first))
  {
    assert (inputs + [more])[..|inputs|] == inputs;
  }

  lemma SendingNow(s: Session, inputs: seq<Input>, more: Input, n: nat)
    ensures SendingAt(s, inputs + [more], |inputs|, n) <==>
            Active(Run(s, inputs).next) && Track(Run(s, inputs).events) == Sending(n)
  {
    assert (inputs + [more])[..|inputs|] == inputs;
  }

  lemma AccountedLater(s: Session, inputs: seq<Input>, more: Input, n: nat)
    ensures Accounted(s, inputs, n) ==> Accounted(s, inputs + [more], n)
    ensures Accepted(s, inputs, n) ==> Accepted(s, inputs + [more], n)
    ensures var m := Run(s, inputs);
            Accepted(s, inputs, n) && more.bodyDone && Active(m.next) && Track(m.events) == Sending(n) ==>
              Accounted(s, inputs + [more], n)
  {
    SendingNow(s, inputs, more, n);
    hide AnsweredAt, SendingAt, Track, Run;
    var longer := inputs + [more];
    if Accounted(s, inputs, n) {
      var a, b :| 0 <= a <= b < |inputs| && AccountedAt(s, inputs, a, b, n);
      AnsweredBefore(s, inputs, more, a, n, 'N');
      AnsweredBefore(s, inputs, more, a, n, 'R');
      AnsweredBefore(s, inputs, more, a, n, 'O');
      AnsweredBefore(s, inputs, more, b, n, 'O');
      assert longer[b] == inputs[b];
      assert AccountedAt(s, longer, a, b, n);
    }
    if Accepted(s, inputs, n) {
      var a :| 0 <= a < |inputs| && AnsweredAt(s, inputs, a, n, 'O');
      AnsweredBefore(s, inputs, more, a, n, 'O');
      assert longer[|inputs|] == more;
      assert more.bodyDone && SendingAt(s, longer, |inputs|, n) ==> AccountedAt(s, longer, a, |inputs|, n);
    }
  }

  lemma InTail(log: seq<Event>, events: seq<Event>)
    requires events != []
    ensures (log + events)[|log + events| - 1] in events
  {}

  /** A proposal settled, or accepted, behind a call was so before or is so by this call. */
  lemma SettledByCall(s: Session, inputs: seq<Input>, more: Input, initial: set<nat>, n: nat)
    requires Orderly(s, [], initial) && Active(Run(s, inputs).next)
    requires var p := Track(Run(s, inputs).events);
             (p == Settled(n) ==> Accounted(s, inputs, n)) && (p == Sending(n) ==> Accepted(s, inputs, n))
    ensures var m := Run(s, inputs); var p := Track(m.events + Step(m.next, more).events);
            && (p == Settled(n) ==> Accounted(s, inputs + [more], n))
            && (p == Sending(n) ==> Accepted(s, inputs + [more], n))
  {
    hide Step, Track, Orderly, AnsweredAt, Accounted, Accepted;
    RunKeeps(s, inputs, initial);
    AccountedLater(s, inputs, more, n);
    var m := Run(s, inputs);
    var events := Step(m.next, more).events;
    if events == [] {
      assert m.events + events == m.events;
    } else {
      InTail(m.events, events);
      if Track(m.events + events) == Settled(n) {
        SettledShape(m.events + events, n);
        AnswersExactly(m.next, m.events, initial, more, n, 'N');
        AnswersExactly(m.next, m.events, initial, more, n, 'R');
        SendsExactly(m.next, m.events, initial, more, n);
        if Track(m.events) == Offered(n) { NowAccounted(s, inputs, more, n); }
      } else if Track(m.events + events) == Sending(n) {
        SendingShape(m.events + events, n);
        AnswersExactly(m.next, m.events, initial, more, n, 'O');
        NowAccounted(s, inputs, more, n);
      }
    }
  }

  lemma NowAccounted(s: Session, inputs: seq<Input>, more: Input, n: nat)
    requires Active(Run(s, inputs).next) && Track(Run(s, inputs).events) == Offered(n)
    ensures Upper(more.first) in {'N', 'R'} ==> Accounted(s, inputs + [more], n)
    ensures Upper(more.first) == 'O' ==> Accepted(s, inputs + [more], n)
    ensures Upper(more.first) == 'O' && more.bodyDone ==> Accounted(s, inputs + [more], n)
  {
    hide AnsweredAt;
    AnsweredNow(s, inputs, more, n);
    var longer := inputs + [more];
    assert longer[|inputs|] == more;
    if Upper(more.first) in {'N', 'R'} || more.bodyDone {
      assert Upper(more.first) in {'N', 'R', 'O'} ==> AccountedAt(s, longer, |inputs|, |inputs|, n);
    }
  }

  /** In a whole session, whatever the partner sends and however often a body is taken up
      again: a message settled, and so one closed, has been refused by the letter N or R, or
      accepted by O and its body brought to its end. */
  lemma {:induction false} ClosedByPartner(s: Session, inputs: seq<Input>, initial: set<nat>, n: nat)
    requires Orderly(s, [], initial)
    ensures var m := Run(s, inputs);
            && (Closed(n) in m.events || Track(m.events) == Settled(n) ==> Accounted(s, inputs, n))
            && (Track(m.events) == Sending(n) ==> Accepted(s, inputs, n))
    decreases |inputs|
  {
    if inputs == [] {
    } else {
      hide Step, Track, Orderly, AnsweredAt, Accounted, Accepted;
      var init, more := inputs[..|inputs| - 1], inputs[|inputs| - 1];
      assert inputs == init + [more];
      ClosedByPartner(s, init, initial, n);
      AccountedLater(s, init, more, n);
      var m := Run(s, init);
      if Active(m.next) {
        RunKeeps(s, init, initial);
        ClosesExactly(m.next, m.events, initial, more, n);
        SettledByCall(s, init, more, initial, n);
      } else {
        OverIsOver(m.next, more);
        assert m.events + [] == m.events;
      }
    }
  }

  lemma OverIsOver(s: Session, input: Input)
    ensures !Active(s) ==> Step(s, input) == Move(s, [])
  {}

  /** And it is closed once, was waiting, and was not put off. */
  lemma SessionClosesOnce(s: Session, inputs: seq<Input>, initial: set<nat>, i: nat, j: nat)
    requires Orderly(s, [], initial)
    requires var log := Run(s, inputs).events; i < |log| && j < |log| && log[i].Closed? && i != j
    ensures var log := Run(s, inputs).events;
            log[i].n in initial && log[j] != log[i] && log[j] != Answered(log[i].n, 'L')
  {
    RunKeeps(s, inputs, initial);
    ClosedOnce(Run(s, inputs).events, i, j);
  }

  // ---------- room for messages put off ----------

  /** The call would write past the end of `mess_egal`. */
  predicate Overruns(s: Session, input: Input) {
    Active(s) && s.niv3 == Asking(s) && Upper(input.first) == 'L' && |s.egal| >= NB_DEL
  }

  /** Exactly an L to a proposal, when fifty have come before. */
  lemma OverrunsExactly(s: Session, log: seq<Event>, initial: set<nat>, input: Input)
    requires Orderly(s, log, initial)
    ensures Overruns(s, input) <==>
            Active(s) && Track(log).Offered? && Upper(input.first) == 'L' && Deferrals(log) >= NB_DEL
  {}

  ghost predicate Safe(s: Session, inputs: seq<Input>)
    decreases |inputs|
  {
    inputs != [] ==>
      var init := inputs[..|inputs| - 1];
      Safe(s, init) && !Overruns(Run(s, init).next, inputs[|inputs| - 1])
  }

  lemma StepDefers(s: Session, input: Input)
    ensures |Step(s, input).next.egal| ==
            |s.egal| + (if Active(s) && s.niv3 == Asking(s) && Upper(input.first) == 'L' then 1 else 0)
  {
    hide Search, Upper;
    SearchFrame(s, input.picks, input.alive);
    SearchFrame(Close(s).next, input.picks, input.alive);
  }

  /** A session keeps inside the array exactly if the partner puts off at most fifty messages. */
  lemma {:induction false} SafeExactly(s: Session, inputs: seq<Input>, initial: set<nat>)
    requires Orderly(s, [], initial)
    ensures Safe(s, inputs) <==> Deferrals(Run(s, inputs).events) <= NB_DEL
    decreases |inputs|
  {
    if inputs == [] {
    } else {
      var init := inputs[..|inputs| - 1];
      SafeExactly(s, init, initial);
      RunKeeps(s, init, initial);
      RunKeeps(s, inputs, initial);
      hide Step, Books, Track, Deferrals, Closings, Standing;
      StepDefers(Run(s, init).next, inputs[|inputs| - 1]);
    }
  }

  lemma {:induction false} SafeAt(s: Session, inputs: seq<Input>, i: nat)
    requires Safe(s, inputs) && i < |inputs|
    ensures !Overruns(Run(s, inputs[..i]).next, inputs[i])
    decreases |inputs|
  {
    hide Run, Overruns;
    if i == |inputs| - 1 {
    } else {
      var init := inputs[..|inputs| - 1];
      SafeAt(s, init, i);
      assert init[..i] == inputs[..i];
    }
  }

  // ---------- which sessions are safe ----------

  ghost predicate NoRepeat(ns: seq<nat>) {
    forall i, j :: 0 <= i < j < |ns| ==> ns[i] != ns[j]
  }

  lemma {:induction false} NoMoreThan(ns: seq<nat>, all: set<nat>)
    requires NoRepeat(ns) && forall n :: n in ns ==> n in all
    ensures |ns| <= |all|
    decreases |ns|
  {
    if ns == [] {
    } else {
      NoMoreThan(ns[1..], all - {ns[0]});
    }
  }

  /** What was put off is on the list the session began with, each message once, and the
      message that is being offered is not among it. */
  ghost predicate PutOff(s: Session, initial: set<nat>) {
    && NoRepeat(s.egal) && (forall n :: n in s.egal ==> n in initial) && s.waiting <= initial
    && (Active(s) && s.niv3 == Asking(s) ==> s.entmes in initial && s.entmes !in s.egal)
  }

  lemma {:induction false} SearchShrinks(s: Session, picks: seq<nat>, alive: set<nat>)
    ensures Search(s, picks, alive).0.next.waiting <= s.waiting
    decreases |picks|
  {
    if picks == [] || picks[0] !in s.waiting || picks[0] in s.egal || picks[0] in alive {
    } else {
      SearchShrinks(s.(waiting := s.waiting - {picks[0]}), picks[1..], alive);
    }
  }

  lemma NextPutsOff(s: Session, initial: set<nat>, input: Input)
    requires PutOff(s, initial)
    ensures PutOff(Next(s, input).next, initial)
  {
    hide Search, NoRepeat;
    SearchFrame(s, input.picks, input.alive);
    SearchShrinks(s, input.picks, input.alive);
  }

  lemma StepPutsOff(s: Session, initial: set<nat>, input: Input)
    requires PutOff(s, initial)
    ensures PutOff(Step(s, input).next, initial)
  {
    hide Next, Upper;
    NextPutsOff(s, initial, input);
    if Active(s) && s.niv3 == Closing(s) {
      assert PutOff(Close(s).next, initial);
      NextPutsOff(Close(s).next, initial, input);
    }
  }

  /** A short list is always safe. */
  lemma {:induction false} ShortListSafe(s: Session, initial: set<nat>, inputs: seq<Input>)
    requires PutOff(s, initial) && |initial| <= NB_DEL
    ensures Safe(s, inputs) && PutOff(Run(s, inputs).next, initial)
    decreases |inputs|
  {
    if inputs == [] {
    } else {
      hide Step, Upper, PutOff;
      var m := Run(s, inputs[..|inputs| - 1]);
      ShortListSafe(s, initial, inputs[..|inputs| - 1]);
      StepPutsOff(m.next, initial, inputs[|inputs| - 1]);
      RoomForOne(m.next, initial);
    }
  }

  lemma RoomForOne(s: Session, initial: set<nat>)
    requires PutOff(s, initial) && |initial| <= NB_DEL
    ensures Active(s) && s.niv3 == Asking(s) ==> |s.egal| < NB_DEL
  {
    if Active(s) && s.niv3 == Asking(s) {
      NoMoreThan(s.egal + [s.entmes], initial);
    }
  }

  /** One line that is prompt and answer L at once, when message `n` is the next. */
  function PromptOrLater(n: nat): Input {
    Input('L', true, false, [n], {n})
  }

  /** Two calls for each message: it is proposed, and put off. */
  function PuttingOff(ns: seq<nat>): seq<Input> {
    if ns == [] then []
    else
      var n := ns[|ns| - 1];
      PuttingOff(ns[..|ns| - 1]) + [PromptOrLater(n)] + [PromptOrLater(n)]
  }

  /** The session goes on to the next message at a prompt. */
  predicate Between(s: Session) {
    Active(s) && (s.niv3 == Later(s) || (s.reverse && s.niv3 == 0) || (s.niv3 == Closing(s) && s.entmes == 0))
  }

  lemma ProposedNext(s: Session, n: nat)
    requires Between(s) && n in s.waiting && n !in s.egal
    ensures Step(s, PromptOrLater(n)).next == s.(entmes := n, niv3 := Asking(s))
    ensures Step(s.(entmes := n, niv3 := Asking(s)), PromptOrLater(n)).next ==
            s.(entmes := n, niv3 := Later(s), egal := s.egal + [n])
  {}

  lemma {:induction false} AllPutOff(s: Session, ns: seq<nat>)
    requires Between(s) && s.egal == [] && NoRepeat(ns) && forall n :: n in ns ==> n in s.waiting
    ensures var t := Run(s, PuttingOff(ns)).next; Between(t) && t == s.(entmes := t.entmes, niv3 := t.niv3, egal := ns)
    decreases |ns|
  {
    if ns == [] {
    } else {
      hide Step, Run;
      var init, n := ns[..|ns| - 1], ns[|ns| - 1];
      assert ns == init + [n];
      AllPutOff(s, init);
      var t := Run(s, PuttingOff(init)).next;
      ProposedNext(t, n);
      RunOn(s, PuttingOff(init), PromptOrLater(n));
      RunOn(s, PuttingOff(init) + [PromptOrLater(n)], PromptOrLater(n));
    }
  }

  lemma {:induction false} SomeOf(all: set<nat>, k: nat) returns (ns: seq<nat>)
    requires k <= |all|
    ensures |ns| == k && NoRepeat(ns) && forall n :: n in ns ==> n in all
    decreases k
  {
    if k == 0 {
      ns := [];
    } else {
      var n :| n in all;
      ns := SomeOf(all - {n}, k - 1);
      ns := ns + [n];
    }
  }

  /** A session that begins at a prompt and has fifty-one messages waiting can overrun. */
  lemma CanOverrun(s: Session) returns (inputs: seq<Input>)
    requires Between(s) && s.egal == [] && |s.waiting| > NB_DEL
    ensures !Safe(s, inputs)
  {
    var ns := SomeOf(s.waiting, NB_DEL + 1);
    var fifty, n := ns[..NB_DEL], ns[NB_DEL];
    AllPutOff(s, fifty);
    var t := Run(s, PuttingOff(fifty)).next;
    ProposedNext(t, n);
    RunOn(s, PuttingOff(fifty), PromptOrLater(n));
    var asked := PuttingOff(fifty) + [PromptOrLater(n)];
    inputs := asked + [PromptOrLater(n)];
    assert inputs[..|asked|] == asked;
    assert Overruns(Run(s, asked).next, PromptOrLater(n));
  }

  /** Every session is safe exactly if it begins with at most fifty messages waiting. */
  lemma SafeSessions(reverse: bool, revMode: bool, clock: bool, waiting: set<nat>)
    ensures (forall inputs :: Safe(Start(reverse, revMode, clock, waiting), inputs)) <==> |waiting| <= NB_DEL
  {
    var s := Start(reverse, revMode, clock, waiting);
    if |waiting| <= NB_DEL {
      forall inputs ensures Safe(s, inputs) { ShortListSafe(s, waiting, inputs); }
    } else if Between(s) {
      var inputs := CanOverrun(s);
    } else {
      var inputs := AfterClock(revMode, waiting);
    }
  }

  lemma AfterClock(revMode: bool, waiting: set<nat>) returns (inputs: seq<Input>)
    requires |waiting| > NB_DEL
    ensures !Safe(Start(false, revMode, true, waiting), inputs)
  {
    var s := Start(false, revMode, true, waiting);
    var prompt := PromptOrLater(0);
    var rest := CanOverrun(Step(s, prompt).next);
    inputs := [prompt] + rest;
    SafeRest(s, prompt, rest);
  }

  lemma {:induction false} RunRest(s: Session, first: Input, rest: seq<Input>)
    ensures Run(s, [first] + rest).next == Run(Step(s, first).next, rest).next
    decreases |rest|
  {
    hide Step;
    if rest == [] {
      assert [first] + rest == [] + [first];
      RunOn(s, [], first);
    } else {
      var init, last := rest[..|rest| - 1], rest[|rest| - 1];
      assert rest == init + [last] && [first] + rest == [first] + init + [last];
      RunRest(s, first, init);
      RunOn(s, [first] + init, last);
      RunOn(Step(s, first).next, init, last);
    }
  }

  lemma {:induction false} SafeRest(s: Session, first: Input, rest: seq<Input>)
    ensures Safe(s, [first] + rest) ==> Safe(Step(s, first).next, rest)
    decreases |rest|
  {
    hide Step, Overruns;
    if rest == [] {
    } else {
      var init := rest[..|rest| - 1];
      assert ([first] + rest)[..|rest|] == [first] + init;
      SafeRest(s, first, init);
      RunRest(s, first, init);
    }
  }

  // ---------- the machine ----------

  class Sender {
    const reverse: bool          // `rcv_rev_fwd` rather than `snd_fwd`
    const revMode: bool
    const messEgal: array<nat>
    var nbEgal: nat
    var niv3: nat
    var deconnect: bool
    var left: bool               // another part of the program has taken over
    var entmes: nat
    var waiting: set<nat>
    var statFwd: nat
    ghost const first: Session      // as the session began
    ghost var heard: seq<Input>     // every call so far
    ghost var log: seq<Event>       // everything that has happened

    ghost predicate Sized()
      reads `nbEgal
    {
      messEgal.Length == NB_DEL && nbEgal <= NB_DEL
    }

    ghost function View(): Session
      requires Sized()
      reads this, messEgal
    {
      Session(reverse, revMode, niv3, deconnect, left, entmes, waiting, messEgal[..nbEgal], statFwd)
    }

    /** The session is the run over the calls so far. */
    ghost predicate Valid()
      reads this, messEgal
    {
      && Sized() && Orderly(first, [], first.waiting)
      && Run(first, heard) == Move(View(), log)
    }

    constructor (reverse: bool, revMode: bool, clock: bool, waiting: set<nat>)
      requires 0 !in waiting
      ensures Valid() && heard == [] && log == [] && first == Start(reverse, revMode, clock, waiting)
    {
      this.reverse, this.revMode := reverse, revMode;
      messEgal := new nat[NB_DEL](_ => 0);
      nbEgal := 0;
      niv3 := if reverse then 0 else if clock then 4 else 5;
      deconnect, left := false, false;
      entmes := 0;
      this.waiting := waiting;
      statFwd := 0;
      first := Start(reverse, revMode, clock, waiting);
      heard, log := [], [];
      StartOrderly(reverse, revMode, clock, waiting);
    }

    /** `fin_envoi_fwd`. */
    method FinEnvoi() returns (ok: bool)
      requires Sized()
      modifies this`waiting, this`log, this`statFwd
      ensures Move(View(), log) == Then(old(log), Close(old(View()))) && ok == (entmes != 0)
    {
      if entmes == 0 {
        return false;
      }
      waiting := waiting - {entmes};
      statFwd := statFwd + 1;
      log := log + [Closed(entmes)];
      ok := true;
    }

    method IsEgal(n: nat) returns (b: bool)
      requires Sized()
      ensures b <==> n in messEgal[..nbEgal]
    {
      for i := 0 to nbEgal
        invariant n !in messEgal[..i]
      {
        if messEgal[i] == n {
          return true;
        }
      }
      return false;
    }

    method MessSuiv(picks: seq<nat>, alive: set<nat>) returns (ok: bool)
      requires Sized()
      modifies this`waiting, this`log, this`entmes
      ensures var (m, found) := Search(old(View()), picks, alive);
              Move(View(), log) == Then(old(log), m) && ok == found
    {
      ghost var s, before := View(), log;
      ok := false;
      assert picks[0..] == picks;
      for i := 0 to |picks|
        invariant Sized()
        invariant var (m, found) := Search(s, picks, alive); var (k, more) := Search(View(), picks[i..], alive);
                  Then(before, m) == Then(log, k) && found == more
      {
        assert picks[i..][0] == picks[i] && picks[i..][1..] == picks[i + 1..];
        var egal := IsEgal(picks[i]);
        if picks[i] !in waiting || egal {
          return;
        }
        if picks[i] in alive {
          entmes := picks[i];
          ok := true;
          return;
        }
        ghost var rest := Search(View().(waiting := waiting - {picks[i]}), picks[i + 1..], alive).0;
        assert log + [Cleared(picks[i])] + rest.events == log + ([Cleared(picks[i])] + rest.events);
        waiting := waiting - {picks[i]};
        log := log + [Cleared(picks[i])];
      }
    }

    /** `entete_envoi_fwd` or the way out, behind the search. */
    method NextOrLeave(input: Input)
      requires Sized()
      modifies this`waiting, this`log, this`entmes, this`niv3, this`deconnect, this`left
      ensures Move(View(), log) == Then(old(log), Next(old(View()), input))
    {
      hide Search, Sized;
      ghost var s := View();
      SearchFrame(s, input.picks, input.alive);
      var more := MessSuiv(input.picks, input.alive);
      if more {
        log := log + [Proposed(entmes)];
        niv3 := if reverse then 1 else 6;
      } else if reverse || revMode {
        left := true;
      } else {
        deconnect := true;
      }
    }

    /** The body, or as much of it as can go now. */
    method SndMess(bodyDone: bool)
      requires Sized()
      modifies this`log, this`niv3
      ensures Move(View(), log) == Then(old(log), SendBody(old(View()), bodyDone))
    {
      if bodyDone {
        log := log + [Sent(entmes)];
        niv3 := if reverse then 2 else 5;
      } else {
        niv3 := if reverse then 3 else 7;
      }
    }

    /** The partner's answer; only an L needs room in `mess_egal`. */
    method TakeAnswer(input: Input)
      requires Sized() && (Upper(input.first) == 'L' ==> nbEgal < NB_DEL)
      modifies this`log, this`niv3, this`nbEgal, this`deconnect, messEgal
      ensures Sized() && Move(View(), log) == Then(old(log), Answer(old(View()), input))
    {
      ghost var egal := messEgal[..nbEgal];
      match Upper(input.first) {
        case 'O' =>
          log := log + [Answered(entmes, 'O')];
          SndMess(input.bodyDone);
        case 'N' =>
          log := log + [Answered(entmes, 'N')];
          niv3 := if reverse then 2 else 5;
        case 'R' =>
          log := log + [Answered(entmes, 'R')];
          niv3 := if reverse then 2 else 5;
        case 'L' =>
          log := log + [Answered(entmes, 'L')];
          niv3 := if reverse then 4 else 8;
          messEgal[nbEgal] := entmes;
          nbEgal := nbEgal + 1;
          assert messEgal[..nbEgal] == egal + [entmes];
        case _ =>
          deconnect := true;
      }
    }

    /** `snd_fwd`, states 4 to 8. */
    method SndFwd(input: Input)
      requires Sized() && Active(View()) && !reverse && 4 <= niv3 <= 8 && !Overruns(View(), input)
      modifies this, messEgal
      ensures Sized() && Move(View(), log) == Then(old(log), Step(old(View()), input)) && heard == old(heard)
    {
      hide Next, SendBody, Answer;
      assert log + [] == log;
      match niv3 {
        case 4 =>
          if input.prompt {
            niv3 := 5;
          }
        case 5 =>
          if input.prompt {
            var closed := FinEnvoi();
            NextOrLeave(input);
          }
        case 6 => TakeAnswer(input);
        case 7 => SndMess(input.bodyDone);
        case _ =>
          if input.prompt {
            NextOrLeave(input);
          }
      }
    }

    /** `rcv_rev_fwd`. */
    method RcvRevFwd(input: Input)
      requires Sized() && Active(View()) && reverse && niv3 <= 4 && !Overruns(View(), input)
      modifies this, messEgal
      ensures Sized() && Move(View(), log) == Then(old(log), Step(old(View()), input)) && heard == old(heard)
    {
      hide Next, SendBody, Answer;
      assert log + [] == log;
      match niv3 {
        case 0 => NextOrLeave(input);
        case 1 => TakeAnswer(input);
        case 2 =>
          if input.prompt {
            var closed := FinEnvoi();
            NextOrLeave(input);
          }
        case 3 => SndMess(input.bodyDone);
        case _ =>
          if input.prompt {
            NextOrLeave(input);
          }
      }
    }

    /** One call from the dispatcher, which stops calling once a channel is to be
        disconnected. */
    method Deliver(input: Input)
      requires Valid() && !Overruns(View(), input)
      modifies this, messEgal
      ensures Valid() && heard == old(heard) + [input]
      ensures log == old(log) + Step(old(View()), input).events
    {
      RunKeeps(first, heard, first.waiting);
      hide Step, Books, Track, Closings, Deferrals, Run;
      OverIsOver(View(), input);
      RunOn(first, heard, input);
      assert log + [] == log;
      if !deconnect && !left {
        if reverse {
          RcvRevFwd(input);
        } else {
          SndFwd(input);
        }
      }
      heard := heard + [input];
    }

    /** A whole session, as long as the partner puts off no more than fifty messages. */
    method Serve(inputs: seq<Input>)
      requires Valid() && heard == [] && Safe(first, inputs)
      modifies this, messEgal
      ensures Valid() && heard == inputs
    {
      hide Run, Orderly, Overruns;
      for i := 0 to |inputs|
        invariant Valid() && heard == inputs[..i]
      {
        SafeAt(first, inputs, i);
        assert inputs[..i + 1] == inputs[..i] + [inputs[i]];
        Deliver(inputs[i]);
      }
      assert inputs[..|inputs|] == inputs;
    }
  }
}
