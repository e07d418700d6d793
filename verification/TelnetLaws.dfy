/** What the Telnet filter delivers, by the positions of its input: which bytes of text stay,
    what commands do, and what is answered. */
module TelnetLaws {
  import opened Bytes
  import opened Telnet

  // ---------- text ----------

  /** How many carriage returns stand right before position `i`. */
  function CrsBefore(input: seq<byte>, i: nat): (n: nat)
    requires i <= |input|
    ensures n <= i
  {
    if i > 0 && input[i - 1] == CR then CrsBefore(input, i - 1) + 1 else 0
  }

  /** A line feed the filter swallows: the carriage returns before it are odd in number, so the
      last of them was read as text. */
  predicate Swallowed(bs: bool, input: seq<byte>, i: nat)
    requires i < |input|
  {
    bs && input[i] == LF && CrsBefore(input, i) % 2 == 1
  }

  /** The bytes among the first `n` that are not swallowed. */
  function Kept(bs: bool, input: seq<byte>, n: nat): seq<byte>
    requires n <= |input|
  {
    if n == 0 then []
    else Kept(bs, input, n - 1) + (if Swallowed(bs, input, n - 1) then [] else [input[n - 1]])
  }

  predicate Idle(s: State) { s.pial == 0 && !s.nego }

  /** Where the filter stands behind the first `n` bytes of a text. */
  function Behind(m: Mode, s: State, input: seq<byte>, n: nat): State
    requires n <= |input|
  {
    s.(pial := if m.bs && CrsBefore(input, n) % 2 == 1 then 10 else 0)
  }

  lemma TextStep(m: Mode, s: State, input: seq<byte>, n: nat)
    requires Idle(s) && 0 < n <= |input| && input[n - 1] != IAC
    ensures Feed1(m, Behind(m, s, input, n - 1), input[n - 1]) ==
            Step(Behind(m, s, input, n), if Swallowed(m.bs, input, n - 1) then [] else [input[n - 1]], [])
  {}

  lemma NoText(m: Mode, s: State, input: seq<byte>)
    requires Idle(s)
    ensures Feed(m, s, input[..0]) == Step(Behind(m, s, input, 0), [], [])
  {}

  lemma {:induction false} TextUpTo(m: Mode, s: State, input: seq<byte>, n: nat)
    requires Idle(s) && IAC !in input && n <= |input|
    ensures Feed(m, s, input[..n]) == Step(Behind(m, s, input, n), Kept(m.bs, input, n), [])
    decreases n
  {
    hide CrsBefore, Swallowed, Feed, Feed1, Behind, Idle;
    if n == 0 {
      NoText(m, s, input);
    } else {
      TextUpTo(m, s, input, n - 1);
      FeedNext(m, s, input, n - 1);
      assert input[n - 1] in input;
      TextStep(m, s, input, n);
    }
  }

  /** Text without IAC: every byte is delivered but the swallowed line feeds, nothing is
      answered, and the filter stands behind a carriage return exactly if an odd number of them
      ends the text. */
  lemma TextDelivered(m: Mode, s: State, input: seq<byte>)
    requires Idle(s) && IAC !in input
    ensures var step := Feed(m, s, input);
            && step.out == Kept(m.bs, input, |input|) && step.sent == []
            && step.next == s.(pial := if m.bs && CrsBefore(input, |input|) % 2 == 1 then 10 else 0)
  {
    TextUpTo(m, s, input, |input|);
    assert input[..|input|] == input;
  }

  lemma {:induction false} NothingSwallowed(bs: bool, input: seq<byte>, n: nat)
    requires n <= |input| && forall i :: 0 <= i < n ==> !Swallowed(bs, input, i)
    ensures Kept(bs, input, n) == input[..n]
    decreases n
  {
    if n == 0 {
    } else {
      NothingSwallowed(bs, input, n - 1);
      assert input[..n] == input[..n - 1] + [input[n - 1]];
    }
  }

  lemma {:induction false} KeptShorter(bs: bool, input: seq<byte>, n: nat)
    requires n <= |input|
    ensures |Kept(bs, input, n)| <= n
    ensures (exists i :: 0 <= i < n && Swallowed(bs, input, i)) ==> |Kept(bs, input, n)| < n
    decreases n
  {
    if n == 0 {
    } else {
      KeptShorter(bs, input, n - 1);
    }
  }

  /** So text comes out unchanged exactly if no line feed stands behind an odd number of
      carriage returns, or CR LF is not the channel's line end. */
  lemma TextUnchanged(m: Mode, s: State, input: seq<byte>)
    requires Idle(s) && IAC !in input
    ensures Feed(m, s, input).out == input <==>
            !m.bs || forall i :: 0 <= i < |input| && input[i] == LF ==> CrsBefore(input, i) % 2 == 0
  {
    hide Feed, CrsBefore, Kept;
    TextDelivered(m, s, input);
    KeptShorter(m.bs, input, |input|);
    if forall i :: 0 <= i < |input| ==> !Swallowed(m.bs, input, i) {
      NothingSwallowed(m.bs, input, |input|);
      forall i | 0 <= i < |input| && input[i] == LF ensures m.bs ==> CrsBefore(input, i) % 2 == 0 {
        assert !Swallowed(m.bs, input, i);
      }
      assert input[..|input|] == input;
    } else {
      var i :| 0 <= i < |input| && Swallowed(m.bs, input, i);
      assert input[i] == LF && CrsBefore(input, i) % 2 == 1;
    }
  }

  // ---------- commands ----------

  /** IAC IAC is the byte 255, a short command is nothing, an option command with its option is
      nothing either; only SB leaves the filter in another state. Right behind a carriage return
      the filter looks for a line feed alone and takes IAC for text. */
  lemma Commands(m: Mode, s: State, c: byte, x: byte)
    requires Idle(s)
    ensures Feed(m, s, [IAC, IAC]) == Step(s, [IAC], [])
    ensures SE <= c <= SB ==> Feed(m, s, [IAC, c]) == Step(s.(nego := c == SB), [], [])
    ensures c < SE || SB < c < IAC ==>
      && Feed(m, s, [IAC, c, x]).out == [] && Idle(Feed(m, s, [IAC, c, x]).next)
    ensures m.bs ==> Feed(m, s, [CR, IAC]) == Step(s, [CR, IAC], [])
  {
    FeedTwo(m, s, IAC, c);
    FeedTwo(m, s, IAC, IAC);
    FeedTwo(m, s, CR, IAC);
    FeedSnoc(m, s, [IAC, c], x);
    assert [IAC, c] + [x] == [IAC, c, x];
  }

  /** Every option offered is refused but echoing, and line mode is not wanted; a zero byte
      would end the answer. Where `char` is signed nothing is answered. */
  lemma Answers(m: Mode, s: State, c: byte, x: byte)
    requires Idle(s) && (c < SE || SB < c < IAC)
    ensures Feed(m, s, [IAC, c, x]).sent ==
            if m.signedChar then []
            else if c == 253 && x == 0 then [255, 252]
            else if c == 253 && x != 1 then [255, 252, x]
            else if c == 251 && x == 34 then [255, 254, 34]
            else []
  {
    FeedTwo(m, s, IAC, c);
    FeedSnoc(m, s, [IAC, c], x);
    assert [IAC, c] + [x] == [IAC, c, x];
  }

  // ---------- subnegotiation ----------

  function Iacs(input: seq<byte>): nat {
    if input == [] then 0 else Iacs(input[..|input| - 1]) + (if input[|input| - 1] == IAC then 1 else 0)
  }

  /** Inside a subnegotiation every second IAC is delivered and nothing else. */
  lemma {:induction false} InSubnegotiation(m: Mode, s: State, input: seq<byte>)
    requires s.pial == 0 && s.nego
    ensures Feed(m, s, input) == Step(s.(pial := Iacs(input) % 2), seq(Iacs(input) / 2, _ => IAC), [])
    decreases |input|
  {
    if input == [] {
    } else {
      InSubnegotiation(m, s, input[..|input| - 1]);
    }
  }

  // ---------- out ----------

  /** In binary mode nothing is escaped; else how long the escaped bytes are: one more for each carriage return with CR LF line ends,
      and for each byte 255 where `char` is unsigned. */
  lemma {:induction false} EscapeLength(m: Mode, s: seq<byte>)
    ensures Wire(m, true, s) == s && Wire(m, false, s) == Escape(m, s)
    ensures |Escape(m, s)| ==
            |s| + (if m.bs then multiset(s)[CR] else 0) + (if m.signedChar then 0 else multiset(s)[IAC])
    decreases |s|
  {
    if s == [] {
    } else {
      EscapeLength(m, s[..|s| - 1]);
      assert s == s[..|s| - 1] + [s[|s| - 1]];
    }
  }
}
