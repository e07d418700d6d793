/** The Telnet filter of the TCP driver: doubling IAC and CR LF on the way out, undoing it in
    place and across reads on the way in. */
module Telnet {
  import opened Bytes
  import opened Sequences

  const LF: byte := 0x0a
  const CR: byte := 0x0d
  const SE: byte := 0xf0
  const SB: byte := 0xfa
  const WILL: byte := 0xfb
  const WONT: byte := 0xfc
  const DO: byte := 0xfd
  const DONT: byte := 0xfe
  const IAC: byte := 0xff
  const TN_ECHO: byte := 1
  const TN_LINEMODE: byte := 34

  /** A channel's settings: `bs` for CR LF line ends; and whether the machine's `char` is
      signed, so that no stored byte ever equals a constant above 127. */
  datatype Mode = Mode(bs: bool, signedChar: bool)

  predicate IsCode(m: Mode, c: byte, code: byte) {
    c == code && !(m.signedChar && code >= 128)
  }

  // ---------- out ----------

  /** What one byte becomes on the wire. */
  function Escape1(m: Mode, c: byte): seq<byte> {
    if c == CR && m.bs then [CR, LF]
    else if IsCode(m, c, IAC) then [IAC, IAC]
    else [c]
  }

  function Escape(m: Mode, s: seq<byte>): seq<byte> {
    if s == [] then [] else Escape(m, s[..|s| - 1]) + Escape1(m, s[|s| - 1])
  }

  lemma {:induction false} EscapeGrows(m: Mode, s: seq<byte>, i: nat)
    requires i <= |s|
    ensures |Escape(m, s[..i])| <= |Escape(m, s)|
    decreases |s|
  {
    if i == |s| {
      assert s[..i] == s;
    } else {
      assert s[..|s| - 1][..i] == s[..i];
      EscapeGrows(m, s[..|s| - 1], i);
    }
  }

  /** What goes on the wire for a piece. */
  function Wire(m: Mode, binary: bool, s: seq<byte>): seq<byte> {
    if binary then s else Escape(m, s)
  }

  /** `tcp_snd_dt`, up to the `write`: the bytes put in its buffer, which must hold them. */
  method SndDt(m: Mode, binary: bool, buffer: array<byte>, len: nat) returns (buf: array<byte>, nb: nat)
    requires len <= buffer.Length && |Wire(m, binary, buffer[..len])| <= 600
    ensures fresh(buf) && nb <= buf.Length == 600
    ensures buf[..nb] == Wire(m, binary, buffer[..len])
  {
    buf := new byte[600](_ => 0);
    nb := 0;
    for i := 0 to len
      invariant nb <= 600 && buf[..nb] == Wire(m, binary, buffer[..i])
    {
      assert buffer[..i + 1][..i] == buffer[..i] && buffer[..len][..i + 1] == buffer[..i + 1];
      EscapeGrows(m, buffer[..len], i + 1);
      nb := Put(m, binary, buffer[i], buf, nb);
    }
  }

  /** One byte into the buffer, and its double or line feed. */
  method Put(m: Mode, binary: bool, c: byte, buf: array<byte>, nb: nat) returns (n: nat)
    requires nb + |if binary then [c] else Escape1(m, c)| <= buf.Length
    modifies buf
    ensures n == nb + |if binary then [c] else Escape1(m, c)|
    ensures buf[..n] == old(buf[..nb]) + (if binary then [c] else Escape1(m, c))
  {
    buf[nb] := c;
    n := nb + 1;
    if !binary {
      if c == CR && m.bs {
        buf[n] := LF;
        n := n + 1;
      } else if IsCode(m, c, IAC) {
        buf[n] := IAC;
        n := n + 1;
      }
    }
  }

  // ---------- in ----------

  /** Where the filter stands between two bytes: 0 in text, 1 behind IAC, 2 behind IAC and
      an option command, 10 behind CR. */
  datatype State = State(pial: nat, option: byte, nego: bool)

  datatype Step = Step(next: State, out: seq<byte>, sent: seq<byte>)

  /** Commands that end where they stand. */
  predicate Short(c: byte) { SE <= c <= SB }

  /** The answer to an option, cut at the first zero byte. */
  function Answer(m: Mode, option: byte, c: byte): seq<byte> {
    if IsCode(m, option, WILL) then (if c == TN_LINEMODE then [IAC, DONT, c] else [])
    else if IsCode(m, option, DO) then
      (if c == TN_ECHO then [] else if c == 0 then [IAC, WONT] else [IAC, WONT, c])
    else []
  }

  /** What the filter makes of one byte. */
  function Feed1(m: Mode, s: State, c: byte): Step {
    if s.pial == 0 then
      if c == IAC then Step(s.(pial := 1), [], [])
      else if s.nego then Step(s, [], [])
      else Step(if c == CR && m.bs then s.(pial := 10) else s, [c], [])
    else if s.pial == 1 then
      if c == IAC then Step(s.(pial := 0), [c], [])
      else if s.nego then Step(s, [], [])
      else if Short(c) then Step(s.(pial := 0, nego := c == SB), [], [])
      else Step(s.(pial := 2, option := c), [], [])
    else if s.pial == 2 then
      Step(s.(pial := 0), [], Answer(m, s.option, c))
    else
      Step(s.(pial := 0), if c == LF then [] else [c], [])
  }

  function Feed(m: Mode, s: State, input: seq<byte>): Step {
    if input == [] then Step(s, [], [])
    else
      var before := Feed(m, s, input[..|input| - 1]);
      var last := Feed1(m, before.next, input[|input| - 1]);
      Step(last.next, before.out + last.out, before.sent + last.sent)
  }

  /** One step behind another. */
  function Then(x: Step, y: Step): Step {
    Step(y.next, x.out + y.out, x.sent + y.sent)
  }

  lemma ThenNothing(x: Step)
    ensures Then(x, Step(x.next, [], [])) == x
  {}

  lemma ThenAssoc(x: Step, y: Step, z: Step)
    ensures Then(Then(x, y), z) == Then(x, Then(y, z)) && Then(x, y).next == y.next
  {
    Assoc(x.out, y.out, z.out);
    Assoc(x.sent, y.sent, z.sent);
  }

  lemma FeedSnoc(m: Mode, s: State, a: seq<byte>, c: byte)
    ensures Feed(m, s, a + [c]) == Then(Feed(m, s, a), Feed1(m, Feed(m, s, a).next, c))
  {
    assert (a + [c])[..|a|] == a;
  }

  /** The first `i` bytes of a stream, and the next one. */
  lemma FeedNext(m: Mode, s: State, input: seq<byte>, i: nat)
    requires i < |input|
    ensures Feed(m, s, input[..i + 1]) == Then(Feed(m, s, input[..i]), Feed1(m, Feed(m, s, input[..i]).next, input[i]))
  {
    assert input[..i + 1] == input[..i] + [input[i]];
    FeedSnoc(m, s, input[..i], input[i]);
  }

  class Channel {
    const m: Mode
    var binary: bool
    var lgial: nat
    var option: byte      // `ial[1]`
    var nego: bool
    var sent: seq<byte>   // what the filter has written back

    function Now(): State
      reads this
    {
      State(lgial, option, nego)
    }

    ghost predicate Valid()
      reads this
    {
      lgial == 0 || lgial == 1 || lgial == 2 || lgial == 10
    }

    /** Write back the answer to an option. */
    method Reply(carac: byte)
      modifies this`sent
      ensures sent == old(sent) + Answer(m, option, carac)
    {
      if IsCode(m, option, WILL) {
        if carac == TN_LINEMODE {
          sent := sent + [IAC, DONT, carac];
        }
      } else if IsCode(m, option, DO) {
        if carac != TN_ECHO {
          sent := sent + (if carac == 0 then [IAC, WONT] else [IAC, WONT, carac]);
        }
      }
    }

    /** `tcp_trame`: the filter runs over a buffer in place, never writing ahead of where it
        reads, and can be cut anywhere. */
    method Trame(data: array<byte>, len: nat) returns (olg: nat)
      requires Valid() && len <= data.Length
      modifies this`lgial, this`option, this`nego, this`sent, data
      ensures Valid() && olg <= len && data[len..] == old(data[len..])
      ensures binary ==> olg == len && data[..] == old(data[..]) && Now() == old(Now()) && sent == old(sent)
      ensures !binary ==>
        var step := Feed(m, old(Now()), old(data[..len]));
        data[..olg] == step.out && Now() == step.next && sent == old(sent) + step.sent
    {
      if binary {
        return len;
      }
      ghost var input, start, wrote := data[..len], Now(), sent;
      olg := 0;
      for i := 0 to len
        invariant Valid() && olg <= i
        invariant data[i..] == old(data[i..])
        invariant data[..olg] == Feed(m, start, input[..i]).out && Now() == Feed(m, start, input[..i]).next
        invariant sent == wrote + Feed(m, start, input[..i]).sent
      {
        hide Feed, Feed1;
        assert data[i] == data[i..][0] == input[i];
        ghost var before := Feed(m, start, input[..i]);
        FeedNext(m, start, input, i);
        Assoc(wrote, before.sent, Feed1(m, before.next, input[i]).sent);
        olg := Byte(data, i, olg);
        assert data[i + 1..] == old(data[i..])[1..];
      }
      assert input[..len] == input;
    }

    /** One byte of `tcp_trame`. */
    method Byte(data: array<byte>, i: nat, olg: nat) returns (n: nat)
      requires Valid() && olg <= i < data.Length
      modifies this`lgial, this`option, this`nego, this`sent, data
      ensures Valid() && n <= i + 1 && data[i + 1..] == old(data[i + 1..])
      ensures var step := Feed1(m, old(Now()), old(data[i]));
              data[..n] == old(data[..olg]) + step.out && Now() == step.next && sent == old(sent) + step.sent
    {
      var carac := data[i];
      n := olg;
      if lgial == 0 {
        if carac == IAC {
          lgial := 1;
        } else if !nego {
          data[n] := carac;
          n := n + 1;
          if carac == CR && m.bs {
            lgial := 10;
          }
        }
      } else if lgial == 1 {
        if carac == IAC {
          data[n] := carac;
          n := n + 1;
          lgial := 0;
        } else if !nego {
          if Short(carac) {
            nego := carac == SB;
            lgial := 0;
          } else {
            option := carac;
            lgial := 2;
          }
        }
      } else if lgial == 2 {
        Reply(carac);
        lgial := 0;
      } else {
        if carac != LF {
          data[n] := carac;
          n := n + 1;
        }
        lgial := 0;
      }
    }
  }

  // ---------- laws ----------

  /** Cutting the stream anywhere changes nothing. */
  lemma {:induction false} FeedConcat(m: Mode, s: State, a: seq<byte>, b: seq<byte>)
    ensures Feed(m, s, a + b) == Then(Feed(m, s, a), Feed(m, Feed(m, s, a).next, b))
    decreases |b|
  {
    hide Feed1, Then;
    if b == [] {
      assert a + b == a;
      ThenNothing(Feed(m, s, a));
    } else {
      hide Feed;
      var init, c := b[..|b| - 1], b[|b| - 1];
      assert b == init + [c];
      FeedConcat(m, s, a, init);
      FeedSnoc(m, s, a + init, c);
      FeedSnoc(m, Feed(m, s, a).next, init, c);
      ThenAssoc(Feed(m, s, a), Feed(m, Feed(m, s, a).next, init), Feed1(m, Feed(m, s, a + init).next, c));
      assert a + b == a + init + [c];
    }
  }

  function Joined(chunks: seq<seq<byte>>): seq<byte> {
    if chunks == [] then [] else Joined(chunks[..|chunks| - 1]) + chunks[|chunks| - 1]
  }

  /** One call of the filter after the other. */
  function FeedAll(m: Mode, s: State, chunks: seq<seq<byte>>): Step {
    if chunks == [] then Step(s, [], [])
    else
      var before := FeedAll(m, s, chunks[..|chunks| - 1]);
      var last := Feed(m, before.next, chunks[|chunks| - 1]);
      Step(last.next, before.out + last.out, before.sent + last.sent)
  }

  /** However the reads cut the stream, the filter delivers the same bytes, sends the same
      answers and ends in the same state. */
  lemma {:induction false} CutAnywhere(m: Mode, s: State, chunks: seq<seq<byte>>)
    ensures FeedAll(m, s, chunks) == Feed(m, s, Joined(chunks))
    decreases |chunks|
  {
    if chunks == [] {
    } else {
      CutAnywhere(m, s, chunks[..|chunks| - 1]);
      FeedConcat(m, s, Joined(chunks[..|chunks| - 1]), chunks[|chunks| - 1]);
    }
  }

  lemma FeedOne(m: Mode, s: State, a: byte)
    ensures Feed(m, s, [a]) == Feed1(m, s, a)
  {
    assert [a][..0] == [];
  }

  lemma FeedTwo(m: Mode, s: State, a: byte, b: byte)
    ensures var x := Feed1(m, s, a);
            var y := Feed1(m, x.next, b);
            Feed(m, s, [a, b]) == Step(y.next, x.out + y.out, x.sent + y.sent)
  {
    FeedOne(m, s, a);
    FeedOne(m, Feed1(m, s, a).next, b);
    FeedConcat(m, s, [a], [b]);
    assert [a] + [b] == [a, b];
  }

  /** What one escaped byte comes back as. */
  lemma FeedEscaped(m: Mode, s: State, c: byte)
    requires s.pial == 0 && !s.nego && (m.signedChar ==> c != IAC)
    ensures Feed(m, s, Escape1(m, c)) == Step(s, [c], [])
  {
    if |Escape1(m, c)| == 2 {
      FeedTwo(m, s, Escape1(m, c)[0], Escape1(m, c)[1]);
    } else {
      FeedOne(m, s, c);
    }
  }

  /** The filter undoes the escaping: every byte string comes back as it was and the filter
      is idle again; with a signed `char` this holds of strings without the byte 255. */
  lemma {:induction false} FilterInverts(m: Mode, s: State, data: seq<byte>)
    requires s.pial == 0 && !s.nego && (m.signedChar ==> IAC !in data)
    ensures Feed(m, s, Escape(m, data)) == Step(s, data, [])
  {
    if data == [] {
    } else {
      var n := |data| - 1;
      assert data == data[..n] + [data[n]] && data[n] in data;
      FilterInverts(m, s, data[..n]);
      FeedEscaped(m, s, data[n]);
      FeedConcat(m, s, Escape(m, data[..n]), Escape1(m, data[n]));
    }
  }

  /** Where `char` is signed nothing is escaped, and one byte still comes back as one at most. */
  lemma OneAtMost(m: Mode, s: State, c: byte)
    requires s.pial <= 2 && m.signedChar
    ensures var step := Feed(m, s, Escape1(m, c));
            step.next.pial <= 2 && |step.out| <= 1
  {
    if c == CR && m.bs {
      FeedTwo(m, s, CR, LF);
    } else {
      FeedOne(m, s, c);
    }
  }

  lemma {:induction false} NoGain(m: Mode, s: State, data: seq<byte>)
    requires s.pial <= 2 && m.signedChar
    ensures var step := Feed(m, s, Escape(m, data));
            step.next.pial <= 2 && |step.out| <= |data|
    decreases |data|
  {
    hide Feed1, Escape1;
    if data == [] {
    } else {
      var n := |data| - 1;
      NoGain(m, s, data[..n]);
      var mid := Feed(m, s, Escape(m, data[..n])).next;
      OneAtMost(m, mid, data[n]);
      FeedConcat(m, s, Escape(m, data[..n]), Escape1(m, data[n]));
    }
  }

  lemma {:induction false} EscapeConcat(m: Mode, a: seq<byte>, b: seq<byte>)
    ensures Escape(m, a + b) == Escape(m, a) + Escape(m, b)
    decreases |b|
  {
    if b == [] {
      assert a + b == a;
    } else {
      assert (a + b)[..|a + b| - 1] == a + b[..|b| - 1];
      EscapeConcat(m, a, b[..|b| - 1]);
      assert Escape(m, a) + Escape(m, b[..|b| - 1]) + Escape1(m, b[|b| - 1])
          == Escape(m, a) + (Escape(m, b[..|b| - 1]) + Escape1(m, b[|b| - 1]));
    }
  }

  /** Where `char` is signed the first byte 255 is lost, and with it the string. */
  lemma SignedLoses(m: Mode, s: State, data: seq<byte>, k: nat)
    requires s.pial == 0 && !s.nego && m.signedChar
    requires k < |data| && data[k] == IAC && IAC !in data[..k]
    ensures |Feed(m, s, Escape(m, data)).out| < |data|
  {
    var a, b := data[..k], data[k + 1..];
    assert data == a + ([IAC] + b);
    EscapeConcat(m, a, [IAC] + b);
    FilterInverts(m, s, a);
    FeedConcat(m, s, Escape(m, a), Escape(m, [IAC] + b));
    LostBehind(m, s, b);
  }

  lemma LostBehind(m: Mode, s: State, b: seq<byte>)
    requires s.pial == 0 && !s.nego && m.signedChar
    ensures |Feed(m, s, Escape(m, [IAC] + b)).out| <= |b|
  {
    EscapeConcat(m, [IAC], b);
    EscapeOne(m, IAC);
    FeedOne(m, s, IAC);
    NoGain(m, s.(pial := 1), b);
    FeedConcat(m, s, [IAC], Escape(m, b));
  }

  lemma EscapeOne(m: Mode, c: byte)
    ensures Escape(m, [c]) == Escape1(m, c)
  {
    assert [c][..0] == [];
  }

  /** The filter inverts the escaping exactly when `char` is unsigned or there is no byte 255
      to escape. */
  lemma FilterInvertsExactly(m: Mode, s: State, data: seq<byte>)
    requires s.pial == 0 && !s.nego
    ensures Feed(m, s, Escape(m, data)).out == data <==> (!m.signedChar || IAC !in data)
  {
    if !m.signedChar || IAC !in data {
      FilterInverts(m, s, data);
    } else {
      var k := FirstIac(data);
      SignedLoses(m, s, data, k);
    }
  }

  lemma {:induction false} FirstIac(data: seq<byte>) returns (k: nat)
    requires IAC in data
    ensures k < |data| && data[k] == IAC && IAC !in data[..k]
  {
    var n := |data| - 1;
    if IAC in data[..n] {
      k := FirstIac(data[..n]);
      assert data[..n][..k] == data[..k];
    } else {
      k := n;
    }
  }

  /** Once a subnegotiation has begun the filter stays in it, whatever comes: the branch that
      would see its end is taken only outside of one. */
  lemma {:induction false} SubnegotiationNeverEnds(m: Mode, s: State, input: seq<byte>)
    requires s.nego && s.pial <= 1
    ensures Feed(m, s, input).next.nego && Feed(m, s, input).next.pial <= 1
    ensures forall c :: c in Feed(m, s, input).out ==> c == IAC
  {
    if input == [] {
    } else {
      SubnegotiationNeverEnds(m, s, input[..|input| - 1]);
    }
  }
}
