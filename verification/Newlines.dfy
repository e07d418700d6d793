/** Line ends on the way in and out of the compressor: `scan_header` and `take` make every
    line end CR LF, and the decoder's output rule relies on it. */
module Newlines {
  import opened Bytes
  import opened SearchTree

  const CR: byte := 13
  const LF: byte := 10

  // ---------- in ----------

  /** `scan_header`: a line feed after every carriage return. */
  function ScanHeader(h: seq<byte>): seq<byte> {
    if h == [] then []
    else (if h[0] == CR then [CR, LF] else [h[0]]) + ScanHeader(h[1..])
  }

  /** The file part of the stream: carriage returns dropped, line feeds made CR LF. */
  function FileStream(f: seq<byte>): seq<byte> {
    if f == [] then []
    else (if f[0] == CR then [] else if f[0] == LF then [CR, LF] else [f[0]]) + FileStream(f[1..])
  }

  /** Everything `take` delivers. */
  function TakeStream(head: seq<byte>, infile: seq<byte>): seq<byte> {
    head + FileStream(infile)
  }

  /** The reader behind `take`. */
  class Taker {
    const head: seq<byte>
    const infile: seq<byte>
    var headlen: nat      // header bytes still to come
    var pos: nat
    var crlf: bool        // a line feed is still owed

    ghost predicate Valid()
      reads this
    {
      headlen <= |head| && pos <= |infile| && (crlf ==> headlen == 0)
    }

    /** What is still to come. */
    ghost function Rest(): seq<byte>
      requires Valid()
      reads this
    {
      head[|head| - headlen..] + (if crlf then [LF] else []) + FileStream(infile[pos..])
    }

    constructor (head: seq<byte>, infile: seq<byte>)
      ensures Valid() && Rest() == TakeStream(head, infile)
    {
      this.head, this.infile := head, infile;
      headlen, pos, crlf := |head|, 0, false;
      new;
      assert infile[0..] == infile;
    }

    method Take() returns (t: Getc<byte>)
      requires Valid()
      modifies this
      ensures Valid()
      ensures if old(Rest()) == [] then t == Eof && Rest() == []
              else t == Char(old(Rest())[0]) && Rest() == old(Rest())[1..]
    {
      if headlen > 0 {
        t := Char(head[|head| - headlen]);
        headlen := headlen - 1;
      } else if crlf {
        t := Char(LF);
        crlf := false;
      } else {
        ghost var rest := Rest();
        while pos < |infile| && infile[pos] == CR
          invariant Valid() && headlen == 0 && !crlf && Rest() == rest
        {
          assert infile[pos..][1..] == infile[pos + 1..];
          pos := pos + 1;
        }
        if pos == |infile| {
          t := Eof;
        } else {
          assert infile[pos..][1..] == infile[pos + 1..];
          if infile[pos] == LF {
            crlf := true;
            t := Char(CR);
          } else {
            t := Char(infile[pos]);
          }
          pos := pos + 1;
        }
      }
    }
  }

  /** The first pass of `Encode` over the file, which only counts: the size it announces is
      the number of bytes `take` will deliver. */
  method CountFile(headlen: nat, infile: seq<byte>) returns (filesize: nat)
    ensures filesize == headlen + |FileStream(infile)|
  {
    filesize := headlen;
    for i := 0 to |infile|
      invariant filesize + |FileStream(infile[i..])| == headlen + |FileStream(infile)|
    {
      assert infile[i..][1..] == infile[i + 1..];
      var c := infile[i];
      if c != CR {
        if c == LF {
          filesize := filesize + 1;
        }
        filesize := filesize + 1;
      }
    }
  }

  // ---------- out ----------

  /** The decoder's output rule: `crlf` is the line end just written out as CR LF, or 0.
      A line end is swallowed only right after the other one. */
  function Normalise(s: seq<byte>, crlf: byte): seq<byte> {
    if s == [] then []
    else
      var c := s[0];
      if c == LF || c == CR then
        if crlf == 0 || crlf == c then [CR, LF] + Normalise(s[1..], c)
        else Normalise(s[1..], crlf)
      else
        [c] + Normalise(s[1..], 0)
  }

  /** The state of the rule after `s`. */
  function LineState(s: seq<byte>, crlf: byte): byte {
    if s == [] then crlf
    else
      var c := s[0];
      if c == LF || c == CR then
        if crlf == 0 || crlf == c then LineState(s[1..], c) else LineState(s[1..], crlf)
      else LineState(s[1..], 0)
  }

  /** What one byte becomes, and the state behind it. */
  function Piece(c: byte, crlf: byte): seq<byte> {
    if c != LF && c != CR then [c] else if crlf == 0 || crlf == c then [CR, LF] else []
  }

  function NextState(c: byte, crlf: byte): byte {
    if c != LF && c != CR then 0 else if crlf == 0 || crlf == c then c else crlf
  }

  lemma NormaliseFirst(c: byte, s: seq<byte>, crlf: byte)
    ensures Normalise([c] + s, crlf) == Piece(c, crlf) + Normalise(s, NextState(c, crlf))
    ensures LineState([c] + s, crlf) == LineState(s, NextState(c, crlf))
  {
    assert ([c] + s)[1..] == s;
  }

  lemma {:induction false} NormaliseConcat(a: seq<byte>, b: seq<byte>, crlf: byte)
    ensures Normalise(a + b, crlf) == Normalise(a, crlf) + Normalise(b, LineState(a, crlf))
    ensures LineState(a + b, crlf) == LineState(b, LineState(a, crlf))
    decreases |a|
  {
    if a == [] {
      assert a + b == b;
    } else {
      hide Normalise, LineState, Piece, NextState;
      var c, rest := a[0], a[1..];
      var next := NextState(c, crlf);
      assert a == [c] + rest && a + b == [c] + (rest + b);
      NormaliseFirst(c, rest, crlf);
      NormaliseFirst(c, rest + b, crlf);
      NormaliseConcat(rest, b, next);
      assert Piece(c, crlf) + Normalise(rest, next) + Normalise(b, LineState(rest, next))
          == Piece(c, crlf) + (Normalise(rest, next) + Normalise(b, LineState(rest, next)));
    }
  }

  function Lines(n: nat): seq<byte> {
    if n == 0 then [] else [CR, LF] + Lines(n - 1)
  }

  ghost predicate Ends(run: seq<byte>) {
    forall i :: 0 <= i < |run| ==> run[i] == CR || run[i] == LF
  }

  function Times(c: byte, run: seq<byte>): nat {
    if run == [] then 0 else (if run[0] == c then 1 else 0) + Times(c, run[1..])
  }

  lemma LinesFirst(n: nat, tail: seq<byte>)
    ensures Lines(n + 1) + tail == [CR, LF] + (Lines(n) + tail)
  {}

  /** Inside a run only its leader counts. */
  lemma {:induction false} InsideRun(run: seq<byte>, rest: seq<byte>, crlf: byte)
    requires Ends(run) && (rest == [] || (rest[0] != CR && rest[0] != LF)) && (crlf == CR || crlf == LF)
    ensures Normalise(run + rest, crlf) == Lines(Times(crlf, run)) + Normalise(rest, 0)
    decreases |run|
  {
    if run == [] {
      assert run + rest == rest && Lines(0) + Normalise(rest, 0) == Normalise(rest, 0);
    } else {
      hide Lines, Normalise;
      InsideRun(run[1..], rest, crlf);
      LinesFirst(Times(crlf, run[1..]), Normalise(rest, 0));
      assert run + rest == [run[0]] + (run[1..] + rest);
      NormaliseFirst(run[0], run[1..] + rest, crlf);
    }
  }

  /** The rule by whole runs of line ends: a run becomes as many line ends as its first byte
      occurs in it, any other byte stays. */
  lemma RunBecomes(run: seq<byte>, rest: seq<byte>, c: byte)
    requires run != [] && Ends(run) && (rest == [] || (rest[0] != CR && rest[0] != LF)) && c != CR && c != LF
    ensures Normalise(run + rest, 0) == Lines(Times(run[0], run)) + Normalise(rest, 0)
    ensures Normalise([c] + rest, 0) == [c] + Normalise(rest, 0)
  {
    hide Lines, Normalise;
    InsideRun(run[1..], rest, run[0]);
    LinesFirst(Times(run[0], run[1..]), Normalise(rest, 0));
    assert run + rest == [run[0]] + (run[1..] + rest);
    NormaliseFirst(run[0], run[1..] + rest, 0);
    NormaliseFirst(c, rest, 0);
  }

  function WithoutCR(s: seq<byte>): seq<byte> {
    if s == [] then [] else (if s[0] == CR then [] else [s[0]]) + WithoutCR(s[1..])
  }

  lemma {:induction false} WithoutConcat(a: seq<byte>, b: seq<byte>)
    ensures WithoutCR(a + b) == WithoutCR(a) + WithoutCR(b)
    decreases |a|
  {
    if a == [] {
      assert a + b == b;
    } else {
      assert (a + b)[1..] == a[1..] + b;
      WithoutConcat(a[1..], b);
    }
  }

  /** Every carriage return is followed by a line feed and every line feed follows one. */
  predicate WellFormed(s: seq<byte>) {
    if s == [] then true
    else if s[0] == CR then |s| >= 2 && s[1] == LF && WellFormed(s[2..])
    else s[0] != LF && WellFormed(s[1..])
  }

  lemma {:induction false} WellFormedConcat(a: seq<byte>, b: seq<byte>)
    requires WellFormed(a)
    ensures WellFormed(a + b) <==> WellFormed(b)
    decreases |a|
  {
    if a == [] {
      assert a + b == b;
    } else if a[0] == CR {
      assert (a + b)[2..] == a[2..] + b;
      WellFormedConcat(a[2..], b);
    } else {
      assert (a + b)[1..] == a[1..] + b;
      WellFormedConcat(a[1..], b);
    }
  }

  /** The rule's output is well formed, whatever comes in. */
  lemma {:induction false} NormaliseWellFormed(s: seq<byte>, crlf: byte)
    ensures WellFormed(Normalise(s, crlf))
    decreases |s|
  {
    if s == [] {
    } else {
      var c := s[0];
      if c == LF || c == CR {
        if crlf == 0 || crlf == c {
          NormaliseWellFormed(s[1..], c);
          assert ([CR, LF] + Normalise(s[1..], c))[2..] == Normalise(s[1..], c);
        } else {
          NormaliseWellFormed(s[1..], crlf);
        }
      } else {
        NormaliseWellFormed(s[1..], 0);
        assert ([c] + Normalise(s[1..], 0))[1..] == Normalise(s[1..], 0);
      }
    }
  }

  lemma {:induction false} NormaliseKeeps(s: seq<byte>, crlf: byte)
    requires WellFormed(s) && (crlf == 0 || crlf == CR)
    ensures Normalise(s, crlf) == s
    decreases |s|
  {
    if s == [] {
    } else {
      if s[0] == CR {
        NormaliseKeeps(s[2..], CR);
        assert s[1..][1..] == s[2..];
        assert s == [CR, LF] + s[2..];
      } else {
        NormaliseKeeps(s[1..], 0);
        assert s == [s[0]] + s[1..];
      }
    }
  }

  /** The output rule is the identity exactly on well-formed streams. */
  lemma NormaliseIdentity(s: seq<byte>)
    ensures Normalise(s, 0) == s <==> WellFormed(s)
  {
    NormaliseWellFormed(s, 0);
    if WellFormed(s) { NormaliseKeeps(s, 0); }
  }

  lemma {:induction false} FileStreamWellFormed(f: seq<byte>)
    ensures WellFormed(FileStream(f))
  {
    if f == [] {
    } else {
      FileStreamWellFormed(f[1..]);
      if f[0] == LF {
        assert ([CR, LF] + FileStream(f[1..]))[2..] == FileStream(f[1..]);
      } else if f[0] != CR {
        assert ([f[0]] + FileStream(f[1..]))[1..] == FileStream(f[1..]);
      } else {
        assert FileStream(f) == FileStream(f[1..]);
      }
    }
  }

  /** The file part of the stream in other words: the well-formed stream that differs from the
      file in carriage returns only. */
  lemma {:induction false} FileStreamIs(f: seq<byte>)
    ensures WellFormed(FileStream(f)) && WithoutCR(FileStream(f)) == WithoutCR(f)
  {
    FileStreamWellFormed(f);
    if f == [] {
    } else {
      FileStreamIs(f[1..]);
      var piece := if f[0] == CR then [] else if f[0] == LF then [CR, LF] else [f[0]];
      WithoutConcat(piece, FileStream(f[1..]));
      assert [CR, LF][1..] == [LF] && [LF][1..] == [] && [f[0]][1..] == [];
      assert WithoutCR([LF]) == [LF] && WithoutCR([CR, LF]) == [LF];
    }
  }

  /** And no other well-formed stream does. */
  lemma {:induction false} WellFormedApart(s: seq<byte>, t: seq<byte>)
    requires WellFormed(s) && WellFormed(t) && WithoutCR(s) == WithoutCR(t)
    ensures s == t
    decreases |s|
  {
    if s == [] || t == [] {
      EmptyStream(s);
      EmptyStream(t);
    } else {
      var a, b := Head(s), Head(t);
      assert s == s[..a] + s[a..] && t == t[..b] + t[b..];
      assert WithoutCR(s)[1..] == WithoutCR(s[a..]) && WithoutCR(t)[1..] == WithoutCR(t[b..]);
      WellFormedApart(s[a..], t[b..]);
    }
  }

  /** A well-formed stream begins with a line end or another byte. */
  function Head(s: seq<byte>): (n: nat)
    requires s != [] && WellFormed(s)
    ensures 1 <= n <= |s| && WellFormed(s[n..])
    ensures s[..n] == if s[0] == CR then [CR, LF] else [s[0]]
    ensures WithoutCR(s) == (if s[0] == CR then [LF] else [s[0]]) + WithoutCR(s[n..])
    ensures s[0] != LF
  {
    if s[0] == CR then
      assert s[1..][1..] == s[2..];
      2
    else 1
  }

  lemma EmptyStream(s: seq<byte>)
    requires WellFormed(s)
    ensures WithoutCR(s) == [] <==> s == []
  {
    if s != [] { var n := Head(s); }
  }

  /** A scanned header: each carriage return gets its line feed, all else stays. */
  lemma {:induction false} ScanHeaderIs(a: seq<byte>, b: seq<byte>)
    requires CR !in a
    ensures ScanHeader(a) == a && ScanHeader(a + ([CR] + b)) == a + ([CR, LF] + ScanHeader(b))
    decreases |a|
  {
    if a == [] {
      assert a + ([CR] + b) == [CR] + b && ([CR] + b)[1..] == b;
    } else {
      ScanHeaderIs(a[1..], b);
      assert (a + ([CR] + b))[1..] == a[1..] + ([CR] + b);
      assert a == [a[0]] + a[1..];
    }
  }

  /** A scanned header is well formed exactly when the header had no line feed. */
  lemma {:induction false} ScanHeaderWellFormed(h: seq<byte>)
    ensures WellFormed(ScanHeader(h)) <==> LF !in h
  {
    if h == [] {
    } else {
      ScanHeaderWellFormed(h[1..]);
      assert h == [h[0]] + h[1..];
      if h[0] == CR {
        assert ([CR, LF] + ScanHeader(h[1..]))[2..] == ScanHeader(h[1..]);
      } else {
        assert ([h[0]] + ScanHeader(h[1..]))[1..] == ScanHeader(h[1..]);
      }
    }
  }

  /** What the sender compresses comes out of the output rule unchanged exactly when the
      message header holds no line feed; the file may hold anything. */
  lemma StreamSurvives(header: seq<byte>, infile: seq<byte>)
    ensures var s := TakeStream(ScanHeader(header), infile);
            Normalise(s, 0) == s <==> LF !in header
  {
    var a, b := ScanHeader(header), FileStream(infile);
    NormaliseIdentity(a + b);
    ScanHeaderWellFormed(header);
    FileStreamWellFormed(infile);
    if WellFormed(a) {
      WellFormedConcat(a, b);
    } else {
      BadPrefix(header, b);
    }
  }

  /** A line feed in the header spoils the stream whatever follows. */
  lemma {:induction false} BadPrefix(header: seq<byte>, b: seq<byte>)
    requires LF in header
    ensures !WellFormed(ScanHeader(header) + b)
  {
    var rest := ScanHeader(header[1..]) + b;
    if header[0] == CR {
      BadPrefix(header[1..], b);
      assert (ScanHeader(header) + b)[2..] == rest;
    } else if header[0] != LF {
      BadPrefix(header[1..], b);
      assert (ScanHeader(header) + b)[1..] == rest;
    }
  }
}
