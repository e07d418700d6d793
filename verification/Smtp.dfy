/** The SMTP gateway: which commands are taken in which order, how the lines of a message are
    collected, and what is handed to the mailbox when its last line has come. */
module Smtp {
  import opened PopSend
  import opened Sequences

  datatype Option<T> = None | Some(value: T)

  datatype Place = Start | User | Md5 | Pass | Trans | Msg

  function Lower(c: char): char {
    if 'A' <= c <= 'Z' then (c - 'A' + 'a') as char else c
  }

  /** `strncmpi (s, word, strlen (word)) == 0` */
  predicate StartsWith(s: string, word: string): (b: bool)
    ensures b ==> |word| <= |s|
  {
    |word| <= |s| && forall i :: 0 <= i < |word| ==> Lower(s[i]) == Lower(word[i])
  }

  /** Letters count in either case, everything else as it stands. */
  lemma StartsExactly(s: string, word: string)
    ensures StartsWith(s, word) <==>
      |word| <= |s| && forall i :: 0 <= i < |word| ==>
        s[i] == word[i]
        || ('A' <= word[i] <= 'Z' && s[i] as int == word[i] as int + 32)
        || ('a' <= word[i] <= 'z' && s[i] as int == word[i] as int - 32)
  {
    hide Lower;
    forall i | 0 <= i < |word| && i < |s|
      ensures Lower(s[i]) == Lower(word[i]) <==>
        s[i] == word[i]
        || ('A' <= word[i] <= 'Z' && s[i] as int == word[i] as int + 32)
        || ('a' <= word[i] <= 'z' && s[i] as int == word[i] as int - 32)
    {
      EitherCase(s[i], word[i]);
    }
  }

  lemma EitherCase(a: char, c: char)
    ensures Lower(a) == Lower(c) <==>
      a == c || ('A' <= c <= 'Z' && a as int == c as int + 32) || ('a' <= c <= 'z' && a as int == c as int - 32)
  {}

  /** `strstr` */
  predicate Contains(s: string, word: string) {
    |word| <= |s| && (s[..|word|] == word || (s != [] && Contains(s[1..], word)))
  }

  predicate Space(c: char) { c == ' ' || (9 as char) <= c <= (13 as char) }

  function SkipSpaces(s: string): string {
    if s != [] && Space(s[0]) then SkipSpaces(s[1..]) else s
  }

  /** The part of an address before its '@'. */
  function LocalPart(address: string): string {
    if address == [] || address[0] == '@' then [] else [address[0]] + LocalPart(address[1..])
  }

  /** `snprintf` into 256 bytes. */
  function Clip(s: string): string { if |s| > 254 then s[..254] else s }

  function Command(from: string, to: string): string {
    Clip("SP " + to + " < " + LocalPart(from) + "\r")
  }

  lemma {:induction false} BeforeAt(name: string, rest: string)
    requires '@' !in name && (rest == [] || rest[0] == '@')
    ensures LocalPart(name + rest) == name
    decreases |name|
  {
    if name == [] {
      assert name + rest == rest;
    } else {
      assert (name + rest)[1..] == name[1..] + rest;
      BeforeAt(name[1..], rest);
      assert name == [name[0]] + name[1..];
    }
  }

  lemma {:induction false} SpacesSkipped(spaces: string, rest: string)
    requires (forall i :: 0 <= i < |spaces| ==> Space(spaces[i])) && (rest == [] || !Space(rest[0]))
    ensures SkipSpaces(spaces + rest) == rest
    decreases |spaces|
  {
    if spaces == [] {
      assert spaces + rest == rest;
    } else {
      assert (spaces + rest)[1..] == spaces[1..] + rest;
      SpacesSkipped(spaces[1..], rest);
    }
  }

  /** The mailbox command names the recipient as it came, and of the sender what stands before
      the first '@'; it is whole unless longer than the buffer. */
  lemma CommandNames(name: string, domain: string, to: string)
    requires '@' !in name && |name| + |to| <= 247
    ensures Command(name + ("@" + domain), to) == "SP " + to + " < " + name + "\r"
    ensures Command(name, to) == "SP " + to + " < " + name + "\r"
  {
    BeforeAt(name, "@" + domain);
    BeforeAt(name, []);
    assert name + [] == name;
  }

  /** What the mailbox gets for a message: for each recipient in turn a send command and the
      whole text. */
  function Deliveries(from: string, rcpts: seq<string>, text: seq<string>): seq<string> {
    if rcpts == [] then []
    else Deliveries(from, rcpts[..|rcpts| - 1], text) + [Command(from, rcpts[|rcpts| - 1])] + text
  }

  lemma {:induction false} DeliveriesConcat(from: string, a: seq<string>, b: seq<string>, text: seq<string>)
    ensures Deliveries(from, a + b, text) == Deliveries(from, a, text) + Deliveries(from, b, text)
    decreases |b|
  {
    if b == [] {
      assert a + b == a;
    } else {
      var n := |b| - 1;
      assert (a + b)[..|a + b| - 1] == a + b[..n];
      DeliveriesConcat(from, a, b[..n], text);
      var x, y, z := Deliveries(from, a, text), Deliveries(from, b[..n], text), [Command(from, b[n])];
      assert x + y + z + text == x + (y + z + text);
    }
  }

  /** Every recipient gets one command and one copy of the whole text, behind those before it
      in the list and in front of those behind it. */
  lemma DeliveryOf(from: string, rcpts: seq<string>, text: seq<string>, i: nat)
    requires i < |rcpts|
    ensures Deliveries(from, rcpts, text) ==
      Deliveries(from, rcpts[..i], text) + ([Command(from, rcpts[i])] + text) + Deliveries(from, rcpts[i + 1..], text)
  {
    assert rcpts == rcpts[..i] + [rcpts[i]] + rcpts[i + 1..];
    DeliveriesConcat(from, rcpts[..i] + [rcpts[i]], rcpts[i + 1..], text);
    DeliveriesConcat(from, rcpts[..i], [rcpts[i]], text);
    assert [rcpts[i]][..0] == [];
    assert Deliveries(from, [rcpts[i]], text) == [Command(from, rcpts[i])] + text;
  }

  // ---------- lines of a message ----------

  const EX: string := "/EX\r"

  /** A leading dot is dropped when another one follows. */
  function Undotted(line: string): string {
    if |line| >= 2 && line[0] == '.' && line[1] == '.' then line[1..] else line
  }

  /** Receiving inverts the stuffing, and no stuffed line is taken for the end; of lines that were
      not stuffed only those with two dots in front lose one. */
  lemma UndottedDotted(line: string)
    ensures Undotted(Dotted(line)) == line && Dotted(line) != "." && (Dotted(line) == "" <==> line == "")
    ensures if ".." <= line then "." + Undotted(line) == line else Undotted(line) == line
  {}

  function WithEnds(lines: seq<string>): seq<string> {
    if lines == [] then [] else WithEnds(lines[..|lines| - 1]) + [lines[|lines| - 1] + "\r"]
  }

  function ClippedLines(content: seq<string>): seq<string> {
    if content == [] then [] else ClippedLines(content[..|content| - 1]) + [Clip(content[|content| - 1] + "\r")]
  }

  function ToLines(rcpts: seq<string>): seq<string> {
    if rcpts == [] then [] else ToLines(rcpts[..|rcpts| - 1]) + ["To:   " + rcpts[|rcpts| - 1] + "\r"]
  }

  /** What replaces the headers. */
  function Preamble(content: seq<string>, from: string, rcpts: seq<string>): seq<string> {
    (if content != [] then ClippedLines(content)
     else [Clip("SMTP mail received, may be 3rd party mail.\rHeaders:\rFrom: " + from + "\r")] + ToLines(rcpts))
    + ["\r"]
  }

  /** Those lines by their places: the kept headers as they are, or else a notice with the sender
      and then every recipient; and an empty line. */
  lemma PreambleAt(content: seq<string>, from: string, rcpts: seq<string>, i: nat)
    ensures var p := Preamble(content, from, rcpts);
            && |p| == (if content != [] then |content| else |rcpts| + 1) + 1 && p[|p| - 1] == "\r"
            && (content != [] && i < |content| ==> p[i] == Clip(content[i] + "\r"))
            && (content == [] ==>
                  p[0] == Clip("SMTP mail received, may be 3rd party mail.\rHeaders:\rFrom: " + from + "\r"))
            && (content == [] && i < |rcpts| ==> p[i + 1] == "To:   " + rcpts[i] + "\r")
  {
    ClippedAt(content, i);
    ToAt(rcpts, i);
  }

  lemma {:induction false} ClippedAt(content: seq<string>, i: nat)
    ensures |ClippedLines(content)| == |content|
    ensures i < |content| ==> ClippedLines(content)[i] == Clip(content[i] + "\r")
    decreases |content|
  {
    if content != [] { ClippedAt(content[..|content| - 1], i); }
  }

  lemma {:induction false} ToAt(rcpts: seq<string>, i: nat)
    ensures |ToLines(rcpts)| == |rcpts|
    ensures i < |rcpts| ==> ToLines(rcpts)[i] == "To:   " + rcpts[i] + "\r"
    decreases |rcpts|
  {
    if rcpts != [] { ToAt(rcpts[..|rcpts| - 1], i); }
  }

  // ---------- what the mailbox takes ----------

  /** A line the mailbox takes for the end of a text, or for its abortion. */
  predicate EndsText(line: string) {
    line != [] &&
      (line[0] == 26 as char
       || (|line| >= 3 && line[0] == '/'
           && ((Lower(line[1]) == 'e' && Lower(line[2]) == 'x') || (Lower(line[1]) == 'a' && Lower(line[2]) == 'b'))))
  }

  /** They are those that begin with the end-of-file character, with /EX or with /AB. */
  lemma EndsTextExactly(line: string)
    ensures EndsText(line) <==> [26 as char] <= line || StartsWith(line, "/EX") || StartsWith(line, "/AB")
  {
    Spelled(line, "/EX");
    Spelled(line, "/AB");
    if line != [] && line[0] == 26 as char { assert line[..1] == [26 as char]; }
  }

  lemma Spelled(line: string, word: string)
    requires |word| == 3
    ensures StartsWith(line, word) <==>
      |line| >= 3 && Lower(line[0]) == Lower(word[0]) && Lower(line[1]) == Lower(word[1]) && Lower(line[2]) == Lower(word[2])
  {}

  /** The lines in front of the first of these. */
  function TextTaken(text: seq<string>): seq<string> {
    if text == [] || EndsText(text[0]) then [] else [text[0]] + TextTaken(text[1..])
  }

  /** The mailbox takes a text whole exactly if no line of it looks like the end. */
  lemma {:induction false} TakenWhole(text: seq<string>)
    ensures TextTaken(text + [EX]) == text <==> forall i :: 0 <= i < |text| ==> !EndsText(text[i])
    decreases |text|
  {
    if text == [] {
      assert EndsText(EX);
    } else {
      hide EndsText;
      var rest := text[1..];
      assert (text + [EX])[1..] == rest + [EX];
      TakenWhole(rest);
      assert text == [text[0]] + rest;
    }
  }

  // ---------- header lines ----------

  predicate EndsInSemicolon(s: string) { s != [] && s[|s| - 1] == ';' }

  predicate ContentType(line: string) { StartsWith(line, "content-type:") }

  predicate Subject(line: string) { StartsWith(line, "subject:") }

  /** The title as it is put in front of the text. */
  function Title(line: string): string
    requires Subject(line)
  {
    SkipSpaces(line[8..]) + "\r"
  }

  /** It is what stands behind the colon and any blanks. */
  lemma TitleIs(spaces: string, rest: string)
    requires (forall i :: 0 <= i < |spaces| ==> Space(spaces[i])) && (rest == [] || !Space(rest[0]))
    ensures Subject("Subject:" + (spaces + rest)) && Title("Subject:" + (spaces + rest)) == rest + "\r"
  {
    var line := "Subject:" + (spaces + rest);
    assert |"Subject:"| == 8 && line[..8] == "Subject:" && line[8..] == spaces + rest;
    SpacesSkipped(spaces, rest);
    StartsExactly(line, "subject:");
    forall i | 0 <= i < 8 ensures line[i] == "Subject:"[i] {}
  }

  predicate Multipart(line: string) { ContentType(line) && Contains(line, "multipart") }

  /** What the header lines so far have left: whether the next one continues a multipart type,
      the lines of that type, and the text. */
  datatype Heads = Heads(extra: bool, content: seq<string>, text: seq<string>)

  function HeadLine(h: Heads, line: string): Heads {
    if h.extra then Heads(EndsInSemicolon(line), if h.content != [] then h.content + [line] else [], h.text)
    else if ContentType(line) then
      if Multipart(line) then Heads(EndsInSemicolon(line), h.content + [line], h.text) else h
    else if Subject(line) then h.(text := h.text + [Title(line)])
    else h
  }

  function HeadLines(h: Heads, headers: seq<string>): Heads {
    if headers == [] then h else HeadLine(HeadLines(h, headers[..|headers| - 1]), headers[|headers| - 1])
  }

  /** Line `i` continues a multipart type: the line before it ends in a semicolon, and is such
      a type or continues one. */
  predicate Continues(headers: seq<string>, i: nat)
    requires i <= |headers|
  {
    i > 0 && EndsInSemicolon(headers[i - 1]) && (Continues(headers, i - 1) || Multipart(headers[i - 1]))
  }

  function TitleOf(c: bool, line: string): seq<string> {
    if !c && Subject(line) then [Title(line)] else []
  }

  function TypeOf(c: bool, line: string): seq<string> {
    if c || Multipart(line) then [line] else []
  }

  /** The titles of the subject lines that continue nothing, in order. */
  function Titles(headers: seq<string>): seq<string> {
    if headers == [] then []
    else
      var n := |headers| - 1;
      Titles(headers[..n]) + TitleOf(Continues(headers, n), headers[n])
  }

  /** The multipart types with the lines that continue them. */
  function TypeLines(headers: seq<string>): seq<string> {
    if headers == [] then []
    else
      var n := |headers| - 1;
      TypeLines(headers[..n]) + TypeOf(Continues(headers, n), headers[n])
  }

  lemma {:induction false} ContinuesFront(headers: seq<string>, n: nat, i: nat)
    requires i <= n <= |headers|
    ensures Continues(headers[..n], i) == Continues(headers, i)
  {
    if i == 0 {
    } else {
      ContinuesFront(headers, n, i - 1);
    }
  }

  lemma FirstLetters(line: string)
    ensures ContentType(line) ==> Lower(line[0]) == 'c'
    ensures Subject(line) ==> Lower(line[0]) == 's'
  {
    assert ContentType(line) ==> Lower(line[0]) == Lower("content-type:"[0]);
    assert Subject(line) ==> Lower(line[0]) == Lower("subject:"[0]);
  }

  lemma {:induction false} ContinuesType(headers: seq<string>, i: nat)
    requires i <= |headers| && Continues(headers, i)
    ensures TypeLines(headers[..i]) != []
  {
    assert headers[..i][..i - 1] == headers[..i - 1];
    ContinuesFront(headers, i, i - 1);
    if Continues(headers, i - 1) { ContinuesType(headers, i - 1); }
  }

  /** Headers read from a clean start: the titles go to the text, the multipart types are kept,
      and nothing else is. */
  lemma {:induction false} HeadersRead(headers: seq<string>, text: seq<string>)
    ensures HeadLines(Heads(false, [], text), headers) ==
            Heads(Continues(headers, |headers|), TypeLines(headers), text + Titles(headers))
    decreases |headers|
  {
    if headers == [] {
    } else {
      hide StartsWith, Contains, Title, HeadLine;
      var n := |headers| - 1;
      HeadersRead(headers[..n], text);
      ContinuesFront(headers, n, n);
      FirstLetters(headers[n]);
      if Continues(headers, n) { ContinuesType(headers, n); }
      HeadRead(Continues(headers, n), TypeLines(headers[..n]), text, Titles(headers[..n]), headers[n]);
    }
  }

  /** One header line more: `c` says whether it continues a type. */
  lemma HeadRead(c: bool, types: seq<string>, text: seq<string>, titles: seq<string>, line: string)
    requires (c ==> types != []) && !(ContentType(line) && Subject(line))
    ensures HeadLine(Heads(c, types, text + titles), line) ==
            Heads(EndsInSemicolon(line) && (c || Multipart(line)),
                  types + TypeOf(c, line), text + (titles + TitleOf(c, line)))
  {
    hide StartsWith, Contains, Title;
    if !c && Subject(line) {
      assert text + titles + [Title(line)] == text + (titles + [Title(line)]);
    } else {
      assert titles + [] == titles;
    }
  }

  // ---------- headers behind an unfinished type ----------

  /** How many header lines a flag left over from the message before makes disappear. */
  function Swallowed(headers: seq<string>): (r: nat)
    ensures r <= |headers|
    ensures forall i :: 0 <= i < r - 1 ==> EndsInSemicolon(headers[i])
    ensures r < |headers| ==> r > 0 && !EndsInSemicolon(headers[r - 1])
  {
    if headers == [] then 0
    else if EndsInSemicolon(headers[0]) then 1 + Swallowed(headers[1..])
    else 1
  }

  lemma {:induction false} HeadLinesConcat(h: Heads, a: seq<string>, b: seq<string>)
    ensures HeadLines(h, a + b) == HeadLines(HeadLines(h, a), b)
    decreases |b|
  {
    if b == [] {
      assert a + b == a;
    } else {
      hide HeadLine;
      var n := |b| - 1;
      assert (a + b)[..|a + b| - 1] == a + b[..n];
      HeadLinesConcat(h, a, b[..n]);
    }
  }

  /** Lines that continue nothing that is kept leave no trace. */
  lemma {:induction false} Vanish(headers: seq<string>, text: seq<string>)
    requires forall i :: 0 <= i < |headers| - 1 ==> EndsInSemicolon(headers[i])
    ensures HeadLines(Heads(true, [], text), headers) ==
            Heads(headers == [] || EndsInSemicolon(headers[|headers| - 1]), [], text)
    decreases |headers|
  {
    if headers == [] {
    } else {
      Vanish(headers[..|headers| - 1], text);
    }
  }

  lemma {:induction false} ContinuesBehind(a: seq<string>, b: seq<string>, i: nat)
    requires i <= |b| && !Continues(a, |a|)
    ensures Continues(a + b, |a| + i) == Continues(b, i)
  {
    if i == 0 {
      assert (a + b)[..|a|] == a;
      ContinuesFront(a + b, |a|, |a|);
    } else {
      ContinuesBehind(a, b, i - 1);
      assert (a + b)[|a| + i - 1] == b[i - 1];
    }
  }

  lemma ReadSnoc(headers: seq<string>, line: string)
    ensures Titles(headers + [line]) == Titles(headers) + TitleOf(Continues(headers, |headers|), line)
    ensures TypeLines(headers + [line]) == TypeLines(headers) + TypeOf(Continues(headers, |headers|), line)
  {
    assert (headers + [line])[..|headers|] == headers;
    ContinuesFront(headers + [line], |headers|, |headers|);
  }

  lemma {:induction false} ReadConcat(a: seq<string>, b: seq<string>)
    requires !Continues(a, |a|)
    ensures Titles(a + b) == Titles(a) + Titles(b) && TypeLines(a + b) == TypeLines(a) + TypeLines(b)
    decreases |b|
  {
    hide Continues, TitleOf, TypeOf;
    if b == [] {
      assert a + b == a;
    } else {
      var init, line := b[..|b| - 1], b[|b| - 1];
      ReadConcat(a, init);
      ReadLast(a, init, line);
      assert b == init + [line];
    }
  }

  lemma ReadLast(a: seq<string>, b: seq<string>, line: string)
    requires !Continues(a, |a|)
    requires Titles(a + b) == Titles(a) + Titles(b) && TypeLines(a + b) == TypeLines(a) + TypeLines(b)
    ensures Titles(a + (b + [line])) == Titles(a) + Titles(b + [line])
    ensures TypeLines(a + (b + [line])) == TypeLines(a) + TypeLines(b + [line])
  {
    hide Continues, Titles, TypeLines, TitleOf, TypeOf;
    var c := Continues(b, |b|);
    ContinuesBehind(a, b, |b|);
    ReadSnoc(a + b, line);
    ReadSnoc(b, line);
    Assoc(a, b, [line]);
    Assoc(Titles(a), Titles(b), TitleOf(c, line));
    Assoc(TypeLines(a), TypeLines(b), TypeOf(c, line));
  }

  /** Behind a leftover flag the headers are read as if the swallowed lines were not there. */
  lemma StaleRead(headers: seq<string>, text: seq<string>)
    ensures var rest := headers[Swallowed(headers)..]; var h := HeadLines(Heads(true, [], text), headers);
            h.content == TypeLines(rest) && h.text == text + Titles(rest)
  {
    var r := Swallowed(headers);
    var front, rest := headers[..r], headers[r..];
    assert headers == front + rest;
    Vanish(front, text);
    HeadLinesConcat(Heads(true, [], text), front, rest);
    HeadersRead(rest, text);
  }

  /** The flag does no harm exactly if no line it swallows is a title or belongs to a multipart
      type. */
  lemma StaleHarmless(headers: seq<string>, text: seq<string>)
    ensures var stale, clean := HeadLines(Heads(true, [], text), headers), HeadLines(Heads(false, [], text), headers);
            var front := headers[..Swallowed(headers)];
            stale.content == clean.content && stale.text == clean.text <==>
              Titles(front) == [] && TypeLines(front) == []
  {
    var r := Swallowed(headers);
    var front, rest := headers[..r], headers[r..];
    assert headers == front + rest;
    StaleRead(headers, text);
    HeadersRead(headers, text);
    if rest == [] {
      assert front == headers;
    } else {
      assert !Continues(front, r);
      ReadConcat(front, rest);
    }
    SameRest(text, Titles(front), Titles(rest));
    SameRest([], TypeLines(front), TypeLines(rest));
  }

  lemma SameRest(text: seq<string>, a: seq<string>, b: seq<string>)
    ensures text + b == text + (a + b) <==> a == []
  {
    assert |text + (a + b)| == |text| + |a| + |b|;
    if a == [] { assert a + b == b; }
  }

  /** A message whose headers end in an unfinished type makes the title of the next one
      disappear. */
  lemma TitleLost(mime: string, title: string)
    requires Multipart(mime) && EndsInSemicolon(mime) && Subject(title)
    ensures Continues([mime], 1) && Titles([title]) == [Title(title)]
    ensures HeadLines(Heads(Continues([mime], 1), [], []), [title]).text == []
  {
    hide Multipart, Subject, Title;
    assert [] + [title] == [title];
    ReadSnoc([], title);
    Vanish([title], []);
  }

  const MIME := "Content-Type: multipart/mixed;"
  const TITLE := "Subject: Hello"

  lemma MimeType()
    ensures ContentType(MIME)
  {
    var word := "content-type:";
    assert |word| == 13;
    forall i | 0 <= i < 13 ensures Lower(MIME[i]) == Lower(word[i]) {}
  }

  lemma MimeEnd()
    ensures EndsInSemicolon(MIME)
  {}

  lemma MimeMultipart()
    ensures Contains(MIME, "multipart")
  {
    hide Contains;
    assert |MIME| == 30;
    assert MIME[14..23] == "multipart";
    ContainsAt(MIME, "multipart", 14);
  }

  lemma MimeLine()
    ensures Multipart(MIME) && EndsInSemicolon(MIME)
  {
    hide ContentType, Contains, EndsInSemicolon;
    MimeType();
    MimeEnd();
    MimeMultipart();
  }

  lemma TitleLine()
    ensures Subject(TITLE)
  {}

  lemma TitleLostExample()
    ensures Continues([MIME], 1) && Titles([TITLE]) != [] && HeadLines(Heads(true, [], []), [TITLE]).text == []
  {
    hide MIME, TITLE, Multipart, Subject, Title, HeadLines, EndsInSemicolon;
    MimeLine();
    TitleLine();
    TitleLost(MIME, TITLE);
  }

  lemma {:induction false} ContainsAt(s: string, word: string, i: nat)
    requires i + |word| <= |s| && s[i..i + |word|] == word
    ensures Contains(s, word)
    decreases i
  {
    if i == 0 {
    } else {
      assert s[1..][i - 1..i - 1 + |word|] == s[i..i + |word|];
      ContainsAt(s[1..], word, i - 1);
    }
  }

  lemma {:induction false} ContainsWhere(s: string, word: string) returns (i: nat)
    requires Contains(s, word)
    ensures Stands(s, word, i)
    decreases |s|
  {
    if s[..|word|] == word {
      i := 0;
    } else {
      var j := ContainsWhere(s[1..], word);
      assert s[1..][j..j + |word|] == s[j + 1..j + 1 + |word|];
      i := j + 1;
    }
  }

  predicate Stands(s: string, word: string, i: nat) {
    i + |word| <= |s| && s[i..i + |word|] == word
  }

  /** One string contains another exactly if it does so at some place. */
  lemma ContainsExactly(s: string, word: string)
    ensures Contains(s, word) <==> exists i: nat :: Stands(s, word, i)
  {
    hide Contains;
    if i: nat :| Stands(s, word, i) { ContainsAt(s, word, i); }
    if Contains(s, word) { var i := ContainsWhere(s, word); }
  }

  // ---------- the channel ----------

  /** The line ends a login: behind a password or digest prompt, or AUTH with everything in one
      line. */
  predicate EndsLogin(state: Place, line: string, plain: bool, authOk: nat) {
    state == Md5 || state == Pass
    || (state == Trans && !StartsWith(line, "QUIT") && StartsWith(line, "AUTH") && plain && authOk != 2)
  }

  /** The line greets the server. */
  predicate Greets(state: Place, line: string) {
    state == Start && !StartsWith(line, "QUIT") && (StartsWith(line, "EHLO") || StartsWith(line, "HELO"))
  }

  /** How far the client is trusted behind a line: only a login that is accepted, or a greeting
      where the port asks for none, changes it. */
  function AuthAfter(state: Place, line: string, accepted: bool, plain: bool, noAuth: bool, authOk: nat): nat {
    if EndsLogin(state, line, plain, authOk) && accepted then 2
    else if Greets(state, line) && noAuth then 1
    else authOk
  }

  /** A line as it comes in, and what is found out about it. */
  datatype Said = Said(line: string, accepted: bool, plain: bool, scheme: Option<Place>)

  /** Nothing but goodbyes has been added for the mailbox. */
  ghost predicate OnlyGoodbyes(before: seq<string>, now: seq<string>) {
    |before| <= |now| && before == now[..|before|] && forall i :: |before| <= i < |now| ==> now[i] == "B\r"
  }

  class Channel {
    const address: string -> Option<string>   // `get_address`
    const noAuth: bool                        // the port asks for no authentication
    var state: Place
    var open: bool                            // the socket
    var authOk: nat
    var mailFrom: Option<string>
    var rcptTo: seq<string>
    var content: seq<string>                  // header lines of a multipart message
    var extra: bool
    var head: bool
    var msgbuf: seq<string>
    var lsend: seq<string>                    // for the mailbox
    var replies: seq<nat>

    /** Recipients imply a sender, a sender implies authentication, and a message is taken
        only with a recipient. */
    ghost predicate Valid()
      reads this
    {
      && (rcptTo != [] ==> mailFrom.Some?)
      && (mailFrom.Some? ==> authOk != 0)
      && (state == Msg ==> rcptTo != [])
      && (state != Msg ==> msgbuf == [] && content == [])
    }

    /** What has been gathered of a message. */
    ghost function Gathered(): Heads
      reads this
    {
      Heads(extra, content, msgbuf)
    }

    constructor (address: string -> Option<string>, noAuth: bool)
      ensures Valid() && state == Start && lsend == []
    {
      this.address, this.noAuth := address, noAuth;
      state, open, authOk := Start, true, 0;
      mailFrom, rcptTo, content := None, [], [];
      extra, head, msgbuf, lsend, replies := false, false, [], [], [];
    }

    method Reply(code: nat)
      modifies this`replies
      ensures replies == old(replies) + [code]
    {
      replies := replies + [code];
    }

    method FreeAddress()
      modifies this`mailFrom, this`rcptTo, this`content
      ensures mailFrom == None && rcptTo == [] && content == []
    {
      mailFrom, rcptTo, content := None, [], [];
    }

    /** `HELO` and `EHLO`. */
    method Hello(extended: bool)
      requires Valid() && state == Start
      modifies this`state, this`authOk, this`replies
      ensures Valid() && state == Trans && authOk == (if noAuth then 1 else old(authOk))
      ensures replies == old(replies) + (if extended then [250, 250] else [250])
    {
      Reply(250);
      if extended {
        Reply(250);
      }
      state := Trans;
      if noAuth {
        authOk := 1;
      }
    }

    /** The outcome of a login: `accepted` is the verdict on name and password. */
    method Login(accepted: bool)
      requires Valid() && state != Msg && state != Start
      modifies this`state, this`authOk, this`open, this`replies
      ensures Valid()
      ensures replies == old(replies) + [if accepted then 235 else 501]
      ensures if accepted then state == Trans && authOk == 2 && open == old(open)
              else state == old(state) && authOk == old(authOk) && !open
    {
      if accepted {
        state := Trans;
        Reply(235);
        authOk := 2;
      } else {
        Reply(501);
        open := false;
      }
    }

    /** `AUTH`: `next` is where the scheme asked for goes on, if it is known. */
    method Auth(next: Option<Place>)
      requires Valid() && state == Trans && next in {None, Some(User), Some(Pass), Some(Md5)}
      modifies this`state, this`replies
      ensures Valid() && state == if old(authOk) == 2 || next == None then Trans else next.value
      ensures replies == old(replies) + [if old(authOk) == 2 then 503 else if next == None then 502 else 334]
    {
      if authOk == 2 {
        Reply(503);
      } else if next.Some? {
        Reply(334);
        state := next.value;
      } else {
        Reply(502);
      }
    }

    /** `MAIL FROM:` */
    method Mail(arg: string)
      requires Valid() && state == Trans
      modifies this`mailFrom, this`replies
      ensures Valid()
      ensures var from := address(SkipSpaces(arg));
              var ok := old(authOk) != 0 && old(mailFrom) == None && from.Some?;
              && mailFrom == (if ok then from else old(mailFrom))
              && replies == old(replies) + [if ok then 250 else if old(authOk) == 0 || old(mailFrom).Some? then 503 else 501]
    {
      if authOk == 0 {
        Reply(503);
      } else if mailFrom.Some? {
        Reply(503);
      } else {
        var from := address(SkipSpaces(arg));
        if from.Some? {
          mailFrom := from;
          Reply(250);
        } else {
          Reply(501);
        }
      }
    }

    /** `RCPT TO:` */
    method Rcpt(arg: string)
      requires Valid() && state == Trans
      modifies this`rcptTo, this`replies
      ensures Valid()
      ensures var to := address(SkipSpaces(arg));
              var ok := old(authOk) != 0 && mailFrom.Some? && to.Some?;
              && rcptTo == old(rcptTo) + (if ok then [to.value] else [])
              && replies == old(replies) + [if ok then 250 else if old(authOk) == 0 then 503 else if mailFrom == None then 513 else 501]
    {
      if authOk == 0 {
        Reply(503);
      } else if mailFrom == None {
        Reply(513);
      } else {
        var to := address(SkipSpaces(arg));
        if to.Some? {
          rcptTo := rcptTo + [to.value];
          Reply(250);
        } else {
          Reply(501);
        }
      }
    }

    /** `RSET` */
    method Rset()
      requires Valid() && state == Trans
      modifies this`mailFrom, this`rcptTo, this`content, this`replies
      ensures Valid() && mailFrom == None && rcptTo == [] && replies == old(replies) + [250]
    {
      FreeAddress();
      Reply(250);
    }

    /** `DATA` */
    method Data()
      requires Valid() && state == Trans
      modifies this`head, this`state, this`replies
      ensures Valid() && state == (if old(authOk) != 0 && old(rcptTo) != [] then Msg else Trans)
      ensures state == Msg ==> head
      ensures replies == old(replies) + [if old(authOk) == 0 then 503 else if old(rcptTo) == [] then 513 else 354]
    {
      if authOk == 0 {
        Reply(503);
      } else if rcptTo == [] {
        Reply(513);
      } else {
        head := true;
        state := Msg;
        Reply(354);
      }
    }

    /** `smtp_message`: hand the text to the mailbox for every recipient. */
    method Message()
      requires mailFrom.Some?
      modifies this`lsend, this`mailFrom, this`rcptTo, this`content, this`msgbuf
      ensures lsend == old(lsend) + Deliveries(old(mailFrom).value, old(rcptTo), old(msgbuf))
      ensures mailFrom == None && rcptTo == [] && content == [] && msgbuf == []
    {
      ghost var sent := lsend;
      var from, rcpts, text := mailFrom.value, rcptTo, msgbuf;
      for i := 0 to |rcpts|
        invariant lsend == sent + Deliveries(from, rcpts[..i], text)
      {
        assert rcpts[..i + 1][..i] == rcpts[..i];
        lsend := lsend + [Command(from, rcpts[i])];
        lsend := lsend + text;
      }
      assert rcpts[..|rcpts|] == rcpts;
      FreeAddress();
      msgbuf := [];
    }

    method AddToMsg(text: string)
      modifies this`msgbuf
      ensures msgbuf == old(msgbuf) + [text]
    {
      msgbuf := msgbuf + [text];
    }

    /** The empty line behind the headers. */
    method EndHeaders()
      requires mailFrom.Some?
      modifies this`msgbuf, this`head
      ensures msgbuf == old(msgbuf) + Preamble(content, mailFrom.value, rcptTo) && !head
    {
      ghost var before := msgbuf;
      if content != [] {
        for i := 0 to |content|
          invariant msgbuf == before + ClippedLines(content[..i])
        {
          assert content[..i + 1][..i] == content[..i];
          AddToMsg(Clip(content[i] + "\r"));
        }
        assert content[..|content|] == content;
      } else {
        ghost var first := Clip("SMTP mail received, may be 3rd party mail.\rHeaders:\rFrom: " + mailFrom.value + "\r");
        AddToMsg(Clip("SMTP mail received, may be 3rd party mail.\rHeaders:\rFrom: " + mailFrom.value + "\r"));
        for i := 0 to |rcptTo|
          invariant msgbuf == before + ([first] + ToLines(rcptTo[..i]))
        {
          assert rcptTo[..i + 1][..i] == rcptTo[..i];
          AddToMsg("To:   " + rcptTo[i] + "\r");
        }
        assert rcptTo[..|rcptTo|] == rcptTo;
      }
      head := false;
      AddToMsg("\r");
    }

    /** A header line that is not empty. */
    method HeaderLine(line: string)
      requires line != []
      modifies this`msgbuf, this`content, this`extra
      ensures Gathered() == HeadLine(old(Gathered()), line)
    {
      hide Contains, StartsWith, SkipSpaces;
      if extra {
        if content != [] {
          content := content + [line];
        }
        extra := EndsInSemicolon(line);
      } else if StartsWith(line, "content-type:") {
        if Contains(line, "multipart") {
          content := content + [line];
          extra := EndsInSemicolon(line);
        }
      } else if StartsWith(line, "subject:") {
        AddToMsg(SkipSpaces(line[8..]) + "\r");
      }
    }

    /** `smtp_rcv_dt`: one line of a message. */
    method RcvDt(line: string)
      requires Valid()
      modifies this
      ensures Valid() && authOk == old(authOk) && open == old(open)
      ensures !old(open) || old(state) != Msg ==>
        && Gathered() == old(Gathered()) && head == old(head) && state == old(state)
        && mailFrom == old(mailFrom) && rcptTo == old(rcptTo) && lsend == old(lsend) && replies == old(replies)
      ensures old(open) && old(state) == Msg && line == "." ==>
        && lsend == old(lsend) + Deliveries(old(mailFrom).value, old(rcptTo), old(msgbuf) + [EX])
        && state == Trans && mailFrom == None && rcptTo == [] && replies == old(replies) + [250]
        && Gathered() == Heads(old(extra), [], []) && head == old(head)
      ensures old(open) && old(state) == Msg && line != "." ==>
        && lsend == old(lsend) && state == Msg && mailFrom == old(mailFrom) && rcptTo == old(rcptTo)
        && replies == old(replies) && head == (old(head) && line != "")
        && Gathered() ==
             if old(head) && line != "" then HeadLine(old(Gathered()), Undotted(line))
             else Heads(old(extra), old(content),
                        old(msgbuf) + if old(head) then Preamble(old(content), old(mailFrom).value, old(rcptTo))
                                      else [Undotted(line) + "\r"])
    {
      hide HeadLine, Preamble, Deliveries;
      if !open || state != Msg {
        return;
      }
      if line == "." {
        AddToMsg(EX);
        state := Trans;
        Message();
        Reply(250);
        return;
      }
      var text := Undotted(line);
      if head {
        if line == "" {
          EndHeaders();
        } else {
          HeaderLine(text);
        }
      } else {
        AddToMsg(text + "\r");
      }
    }

    /** The headers of a message, stuffed, and the empty line behind them. */
    method ReceiveHeaders(headers: seq<string>)
      requires Valid() && state == Msg && open && head && "" !in headers
      modifies this
      ensures Valid() && state == Msg && open && !head && mailFrom == old(mailFrom) && rcptTo == old(rcptTo)
      ensures lsend == old(lsend) && replies == old(replies)
      ensures var h := HeadLines(old(Gathered()), headers);
              Gathered() == h.(text := h.text + Preamble(h.content, mailFrom.value, rcptTo))
    {
      hide HeadLine, Preamble, Deliveries, Dotted, Undotted;
      ghost var before := Gathered();
      for i := 0 to |headers|
        invariant Valid() && state == Msg && open && head
        invariant lsend == old(lsend) && replies == old(replies) && mailFrom == old(mailFrom) && rcptTo == old(rcptTo)
        invariant Gathered() == HeadLines(before, headers[..i])
      {
        UndottedDotted(headers[i]);
        assert headers[..i + 1][..i] == headers[..i];
        RcvDt(Dotted(headers[i]));
      }
      assert headers[..|headers|] == headers;
      RcvDt("");
    }

    /** The lines of a body, stuffed, and the end: every recipient is sent every line as it was,
        whatever dots it begins with. */
    method ReceiveBody(lines: seq<string>)
      requires Valid() && state == Msg && open && !head
      modifies this
      ensures Valid() && state == Trans && mailFrom == None && rcptTo == [] && extra == old(extra)
      ensures replies == old(replies) + [250]
      ensures lsend == old(lsend) + Deliveries(old(mailFrom).value, old(rcptTo), old(msgbuf) + WithEnds(lines) + [EX])
    {
      hide HeadLine, Preamble, Deliveries, Dotted, Undotted;
      ghost var before := msgbuf;
      for i := 0 to |lines|
        invariant Valid() && state == Msg && open && !head && extra == old(extra)
        invariant lsend == old(lsend) && replies == old(replies) && mailFrom == old(mailFrom) && rcptTo == old(rcptTo)
        invariant msgbuf == before + WithEnds(lines[..i])
      {
        UndottedDotted(lines[i]);
        assert lines[..i + 1][..i] == lines[..i];
        RcvDt(Dotted(lines[i]));
      }
      assert lines[..|lines|] == lines;
      RcvDt(".");
    }

    /** A whole message behind DATA: the mailbox is sent, for every recipient, the titles, what
        replaces the headers, and the body. Titles and kept headers are those of the message
        unless the flag of a message before is still set. */
    method ReceiveMessage(headers: seq<string>, lines: seq<string>)
      requires Valid() && state == Msg && open && head && Gathered() == Heads(extra, [], []) && "" !in headers
      modifies this
      ensures Valid() && state == Trans && mailFrom == None && rcptTo == [] && replies == old(replies) + [250]
      ensures var from, rcpts := old(mailFrom).value, old(rcptTo);
              var h := HeadLines(Heads(old(extra), [], []), headers);
              && extra == h.extra
              && lsend == old(lsend)
                 + Deliveries(from, rcpts, h.text + Preamble(h.content, from, rcpts) + WithEnds(lines) + [EX])
              && (!old(extra) ==>
                    h == Heads(Continues(headers, |headers|), TypeLines(headers), Titles(headers)))
    {
      hide HeadLine, Preamble, Deliveries, Continues, Titles, TypeLines;
      HeadersRead(headers, []);
      ReceiveHeaders(headers);
      ReceiveBody(lines);
    }

    /** The line ends a message. */
    predicate Ends(place: Place, line: string)
      reads this`open
    {
      place == Msg && open && line == "."
    }

    /** A line that frees the addresses: RSET, or the end of a message. */
    predicate Frees(place: Place, line: string)
      reads this`open
    {
      (place == Trans && StartsWith(line, "RSET")) || Ends(place, line)
    }

    /** What MAIL names as a sender, if it is let: with authentication, and once. */
    function NamedSender(place: Place, line: string, auth: nat, before: Option<string>): Option<string> {
      if place == Trans && StartsWith(line, "MAIL FROM:") && auth != 0 && before == None
      then address(SkipSpaces(line[10..])) else None
    }

    /** What RCPT names as a recipient, if it is let: with authentication, and behind a sender. */
    function NamedRecipient(place: Place, line: string, auth: nat, from: Option<string>): Option<string> {
      if place == Trans && StartsWith(line, "RCPT TO:") && auth != 0 && from.Some?
      then address(SkipSpaces(line[8..])) else None
    }

    /** The sender behind a line. */
    function SenderAfter(place: Place, line: string, auth: nat, before: Option<string>): Option<string>
      reads this`open
    {
      var named := NamedSender(place, line, auth, before);
      if named.Some? then named else if Frees(place, line) then None else before
    }

    /** The recipients behind a line. */
    function RecipientsAfter(place: Place, line: string, auth: nat, from: Option<string>, before: seq<string>): seq<string>
      reads this`open
    {
      var named := NamedRecipient(place, line, auth, from);
      if named.Some? then before + [named.value] else if Frees(place, line) then [] else before
    }

    /** Where the session stands behind a line. */
    function PlaceAfter(place: Place, line: string, accepted: bool, plain: bool, scheme: Option<Place>,
                        auth: nat, rcpts: seq<string>): Place
      reads this`open
    {
      match place
      case Start => if Greets(Start, line) then Trans else Start
      case User => Pass
      case Md5 => if accepted then Trans else Md5
      case Pass => if accepted then Trans else Pass
      case Trans =>
        if StartsWith(line, "AUTH") && auth != 2 && !plain && scheme.Some? then scheme.value
        else if StartsWith(line, "DATA") && auth != 0 && rcpts != [] then Msg
        else Trans
      case Msg => if Ends(Msg, line) then Trans else Msg
    }

    /** What is answered to a command on sender, recipients and text. */
    function MailCodes(line: string, auth: nat, from: Option<string>, rcpts: seq<string>): seq<nat> {
      if StartsWith(line, "MAIL FROM:") then
        [if NamedSender(Trans, line, auth, from).Some? then 250 else if auth == 0 || from.Some? then 503 else 501]
      else if StartsWith(line, "RCPT TO:") then
        [if NamedRecipient(Trans, line, auth, from).Some? then 250
         else if auth == 0 then 503 else if from == None then 513 else 501]
      else if StartsWith(line, "NOOP") || StartsWith(line, "RSET") then [250]
      else if StartsWith(line, "DATA") then [if auth == 0 then 503 else if rcpts == [] then 513 else 354]
      else if StartsWith(line, "VRFY") then [if auth == 0 then 503 else 252]
      else if line != "" then [502] else []
    }

    /** What is answered to a line: one code for every command, two for EHLO, none for an empty
        line or one of a message before its end. */
    function Codes(place: Place, line: string, accepted: bool, plain: bool, scheme: Option<Place>,
                   auth: nat, from: Option<string>, rcpts: seq<string>): seq<nat>
      reads this`open
    {
      match place
      case Start =>
        if StartsWith(line, "QUIT") then [221]
        else if StartsWith(line, "EHLO") then [250, 250]
        else if StartsWith(line, "HELO") then [250]
        else if line != "" then [502] else []
      case User => [334]
      case Md5 => [if accepted then 235 else 501]
      case Pass => [if accepted then 235 else 501]
      case Trans =>
        if StartsWith(line, "QUIT") then [221]
        else if StartsWith(line, "AUTH") then
          [if auth == 2 then 503 else if plain then (if accepted then 235 else 501) else if scheme.Some? then 334 else 502]
        else MailCodes(line, auth, from, rcpts)
      case Msg => if Ends(Msg, line) then [250] else []
    }

    /** Outside the command state only the end of a message touches sender and recipients. */
    lemma NobodyNamed(place: Place, line: string, accepted: bool, plain: bool, scheme: Option<Place>)
      requires place != Trans
      ensures AuthAfter(place, line, accepted, plain, noAuth, authOk) ==
        if place in {Md5, Pass} && accepted then 2
        else if place == Start && Greets(Start, line) && noAuth then 1 else authOk
      ensures PlaceAfter(place, line, accepted, plain, scheme, authOk, rcptTo) ==
        if place == Start then if Greets(Start, line) then Trans else Start
        else if place == Msg then if Ends(Msg, line) then Trans else Msg
        else if place == User then Pass else if accepted then Trans else place
      ensures Codes(place, line, accepted, plain, scheme, authOk, mailFrom, rcptTo) ==
        if place == Start then Codes(Start, line, false, false, None, authOk, mailFrom, rcptTo)
        else if place == Msg then if Ends(Msg, line) then [250] else []
        else [if place == User then 334 else if accepted then 235 else 501]
      ensures SenderAfter(place, line, authOk, mailFrom) == if Ends(place, line) then None else mailFrom
      ensures RecipientsAfter(place, line, authOk, mailFrom, rcptTo) == if Ends(place, line) then [] else rcptTo
    {}

    /** No line is two commands. */
    lemma WordsApart(line: string)
      ensures StartsWith(line, "QUIT") ==> line[0] in "qQ"
      ensures StartsWith(line, "AUTH") ==> line[0] in "aA"
      ensures StartsWith(line, "MAIL FROM:") ==> line[0] in "mM"
      ensures StartsWith(line, "RCPT TO:") ==> line[0] in "rR" && line[1] in "cC"
      ensures StartsWith(line, "NOOP") ==> line[0] in "nN"
      ensures StartsWith(line, "RSET") ==> line[0] in "rR" && line[1] in "sS"
      ensures StartsWith(line, "DATA") ==> line[0] in "dD"
    {
      Letter(line, "QUIT", 0);
      Letter(line, "AUTH", 0);
      Letter(line, "MAIL FROM:", 0);
      Letter(line, "RCPT TO:", 0);
      Letter(line, "RCPT TO:", 1);
      Letter(line, "NOOP", 0);
      Letter(line, "RSET", 0);
      Letter(line, "RSET", 1);
      Letter(line, "DATA", 0);
    }

    /** QUIT and AUTH leave sender, recipients and text alone. */
    lemma NoMail(line: string)
      requires StartsWith(line, "QUIT") || StartsWith(line, "AUTH")
      ensures SenderAfter(Trans, line, authOk, mailFrom) == mailFrom
      ensures RecipientsAfter(Trans, line, authOk, mailFrom, rcptTo) == rcptTo
      ensures !StartsWith(line, "DATA") && !(StartsWith(line, "QUIT") && StartsWith(line, "AUTH"))
    {
      hide StartsWith;
      WordsApart(line);
    }

    /** Any other line in the command state is no login. */
    lemma OnlyMail(line: string)
      requires !StartsWith(line, "QUIT") && !StartsWith(line, "AUTH")
      ensures !EndsLogin(Trans, line, true, authOk) && !EndsLogin(Trans, line, false, authOk)
    {}

    lemma Letter(line: string, word: string, i: nat)
      requires i < |word| && 'A' <= word[i] <= 'Z'
      ensures StartsWith(line, word) ==> line[i] == word[i] || line[i] == Lower(word[i])
    {
      if StartsWith(line, word) { assert Lower(line[i]) == Lower(word[i]); }
    }

    /** `QUIT` */
    method Quit()
      requires Valid()
      modifies this`replies, this`lsend, this`open
      ensures Valid() && replies == old(replies) + [221]
      ensures lsend == old(lsend) + (if state != Start then ["B\r"] else [])
      ensures open == (old(open) && state != Start)
    {
      Reply(221);
      if state != Start {
        lsend := lsend + ["B\r"];
      } else {
        open := false;
      }
    }

    /** A line before the client has greeted. */
    method StartLine(line: string)
      requires Valid() && state == Start
      modifies this`state, this`authOk, this`open, this`lsend, this`replies
      ensures Valid() && lsend == old(lsend) && state == (if Greets(Start, line) then Trans else Start)
      ensures authOk == (if Greets(Start, line) && noAuth then 1 else old(authOk))
      ensures open == (old(open) && !StartsWith(line, "QUIT"))
      ensures replies == old(replies) + old(Codes(Start, line, false, false, None, authOk, mailFrom, rcptTo))
    {
      hide StartsWith;
      if StartsWith(line, "QUIT") {
        Quit();
      } else if StartsWith(line, "EHLO") {
        Hello(true);
      } else if StartsWith(line, "HELO") {
        Hello(false);
      } else if line != "" {
        Reply(502);
      }
    }

    /** A line of a login: the name, or the last one. */
    method LoginLine(accepted: bool)
      requires Valid() && state in {User, Md5, Pass}
      modifies this`state, this`authOk, this`open, this`replies
      ensures Valid() && state == (if old(state) == User then Pass else if accepted then Trans else old(state))
      ensures authOk == (if old(state) != User && accepted then 2 else old(authOk))
      ensures open == (old(open) && (old(state) == User || accepted))
      ensures replies == old(replies) + [if old(state) == User then 334 else if accepted then 235 else 501]
    {
      if state == User {
        Reply(334);
        state := Pass;
      } else {
        Login(accepted);
      }
    }

    /** One line from the client, whatever it is: `accepted` is the verdict on a login, `plain`
        and `scheme` what an AUTH line asks for. The order of commands is kept in every run. */
    method Process(line: string, accepted: bool, plain: bool, scheme: Option<Place>)
      requires Valid() && scheme in {None, Some(User), Some(Pass), Some(Md5)}
      modifies this
      ensures Valid()
      // nothing reaches the mailbox but at the end of a message, or with QUIT
      ensures old(state) != Msg ==>
        lsend == old(lsend) + (if old(state) == Trans && StartsWith(line, "QUIT") then ["B\r"] else [])
      // and then all that was gathered, for every recipient
      ensures old(state) == Msg && old(open) ==>
        if line == "." then
          && lsend == old(lsend) + Deliveries(old(mailFrom).value, old(rcptTo), old(msgbuf) + [EX])
          && Gathered() == Heads(old(extra), [], [])
        else
          && lsend == old(lsend) && head == (old(head) && line != "")
          && Gathered() ==
             if old(head) && line != "" then HeadLine(old(Gathered()), Undotted(line))
             else Heads(old(extra), old(content),
                        old(msgbuf) + if old(head) then Preamble(old(content), old(mailFrom).value, old(rcptTo))
                                      else [Undotted(line) + "\r"])
      ensures old(state) != Msg ==> Gathered() == Heads(old(extra), [], []) && (state == Msg ==> head)
      ensures state == old(PlaceAfter(state, line, accepted, plain, scheme, authOk, rcptTo))
      ensures authOk == AuthAfter(old(state), line, accepted, plain, noAuth, old(authOk))
      ensures mailFrom == old(SenderAfter(state, line, authOk, mailFrom))
      ensures rcptTo == old(RecipientsAfter(state, line, authOk, mailFrom, rcptTo))
      // the socket is closed by a refused login, or by QUIT before any greeting
      ensures open == (old(open) && !(old(state) in {Md5, Pass} && !accepted)
                       && !(old(state) == Trans && EndsLogin(Trans, line, plain, old(authOk)) && !accepted)
                       && !(old(state) == Start && StartsWith(line, "QUIT")))
      ensures replies == old(replies) + old(Codes(state, line, accepted, plain, scheme, authOk, mailFrom, rcptTo))
    {
      hide StartsWith, SkipSpaces, Deliveries, HeadLine, Preamble, Undotted, Greets, SenderAfter, RecipientsAfter, AuthAfter, PlaceAfter, Codes;
      if state != Trans { NobodyNamed(state, line, accepted, plain, scheme); }
      match state {
        case Start => StartLine(line);
        case User => LoginLine(accepted);
        case Md5 => LoginLine(accepted);
        case Pass => LoginLine(accepted);
        case Trans => TransLine(line, accepted, plain, scheme);
        case Msg => RcvDt(line);
      }
    }

    /** Lines from a client, one after the other. */
    method Serve(lines: seq<Said>)
      requires Valid() && forall i :: 0 <= i < |lines| ==> lines[i].scheme in {None, Some(User), Some(Pass), Some(Md5)}
      modifies this
      ensures Valid()
      // without a login that is accepted, on a port that asks for one, nothing reaches the mailbox
      // but the end of the session
      ensures !noAuth && old(authOk) == 0 && (forall i :: 0 <= i < |lines| ==> !lines[i].accepted) ==>
        authOk == 0 && mailFrom == None && rcptTo == [] && OnlyGoodbyes(old(lsend), lsend)
    {
      hide StartsWith, SkipSpaces, Deliveries, HeadLine, Preamble, Undotted, SenderAfter, RecipientsAfter, PlaceAfter, Codes;
      for i := 0 to |lines|
        invariant Valid()
        invariant !noAuth && old(authOk) == 0 && (forall j :: 0 <= j < i ==> !lines[j].accepted) ==>
          authOk == 0 && OnlyGoodbyes(old(lsend), lsend)
      {
        Process(lines[i].line, lines[i].accepted, lines[i].plain, lines[i].scheme);
      }
    }

    method TransLine(line: string, accepted: bool, plain: bool, scheme: Option<Place>)
      requires Valid() && state == Trans && scheme in {None, Some(User), Some(Pass), Some(Md5)}
      modifies this
      ensures Valid() && (state == Msg ==> head)
      ensures lsend == old(lsend) + (if StartsWith(line, "QUIT") then ["B\r"] else [])
      ensures Gathered() == Heads(old(extra), [], [])
      ensures state == old(PlaceAfter(Trans, line, accepted, plain, scheme, authOk, rcptTo))
      ensures authOk == AuthAfter(Trans, line, accepted, plain, noAuth, old(authOk))
      ensures mailFrom == old(SenderAfter(Trans, line, authOk, mailFrom))
      ensures rcptTo == old(RecipientsAfter(Trans, line, authOk, mailFrom, rcptTo))
      ensures open == (old(open) && !(EndsLogin(Trans, line, plain, old(authOk)) && !accepted))
      ensures replies == old(replies) + old(Codes(Trans, line, accepted, plain, scheme, authOk, mailFrom, rcptTo))
    {
      hide StartsWith, SkipSpaces, Deliveries, SenderAfter, RecipientsAfter, MailCodes;
      if StartsWith(line, "QUIT") || StartsWith(line, "AUTH") { NoMail(line); } else { OnlyMail(line); }
      if StartsWith(line, "QUIT") {
        Quit();
      } else if StartsWith(line, "AUTH") {
        if plain && authOk != 2 {
          Login(accepted);
        } else {
          Auth(scheme);
        }
      } else {
        MailCommand(line);
      }
    }

    /** The commands that name sender, recipients and text. */
    method MailCommand(line: string)
      requires Valid() && state == Trans
      modifies this`mailFrom, this`rcptTo, this`content, this`head, this`state, this`replies
      ensures Valid() && content == [] && (state == Msg ==> head)
      ensures state == if StartsWith(line, "DATA") && authOk != 0 && old(rcptTo) != [] then Msg else Trans
      ensures mailFrom == old(SenderAfter(Trans, line, authOk, mailFrom))
      ensures rcptTo == old(RecipientsAfter(Trans, line, authOk, mailFrom, rcptTo))
      ensures replies == old(replies) + old(MailCodes(line, authOk, mailFrom, rcptTo))
    {
      hide StartsWith, SkipSpaces;
      WordsApart(line);
      if StartsWith(line, "MAIL FROM:") {
        Mail(line[10..]);
      } else if StartsWith(line, "RCPT TO:") {
        assert rcptTo + [] == rcptTo;
        Rcpt(line[8..]);
      } else if StartsWith(line, "NOOP") {
        Reply(250);
      } else if StartsWith(line, "RSET") {
        Rset();
      } else if StartsWith(line, "DATA") {
        Data();
      } else if StartsWith(line, "VRFY") {
        Reply(if authOk == 0 then 503 else 252);
      } else if line != "" {
        Reply(502);
      }
    }
  }
}
