/** What a packet is, as text: which streams hold packets, and which are in error and how.  Nothing
    here follows the parser; the parser is proved to decide exactly this. */
module PacketGrammar {
  import opened Arithmetic
  import opened Options
  import opened Decimals
  import opened Framing
  import opened Sessions

  // ---------------------------------------------------------------- search

  ghost predicate Occurs(d: string, pat: string, i: nat) {
    i + |pat| <= |d| && d[i..i + |pat|] == pat
  }

  /** The first occurrence, with no NUL before it. */
  ghost predicate FirstIn(d: string, pat: string, i: nat) {
    Occurs(d, pat, i) && forall j: nat :: j < i ==> d[j] != '\0' && !Occurs(d, pat, j)
  }

  lemma OccursLater(d: string, pat: string, i: nat)
    requires d != ""
    ensures Occurs(d[1..], pat, i) <==> Occurs(d, pat, i + 1)
  {
    if i + 1 + |pat| <= |d| {
      assert d[1..][i..i + |pat|] == d[i + 1..i + 1 + |pat|];
    }
  }

  /** The bounded search finds exactly the first occurrence before any NUL. */
  lemma {:induction false} FindIff(d: string, pat: string, i: nat)
    requires pat != ""
    ensures Find(d, pat) == Some(i) <==> FirstIn(d, pat, i)
  {
    if |d| >= |pat| {
      assert d[0..|pat|] == d[..|pat|];
      assert d[..|pat|] == pat <==> Occurs(d, pat, 0);
      if d[..|pat|] != pat && d[0] != '\0' && i > 0 {
        FindIff(d[1..], pat, i - 1);
        FirstLater(d, pat, i - 1);
      }
    }
  }

  lemma FirstLater(d: string, pat: string, i: nat)
    requires d != "" && d[0] != '\0' && !Occurs(d, pat, 0)
    ensures FirstIn(d[1..], pat, i) <==> FirstIn(d, pat, i + 1)
  {
    forall j: nat
      ensures Occurs(d[1..], pat, j) <==> Occurs(d, pat, j + 1)
    {
      OccursLater(d, pat, j);
    }
    if FirstIn(d[1..], pat, i) {
      forall j: nat | j < i + 1
        ensures d[j] != '\0' && !Occurs(d, pat, j)
      {
        if j > 0 {
          assert d[1..][j - 1] == d[j] && !Occurs(d[1..], pat, j - 1);
        }
      }
    }
    if FirstIn(d, pat, i + 1) {
      forall j: nat | j < i
        ensures d[1..][j] != '\0' && !Occurs(d[1..], pat, j)
      {
        assert d[1..][j] == d[j + 1] && !Occurs(d, pat, j + 1);
      }
    }
  }

  /** What is found within a prefix does not depend on what follows. */
  lemma FirstInPrefix(d: string, n: nat, pat: string, i: nat)
    requires n <= |d| && i + |pat| <= n
    ensures FirstIn(d[..n], pat, i) <==> FirstIn(d, pat, i)
  {
    forall j: nat | j <= i
      ensures Occurs(d[..n], pat, j) <==> Occurs(d, pat, j)
    {
      assert d[..n][j..j + |pat|] == d[j..j + |pat|];
    }
    assert forall j: nat :: j < i ==> d[..n][j] == d[j];
  }

  // ---------------------------------------------------------------- lines

  function LineText(l: Line): string {
    l.key + ":" + l.value + "\r\n"
  }

  /** Text that reads as one header line: its first line end is its end, its first colon the one
      after the key, and there is no NUL in it. */
  ghost predicate RawLine(l: Line) {
    FirstIn(LineText(l), "\r\n", |l.key| + 1 + |l.value|) && FirstIn(LineText(l), ":", |l.key|)
  }

  /** The texts of the lines, one after the other. */
  function Text(ls: seq<Line>): string {
    TextBy(LineText, ls)
  }

  function TextBy(text: Line -> string, ls: seq<Line>): string {
    if ls == [] then "" else TextBy(text, ls[..|ls| - 1]) + text(ls[|ls| - 1])
  }

  predicate Known(key: string) {
    key == "Length" || key == "Channel" || key == "Index"
  }

  /** The value of a known key is a number that fits an int; other keys take any value. */
  predicate Readable(l: Line) {
    Known(l.key) ==> ReadInt(l.value).Value?
  }

  ghost predicate GoodLines(ls: seq<Line>) {
    forall i :: 0 <= i < |ls| ==> RawLine(ls[i]) && Readable(ls[i])
  }

  /** The last value given for a key, 0 without one. */
  function LastInt(ls: seq<Line>, key: string): int {
    if ls == [] then 0
    else
      var l := ls[|ls| - 1];
      if l.key == key && ReadInt(l.value).Value? then ReadInt(l.value).v else LastInt(ls[..|ls| - 1], key)
  }

  /** What the lines say, narrowed to the widths of the fields. */
  function Announced(ls: seq<Line>, content: string): Packet {
    Packet(content, LastInt(ls, "Length") % U32, LastInt(ls, "Channel") % 256, LastInt(ls, "Index") % U32)
  }

  // ---------------------------------------------------------------- packets

  const BEGINNING := "V1.0\r\n"

  /** The text of a packet: the beginning, header lines, an empty line, and as many bytes as announced. */
  ghost predicate IsPacket(t: string, p: Packet) {
    exists ls :: GoodLines(ls) && IsPacketWith(t, p, ls)
  }

  ghost predicate IsPacketWith(t: string, p: Packet, ls: seq<Line>) {
    t == BEGINNING + Text(ls) + "\r\n" + p.content && p == Announced(ls, p.content) && |p.content| == p.contentLength
  }

  /** The first four bytes, or the first six, are there and wrong. */
  predicate WrongBeginning(d: string) {
    (|d| >= 4 && d[..4] != "V1.0") || (|d| >= 6 && d[..6] != "V1.0\r\n")
  }

  /** The next line ends but has no colon. */
  ghost predicate NoColon(y: string) {
    exists e: nat :: e > 0 && FirstIn(y, "\r\n", e) && forall j :: 0 <= j < e ==> y[j] != ':'
  }

  /** The next line gives a known key something that is not an int. */
  ghost predicate NoNumber(y: string) {
    exists l :: RawLine(l) && !Readable(l) && LineText(l) <= y
  }

  /** The text breaks off in front of y, after the beginning and some good lines. */
  ghost predicate Reaches(d: string, ls: seq<Line>, y: string) {
    GoodLines(ls) && d == BEGINNING + (Text(ls) + y)
  }

  /** The text cannot be the start of a packet: a parse error. */
  ghost predicate IsWrong(d: string) {
    WrongBeginning(d) || exists ls, y :: Reaches(d, ls, y) && NoColon(y)
  }

  /** The text has a number that cannot be read: an exception. */
  ghost predicate IsUnreadable(d: string) {
    exists ls, y :: Reaches(d, ls, y) && NoNumber(y)
  }

  // ---------------------------------------------------------------- one line

  /** The packet once a line was taken into account. */
  function Noted(p: Packet, l: Line): Packet {
    if !Known(l.key) || !ReadInt(l.value).Value? then p
    else
      var v := ReadInt(l.value).v;
      if l.key == "Length" then p.(contentLength := v % U32)
      else if l.key == "Channel" then p.(channel := v % 256)
      else p.(index := v % U32)
  }

  lemma FieldIsNoted(p: Packet, l: Line)
    ensures SetField(p, l.key, l.value) == if Readable(l) then Some(Noted(p, l)) else None
  {}

  /** Where the first line end and the first colon of a text are that starts with a line. */
  lemma LineStarts(l: Line, rest: string)
    requires RawLine(l)
    ensures var d := LineText(l) + rest;
      FirstIn(d, "\r\n", |l.key| + 1 + |l.value|) && FirstIn(d, ":", |l.key|)
  {
    var d, n := LineText(l) + rest, |LineText(l)|;
    assert d[..n] == LineText(l);
    FirstInPrefix(d, n, "\r\n", |l.key| + 1 + |l.value|);
    FirstInPrefix(d, n, ":", |l.key|);
  }

  lemma LineParts(l: Line, rest: string)
    ensures var d, s, e := LineText(l) + rest, |l.key|, |l.key| + 1 + |l.value|;
      d[..s] == l.key && d[s + 1..e] == l.value
  {}

  lemma HeaderFound(d: string, s: nat, e: nat)
    requires FirstIn(d, "\r\n", e) && FirstIn(d, ":", s) && s < e
    ensures FindHeader(d) == KeyValue(d[..s], d[s + 1..e], e + 2) && !AtEnd(d)
  {
    FindIff(d, "\r\n", e);
    FindIff(d, ":", s);
    AtEndIff(d);
  }

  lemma LineFound(l: Line, rest: string)
    requires RawLine(l)
    ensures FindHeader(LineText(l) + rest) == KeyValue(l.key, l.value, |LineText(l)|) && !AtEnd(LineText(l) + rest)
  {
    LineStarts(l, rest);
    HeaderFound(LineText(l) + rest, |l.key|, |l.key| + 1 + |l.value|);
    LineParts(l, rest);
  }

  lemma AtEndIff(y: string)
    ensures AtEnd(y) <==> Occurs(y, "\r\n", 0)
  {
    if |y| >= 2 {
      assert y[0..2] == y[..2];
    }
  }

  lemma ColonAt(y: string, i: nat)
    ensures Occurs(y, ":", i) <==> i < |y| && y[i] == ':'
  {
    if i < |y| {
      assert y[i..i + 1] == [y[i]];
    }
  }

  /** A header line is taken into account, or throws. */
  lemma LineIsTaken(l: Line, rest: string, p: Packet)
    requires RawLine(l)
    ensures ParseHeaders(LineText(l) + rest, p) ==
            if Readable(l) then Later(|LineText(l)|, ParseHeaders(rest, Noted(p, l))) else Throws
  {
    LineFound(l, rest);
    FieldIsNoted(p, l);
    assert (LineText(l) + rest)[|LineText(l)|..] == rest;
  }

  lemma NoColonIsMalformed(y: string, p: Packet)
    requires NoColon(y)
    ensures ParseHeaders(y, p) == Malformed
  {
    var e: nat :| e > 0 && FirstIn(y, "\r\n", e) && forall j :: 0 <= j < e ==> y[j] != ':';
    FindIff(y, "\r\n", e);
    AtEndIff(y);
    if Find(y, ":").Some? {
      var s := Find(y, ":").value;
      assert y[s..s + 1] == ":" && y[s] == ':';
    }
  }

  /** Reading can go on with this line. */
  ghost predicate Goes(y: string, l: Line) {
    RawLine(l) && Readable(l) && LineText(l) <= y
  }

  ghost predicate TakenNext(y: string, p: Packet, n: LineStep, l: Line) {
    Goes(y, l) && n == Next(Noted(p, l), |LineText(l)|)
  }

  /** How a header text that is not at its end goes on. */
  lemma NextLineIs(y: string, p: Packet)
    ensures var n := NextLine(y, p);
      && (AtEnd(y) <==> n == Stop(Done(p, 2)))
      && (n == Stop(Malformed) ==> NoColon(y))
      && (n == Stop(Throws) ==> NoNumber(y))
      && (n.Next? ==> exists l :: TakenNext(y, p, n, l))
  {
    if !AtEnd(y) && Find(y, "\r\n").Some? {
      var e := Find(y, "\r\n").value;
      FindIff(y, "\r\n", e);
      AtEndIff(y);
      if Find(y, ":").None? || Find(y, ":").value >= e {
        LineWithoutColon(y, e);
      } else {
        LineAhead(y, p, e, Find(y, ":").value);
      }
    }
  }

  lemma LineAhead(y: string, p: Packet, e: nat, s: nat)
    requires !AtEnd(y) && Find(y, "\r\n") == Some(e) && Find(y, ":") == Some(s) && s < e
    ensures var l := Line(y[..s], y[s + 1..e]);
      if Readable(l) then TakenNext(y, p, NextLine(y, p), l) else NextLine(y, p) == Stop(Throws) && NoNumber(y)
  {
    FindIff(y, "\r\n", e);
    var l := LineBefore(y, e, s);
    FieldIsNoted(p, l);
  }

  lemma LineWithoutColon(y: string, e: nat)
    requires e > 0 && FirstIn(y, "\r\n", e) && (Find(y, ":").None? || Find(y, ":").value >= e)
    ensures NoColon(y)
  {
    forall j: nat | j < e
      ensures y[j] != ':'
    {
      if y[j] == ':' {
        var k := LeastColon(y, j);
        FindIff(y, ":", k);
      }
    }
  }

  lemma {:induction false} LeastColon(y: string, j: nat) returns (k: nat)
    requires j < |y| && y[j] == ':'
    ensures k <= j && Occurs(y, ":", k) && forall i: nat :: i < k ==> !Occurs(y, ":", i)
  {
    ColonAt(y, j);
    if i: nat :| i < j && Occurs(y, ":", i) {
      ColonAt(y, i);
      k := LeastColon(y, i);
    } else {
      k := j;
    }
  }

  lemma TextBefore(y: string, e: nat, s: nat)
    requires s < e && Occurs(y, "\r\n", e) && Occurs(y, ":", s)
    ensures LineText(Line(y[..s], y[s + 1..e])) == y[..e + 2]
  {
    assert y[s..s + 1] == ":" && y[e..e + 2] == "\r\n";
    assert y[..e + 2] == y[..s] + y[s..s + 1] + y[s + 1..e] + y[e..e + 2];
  }

  lemma LineBefore(y: string, e: nat, s: nat) returns (l: Line)
    requires FirstIn(y, "\r\n", e) && Find(y, ":") == Some(s) && s < e
    ensures l == Line(y[..s], y[s + 1..e]) && RawLine(l) && LineText(l) <= y && |LineText(l)| == e + 2
  {
    l := Line(y[..s], y[s + 1..e]);
    FindIff(y, ":", s);
    TextBefore(y, e, s);
    FirstInPrefix(y, e + 2, "\r\n", e);
    FirstInPrefix(y, e + 2, ":", s);
  }

  // ---------------------------------------------------------------- several lines

  function NotedAll(p: Packet, ls: seq<Line>): Packet {
    if ls == [] then p else Noted(NotedAll(p, ls[..|ls| - 1]), ls[|ls| - 1])
  }

  lemma {:induction false} NotedIsAnnounced(ls: seq<Line>)
    ensures NotedAll(ZERO_PACKET, ls) == Announced(ls, "")
  {
    if ls != [] {
      NotedIsAnnounced(ls[..|ls| - 1]);
    }
  }

  ghost predicate TakesLine(parse: (string, Packet) -> Step, l: Line, rest: string, p: Packet) {
    RawLine(l) && Readable(l) ==> parse(LineText(l) + rest, p) == Later(|LineText(l)|, parse(rest, Noted(p, l)))
  }

  lemma {:induction false} LinesTakenBy(parse: (string, Packet) -> Step, ls: seq<Line>, rest: string, p: Packet)
    requires (forall l, more, q :: TakesLine(parse, l, more, q)) && GoodLines(ls)
    ensures parse(Text(ls) + rest, p) == Later(|Text(ls)|, parse(rest, NotedAll(p, ls)))
  {
    if ls == [] {
      assert Text(ls) + rest == rest;
    } else {
      var front, l := ls[..|ls| - 1], ls[|ls| - 1];
      LinesTakenBy(parse, front, LineText(l) + rest, p);
      assert TakesLine(parse, l, rest, NotedAll(p, front));
      assert Text(ls) + rest == Text(front) + (LineText(l) + rest);
    }
  }

  /** Good lines are read one after the other. */
  lemma LinesAreTaken(ls: seq<Line>, rest: string, p: Packet)
    requires GoodLines(ls)
    ensures ParseHeaders(Text(ls) + rest, p) == Later(|Text(ls)|, ParseHeaders(rest, NotedAll(p, ls)))
  {
    forall l, more, q
      ensures TakesLine(ParseHeaders, l, more, q)
    {
      if RawLine(l) {
        LineIsTaken(l, more, q);
      }
    }
    LinesTakenBy(ParseHeaders, ls, rest, p);
  }

  lemma {:induction false} TextFromBy(text: Line -> string, l: Line, ls: seq<Line>)
    ensures TextBy(text, [l] + ls) == text(l) + TextBy(text, ls)
  {
    if ls == [] {
      assert [l] + ls == [l] && [l][..0] == [];
      assert "" + text(l) == text(l) == text(l) + "";
    } else {
      TextFromBy(text, l, ls[..|ls| - 1]);
      assert ([l] + ls)[..|ls|] == [l] + ls[..|ls| - 1];
      assert (text(l) + TextBy(text, ls[..|ls| - 1])) + text(ls[|ls| - 1]) ==
             text(l) + (TextBy(text, ls[..|ls| - 1]) + text(ls[|ls| - 1]));
    }
  }

  lemma TextFrom(l: Line, ls: seq<Line>)
    ensures Text([l] + ls) == LineText(l) + Text(ls)
  {
    TextFromBy(LineText, l, ls);
  }

  lemma {:induction false} NotedFrom(p: Packet, l: Line, ls: seq<Line>)
    ensures NotedAll(p, [l] + ls) == NotedAll(Noted(p, l), ls)
  {
    if ls == [] {
      assert [l] + ls == [l] && [l][..0] == [];
    } else {
      NotedFrom(p, l, ls[..|ls| - 1]);
      assert ([l] + ls)[..|ls|] == [l] + ls[..|ls| - 1];
    }
  }

  lemma LineGoes(y: string, p: Packet) returns (l: Line)
    requires NextLine(y, p).Next?
    ensures Goes(y, l)
  {
    NextLineIs(y, p);
    var n := NextLine(y, p);
    l :| TakenNext(y, p, n, l);
  }

  lemma NextLineTaken(y: string, p: Packet) returns (l: Line, more: string)
    requires NextLine(y, p).Next?
    ensures RawLine(l) && Readable(l) && y == LineText(l) + more && |more| < |y|
  {
    l := LineGoes(y, p);
    more := RestAfter(y, l, LineText(l));
  }

  lemma RestAfter(y: string, l: Line, t: string) returns (more: string)
    requires Goes(y, l) && t == LineText(l)
    ensures y == t + more && |more| < |y|
  {
    more := y[|t|..];
    LineIsNotEmpty(l);
  }

  lemma LineIsNotEmpty(l: Line)
    ensures |LineText(l)| > 0
  {}

  lemma GoodFrom(l: Line, ls: seq<Line>)
    requires RawLine(l) && Readable(l) && GoodLines(ls)
    ensures GoodLines([l] + ls)
  {}

  /** Any text starts with good lines up to where reading lines stops. */
  lemma {:induction false} LinesOf(y: string, p: Packet) returns (ls: seq<Line>, rest: string)
    ensures GoodLines(ls) && y == Text(ls) + rest && NextLine(rest, NotedAll(p, ls)).Stop?
    decreases |y|
  {
    if NextLine(y, p).Stop? {
      ls, rest := [], y;
    } else {
      var l, after := NextLineTaken(y, p);
      var more;
      more, rest := LinesOf(after, Noted(p, l));
      ls := [l] + more;
      GoodFrom(l, more);
      NotedFrom(p, l, more);
      TextThen(l, more, rest);
    }
  }

  lemma TextThen(l: Line, ls: seq<Line>, rest: string)
    ensures Text([l] + ls) + rest == LineText(l) + (Text(ls) + rest)
  {
    TextFrom(l, ls);
    assert (LineText(l) + Text(ls)) + rest == LineText(l) + (Text(ls) + rest);
  }

  /** Where reading the headers of a text comes to a stop, and how. */
  lemma HeadersStop(y: string) returns (ls: seq<Line>, rest: string, q: Packet)
    ensures GoodLines(ls) && y == Text(ls) + rest && q == Announced(ls, "")
    ensures NextLine(rest, q).Stop? && ParseHeaders(y, ZERO_PACKET) == Later(|Text(ls)|, NextLine(rest, q).result)
  {
    ls, rest := LinesOf(y, ZERO_PACKET);
    q := NotedAll(ZERO_PACKET, ls);
    NotedIsAnnounced(ls);
    LinesAreTaken(ls, rest, ZERO_PACKET);
  }

  // ---------------------------------------------------------------- packets

  lemma PreambleIs(d: string)
    ensures Preamble(d) == None <==> |d| >= 6 && d[..6] == BEGINNING
    ensures Preamble(d) == Some(Malformed) <==> WrongBeginning(d)
    ensures Preamble(d) != Some(Throws)
  {
    if |d| >= 6 {
      assert d[..6] == d[..4] + d[4..6];
      assert d[..6] == BEGINNING ==> d[..6][..4] == d[..4] && d[..6][4..] == d[4..6];
    }
  }

  lemma Begun(d: string)
    requires |d| >= 6 && d[..6] == BEGINNING
    ensures Preamble(d) == None && d == BEGINNING + d[6..] && !WrongBeginning(d)
  {
    PreambleIs(d);
    assert d[..6][..4] == d[..4];
  }

  /** How a text with the right beginning is read. */
  lemma ReadsOn(y: string) returns (ls: seq<Line>, rest: string)
    ensures var d, q := BEGINNING + y, Announced(ls, "");
      && GoodLines(ls) && y == Text(ls) + rest && NextLine(rest, q).Stop?
      && ParsePacket(d) == Finish(d, 6, Later(|Text(ls)|, NextLine(rest, q).result))
  {
    var d := BEGINNING + y;
    assert d[..6] == BEGINNING && d[6..] == y;
    Begun(d);
    var q;
    ls, rest, q := HeadersStop(y);
  }

  lemma GoodPacketEnds(y: string, ls: seq<Line>, rest: string, p: Packet, n: nat)
    requires GoodLines(ls) && y == Text(ls) + rest && AtEnd(rest)
    requires Finish(BEGINNING + y, 6, Later(|Text(ls)|, Done(Announced(ls, ""), 2))) == Done(p, n)
    ensures n <= |BEGINNING + y| && IsPacketWith((BEGINNING + y)[..n], p, ls)
  {
    var d, at := BEGINNING + y, 8 + |Text(ls)|;
    assert rest == "\r\n" + rest[2..];
    assert d == (BEGINNING + Text(ls) + "\r\n") + rest[2..];
    assert d[..at] == BEGINNING + Text(ls) + "\r\n";
    if p.contentLength > 0 {
      assert d[..n] == d[..at] + d[at..n];
    }
  }

  /** A packet is read as soon as its text is there, and only then. */
  lemma PacketIff(d: string, p: Packet, n: nat)
    ensures ParsePacket(d) == Done(p, n) <==> n <= |d| && IsPacket(d[..n], p)
  {
    if ParsePacket(d) == Done(p, n) {
      PreambleIs(d);
      Begun(d);
      var ls, rest := ReadsOn(d[6..]);
      NextLineIs(rest, Announced(ls, ""));
      GoodPacketEnds(d[6..], ls, rest, p, n);
    }
    if n <= |d| && IsPacket(d[..n], p) {
      var ls :| GoodLines(ls) && IsPacketWith(d[..n], p, ls);
      PacketIsRead(d, p, n, ls);
    }
  }

  /** The parts of a text that starts with a packet. */
  lemma PacketParts(d: string, n: nat, lines: string, content: string)
    requires n <= |d| && d[..n] == BEGINNING + lines + "\r\n" + content
    ensures d == BEGINNING + (lines + ("\r\n" + (content + d[n..])))
    ensures n == 8 + |lines| + |content| && d[8 + |lines|..n] == content
  {
    assert d == d[..n] + d[n..];
    assert d[..n][8 + |lines|..] == content;
  }

  lemma PacketIsRead(d: string, p: Packet, n: nat, ls: seq<Line>)
    requires n <= |d| && GoodLines(ls) && IsPacketWith(d[..n], p, ls)
    ensures ParsePacket(d) == Done(p, n)
  {
    var rest := "\r\n" + (p.content + d[n..]);
    PacketParts(d, n, Text(ls), p.content);
    StopsAt(d, ls, rest);
    HeadersEnd(p.content + d[n..], Announced(ls, ""));
  }

  lemma HeadersEnd(more: string, q: Packet)
    ensures ParseHeaders("\r\n" + more, q) == Done(q, 2)
  {
    assert ("\r\n" + more)[..2] == "\r\n";
  }

  lemma StopsAt(d: string, ls: seq<Line>, y: string)
    requires Reaches(d, ls, y)
    ensures ParsePacket(d) == Finish(d, 6, Later(|Text(ls)|, ParseHeaders(y, Announced(ls, ""))))
  {
    assert d == BEGINNING + (Text(ls) + y);
    assert d[..6] == BEGINNING && d[6..] == Text(ls) + y;
    Begun(d);
    NotedIsAnnounced(ls);
    LinesAreTaken(ls, y, ZERO_PACKET);
  }

  /** What stopped the reading of headers stands after good lines. */
  lemma StoppedAt(d: string) returns (ls: seq<Line>, y: string)
    requires Preamble(d) == None && (ParsePacket(d) == Malformed || ParsePacket(d) == Throws)
    ensures Reaches(d, ls, y) && NextLine(y, Announced(ls, "")) == Stop(ParsePacket(d))
  {
    PreambleIs(d);
    Begun(d);
    ls, y := ReadsOn(d[6..]);
  }

  lemma WrongIsRejected(d: string, ls: seq<Line>, y: string)
    requires Reaches(d, ls, y) && NoColon(y)
    ensures ParsePacket(d) == Malformed
  {
    StopsAt(d, ls, y);
    NoColonIsMalformed(y, Announced(ls, ""));
  }

  lemma UnreadableThrows(d: string, ls: seq<Line>, y: string)
    requires Reaches(d, ls, y) && NoNumber(y)
    ensures ParsePacket(d) == Throws
  {
    var l :| RawLine(l) && !Readable(l) && LineText(l) <= y;
    LineThrows(l, y, Announced(ls, ""));
    StopsAt(d, ls, y);
  }

  lemma LineThrows(l: Line, y: string, p: Packet)
    requires RawLine(l) && !Readable(l) && LineText(l) <= y
    ensures ParseHeaders(y, p) == Throws
  {
    assert y == LineText(l) + y[|LineText(l)|..];
    LineIsTaken(l, y[|LineText(l)|..], p);
  }

  /** Reading the first packet fails exactly on a text that cannot be the start of one. */
  lemma WrongIff(d: string)
    ensures ParsePacket(d) == Malformed <==> IsWrong(d)
  {
    PreambleIs(d);
    if ParsePacket(d) == Malformed && !WrongBeginning(d) {
      var ls, y := StoppedAt(d);
      NextLineIs(y, Announced(ls, ""));
    }
    if ls, y :| Reaches(d, ls, y) && NoColon(y) {
      WrongIsRejected(d, ls, y);
    }
  }

  /** It throws exactly on a known key with something that is not an int. */
  lemma UnreadableIff(d: string)
    ensures ParsePacket(d) == Throws <==> IsUnreadable(d)
  {
    PreambleIs(d);
    if ParsePacket(d) == Throws {
      var ls, y := StoppedAt(d);
      NextLineIs(y, Announced(ls, ""));
    }
    if ls, y :| Reaches(d, ls, y) && NoNumber(y) {
      UnreadableThrows(d, ls, y);
    }
  }

  /** Between header lines a well-formed line with an unknown key changes nothing, however the text
      goes on. */
  lemma UnknownLineSkipped(a: seq<Line>, l: Line, b: seq<Line>, rest: string)
    requires GoodLines(a) && GoodLines(b) && RawLine(l) && !Known(l.key)
    ensures ParseHeaders(Text(a + [l] + b) + rest, ZERO_PACKET) ==
            Later(|LineText(l)|, ParseHeaders(Text(a + b) + rest, ZERO_PACKET))
  {
    GoodBoth(a, l, b);
    HeadersAfter(a + [l] + b, rest);
    HeadersAfter(a + b, rest);
    UnknownAnnouncesNothing(a, l, b, "");
    TextLength(a, l, b);
  }

  lemma GoodBoth(a: seq<Line>, l: Line, b: seq<Line>)
    requires GoodLines(a) && GoodLines(b) && RawLine(l) && !Known(l.key)
    ensures GoodLines(a + [l] + b) && GoodLines(a + b)
  {}

  lemma HeadersAfter(ls: seq<Line>, rest: string)
    requires GoodLines(ls)
    ensures ParseHeaders(Text(ls) + rest, ZERO_PACKET) == Later(|Text(ls)|, ParseHeaders(rest, Announced(ls, "")))
  {
    LinesAreTaken(ls, rest, ZERO_PACKET);
    NotedIsAnnounced(ls);
  }

  lemma UnknownAnnouncesNothing(a: seq<Line>, l: Line, b: seq<Line>, content: string)
    requires !Known(l.key)
    ensures Announced(a + [l] + b, content) == Announced(a + b, content)
  {
    UnknownSaysNothing(a, l, b, "Length");
    UnknownSaysNothing(a, l, b, "Channel");
    UnknownSaysNothing(a, l, b, "Index");
  }

  lemma {:induction false} UnknownSaysNothing(a: seq<Line>, l: Line, b: seq<Line>, key: string)
    requires !Known(l.key) && Known(key)
    ensures LastInt(a + [l] + b, key) == LastInt(a + b, key)
  {
    if b == [] {
      assert a + [l] + b == a + [l] && a + b == a && (a + [l])[..|a|] == a;
    } else {
      var n := |b| - 1;
      UnknownSaysNothing(a, l, b[..n], key);
      assert (a + [l] + b)[..|a + [l] + b| - 1] == a + [l] + b[..n];
      assert (a + b)[..|a + b| - 1] == a + b[..n];
    }
  }

  lemma {:induction false} TextLength(a: seq<Line>, l: Line, b: seq<Line>)
    ensures |Text(a + [l] + b)| == |Text(a + b)| + |LineText(l)|
  {
    if b == [] {
      assert a + [l] + b == a + [l] && a + b == a && (a + [l])[..|a|] == a;
    } else {
      var n := |b| - 1;
      TextLength(a, l, b[..n]);
      assert (a + [l] + b)[..|a + [l] + b| - 1] == a + [l] + b[..n];
      assert (a + b)[..|a + b| - 1] == a + b[..n];
    }
  }

  // ---------------------------------------------------------------- streams

  /** The text is the texts of the packets, one after the other. */
  ghost predicate ArePackets(t: string, ps: seq<Packet>) {
    AreBy(IsPacket, t, ps)
  }

  ghost predicate AreBy(isPacket: (string, Packet) -> bool, t: string, ps: seq<Packet>) {
    if ps == [] then t == ""
    else exists n: nat :: n <= |t| && isPacket(t[..n], ps[0]) && AreBy(isPacket, t[n..], ps[1..])
  }

  /** No packet's text stands at the beginning. */
  ghost predicate StartsNone(y: string) {
    forall p, n: nat :: n <= |y| ==> !IsPacket(y[..n], p)
  }

  /** `parse` tells packets, errors and exceptions apart as they are meant. */
  ghost predicate Judges(parse: string -> Step) {
    forall d :: JudgesAt(parse, d)
  }

  ghost predicate JudgesAt(parse: string -> Step, d: string) {
    && (forall p, n: nat :: n <= |d| && IsPacket(d[..n], p) ==> parse(d) == Done(p, n))
    && (parse(d).Done? ==> parse(d).used <= |d| && IsPacket(d[..parse(d).used], parse(d).packet))
    && (parse(d) == Malformed <==> IsWrong(d))
    && (parse(d) == Throws <==> IsUnreadable(d))
  }

  /** The parser decides exactly this language. */
  lemma ParserJudges()
    ensures Judges(ParsePacket)
  {
    forall d
      ensures JudgesAt(ParsePacket, d)
    {
      forall p, n: nat {
        PacketIff(d, p, n);
      }
      if ParsePacket(d).Done? {
        PacketIff(d, ParsePacket(d).packet, ParsePacket(d).used);
      }
      WrongIff(d);
      UnreadableIff(d);
    }
  }

  lemma PacketsFrom(d: string, n: nat, m: nat, p: Packet, ps: seq<Packet>)
    requires n + m <= |d| && IsPacket(d[..n], p) && ArePackets(d[n..][..m], ps)
    ensures ArePackets(d[..n + m], [p] + ps)
  {
    var t := d[..n + m];
    assert t[..n] == d[..n] && t[n..] == d[n..][..m] && ([p] + ps)[1..] == ps;
  }

  ghost predicate Verdict(s: Stream, d: string) {
    && s.used <= |d| && ArePackets(d[..s.used], s.packets) && StartsNone(d[s.used..])
    && (s.outcome == ParseError <==> IsWrong(d[s.used..]))
    && (s.outcome == Exception <==> IsUnreadable(d[s.used..]))
  }

  lemma VerdictFrom(d: string, n: nat, p: Packet, s: Stream)
    requires n <= |d| && IsPacket(d[..n], p) && Verdict(s, d[n..])
    ensures Verdict(Prepend([p], n, s), d)
  {
    PacketsFrom(d, n, s.used, p, s.packets);
    assert d[n + s.used..] == d[n..][s.used..];
  }

  lemma VerdictHere(d: string, h: Step)
    requires !h.Done? && StartsNone(d) && (h == Malformed <==> IsWrong(d)) && (h == Throws <==> IsUnreadable(d))
    ensures Verdict(Stopped(h), d)
  {
    assert d[0..] == d && d[..0] == "";
  }

  lemma {:induction false} PassVerdict(parse: string -> Step, stream: string -> Stream, d: string)
    requires IsPass(parse, stream) && Judges(parse)
    ensures Verdict(stream(d), d)
    decreases |d|
  {
    assert PassAt(parse, stream, d) && JudgesAt(parse, d);
    var h := parse(d);
    if h.Done? {
      PassVerdict(parse, stream, d[h.used..]);
      VerdictFrom(d, h.used, h.packet, stream(d[h.used..]));
    } else {
      VerdictHere(d, h);
    }
  }

  /** A pass over a text gives the packets it starts with, as many as there are, and the error of
      what is left exactly when that is in error. */
  lemma StreamIs(d: string)
    ensures Verdict(ParseStream(d), d)
  {
    ParserJudges();
    assert IsPass(ParsePacket, ParseStream);
    PassVerdict(ParsePacket, ParseStream, d);
  }

  lemma FirstPacket(isPacket: (string, Packet) -> bool, t: string, ps: seq<Packet>) returns (m: nat)
    requires ps != [] && AreBy(isPacket, t, ps)
    ensures m <= |t| && isPacket(t[..m], ps[0]) && AreBy(isPacket, t[m..], ps[1..])
  {
    m :| m <= |t| && isPacket(t[..m], ps[0]) && AreBy(isPacket, t[m..], ps[1..]);
  }

  lemma PrependAll(ps: seq<Packet>, m: nat, n: nat, s: Stream)
    requires ps != [] && m <= n
    ensures Prepend([ps[0]], m, Prepend(ps[1..], n - m, s)) == Prepend(ps, n, s)
  {
    assert [ps[0]] + (ps[1..] + s.packets) == ps + s.packets;
  }

  lemma CutTwice(d: string, m: nat, n: nat)
    requires m <= n <= |d|
    ensures d[..n][..m] == d[..m] && d[..n][m..] == d[m..][..n - m] && d[m..][n - m..] == d[n..]
  {}

  /** A packet in front is what a pass takes first. */
  ghost predicate ReadsFirst(isPacket: (string, Packet) -> bool, stream: string -> Stream, d: string, p: Packet,
                             m: nat) {
    m <= |d| && isPacket(d[..m], p) ==> stream(d) == Prepend([p], m, stream(d[m..]))
  }

  lemma FirstIsRead(parse: string -> Step, stream: string -> Stream, d: string, p: Packet, m: nat)
    requires IsPass(parse, stream) && Judges(parse)
    ensures ReadsFirst(IsPacket, stream, d, p, m)
  {
    assert PassAt(parse, stream, d) && JudgesAt(parse, d);
  }

  lemma PrependNothing(s: Stream)
    ensures Prepend([], 0, s) == s
  {}

  /** Packets in front of a text are read first. */
  lemma {:induction false} PacketsAreRead(isPacket: (string, Packet) -> bool, stream: string -> Stream, d: string,
                                          n: nat, ps: seq<Packet>)
    requires (forall e, p, m :: ReadsFirst(isPacket, stream, e, p, m)) && n <= |d| && AreBy(isPacket, d[..n], ps)
    ensures stream(d) == Prepend(ps, n, stream(d[n..]))
    decreases |ps|
  {
    if ps == [] {
      assert d[n..] == d;
      PrependNothing(stream(d));
    } else {
      var m := FirstPacket(isPacket, d[..n], ps);
      CutTwice(d, m, n);
      assert ReadsFirst(isPacket, stream, d, ps[0], m);
      PacketsAreRead(isPacket, stream, d[m..], n - m, ps[1..]);
      PrependAll(ps, m, n, stream(d[n..]));
    }
  }

  // ---------------------------------------------------------------- reading

  /** After some packets the bytes go wrong. */
  ghost predicate GoesWrong(b: string) {
    exists n: nat, ps :: n <= |b| && ArePackets(b[..n], ps) && IsWrong(b[n..])
  }

  ghost predicate GoesUnreadable(b: string) {
    exists n: nat, ps :: n <= |b| && ArePackets(b[..n], ps) && IsUnreadable(b[n..])
  }

  lemma ErrorIsFound(parse: string -> Step, stream: string -> Stream, b: string, n: nat, ps: seq<Packet>)
    requires IsPass(parse, stream) && Judges(parse) && n <= |b| && ArePackets(b[..n], ps)
    ensures IsWrong(b[n..]) ==> stream(b).outcome == ParseError
    ensures IsUnreadable(b[n..]) ==> stream(b).outcome == Exception
  {
    forall d, p, m {
      FirstIsRead(parse, stream, d, p, m);
    }
    PacketsAreRead(IsPacket, stream, b, n, ps);
    assert PassAt(parse, stream, b[n..]) && JudgesAt(parse, b[n..]);
  }

  lemma StreamFailsIff(b: string)
    ensures ParseStream(b).outcome == ParseError <==> GoesWrong(b)
    ensures ParseStream(b).outcome == Exception <==> GoesUnreadable(b)
  {
    StreamIs(b);
    ParserJudges();
    assert IsPass(ParsePacket, ParseStream);
    forall n: nat, ps | n <= |b| && ArePackets(b[..n], ps) {
      ErrorIsFound(ParsePacket, ParseStream, b, n, ps);
    }
  }

  /** A read ends in a parse error exactly when the bytes kept and the new ones go wrong after some
      packets, and in an exception exactly when they go unreadable. */
  lemma ReadFailsIff(r: Receiver, chunk: string)
    requires r.outcome != Undefined
    ensures ReadStep(r, chunk).outcome == ParseError <==> GoesWrong(r.readBuf + chunk)
    ensures ReadStep(r, chunk).outcome == Exception <==> GoesUnreadable(r.readBuf + chunk)
  {
    StreamFailsIff(r.readBuf + chunk);
  }

  /** Whatever the cuts, the last read of a stream ends in a parse error exactly when the stream goes
      wrong, unless a channel without a queue came first. */
  lemma EveryCutFailsIff(chunks: seq<string>)
    requires !MeetsBadChannel(chunks)
    ensures ReadAll(chunks).outcome == ParseError <==> GoesWrong(Joined(chunks))
    ensures ReadAll(chunks).outcome == Exception <==> GoesUnreadable(Joined(chunks))
  {
    UndefinedIff(chunks);
    EveryCutReads(chunks);
    StreamFailsIff(Joined(chunks));
  }
}
