/** The packet format on a byte stream: what BuildPacket writes, what TryConsume reads, and how
    reading behaves when the stream is cut into pieces.  A byte is a char. */
module Framing {
  import opened Arithmetic
  import opened Options
  import opened Decimals

  const MESSAGE_BEGIN := "V1.0"
  const MESSAGE_END := "\r\n"
  const MESSAGE_HEADER_SEPARATOR := ":"
  const MAX_CHANNEL: nat := 16

  datatype Packet = Packet(content: string, contentLength: nat, channel: nat, index: nat)

  /** One packet, or the reason why there is none (yet). */
  datatype Step = NeedMore | Malformed | Throws | Done(packet: Packet, used: nat)

  datatype Outcome = Fine | ParseError | Exception | Undefined

  /** What a pass over a buffer yields: complete packets, the bytes they take, and the error. */
  datatype Stream = Stream(packets: seq<Packet>, used: nat, outcome: Outcome)

  // ---------------------------------------------------------------- reading

  /** strstr bounded by the bytes there are: the first match before any NUL. */
  function Find(d: string, pat: string): (r: Option<nat>)
    requires pat != ""
    ensures r.Some? ==> r.value + |pat| <= |d| && d[r.value..r.value + |pat|] == pat
  {
    if |d| < |pat| then None
    else if d[..|pat|] == pat then Some(0)
    else if d[0] == '\0' then None
    else
      match Find(d[1..], pat)
      case None => None
      case Some(i) => Some(i + 1)
  }

  /** A value read for one of the known keys is narrowed to the field's width. */
  function PutField(p: Packet, key: string, r: Stoi): Option<Packet> {
    match r
    case Value(v) =>
      if key == "Length" then Some(p.(contentLength := v % U32))
      else if key == "Channel" then Some(p.(channel := v % 256))
      else Some(p.(index := v % U32))
    case _ => None
  }

  /** A header line's effect; unknown keys are skipped. */
  function SetField(p: Packet, key: string, value: string): Option<Packet> {
    if key == "Length" || key == "Channel" || key == "Index" then PutField(p, key, ReadInt(value)) else Some(p)
  }

  function Later(n: nat, h: Step): Step {
    if h.Done? then Done(h.packet, n + h.used) else h
  }

  datatype HeaderLine = NoLine | BadLine | KeyValue(key: string, value: string, size: nat)

  /** The next header line: up to the first line end, split at the first separator. */
  function FindHeader(d: string): (r: HeaderLine)
    ensures r.KeyValue? ==> 2 <= r.size <= |d|
  {
    match Find(d, MESSAGE_END)
    case None => NoLine
    case Some(e) =>
      match Find(d, MESSAGE_HEADER_SEPARATOR)
      case None => BadLine
      case Some(s) => if s >= e then BadLine else KeyValue(d[..s], d[s + 1..e], e + 2)
  }

  predicate AtEnd(d: string) {
    |d| >= 2 && d[..2] == MESSAGE_END
  }

  /** The effect of one line: the headers end here, or the packet changes and more lines follow. */
  datatype LineStep = Stop(result: Step) | Next(packet: Packet, size: nat)

  function NextLine(d: string, p: Packet): (r: LineStep)
    ensures match r
            case Stop(h) => h.Done? ==> 0 < h.used <= |d|
            case Next(_, n) => 0 < n <= |d|
  {
    if AtEnd(d) then Stop(Done(p, 2))
    else
      match FindHeader(d)
      case NoLine => Stop(NeedMore)
      case BadLine => Stop(Malformed)
      case KeyValue(key, value, size) =>
        match SetField(p, key, value)
        case None => Stop(Throws)
        case Some(p') => Next(p', size)
  }

  /** Header lines up to and including the empty one. */
  function ParseHeaders(d: string, p: Packet): (r: Step)
    ensures r.Done? ==> 0 < r.used <= |d|
    decreases |d|
  {
    match NextLine(d, p)
    case Stop(h) => h
    case Next(p', n) => Later(n, ParseHeaders(d[n..], p'))
  }

  /** The packet whose headers, read from offset n of d, gave h. */
  function Finish(d: string, n: nat, h: Step): (r: Step)
    requires n <= |d| && (h.Done? ==> n + h.used <= |d|)
    ensures r.Done? ==> h.Done? && n + h.used <= r.used <= |d|
  {
    if !h.Done? || h.packet.contentLength == 0 then Later(n, h)
    else
      var at, len := n + h.used, h.packet.contentLength;
      if len > |d| - at then NeedMore
      else Done(h.packet.(content := d[at..at + len]), at + len)
  }

  /** What is wrong with the first six bytes, if anything. */
  function Preamble(d: string): (r: Option<Step>)
    ensures r.None? ==> |d| >= 6
    ensures r.Some? ==> !r.value.Done?
  {
    if |d| < 4 then Some(NeedMore)
    else if d[..4] != MESSAGE_BEGIN then Some(Malformed)
    else if |d| < 6 then Some(NeedMore)
    else if d[4..6] != MESSAGE_END then Some(Malformed)
    else None
  }

  const ZERO_PACKET: Packet := Packet("", 0, 0, 0)

  function ParsePacket(d: string): (r: Step)
    ensures r.Done? ==> 0 < r.used <= |d|
  {
    match Preamble(d)
    case Some(h) => h
    case None => Finish(d, 6, ParseHeaders(d[6..], ZERO_PACKET))
  }

  function Prepend(ps: seq<Packet>, n: nat, s: Stream): Stream {
    Stream(ps + s.packets, n + s.used, s.outcome)
  }

  /** The pass ends when the next packet is incomplete or cannot be read. */
  function Stopped(h: Step): (r: Stream)
    ensures r.outcome != Undefined
  {
    Stream([], 0, if h.Malformed? then ParseError else if h.Throws? then Exception else Fine)
  }

  function ParseStream(d: string): (r: Stream)
    ensures r.used <= |d| && r.outcome != Undefined
  {
    var h := ParsePacket(d);
    if h.Done? then Prepend([h.packet], h.used, ParseStream(d[h.used..])) else Stopped(h)
  }

  // ---------------------------------------------------------------- more input changes nothing

  /** A match stays; a search that found none can only find one that ends in the new part. */
  lemma {:induction false} FindStable(a: string, b: string, pat: string)
    requires pat != ""
    ensures Find(a, pat).Some? ==> Find(a + b, pat) == Find(a, pat)
    ensures Find(a, pat).None? && Find(a + b, pat).Some? ==> Find(a + b, pat).value + |pat| > |a|
  {
    if |a| >= |pat| {
      assert (a + b)[..|pat|] == a[..|pat|];
      if a[..|pat|] != pat && a[0] != '\0' {
        assert (a + b)[1..] == a[1..] + b;
        FindStable(a[1..], b, pat);
      }
    }
  }

  lemma FindHeaderStable(a: string, b: string)
    requires FindHeader(a) != NoLine
    ensures FindHeader(a + b) == FindHeader(a)
  {
    FindStable(a, b, MESSAGE_END);
    FindStable(a, b, MESSAGE_HEADER_SEPARATOR);
    var e, s := Find(a, MESSAGE_END).value, Find(a, MESSAGE_HEADER_SEPARATOR);
    if s.Some? && s.value < e {
      assert (a + b)[..s.value] == a[..s.value] && (a + b)[s.value + 1..e] == a[s.value + 1..e];
    }
  }

  lemma AtEndStable(a: string, b: string)
    requires |a| >= 2
    ensures AtEnd(a + b) == AtEnd(a)
  {
    assert (a + b)[..2] == a[..2];
  }

  lemma NextLineStable(a: string, b: string, p: Packet)
    requires NextLine(a, p) != Stop(NeedMore)
    ensures NextLine(a + b, p) == NextLine(a, p)
  {
    if |a| >= 2 {
      AtEndStable(a, b);
    }
    if !AtEnd(a) {
      FindHeaderStable(a, b);
    }
  }

  /** `parse` takes lines with `next` until one stops it. */
  ghost predicate LinesAt(next: (string, Packet) -> LineStep, parse: (string, Packet) -> Step, d: string, p: Packet) {
    var l := next(d, p);
    && (l.Next? ==> 0 < l.size <= |d|)
    && parse(d, p) == if l.Stop? then l.result else Later(l.size, parse(d[l.size..], l.packet))
  }

  ghost predicate StableNext(next: (string, Packet) -> LineStep) {
    forall a, b, p :: next(a, p) != Stop(NeedMore) ==> next(a + b, p) == next(a, p)
  }

  lemma {:induction false} LinesStable(next: (string, Packet) -> LineStep, parse: (string, Packet) -> Step,
                                       a: string, b: string, p: Packet)
    requires (forall d, q :: LinesAt(next, parse, d, q)) && StableNext(next)
    requires !parse(a, p).NeedMore?
    ensures parse(a + b, p) == parse(a, p)
    decreases |a|
  {
    assert LinesAt(next, parse, a, p) && LinesAt(next, parse, a + b, p);
    var l := next(a, p);
    if l.Next? {
      assert (a + b)[l.size..] == a[l.size..] + b;
      LinesStable(next, parse, a[l.size..], b, l.packet);
    }
  }

  lemma HeadersStable(a: string, b: string, p: Packet)
    requires !ParseHeaders(a, p).NeedMore?
    ensures ParseHeaders(a + b, p) == ParseHeaders(a, p)
  {
    assert StableNext(NextLine) by {
      forall a, b, p | NextLine(a, p) != Stop(NeedMore) {
        NextLineStable(a, b, p);
      }
    }
    assert forall d, q :: LinesAt(NextLine, ParseHeaders, d, q);
    LinesStable(NextLine, ParseHeaders, a, b, p);
  }

  lemma PreambleStable(a: string, b: string)
    requires Preamble(a) != Some(NeedMore)
    ensures Preamble(a + b) == Preamble(a)
  {
    assert (a + b)[..4] == a[..4];
    if |a| >= 6 {
      assert (a + b)[4..6] == a[4..6];
    }
  }

  lemma FinishStable(a: string, b: string, n: nat, h: Step)
    requires n <= |a| && (h.Done? ==> n + h.used <= |a|)
    requires !Finish(a, n, h).NeedMore?
    ensures Finish(a + b, n, h) == Finish(a, n, h)
  {
    if h.Done? && h.packet.contentLength > 0 {
      var at, len := n + h.used, h.packet.contentLength;
      assert (a + b)[at..at + len] == a[at..at + len];
    }
  }

  /** A complete or erroneous first packet stays so on every extension of the input. */
  lemma PacketStable(a: string, b: string)
    requires !ParsePacket(a).NeedMore?
    ensures ParsePacket(a + b) == ParsePacket(a)
  {
    PreambleStable(a, b);
    if Preamble(a).None? {
      assert (a + b)[6..] == a[6..] + b;
      HeadersStable(a[6..], b, ZERO_PACKET);
      FinishStable(a, b, 6, ParseHeaders(a[6..], ZERO_PACKET));
    }
  }

  /** `stream` takes packets with `parse` until there is none. */
  ghost predicate IsPass(parse: string -> Step, stream: string -> Stream) {
    (forall d :: PassAt(parse, stream, d)) && (forall d :: stream(d).used <= |d|)
  }

  ghost predicate PassAt(parse: string -> Step, stream: string -> Stream, d: string) {
    var h := parse(d);
    && (h.Done? ==> 0 < h.used <= |d|)
    && stream(d) == if h.Done? then Prepend([h.packet], h.used, stream(d[h.used..])) else Stopped(h)
  }

  ghost predicate Stable(parse: string -> Step) {
    forall a, b :: !parse(a).NeedMore? ==> parse(a + b) == parse(a)
  }

  /** The passes after a first packet of n bytes: s over the shorter input, longer over the longer
      one, and rest over what s left and the new bytes. */
  lemma AfterFirst(p: Packet, n: nat, s: Stream, longer: Stream, rest: Stream)
    requires longer == if s.outcome == Fine then Prepend(s.packets, s.used, rest) else s
    ensures var whole := Prepend([p], n, s);
      Prepend([p], n, longer) == if whole.outcome == Fine then Prepend(whole.packets, whole.used, rest) else whole
  {
    assert [p] + (s.packets + rest.packets) == ([p] + s.packets) + rest.packets;
  }

  lemma {:induction false} PassSplits(parse: string -> Step, stream: string -> Stream, a: string, b: string)
    requires IsPass(parse, stream) && Stable(parse)
    ensures var s := stream(a);
      stream(a + b) == if s.outcome == Fine then Prepend(s.packets, s.used, stream(a[s.used..] + b)) else s
    decreases |a|
  {
    assert PassAt(parse, stream, a) && PassAt(parse, stream, a + b);
    if parse(a).NeedMore? {
      assert a[0..] == a;
    } else if parse(a).Done? {
      var n := parse(a).used;
      PassSplits(parse, stream, a[n..], b);
      assert (a + b)[n..] == a[n..] + b;
      var s := stream(a[n..]);
      assert PassAt(parse, stream, a[n..]);
      assert a[n..][s.used..] == a[n + s.used..];
      AfterFirst(parse(a).packet, n, s, stream(a[n..] + b), stream(a[n + s.used..] + b));
    }
  }

  /** Parsing a + b is parsing a, then what a left over followed by b; an error in a is final. */
  lemma StreamSplits(a: string, b: string)
    ensures var s := ParseStream(a);
      ParseStream(a + b) == if s.outcome == Fine then Prepend(s.packets, s.used, ParseStream(a[s.used..] + b)) else s
  {
    assert Stable(ParsePacket) by {
      forall a, b | !ParsePacket(a).NeedMore? {
        PacketStable(a, b);
      }
    }
    assert IsPass(ParsePacket, ParseStream);
    PassSplits(ParsePacket, ParseStream, a, b);
  }

  /** What a fine pass leaves over holds no complete packet and no error. */
  lemma {:induction false} ResidueIsIncomplete(d: string)
    requires ParseStream(d).outcome == Fine
    ensures ParsePacket(d[ParseStream(d).used..]) == NeedMore
    decreases |d|
  {
    var r := ParsePacket(d);
    if r.Done? {
      ResidueIsIncomplete(d[r.used..]);
      assert d[r.used..][ParseStream(d[r.used..]).used..] == d[ParseStream(d).used..];
    } else {
      assert d[0..] == d;
    }
  }

  // ---------------------------------------------------------------- writing

  function Header(key: string, value: string): string {
    key + MESSAGE_HEADER_SEPARATOR + value + MESSAGE_END
  }

  datatype Line = Line(key: string, value: string)

  function HeaderLines(lines: seq<Line>): string {
    if lines == [] then MESSAGE_END else Header(lines[0].key, lines[0].value) + HeaderLines(lines[1..])
  }

  /** No Channel line on channel 0, no Length line for an empty body. */
  function Lines(body: string, channel: nat, index: nat): seq<Line> {
    (if channel > 0 then [Line("Channel", Dec(channel))] else [])
    + [Line("Index", Dec(index))]
    + (if |body| > 0 then [Line("Length", Dec(|body|))] else [])
  }

  function Build(body: string, channel: nat, index: nat): string {
    MESSAGE_BEGIN + MESSAGE_END + HeaderLines(Lines(body, channel, index)) + body
  }

  predicate Plain(s: string) {
    forall i :: 0 <= i < |s| ==> s[i] != '\0' && s[i] != '\r' && s[i] != ':'
  }

  lemma {:induction false} FindFirst(d: string, i: nat, pat: string)
    requires pat != "" && i + |pat| <= |d| && d[i..i + |pat|] == pat
    requires forall j :: 0 <= j < i ==> d[j] != '\0' && d[j] != pat[0]
    ensures Find(d, pat) == Some(i)
  {
    if i == 0 {
      assert d[..|pat|] == d[0..|pat|];
    } else {
      assert d[..|pat|][0] == d[0];
      assert d[1..][i - 1..i - 1 + |pat|] == d[i..i + |pat|];
      FindFirst(d[1..], i - 1, pat);
    }
  }

  /** A printed header line is read back as its field. */
  lemma HeaderParses(key: string, value: string, rest: string, p: Packet)
    requires Plain(key) && Plain(value) && key != ""
    ensures ParseHeaders(Header(key, value) + rest, p) ==
            match SetField(p, key, value)
            case None => Throws
            case Some(p') => Later(|Header(key, value)|, ParseHeaders(rest, p'))
  {
    var d := Header(key, value) + rest;
    var s, e := |key|, |key| + 1 + |value|;
    assert d[s] == ':' && d[s..s + 1] == MESSAGE_HEADER_SEPARATOR;
    assert d[e..e + 2] == MESSAGE_END;
    forall j | 0 <= j < e
      ensures d[j] != '\0' && d[j] != '\r' && (j < s ==> d[j] != ':')
    {
      assert d[j] == if j < s then key[j] else if j == s then ':' else value[j - s - 1];
    }
    FindFirst(d, s, MESSAGE_HEADER_SEPARATOR);
    FindFirst(d, e, MESSAGE_END);
    assert d[..s] == key && d[s + 1..e] == value && d[e + 2..] == rest;
    assert d[..2][0] == d[0] != MESSAGE_END[0];
  }

  lemma DigitsArePlain(s: string)
    requires AllDigits(s)
    ensures Plain(s)
  {}

  function SetFields(lines: seq<Line>, p: Packet): Option<Packet> {
    if lines == [] then Some(p)
    else
      match SetField(p, lines[0].key, lines[0].value)
      case None => None
      case Some(p') => SetFields(lines[1..], p')
  }

  lemma {:induction false} LinesParse(lines: seq<Line>, rest: string, p: Packet)
    requires forall i :: 0 <= i < |lines| ==> Plain(lines[i].key) && Plain(lines[i].value) && lines[i].key != ""
    ensures ParseHeaders(HeaderLines(lines) + rest, p) ==
            match SetFields(lines, p)
            case None => Throws
            case Some(p') => Done(p', |HeaderLines(lines)|)
  {
    if lines == [] {
      assert (MESSAGE_END + rest)[..2] == MESSAGE_END;
    } else {
      var l, more := lines[0], HeaderLines(lines[1..]) + rest;
      assert HeaderLines(lines) + rest == Header(l.key, l.value) + more;
      HeaderParses(l.key, l.value, more, p);
      var after := SetField(p, l.key, l.value);
      if after.Some? {
        LinesParse(lines[1..], rest, after.value);
      }
    }
  }

  predicate InLimits(body: string, index: nat) {
    index < INT_LIMIT && |body| < INT_LIMIT
  }

  lemma PutOne(key: string, n: nat, p: Packet)
    requires key == "Length" || (key == "Channel" && n < 256) || key == "Index"
    ensures PutField(p, key, if n < INT_LIMIT then Value(n) else OutOfRange) ==
            if n >= INT_LIMIT then None
            else if key == "Length" then Some(p.(contentLength := n))
            else if key == "Channel" then Some(p.(channel := n))
            else Some(p.(index := n))
  {}

  lemma SetOne(key: string, n: nat, p: Packet)
    requires key == "Length" || (key == "Channel" && n < 256) || key == "Index"
    ensures SetField(p, key, Dec(n)) ==
            if n >= INT_LIMIT then None
            else if key == "Length" then Some(p.(contentLength := n))
            else if key == "Channel" then Some(p.(channel := n))
            else Some(p.(index := n))
  {
    ReadDec(n);
    PutOne(key, n, p);
  }

  lemma FieldThen(l: Line, rest: seq<Line>, p: Packet)
    ensures SetFields([l] + rest, p) ==
            match SetField(p, l.key, l.value) case None => None case Some(q) => SetFields(rest, q)
  {
    assert ([l] + rest)[1..] == rest;
  }

  lemma FieldsOfPacket(body: string, channel: nat, index: nat)
    requires channel < 256
    ensures SetFields(Lines(body, channel, index), ZERO_PACKET) ==
            if InLimits(body, index) then Some(Packet("", |body|, channel, index)) else None
  {
    var p := ZERO_PACKET;
    var length := if |body| > 0 then [Line("Length", Dec(|body|))] else [];
    var tail := [Line("Index", Dec(index))] + length;
    var q := p.(channel := channel);
    if channel > 0 {
      assert Lines(body, channel, index) == [Line("Channel", Dec(channel))] + tail;
      FieldThen(Line("Channel", Dec(channel)), tail, p);
      SetOne("Channel", channel, p);
    } else {
      assert Lines(body, channel, index) == tail;
    }
    FieldThen(Line("Index", Dec(index)), length, q);
    SetOne("Index", index, q);
    if index < INT_LIMIT && |body| > 0 {
      assert length == [Line("Length", Dec(|body|))] + [];
      FieldThen(Line("Length", Dec(|body|)), [], q.(index := index));
      SetOne("Length", |body|, q.(index := index));
    }
  }

  lemma LinesArePlain(body: string, channel: nat, index: nat, i: nat)
    requires i < |Lines(body, channel, index)|
    ensures var l := Lines(body, channel, index)[i]; Plain(l.key) && Plain(l.value) && l.key != ""
  {
    var l := Lines(body, channel, index)[i];
    DigitsArePlain(l.value);
  }

  lemma PreambleParses(rest: string)
    ensures ParsePacket(MESSAGE_BEGIN + MESSAGE_END + rest) ==
            Finish(MESSAGE_BEGIN + MESSAGE_END + rest, 6, ParseHeaders(rest, ZERO_PACKET))
  {
    var d := MESSAGE_BEGIN + MESSAGE_END + rest;
    assert d[..4] == MESSAGE_BEGIN && d[4..6] == MESSAGE_END && d[6..] == rest;
  }

  lemma BodyParses(start: string, body: string, rest: string, h: Step, n: nat)
    requires h.Done? ==> n + h.used == |start| && h.packet.contentLength == |body| && h.packet.content == ""
    requires n <= |start|
    ensures Finish(start + body + rest, n, h) ==
            if h.Done? then Done(h.packet.(content := body), |start| + |body|) else h
  {
    if h.Done? {
      assert (start + body + rest)[|start|..|start| + |body|] == body;
    }
  }

  lemma BuildThenRest(body: string, channel: nat, index: nat, rest: string)
    ensures var h := HeaderLines(Lines(body, channel, index));
      Build(body, channel, index) + rest == MESSAGE_BEGIN + MESSAGE_END + (h + (body + rest))
  {}

  /** Round trip, for any body bytes and anything that follows: the packet read is the packet
      written exactly when index and length fit an int; otherwise reading it throws. */
  lemma BuildParses(body: string, channel: nat, index: nat, rest: string)
    requires channel < 256
    ensures var d := Build(body, channel, index);
      ParsePacket(d + rest) == if InLimits(body, index) then Done(Packet(body, |body|, channel, index), |d|) else Throws
  {
    var lines := Lines(body, channel, index);
    var h := HeaderLines(lines);
    BuildThenRest(body, channel, index, rest);
    PreambleParses(h + (body + rest));
    forall i | 0 <= i < |lines| {
      LinesArePlain(body, channel, index, i);
    }
    LinesParse(lines, body + rest, ZERO_PACKET);
    FieldsOfPacket(body, channel, index);
    BodyParses(MESSAGE_BEGIN + MESSAGE_END + h, body, rest, ParseHeaders(h + (body + rest), ZERO_PACKET), 6);
  }
}
