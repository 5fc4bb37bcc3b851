/** The message processer: one object that writes packets and reads them from a byte stream. */
module MessageProcessers {
  import opened Arithmetic
  import opened Options
  import opened Decimals
  import opened Framing
  import opened Sessions

  class MessageProcesser {
    var readBuf: string
    var messageQueues: seq<seq<Packet>>
    var sendChannels: seq<nat>
    var disconnects: nat
    /** The packets handed to the delegates so far. */
    var received: seq<Packet>
    ghost var parsed: seq<Packet>

    ghost predicate Valid()
      reads this
    {
      && messageQueues == seq(MAX_CHANNEL, _ => [])
      && |sendChannels| == MAX_CHANNEL
      && forall c :: 0 <= c < MAX_CHANNEL ==> sendChannels[c] < U32
    }

    ghost function State(outcome: Outcome): Receiver
      reads this
    {
      Receiver(readBuf, parsed, received, outcome)
    }

    constructor ()
      ensures Valid() && State(Fine) == NEW_RECEIVER && sendChannels == seq(MAX_CHANNEL, _ => 0) && disconnects == 0
    {
      readBuf, received, parsed, disconnects := "", [], [], 0;
      messageQueues := seq(MAX_CHANNEL, _ => []);
      sendChannels := seq(MAX_CHANNEL, _ => 0);
    }

    // -------------------------------------------------------------- writing

    method AddHeader(buf: string, key: string, value: string) returns (r: string)
      ensures r == buf + Header(key, value)
    {
      r := buf + key;
      r := r + MESSAGE_HEADER_SEPARATOR;
      r := r + value;
      r := r + MESSAGE_END;
    }

    method BuildPacket(data: string, channel: nat) returns (buff: string)
      requires Valid() && channel < MAX_CHANNEL && |data| < U32
      modifies this`sendChannels
      ensures Valid()
      ensures buff == Build(data, channel, old(sendChannels[channel]))
      ensures sendChannels == old(sendChannels)[channel := (old(sendChannels[channel]) + 1) % U32]
    {
      var index := sendChannels[channel];
      buff := MESSAGE_BEGIN;
      buff := buff + MESSAGE_END;
      ghost var start := buff;
      ghost var channelLine := if channel > 0 then Header("Channel", Dec(channel)) else "";
      ghost var lengthLine := if |data| > 0 then Header("Length", Dec(|data|)) else "";
      if channel > 0 {
        buff := AddHeader(buff, "Channel", Dec(channel));
      }
      assert buff == start + channelLine;
      sendChannels := sendChannels[channel := (index + 1) % U32];
      buff := AddHeader(buff, "Index", Dec(index));
      ghost var indexed := buff;
      if |data| > 0 {
        buff := AddHeader(buff, "Length", Dec(|data|));
      }
      assert buff == indexed + lengthLine;
      buff := buff + MESSAGE_END;
      BuiltLines(data, channel, index);
      Assembled(start, channelLine, Header("Index", Dec(index)), lengthLine, MESSAGE_END);
      if |data| > 0 {
        buff := buff + data;
      }
    }

    // -------------------------------------------------------------- reading

    /** Takes packets until the buffer is used up, a packet is incomplete, or one is wrong. */
    method TryConsume(data: string) returns (result: Stream)
      ensures result == ParseStream(data)
    {
      var at := new Cursor(data);
      result := Stream([], 0, Fine);
      while at.leftlen > 0
        invariant at.Valid() && fresh(at) && !at.parseError && at.data == data
        invariant result.outcome == Fine && result.used == at.ptr && Partial(ParseStream, data, result)
        decreases at.leftlen
      {
        var h := at.ConsumePacket();
        ParsePasses(data[result.used..]);
        NextPacket(ParsePacket, ParseStream, data, result, h);
        if !h.Done? {
          result := result.(outcome := Stopped(h).outcome);
          return;
        }
        result := Stream(result.packets + [h.packet], result.used + h.used, Fine);
      }
      NothingLeft(data, result);
    }

    /** One read from a stream connection. */
    method OnRead(chunk: string) returns (outcome: Outcome)
      requires Valid()
      modifies this
      ensures sendChannels == old(sendChannels)
      ensures outcome == ReadStep(old(State(Fine)), chunk).outcome
      ensures outcome != Undefined ==> Valid() && State(outcome) == ReadStep(old(State(Fine)), chunk)
      ensures disconnects == old(disconnects) + if outcome == ParseError then 1 else 0
    {
      readBuf := readBuf + chunk;
      var result := TryConsume(readBuf);
      if result.outcome != Fine {
        if result.outcome == ParseError {
          disconnects := disconnects + 1;
        }
        return result.outcome;
      }
      readBuf := readBuf[result.used..];
      var ok := Enqueue(result.packets);
      if !ok {
        return Undefined;
      }
      parsed := parsed + result.packets;
      Deliver(result.packets);
      return Fine;
    }

    /** Puts every packet at the end of its channel's queue. */
    method Enqueue(packets: seq<Packet>) returns (ok: bool)
      requires messageQueues == seq(MAX_CHANNEL, _ => [])
      modifies this`messageQueues
      ensures ok <==> ChannelsOk(packets)
      ensures ok ==> messageQueues == Queues(packets)
    {
      var k := 0;
      while k < |packets|
        invariant k <= |packets| && |messageQueues| == MAX_CHANNEL
        invariant ChannelsOk(packets[..k])
        invariant forall c :: 0 <= c < MAX_CHANNEL ==> messageQueues[c] == OnChannel(packets[..k], c)
      {
        var packet := packets[k];
        assert packets[..k + 1][..k] == packets[..k] && packets[..k + 1][k] == packet;
        if packet.channel >= |messageQueues| {
          return false;
        }
        messageQueues := messageQueues[packet.channel := messageQueues[packet.channel] + [packet]];
        k := k + 1;
      }
      assert packets[..k] == packets;
      return true;
    }

    method Trigger(queue: seq<Packet>)
      modifies this`received
      ensures received == old(received) + queue
    {
      for j := 0 to |queue|
        invariant received == old(received) + queue[..j]
      {
        received := received + [queue[j]];
      }
      assert queue[..|queue|] == queue;
    }

    /** Empties the queues, channel by channel. */
    method Deliver(ghost packets: seq<Packet>)
      requires messageQueues == Queues(packets)
      modifies this`messageQueues, this`received
      ensures messageQueues == seq(MAX_CHANNEL, _ => [])
      ensures received == old(received) + Delivery(packets)
    {
      var i := 0;
      ghost var n := MAX_CHANNEL;
      while i < MAX_CHANNEL
        invariant i <= n == |messageQueues| == MAX_CHANNEL
        invariant received == old(received) + Flat(Queues(packets)[..i])
        invariant forall c :: 0 <= c < i ==> messageQueues[c] == []
        invariant messageQueues[i..] == Queues(packets)[i..]
      {
        ghost var was := messageQueues;
        assert was[i] == was[i..][0] == OnChannel(packets, i);
        assert Queues(packets)[..i + 1][..i] == Queues(packets)[..i];
        Trigger(messageQueues[i]);
        messageQueues := messageQueues[i := []];
        assert messageQueues[i + 1..] == was[i..][1..] == Queues(packets)[i + 1..];
        i := i + 1;
      }
      assert Queues(packets)[..i] == Queues(packets);
    }
  }

  /** The position in a buffer while packets are taken from it. */
  class Cursor {
    const data: string
    var ptr: nat
    var leftlen: nat
    var parseError: bool

    ghost predicate Valid()
      reads this
    {
      ptr + leftlen == |data|
    }

    ghost function Rest(): string
      reads this
      requires Valid()
    {
      data[ptr..]
    }

    constructor (d: string)
      ensures Valid() && data == d && ptr == 0 && Rest() == d && !parseError
    {
      data, ptr, leftlen, parseError := d, 0, |d|, false;
    }

    method ConsumePtr(len: nat)
      requires Valid() && len <= leftlen
      modifies this`ptr, this`leftlen
      ensures Valid() && ptr == old(ptr) + len && Rest() == old(Rest())[len..]
    {
      ptr, leftlen := ptr + len, leftlen - len;
    }

    method TryConsumeString(str: string) returns (ok: bool)
      requires Valid()
      modifies this`ptr, this`leftlen
      ensures Valid()
      ensures ok <==> |str| <= |old(Rest())| && old(Rest())[..|str|] == str
      ensures ptr == old(ptr) + (if ok then |str| else 0)
      ensures Rest() == if ok then old(Rest())[|str|..] else old(Rest())
    {
      if leftlen < |str| {
        return false;
      }
      assert data[ptr..ptr + |str|] == Rest()[..|str|];
      if data[ptr..ptr + |str|] != str {
        return false;
      }
      ConsumePtr(|str|);
      return true;
    }

    method ConsumeString(str: string) returns (ok: bool)
      requires Valid()
      modifies this
      ensures Valid()
      ensures ok <==> |str| <= |old(Rest())| && old(Rest())[..|str|] == str
      ensures ptr == old(ptr) + (if ok then |str| else 0)
      ensures Rest() == if ok then old(Rest())[|str|..] else old(Rest())
      ensures parseError == (old(parseError) || (!ok && |str| <= |old(Rest())|))
    {
      if leftlen < |str| {
        return false;
      }
      assert data[ptr..ptr + |str|] == Rest()[..|str|];
      if data[ptr..ptr + |str|] != str {
        parseError := true;
        return false;
      }
      ConsumePtr(|str|);
      return true;
    }

    /** Takes one header line; without one, tells whether that is an error. */
    method FindKeyValue() returns (ok: bool, key: string, value: string)
      requires Valid()
      modifies this
      ensures Valid()
      ensures var line := FindHeader(old(Rest()));
        && ok == line.KeyValue?
        && (ok ==> line.key == key && line.value == value && parseError == old(parseError))
        && (ok ==> ptr == old(ptr) + line.size && Rest() == old(Rest())[line.size..])
        && (!ok ==> ptr == old(ptr) && parseError == (old(parseError) || line == BadLine))
    {
      ok, key, value := false, "", "";
      var rest := data[ptr..];
      var headend := Find(rest, MESSAGE_END);
      if headend == None {
        return;
      }
      var headSeparator := Find(rest, MESSAGE_HEADER_SEPARATOR);
      if headSeparator == None || headSeparator.value >= headend.value {
        parseError := true;
        return;
      }
      key := rest[..headSeparator.value];
      value := rest[headSeparator.value + |MESSAGE_HEADER_SEPARATOR|..headend.value];
      ConsumePtr(headend.value + |MESSAGE_END|);
      ok := true;
    }

    /** The empty line, or one header line put into the packet. */
    method ConsumeLine(packet: Packet) returns (l: LineStep)
      requires Valid() && !parseError
      modifies this
      ensures Valid() && l == NextLine(old(Rest()), packet)
      ensures l.Next? ==> ptr == old(ptr) + l.size && Rest() == old(Rest())[l.size..] && !parseError
      ensures l.Stop? && l.result.Done? ==>
                ptr == old(ptr) + l.result.used && Rest() == old(Rest())[l.result.used..] && !parseError
    {
      var ended := TryConsumeString(MESSAGE_END);
      if ended {
        return Stop(Done(packet, |MESSAGE_END|));
      }
      var start := ptr;
      var ok, key, value := FindKeyValue();
      if !ok {
        return Stop(if parseError then Malformed else NeedMore);
      }
      var field := SetField(packet, key, value);
      if field == None {
        return Stop(Throws);
      }
      return Next(field.value, ptr - start);
    }

    /** Header lines up to the empty one; `parse` is what reading them line by line gives. */
    method ConsumeHeaders(ghost parse: (string, Packet) -> Step) returns (h: Step)
      requires Valid() && !parseError
      requires forall d, p :: LinesAt(NextLine, parse, d, p)
      modifies this
      ensures Valid()
      ensures h == parse(old(Rest()), ZERO_PACKET)
      ensures h.Done? ==> ptr == old(ptr) + h.used && Rest() == old(Rest())[h.used..] && !parseError
    {
      var start, packet := ptr, ZERO_PACKET;
      ghost var all := parse(Rest(), ZERO_PACKET);
      while true
        invariant Valid() && !parseError && start <= ptr
        invariant all == Later(ptr - start, parse(Rest(), packet))
        decreases leftlen
      {
        assert LinesAt(NextLine, parse, Rest(), packet);
        var n := ptr - start;
        var l := ConsumeLine(packet);
        if l.Stop? {
          assert l.result.Done? ==> Rest() == old(Rest())[n + l.result.used..];
          return Later(n, l.result);
        }
        packet := l.packet;
      }
    }

    /** The first two strings of a packet; tells why they are not there. */
    method ConsumePreamble() returns (h: Option<Step>)
      requires Valid() && !parseError
      modifies this
      ensures Valid() && h == Preamble(old(Rest()))
      ensures h.None? ==> ptr == old(ptr) + 6 && Rest() == old(Rest())[6..] && !parseError
    {
      ghost var d := Rest();
      var begun := ConsumeString(MESSAGE_BEGIN);
      if !begun {
        return Some(if parseError then Malformed else NeedMore);
      }
      assert |d| >= 6 ==> d[4..6] == d[4..][..2];
      var ended := ConsumeString(MESSAGE_END);
      if !ended {
        return Some(if parseError then Malformed else NeedMore);
      }
      return None;
    }

    /** The body that the headers read from offset n of d announce. */
    method ConsumeBody(ghost d: string, n: nat, h: Step) returns (r: Step)
      requires Valid() && h.Done? && n + h.used <= |d| && Rest() == d[n + h.used..]
      modifies this`ptr, this`leftlen
      ensures Valid() && r == Finish(d, n, h)
      ensures r.Done? ==> ptr == old(ptr) + (r.used - n - h.used)
    {
      var packet, len := h.packet, h.packet.contentLength;
      if len > 0 {
        if len > leftlen {
          return NeedMore;
        }
        packet := packet.(content := data[ptr..ptr + len]);
        assert packet.content == Rest()[..len] == d[n + h.used..n + h.used + len];
        ConsumePtr(len);
      }
      return Done(packet, n + h.used + len);
    }

    method ConsumePacket() returns (h: Step)
      requires Valid() && !parseError
      modifies this
      ensures Valid() && h == ParsePacket(old(Rest()))
      ensures h.Done? ==> ptr == old(ptr) + h.used && !parseError
    {
      ghost var d := Rest();
      var p := ConsumePreamble();
      if p.Some? {
        return p.value;
      }
      h := ConsumeHeaders(ParseHeaders);
      if h.Done? {
        assert Rest() == d[6 + h.used..];
        h := ConsumeBody(d, 6, h);
      }
    }
  }

  /** The pass over the buffer goes on from r. */
  ghost predicate Partial(stream: string -> Stream, data: string, r: Stream) {
    r.used <= |data| && stream(data) == Prepend(r.packets, r.used, stream(data[r.used..]))
  }

  /** One packet further in a pass. */
  lemma NextPacket(parse: string -> Step, stream: string -> Stream, data: string, r: Stream, h: Step)
    requires Partial(stream, data, r) && PassAt(parse, stream, data[r.used..]) && h == parse(data[r.used..])
    ensures h.Done? ==> Partial(stream, data, Stream(r.packets + [h.packet], r.used + h.used, Fine))
    ensures !h.Done? ==> stream(data) == r.(outcome := Stopped(h).outcome)
  {
    var rest := data[r.used..];
    if h.Done? {
      var next := stream(rest[h.used..]);
      assert rest[h.used..] == data[r.used + h.used..];
      assert r.packets + [h.packet] + next.packets == r.packets + ([h.packet] + next.packets);
    }
  }

  lemma ParsePasses(d: string)
    ensures PassAt(ParsePacket, ParseStream, d)
  {}

  lemma NothingLeft(data: string, r: Stream)
    requires Partial(ParseStream, data, r) && r.used == |data| && r.outcome == Fine
    ensures ParseStream(data) == r
  {
    ParsePasses(data[r.used..]);
    NextPacket(ParsePacket, ParseStream, data, r, ParsePacket(data[r.used..]));
  }

  /** The header lines of a packet, written one after the other. */
  lemma BuiltLines(data: string, channel: nat, index: nat)
    ensures HeaderLines(Lines(data, channel, index)) ==
            (if channel > 0 then Header("Channel", Dec(channel)) else "") + (Header("Index", Dec(index))
            + ((if |data| > 0 then Header("Length", Dec(|data|)) else "") + MESSAGE_END))
  {
    var first := if channel > 0 then [Line("Channel", Dec(channel))] else [];
    var last := if |data| > 0 then [Line("Length", Dec(|data|))] else [];
    ThreeLines(first, Line("Index", Dec(index)), last);
  }

  /** The text of at most one line. */
  function Optional(lines: seq<Line>): string {
    if lines == [] then "" else Header(lines[0].key, lines[0].value)
  }

  lemma ThreeLines(first: seq<Line>, l: Line, last: seq<Line>)
    requires |first| <= 1 && |last| <= 1
    ensures HeaderLines(first + [l] + last) ==
            Optional(first) + (Header(l.key, l.value) + (Optional(last) + MESSAGE_END))
  {
    var tail := [l] + last;
    LinesThen(l, last);
    OptionalLines(last);
    assert first + [l] + last == first + tail;
    if first != [] {
      assert first == [first[0]];
      LinesThen(first[0], tail);
    } else {
      assert first + tail == tail;
    }
  }

  lemma OptionalLines(lines: seq<Line>)
    requires |lines| <= 1
    ensures HeaderLines(lines) == Optional(lines) + MESSAGE_END
  {
    if lines != [] {
      assert lines == [lines[0]] + [];
      LinesThen(lines[0], []);
    }
  }

  lemma Assembled(start: string, a: string, b: string, c: string, end: string)
    ensures start + a + b + c + end == start + (a + (b + (c + end)))
  {}

  lemma LinesThen(l: Line, rest: seq<Line>)
    ensures HeaderLines([l] + rest) == Header(l.key, l.value) + HeaderLines(rest)
  {
    assert ([l] + rest)[1..] == rest;
  }
}
