/** Whole sessions: any sends on any channels, cut into any pieces on the way. */
module Sessions {
  import opened Arithmetic
  import opened Decimals
  import opened Framing

  // ---------------------------------------------------------------- delivery

  function OnChannel(ps: seq<Packet>, c: nat): seq<Packet> {
    if ps == [] then []
    else OnChannel(ps[..|ps| - 1], c) + if ps[|ps| - 1].channel == c then [ps[|ps| - 1]] else []
  }

  /** The queues of the channels once the packets of one read are in them. */
  function Queues(ps: seq<Packet>): (q: seq<seq<Packet>>)
    ensures |q| == MAX_CHANNEL && forall c :: 0 <= c < MAX_CHANNEL ==> q[c] == OnChannel(ps, c)
  {
    seq(MAX_CHANNEL, c requires 0 <= c => OnChannel(ps, c))
  }

  function Flat(qs: seq<seq<Packet>>): seq<Packet> {
    if qs == [] then [] else Flat(qs[..|qs| - 1]) + qs[|qs| - 1]
  }

  /** The packets of one read go out channel by channel. */
  function Delivery(ps: seq<Packet>): seq<Packet> {
    Flat(Queues(ps))
  }

  ghost predicate ChannelsOk(ps: seq<Packet>) {
    forall i :: 0 <= i < |ps| ==> ps[i].channel < MAX_CHANNEL
  }

  lemma {:induction false} OnChannelConcat(a: seq<Packet>, b: seq<Packet>, c: nat)
    ensures OnChannel(a + b, c) == OnChannel(a, c) + OnChannel(b, c)
  {
    if b == [] {
      assert a + b == a;
    } else {
      OnChannelConcat(a, b[..|b| - 1], c);
      assert (a + b)[..|a + b| - 1] == a + b[..|b| - 1];
    }
  }

  lemma {:induction false} OnChannelTwice(ps: seq<Packet>, c: nat, c': nat)
    ensures OnChannel(OnChannel(ps, c), c') == if c == c' then OnChannel(ps, c) else []
  {
    if ps != [] {
      OnChannelTwice(ps[..|ps| - 1], c, c');
      OnChannelConcat(OnChannel(ps[..|ps| - 1], c), if ps[|ps| - 1].channel == c then [ps[|ps| - 1]] else [], c');
    }
  }

  /** Among queues of which only the c-th holds packets of channel c, flattening keeps them. */
  lemma {:induction false} FlatKeepsOrder(qs: seq<seq<Packet>>, c: nat)
    requires forall k: nat :: k < |qs| && k != c ==> OnChannel(qs[k], c) == []
    ensures OnChannel(Flat(qs), c) == if c < |qs| then OnChannel(qs[c], c) else []
  {
    if qs != [] {
      var n := |qs| - 1;
      FlatKeepsOrder(qs[..n], c);
      OnChannelConcat(Flat(qs[..n]), qs[n], c);
    }
  }

  /** Delivery permutes the packets and keeps the order on each channel. */
  lemma DeliveryKeepsOrder(ps: seq<Packet>, c: nat)
    requires ChannelsOk(ps)
    ensures OnChannel(Delivery(ps), c) == OnChannel(ps, c)
    ensures multiset(Delivery(ps)) == multiset(ps)
  {
    var qs := Queues(ps);
    forall k: nat | k < |qs|
      ensures OnChannel(qs[k], c) == if k == c then OnChannel(ps, c) else []
    {
      OnChannelTwice(ps, k, c);
    }
    FlatKeepsOrder(qs, c);
    if c >= |qs| {
      NothingOnChannel(ps, c);
    }
    forall p
      ensures multiset(Delivery(ps))[p] == multiset(ps)[p]
    {
      CountDelivered(ps, p);
    }
  }

  lemma {:induction false} NothingOnChannel(ps: seq<Packet>, c: nat)
    requires forall i :: 0 <= i < |ps| ==> ps[i].channel < c
    ensures OnChannel(ps, c) == []
  {
    if ps != [] {
      NothingOnChannel(ps[..|ps| - 1], c);
    }
  }

  lemma {:induction false} CountOnChannel(ps: seq<Packet>, c: nat, p: Packet)
    ensures multiset(OnChannel(ps, c))[p] == if p.channel == c then multiset(ps)[p] else 0
  {
    if ps != [] {
      CountOnChannel(ps[..|ps| - 1], c, p);
      assert ps == ps[..|ps| - 1] + [ps[|ps| - 1]];
    }
  }

  lemma CountBoth(a: seq<Packet>, b: seq<Packet>, p: Packet)
    ensures multiset(a + b)[p] == multiset(a)[p] + multiset(b)[p]
  {}

  /** A packet that only one queue holds, k times, comes out k times. */
  lemma {:induction false} CountFlat(qs: seq<seq<Packet>>, p: Packet, k: nat)
    requires forall c: nat :: c < |qs| ==> multiset(qs[c])[p] == if p.channel == c then k else 0
    ensures multiset(Flat(qs))[p] == if p.channel < |qs| then k else 0
  {
    if qs != [] {
      var n := |qs| - 1;
      CountFlat(qs[..n], p, k);
      CountBoth(Flat(qs[..n]), qs[n], p);
    }
  }

  lemma CountDelivered(ps: seq<Packet>, p: Packet)
    requires ChannelsOk(ps)
    ensures multiset(Delivery(ps))[p] == multiset(ps)[p]
  {
    var qs := Queues(ps);
    forall c: nat | c < |qs|
      ensures multiset(qs[c])[p] == if p.channel == c then multiset(ps)[p] else 0
    {
      CountOnChannel(ps, c, p);
    }
    CountFlat(qs, p, multiset(ps)[p]);
    assert p in multiset(ps) ==> p in ps;
  }

  // ---------------------------------------------------------------- receiving

  /** A receiver: the bytes kept, the packets queued so far in stream order, the packets handed
      to the delegates so far, and how the last read ended. */
  datatype Receiver = Receiver(readBuf: string, parsed: seq<Packet>, delivered: seq<Packet>, outcome: Outcome)

  const NEW_RECEIVER: Receiver := Receiver("", [], [], Fine)

  /** The receiver after a pass over the bytes b.  An error keeps the bytes and drops the packets
      found before it; a channel beyond the queues is undefined behaviour. */
  function After(r: Receiver, b: string, s: Stream): Receiver {
    if s.outcome != Fine then r.(readBuf := b, outcome := s.outcome)
    else if exists i :: 0 <= i < |s.packets| && s.packets[i].channel >= MAX_CHANNEL then r.(outcome := Undefined)
    else
      var left := if s.used <= |b| then b[s.used..] else "";
      Receiver(left, r.parsed + s.packets, r.delivered + Delivery(s.packets), Fine)
  }

  /** One read, its bytes passed over by `parse`.  After undefined behaviour nothing more is said. */
  function ReadBy(parse: string -> Stream, r: Receiver, chunk: string): Receiver {
    if r.outcome == Undefined then r else After(r, r.readBuf + chunk, parse(r.readBuf + chunk))
  }

  function ReadAllBy(parse: string -> Stream, chunks: seq<string>): Receiver {
    if chunks == [] then NEW_RECEIVER
    else ReadBy(parse, ReadAllBy(parse, chunks[..|chunks| - 1]), chunks[|chunks| - 1])
  }

  function ReadStep(r: Receiver, chunk: string): Receiver {
    ReadBy(ParseStream, r, chunk)
  }

  function ReadAll(chunks: seq<string>): Receiver {
    ReadAllBy(ParseStream, chunks)
  }

  function Joined(chunks: seq<string>): string {
    if chunks == [] then "" else Joined(chunks[..|chunks| - 1]) + chunks[|chunks| - 1]
  }

  /** What the reads have to show, whatever the cuts, for the bytes d received so far: s is the
      pass over d, and kept the outcome of a pass over the bytes kept. */
  ghost predicate Shows(r: Receiver, d: string, s: Stream, kept: Outcome) {
    && s.used <= |d| && s.outcome != Undefined
    && (s.outcome == Fine && ChannelsOk(s.packets) ==>
          r.outcome == Fine && r.parsed == s.packets && r.readBuf == d[s.used..])
    && (s.outcome == Fine && !ChannelsOk(s.packets) ==> r.outcome == Undefined)
    && (s.outcome != Fine && r.outcome != Undefined ==> r.outcome == s.outcome == kept && r.parsed <= s.packets)
    && (s.outcome != Fine && ChannelsOk(s.packets) ==> r.outcome != Undefined)
  }

  ghost predicate Reads(r: Receiver, d: string) {
    Shows(r, d, ParseStream(d), ParseStream(r.readBuf).outcome)
  }

  /** A pass over more bytes goes on where the pass over fewer ended, unless that failed. */
  ghost predicate GoesOn(s: Stream, more: Stream, all: Stream) {
    all == if s.outcome == Fine then Prepend(s.packets, s.used, more) else s
  }

  lemma ChannelsOfBoth(a: seq<Packet>, b: seq<Packet>)
    ensures ChannelsOk(a + b) <==> ChannelsOk(a) && ChannelsOk(b)
  {
    assert forall i :: 0 <= i < |b| ==> b[i] == (a + b)[|a| + i];
    assert forall i :: 0 <= i < |a| ==> a[i] == (a + b)[i];
  }

  lemma FineAfterShows(r: Receiver, d: string, s: Stream, chunk: string, more: Stream)
    requires s.outcome == Fine && ChannelsOk(s.packets) && Shows(r, d, s, Fine)
    requires more.used <= |r.readBuf + chunk| && more.outcome != Undefined
    ensures Shows(After(r, r.readBuf + chunk, more), d + chunk, Prepend(s.packets, s.used, more), more.outcome)
  {
    ChannelsOfBoth(s.packets, more.packets);
    assert (d + chunk)[s.used + more.used..] == (r.readBuf + chunk)[more.used..];
  }

  /** The step of the induction, with the passes over the bytes before (s), over all bytes (all),
      over what s left and the new bytes (next), and over the bytes kept and the new ones (more). */
  lemma AfterShows(r: Receiver, d: string, chunk: string, s: Stream, kept: Outcome,
                   next: Stream, more: Stream, all: Stream)
    requires Shows(r, d, s, kept) && GoesOn(s, next, all) && all.used <= |d + chunk| && next.outcome != Undefined
    requires s.used <= |d| && r.readBuf == d[s.used..] ==> next == more
    requires more.used <= |r.readBuf + chunk| && more.outcome != Undefined
    requires kept != Fine ==> more.outcome == kept
    ensures r.outcome != Undefined ==> Shows(After(r, r.readBuf + chunk, more), d + chunk, all, more.outcome)
    ensures r.outcome == Undefined ==> Shows(r, d + chunk, all, kept)
  {
    if s.outcome == Fine {
      ChannelsOfBoth(s.packets, next.packets);
      if ChannelsOk(s.packets) {
        FineAfterShows(r, d, s, chunk, more);
      }
    }
  }

  /** A read is undefined behaviour only once the bytes so far are free of errors and name a channel
      beyond the queues. */
  lemma TurnsUndefined(r: Receiver, d: string, chunk: string, s: Stream, kept: Outcome,
                       next: Stream, more: Stream, all: Stream)
    requires Shows(r, d, s, kept) && GoesOn(s, next, all) && r.outcome != Undefined
    requires s.used <= |d| && r.readBuf == d[s.used..] ==> next == more
    requires kept != Fine ==> more.outcome == kept
    requires more.outcome != Undefined && After(r, r.readBuf + chunk, more).outcome == Undefined
    ensures all.outcome == Fine && !ChannelsOk(all.packets)
  {
    ChannelsOfBoth(s.packets, next.packets);
  }

  lemma PassGoesOn(d: string, chunk: string)
    ensures var s := ParseStream(d);
      GoesOn(s, ParseStream(d[s.used..] + chunk), ParseStream(d + chunk))
  {
    StreamSplits(d, chunk);
  }

  /** The outcome kept matters only for the bytes an error left behind. */
  lemma KeptAfter(r: Receiver, b: string, more: Stream, d: string, all: Stream, kept: Outcome)
    requires more.used <= |b| && Shows(After(r, b, more), d, all, more.outcome)
    requires After(r, b, more).readBuf == b ==> kept == more.outcome
    ensures Shows(After(r, b, more), d, all, kept)
  {}

  lemma ReadStepReads(r: Receiver, d: string, chunk: string)
    requires Reads(r, d)
    ensures Reads(ReadStep(r, chunk), d + chunk)
  {
    var s, b := ParseStream(d), r.readBuf + chunk;
    var next, more, all := ParseStream(d[s.used..] + chunk), ParseStream(b), ParseStream(d + chunk);
    PassGoesOn(d, chunk);
    PassGoesOn(r.readBuf, chunk);
    AfterShows(r, d, chunk, s, ParseStream(r.readBuf).outcome, next, more, all);
    if r.outcome != Undefined {
      KeptAfter(r, b, more, d + chunk, all, ParseStream(After(r, b, more).readBuf).outcome);
    }
  }

  /** However a stream is cut into reads: an error-free stream gives the same packets and leaves
      the same bytes; it fails on a channel beyond the queues exactly when it has one; and an
      erroneous stream ends in its own error with a part of its packets queued, unless it names
      such a channel and the cut met that first. */
  lemma {:induction false} EveryCutReads(chunks: seq<string>)
    ensures Reads(ReadAll(chunks), Joined(chunks))
  {
    if chunks != [] {
      EveryCutReads(chunks[..|chunks| - 1]);
      ReadStepReads(ReadAll(chunks[..|chunks| - 1]), Joined(chunks[..|chunks| - 1]), chunks[|chunks| - 1]);
    }
  }

  /** The bytes are free of errors and name a channel beyond the queues. */
  ghost predicate NamesBadChannel(d: string) {
    ParseStream(d).outcome == Fine && !ChannelsOk(ParseStream(d).packets)
  }

  lemma TurnsUndefinedAt(r: Receiver, d: string, chunk: string)
    requires Reads(r, d) && r.outcome != Undefined && ReadStep(r, chunk).outcome == Undefined
    ensures NamesBadChannel(d + chunk)
  {
    var s, b := ParseStream(d), r.readBuf + chunk;
    PassGoesOn(d, chunk);
    PassGoesOn(r.readBuf, chunk);
    TurnsUndefined(r, d, chunk, s, ParseStream(r.readBuf).outcome,
                   ParseStream(d[s.used..] + chunk), ParseStream(b), ParseStream(d + chunk));
  }

  lemma UndefinedStep(r: Receiver, d: string, chunk: string)
    requires Reads(r, d)
    ensures ReadStep(r, chunk).outcome == Undefined <==> r.outcome == Undefined || NamesBadChannel(d + chunk)
  {
    ReadStepReads(r, d, chunk);
    if r.outcome != Undefined && ReadStep(r, chunk).outcome == Undefined {
      TurnsUndefinedAt(r, d, chunk);
    }
  }

  /** At the end of some read the bytes so far are free of errors and name such a channel. */
  ghost predicate MeetsBadChannel(chunks: seq<string>) {
    chunks != [] && (NamesBadChannel(Joined(chunks)) || MeetsBadChannel(chunks[..|chunks| - 1]))
  }

  /** Reading any stream is undefined behaviour exactly when it meets such a channel. */
  lemma {:induction false} UndefinedIff(chunks: seq<string>)
    ensures ReadAll(chunks).outcome == Undefined <==> MeetsBadChannel(chunks)
  {
    if chunks != [] {
      var before := chunks[..|chunks| - 1];
      UndefinedIff(before);
      EveryCutReads(before);
      UndefinedStep(ReadAll(before), Joined(before), chunks[|chunks| - 1]);
    }
  }

  /** The packets handed out are the packets queued, each channel in the same order. */
  ghost predicate Delivers(r: Receiver, c: nat) {
    && OnChannel(r.delivered, c) == OnChannel(r.parsed, c)
    && multiset(r.delivered) == multiset(r.parsed)
  }

  lemma AfterDelivers(r: Receiver, b: string, s: Stream, c: nat)
    requires Delivers(r, c)
    ensures Delivers(After(r, b, s), c)
  {
    if s.outcome == Fine && ChannelsOk(s.packets) {
      DeliveryKeepsOrder(s.packets, c);
      OnChannelConcat(r.parsed, s.packets, c);
      OnChannelConcat(r.delivered, Delivery(s.packets), c);
    }
  }

  lemma {:induction false} EveryCutDeliversBy(parse: string -> Stream, chunks: seq<string>, c: nat)
    ensures Delivers(ReadAllBy(parse, chunks), c)
  {
    if chunks != [] {
      EveryCutDeliversBy(parse, chunks[..|chunks| - 1], c);
      var r, chunk := ReadAllBy(parse, chunks[..|chunks| - 1]), chunks[|chunks| - 1];
      AfterDelivers(r, r.readBuf + chunk, parse(r.readBuf + chunk), c);
    }
  }

  /** Every packet queued is delivered, each channel in stream order. */
  lemma EveryCutDelivers(chunks: seq<string>, c: nat)
    ensures OnChannel(ReadAll(chunks).delivered, c) == OnChannel(ReadAll(chunks).parsed, c)
    ensures multiset(ReadAll(chunks).delivered) == multiset(ReadAll(chunks).parsed)
  {
    EveryCutDeliversBy(ParseStream, chunks, c);
  }

  /** Two ways of cutting one error-free stream cannot be told apart on any channel. */
  lemma CutsAreIndependent(a: seq<string>, b: seq<string>, c: nat)
    requires Joined(a) == Joined(b)
    requires ParseStream(Joined(a)).outcome == Fine && ChannelsOk(ParseStream(Joined(a)).packets)
    ensures ReadAll(a).outcome == ReadAll(b).outcome == Fine
    ensures ReadAll(a).readBuf == ReadAll(b).readBuf && ReadAll(a).parsed == ReadAll(b).parsed
    ensures OnChannel(ReadAll(a).delivered, c) == OnChannel(ReadAll(b).delivered, c)
  {
    EveryCutReads(a);
    EveryCutReads(b);
    EveryCutDelivers(a, c);
    EveryCutDelivers(b, c);
  }

  // ---------------------------------------------------------------- sending

  datatype Send = Send(body: string, channel: nat)

  function Count(sends: seq<Send>, c: nat): nat {
    if sends == [] then 0
    else Count(sends[..|sends| - 1], c) + if sends[|sends| - 1].channel == c then 1 else 0
  }

  /** The counter a send carries: the number of earlier sends on its channel, in 32 bits. */
  function IndexOf(sends: seq<Send>, k: nat): nat
    requires k < |sends|
  {
    Count(sends[..k], sends[k].channel) % U32
  }

  function Wire(sends: seq<Send>): string {
    if sends == [] then ""
    else
      var k := |sends| - 1;
      Wire(sends[..k]) + Build(sends[k].body, sends[k].channel, IndexOf(sends, k))
  }

  function Expected(sends: seq<Send>): seq<Packet> {
    if sends == [] then []
    else
      var k := |sends| - 1;
      Expected(sends[..k]) + [Packet(sends[k].body, |sends[k].body|, sends[k].channel, IndexOf(sends, k))]
  }

  ghost predicate SendsOk(sends: seq<Send>) {
    forall k :: 0 <= k < |sends| ==> sends[k].channel < MAX_CHANNEL
  }

  /** Every index and every length fits an int. */
  ghost predicate Readable(sends: seq<Send>) {
    forall k :: 0 <= k < |sends| ==> InLimits(sends[k].body, IndexOf(sends, k))
  }

  lemma ReadableSnoc(sends: seq<Send>)
    requires sends != []
    ensures var k := |sends| - 1;
      Readable(sends) <==> Readable(sends[..k]) && InLimits(sends[k].body, IndexOf(sends, k))
  {
    var k := |sends| - 1;
    assert forall j :: 0 <= j < k ==> sends[..k][..j] == sends[..j];
    assert forall j :: 0 <= j < k ==> IndexOf(sends[..k], j) == IndexOf(sends, j);
  }

  /** The whole wire is read back exactly when every index and length fits an int; otherwise
      reading it ends in an exception. */
  lemma {:induction false} WireParses(sends: seq<Send>)
    requires SendsOk(sends)
    ensures Readable(sends) ==> ParseStream(Wire(sends)) == Stream(Expected(sends), |Wire(sends)|, Fine)
    ensures !Readable(sends) ==> ParseStream(Wire(sends)).outcome == Exception
    ensures ChannelsOk(ParseStream(Wire(sends)).packets)
  {
    if sends != [] {
      var k := |sends| - 1;
      var before, last := Wire(sends[..k]), Build(sends[k].body, sends[k].channel, IndexOf(sends, k));
      WireParses(sends[..k]);
      ReadableSnoc(sends);
      StreamSplits(before, last);
      LastParses(sends[k], IndexOf(sends, k));
      if Readable(sends[..k]) {
        assert before[|before|..] + last == last;
      }
    }
  }

  lemma LastParses(s: Send, index: nat)
    requires s.channel < MAX_CHANNEL
    ensures var d := Build(s.body, s.channel, index);
      ParseStream(d) == if InLimits(s.body, index)
                        then Stream([Packet(s.body, |s.body|, s.channel, index)], |d|, Fine)
                        else Stream([], 0, Exception)
  {
    var d := Build(s.body, s.channel, index);
    BuildParses(s.body, s.channel, index, "");
    assert d + "" == d;
    if InLimits(s.body, index) {
      assert d[|d|..] == "";
      assert ParseStream("") == Stream([], 0, Fine);
    }
  }

  function Bodies(sends: seq<Send>, c: nat): seq<string> {
    if sends == [] then []
    else Bodies(sends[..|sends| - 1], c) + if sends[|sends| - 1].channel == c then [sends[|sends| - 1].body] else []
  }

  /** The packets of channel c are the bodies sent on it, numbered from zero in 32 bits. */
  ghost predicate Numbered(ps: seq<Packet>, bodies: seq<string>, c: nat) {
    |ps| == |bodies|
    && forall i :: 0 <= i < |ps| ==> ps[i] == Packet(bodies[i], |bodies[i]|, c, i % U32)
  }

  lemma NumberedSnoc(ps: seq<Packet>, bodies: seq<string>, c: nat, body: string)
    requires Numbered(ps, bodies, c)
    ensures Numbered(ps + [Packet(body, |body|, c, |ps| % U32)], bodies + [body], c)
  {}

  lemma {:induction false} ExpectedOnChannel(sends: seq<Send>, c: nat)
    ensures Numbered(OnChannel(Expected(sends), c), Bodies(sends, c), c) && |Bodies(sends, c)| == Count(sends, c)
  {
    if sends != [] {
      var k := |sends| - 1;
      ExpectedOnChannel(sends[..k], c);
      NumberedSnoc(OnChannel(Expected(sends[..k]), c), Bodies(sends[..k], c), c, sends[k].body);
    }
  }

  /** A session within the limits is read completely, whatever the cuts. */
  lemma ReadableIsRead(sends: seq<Send>, chunks: seq<string>)
    requires SendsOk(sends) && Joined(chunks) == Wire(sends) && Readable(sends)
    ensures ReadAll(chunks).outcome == Fine && ReadAll(chunks).readBuf == ""
    ensures ReadAll(chunks).parsed == Expected(sends)
  {
    WireParses(sends);
    var d := Wire(sends);
    EveryCutReads(chunks);
    assert d[|d|..] == "";
  }

  lemma FewSendsAreReadable(sends: seq<Send>)
    requires forall d :: Count(sends, d) <= INT_LIMIT
    requires forall k :: 0 <= k < |sends| ==> |sends[k].body| < INT_LIMIT
    ensures Readable(sends)
  {
    forall k | 0 <= k < |sends|
      ensures InLimits(sends[k].body, IndexOf(sends, k))
    {
      CountBefore(sends, k);
    }
  }

  /** The packets of channel c are the bodies sent on it, numbered 0, 1, 2, .... */
  ghost predicate InOrder(ps: seq<Packet>, bodies: seq<string>, c: nat) {
    |ps| == |bodies|
    && forall i :: 0 <= i < |ps| ==> ps[i] == Packet(bodies[i], |bodies[i]|, c, i)
  }

  lemma SmallIndexes(ps: seq<Packet>, bodies: seq<string>, c: nat)
    requires Numbered(ps, bodies, c) && |ps| <= INT_LIMIT
    ensures InOrder(ps, bodies, c)
  {}

  lemma ExpectedInOrder(sends: seq<Send>, c: nat)
    requires Count(sends, c) <= INT_LIMIT
    ensures InOrder(OnChannel(Expected(sends), c), Bodies(sends, c), c)
  {
    ExpectedOnChannel(sends, c);
    SmallIndexes(OnChannel(Expected(sends), c), Bodies(sends, c), c);
  }

  /** The session guarantee.  When every channel carries at most 2^31 sends and every body is
      shorter than 2^31 bytes, any way of cutting the wire delivers on each channel exactly the
      bodies sent on it, in order, with indexes 0, 1, 2, ..., and leaves no byte over. */
  lemma EverySessionInOrder(sends: seq<Send>, chunks: seq<string>, c: nat)
    requires SendsOk(sends) && Joined(chunks) == Wire(sends)
    requires forall d :: Count(sends, d) <= INT_LIMIT
    requires forall k :: 0 <= k < |sends| ==> |sends[k].body| < INT_LIMIT
    ensures ReadAll(chunks).outcome == Fine && ReadAll(chunks).readBuf == ""
    ensures InOrder(OnChannel(ReadAll(chunks).delivered, c), Bodies(sends, c), c)
  {
    FewSendsAreReadable(sends);
    ReadableIsRead(sends, chunks);
    EveryCutDelivers(chunks, c);
    ExpectedInOrder(sends, c);
  }

  lemma {:induction false} CountBefore(sends: seq<Send>, k: nat)
    requires k < |sends|
    ensures Count(sends[..k], sends[k].channel) < Count(sends, sends[k].channel)
  {
    var n := |sends| - 1;
    if k < n {
      CountBefore(sends[..n], k);
      assert sends[..n][..k] == sends[..k];
    }
  }

  /** A session beyond the limits is never read to its end, whatever the cuts: the read that
      completes the wire reports an exception. */
  lemma EverySessionBeyondLimitsThrows(sends: seq<Send>, chunks: seq<string>)
    requires SendsOk(sends) && Joined(chunks) == Wire(sends)
    ensures ReadAll(chunks).outcome == (if Readable(sends) then Fine else Exception)
  {
    WireParses(sends);
    EveryCutReads(chunks);
  }

  /** Between channels the order depends on the cuts: a send on a higher channel followed by one
      on a lower channel comes out reversed when one read takes both. */
  lemma OrderBetweenChannelsDependsOnCuts(high: Send, low: Send)
    requires low.channel < high.channel < MAX_CHANNEL
    requires |high.body| < INT_LIMIT && |low.body| < INT_LIMIT
    ensures var a, b := Build(high.body, high.channel, 0), Build(low.body, low.channel, 0);
      var p, q := Packet(high.body, |high.body|, high.channel, 0), Packet(low.body, |low.body|, low.channel, 0);
      && Wire([high, low]) == a + b
      && ReadAll([a, b]).delivered == [p, q]
      && ReadAll([a + b]).delivered == [q, p]
  {
    var a, b := Build(high.body, high.channel, 0), Build(low.body, low.channel, 0);
    var p, q := Packet(high.body, |high.body|, high.channel, 0), Packet(low.body, |low.body|, low.channel, 0);
    TwoOnWire(high, low);
    LastParses(high, 0);
    LastParses(low, 0);
    BothParse(a, b, p, q);
    SeparateReads(ParseStream, [a, b], a, b, p, q);
    JointRead(ParseStream, a + b, p, q);
  }

  lemma BothParse(a: string, b: string, p: Packet, q: Packet)
    requires ParseStream(a) == Stream([p], |a|, Fine) && ParseStream(b) == Stream([q], |b|, Fine)
    ensures ParseStream(a + b) == Stream([p, q], |a + b|, Fine)
  {
    StreamSplits(a, b);
    assert a[|a|..] + b == b;
  }

  lemma SeparateReads(parse: string -> Stream, chunks: seq<string>, a: string, b: string, p: Packet, q: Packet)
    requires p.channel < MAX_CHANNEL && q.channel < MAX_CHANNEL && chunks == [a] + [b]
    requires parse(a) == Stream([p], |a|, Fine) && parse(b) == Stream([q], |b|, Fine)
    ensures ReadAllBy(parse, chunks).delivered == [p] + [q]
  {
    DeliveryOne(p);
    DeliveryOne(q);
    TwoReads(parse, a, b, [p], [q]);
  }

  lemma TwoReads(parse: string -> Stream, a: string, b: string, ps: seq<Packet>, qs: seq<Packet>)
    requires ChannelsOk(ps) && ChannelsOk(qs) && Delivery(ps) == ps && Delivery(qs) == qs
    requires parse(a) == Stream(ps, |a|, Fine) && parse(b) == Stream(qs, |b|, Fine)
    ensures ReadAllBy(parse, [a] + [b]).delivered == ps + qs
  {
    FirstRead(parse, a, ps, ps);
    ReadMore(parse, [a], b);
    OneRead(parse, ReadAllBy(parse, [a]), b, qs, qs);
  }

  lemma ReadMore(parse: string -> Stream, chunks: seq<string>, chunk: string)
    ensures ReadAllBy(parse, chunks + [chunk]) == ReadBy(parse, ReadAllBy(parse, chunks), chunk)
  {
    assert (chunks + [chunk])[..|chunks|] == chunks;
  }

  lemma JointRead(parse: string -> Stream, d: string, p: Packet, q: Packet)
    requires q.channel < p.channel < MAX_CHANNEL
    requires parse(d) == Stream([p, q], |d|, Fine)
    ensures ReadAllBy(parse, [d]).delivered == [q, p]
  {
    DeliveryTwo(p, q);
    FirstRead(parse, d, [p, q], [q, p]);
  }

  lemma FirstRead(parse: string -> Stream, d: string, ps: seq<Packet>, out: seq<Packet>)
    requires ChannelsOk(ps) && parse(d) == Stream(ps, |d|, Fine) && Delivery(ps) == out
    ensures var r := ReadAllBy(parse, [d]); r.outcome == Fine && r.readBuf == "" && r.delivered == out
  {
    var r := ReadAllBy(parse, []);
    ReadMore(parse, [], d);
    OneRead(parse, r, d, ps, out);
    assert [] + [d] == [d];
    NothingBefore(r.delivered, out);
  }

  lemma NothingBefore(none: seq<Packet>, ps: seq<Packet>)
    requires |none| == 0
    ensures none + ps == ps
  {}

  lemma TwoOnWire(high: Send, low: Send)
    requires low.channel < high.channel
    ensures Wire([high, low]) == Build(high.body, high.channel, 0) + Build(low.body, low.channel, 0)
  {
    assert [high, low][..1] == [high] && [high][..0] == [];
    assert Count([], high.channel) == 0 && Count([high], low.channel) == 0;
    assert Wire([]) == "" && "" + Build(high.body, high.channel, 0) == Build(high.body, high.channel, 0);
  }

  /** A read that takes everything there is. */
  lemma OneRead(parse: string -> Stream, r: Receiver, chunk: string, ps: seq<Packet>, out: seq<Packet>)
    requires r.outcome == Fine && r.readBuf == "" && ChannelsOk(ps) && Delivery(ps) == out
    requires parse(chunk) == Stream(ps, |chunk|, Fine)
    ensures var r' := ReadBy(parse, r, chunk);
      r'.outcome == Fine && r'.readBuf == "" && r'.delivered == r.delivered + out
  {
    assert r.readBuf + chunk == chunk;
  }

  /** What comes out of queues of which only one or two hold a packet each. */
  lemma {:induction false} FlatOne(qs: seq<seq<Packet>>, p: Packet)
    requires forall c: nat :: c < |qs| ==> qs[c] == if p.channel == c then [p] else []
    ensures Flat(qs) == if p.channel < |qs| then [p] else []
  {
    if qs != [] {
      FlatOne(qs[..|qs| - 1], p);
    }
  }

  lemma {:induction false} FlatTwo(qs: seq<seq<Packet>>, p: Packet, q: Packet)
    requires q.channel < p.channel
    requires forall c: nat :: c < |qs| ==> qs[c] == if p.channel == c then [p] else if q.channel == c then [q] else []
    ensures Flat(qs) == if p.channel < |qs| then [q, p] else if q.channel < |qs| then [q] else []
  {
    if qs != [] {
      FlatTwo(qs[..|qs| - 1], p, q);
    }
  }

  lemma OneOnChannel(p: Packet, c: nat)
    ensures OnChannel([p], c) == if p.channel == c then [p] else []
  {
    assert OnChannel([p][..0], c) == [];
  }

  lemma DeliveryOne(p: Packet)
    requires p.channel < MAX_CHANNEL
    ensures Delivery([p]) == [p]
  {
    forall c: nat {
      OneOnChannel(p, c);
    }
    FlatOne(Queues([p]), p);
  }

  lemma DeliveryTwo(p: Packet, q: Packet)
    requires q.channel < p.channel < MAX_CHANNEL
    ensures Delivery([p, q]) == [q, p]
  {
    forall c: nat
      ensures OnChannel([p, q], c) == if p.channel == c then [p] else if q.channel == c then [q] else []
    {
      OneOnChannel(p, c);
      OneOnChannel(q, c);
      OnChannelConcat([p], [q], c);
      assert [p] + [q] == [p, q];
    }
    FlatTwo(Queues([p, q]), p, q);
  }
}
