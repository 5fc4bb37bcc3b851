/** The mapped buffer with writers at work while a tick runs.  A write stores its bytes one by one
    and then queues its range; the tick drains the queue, merges what it took and flushes it byte
    by byte; the system may write back any byte at any moment.  Each of these is one step. */
module FlushRuns {
  import opened Bytes
  import opened Intervals
  import opened FileBacked

  type Thread = nat

  datatype Tick = Idle | Draining(cache: seq<Range>) | Flushing(pending: seq<Range>)

  /** The memory, the file, the ranges being written, the queue, and where the tick is. */
  datatype State = State(
    memory: seq<Octet>,
    file: seq<Octet>,
    writing: map<Thread, Range>,
    queue: seq<Range>,
    tick: Tick)

  datatype Event =
    | BeginWrite(t: Thread, r: Range)
    | Store(t: Thread, p: nat, v: Octet)
    | Enqueue(t: Thread)
    | WriteBack(p: nat)
    | BeginTick
    | Dequeue(i: nat)
    | EndDrain
    | FlushByte

  /** The queue hands out any element, and a drain may end with elements left. */
  predicate Enabled(s: State, e: Event) {
    match e
    case BeginWrite(t, r) => t !in s.writing && r.first <= r.last <= |s.memory|
    case Store(t, p, v) => t in s.writing && InBytes(s.writing[t], p) && p < |s.memory|
    case Enqueue(t) => t in s.writing
    case WriteBack(p) => p < |s.memory| == |s.file|
    case BeginTick => s.tick.Idle?
    case Dequeue(i) => s.tick.Draining? && i < |s.queue|
    case EndDrain => s.tick.Draining?
    case FlushByte =>
      s.tick.Flushing? &&
      (s.tick.pending != [] && s.tick.pending[0].first < s.tick.pending[0].last ==>
         s.tick.pending[0].first < |s.memory| == |s.file|)
  }

  function Exec(s: State, e: Event): State
    requires Enabled(s, e)
  {
    match e
    case BeginWrite(t, r) => s.(writing := s.writing[t := r])
    case Store(t, p, v) => s.(memory := s.memory[p := v])
    case Enqueue(t) => s.(queue := s.queue + [s.writing[t]], writing := s.writing - {t})
    case WriteBack(p) => s.(file := s.file[p := s.memory[p]])
    case BeginTick => s.(tick := Draining([]))
    case Dequeue(i) =>
      s.(queue := s.queue[..i] + s.queue[i + 1..], tick := Draining(s.tick.cache + [s.queue[i]]))
    case EndDrain => s.(tick := if s.tick.cache == [] then Idle else Flushing(InsertAll(s.tick.cache)))
    case FlushByte =>
      var pending := s.tick.pending;
      if pending == [] then s.(tick := Idle)
      else if pending[0].first >= pending[0].last then s.(tick := Flushing(pending[1..]))
      else
        var p := pending[0].first;
        s.(file := s.file[p := s.memory[p]], tick := Flushing(pending[0 := Range(p + 1, pending[0].last)]))
  }

  /** What the tick has taken from the queue and not flushed yet. */
  function Taken(tick: Tick): seq<Range> {
    match tick
    case Idle => []
    case Draining(cache) => cache
    case Flushing(pending) => pending
  }

  ghost predicate BeingWritten(s: State, p: nat) {
    exists t :: t in s.writing && InBytes(s.writing[t], p)
  }

  ghost predicate Accounted(s: State, p: nat) {
    BeingWritten(s, p) || Dirty(s.queue, p) || Dirty(Taken(s.tick), p)
  }

  ghost predicate Inside(rs: seq<Range>, n: nat) {
    Proper(rs) && forall i :: 0 <= i < |rs| ==> rs[i].last <= n
  }

  /** Memory and file agree on every byte that no write, queued range or range taken accounts for. */
  ghost predicate Inv(s: State) {
    && |s.memory| == |s.file|
    && (forall t :: t in s.writing ==> s.writing[t].first <= s.writing[t].last <= |s.memory|)
    && Inside(s.queue, |s.memory|) && Inside(Taken(s.tick), |s.memory|)
    && (forall p: nat :: p < |s.memory| && !Accounted(s, p) ==> s.memory[p] == s.file[p])
  }

  // ---------------------------------------------------------------- steps

  lemma BeginWriteKeeps(s: State, t: Thread, r: Range)
    requires Inv(s) && Enabled(s, BeginWrite(t, r))
    ensures Inv(Exec(s, BeginWrite(t, r)))
  {
    var s' := Exec(s, BeginWrite(t, r));
    forall p: nat | BeingWritten(s, p)
      ensures BeingWritten(s', p)
    {
      var u :| u in s.writing && InBytes(s.writing[u], p);
      assert u in s'.writing && InBytes(s'.writing[u], p);
    }
  }

  lemma StoreKeeps(s: State, t: Thread, p: nat, v: Octet)
    requires Inv(s) && Enabled(s, Store(t, p, v))
    ensures Inv(Exec(s, Store(t, p, v)))
  {
    assert BeingWritten(s, p);
    assert forall q :: Accounted(s, q) ==> Accounted(Exec(s, Store(t, p, v)), q);
  }

  lemma EnqueueKeeps(s: State, t: Thread)
    requires Inv(s) && Enabled(s, Enqueue(t))
    ensures Inv(Exec(s, Enqueue(t)))
  {
    var s' := Exec(s, Enqueue(t));
    forall p: nat | Accounted(s, p)
      ensures Accounted(s', p)
    {
      DirtySnoc(s.queue, s.writing[t], p);
      if BeingWritten(s, p) {
        var u :| u in s.writing && InBytes(s.writing[u], p);
        assert u != t ==> u in s'.writing && InBytes(s'.writing[u], p);
      }
    }
  }

  lemma DequeueKeeps(s: State, i: nat)
    requires Inv(s) && Enabled(s, Dequeue(i))
    ensures Inv(Exec(s, Dequeue(i)))
  {
    var s' := Exec(s, Dequeue(i));
    forall p: nat | Accounted(s, p)
      ensures Accounted(s', p)
    {
      DirtySnoc(s.tick.cache, s.queue[i], p);
      DirtyWithout(s.queue, i, p);
      assert BeingWritten(s, p) ==> BeingWritten(s', p);
    }
  }

  lemma DirtyWithout(rs: seq<Range>, i: nat, p: nat)
    requires i < |rs|
    ensures Dirty(rs, p) ==> Dirty(rs[..i] + rs[i + 1..], p) || InBytes(rs[i], p)
  {
    if j :| 0 <= j < |rs| && j != i && InBytes(rs[j], p) {
      var k := if j < i then j else j - 1;
      assert (rs[..i] + rs[i + 1..])[k] == rs[j];
    }
  }

  lemma EndDrainKeeps(s: State)
    requires Inv(s) && Enabled(s, EndDrain)
    ensures Inv(Exec(s, EndDrain))
  {
    var s', cache := Exec(s, EndDrain), s.tick.cache;
    if cache != [] {
      FlushedInside(cache, |s.memory|);
    }
    forall p: nat | Accounted(s, p)
      ensures Accounted(s', p)
    {
      EachDirtyByteOnce(cache, p);
      assert BeingWritten(s, p) ==> BeingWritten(s', p);
    }
  }

  lemma FlushByteKeeps(s: State)
    requires Inv(s) && Enabled(s, FlushByte)
    ensures Inv(Exec(s, FlushByte))
  {
    var s', pending := Exec(s, FlushByte), s.tick.pending;
    forall p: nat | p < |s.memory| && Accounted(s, p)
      ensures Accounted(s', p) || s'.memory[p] == s'.file[p]
    {
      if pending != [] && Dirty(pending, p) {
        FirstFlushed(pending, p);
      }
      assert BeingWritten(s, p) ==> BeingWritten(s', p);
    }
  }

  lemma FirstFlushed(pending: seq<Range>, p: nat)
    requires pending != [] && Dirty(pending, p)
    ensures var r := pending[0];
      if r.first >= r.last then Dirty(pending[1..], p)
      else p == r.first || Dirty(pending[0 := Range(r.first + 1, r.last)], p)
  {
    var r := pending[0];
    var j :| 0 <= j < |pending| && InBytes(pending[j], p);
    if r.first >= r.last {
      assert pending[1..][j - 1] == pending[j];
    } else if p != r.first {
      assert InBytes(pending[0 := Range(r.first + 1, r.last)][j], p);
    }
  }

  lemma StepKeeps(s: State, e: Event)
    requires Inv(s) && Enabled(s, e)
    ensures Inv(Exec(s, e))
  {
    match e
    case BeginWrite(t, r) => BeginWriteKeeps(s, t, r);
    case Store(t, p, v) => StoreKeeps(s, t, p, v);
    case Enqueue(t) => EnqueueKeeps(s, t);
    case Dequeue(i) => DequeueKeeps(s, i);
    case EndDrain => EndDrainKeeps(s);
    case FlushByte => FlushByteKeeps(s);
    case WriteBack(p) =>
      assert forall q :: Accounted(s, q) <==> Accounted(Exec(s, e), q);
    case BeginTick =>
      assert forall q :: Accounted(s, q) <==> Accounted(Exec(s, e), q);
  }

  // ---------------------------------------------------------------- runs

  function Mapped(file: seq<Octet>): State {
    State(file, file, map[], [], Idle)
  }

  ghost predicate IsRun(states: seq<State>, es: seq<Event>, file: seq<Octet>) {
    && |states| == |es| + 1 && states[0] == Mapped(file)
    && forall i :: 0 <= i < |es| ==> Steps(states[i], es[i], states[i + 1])
  }

  ghost predicate Steps(s: State, e: Event, s': State) {
    Enabled(s, e) && s' == Exec(s, e)
  }

  /** No dirty byte is ever forgotten, whatever the interleaving of writers, tick and system. */
  lemma {:induction false} EveryRunAccounts(states: seq<State>, es: seq<Event>, file: seq<Octet>, i: nat)
    requires IsRun(states, es, file) && i <= |es|
    ensures Inv(states[i])
  {
    if i > 0 {
      EveryRunAccounts(states, es, file, i - 1);
      assert Steps(states[i - 1], es[i - 1], states[i]);
      StepKeeps(states[i - 1], es[i - 1]);
    }
  }

  /** Whenever no write is under way and nothing is queued or being flushed, memory and file agree
      everywhere. */
  lemma QuietMeansEqual(states: seq<State>, es: seq<Event>, file: seq<Octet>, i: nat)
    requires IsRun(states, es, file) && i <= |es|
    requires states[i].writing == map[] && states[i].queue == [] && states[i].tick.Idle?
    ensures states[i].memory == states[i].file
  {
    EveryRunAccounts(states, es, file, i);
    QuietIsEqual(states[i]);
  }

  // ---------------------------------------------------------------- a tick comes to its end

  predicate ByTick(e: Event) {
    e.BeginTick? || e.Dequeue? || e.EndDrain? || e.FlushByte?
  }

  /** Steps of the tick alone lead from s to r. */
  ghost predicate TickLeads(s: State, r: State, steps: nat)
    decreases steps
  {
    if steps == 0 then s == r else exists e :: ByTick(e) && Enabled(s, e) && TickLeads(Exec(s, e), r, steps - 1)
  }

  lemma TickStep(s: State, e: Event, r: State, steps: nat)
    requires ByTick(e) && Enabled(s, e) && TickLeads(Exec(s, e), r, steps)
    ensures TickLeads(s, r, steps + 1)
  {}

  /** How many steps it takes to flush the ranges. */
  function FlushWork(rs: seq<Range>): nat {
    if rs == [] then 1 else 1 + (if rs[0].first < rs[0].last then rs[0].last - rs[0].first else 0) + FlushWork(rs[1..])
  }

  /** The tick is over and has changed nothing but the file and the queue. */
  ghost predicate TickOver(s: State, r: State) {
    Inv(r) && r.tick.Idle? && r.memory == s.memory && r.writing == s.writing
  }

  lemma FlushWorkDrops(s: State)
    requires Inv(s) && s.tick.Flushing? && s.tick.pending != []
    ensures Enabled(s, FlushByte) && Exec(s, FlushByte).tick.Flushing?
    ensures FlushWork(Exec(s, FlushByte).tick.pending) < FlushWork(s.tick.pending)
  {
    var rs := s.tick.pending;
    if rs[0].first < rs[0].last {
      assert rs[0 := Range(rs[0].first + 1, rs[0].last)][1..] == rs[1..];
    }
  }

  /** The step the tick takes next. */
  function NextStep(s: State): Event {
    match s.tick
    case Idle => BeginTick
    case Draining(_) => if s.queue == [] then EndDrain else Dequeue(0)
    case Flushing(_) => FlushByte
  }

  /** How far the tick is from the end of the round it is in. */
  function Phase(s: State): nat {
    match s.tick
    case Idle => if s.queue == [] then 0 else 2
    case Draining(_) => if s.queue == [] then 3 else 1
    case Flushing(_) => if s.queue == [] then 2 else 3
  }

  function WorkLeft(tick: Tick): nat {
    match tick
    case Flushing(pending) => FlushWork(pending)
    case _ => 0
  }

  lemma TickProceeds(s: State)
    requires Inv(s) && (!s.tick.Idle? || s.queue != [])
    ensures var e := NextStep(s);
      && ByTick(e) && Enabled(s, e) && Inv(Exec(s, e))
      && Exec(s, e).memory == s.memory && Exec(s, e).writing == s.writing
      && var n := Exec(s, e);
      && |n.queue| <= |s.queue|
      && (|n.queue| < |s.queue| || Phase(n) < Phase(s) || (Phase(n) == Phase(s) && WorkLeft(n.tick) < WorkLeft(s.tick)))
  {
    if s.tick.Flushing? && s.tick.pending != [] {
      FlushWorkDrops(s);
    }
    StepKeeps(s, NextStep(s));
  }

  /** From any state the steps keep, the tick comes to rest with nothing queued. */
  lemma {:induction false} TicksEnd(s: State) returns (r: State, steps: nat)
    requires Inv(s)
    ensures TickLeads(s, r, steps) && TickOver(s, r) && r.queue == []
    decreases |s.queue|, Phase(s), WorkLeft(s.tick)
  {
    if s.tick.Idle? && s.queue == [] {
      r, steps := s, 0;
    } else {
      TickProceeds(s);
      var n;
      r, n := TicksEnd(Exec(s, NextStep(s)));
      TickStep(s, NextStep(s), r, n);
      steps := n + 1;
    }
  }

  lemma QuietIsEqual(s: State)
    requires Inv(s) && s.writing == map[] && s.queue == [] && s.tick.Idle?
    ensures s.memory == s.file
  {
    assert forall p :: !Accounted(s, p);
  }

  /** At every moment of every run, steps of the tick alone suffice to leave nothing queued or taken;
      when no write is under way, memory and file are then equal, and memory is what it was. */
  lemma TickCatchesUp(states: seq<State>, es: seq<Event>, file: seq<Octet>, i: nat) returns (r: State, steps: nat)
    requires IsRun(states, es, file) && i <= |es|
    ensures TickLeads(states[i], r, steps) && r.tick.Idle? && r.queue == []
    ensures r.memory == states[i].memory && r.writing == states[i].writing
    ensures r.writing == map[] ==> r.file == r.memory
  {
    EveryRunAccounts(states, es, file, i);
    r, steps := TicksEnd(states[i]);
    if r.writing == map[] {
      QuietIsEqual(r);
    }
  }
}
