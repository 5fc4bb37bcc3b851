/** The two-slot value mailbox: any number of writers and readers and one ticker exchange
    heap buffers through two atomic slots with compare-and-swap only.  Every atomic load or
    CAS is one step; a run is any interleaving.  An address may be handed out again after its
    buffer was destroyed, so a CAS compares addresses and never identities. */
module Mailbox {

  type Addr = nat
  const NULL: Addr := 0

  type Thread = nat

  /** A buffer: the value constructed in it, and the number of the write that published it
      (0 while it is private to its writer). */
  datatype Cell = Cell(value: int, version: nat)

  /** Where a thread inside SetValue or GetValue stands. */
  datatype Pc =
    | Idle
    | SetLoad(buf: Addr)
    | SetCas(buf: Addr, previous: Addr)
    | SetDestroy(previous: Addr)
    | GetCas(previous: Addr)
    | GetCopy(previous: Addr)
    | GetPutBack(previous: Addr)
    | GetDestroy(previous: Addr)

  /** Where the ticker stands. */
  datatype TickPc =
    | TickIdle
    | TickLoadLatest(prior: Addr)
    | TickTake(prior: Addr, newest: Addr)
    | TickInstall(prior: Addr, newest: Addr)
    | TickPutBack(newest: Addr)
    | TickDiscard(newest: Addr)
    | TickDelegate(prior: Addr, newest: Addr)
    | TickDestroy(prior: Addr)

  /** The shared slots, the heap of live buffers, every thread's position, and the history:
      values in publication order, versions handed to the delegate, buffers copied by readers.
      `faulty` records a double destruction or a copy from a dead buffer. */
  datatype State = State(
    latest: Addr,
    value: Addr,
    heap: map<Addr, Cell>,
    pcs: map<Thread, Pc>,
    tick: TickPc,
    faulty: bool,
    writes: seq<int>,
    delivered: seq<nat>,
    copies: seq<Cell>)

  const INIT: State := State(NULL, NULL, map[], map[], TickIdle, false, [], [], [])

  /** One step of the system.  `spurious` lets a weak CAS fail although the slot matches. */
  datatype Event =
    | BeginSet(t: Thread, buf: Addr, v: int)
    | BeginGet(t: Thread)
    | Advance(t: Thread, spurious: bool)
    | Tick(spurious: bool)

  function PcOf(s: State, t: Thread): Pc {
    if t in s.pcs then s.pcs[t] else Idle
  }

  function Goto(s: State, t: Thread, pc: Pc): State {
    s.(pcs := s.pcs[t := pc])
  }

  function VersionOf(s: State, a: Addr): nat {
    if a in s.heap then s.heap[a].version else 0
  }

  function Destroy(s: State, a: Addr): State {
    if a in s.heap then s.(heap := s.heap - {a})
    else s.(faulty := true)
  }

  /** The successful exchange on the latest slot numbers the write. */
  function Publish(s: State, a: Addr): State {
    if a in s.heap then
      s.(latest := a,
         heap := s.heap[a := Cell(s.heap[a].value, |s.writes| + 1)],
         writes := s.writes + [s.heap[a].value])
    else s.(faulty := true)
  }

  predicate Enabled(s: State, e: Event) {
    match e
    case BeginSet(t, buf, _) => PcOf(s, t) == Idle && buf != NULL && buf !in s.heap
    case BeginGet(t) => PcOf(s, t) == Idle
    case Advance(t, _) => PcOf(s, t) != Idle
    case Tick(_) => true
  }

  function ExecThread(s: State, t: Thread, spurious: bool): State {
    match PcOf(s, t)
    case Idle => s
    case SetLoad(buf) => Goto(s, t, SetCas(buf, s.latest))
    case SetCas(buf, previous) =>
      if s.latest == previous && !spurious then Goto(Publish(s, buf), t, SetDestroy(previous))
      else Goto(s, t, SetCas(buf, s.latest))
    case SetDestroy(previous) =>
      Goto(if previous != NULL then Destroy(s, previous) else s, t, Idle)
    case GetCas(previous) =>
      if s.value == previous && !spurious then Goto(s.(value := NULL), t, GetCopy(previous))
      else Goto(s, t, Idle)
    case GetCopy(previous) =>
      if previous in s.heap then Goto(s.(copies := s.copies + [s.heap[previous]]), t, GetPutBack(previous))
      else s.(faulty := true)
    case GetPutBack(previous) =>
      if s.value == NULL then Goto(s.(value := previous), t, Idle)
      else Goto(s, t, GetDestroy(previous))
    case GetDestroy(previous) => Goto(Destroy(s, previous), t, Idle)
  }

  function ExecTick(s: State, spurious: bool): State {
    match s.tick
    case TickIdle => s.(tick := TickLoadLatest(s.value))
    case TickLoadLatest(prior) =>
      if s.latest == NULL || s.latest == prior then s.(tick := TickIdle)
      else s.(tick := TickTake(prior, s.latest))
    case TickTake(prior, newest) =>
      if s.latest == newest && !spurious then s.(latest := NULL, tick := TickInstall(prior, newest))
      else s.(tick := TickIdle)
    case TickInstall(prior, newest) =>
      if s.value == prior && !spurious then
        s.(value := newest, tick := TickDelegate(prior, newest), delivered := s.delivered + [VersionOf(s, newest)])
      else s.(tick := TickPutBack(newest))
    case TickPutBack(newest) =>
      if s.latest == NULL then s.(latest := newest, tick := TickIdle)
      else s.(tick := TickDiscard(newest))
    case TickDiscard(newest) => Destroy(s, newest).(tick := TickIdle)
    case TickDelegate(prior, _) => s.(tick := if prior != NULL then TickDestroy(prior) else TickIdle)
    case TickDestroy(prior) => Destroy(s, prior).(tick := TickIdle)
  }

  function Exec(s: State, e: Event): State {
    match e
    case BeginSet(t, buf, v) =>
      Goto(s.(heap := s.heap[buf := Cell(v, 0)]), t, SetLoad(buf))
    case BeginGet(t) => Goto(s, t, if s.value == NULL then Idle else GetCas(s.value))
    case Advance(t, spurious) => ExecThread(s, t, spurious)
    case Tick(spurious) => ExecTick(s, spurious)
  }

  /** The state after a run from the empty mailbox. */
  function Run(es: seq<Event>): State {
    if es == [] then INIT else Exec(Run(es[..|es| - 1]), es[|es| - 1])
  }

  /** A run whose GetValue calls are all made by threads in `readers`. */
  predicate Legal(readers: set<Thread>, es: seq<Event>) {
    es == [] ||
    var prefix, e := es[..|es| - 1], es[|es| - 1];
    Legal(readers, prefix) && Enabled(Run(prefix), e) && (e.BeginGet? ==> e.t in readers)
  }

  // ---------------------------------------------------------------- ownership

  datatype Owner = LatestSlot | ValueSlot | Ticker | Caller(t: Thread)

  /** The buffer an owner answers for, or NULL. */
  function Holds(s: State, o: Owner): Addr {
    match o
    case LatestSlot => s.latest
    case ValueSlot => s.value
    case Ticker => TickHolds(s.tick)
    case Caller(t) => CallHolds(PcOf(s, t))
  }

  function TickHolds(pc: TickPc): Addr {
    match pc
    case TickInstall(_, newest) => newest
    case TickPutBack(newest) => newest
    case TickDiscard(newest) => newest
    case TickDelegate(prior, _) => prior
    case TickDestroy(prior) => prior
    case _ => NULL
  }

  function CallHolds(pc: Pc): Addr {
    match pc
    case SetLoad(buf) => buf
    case SetCas(buf, _) => buf
    case SetDestroy(previous) => previous
    case GetCopy(previous) => previous
    case GetPutBack(previous) => previous
    case GetDestroy(previous) => previous
    case _ => NULL
  }

  function Holdings(s: State): Owner -> Addr {
    o => Holds(s, o)
  }

  /** Live buffers and their owners are in bijection. */
  ghost predicate Bijective(holds: Owner -> Addr, live: set<Addr>) {
    && NULL !in live
    && (forall o :: holds(o) != NULL ==> holds(o) in live)
    && (forall o, p :: holds(o) == holds(p) != NULL ==> o == p)
    && (forall a :: a in live ==> HasOwner(holds, a))
  }

  ghost predicate HasOwner(holds: Owner -> Addr, a: Addr) {
    exists o :: holds(o) == a
  }

  ghost predicate OnlyChanged(holds: Owner -> Addr, holds': Owner -> Addr, o1: Owner, o2: Owner) {
    forall o :: o != o1 && o != o2 ==> holds'(o) == holds(o)
  }

  /** What one step does to the ownership map: a CAS swaps what two owners hold (a step that
      moves nothing swaps an owner with itself), SetValue creates, a destructor call ends. */
  datatype Effect = Swap(o1: Owner, o2: Owner) | Create(o: Owner, a: Addr) | End(o: Owner)

  ghost predicate Performs(h: Owner -> Addr, live: set<Addr>, h': Owner -> Addr, live': set<Addr>, f: Effect) {
    match f
    case Swap(o1, o2) =>
      OnlyChanged(h, h', o1, o2) && h'(o1) == h(o2) && h'(o2) == h(o1) && live' == live
    case Create(o, a) =>
      OnlyChanged(h, h', o, o) && h(o) == NULL && h'(o) == a != NULL && a !in live && live' == live + {a}
    case End(o) =>
      OnlyChanged(h, h', o, o) && h(o) != NULL && h'(o) == NULL && live' == live - {h(o)}
  }

  lemma EffectKeepsBijection(h: Owner -> Addr, live: set<Addr>, h': Owner -> Addr, live': set<Addr>, f: Effect)
    requires Bijective(h, live) && Performs(h, live, h', live', f)
    ensures Bijective(h', live')
  {
    forall a | a in live'
      ensures HasOwner(h', a)
    {
      if a in live {
        var o :| h(o) == a;
        assert h'(if f.Swap? && o == f.o1 then f.o2 else if f.Swap? && o == f.o2 then f.o1 else o) == a;
      } else {
        assert h'(f.o) == a;
      }
    }
  }

  /** The addresses the remaining code positions rely on being non-null. */
  ghost predicate Tidy(s: State) {
    && (s.tick.TickDestroy? ==> s.tick.prior != NULL)
    && (!s.tick.TickIdle? && !s.tick.TickLoadLatest? && !s.tick.TickDestroy? ==> s.tick.newest != NULL)
    && (forall t :: TidyAt(s, t))
  }

  predicate TidyAt(s: State, t: Thread) {
    match PcOf(s, t)
    case SetLoad(buf) => buf != NULL
    case SetCas(buf, _) => buf != NULL
    case GetCas(previous) => previous != NULL
    case GetCopy(previous) => previous != NULL
    case GetPutBack(previous) => previous != NULL
    case GetDestroy(previous) => previous != NULL
    case _ => true
  }

  /** Exactly one owner per live buffer, no buffer lost, none destroyed twice or read after death. */
  ghost predicate Owned(s: State) {
    !s.faulty && Bijective(Holdings(s), s.heap.Keys) && Tidy(s)
  }

  function Actor(e: Event): Owner {
    if e.Tick? then Ticker else Caller(e.t)
  }

  function EffectOf(s: State, e: Event): Effect {
    var me, s' := Actor(e), Exec(s, e);
    match e
    case BeginSet(_, buf, _) => Create(me, buf)
    case BeginGet(_) => Swap(me, me)
    case Advance(t, _) =>
      (match PcOf(s, t)
       case SetCas(_, _) => Swap(me, if PcOf(s', t).SetDestroy? then LatestSlot else me)
       case GetCas(_) => Swap(me, if PcOf(s', t).GetCopy? then ValueSlot else me)
       case GetPutBack(_) => Swap(me, if PcOf(s', t).Idle? then ValueSlot else me)
       case SetDestroy(previous) => if previous != NULL then End(me) else Swap(me, me)
       case GetDestroy(_) => End(me)
       case _ => Swap(me, me))
    case Tick(_) =>
      match s.tick
      case TickTake(_, _) => Swap(me, if s'.tick.TickInstall? then LatestSlot else me)
      case TickInstall(_, _) => Swap(me, if s'.tick.TickDelegate? then ValueSlot else me)
      case TickPutBack(_) => Swap(me, if s'.tick.TickIdle? then LatestSlot else me)
      case TickDiscard(_) => End(me)
      case TickDestroy(_) => End(me)
      case _ => Swap(me, me)
  }

  lemma TidyThread(s: State, e: Event)
    requires Tidy(s) && Enabled(s, e) && !e.Tick?
    ensures Tidy(Exec(s, e))
  {
    assert TidyAt(s, e.t);
    assert TidyAt(Exec(s, e), e.t);
    assert forall u :: u != e.t && TidyAt(s, u) ==> TidyAt(Exec(s, e), u);
  }

  lemma TidyTick(s: State, e: Event)
    requires Tidy(s) && e.Tick?
    ensures Tidy(Exec(s, e))
  {
    assert forall u :: TidyAt(s, u) ==> TidyAt(Exec(s, e), u);
  }

  /** The step of a healthy system does exactly its effect and destroys or copies nothing dead. */
  ghost predicate EffectSound(s: State, e: Event) {
    var s' := Exec(s, e);
    !s'.faulty && Performs(Holdings(s), s.heap.Keys, Holdings(s'), s'.heap.Keys, EffectOf(s, e))
  }

  ghost predicate ActorLive(s: State, e: Event) {
    !s.faulty && (Holds(s, Actor(e)) != NULL ==> Holds(s, Actor(e)) in s.heap)
  }

  lemma SetEffect(s: State, e: Event)
    requires ActorLive(s, e) && Enabled(s, e)
    requires e.BeginSet? || (e.Advance? && (PcOf(s, e.t).SetLoad? || PcOf(s, e.t).SetCas? || PcOf(s, e.t).SetDestroy?))
    requires !e.BeginSet? ==> TidyAt(s, e.t)
    ensures EffectSound(s, e)
  {}

  lemma GetEffect(s: State, e: Event)
    requires ActorLive(s, e) && Enabled(s, e)
    requires e.BeginGet? || (e.Advance? && !PcOf(s, e.t).SetLoad? && !PcOf(s, e.t).SetCas? && !PcOf(s, e.t).SetDestroy?)
    requires TidyAt(s, e.t)
    ensures EffectSound(s, e)
  {}

  predicate HandsOff(pc: TickPc) {
    pc.TickInstall? || pc.TickPutBack? || pc.TickDiscard?
  }

  predicate Looks(pc: TickPc) {
    pc.TickIdle? || pc.TickLoadLatest? || pc.TickDelegate?
  }

  lemma TickLooksEffect(s: State, e: Event)
    requires ActorLive(s, e) && e.Tick? && Looks(s.tick)
    ensures EffectSound(s, e)
  {}

  lemma TickTakesEffect(s: State, e: Event)
    requires ActorLive(s, e) && Tidy(s) && e.Tick? && (s.tick.TickTake? || s.tick.TickDestroy?)
    ensures EffectSound(s, e)
  {}

  lemma TickHandsOffEffect(s: State, e: Event)
    requires ActorLive(s, e) && Tidy(s) && e.Tick? && HandsOff(s.tick)
    ensures EffectSound(s, e)
  {}

  lemma OwnedStep(s: State, e: Event)
    requires Owned(s) && Enabled(s, e)
    ensures Owned(Exec(s, e))
  {
    assert Holdings(s)(Actor(e)) == Holds(s, Actor(e));
    if e.Tick? {
      if HandsOff(s.tick) {
        TickHandsOffEffect(s, e);
      } else if Looks(s.tick) {
        TickLooksEffect(s, e);
      } else {
        TickTakesEffect(s, e);
      }
      TidyTick(s, e);
    } else {
      assert TidyAt(s, e.t);
      TidyThread(s, e);
      if e.BeginSet? || (e.Advance? && (PcOf(s, e.t).SetLoad? || PcOf(s, e.t).SetCas? || PcOf(s, e.t).SetDestroy?)) {
        SetEffect(s, e);
      } else {
        GetEffect(s, e);
      }
    }
    EffectKeepsBijection(Holdings(s), s.heap.Keys, Holdings(Exec(s, e)), Exec(s, e).heap.Keys, EffectOf(s, e));
  }

  // ---------------------------------------------------------------- freshness

  /** The version last handed to the delegate, 0 before the first call. */
  function LastDelivered(s: State): nat {
    if s.delivered == [] then 0 else s.delivered[|s.delivered| - 1]
  }

  ghost predicate Increasing(versions: seq<nat>) {
    forall i, j :: 0 <= i < j < |versions| ==> versions[i] < versions[j]
  }

  /** A thread's private buffer is unnumbered; a buffer in a reader's hands was delivered. */
  ghost predicate CallerFresh(s: State, t: Thread) {
    match PcOf(s, t)
    case SetLoad(buf) => VersionOf(s, buf) == 0
    case SetCas(buf, _) => VersionOf(s, buf) == 0
    case GetCopy(previous) => VersionOf(s, previous) in s.delivered
    case GetPutBack(previous) => VersionOf(s, previous) in s.delivered
    case _ => true
  }

  /** What is on its way to the delegate is newer than anything delivered, the latest slot
      newer than the ticker's hands; what sits in the value slot was delivered. */
  ghost predicate SlotsFresh(s: State) {
    && LastDelivered(s) <= |s.writes|
    && (s.latest != NULL ==> LastDelivered(s) < VersionOf(s, s.latest) <= |s.writes|)
    && (s.value != NULL ==> VersionOf(s, s.value) in s.delivered)
    && (s.tick.TickInstall? || s.tick.TickPutBack? ==>
          && LastDelivered(s) < VersionOf(s, s.tick.newest) <= |s.writes|
          && (s.latest != NULL ==> VersionOf(s, s.tick.newest) < VersionOf(s, s.latest)))
  }

  /** A published buffer carries the value written under its number. */
  ghost predicate Genuine(s: State, c: Cell) {
    c.version <= |s.writes| && (c.version > 0 ==> c.value == s.writes[c.version - 1])
  }

  ghost predicate DeliveriesFresh(s: State) {
    Increasing(s.delivered) && forall i :: 0 <= i < |s.delivered| ==> 1 <= s.delivered[i] <= |s.writes|
  }

  ghost predicate CopiesFresh(s: State) {
    forall c :: c in s.copies ==> c.version in s.delivered && Genuine(s, c)
  }

  ghost predicate Fresh(s: State) {
    && DeliveriesFresh(s)
    && CopiesFresh(s)
    && (forall a :: a in s.heap ==> Genuine(s, s.heap[a]))
    && SlotsFresh(s)
    && (forall t :: CallerFresh(s, t))
  }

  /** The owners never hold the same buffer as `o`, which holds a live one. */
  ghost predicate Sole(s: State, o: Owner) {
    Holds(s, o) != NULL ==>
      && Holds(s, o) in s.heap
      && (o != LatestSlot ==> s.latest != Holds(s, o))
      && (o != ValueSlot ==> s.value != Holds(s, o))
      && (o != Ticker ==> TickHolds(s.tick) != Holds(s, o))
  }

  predicate Setting(s: State, e: Event) {
    e.BeginSet? || (e.Advance? && (PcOf(s, e.t).SetLoad? || PcOf(s, e.t).SetCas? || PcOf(s, e.t).SetDestroy?))
  }

  lemma SlotsFreshPublish(s: State, t: Thread, spurious: bool)
    requires PcOf(s, t).SetCas? && !s.faulty && SlotsFresh(s) && TidyAt(s, t)
    requires Sole(s, Caller(t)) && Sole(s, LatestSlot) && Sole(s, ValueSlot) && Sole(s, Ticker)
    ensures SlotsFresh(ExecThread(s, t, spurious))
  {}

  lemma SlotsFreshSet(s: State, e: Event)
    requires Enabled(s, e) && !e.Tick? && Setting(s, e) && !s.faulty && SlotsFresh(s) && TidyAt(s, e.t)
    requires Sole(s, Actor(e)) && Sole(s, LatestSlot) && Sole(s, ValueSlot) && Sole(s, Ticker)
    ensures SlotsFresh(Exec(s, e))
  {
    if e.Advance? && PcOf(s, e.t).SetCas? {
      SlotsFreshPublish(s, e.t, e.spurious);
    }
  }

  lemma SlotsFreshGet(s: State, e: Event)
    requires Enabled(s, e) && !e.Tick? && !Setting(s, e) && !s.faulty && SlotsFresh(s)
    requires CallerFresh(s, e.t) && TidyAt(s, e.t)
    requires Sole(s, Actor(e)) && Sole(s, LatestSlot) && Sole(s, ValueSlot) && Sole(s, Ticker)
    ensures SlotsFresh(Exec(s, e))
  {}

  lemma SlotsFreshTickTakes(s: State, e: Event)
    requires e.Tick? && !HandsOff(s.tick) && !s.faulty && SlotsFresh(s) && Tidy(s)
    requires Sole(s, LatestSlot) && Sole(s, ValueSlot) && Sole(s, Ticker)
    ensures SlotsFresh(Exec(s, e))
  {}

  lemma SlotsFreshTickHandsOff(s: State, e: Event)
    requires e.Tick? && HandsOff(s.tick) && !s.faulty && SlotsFresh(s) && Tidy(s)
    requires Sole(s, LatestSlot) && Sole(s, ValueSlot) && Sole(s, Ticker)
    ensures SlotsFresh(Exec(s, e))
  {}

  lemma CallerFreshOwnStep(s: State, e: Event)
    requires Enabled(s, e) && !e.Tick? && !s.faulty && SlotsFresh(s) && CallerFresh(s, e.t) && TidyAt(s, e.t)
    requires Sole(s, Actor(e))
    ensures CallerFresh(Exec(s, e), e.t)
  {}

  lemma CallerFreshTick(s: State, e: Event, t: Thread)
    requires e.Tick? && CallerFresh(s, t) && Sole(s, Caller(t)) && TidyAt(s, t)
    ensures CallerFresh(Exec(s, e), t)
  {}

  /** Another thread's step leaves the version of a buffer in this thread's hands. */
  lemma OtherKeepsVersion(s: State, e: Event, a: Addr)
    requires Enabled(s, e) && !e.Tick? && a in s.heap && a != Holds(s, Actor(e))
    requires TidyAt(s, e.t)
    ensures VersionOf(Exec(s, e), a) == VersionOf(s, a) && Exec(s, e).delivered == s.delivered
  {}

  lemma CallerFreshOtherStep(s: State, e: Event, t: Thread)
    requires Enabled(s, e) && !e.Tick? && e.t != t && CallerFresh(s, t) && Sole(s, Caller(t)) && TidyAt(s, t)
    requires Holds(s, Caller(t)) != NULL ==> Holds(s, Actor(e)) != Holds(s, Caller(t))
    requires TidyAt(s, e.t)
    ensures CallerFresh(Exec(s, e), t)
  {
    if Holds(s, Caller(t)) != NULL {
      OtherKeepsVersion(s, e, Holds(s, Caller(t)));
    }
  }

  lemma GenuineTick(s: State, e: Event)
    requires e.Tick?
    ensures Exec(s, e).writes == s.writes
    ensures forall a :: a in Exec(s, e).heap ==> a in s.heap && Exec(s, e).heap[a] == s.heap[a]
  {}

  lemma GenuineGet(s: State, e: Event)
    requires Enabled(s, e) && !e.Tick? && !Setting(s, e)
    ensures Exec(s, e).writes == s.writes
    ensures forall a :: a in Exec(s, e).heap ==> a in s.heap && Exec(s, e).heap[a] == s.heap[a]
  {}

  lemma GenuineSet(s: State, e: Event)
    requires Enabled(s, e) && !e.Tick? && Setting(s, e) && forall a :: a in s.heap ==> Genuine(s, s.heap[a])
    ensures forall a :: a in Exec(s, e).heap ==> Genuine(Exec(s, e), Exec(s, e).heap[a])
  {}

  /** Buffers keep their contents; only publication renumbers one, with the value it carries. */
  lemma GenuineStep(s: State, e: Event)
    requires Enabled(s, e) && (forall a :: a in s.heap ==> Genuine(s, s.heap[a]))
    ensures forall a :: a in Exec(s, e).heap ==> Genuine(Exec(s, e), Exec(s, e).heap[a])
  {
    if e.Tick? {
      GenuineTick(s, e);
    } else if Setting(s, e) {
      GenuineSet(s, e);
    } else {
      GenuineGet(s, e);
    }
  }

  /** What a step does to the three histories, which only grow. */
  ghost predicate HistoriesGrow(s: State, s': State, e: Event) {
    && s.writes <= s'.writes
    && (s'.delivered == s.delivered
        || (s.tick.TickInstall? && s'.delivered == s.delivered + [VersionOf(s, s.tick.newest)]))
    && (s'.copies == s.copies
        || (e.Advance? && PcOf(s, e.t).GetCopy? && PcOf(s, e.t).previous in s.heap
            && s'.copies == s.copies + [s.heap[PcOf(s, e.t).previous]]))
  }

  lemma HistoryOfTick(s: State, e: Event)
    requires e.Tick?
    ensures HistoriesGrow(s, Exec(s, e), e)
  {}

  lemma HistoryOfThread(s: State, e: Event)
    requires Enabled(s, e) && !e.Tick?
    ensures HistoriesGrow(s, Exec(s, e), e)
  {}

  lemma HistoryGrows(s: State, e: Event)
    requires Enabled(s, e)
    ensures HistoriesGrow(s, Exec(s, e), e)
  {
    if e.Tick? { HistoryOfTick(s, e); } else { HistoryOfThread(s, e); }
  }

  lemma DeliveriesStayFresh(s: State, s': State, e: Event)
    requires HistoriesGrow(s, s', e) && DeliveriesFresh(s) && SlotsFresh(s)
    ensures DeliveriesFresh(s')
  {}

  lemma CopiesStayFresh(s: State, s': State, e: Event)
    requires HistoriesGrow(s, s', e) && CopiesFresh(s) && (forall t :: CallerFresh(s, t))
    requires forall a :: a in s.heap ==> Genuine(s, s.heap[a])
    ensures CopiesFresh(s')
  {
    assert forall c :: Genuine(s, c) ==> Genuine(s', c);
    assert forall v :: v in s.delivered ==> v in s'.delivered;
    if s'.copies != s.copies {
      assert CallerFresh(s, e.t);
    }
  }

  lemma HistoryStep(s: State, e: Event)
    requires Enabled(s, e) && Fresh(s)
    ensures DeliveriesFresh(Exec(s, e)) && CopiesFresh(Exec(s, e))
  {
    HistoryGrows(s, e);
    DeliveriesStayFresh(s, Exec(s, e), e);
    CopiesStayFresh(s, Exec(s, e), e);
  }

  lemma FreshStep(s: State, e: Event)
    requires Owned(s) && Enabled(s, e) && Fresh(s)
    ensures Fresh(Exec(s, e))
  {
    var h := Holdings(s);
    assert forall o :: h(o) == Holds(s, o);
    forall o ensures Sole(s, o) {
      assert h(o) == Holds(s, o) && h(LatestSlot) == s.latest && h(ValueSlot) == s.value;
      assert h(Ticker) == TickHolds(s.tick);
    }
    if e.Tick? {
      if HandsOff(s.tick) { SlotsFreshTickHandsOff(s, e); } else { SlotsFreshTickTakes(s, e); }
    } else {
      assert TidyAt(s, e.t) && CallerFresh(s, e.t);
      if Setting(s, e) { SlotsFreshSet(s, e); } else { SlotsFreshGet(s, e); }
    }
    forall t ensures CallerFresh(Exec(s, e), t) {
      assert TidyAt(s, t) && CallerFresh(s, t);
      if e.Tick? {
        CallerFreshTick(s, e, t);
      } else if e.t == t {
        CallerFreshOwnStep(s, e);
      } else {
        assert h(Actor(e)) == h(Caller(t)) != NULL ==> Actor(e) == Caller(t);
        assert TidyAt(s, e.t);
        CallerFreshOtherStep(s, e, t);
      }
    }
    GenuineStep(s, e);
    OwnedStep(s, e);
    HistoryStep(s, e);
  }

  // ---------------------------------------------------------------- one reader

  /** Both arguments of a running delegate call are live, the new one still the buffer delivered. */
  ghost predicate DelegateLive(s: State) {
    s.tick.TickDelegate? ==>
      && s.tick.newest in s.heap && VersionOf(s, s.tick.newest) == LastDelivered(s)
      && (s.tick.prior != NULL ==> s.tick.prior in s.heap)
  }

  ghost predicate CopiesOrdered(copies: seq<Cell>) {
    forall i, j :: 0 <= i < j < |copies| ==> copies[i].version <= copies[j].version
  }

  function LastCopied(s: State): nat {
    if s.copies == [] then 0 else s.copies[|s.copies| - 1].version
  }

  predicate Getting(pc: Pc) {
    pc.GetCas? || pc.GetCopy? || pc.GetPutBack? || pc.GetDestroy?
  }

  predicate Outside(s: State, t: Thread) {
    !Getting(PcOf(s, t))
  }

  predicate Reading(pc: Pc) {
    pc.GetCopy? || pc.GetPutBack?
  }

  /** With `r` the only reader, the value slot and `r`'s hands never fall behind the delegate. */
  ghost predicate InStep(s: State, r: Thread) {
    var d, pc := LastDelivered(s), PcOf(s, r);
    && LastCopied(s) <= d
    && (s.value != NULL ==> VersionOf(s, s.value) == d)
    && (s.value == NULL ==> d == 0 || (Reading(pc) && VersionOf(s, pc.previous) == d))
    && (Reading(pc) ==> VersionOf(s, pc.previous) <= d)
    && (pc.GetCopy? ==> LastCopied(s) <= VersionOf(s, pc.previous))
    && (s.tick.TickDelegate? ==>
          && VersionOf(s, s.tick.newest) == d
          && (s.value == s.tick.newest || (s.value == NULL && Reading(pc) && pc.previous == s.tick.newest)))
  }

  ghost predicate OneReader(s: State, r: Thread) {
    && (forall t :: t != r ==> Outside(s, t))
    && CopiesOrdered(s.copies)
    && InStep(s, r)
  }

  lemma InStepSetOther(s: State, e: Event, r: Thread)
    requires Enabled(s, e) && !e.Tick? && Setting(s, e) && e.t != r && InStep(s, r) && Tidy(s) && !s.faulty
    requires Sole(s, Actor(e)) && Sole(s, ValueSlot) && Sole(s, Caller(r)) && TidyAt(s, e.t) && TidyAt(s, r)
    requires Holds(s, Caller(r)) != NULL ==> Holds(s, Actor(e)) != Holds(s, Caller(r))
    ensures InStep(Exec(s, e), r)
  {}

  lemma InStepSetOwn(s: State, e: Event, r: Thread)
    requires Enabled(s, e) && !e.Tick? && Setting(s, e) && e.t == r && InStep(s, r) && Tidy(s) && !s.faulty
    requires Sole(s, Actor(e)) && Sole(s, ValueSlot) && TidyAt(s, r)
    ensures InStep(Exec(s, e), r)
  {}

  lemma InStepGet(s: State, e: Event, r: Thread)
    requires Enabled(s, e) && !e.Tick? && !Setting(s, e) && e.t == r && InStep(s, r) && Tidy(s) && !s.faulty
    requires Sole(s, ValueSlot) && Sole(s, Caller(r)) && TidyAt(s, r)
    ensures InStep(Exec(s, e), r)
  {}

  lemma InStepTickTakes(s: State, e: Event, r: Thread)
    requires e.Tick? && !HandsOff(s.tick) && InStep(s, r) && Tidy(s) && !s.faulty
    requires Sole(s, Ticker) && Sole(s, ValueSlot) && Sole(s, Caller(r)) && TidyAt(s, r)
    ensures InStep(Exec(s, e), r)
  {}

  lemma InStepTickInstalls(s: State, e: Event, r: Thread)
    requires e.Tick? && s.tick.TickInstall? && InStep(s, r) && Tidy(s) && SlotsFresh(s)
    ensures InStep(Exec(s, e), r)
  {}

  lemma InStepTickHandsBack(s: State, e: Event, r: Thread)
    requires e.Tick? && (s.tick.TickPutBack? || s.tick.TickDiscard?) && InStep(s, r) && Tidy(s)
    requires Sole(s, Ticker) && Sole(s, ValueSlot) && Sole(s, Caller(r)) && TidyAt(s, r)
    ensures InStep(Exec(s, e), r)
  {}

  lemma SoleOwners(s: State, o: Owner)
    requires Owned(s)
    ensures Sole(s, o)
  {
    var h := Holdings(s);
    assert h(o) == Holds(s, o) && h(LatestSlot) == s.latest && h(ValueSlot) == s.value;
    assert h(Ticker) == TickHolds(s.tick);
  }

  lemma InStepStep(s: State, e: Event, r: Thread)
    requires Owned(s) && Fresh(s) && Enabled(s, e) && InStep(s, r)
    requires e.Tick? || Setting(s, e) || e.t == r
    ensures InStep(Exec(s, e), r)
  {
    var h := Holdings(s);
    assert h(Actor(e)) == Holds(s, Actor(e)) && h(Caller(r)) == Holds(s, Caller(r));
    SoleOwners(s, Actor(e));
    SoleOwners(s, Ticker);
    SoleOwners(s, ValueSlot);
    SoleOwners(s, Caller(r));
    assert TidyAt(s, r);
    if e.Tick? {
      if s.tick.TickInstall? {
        InStepTickInstalls(s, e, r);
      } else if HandsOff(s.tick) {
        InStepTickHandsBack(s, e, r);
      } else {
        InStepTickTakes(s, e, r);
      }
    } else {
      assert TidyAt(s, e.t);
      if !Setting(s, e) {
        InStepGet(s, e, r);
      } else if e.t == r {
        InStepSetOwn(s, e, r);
      } else {
        InStepSetOther(s, e, r);
      }
    }
  }

  lemma TickKeepsPcs(s: State, spurious: bool)
    ensures ExecTick(s, spurious).pcs == s.pcs
  {}

  lemma ThreadKeepsPcs(s: State, u: Thread, spurious: bool, t: Thread)
    requires u != t
    ensures PcOf(ExecThread(s, u, spurious), t) == PcOf(s, t)
  {}

  lemma PcStays(s: State, e: Event, t: Thread)
    requires e.Tick? || e.t != t
    ensures PcOf(Exec(s, e), t) == PcOf(s, t)
  {
    match e
    case Tick(spurious) => TickKeepsPcs(s, spurious);
    case Advance(u, spurious) => ThreadKeepsPcs(s, u, spurious, t);
    case _ =>
  }

  lemma OutsideOwnStep(s: State, t: Thread, spurious: bool)
    requires Outside(s, t)
    ensures Outside(ExecThread(s, t, spurious), t)
  {}

  lemma OutsideStep(s: State, e: Event, r: Thread, t: Thread)
    requires Enabled(s, e) && t != r && Outside(s, t) && (e.BeginGet? ==> e.t == r)
    ensures Outside(Exec(s, e), t)
  {
    if e.Tick? || e.t != t {
      PcStays(s, e, t);
    } else if e.Advance? {
      OutsideOwnStep(s, t, e.spurious);
    }
  }

  lemma CopiesOrderedStep(s: State, e: Event, r: Thread)
    requires Enabled(s, e) && !Exec(s, e).faulty && CopiesOrdered(s.copies) && InStep(s, r)
    requires e.Advance? && PcOf(s, e.t).GetCopy? ==> e.t == r
    ensures CopiesOrdered(Exec(s, e).copies)
  {
    HistoryGrows(s, e);
    AppendOrdered(s.copies, VersionCell(s, r));
  }

  function VersionCell(s: State, r: Thread): Cell {
    if Reading(PcOf(s, r)) && PcOf(s, r).previous in s.heap then s.heap[PcOf(s, r).previous] else Cell(0, 0)
  }

  lemma AppendOrdered(copies: seq<Cell>, c: Cell)
    requires CopiesOrdered(copies)
    ensures copies == [] || copies[|copies| - 1].version <= c.version ==> CopiesOrdered(copies + [c])
  {}

  lemma OneReaderStep(s: State, e: Event, r: Thread)
    requires Owned(s) && Fresh(s) && Enabled(s, e) && OneReader(s, r) && (e.BeginGet? ==> e.t == r)
    ensures OneReader(Exec(s, e), r)
  {
    forall t | t != r ensures Outside(Exec(s, e), t) {
      assert Outside(s, t);
      OutsideStep(s, e, r, t);
    }
    if !e.Tick? {
      assert e.t != r ==> Outside(s, e.t);
    }
    OwnedStep(s, e);
    CopiesOrderedStep(s, e, r);
    InStepStep(s, e, r);
  }

  lemma OneReaderDelegate(s: State, r: Thread)
    requires Owned(s) && InStep(s, r)
    ensures DelegateLive(s)
  {
    SoleOwners(s, Ticker);
    SoleOwners(s, ValueSlot);
    SoleOwners(s, Caller(r));
  }

  // ---------------------------------------------------------------- the newest write

  predicate OnItsWay(pc: TickPc) {
    pc.TickInstall? || pc.TickPutBack?
  }

  /** The newest write is in the latest slot, or in the ticker's hands and not to be discarded, or
      it is what the delegate was told of last. */
  ghost predicate NewestKept(s: State) {
    s.writes != [] ==>
      || (s.latest != NULL && VersionOf(s, s.latest) == |s.writes|)
      || (OnItsWay(s.tick) && VersionOf(s, s.tick.newest) == |s.writes|)
      || LastDelivered(s) == |s.writes|
  }

  lemma NewestSet(s: State, e: Event)
    requires Enabled(s, e) && !e.Tick? && Setting(s, e) && !s.faulty && NewestKept(s) && TidyAt(s, e.t)
    requires Sole(s, Actor(e)) && Sole(s, LatestSlot) && Sole(s, Ticker)
    ensures NewestKept(Exec(s, e))
  {}

  lemma NewestGet(s: State, e: Event)
    requires Enabled(s, e) && !e.Tick? && !Setting(s, e) && NewestKept(s) && Tidy(s)
    requires Sole(s, Actor(e)) && Sole(s, LatestSlot) && Sole(s, Ticker)
    ensures NewestKept(Exec(s, e))
  {}

  lemma NewestTick(s: State, e: Event)
    requires e.Tick? && SlotsFresh(s) && NewestKept(s) && Tidy(s)
    requires Sole(s, LatestSlot) && Sole(s, Ticker)
    ensures NewestKept(Exec(s, e))
  {}

  /** Putting a buffer back or discarding it never loses the newest write. */
  lemma NewestStep(s: State, e: Event)
    requires Owned(s) && Fresh(s) && Enabled(s, e) && NewestKept(s)
    ensures NewestKept(Exec(s, e))
  {
    SoleOwners(s, Actor(e));
    SoleOwners(s, LatestSlot);
    SoleOwners(s, Ticker);
    if e.Tick? {
      NewestTick(s, e);
    } else {
      assert TidyAt(s, e.t);
      if Setting(s, e) { NewestSet(s, e); } else { NewestGet(s, e); }
    }
  }

  // ---------------------------------------------------------------- every run

  /** Over every interleaving: one owner per live buffer, nothing lost, destroyed twice or read
      after death, and every version handed on is a genuine, ever newer write. */
  lemma {:induction false} EveryRunOwnedAndFresh(readers: set<Thread>, es: seq<Event>)
    requires Legal(readers, es)
    ensures Owned(Run(es)) && Fresh(Run(es))
  {
    if es == [] {
      assert Holdings(INIT)(LatestSlot) == NULL;
    } else {
      EveryRunOwnedAndFresh(readers, es[..|es| - 1]);
      OwnedStep(Run(es[..|es| - 1]), es[|es| - 1]);
      FreshStep(Run(es[..|es| - 1]), es[|es| - 1]);
    }
  }

  /** Over every interleaving the newest write survives until the delegate is told of it: once it is
      neither in the latest slot nor on its way in the ticker's hands, it was told. */
  lemma {:induction false} EveryRunKeepsNewest(readers: set<Thread>, es: seq<Event>)
    requires Legal(readers, es)
    ensures NewestKept(Run(es))
  {
    if es != [] {
      var prefix := es[..|es| - 1];
      EveryRunOwnedAndFresh(readers, prefix);
      EveryRunKeepsNewest(readers, prefix);
      NewestStep(Run(prefix), es[|es| - 1]);
    }
  }

  /** When nobody is inside a call, the only live buffers are the ones in the two slots. */
  lemma QuiescentHeapIsTheSlots(readers: set<Thread>, es: seq<Event>)
    requires Legal(readers, es)
    requires Run(es).tick == TickIdle && forall t :: PcOf(Run(es), t) == Idle
    ensures Run(es).heap.Keys == {Run(es).latest, Run(es).value} - {NULL}
  {
    EveryRunOwnedAndFresh(readers, es);
    var s := Run(es);
    var h := Holdings(s);
    assert h(LatestSlot) == s.latest && h(ValueSlot) == s.value;
    forall a | a in s.heap
      ensures a == s.latest || a == s.value
    {
      var o :| h(o) == a;
      assert h(o) == Holds(s, o);
    }
  }

  lemma {:induction false} EveryRunWithOneReader(readers: set<Thread>, r: Thread, es: seq<Event>)
    requires readers <= {r} && Legal(readers, es)
    ensures OneReader(Run(es), r)
  {
    if es != [] {
      var prefix := es[..|es| - 1];
      EveryRunOwnedAndFresh(readers, prefix);
      EveryRunWithOneReader(readers, r, prefix);
      OneReaderStep(Run(prefix), es[|es| - 1], r);
    }
  }

  // ---------------------------------------------------------------- two readers

  lemma Extend(readers: set<Thread>, es: seq<Event>, e: Event) returns (longer: seq<Event>)
    requires Legal(readers, es) && Enabled(Run(es), e) && (e.BeginGet? ==> e.t in readers)
    ensures Legal(readers, longer) && Run(longer) == Exec(Run(es), e)
  {
    longer := es + [e];
    assert longer[..|longer| - 1] == es;
  }

  /** One undisturbed SetValue into an empty latest slot, as four steps. */
  lemma WriteSteps(s: State, a: Thread, buf: Addr, v: int)
    requires buf != NULL && buf !in s.heap && s.latest == NULL && PcOf(s, a) == Idle
    ensures Enabled(s, BeginSet(a, buf, v))
    ensures var s1 := Exec(s, BeginSet(a, buf, v));
      var s2, s4 := ExecThread(s1, a, false), Written(s, a, buf, v);
      && PcOf(s1, a) != Idle && PcOf(s2, a) != Idle
      && PcOf(ExecThread(s2, a, false), a) != Idle && ExecThread(ExecThread(s2, a, false), a, false) == s4
  {
    var s1 := Exec(s, BeginSet(a, buf, v));
    var s2 := ExecThread(s1, a, false);
    assert s2 == s.(heap := s.heap[buf := Cell(v, 0)], pcs := s.pcs[a := SetCas(buf, NULL)]);
    assert s2.heap[buf := Cell(v, |s.writes| + 1)] == s.heap[buf := Cell(v, |s.writes| + 1)];
    assert s.pcs[a := SetCas(buf, NULL)][a := SetDestroy(NULL)][a := Idle] == s.pcs[a := Idle];
  }

  function Written(s: State, a: Thread, buf: Addr, v: int): State {
    s.(latest := buf, pcs := s.pcs[a := Idle], writes := s.writes + [v],
       heap := s.heap[buf := Cell(v, |s.writes| + 1)])
  }

  lemma Write(readers: set<Thread>, es: seq<Event>, a: Thread, buf: Addr, v: int) returns (longer: seq<Event>)
    requires Legal(readers, es) && buf != NULL && buf !in Run(es).heap
    requires Run(es).latest == NULL && PcOf(Run(es), a) == Idle
    ensures Legal(readers, longer) && Run(longer) == Written(Run(es), a, buf, v)
  {
    WriteSteps(Run(es), a, buf, v);
    longer := Extend(readers, es, BeginSet(a, buf, v));
    longer := Extend(readers, longer, Advance(a, false));
    longer := Extend(readers, longer, Advance(a, false));
    longer := Extend(readers, longer, Advance(a, false));
  }

  /** One undisturbed Tick up to its delegate call. */
  lemma TickToDelegate(readers: set<Thread>, es: seq<Event>) returns (longer: seq<Event>)
    requires Legal(readers, es)
    requires Run(es).latest != NULL && Run(es).value == NULL && Run(es).tick == TickIdle
    ensures Legal(readers, longer)
    ensures var s := Run(es);
      Run(longer) == s.(latest := NULL, value := s.latest, tick := TickDelegate(NULL, s.latest),
                        delivered := s.delivered + [VersionOf(s, s.latest)])
  {
    longer := Extend(readers, es, Tick(false));
    longer := Extend(readers, longer, Tick(false));
    longer := Extend(readers, longer, Tick(false));
    longer := Extend(readers, longer, Tick(false));
  }

  /** The state once `t` has taken the value slot's buffer and copied it. */
  function Taken(s: State, t: Thread): State
    requires s.value in s.heap
  {
    s.(value := NULL, pcs := s.pcs[t := GetPutBack(s.value)], copies := s.copies + [s.heap[s.value]])
  }

  lemma TakeSteps(s: State, t: Thread)
    requires PcOf(s, t) == Idle && s.value != NULL && s.value in s.heap
    ensures var s1 := Exec(s, BeginGet(t));
      && PcOf(s1, t) != Idle && PcOf(ExecThread(s1, t, false), t) != Idle
      && ExecThread(ExecThread(s1, t, false), t, false) == Taken(s, t)
  {
    var v := s.value;
    assert s.pcs[t := GetCas(v)][t := GetCopy(v)][t := GetPutBack(v)] == s.pcs[t := GetPutBack(v)];
  }

  lemma TakeAndCopy(readers: set<Thread>, es: seq<Event>, t: Thread) returns (longer: seq<Event>)
    requires Legal(readers, es) && t in readers && PcOf(Run(es), t) == Idle
    requires Run(es).value != NULL && Run(es).value in Run(es).heap
    ensures Legal(readers, longer) && Run(longer) == Taken(Run(es), t)
  {
    TakeSteps(Run(es), t);
    longer := Extend(readers, es, BeginGet(t));
    longer := Extend(readers, longer, Advance(t, false));
    longer := Extend(readers, longer, Advance(t, false));
  }

  /** Two readers can put an old buffer back over a new one: the new one dies while the delegate
      still holds it, and a later GetValue returns the older value. */
  lemma TwoReadersBreakBoth(readers: set<Thread>, a: Thread, b: Thread) returns (dead: seq<Event>, stale: seq<Event>)
    requires a in readers && b in readers && a != b
    ensures Legal(readers, dead) && !DelegateLive(Run(dead))
    ensures Legal(readers, stale) && !CopiesOrdered(Run(stale).copies)
  {
    dead := NewBufferDies(readers, a, b);
    stale := TakeAndCopy(readers, dead, b);
    assert Run(stale).copies == [Cell(10, 1), Cell(20, 2), Cell(10, 1)];
    assert Run(stale).copies[1].version == 2 && Run(stale).copies[2].version == 1;
  }

  /** b has taken the first write. */
  lemma OneHoldsABuffer(readers: set<Thread>, a: Thread, b: Thread) returns (es: seq<Event>)
    requires a in readers && b in readers && a != b
    ensures Legal(readers, es)
    ensures Run(es) == State(NULL, NULL, map[1 := Cell(10, 1)], map[a := Idle, b := GetPutBack(1)], TickIdle, false,
                             [10], [1], [Cell(10, 1)])
  {
    assert Run([]) == INIT;
    es := Write(readers, [], a, 1, 10);
    assert Run(es).pcs == map[a := Idle] && Run(es).heap == map[1 := Cell(10, 1)];
    es := TickToDelegate(readers, es);
    es := Extend(readers, es, Tick(false));
    es := TakeAndCopy(readers, es, b);
  }

  /** b still has the first write, and the delegate is being told of the second. */
  lemma SecondWriteDelivered(readers: set<Thread>, a: Thread, b: Thread) returns (es: seq<Event>)
    requires a in readers && b in readers && a != b
    ensures Legal(readers, es)
    ensures Run(es) == State(NULL, 2, map[1 := Cell(10, 1), 2 := Cell(20, 2)], map[a := Idle, b := GetPutBack(1)],
                             TickDelegate(NULL, 2), false, [10, 20], [1, 2], [Cell(10, 1)])
  {
    es := OneHoldsABuffer(readers, a, b);
    es := Write(readers, es, a, 2, 20);
    assert Run(es).heap == map[1 := Cell(10, 1), 2 := Cell(20, 2)];
    assert Run(es).pcs == map[a := Idle, b := GetPutBack(1)];
    es := TickToDelegate(readers, es);
  }

  lemma BothHoldABuffer(readers: set<Thread>, a: Thread, b: Thread) returns (es: seq<Event>)
    requires a in readers && b in readers && a != b
    ensures Legal(readers, es)
    ensures Run(es) == State(NULL, NULL, map[1 := Cell(10, 1), 2 := Cell(20, 2)],
                             map[a := GetPutBack(2), b := GetPutBack(1)], TickDelegate(NULL, 2), false,
                             [10, 20], [1, 2], [Cell(10, 1), Cell(20, 2)])
  {
    es := SecondWriteDelivered(readers, a, b);
    es := TakeAndCopy(readers, es, a);
    assert Run(es).pcs == map[a := GetPutBack(2), b := GetPutBack(1)];
  }

  /** b puts the first write back, and a, finding the slot taken, destroys the second. */
  lemma NewBufferDies(readers: set<Thread>, a: Thread, b: Thread) returns (es: seq<Event>)
    requires a in readers && b in readers && a != b
    ensures Legal(readers, es)
    ensures Run(es) == State(NULL, 1, map[1 := Cell(10, 1)], map[a := Idle, b := Idle], TickDelegate(NULL, 2), false,
                             [10, 20], [1, 2], [Cell(10, 1), Cell(20, 2)])
  {
    es := BothHoldABuffer(readers, a, b);
    var was := Run(es);
    es := PutBack(readers, es, a, b, 1, 2);
    assert was.pcs[a := Idle][b := Idle] == map[a := Idle, b := Idle];
    assert was.heap - {2} == map[1 := Cell(10, 1)];
  }

  lemma PutBack(readers: set<Thread>, es: seq<Event>, a: Thread, b: Thread, p: Addr, q: Addr)
    returns (longer: seq<Event>)
    requires Legal(readers, es) && a != b && Run(es).value == NULL && p != NULL && q in Run(es).heap
    requires PcOf(Run(es), b) == GetPutBack(p) && PcOf(Run(es), a) == GetPutBack(q)
    ensures Legal(readers, longer)
    ensures var s := Run(es);
      Run(longer) == s.(value := p, heap := s.heap - {q}, pcs := s.pcs[a := Idle][b := Idle])
  {
    PutBackSteps(Run(es), a, b, p, q);
    longer := Extend(readers, es, Advance(b, false));
    longer := Extend(readers, longer, Advance(a, false));
    longer := Extend(readers, longer, Advance(a, false));
  }

  /** b puts p back and a, finding the slot taken, destroys q. */
  lemma PutBackSteps(s: State, a: Thread, b: Thread, p: Addr, q: Addr)
    requires a != b && s.value == NULL && p != NULL && q in s.heap
    requires PcOf(s, b) == GetPutBack(p) && PcOf(s, a) == GetPutBack(q)
    ensures var s1 := ExecThread(s, b, false);
      var s2 := ExecThread(s1, a, false);
      && PcOf(s1, a) != Idle && PcOf(s2, a) != Idle
      && ExecThread(s2, a, false) == s.(value := p, heap := s.heap - {q}, pcs := s.pcs[a := Idle][b := Idle])
  {
    assert s.pcs[b := Idle][a := GetDestroy(q)][a := Idle] == s.pcs[a := Idle][b := Idle];
  }

  /** The delegate's arguments stay live, and GetValue never goes back in time, in every run
      exactly when no two threads read. */
  lemma SafeReadingIffOneReader(readers: set<Thread>)
    ensures (forall es :: Legal(readers, es) ==> DelegateLive(Run(es))) <==> |readers| <= 1
    ensures (forall es :: Legal(readers, es) ==> CopiesOrdered(Run(es).copies)) <==> |readers| <= 1
  {
    if |readers| <= 1 {
      var r := if readers == {} then 0 else AnyOf(readers);
      assert readers - {r} == {} by {
        assert r in readers ==> |readers - {r}| == |readers| - 1;
      }
      forall es | Legal(readers, es)
        ensures DelegateLive(Run(es)) && CopiesOrdered(Run(es).copies)
      {
        EveryRunOwnedAndFresh(readers, es);
        EveryRunWithOneReader(readers, r, es);
        OneReaderDelegate(Run(es), r);
      }
    } else {
      var a := AnyOf(readers);
      assert |readers - {a}| == |readers| - 1;
      var b := AnyOf(readers - {a});
      var dead, stale := TwoReadersBreakBoth(readers, a, b);
    }
  }

  ghost function AnyOf(readers: set<Thread>): (r: Thread)
    requires readers != {}
    ensures r in readers
  {
    var r :| r in readers; r
  }
}
