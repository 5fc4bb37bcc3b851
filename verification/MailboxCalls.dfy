/** What the calls of the mailbox do when nothing disturbs them: every call of SetValue, GetValue
    and Tick, whatever others have done before, ends and has exactly the stated effect. */
module MailboxCalls {
  import opened Mailbox

  // ---------------------------------------------------------------- a thread alone

  /** n steps of thread t with nobody else at work and no exchange failing spuriously. */
  function Alone(s: State, t: Thread, n: nat): State
    decreases n
  {
    if n == 0 then s else Alone(ExecThread(s, t, false), t, n - 1)
  }

  /** After n steps, and not before, the call of thread t has returned. */
  predicate Returns(s: State, t: Thread, n: nat)
    decreases n
  {
    if n == 0 then PcOf(s, t) == Idle
    else PcOf(s, t) != Idle && Returns(ExecThread(s, t, false), t, n - 1)
  }

  /** The call of thread t returns, in state r. */
  ghost predicate Ends(s: State, t: Thread, r: State) {
    exists n: nat :: Returns(s, t, n) && Alone(s, t, n) == r
  }

  lemma EndsHere(s: State, t: Thread)
    requires PcOf(s, t) == Idle
    ensures Ends(s, t, s)
  {
    assert Returns(s, t, 0) && Alone(s, t, 0) == s;
  }

  lemma EndsLater(s: State, t: Thread, r: State)
    requires PcOf(s, t) != Idle && Ends(ExecThread(s, t, false), t, r)
    ensures Ends(s, t, r)
  {
    var n: nat :| Returns(ExecThread(s, t, false), t, n) && Alone(ExecThread(s, t, false), t, n) == r;
    assert Returns(s, t, n + 1) && Alone(s, t, n + 1) == r;
  }

  /** The call returns with its next step. */
  lemma EndsNext(s: State, t: Thread, r: State)
    requires PcOf(s, t) != Idle && ExecThread(s, t, false) == r && PcOf(r, t) == Idle
    ensures Ends(s, t, r)
  {
    EndsHere(r, t);
    EndsLater(s, t, r);
  }

  function Back(s: State, t: Thread): State {
    Goto(s, t, Idle)
  }

  // ---------------------------------------------------------------- SetValue

  /** The value in buffer buf is published as the newest write; what was pending is gone. */
  function Replaced(s: State, t: Thread, buf: Addr): State
    requires buf in s.heap
  {
    s.(latest := buf,
       heap := (s.heap - {s.latest})[buf := Cell(s.heap[buf].value, |s.writes| + 1)],
       writes := s.writes + [s.heap[buf].value],
       pcs := s.pcs[t := Idle])
  }

  lemma NullIsDead(s: State)
    requires Owned(s)
    ensures NULL !in s.heap
  {}

  /** A thread's own buffer is live and in neither slot. */
  lemma OwnBuffer(s: State, t: Thread)
    requires Owned(s) && CallHolds(PcOf(s, t)) != NULL
    ensures CallHolds(PcOf(s, t)) in s.heap && CallHolds(PcOf(s, t)) != s.latest && CallHolds(PcOf(s, t)) != s.value
  {
    SoleOwners(s, Caller(t));
  }

  lemma DestroyEnds(s: State, t: Thread, p: Addr)
    requires PcOf(s, t) == SetDestroy(p) && (p != NULL ==> p in s.heap) && NULL !in s.heap
    ensures Ends(s, t, Back(s.(heap := s.heap - {p}), t))
  {
    assert p == NULL ==> s.heap - {p} == s.heap;
    EndsNext(s, t, Back(s.(heap := s.heap - {p}), t));
  }

  lemma ExchangeEnds(s: State, t: Thread, buf: Addr)
    requires PcOf(s, t) == SetCas(buf, s.latest) && buf in s.heap && buf != s.latest
    requires (s.latest != NULL ==> s.latest in s.heap) && NULL !in s.heap
    ensures Ends(s, t, Replaced(s, t, buf))
  {
    var s1 := ExecThread(s, t, false);
    assert s1.pcs[t := Idle] == s.pcs[t := Idle];
    assert s1.heap - {s.latest} == Replaced(s, t, buf).heap;
    DestroyEnds(s1, t, s.latest);
    EndsLater(s, t, Replaced(s, t, buf));
  }

  /** From wherever it stands before its exchange, and whatever the slot holds by now, SetValue
      publishes its value and returns. */
  lemma SetValueEnds(s: State, t: Thread)
    requires Owned(s) && (PcOf(s, t).SetLoad? || PcOf(s, t).SetCas?)
    ensures PcOf(s, t).buf in s.heap && Ends(s, t, Replaced(s, t, PcOf(s, t).buf))
  {
    var buf := PcOf(s, t).buf;
    assert TidyAt(s, t);
    OwnBuffer(s, t);
    NullIsDead(s);
    SoleOwners(s, LatestSlot);
    if PcOf(s, t) == SetCas(buf, s.latest) {
      ExchangeEnds(s, t, buf);
    } else {
      var s1 := ExecThread(s, t, false);
      assert s1 == Goto(s, t, SetCas(buf, s.latest));
      ExchangeEnds(s1, t, buf);
      assert Replaced(s1, t, buf) == Replaced(s, t, buf) by {
        assert s1.pcs[t := Idle] == s.pcs[t := Idle];
      }
      EndsLater(s, t, Replaced(s, t, buf));
    }
  }

  /** After its exchange SetValue destroys what it replaced and returns. */
  lemma SetValueDestroys(s: State, t: Thread)
    requires Owned(s) && PcOf(s, t).SetDestroy?
    ensures Ends(s, t, Back(s.(heap := s.heap - {PcOf(s, t).previous}), t))
  {
    NullIsDead(s);
    if PcOf(s, t).previous != NULL {
      OwnBuffer(s, t);
    }
    DestroyEnds(s, t, PcOf(s, t).previous);
  }

  /** A weak exchange that fails for no reason only costs SetValue another attempt. */
  lemma SetValueRetries(s: State, t: Thread)
    requires Owned(s) && PcOf(s, t).SetCas?
    ensures PcOf(s, t).buf in s.heap && Ends(ExecThread(s, t, true), t, Replaced(s, t, PcOf(s, t).buf))
  {
    var s1 := ExecThread(s, t, true);
    OwnedStep(s, Advance(t, true));
    SetValueEnds(s1, t);
    assert s1.pcs[t := Idle] == s.pcs[t := Idle];
  }

  /** An undisturbed SetValue(v): v is the newest write and waits in the latest slot; the buffer that
      waited there, if any, is destroyed; nothing else changes. */
  lemma SetValueAlone(s: State, t: Thread, buf: Addr, v: int)
    requires Owned(s) && Enabled(s, BeginSet(t, buf, v))
    ensures Ends(Exec(s, BeginSet(t, buf, v)), t,
                 s.(latest := buf, heap := (s.heap - {s.latest})[buf := Cell(v, |s.writes| + 1)],
                    writes := s.writes + [v], pcs := s.pcs[t := Idle]))
  {
    var s1 := Exec(s, BeginSet(t, buf, v));
    OwnedStep(s, BeginSet(t, buf, v));
    SetValueEnds(s1, t);
    SoleOwners(s, LatestSlot);
    HeapReplaced(s.heap, s.latest, buf, Cell(v, 0), Cell(v, |s.writes| + 1));
    assert s1.pcs[t := Idle] == s.pcs[t := Idle];
  }

  lemma HeapReplaced(heap: map<Addr, Cell>, was: Addr, buf: Addr, first: Cell, second: Cell)
    requires was != buf
    ensures (heap[buf := first] - {was})[buf := second] == (heap - {was})[buf := second]
  {}

  // ---------------------------------------------------------------- GetValue

  /** Thread t gives buffer p back: to the value slot when that is empty, and else it destroys p. */
  function GivenBack(s: State, t: Thread, p: Addr): State {
    Back(if s.value == NULL then s.(value := p) else s.(heap := s.heap - {p}), t)
  }

  lemma PutBackEnds(s: State, t: Thread)
    requires Owned(s) && PcOf(s, t).GetPutBack?
    ensures Ends(s, t, GivenBack(s, t, PcOf(s, t).previous))
  {
    var p := PcOf(s, t).previous;
    assert TidyAt(s, t);
    OwnBuffer(s, t);
    if s.value == NULL {
      EndsNext(s, t, GivenBack(s, t, p));
    } else {
      var s1 := ExecThread(s, t, false);
      assert s1.pcs[t := Idle] == s.pcs[t := Idle];
      EndsNext(s1, t, GivenBack(s, t, p));
      EndsLater(s, t, GivenBack(s, t, p));
    }
  }

  /** With its buffer in hand GetValue copies it and gives it back. */
  lemma CopyEnds(s: State, t: Thread)
    requires Owned(s) && PcOf(s, t).GetCopy?
    ensures var p := PcOf(s, t).previous;
      p in s.heap && Ends(s, t, GivenBack(s.(copies := s.copies + [s.heap[p]]), t, p))
  {
    var p := PcOf(s, t).previous;
    assert TidyAt(s, t);
    OwnBuffer(s, t);
    var s1 := ExecThread(s, t, false);
    OwnedStep(s, Advance(t, false));
    PutBackEnds(s1, t);
    assert s1.pcs[t := Idle] == s.pcs[t := Idle];
    assert GivenBack(s1, t, p) == GivenBack(s.(copies := s.copies + [s.heap[p]]), t, p);
    EndsLater(s, t, GivenBack(s1, t, p));
  }

  lemma GetDestroyEnds(s: State, t: Thread)
    requires Owned(s) && PcOf(s, t).GetDestroy?
    ensures Ends(s, t, Back(s.(heap := s.heap - {PcOf(s, t).previous}), t))
  {
    assert TidyAt(s, t);
    OwnBuffer(s, t);
    EndsNext(s, t, Back(s.(heap := s.heap - {PcOf(s, t).previous}), t));
  }

  /** Before its exchange: when the slot still holds the buffer that was seen, its contents are
      copied and it is back in the slot; otherwise GetValue gives up and changes nothing. */
  lemma GetValueEnds(s: State, t: Thread)
    requires Owned(s) && PcOf(s, t).GetCas?
    ensures var p := PcOf(s, t).previous;
      if s.value == p then p in s.heap && Ends(s, t, Back(s.(copies := s.copies + [s.heap[p]]), t))
      else Ends(s, t, Back(s, t))
  {
    var p := PcOf(s, t).previous;
    assert TidyAt(s, t);
    if s.value == p {
      SoleOwners(s, ValueSlot);
      var s1 := ExecThread(s, t, false);
      OwnedStep(s, Advance(t, false));
      CopyEnds(s1, t);
      var r := Back(s.(copies := s.copies + [s.heap[p]]), t);
      assert s1.pcs[t := Idle] == s.pcs[t := Idle];
      assert GivenBack(s1.(copies := s1.copies + [s1.heap[p]]), t, p) == r;
      EndsLater(s, t, r);
    } else {
      EndsNext(s, t, Back(s, t));
    }
  }

  /** A weak exchange that fails for no reason makes GetValue give up. */
  lemma GetValueGivesUp(s: State, t: Thread)
    requires PcOf(s, t).GetCas?
    ensures Ends(ExecThread(s, t, true), t, Back(s, t))
  {
    EndsHere(Back(s, t), t);
  }

  /** An undisturbed GetValue copies what the value slot holds and changes nothing else. */
  lemma GetValueAlone(s: State, t: Thread)
    requires Owned(s) && Enabled(s, BeginGet(t))
    ensures s.value != NULL ==> s.value in s.heap
    ensures Ends(Exec(s, BeginGet(t)), t,
                 Back(if s.value == NULL then s else s.(copies := s.copies + [s.heap[s.value]]), t))
  {
    var s1 := Exec(s, BeginGet(t));
    OwnedStep(s, BeginGet(t));
    SoleOwners(s, ValueSlot);
    if s.value == NULL {
      EndsHere(s1, t);
    } else {
      GetValueEnds(s1, t);
      assert s1.pcs[t := Idle] == s.pcs[t := Idle];
    }
  }

  // ---------------------------------------------------------------- Tick

  /** n steps of the ticker with nobody else at work and no exchange failing spuriously. */
  function TickAlone(s: State, n: nat): State
    decreases n
  {
    if n == 0 then s else TickAlone(ExecTick(s, false), n - 1)
  }

  /** After n steps, and not before, the tick is over. */
  predicate TickReturns(s: State, n: nat)
    decreases n
  {
    if n == 0 then s.tick == TickIdle else s.tick != TickIdle && TickReturns(ExecTick(s, false), n - 1)
  }

  /** The tick under way is over in state r. */
  ghost predicate TickEnds(s: State, r: State) {
    exists n: nat :: TickReturns(s, n) && TickAlone(s, n) == r
  }

  lemma TickEndsLater(s: State, r: State)
    requires s.tick != TickIdle && TickEnds(ExecTick(s, false), r)
    ensures TickEnds(s, r)
  {
    var n: nat :| TickReturns(ExecTick(s, false), n) && TickAlone(ExecTick(s, false), n) == r;
    assert TickReturns(s, n + 1) && TickAlone(s, n + 1) == r;
  }

  lemma TickEndsNext(s: State, r: State)
    requires s.tick != TickIdle && ExecTick(s, false) == r && r.tick == TickIdle
    ensures TickEnds(s, r)
  {
    assert TickReturns(r, 0) && TickAlone(r, 0) == r;
    TickEndsLater(s, r);
  }

  /** The delegate returns and the prior buffer, if there was one, is destroyed. */
  lemma DelegateEnds(s: State)
    requires Owned(s) && s.tick.TickDelegate?
    ensures TickEnds(s, s.(heap := s.heap - {s.tick.prior}, tick := TickIdle))
  {
    NullIsDead(s);
    SoleOwners(s, Ticker);
    var r := s.(heap := s.heap - {s.tick.prior}, tick := TickIdle);
    if s.tick.prior == NULL {
      assert s.heap - {s.tick.prior} == s.heap;
      TickEndsNext(s, r);
    } else {
      TickEndsNext(ExecTick(s, false), r);
      TickEndsLater(s, r);
    }
  }

  lemma DestroysPrior(s: State)
    requires Owned(s) && s.tick.TickDestroy?
    ensures TickEnds(s, s.(heap := s.heap - {s.tick.prior}, tick := TickIdle))
  {
    SoleOwners(s, Ticker);
    TickEndsNext(s, s.(heap := s.heap - {s.tick.prior}, tick := TickIdle));
  }

  /** The buffer in hand goes back to the latest slot when that is empty, and else it is destroyed. */
  lemma HandsBackEnds(s: State)
    requires Owned(s) && s.tick.TickPutBack?
    ensures var newest := s.tick.newest;
      TickEnds(s, if s.latest == NULL then s.(latest := newest, tick := TickIdle)
                  else s.(heap := s.heap - {newest}, tick := TickIdle))
  {
    SoleOwners(s, Ticker);
    if s.latest == NULL {
      TickEndsNext(s, s.(latest := s.tick.newest, tick := TickIdle));
    } else {
      var r := s.(heap := s.heap - {s.tick.newest}, tick := TickIdle);
      TickEndsNext(ExecTick(s, false), r);
      TickEndsLater(s, r);
    }
  }

  lemma DiscardEnds(s: State)
    requires Owned(s) && s.tick.TickDiscard?
    ensures TickEnds(s, s.(heap := s.heap - {s.tick.newest}, tick := TickIdle))
  {
    SoleOwners(s, Ticker);
    TickEndsNext(s, s.(heap := s.heap - {s.tick.newest}, tick := TickIdle));
  }

  /** The buffer in hand is installed in the value slot and told to the delegate. */
  function Installed(s: State, newest: Addr): State {
    s.(value := newest, delivered := s.delivered + [VersionOf(s, newest)], heap := s.heap - {s.value}, tick := TickIdle)
  }

  /** With the newest buffer in hand: installed when the value slot is as it was seen, whatever it
      holds, and else put back or discarded. */
  lemma InstallEnds(s: State)
    requires Owned(s) && s.tick.TickInstall?
    ensures var newest := s.tick.newest;
      TickEnds(s, if s.value == s.tick.prior then Installed(s, newest)
                  else if s.latest == NULL then s.(latest := newest, tick := TickIdle)
                  else s.(heap := s.heap - {newest}, tick := TickIdle))
  {
    var s1 := ExecTick(s, false);
    OwnedStep(s, Tick(false));
    if s.value == s.tick.prior {
      DelegateEnds(s1);
      TickEndsLater(s, Installed(s, s.tick.newest));
    } else {
      HandsBackEnds(s1);
      TickEndsLater(s, if s.latest == NULL then s.(latest := s.tick.newest, tick := TickIdle)
                       else s.(heap := s.heap - {s.tick.newest}, tick := TickIdle));
    }
  }

  /** The latest slot is emptied into the value slot. */
  function Moved(s: State): State {
    Installed(s.(latest := NULL), s.latest)
  }

  /** Before the exchange on the latest slot: the pending buffer moves when both slots are as they
      were seen, and else nothing changes. */
  lemma TakeEnds(s: State)
    requires Owned(s) && s.tick.TickTake?
    ensures TickEnds(s, if s.latest == s.tick.newest && s.value == s.tick.prior then Moved(s) else s.(tick := TickIdle))
  {
    var s1 := ExecTick(s, false);
    OwnedStep(s, Tick(false));
    if s.latest == s.tick.newest {
      InstallEnds(s1);
      TickEndsLater(s, if s.value == s.tick.prior then Moved(s) else s.(tick := TickIdle));
    } else {
      TickEndsNext(s, s.(tick := TickIdle));
    }
  }

  lemma LoadEnds(s: State)
    requires Owned(s) && s.tick.TickLoadLatest?
    ensures TickEnds(s, if s.latest != NULL && s.latest != s.tick.prior && s.value == s.tick.prior then Moved(s)
                        else s.(tick := TickIdle))
  {
    var s1 := ExecTick(s, false);
    OwnedStep(s, Tick(false));
    if s.latest == NULL || s.latest == s.tick.prior {
      TickEndsNext(s, s.(tick := TickIdle));
    } else {
      TakeEnds(s1);
      TickEndsLater(s, if s.value == s.tick.prior then Moved(s) else s.(tick := TickIdle));
    }
  }

  /** An undisturbed Tick, whatever the value slot holds: a pending buffer moves to the value slot,
      the delegate is told of it, and the buffer it replaces is destroyed; nothing else changes, and
      without a pending buffer nothing at all. */
  lemma TickAloneMoves(s: State)
    requires Owned(s) && s.tick == TickIdle
    ensures TickEnds(ExecTick(s, false), if s.latest == NULL then s else Moved(s))
  {
    OwnedStep(s, Tick(false));
    LoadEnds(ExecTick(s, false));
    SoleOwners(s, LatestSlot);
  }

  /** A weak exchange that fails for no reason ends the tick without effect, or puts the buffer back. */
  lemma TickGivesUp(s: State)
    requires Owned(s) && (s.tick.TickTake? || s.tick.TickInstall?)
    ensures TickEnds(ExecTick(s, true),
                     if s.tick.TickTake? then s.(tick := TickIdle)
                     else if s.latest == NULL then s.(latest := s.tick.newest, tick := TickIdle)
                     else s.(heap := s.heap - {s.tick.newest}, tick := TickIdle))
  {
    var s1 := ExecTick(s, true);
    OwnedStep(s, Tick(true));
    if s.tick.TickTake? {
      assert TickReturns(s1, 0) && TickAlone(s1, 0) == s1;
    } else {
      HandsBackEnds(s1);
    }
  }

  // ---------------------------------------------------------------- delivery

  /** Whatever the ticker is doing, alone it comes to the end of its tick. */
  lemma TickCanEnd(s: State) returns (r: State)
    requires Owned(s)
    ensures TickEnds(s, r) && r.writes == s.writes
  {
    match s.tick
    case TickIdle =>
      r := s;
      assert TickReturns(s, 0) && TickAlone(s, 0) == s;
    case TickLoadLatest(_) =>
      LoadEnds(s);
      r :| TickEnds(s, r) && r.writes == s.writes;
    case TickTake(_, _) =>
      TakeEnds(s);
      r :| TickEnds(s, r) && r.writes == s.writes;
    case TickInstall(_, _) =>
      InstallEnds(s);
      r :| TickEnds(s, r) && r.writes == s.writes;
    case TickPutBack(_) =>
      HandsBackEnds(s);
      r :| TickEnds(s, r) && r.writes == s.writes;
    case TickDiscard(_) =>
      DiscardEnds(s);
      r :| TickEnds(s, r) && r.writes == s.writes;
    case TickDelegate(_, _) =>
      DelegateEnds(s);
      r :| TickEnds(s, r) && r.writes == s.writes;
    case TickDestroy(_) =>
      DestroysPrior(s);
      r :| TickEnds(s, r) && r.writes == s.writes;
  }

  function Ticks(n: nat): seq<Event> {
    seq(n, _ => Tick(false))
  }

  lemma TickMore(readers: set<Thread>, es: seq<Event>)
    requires Legal(readers, es)
    ensures Legal(readers, es + [Tick(false)]) && Run(es + [Tick(false)]) == ExecTick(Run(es), false)
  {
    assert (es + [Tick(false)])[..|es|] == es;
  }

  lemma TicksShift(es: seq<Event>, n: nat)
    requires n > 0
    ensures es + Ticks(n) == (es + [Tick(false)]) + Ticks(n - 1)
  {}

  lemma {:induction false} TicksRun(readers: set<Thread>, es: seq<Event>, s: State, n: nat, longer: seq<Event>)
    requires Legal(readers, es) && Run(es) == s && longer == es + Ticks(n)
    ensures Legal(readers, longer) && Run(longer) == TickAlone(s, n)
    decreases n
  {
    if n == 0 {
      assert es + Ticks(0) == es;
    } else {
      TickMore(readers, es);
      TicksShift(es, n);
      TicksRun(readers, es + [Tick(false)], ExecTick(s, false), n - 1, longer);
    }
  }

  lemma TickToItsEnd(readers: set<Thread>, es: seq<Event>, r: State) returns (n: nat)
    requires Legal(readers, es) && TickEnds(Run(es), r)
    ensures Legal(readers, es + Ticks(n)) && Run(es + Ticks(n)) == r && r.tick == TickIdle
  {
    n :| TickReturns(Run(es), n) && TickAlone(Run(es), n) == r;
    TicksRun(readers, es, Run(es), n, es + Ticks(n));
    EndIsIdle(Run(es), n);
  }

  lemma {:induction false} EndIsIdle(s: State, n: nat)
    requires TickReturns(s, n)
    ensures TickAlone(s, n).tick == TickIdle
    decreases n
  {
    if n > 0 {
      EndIsIdle(ExecTick(s, false), n - 1);
    }
  }

  lemma OneTickDelivers(readers: set<Thread>, es: seq<Event>) returns (n: nat)
    requires Legal(readers, es) && Run(es).tick == TickIdle
    ensures Legal(readers, es + Ticks(n))
    ensures Run(es + Ticks(n)).writes == Run(es).writes && LastDelivered(Run(es + Ticks(n))) == |Run(es).writes|
  {
    var s := Run(es);
    EveryRunOwnedAndFresh(readers, es);
    EveryRunKeepsNewest(readers, es);
    if LastDelivered(s) == |s.writes| {
      n := 0;
      assert es + Ticks(0) == es;
    } else {
      TickAloneMoves(s);
      TickMore(readers, es);
      assert es + [Tick(false)] == es + Ticks(1);
      var m := TickToItsEnd(readers, es + Ticks(1), Moved(s));
      n := 1 + m;
      assert es + Ticks(n) == es + Ticks(1) + Ticks(m);
    }
  }

  /** At every moment of every run, steps of the ticker alone suffice for the delegate to be told of
      the newest write. */
  lemma NewestCanBeDelivered(readers: set<Thread>, es: seq<Event>) returns (n: nat)
    requires Legal(readers, es)
    ensures Legal(readers, es + Ticks(n))
    ensures Run(es + Ticks(n)).writes == Run(es).writes && LastDelivered(Run(es + Ticks(n))) == |Run(es).writes|
  {
    EveryRunOwnedAndFresh(readers, es);
    var r := TickCanEnd(Run(es));
    var m := TickToItsEnd(readers, es, r);
    var k := OneTickDelivers(readers, es + Ticks(m));
    n := m + k;
    assert es + Ticks(n) == es + Ticks(m) + Ticks(k);
  }
}
