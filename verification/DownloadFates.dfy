/** What can still become of a file, at every moment of every run: when it can be finished, and
    when it is stalled for good. */
module DownloadFates {
  import opened Bytes
  import opened Options
  import opened Chunks
  import opened DownloadBuffers
  import opened Downloads
  import opened DownloadRuns
  import opened DownloadProgress

  // ---------------------------------------------------------------- what stays in the buffers

  ghost predicate AllArrivedIn(slots: seq<Slot>, f: nat, tail: nat) {
    forall slot :: slot in slots ==> Arrived(slot, f, tail)
  }

  lemma InsertedArrived(slots: seq<Slot>, g: nat, i: nat, len: nat, f: nat, tail: nat)
    requires AllArrivedIn(slots, f, tail) && Fits(slots, CAP, len) && g != f
    ensures AllArrivedIn(Inserted(slots, CAP, g, i, len), f, tail)
  {
    var r, at := Inserted(slots, CAP, g, i, len), Position(slots, CAP, len);
    forall k | 0 <= k < |r|
      ensures Arrived(r[k], f, tail)
    {
      assert k != at ==> r[k] == slots[if k < at then k else k - 1];
    }
  }

  lemma ReportedArrived(slots: seq<Slot>, c: Chunk, n: nat, f: nat, tail: nat)
    requires AllArrivedIn(slots, f, tail)
    requires c.file == f && tail <= c.index ==> forall slot :: slot in slots && KeyOf(slot) == c ==> n == slot.len
    ensures AllArrivedIn(SetDownloaded(slots, c, n), f, tail)
  {
    var r := SetDownloaded(slots, c, n);
    forall k | 0 <= k < |r|
      ensures Arrived(r[k], f, tail)
    {
      assert slots[k] in slots;
    }
  }

  lemma {:induction false} RemovedArrived(slots: seq<Slot>, g: nat, i: nat, f: nat, tail: nat)
    requires AllArrivedIn(slots, f, tail)
    ensures AllArrivedIn(Removed(slots, g, i), f, tail)
  {
    if slots != [] {
      RemovedArrived(slots[1..], g, i, f, tail);
    }
  }

  /** A request whose chunk was reported full has the chunk's size. */
  lemma FullRequest(s: State, remote: seq<seq<Byte>>, b: nat, slot: Slot)
    requires Inv(s, remote) && b < |s.bufs| && slot in s.bufs[b].slots && slot.downloaded == slot.len
    ensures slot.file < |s.files|
    ensures slot.index in s.files[slot.file].requests ==> |s.files[slot.file].requests[slot.index]| == slot.len
  {
    var k :| 0 <= k < |s.bufs[b].slots| && s.bufs[b].slots[k] == slot;
    HeldIsOwed(s, remote, b, k);
  }

  // ---------------------------------------------------------------- a stuck file

  /** A chunk that is missing is not complete. */
  lemma StuckIsUnfinished(s: State, remote: seq<seq<Byte>>, f: nat, x: nat)
    requires Sound(s, remote) && f < |s.files| && s.files[f].status == DownloadChunk && Missing(s, remote, f, x)
    ensures s.files[f].downloadSize != |s.files[f].content|
  {
    var file := s.files[f];
    assert FileOk(file, remote[f]) && FileExact(file, remote[f]);
    assert !file.done[x];
    FullIffAllDone(file.done, |remote[f]|);
  }

  /** What a step must leave for a stuck file to stay stuck. */
  ghost predicate StaysStuck(s: State, s': State, remote: seq<seq<Byte>>, f: nat, x: nat)
    requires f < |s.files| && x < |s.files[f].flags|
  {
    Stuck(s', remote, f, x) && (!s.files[f].flags[x] ==> !s'.files[f].flags[x])
  }

  ghost predicate SameFile(s: State, s': State, f: nat) {
    f < |s.files| && f < |s'.files| && s'.files[f] == s.files[f]
  }

  /** Steps that leave the file and bring no unfinished chunk of its last flag byte. */
  lemma UntouchedStays(s: State, s': State, remote: seq<seq<Byte>>, f: nat, x: nat)
    requires Stuck(s, remote, f, x) && SameFile(s, s', f)
    requires forall b :: 0 <= b < |s'.bufs| ==> AllArrivedIn(s'.bufs[b].slots, f, TailStart(|s.files[f].flags|))
    ensures StaysStuck(s, s', remote, f, x)
  {}

  lemma ArrivedBufs(s: State, f: nat)
    requires TailArrived(s, f)
    ensures forall b :: 0 <= b < |s.bufs| ==> AllArrivedIn(s.bufs[b].slots, f, TailStart(|s.files[f].flags|))
  {}

  lemma ArrivedAfterOtherLoop(s: State, g: nat, f: nat)
    requires g < |s.files| && PoolOk(s) && TailArrived(s, f) && g != f
    ensures var s' := ExecLoop(s, g);
      forall b :: 0 <= b < |s'.bufs| ==> AllArrivedIn(s'.bufs[b].slots, f, TailStart(|s.files[f].flags|))
  {
    ArrivedBufs(s, f);
    var file := if s.files[g].downloadSize == |s.files[g].content| then s.files[g].(status := Finished) else s.files[g];
    var s1 := PutFile(s, g, file);
    StartNextCases(s1, g);
    if StartNext(s1, g) != s1 {
      var len := NextLen(file, LeastClear(file.flags));
      var slots := s.bufs[s.pool[FirstRoom(s1, 0, len)]].slots;
      InsertedArrived(slots, g, LeastClear(file.flags), len, f, TailStart(|s.files[f].flags|));
    }
  }

  lemma StuckThroughLoop(s: State, remote: seq<seq<Byte>>, g: nat, f: nat, x: nat)
    requires Sound(s, remote) && Enabled(s, remote, Loop(g)) && Stuck(s, remote, f, x)
    ensures StaysStuck(s, ExecLoop(s, g), remote, f, x)
  {
    if g == f {
      StuckIsUnfinished(s, remote, f, x);
      StalledLoopIdles(s, f);
    } else {
      ArrivedAfterOtherLoop(s, g, f);
      OtherLoop(s, g, f);
      UntouchedStays(s, ExecLoop(s, g), remote, f, x);
    }
  }

  lemma StuckThroughReceive(s: State, remote: seq<seq<Byte>>, c: Chunk, b: nat, k: nat, data: seq<Byte>, f: nat, x: nat)
    requires Enabled(s, remote, Receive(c, b, k, data)) && Stuck(s, remote, f, x)
    ensures StaysStuck(s, ExecReceive(s, c, b, k, data), remote, f, x)
  {
    var s' := ExecReceive(s, c, b, k, data);
    assert forall a :: 0 <= a < |s'.bufs| ==> s'.bufs[a].slots == s.bufs[a].slots;
    if c.file == f && x == c.index && f < |remote| && First(x) <= Second(x, |remote[f]|) {
      LongerStaysWrong(s.files[f].requests[x], data, remote[f][First(x)..Second(x, |remote[f]|)]);
    }
  }

  lemma LongerStaysWrong(body: seq<Byte>, data: seq<Byte>, range: seq<Byte>)
    ensures body + data <= range ==> body <= range
  {}

  /** A chunk of the last flag byte that arrived is reported with its size again, if at all. */
  lemma ReportedFull(s: State, remote: seq<seq<Byte>>, c: Chunk, b: nat, n: nat, f: nat)
    requires Inv(s, remote) && TailArrived(s, f) && b < |s.bufs| && Running(s, c)
    requires forall slot :: slot in s.bufs[b].slots && KeyOf(slot) == c && slot.downloaded == slot.len ==>
      slot.downloaded <= n <= |s.files[c.file].requests[c.index]|
    ensures AllArrivedIn(SetDownloaded(s.bufs[b].slots, c, n), f, TailStart(|s.files[f].flags|))
  {
    ArrivedBufs(s, f);
    if c.file == f && TailStart(|s.files[f].flags|) <= c.index {
      forall slot | slot in s.bufs[b].slots && KeyOf(slot) == c
        ensures n == slot.len
      {
        assert Arrived(slot, f, TailStart(|s.files[f].flags|));
        FullRequest(s, remote, b, slot);
      }
    }
    ReportedArrived(s.bufs[b].slots, c, n, f, TailStart(|s.files[f].flags|));
  }

  /** The buffer holds a chunk only once. */
  lemma OneSlot(s: State, remote: seq<seq<Byte>>, b: nat, k: nat, slot: Slot)
    requires Inv(s, remote) && b < |s.bufs| && k < |s.bufs[b].slots| && slot in s.bufs[b].slots
    requires KeyOf(slot) == KeyOf(s.bufs[b].slots[k])
    ensures slot == s.bufs[b].slots[k]
  {
    var j :| 0 <= j < |s.bufs[b].slots| && s.bufs[b].slots[j] == slot;
    HeldOnce(s, remote, b, k, b, j);
  }

  lemma StuckThroughProgress(s: State, remote: seq<seq<Byte>>, c: Chunk, b: nat, k: nat, n: nat, f: nat, x: nat)
    requires Sound(s, remote) && Enabled(s, remote, Progress(c, b, k, n)) && Stuck(s, remote, f, x)
    ensures StaysStuck(s, Exec(s, remote, Progress(c, b, k, n)), remote, f, x)
  {
    forall slot | slot in s.bufs[b].slots && KeyOf(slot) == c
      ensures slot == s.bufs[b].slots[k]
    {
      OneSlot(s, remote, b, k, slot);
    }
    ReportedFull(s, remote, c, b, n, f);
    ArrivedBufs(s, f);
    UntouchedStays(s, Exec(s, remote, Progress(c, b, k, n)), remote, f, x);
  }

  /** No response for a chunk of the last flag byte can be rejected any more. */
  lemma NoTailRejected(s: State, remote: seq<seq<Byte>>, e: Event, f: nat)
    requires Inv(s, remote) && TailArrived(s, f)
    ensures !RejectsTail(s, remote, e, f)
  {
    if e.Complete? && e.c.file == f && TailStart(|s.files[f].flags|) <= e.c.index && e.b < |s.bufs| {
      forall k | 0 <= k < |s.bufs[e.b].slots| && KeyOf(s.bufs[e.b].slots[k]) == e.c
        ensures s.bufs[e.b].slots[k].downloaded == s.bufs[e.b].slots[k].len
      {
        assert Arrived(s.bufs[e.b].slots[k], f, TailStart(|s.files[f].flags|));
      }
    }
  }

  /** What a completed request leaves in the buffers. */
  lemma ArrivedAfterComplete(s: State, remote: seq<seq<Byte>>, c: Chunk, b: nat, ok: bool, f: nat)
    requires Inv(s, remote) && Enabled(s, remote, Complete(c, b, ok)) && TailArrived(s, f)
    ensures var s' := ExecComplete(s, c, b, ok);
      forall a :: 0 <= a < |s'.bufs| ==> AllArrivedIn(s'.bufs[a].slots, f, TailStart(|s.files[f].flags|))
  {
    ArrivedBufs(s, f);
    if Accepts(s.files[c.file], c.index, ok) {
      forall slot | slot in s.bufs[b].slots && KeyOf(slot) == c && slot.downloaded == slot.len
        ensures slot.downloaded <= |s.files[c.file].requests[c.index]|
      {
        FullRequest(s, remote, b, slot);
      }
      ReportedFull(s, remote, c, b, |s.files[c.file].requests[c.index]|, f);
    } else {
      RemovedArrived(s.bufs[b].slots, c.file, c.index, f, TailStart(|s.files[f].flags|));
    }
  }

  /** A hopeless request is not accepted. */
  lemma HopelessNotAccepted(s: State, remote: seq<seq<Byte>>, c: Chunk, b: nat, ok: bool)
    requires Enabled(s, remote, Complete(c, b, ok)) && Accepts(s.files[c.file], c.index, ok)
    ensures !Hopeless(s, remote, c.file, c.index)
  {}

  lemma MissingAfterComplete(s: State, remote: seq<seq<Byte>>, c: Chunk, b: nat, ok: bool, f: nat, x: nat)
    requires Enabled(s, remote, Complete(c, b, ok)) && Missing(s, remote, f, x)
    ensures Missing(ExecComplete(s, c, b, ok), remote, f, x)
    ensures !s.files[f].flags[x] ==> !ExecComplete(s, c, b, ok).files[f].flags[x]
  {
    if c == Chunk(f, x) && Accepts(s.files[f], x, ok) {
      HopelessNotAccepted(s, remote, c, b, ok);
    }
  }

  lemma TailAfterComplete(s: State, remote: seq<seq<Byte>>, c: Chunk, b: nat, ok: bool, f: nat)
    requires Enabled(s, remote, Complete(c, b, ok)) && f < |s.files| && TailSet(s.files[f].flags)
    requires !RejectsTail(s, remote, Complete(c, b, ok), f)
    ensures TailSet(ExecComplete(s, c, b, ok).files[f].flags)
    ensures |ExecComplete(s, c, b, ok).files[f].flags| == |s.files[f].flags|
  {}

  lemma StuckThroughComplete(s: State, remote: seq<seq<Byte>>, c: Chunk, b: nat, ok: bool, f: nat, x: nat)
    requires Sound(s, remote) && Enabled(s, remote, Complete(c, b, ok)) && Stuck(s, remote, f, x)
    ensures StaysStuck(s, ExecComplete(s, c, b, ok), remote, f, x)
  {
    NoTailRejected(s, remote, Complete(c, b, ok), f);
    TailAfterComplete(s, remote, c, b, ok, f);
    MissingAfterComplete(s, remote, c, b, ok, f, x);
    ArrivedAfterComplete(s, remote, c, b, ok, f);
  }

  lemma StuckThroughSave(s: State, remote: seq<seq<Byte>>, ok: bool, junk: seq<Byte>, f: nat, x: nat)
    requires Enabled(s, remote, Save(ok, junk)) && Stuck(s, remote, f, x)
    ensures StaysStuck(s, ExecSave(s, ok, junk), remote, f, x)
  {
    ArrivedBufs(s, f);
  }

  /** Every step keeps a stuck file stuck. */
  lemma StuckStep(s: State, remote: seq<seq<Byte>>, e: Event, f: nat, x: nat)
    requires Sound(s, remote) && Enabled(s, remote, e) && Stuck(s, remote, f, x)
    ensures StaysStuck(s, Exec(s, remote, e), remote, f, x)
  {
    ArrivedBufs(s, f);
    match e
    case Loop(g) => StuckThroughLoop(s, remote, g, f, x);
    case Receive(c, b, k, data) => StuckThroughReceive(s, remote, c, b, k, data, f, x);
    case Progress(c, b, k, n) => StuckThroughProgress(s, remote, c, b, k, n, f, x);
    case Complete(c, b, ok) => StuckThroughComplete(s, remote, c, b, ok, f, x);
    case Save(ok, junk) => StuckThroughSave(s, remote, ok, junk, f, x);
    case _ => UntouchedStays(s, Exec(s, remote, e), remote, f, x);
  }

  // ---------------------------------------------------------------- doomed files

  /** One of its chunks is stranded by a failed write, or the file is stuck. */
  ghost predicate Doomed(s: State, remote: seq<seq<Byte>>, f: nat) {
    (exists x :: Stranded(s, f, x)) || exists x :: Stuck(s, remote, f, x)
  }

  /** Every step keeps a doomed file doomed. */
  lemma DoomedStep(s: State, remote: seq<seq<Byte>>, e: Event, f: nat)
    requires Sound(s, remote) && Enabled(s, remote, e) && Doomed(s, remote, f)
    ensures Doomed(Exec(s, remote, e), remote, f)
  {
    var s' := Exec(s, remote, e);
    SoundStep(s, remote, e);
    if x: nat :| Stranded(s, f, x) {
      LostIsStranded(s, remote, f, x);
      LostStepIff(s, remote, e, s', f, x);
      LostIsStranded(s', remote, f, x);
    } else {
      var x: nat :| Stuck(s, remote, f, x);
      StuckStep(s, remote, e, f, x);
    }
  }

  lemma DoomedIsUnfinished(s: State, remote: seq<seq<Byte>>, f: nat)
    requires Sound(s, remote) && Doomed(s, remote, f)
    ensures f < |s.files| && s.files[f].status != Finished
  {
    if x: nat :| Stranded(s, f, x) {
      LostIsStranded(s, remote, f, x);
      LostIsUnfinished(s, remote, f, x);
    }
  }

  lemma NothingLost(s: State, remote: seq<seq<Byte>>, f: nat)
    requires Inv(s, remote) && f < |s.files| && !Doomed(s, remote, f)
    ensures s.files[f].lost == {}
  {
    forall x | x in s.files[f].lost
      ensures false
    {
      LostIsStranded(s, remote, f, x);
    }
  }

  lemma {:induction false} DoomedForever(s: State, remote: seq<seq<Byte>>, es: seq<Event>, f: nat)
    requires Sound(s, remote) && Doomed(s, remote, f) && Follow(s, remote, es).Some?
    ensures var s' := Follow(s, remote, es).value;
      Sound(s', remote) && Doomed(s', remote, f) && s'.files[f].status != Finished
  {
    if es == [] {
      DoomedIsUnfinished(s, remote, f);
    } else {
      var before := es[..|es| - 1];
      DoomedForever(s, remote, before, f);
      var s1 := Follow(s, remote, before).value;
      SoundStep(s1, remote, es[|es| - 1]);
      DoomedStep(s1, remote, es[|es| - 1], f);
      DoomedIsUnfinished(Exec(s1, remote, es[|es| - 1]), remote, f);
    }
  }

  /** Some events that can follow finish the file. */
  ghost predicate CanStillFinish(s: State, remote: seq<seq<Byte>>, f: nat) {
    exists es :: Finishes(s, remote, es, f)
  }

  ghost predicate Finishes(s: State, remote: seq<seq<Byte>>, es: seq<Event>, f: nat) {
    && Follow(s, remote, es).Some? && f < |Follow(s, remote, es).value.files|
    && Follow(s, remote, es).value.files[f].status == Finished
  }

  lemma EmptyNeverFinishes(s: State, remote: seq<seq<Byte>>, es: seq<Event>, f: nat)
    requires Sound(s, remote) && f < |s.files| && |remote[f]| == 0
    ensures !Finishes(s, remote, es, f)
  {
    if s' :| Follow(s, remote, es) == Some(s') {
      FollowKeepsInv(s, remote, es);
      assert f < |s'.files| ==> FileOk(s'.files[f], remote[f]);
    }
  }

  /** At every moment of every run, whatever other files are doing and however the buffers are
      filled, a file can still be finished exactly when the remote file is not empty, none of its
      chunks is stranded, and it is not stuck. */
  lemma CanFinishIff(states: seq<State>, remote: seq<seq<Byte>>, es: seq<Event>, i: nat, f: nat)
    requires IsRun(states, remote, es) && i <= |es| && f < |remote|
    ensures CanStillFinish(states[i], remote, f) <==> |remote[f]| > 0 && !Doomed(states[i], remote, f)
  {
    var s := states[i];
    EveryRunSound(states, remote, es, i);
    if |remote[f]| > 0 && !Doomed(s, remote, f) {
      NothingLost(s, remote, f);
      var s' := CanFinish(s, remote, f);
      var more :| Follow(s, remote, more) == Some(s');
      assert Finishes(s, remote, more, f);
    } else {
      forall more
        ensures !Finishes(s, remote, more, f)
      {
        if |remote[f]| == 0 {
          EmptyNeverFinishes(s, remote, more, f);
        } else if Follow(s, remote, more).Some? {
          DoomedForever(s, remote, more, f);
        }
      }
    }
  }

  lemma StartState(remote: seq<seq<Byte>>) returns (s: State)
    ensures Initial(s, remote)
  {
    var buf := BufState(seq(CAP, _ => 0), []);
    var files := seq(|remote|, _ => FileState(Waiting, [], [], 0, [], map[], {}));
    s := State(files, [buf, buf, buf, buf], [0, 1, 2, 3], [], []);
  }

  /** The states that events pass through on their way from the start. */
  lemma {:induction false} RunOf(s: State, remote: seq<seq<Byte>>, es: seq<Event>) returns (states: seq<State>)
    requires Initial(s, remote) && Follow(s, remote, es).Some?
    ensures IsRun(states, remote, es) && states[|es|] == Follow(s, remote, es).value
  {
    if es == [] {
      states := [s];
    } else {
      var before := es[..|es| - 1];
      states := RunOf(s, remote, before);
      RunNext(states, remote, before, es[|es| - 1]);
      states := states + [Follow(s, remote, es).value];
      assert es == before + [es[|es| - 1]];
    }
  }

  /** The end-to-end guarantee is about every file of every list: a run finishes it. */
  lemma EveryFileCanFinish(remote: seq<seq<Byte>>, f: nat) returns (states: seq<State>, es: seq<Event>)
    requires f < |remote| && |remote[f]| > 0
    ensures IsRun(states, remote, es) && |states[|es|].files| == |remote|
    ensures states[|es|].files[f].status == Finished && states[|es|].files[f].content == remote[f]
  {
    var s := StartState(remote);
    InitialInv(s, remote);
    var s' := CanFinish(s, remote, f);
    es :| Follow(s, remote, es) == Some(s');
    states := RunOf(s, remote, es);
    EveryRunKeepsInv(states, remote, es, |es|);
    FinishedFileIsRemote(states, remote, es, |es|, f);
  }

  // ---------------------------------------------------------------- files stalled for good

  /** The file is stalled after any events that can follow. */
  ghost predicate StaysStalled(s: State, remote: seq<seq<Byte>>, f: nat, x: nat) {
    forall es :: StalledAfter(s, remote, es, f, x)
  }

  ghost predicate StalledAfter(s: State, remote: seq<seq<Byte>>, es: seq<Event>, f: nat, x: nat) {
    Follow(s, remote, es).Some? ==> Stalled(Follow(s, remote, es).value, f, x)
  }

  lemma {:induction false} StalledFollow(s: State, remote: seq<seq<Byte>>, es: seq<Event>, f: nat, x: nat)
    requires Sound(s, remote) && Stalled(s, f, x) && TailArrived(s, f) && Follow(s, remote, es).Some?
    ensures var s' := Follow(s, remote, es).value;
      Sound(s', remote) && Stalled(s', f, x) && TailArrived(s', f)
  {
    if es != [] {
      var before := es[..|es| - 1];
      StalledFollow(s, remote, before, f, x);
      var s1 := Follow(s, remote, before).value;
      SoundStep(s1, remote, es[|es| - 1]);
      assert Stuck(s1, remote, f, x);
      StuckStep(s1, remote, es[|es| - 1], f, x);
    }
  }

  /** At every moment of every run a stalled file stays stalled whatever follows exactly when no
      buffer holds a chunk of the last flag byte that is still to arrive. */
  lemma StalledForGoodIff(states: seq<State>, remote: seq<seq<Byte>>, es: seq<Event>, i: nat, f: nat, x: nat)
    requires IsRun(states, remote, es) && i <= |es| && Stalled(states[i], f, x)
    ensures StaysStalled(states[i], remote, f, x) <==> TailArrived(states[i], f)
  {
    var s := states[i];
    EveryRunSound(states, remote, es, i);
    if TailArrived(s, f) {
      forall more
        ensures StalledAfter(s, remote, more, f, x)
      {
        if Follow(s, remote, more).Some? {
          StalledFollow(s, remote, more, f, x);
        }
      }
    } else {
      LeadsItself(s, remote);
      var s' := OpenTail(s, remote, s, f);
      var more :| Follow(s, remote, more) == Some(s');
      assert !StalledAfter(s, remote, more, f, x);
    }
  }

  /** In particular when no request for a chunk of the last flag byte is running. */
  lemma NoRequestNoneToArrive(s: State, remote: seq<seq<Byte>>, f: nat)
    requires Inv(s, remote) && f < |s.files|
    requires forall i :: i in s.files[f].requests ==> i < TailStart(|s.files[f].flags|)
    ensures TailArrived(s, f)
  {
    forall b, slot | 0 <= b < |s.bufs| && slot in s.bufs[b].slots
      ensures Arrived(slot, f, TailStart(|s.files[f].flags|))
    {
      var k :| 0 <= k < |s.bufs[b].slots| && s.bufs[b].slots[k] == slot;
      HeldIsOwed(s, remote, b, k);
    }
  }

  /** Every file of more than eight chunks has a run after which it is stalled for good. */
  lemma EveryLongFileCanStall(r: seq<Byte>) returns (states: seq<State>, es: seq<Event>)
    requires |r| > 0 && ChunkNum(|r|) > 8
    ensures IsRun(states, [r], es) && Stalled(states[|es|], 0, 0) && StaysStalled(states[|es|], [r], 0, 0)
  {
    states, es := LongFileStalls(r);
    EveryRunKeepsInv(states, [r], es, |es|);
    NoRequestNoneToArrive(states[|es|], [r], 0);
    StalledForGoodIff(states, [r], es, |es|, 0, 0);
  }
}
