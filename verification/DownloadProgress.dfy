/** When a file can still finish: from any state of a run, with any other files under way and the
    buffers filled in any way, exactly unless a write was lost or the last flag byte is full for
    good while an early chunk is missing. */
module DownloadProgress {
  import opened Bytes
  import opened Options
  import opened Chunks
  import opened DownloadBuffers
  import opened Downloads
  import opened DownloadRuns

  // ---------------------------------------------------------------- exact responses

  predicate Spent(file: FileState, i: nat) {
    i in file.lost || (i < |file.done| && file.done[i])
  }

  /** A request still running for a chunk that was already written has received exactly its range. */
  ghost predicate RequestsExact(s: State, remote: seq<seq<Byte>>) {
    |s.files| == |remote| && forall f :: 0 <= f < |s.files| ==> FileExact(s.files[f], remote[f])
  }

  ghost predicate FileExact(file: FileState, r: seq<Byte>) {
    forall i :: i in file.requests && Spent(file, i) ==> IsRange(r, i, file.requests[i])
  }

  ghost predicate Sound(s: State, remote: seq<seq<Byte>>) {
    Inv(s, remote) && RequestsExact(s, remote)
  }

  lemma OneFileExact(s: State, s': State, remote: seq<seq<Byte>>, f: nat)
    requires RequestsExact(s, remote) && f < |s.files| == |s'.files| && s'.files == s.files[f := s'.files[f]]
    requires FileExact(s'.files[f], remote[f])
    ensures RequestsExact(s', remote)
  {}

  lemma ReceiveExact(s: State, remote: seq<seq<Byte>>, c: Chunk, b: nat, k: nat, data: seq<Byte>)
    requires Sound(s, remote) && Enabled(s, remote, Receive(c, b, k, data))
    ensures RequestsExact(ExecReceive(s, c, b, k, data), remote)
  {
    HeldIsOwed(s, remote, b, k);
    assert FileExact(s.files[c.file], remote[c.file]);
    OneFileExact(s, ExecReceive(s, c, b, k, data), remote, c.file);
  }

  /** A slot that was reported full has its range, and so has its request. */
  lemma FullIsExact(s: State, remote: seq<seq<Byte>>, b: nat, k: nat)
    requires Inv(s, remote) && b < |s.bufs| && k < |s.bufs[b].slots|
    requires s.bufs[b].slots[k].downloaded == s.bufs[b].slots[k].len
    ensures var slot := s.bufs[b].slots[k];
      && slot.file < |s.files| && slot.file < |remote|
      && (slot.index in s.files[slot.file].requests ==>
            IsRange(remote[slot.file], slot.index, s.files[slot.file].requests[slot.index]))
  {
    HeldIsOwed(s, remote, b, k);
    var slot := s.bufs[b].slots[k];
    var here := s.bufs[b].mem[slot.cursor..slot.cursor + slot.len];
    if slot.index in s.files[slot.file].requests {
      assert s.files[slot.file].requests[slot.index] == here;
    }
  }

  lemma SaveExact(s: State, remote: seq<seq<Byte>>, ok: bool, junk: seq<Byte>)
    requires Sound(s, remote) && Enabled(s, remote, Save(ok, junk))
    ensures RequestsExact(ExecSave(s, ok, junk), remote)
  {
    var b := s.inIO[0];
    var slot := s.bufs[b].slots[0];
    assert b in s.inIO;
    FullIsExact(s, remote, b, 0);
    assert FileExact(s.files[slot.file], remote[slot.file]);
    OneFileExact(s, ExecSave(s, ok, junk), remote, slot.file);
  }

  lemma LoopFileExact(s: State, r: seq<Byte>, f: nat)
    requires f < |s.files| && PoolOk(s) && s.files[f].status != Waiting
    requires FileOk(s.files[f], r) && FileExact(s.files[f], r)
    ensures var s' := ExecLoop(s, f);
      |s'.files| == |s.files| && s'.files == s.files[f := s'.files[f]] && FileExact(s'.files[f], r)
  {
    var file0 := s.files[f];
    var file := if file0.downloadSize == |file0.content| then file0.(status := Finished) else file0;
    StartNextCases(PutFile(s, f, file), f);
  }

  lemma LoopExact(s: State, remote: seq<seq<Byte>>, f: nat)
    requires Sound(s, remote) && Enabled(s, remote, Loop(f))
    ensures RequestsExact(ExecLoop(s, f), remote)
  {
    assert FileOk(s.files[f], remote[f]) && FileExact(s.files[f], remote[f]);
    LoopFileExact(s, remote[f], f);
    OneFileExact(s, ExecLoop(s, f), remote, f);
  }

  lemma CompleteExact(s: State, remote: seq<seq<Byte>>, c: Chunk, b: nat, ok: bool)
    requires Sound(s, remote) && Enabled(s, remote, Complete(c, b, ok))
    ensures RequestsExact(ExecComplete(s, c, b, ok), remote)
  {
    assert FileExact(s.files[c.file], remote[c.file]);
    OneFileExact(s, ExecComplete(s, c, b, ok), remote, c.file);
  }

  lemma SoundStep(s: State, remote: seq<seq<Byte>>, e: Event)
    requires Sound(s, remote) && Enabled(s, remote, e)
    ensures Sound(Exec(s, remote, e), remote)
  {
    StepKeepsInv(s, remote, e);
    match e
    case Head(f) => OneFileExact(s, ExecHead(s, remote, f), remote, f);
    case Loop(f) => LoopExact(s, remote, f);
    case Receive(c, b, k, data) => ReceiveExact(s, remote, c, b, k, data);
    case Complete(c, b, ok) => CompleteExact(s, remote, c, b, ok);
    case Save(ok, junk) => SaveExact(s, remote, ok, junk);
    case Progress(c, b, k, n) => assert Exec(s, remote, e).files == s.files;
    case Transfer(j) => assert Exec(s, remote, e).files == s.files;
    case Recycle => assert Exec(s, remote, e).files == s.files;
    case Release => assert Exec(s, remote, e).files == s.files;
  }

  lemma {:induction false} EveryRunSound(states: seq<State>, remote: seq<seq<Byte>>, es: seq<Event>, i: nat)
    requires IsRun(states, remote, es) && i <= |es|
    ensures Sound(states[i], remote)
  {
    if i == 0 {
      InitialInv(states[0], remote);
    } else {
      EveryRunSound(states, remote, es, i - 1);
      assert Steps(states[i - 1], remote, es[i - 1], states[i]);
      SoundStep(states[i - 1], remote, es[i - 1]);
    }
  }

  // ---------------------------------------------------------------- continuations

  ghost predicate Leads(o: State, remote: seq<seq<Byte>>, s: State) {
    exists es :: Follow(o, remote, es) == Some(s)
  }

  lemma LeadsItself(o: State, remote: seq<seq<Byte>>)
    ensures Leads(o, remote, o)
  {
    var none: seq<Event> := [];
    assert Follow(o, remote, none) == Some(o);
  }

  lemma LeadsNext(o: State, remote: seq<seq<Byte>>, s: State, e: Event) returns (s': State)
    requires Sound(s, remote) && Leads(o, remote, s) && Enabled(s, remote, e)
    ensures s' == Exec(s, remote, e) && Leads(o, remote, s') && Sound(s', remote)
  {
    s' := Exec(s, remote, e);
    LeadsOn(o, remote, s, e);
    SoundStep(s, remote, e);
  }

  lemma LeadsOn(o: State, remote: seq<seq<Byte>>, s: State, e: Event)
    requires Leads(o, remote, s) && Enabled(s, remote, e)
    ensures Leads(o, remote, Exec(s, remote, e))
  {
    var es :| Follow(o, remote, es) == Some(s);
    FollowSnoc(o, remote, es, s, e);
  }

  // ---------------------------------------------------------------- settling requests

  /** The bytes received so far start the requested range. */
  ghost predicate Healthy(s: State, remote: seq<seq<Byte>>, c: Chunk)
    requires Running(s, c) && c.file < |remote|
  {
    First(c.index) <= Second(c.index, |remote[c.file]|) &&
    s.files[c.file].requests[c.index] <= remote[c.file][First(c.index)..Second(c.index, |remote[c.file]|)]
  }

  /** A request is gone, and its chunk kept or given back. */
  ghost predicate Settled(s: State, s': State, c: Chunk, kept: bool)
    requires Running(s, c)
  {
    var file := s.files[c.file];
    s'.files == s.files[c.file :=
      file.(requests := file.requests - {c.index}, flags := if kept then file.flags else file.flags[c.index := false])]
  }

  lemma Accept(o: State, remote: seq<seq<Byte>>, s: State, c: Chunk, b: nat) returns (s': State)
    requires Sound(s, remote) && Leads(o, remote, s) && Running(s, c) && Exact(s, remote, c)
    requires b < |s.bufs| && (c in Keys(s.bufs[b].slots) || Spent(s.files[c.file], c.index))
    ensures Leads(o, remote, s') && Sound(s', remote) && Settled(s, s', c, true)
  {
    assert FileOk(s.files[c.file], remote[c.file]);
    s' := LeadsNext(o, remote, s, Complete(c, b, true));
  }

  lemma Reject(o: State, remote: seq<seq<Byte>>, s: State, c: Chunk, b: nat, k: nat) returns (s': State)
    requires Sound(s, remote) && Leads(o, remote, s) && Running(s, c) && SlotIs(s, b, k, c)
    requires s.bufs[b].slots[k].downloaded != s.bufs[b].slots[k].len
    ensures Leads(o, remote, s') && Sound(s', remote) && Settled(s, s', c, false)
  {
    assert s.bufs[b].slots[k] in s.bufs[b].slots;
    s' := LeadsNext(o, remote, s, Complete(c, b, false));
  }

  /** A running request's chunk was written or is in a buffer. */
  lemma Whereabouts(s: State, remote: seq<seq<Byte>>, c: Chunk) returns (b: nat, k: nat)
    requires Inv(s, remote) && Running(s, c)
    ensures c.file < |remote| && (Spent(s.files[c.file], c.index) || SlotIs(s, b, k, c))
  {
    b, k := 0, 0;
    assert FileOk(s.files[c.file], remote[c.file]);
    if !Spent(s.files[c.file], c.index) {
      assert (x => Owed(s, x))(c);
      assert HeldIn(KeySets(s), c);
      b :| 0 <= b < |KeySets(s)| && c in KeySets(s)[b];
      assert c in Keys(s.bufs[b].slots);
      k :| 0 <= k < |s.bufs[b].slots| && KeyOf(s.bufs[b].slots[k]) == c;
    }
  }

  /** The missing bytes arrive. */
  lemma Fill(o: State, remote: seq<seq<Byte>>, s: State, c: Chunk, b: nat, k: nat) returns (s': State)
    requires Sound(s, remote) && Leads(o, remote, s) && Running(s, c) && SlotIs(s, b, k, c)
    requires s.bufs[b].slots[k].downloaded != s.bufs[b].slots[k].len
    requires c.file < |remote| && Healthy(s, remote, c)
    ensures Leads(o, remote, s') && Sound(s', remote) && Running(s', c) && Exact(s', remote, c)
    ensures b < |s'.bufs| && s'.bufs[b].slots == s.bufs[b].slots
    ensures var file := s.files[c.file];
      s'.files == s.files[c.file := file.(requests := file.requests[c.index := s'.files[c.file].requests[c.index]])]
  {
    var range := remote[c.file][First(c.index)..Second(c.index, |remote[c.file]|)];
    var body := s.files[c.file].requests[c.index];
    assert body + range[|body|..] == range;
    s' := LeadsNext(o, remote, s, Receive(c, b, k, range[|body|..]));
  }

  /** A healthy request can complete. */
  lemma SettleKeep(o: State, remote: seq<seq<Byte>>, s: State, c: Chunk) returns (s': State)
    requires Sound(s, remote) && Leads(o, remote, s) && Running(s, c) && c.file < |remote| && Healthy(s, remote, c)
    ensures Leads(o, remote, s') && Sound(s', remote) && Settled(s, s', c, true)
  {
    var b, k := Whereabouts(s, remote, c);
    if Spent(s.files[c.file], c.index) {
      assert FileExact(s.files[c.file], remote[c.file]);
      s' := Accept(o, remote, s, c, 0);
    } else if s.bufs[b].slots[k].downloaded == s.bufs[b].slots[k].len {
      FullIsExact(s, remote, b, k);
      assert s.bufs[b].slots[k] in s.bufs[b].slots;
      s' := Accept(o, remote, s, c, b);
    } else {
      var s1 := Fill(o, remote, s, c, b, k);
      assert s1.bufs[b].slots[k] in s1.bufs[b].slots;
      s' := Accept(o, remote, s1, c, b);
      SameWithout(s.files[c.file].requests, c.index, s1.files[c.file].requests[c.index]);
    }
  }

  /** A request that is not healthy can fail. */
  lemma SettleDrop(o: State, remote: seq<seq<Byte>>, s: State, c: Chunk) returns (s': State)
    requires Sound(s, remote) && Leads(o, remote, s) && Running(s, c) && c.file < |remote| && !Healthy(s, remote, c)
    ensures Leads(o, remote, s') && Sound(s', remote) && Settled(s, s', c, false)
  {
    var b, k := Whereabouts(s, remote, c);
    assert FileExact(s.files[c.file], remote[c.file]);
    if !Spent(s.files[c.file], c.index) && s.bufs[b].slots[k].downloaded == s.bufs[b].slots[k].len {
      FullIsExact(s, remote, b, k);
    }
    s' := Reject(o, remote, s, c, b, k);
  }

  // ---------------------------------------------------------------- settling all requests

  function RequestCount(files: seq<FileState>): nat {
    if files == [] then 0 else RequestCount(files[..|files| - 1]) + |files[|files| - 1].requests|
  }

  lemma {:induction false} OneFewer(files: seq<FileState>, f: nat, file: FileState, i: nat)
    requires f < |files| && i in files[f].requests && file.requests == files[f].requests - {i}
    ensures RequestCount(files[f := file]) < RequestCount(files)
  {
    var n := |files| - 1;
    if f == n {
      assert files[f := file][..n] == files[..n];
      FewerEntries(files[f].requests, i);
    } else {
      OneFewer(files[..n], f, file, i);
      assert files[f := file][..n] == files[..n][f := file];
    }
  }

  lemma FewerEntries(m: map<nat, seq<Byte>>, i: nat)
    requires i in m
    ensures |m - {i}| < |m|
  {
    assert (m - {i}).Keys == m.Keys - {i};
    assert |(m - {i}).Keys| < |m.Keys|;
  }

  ghost predicate NoRequests(s: State) {
    forall f :: 0 <= f < |s.files| ==> s.files[f].requests == map[]
  }

  /** Chunk i of file f is requested, and what has arrived cannot become its range. */
  ghost predicate Hopeless(s: State, remote: seq<seq<Byte>>, f: nat, i: nat) {
    f < |remote| && Running(s, Chunk(f, i)) && !Healthy(s, remote, Chunk(f, i))
  }

  /** What settling its requests leaves of a file: the chunks of hopeless ones are given back. */
  ghost predicate FileSettled(s: State, s': State, remote: seq<seq<Byte>>, f: nat) {
    && f < |s.files| == |s'.files| && s'.files[f].status == s.files[f].status && s'.files[f].lost == s.files[f].lost
    && |s'.files[f].flags| == |s.files[f].flags|
    && forall i :: 0 <= i < |s.files[f].flags| ==>
         s'.files[f].flags[i] == (s.files[f].flags[i] && !Hopeless(s, remote, f, i))
  }

  /** One request settled as its bytes allow. */
  lemma SettleOne(o: State, remote: seq<seq<Byte>>, s: State, c: Chunk) returns (s': State)
    requires Sound(s, remote) && Leads(o, remote, s) && Running(s, c) && c.file < |remote|
    ensures Leads(o, remote, s') && Sound(s', remote) && Settled(s, s', c, Healthy(s, remote, c))
  {
    if Healthy(s, remote, c) {
      s' := SettleKeep(o, remote, s, c);
    } else {
      s' := SettleDrop(o, remote, s, c);
    }
  }

  lemma RunsOfFile(s: State, remote: seq<seq<Byte>>, f: nat, i: nat)
    requires Inv(s, remote) && f < |s.files| && i in s.files[f].requests
    ensures f < |remote| && Running(s, Chunk(f, i))
  {
    assert FileOk(s.files[f], remote[f]);
  }

  lemma SettledHopeless(s: State, s': State, remote: seq<seq<Byte>>, c: Chunk, f: nat, i: nat)
    requires Inv(s, remote) && Running(s, c) && c.file < |remote| && f < |s.files|
    requires Settled(s, s', c, Healthy(s, remote, c))
    ensures Hopeless(s', remote, f, i) <==> Hopeless(s, remote, f, i) && Chunk(f, i) != c
  {
    assert FileOk(s.files[c.file], remote[c.file]);
  }

  lemma SettleMore(s: State, s1: State, s2: State, remote: seq<seq<Byte>>, c: Chunk, f: nat)
    requires Inv(s, remote) && Running(s, c) && c.file < |remote|
    requires Settled(s, s1, c, Healthy(s, remote, c)) && FileSettled(s1, s2, remote, f)
    ensures FileSettled(s, s2, remote, f)
  {
    assert FileOk(s.files[c.file], remote[c.file]);
    forall i | 0 <= i < |s.files[f].flags|
      ensures s2.files[f].flags[i] == (s.files[f].flags[i] && !Hopeless(s, remote, f, i))
    {
      SettledHopeless(s, s1, remote, c, f, i);
    }
  }

  /** All requests of all files settle. */
  lemma {:induction false} SettleAll(o: State, remote: seq<seq<Byte>>, s: State, f: nat) returns (s': State)
    requires Sound(s, remote) && Leads(o, remote, s) && f < |s.files|
    ensures Leads(o, remote, s') && Sound(s', remote) && NoRequests(s') && FileSettled(s, s', remote, f)
    decreases RequestCount(s.files)
  {
    if g, i :| 0 <= g < |s.files| && i in s.files[g].requests {
      var c := Chunk(g, i);
      RunsOfFile(s, remote, g, i);
      var s1 := SettleOne(o, remote, s, c);
      OneFewer(s.files, g, s1.files[g], i);
      s' := SettleAll(o, remote, s1, f);
      SettleMore(s, s1, s', remote, c, f);
    } else {
      s' := s;
      forall g | 0 <= g < |s.files|
        ensures s.files[g].requests == map[]
      {
        assert forall i :: i !in s.files[g].requests;
      }
    }
  }

  // ---------------------------------------------------------------- draining the buffers

  function SlotCount(bufs: seq<BufState>): nat {
    if bufs == [] then 0 else SlotCount(bufs[..|bufs| - 1]) + |bufs[|bufs| - 1].slots|
  }

  lemma {:induction false} SlotCountSet(bufs: seq<BufState>, b: nat, buf: BufState)
    requires b < |bufs|
    ensures SlotCount(bufs[b := buf]) == SlotCount(bufs) - |bufs[b].slots| + |buf.slots|
  {
    var n := |bufs| - 1;
    if b == n {
      assert bufs[b := buf][..n] == bufs[..n];
    } else {
      SlotCountSet(bufs[..n], b, buf);
      assert bufs[b := buf][..n] == bufs[..n][b := buf];
    }
  }

  /** Moving and writing buffers leaves a file's course alone. */
  ghost predicate SameCourse(file: FileState, file': FileState) {
    && file'.status == file.status && file'.flags == file.flags
    && file'.requests == file.requests && file'.lost == file.lost
  }

  ghost predicate SameCourses(s: State, s': State) {
    |s'.files| == |s.files| && forall f :: 0 <= f < |s.files| ==> SameCourse(s.files[f], s'.files[f])
  }

  /** No request runs, all buffers are empty and with the main thread. */
  ghost predicate Quiet(s: State) {
    NoRequests(s) && s.inIO == [] && s.ioDone == [] && forall b :: 0 <= b < |s.bufs| ==> s.bufs[b].slots == []
  }

  /** Without requests every chunk in a buffer has arrived. */
  lemma AllArrived(s: State, remote: seq<seq<Byte>>, b: nat)
    requires Inv(s, remote) && NoRequests(s) && b < |s.bufs|
    ensures AllDownloaded(s.bufs[b].slots)
  {
    assert BufOk(s, remote, s.bufs[b]);
    forall k | 0 <= k < |s.bufs[b].slots|
      ensures s.bufs[b].slots[k].downloaded == s.bufs[b].slots[k].len
    {
      assert SlotOk(s, remote, s.bufs[b].mem, s.bufs[b].slots[k]);
    }
  }

  lemma InBounds(s: State)
    requires PlacesOk(s)
    ensures |s.bufs| == 4
    ensures forall b :: b in s.pool || b in s.inIO || b in s.ioDone ==> b < 4
  {
    var all := multiset(s.pool) + multiset(s.inIO) + multiset(s.ioDone);
    forall b | b in s.pool || b in s.inIO || b in s.ioDone
      ensures b < 4
    {
      assert b in all;
    }
  }

  lemma AllInPool(s: State)
    requires PlacesOk(s) && s.inIO == [] && s.ioDone == []
    ensures |s.pool| == 4 && forall b: nat :: b < 4 ==> b in s.pool
  {
    assert multiset(s.pool) == multiset{0, 1, 2, 3};
    assert |multiset(s.pool)| == |s.pool|;
  }

  /** The I/O thread writes the next chunk of its buffer. */
  lemma WriteNext(o: State, remote: seq<seq<Byte>>, s: State) returns (s': State)
    requires Sound(s, remote) && Leads(o, remote, s) && s.inIO != [] && s.inIO[0] < |s.bufs|
    requires s.bufs[s.inIO[0]].slots != []
    ensures Leads(o, remote, s') && Sound(s', remote) && SameCourses(s, s')
    ensures SlotCount(s'.bufs) < SlotCount(s.bufs)
  {
    var b := s.inIO[0];
    HeldIsOwed(s, remote, b, 0);
    var slot := s.bufs[b].slots[0];
    var junk := seq(slot.len, _ => 0);
    assert FileOk(s.files[slot.file], remote[slot.file]);
    s' := LeadsNext(o, remote, s, Save(true, junk));
    SavedCourses(s, remote, junk);
  }

  lemma SavedCourses(s: State, remote: seq<seq<Byte>>, junk: seq<Byte>)
    requires Enabled(s, remote, Save(true, junk))
    ensures var s' := ExecSave(s, true, junk);
      SameCourses(s, s') && SlotCount(s'.bufs) < SlotCount(s.bufs)
  {
    SlotCountSet(s.bufs, s.inIO[0], ExecSave(s, true, junk).bufs[s.inIO[0]]);
  }

  /** A buffer with arrived chunks goes to the I/O thread, which writes the first of them. */
  lemma HandOver(o: State, remote: seq<seq<Byte>>, s: State, j: nat) returns (s': State)
    requires Sound(s, remote) && Leads(o, remote, s) && NoRequests(s) && s.inIO == []
    requires j < |s.pool| && s.pool[j] < |s.bufs| && s.bufs[s.pool[j]].slots != []
    ensures Leads(o, remote, s') && Sound(s', remote) && SameCourses(s, s')
    ensures SlotCount(s'.bufs) < SlotCount(s.bufs)
  {
    AllArrived(s, remote, s.pool[j]);
    var s1 := LeadsNext(o, remote, s, Transfer(j));
    assert s1.inIO == [s.pool[j]];
    s' := WriteNext(o, remote, s1);
  }

  lemma CourseStays(s: State, s1: State, s2: State)
    requires SameCourses(s, s1) && SameCourses(s1, s2)
    ensures SameCourses(s, s2) && (NoRequests(s) ==> NoRequests(s1))
  {}

  /** A buffer that was written goes back. */
  lemma GiveBack(o: State, remote: seq<seq<Byte>>, s: State) returns (s': State)
    requires Sound(s, remote) && Leads(o, remote, s) && s.inIO != [] && s.inIO[0] < |s.bufs|
    requires s.bufs[s.inIO[0]].slots == []
    ensures Leads(o, remote, s') && Sound(s', remote) && SameCourses(s, s') && s'.bufs == s.bufs
    ensures QueueWeight(s') < QueueWeight(s)
  {
    s' := LeadsNext(o, remote, s, Release);
  }

  /** A buffer that came back joins the pool. */
  lemma TakeBack(o: State, remote: seq<seq<Byte>>, s: State) returns (s': State)
    requires Sound(s, remote) && Leads(o, remote, s) && s.inIO == [] && s.ioDone != [] && s.ioDone[0] < |s.bufs|
    ensures Leads(o, remote, s') && Sound(s', remote) && SameCourses(s, s')
    ensures SlotCount(s'.bufs) <= SlotCount(s.bufs) && QueueWeight(s') < QueueWeight(s)
  {
    s' := LeadsNext(o, remote, s, Recycle);
    SlotCountSet(s.bufs, s.ioDone[0], s'.bufs[s.ioDone[0]]);
  }

  function QueueWeight(s: State): nat {
    2 * |s.inIO| + |s.ioDone|
  }

  /** One step towards a quiet state. */
  lemma DrainStep(o: State, remote: seq<seq<Byte>>, s: State) returns (s': State)
    requires Sound(s, remote) && Leads(o, remote, s) && NoRequests(s) && !Quiet(s)
    ensures Leads(o, remote, s') && Sound(s', remote) && SameCourses(s, s')
    ensures SlotCount(s'.bufs) < SlotCount(s.bufs)
            || (SlotCount(s'.bufs) == SlotCount(s.bufs) && QueueWeight(s') < QueueWeight(s))
  {
    InBounds(s);
    if s.inIO != [] {
      assert s.inIO[0] in s.inIO;
      if s.bufs[s.inIO[0]].slots != [] {
        s' := WriteNext(o, remote, s);
      } else {
        s' := GiveBack(o, remote, s);
      }
    } else if s.ioDone != [] {
      assert s.ioDone[0] in s.ioDone;
      s' := TakeBack(o, remote, s);
    } else {
      var b :| 0 <= b < |s.bufs| && s.bufs[b].slots != [];
      AllInPool(s);
      var j :| 0 <= j < |s.pool| && s.pool[j] == b;
      s' := HandOver(o, remote, s, j);
    }
  }

  /** All chunks in buffers are written, and all buffers come back. */
  lemma {:induction false} Drain(o: State, remote: seq<seq<Byte>>, s: State) returns (s': State)
    requires Sound(s, remote) && Leads(o, remote, s) && NoRequests(s)
    ensures Leads(o, remote, s') && Sound(s', remote) && Quiet(s') && SameCourses(s, s')
    decreases SlotCount(s.bufs), QueueWeight(s)
  {
    if Quiet(s) {
      s' := s;
    } else {
      var s1 := DrainStep(o, remote, s);
      CourseStays(s, s1, s1);
      s' := Drain(o, remote, s1);
      CourseStays(s, s1, s');
    }
  }

  // ---------------------------------------------------------------- finishing

  /** The loop of Tick can go on until all chunks are flagged. */
  ghost predicate TailOpen(flags: seq<bool>) {
    AllSet(flags) || !TailSet(flags)
  }

  /** A file from which nothing is lost and of which nothing is under way. */
  ghost predicate CanGoOn(s: State, f: nat) {
    && Quiet(s) && f < |s.files| && s.files[f].status == DownloadChunk && s.files[f].lost == {}
    && TailOpen(s.files[f].flags)
  }

  /** In a quiet state every flagged chunk is complete unless it was lost. */
  lemma FlaggedIsDone(s: State, remote: seq<seq<Byte>>, f: nat, i: nat)
    requires Inv(s, remote) && Quiet(s) && f < |s.files| && s.files[f].lost == {} && i < |s.files[f].flags|
    ensures |s.files[f].done| == |s.files[f].flags| && s.files[f].done[i] == s.files[f].flags[i]
  {
    assert FileOk(s.files[f], remote[f]);
    var c := Chunk(f, i);
    assert (x => Owed(s, x))(c) <==> HeldIn(KeySets(s), c);
  }

  /** In a quiet state the counter is full exactly when all chunks are flagged. */
  lemma FullIffAllFlagged(s: State, remote: seq<seq<Byte>>, f: nat)
    requires Inv(s, remote) && CanGoOn(s, f)
    ensures f < |remote| && |s.files[f].content| == |remote[f]| > 0 && |s.files[f].flags| == ChunkNum(|remote[f]|)
    ensures s.files[f].downloadSize == |s.files[f].content| <==> AllSet(s.files[f].flags)
  {
    forall i | 0 <= i < |s.files[f].flags| {
      FlaggedIsDone(s, remote, f, i);
    }
    assert FileOk(s.files[f], remote[f]);
    FullIffAllDone(s.files[f].done, |remote[f]|);
  }

  lemma PoolIsOk(s: State)
    requires PlacesOk(s)
    ensures PoolOk(s)
  {
    InBounds(s);
    assert forall j :: 0 <= j < |s.pool| ==> s.pool[j] in s.pool;
  }

  lemma LoopNext(o: State, remote: seq<seq<Byte>>, s: State, f: nat) returns (s': State)
    requires Sound(s, remote) && Leads(o, remote, s) && f < |s.files| && s.files[f].status == DownloadChunk
    ensures PoolOk(s) && s' == ExecLoop(s, f) && Leads(o, remote, s') && Sound(s', remote)
  {
    PoolIsOk(s);
    s' := LeadsNext(o, remote, s, Loop(f));
  }

  lemma FinishAll(o: State, remote: seq<seq<Byte>>, s: State, f: nat) returns (s': State)
    requires Sound(s, remote) && Leads(o, remote, s) && CanGoOn(s, f) && AllSet(s.files[f].flags)
    ensures Leads(o, remote, s') && Sound(s', remote) && f < |s'.files| && s'.files[f].status == Finished
  {
    FullIffAllFlagged(s, remote, f);
    s' := LoopNext(o, remote, s, f);
    LoopFinishes(s, f);
  }

  lemma EmptyHasRoom(s: State, len: nat)
    requires PoolOk(s) && |s.pool| > 0 && s.bufs[s.pool[0]].slots == [] && len <= CAP
    ensures FirstRoom(s, 0, len) == 0
  {
    assert Fits([], CAP, len);
  }

  lemma LengthFits(file: FileState, i: nat)
    requires |file.content| > 0 && i < ChunkNum(|file.content|)
    ensures NextLen(file, i) <= CAP
  {}

  lemma NoneRequested(m: map<nat, seq<Byte>>, i: nat)
    requires m == map[]
    ensures m[i := []] == map[i := []]
  {}

  lemma LeastStarts(s: State, remote: seq<seq<Byte>>, f: nat)
    requires Inv(s, remote) && CanGoOn(s, f) && !AllSet(s.files[f].flags) && PoolOk(s)
    ensures var i := LeastClear(s.files[f].flags);
      var len := NextLen(s.files[f], i);
      && i < |s.files[f].flags| && |s.pool| > 0 && Fits(s.bufs[s.pool[0]].slots, CAP, len)
      && ExecLoop(s, f) == Started(s, f, i, s.pool[0], len)
  {
    var file := s.files[f];
    var i := LeastClear(file.flags);
    FullIffAllFlagged(s, remote, f);
    AllInPool(s);
    LengthFits(file, i);
    EmptyHasRoom(s, NextLen(file, i));
    LoopStarts(s, f, i, 0);
  }

  lemma StartedFile(s: State, f: nat, i: nat, b: nat, len: nat)
    requires f < |s.files| && i < |s.files[f].flags| && b < |s.bufs| && Fits(s.bufs[b].slots, CAP, len)
    requires s.files[f].requests == map[]
    ensures var s' := Started(s, f, i, b, len);
      && |s'.files| == |s.files|
      && s'.files[f] == s.files[f].(flags := s.files[f].flags[i := true], requests := map[i := []])
  {
    NoneRequested(s.files[f].requests, i);
  }

  /** The loop of Tick starts the least unflagged chunk. */
  lemma StartLeast(o: State, remote: seq<seq<Byte>>, s: State, f: nat) returns (s': State)
    requires Sound(s, remote) && Leads(o, remote, s) && CanGoOn(s, f) && !AllSet(s.files[f].flags)
    ensures Leads(o, remote, s') && Sound(s', remote) && |s'.files| == |s.files|
    ensures var i := LeastClear(s.files[f].flags);
      && i < |s.files[f].flags|
      && s'.files[f] == s.files[f].(flags := s.files[f].flags[i := true], requests := map[i := []])
  {
    s' := LoopNext(o, remote, s, f);
    LeastStarts(s, remote, f);
    var i := LeastClear(s.files[f].flags);
    StartedFile(s, f, i, s.pool[0], NextLen(s.files[f], i));
  }

  /** Flagging the least unflagged chunk leaves the loop able to go on. */
  lemma StillOpen(flags: seq<bool>)
    requires TailOpen(flags) && !AllSet(flags)
    ensures var i := LeastClear(flags);
      i < |flags| && TailOpen(flags[i := true]) && LeastClear(flags[i := true]) > i
  {
    var i := LeastClear(flags);
    if q :| i < q < |flags| && !flags[q] {
      var p :| TailStart(|flags|) <= p < |flags| && !flags[p];
      var last := if p > i then p else q;
      assert !flags[i := true][last];
    } else {
      assert AllSet(flags[i := true]);
    }
  }

  /** A fresh request is not hopeless. */
  lemma FreshIsHealthy(s: State, remote: seq<seq<Byte>>, f: nat, i: nat)
    requires Inv(s, remote) && f < |s.files| && s.files[f].requests == map[i := []]
    ensures forall x :: !Hopeless(s, remote, f, x)
  {
    assert FileOk(s.files[f], remote[f]);
    assert i in s.files[f].requests;
    assert First(i) <= Second(i, |remote[f]|);
  }

  /** One more chunk of the file. */
  lemma OneMore(o: State, remote: seq<seq<Byte>>, s: State, f: nat) returns (s': State)
    requires Sound(s, remote) && Leads(o, remote, s) && CanGoOn(s, f) && !AllSet(s.files[f].flags)
    ensures Leads(o, remote, s') && Sound(s', remote) && CanGoOn(s', f)
    ensures |s'.files[f].flags| == |s.files[f].flags| && LeastClear(s'.files[f].flags) > LeastClear(s.files[f].flags)
  {
    StillOpen(s.files[f].flags);
    var i := LeastClear(s.files[f].flags);
    var s1 := StartLeast(o, remote, s, f);
    FreshIsHealthy(s1, remote, f, i);
    var s2 := SettleAll(o, remote, s1, f);
    s' := Drain(o, remote, s2);
    assert s2.files[f].flags == s1.files[f].flags;
    assert SameCourse(s2.files[f], s'.files[f]);
  }

  lemma {:induction false} GoOn(o: State, remote: seq<seq<Byte>>, s: State, f: nat) returns (s': State)
    requires Sound(s, remote) && Leads(o, remote, s) && CanGoOn(s, f)
    ensures Leads(o, remote, s') && Sound(s', remote) && f < |s'.files| && s'.files[f].status == Finished
    decreases |s.files[f].flags| - LeastClear(s.files[f].flags)
  {
    if AllSet(s.files[f].flags) {
      s' := FinishAll(o, remote, s, f);
    } else {
      var s1 := OneMore(o, remote, s, f);
      s' := GoOn(o, remote, s1, f);
    }
  }

  // ---------------------------------------------------------------- files that can finish

  /** What the buffers hold of the last flag byte's chunks was reported as fully downloaded. */
  ghost predicate TailArrived(s: State, f: nat) {
    f < |s.files| && forall b, slot :: 0 <= b < |s.bufs| && slot in s.bufs[b].slots ==>
      Arrived(slot, f, TailStart(|s.files[f].flags|))
  }

  predicate Arrived(slot: Slot, f: nat, tail: nat) {
    slot.file == f && tail <= slot.index ==> slot.downloaded == slot.len
  }

  /** Chunk x is unflagged, or its request can only fail. */
  ghost predicate Missing(s: State, remote: seq<seq<Byte>>, f: nat, x: nat) {
    f < |s.files| && x < |s.files[f].flags| && (!s.files[f].flags[x] || Hopeless(s, remote, f, x))
  }

  /** The last flag byte is full for good, and chunk x is missing. */
  ghost predicate Stuck(s: State, remote: seq<seq<Byte>>, f: nat, x: nat) {
    && f < |s.files| && s.files[f].status == DownloadChunk && TailSet(s.files[f].flags)
    && TailArrived(s, f) && Missing(s, remote, f, x)
  }

  /** From a state in which the loop can go on once the requests have settled. */
  lemma SettleAndGoOn(o: State, remote: seq<seq<Byte>>, s: State, f: nat) returns (s': State)
    requires Sound(s, remote) && Leads(o, remote, s) && f < |s.files|
    requires s.files[f].status == DownloadChunk && s.files[f].lost == {}
    requires !TailSet(s.files[f].flags) || forall x :: !Missing(s, remote, f, x)
    ensures Leads(o, remote, s') && f < |s'.files| && s'.files[f].status == Finished
  {
    var s1 := SettleAll(o, remote, s, f);
    SettledOpen(s, s1, remote, f);
    var s2 := Drain(o, remote, s1);
    assert SameCourse(s1.files[f], s2.files[f]);
    s' := GoOn(o, remote, s2, f);
  }

  lemma SettledOpen(s: State, s1: State, remote: seq<seq<Byte>>, f: nat)
    requires FileSettled(s, s1, remote, f)
    requires !TailSet(s.files[f].flags) || forall x :: !Missing(s, remote, f, x)
    ensures TailOpen(s1.files[f].flags)
  {
    var flags, flags' := s.files[f].flags, s1.files[f].flags;
    if !TailSet(flags) {
      var p :| TailStart(|flags|) <= p < |flags| && !flags[p];
      assert !flags'[p];
    } else {
      forall x | 0 <= x < |flags'|
        ensures flags'[x]
      {
        assert !Missing(s, remote, f, x);
      }
    }
  }

  lemma TailCleared(flags: seq<bool>, i: nat)
    requires TailStart(|flags|) <= i < |flags|
    ensures !TailSet(flags[i := false])
  {
    assert !flags[i := false][i];
  }

  /** A request for a chunk of the last flag byte that was not reported full can fail, which opens
      the byte. */
  lemma OpenTail(o: State, remote: seq<seq<Byte>>, s: State, f: nat) returns (s': State)
    requires Sound(s, remote) && Leads(o, remote, s) && f < |s.files| && !TailArrived(s, f)
    ensures Leads(o, remote, s') && Sound(s', remote) && |s'.files| == |s.files|
    ensures s'.files[f].status == s.files[f].status && s'.files[f].lost == s.files[f].lost
    ensures !TailSet(s'.files[f].flags)
  {
    var b, slot :| 0 <= b < |s.bufs| && slot in s.bufs[b].slots && !Arrived(slot, f, TailStart(|s.files[f].flags|));
    var k :| 0 <= k < |s.bufs[b].slots| && s.bufs[b].slots[k] == slot;
    HeldIsOwed(s, remote, b, k);
    RunsOfFile(s, remote, f, slot.index);
    s' := Reject(o, remote, s, Chunk(f, slot.index), b, k);
    TailCleared(s.files[f].flags, slot.index);
  }

  lemma NothingMissing(s: State, remote: seq<seq<Byte>>, f: nat)
    requires f < |s.files| && s.files[f].status == DownloadChunk && TailSet(s.files[f].flags)
    requires TailArrived(s, f) && forall x :: !Stuck(s, remote, f, x)
    ensures forall x :: !Missing(s, remote, f, x)
  {
    forall x
      ensures !Missing(s, remote, f, x)
    {
      assert !Stuck(s, remote, f, x);
    }
  }

  lemma UnflaggedIsOpen(n: nat)
    requires n > 0
    ensures !TailSet(seq(n, _ => false))
  {
    assert !seq(n, _ => false)[n - 1];
  }

  lemma HeadOpens(s: State, remote: seq<seq<Byte>>, f: nat)
    requires f < |s.files| && f < |remote| && |remote[f]| > 0
    ensures var s' := ExecHead(s, remote, f);
      && |s'.files| == |s.files| && s'.files[f].status == DownloadChunk && s'.files[f].lost == {}
      && !TailSet(s'.files[f].flags)
  {
    UnflaggedIsOpen(ChunkNum(|remote[f]|));
  }

  /** The answer to HEAD lets a waiting file begin. */
  lemma Begin(o: State, remote: seq<seq<Byte>>, s: State, f: nat) returns (s': State)
    requires Sound(s, remote) && Leads(o, remote, s) && f < |s.files| && |remote[f]| > 0
    requires s.files[f].status == Waiting
    ensures Leads(o, remote, s') && Sound(s', remote) && |s'.files| == |s.files|
    ensures s'.files[f].status == DownloadChunk && s'.files[f].lost == {} && !TailSet(s'.files[f].flags)
  {
    HeadOpens(s, remote, f);
    s' := LeadsNext(o, remote, s, Head(f));
  }

  /** A file from which nothing was lost and which is not stuck can be finished. */
  lemma CanFinish(s: State, remote: seq<seq<Byte>>, f: nat) returns (s': State)
    requires Sound(s, remote) && f < |s.files| && |remote[f]| > 0
    requires s.files[f].lost == {} && forall x :: !Stuck(s, remote, f, x)
    ensures Leads(s, remote, s') && f < |s'.files| && s'.files[f].status == Finished
  {
    LeadsItself(s, remote);
    match s.files[f].status
    case Finished =>
      s' := s;
    case Waiting =>
      var s1 := Begin(s, remote, s, f);
      s' := SettleAndGoOn(s, remote, s1, f);
    case DownloadChunk =>
      if TailSet(s.files[f].flags) && !TailArrived(s, f) {
        var s1 := OpenTail(s, remote, s, f);
        s' := SettleAndGoOn(s, remote, s1, f);
      } else {
        if TailSet(s.files[f].flags) {
          NothingMissing(s, remote, f);
        }
        s' := SettleAndGoOn(s, remote, s, f);
      }
  }
}
