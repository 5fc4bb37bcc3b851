/** The two loops that move buffers between the main thread and the I/O thread, as code over the
    downloader's fields; each pass is a sequence of the events of the downloader. */
module DownloadThreads {
  import opened Bytes
  import opened ResponseBodies
  import opened Options
  import opened Chunks
  import opened DownloadBuffers
  import opened Downloads
  import opened DownloadWrites

  lemma HandedOver(done: seq<nat>, waiting: seq<nat>)
    requires waiting != []
    ensures done + [waiting[0]] + waiting[1..] == done + waiting
  {}

  /** What the loops rely on: buffers are named by valid indexes, and chunks lie inside them. */
  ghost predicate WellFormed(s: State) {
    && Named(s.pool, |s.bufs|) && Named(s.inIO, |s.bufs|) && Named(s.ioDone, |s.bufs|)
    && forall b :: 0 <= b < |s.bufs| ==> SlotsNamed(s.files, s.bufs[b])
  }

  ghost predicate Named(queue: seq<nat>, n: nat) {
    forall j :: 0 <= j < |queue| ==> queue[j] < n
  }

  ghost predicate SlotsNamed(files: seq<FileState>, buf: BufState) {
    forall k :: 0 <= k < |buf.slots| ==> SlotNamed(files, |buf.mem|, buf.slots[k])
  }

  predicate SlotNamed(files: seq<FileState>, cap: nat, slot: Slot) {
    slot.file < |files| && slot.index < |files[slot.file].done| && slot.cursor + slot.len <= cap
  }

  lemma QueuesNamed(a: seq<nat>, b: seq<nat>, c: seq<nat>)
    requires multiset(a) + multiset(b) + multiset(c) == multiset{0, 1, 2, 3}
    ensures Named(a, 4) && Named(b, 4) && Named(c, 4)
  {
    var all := multiset(a) + multiset(b) + multiset(c);
    forall x | x in multiset(a) || x in multiset(b) || x in multiset(c)
      ensures x < 4
    {
      assert all[x] == multiset(a)[x] + multiset(b)[x] + multiset(c)[x];
      assert x in all && x in multiset{0, 1, 2, 3};
    }
    assert forall j :: 0 <= j < |a| ==> a[j] in multiset(a);
    assert forall j :: 0 <= j < |b| ==> b[j] in multiset(b);
    assert forall j :: 0 <= j < |c| ==> c[j] in multiset(c);
  }

  /** The invariant of the downloader provides what the loops rely on. */
  lemma InvIsWellFormed(s: State, remote: seq<seq<Byte>>)
    requires Inv(s, remote)
    ensures WellFormed(s)
  {
    QueuesNamed(s.pool, s.inIO, s.ioDone);
    forall b | 0 <= b < |s.bufs|
      ensures SlotsNamed(s.files, s.bufs[b])
    {
      assert BufOk(s, remote, s.bufs[b]);
      forall k | 0 <= k < |s.bufs[b].slots|
        ensures SlotNamed(s.files, |s.bufs[b].mem|, s.bufs[b].slots[k])
      {
        var slot := s.bufs[b].slots[k];
        assert SlotOk(s, remote, s.bufs[b].mem, slot);
        assert FileOk(s.files[slot.file], remote[slot.file]);
      }
    }
  }

  // ---------------------------------------------------------------- what the events do

  predicate Full(slots: seq<Slot>) {
    slots != [] && AllDownloaded(slots)
  }

  ghost predicate NoneFull(s: State, n: nat) {
    forall j :: 0 <= j < n && j < |s.pool| && s.pool[j] < |s.bufs| ==> !Full(s.bufs[s.pool[j]].slots)
  }

  function Transferred(s: State, j: nat): State
    requires j < |s.pool|
  {
    s.(inIO := s.inIO + [s.pool[j]], pool := s.pool[..j] + s.pool[j + 1..])
  }

  lemma TransferStep(s: State, remote: seq<seq<Byte>>, j: nat)
    requires WellFormed(s) && j < |s.pool| && Full(s.bufs[s.pool[j]].slots) && NoneFull(s, j)
    ensures Enabled(s, remote, Transfer(j)) && Exec(s, remote, Transfer(j)) == Transferred(s, j)
    ensures WellFormed(Transferred(s, j)) && NoneFull(Transferred(s, j), j)
  {}

  function Recycled(s: State): State
    requires s.ioDone != [] && s.ioDone[0] < |s.bufs|
  {
    var b := s.ioDone[0];
    s.(bufs := s.bufs[b := s.bufs[b].(slots := [])], ioDone := s.ioDone[1..], pool := s.pool + [b])
  }

  lemma RecycleStep(s: State, remote: seq<seq<Byte>>)
    requires WellFormed(s) && s.ioDone != [] && NoneFull(s, |s.pool|)
    ensures Enabled(s, remote, Recycle) && Exec(s, remote, Recycle) == Recycled(s)
    ensures WellFormed(Recycled(s)) && NoneFull(Recycled(s), |Recycled(s).pool|)
  {}

  function SaveOf(answer: Answer, len: nat): Event {
    match answer
    case Written => Save(true, seq(len, _ => 0))
    case Failed(left) => Save(false, seq(len, j requires 0 <= j => left(j)))
  }

  function Saved(s: State, answer: Answer): State
    requires s.inIO != [] && s.inIO[0] < |s.bufs| && s.bufs[s.inIO[0]].slots != []
    requires SlotNamed(s.files, |s.bufs[s.inIO[0]].mem|, s.bufs[s.inIO[0]].slots[0])
  {
    var b := s.inIO[0];
    var buf := s.bufs[b];
    var slot := buf.slots[0];
    s.(bufs := s.bufs[b := buf.(slots := buf.slots[1..])],
       files := s.files[slot.file :=
         AfterSave(s.files[slot.file], slot, buf.mem[slot.cursor..slot.cursor + slot.len], answer)])
  }

  lemma SaveStep(s: State, remote: seq<seq<Byte>>, answer: Answer)
    requires WellFormed(s) && s.inIO != [] && s.bufs[s.inIO[0]].slots != []
    ensures var b := s.inIO[0];
      && SlotNamed(s.files, |s.bufs[b].mem|, s.bufs[b].slots[0])
      && var e := SaveOf(answer, s.bufs[b].slots[0].len);
      && Enabled(s, remote, e) && Exec(s, remote, e) == Saved(s, answer)
  {
    assert SlotsNamed(s.files, s.bufs[s.inIO[0]]);
  }

  lemma SaveKeepsForm(s: State, answer: Answer)
    requires WellFormed(s) && s.inIO != [] && s.bufs[s.inIO[0]].slots != []
    requires SlotNamed(s.files, |s.bufs[s.inIO[0]].mem|, s.bufs[s.inIO[0]].slots[0])
    ensures WellFormed(Saved(s, answer))
  {
    var s' := Saved(s, answer);
    forall b | 0 <= b < |s'.bufs|
      ensures SlotsNamed(s'.files, s'.bufs[b])
    {
      assert SlotsNamed(s.files, s.bufs[b]);
    }
  }

  function Released(s: State): State
    requires s.inIO != []
  {
    s.(inIO := s.inIO[1..], ioDone := s.ioDone + [s.inIO[0]])
  }

  lemma ReleaseStep(s: State, remote: seq<seq<Byte>>)
    requires WellFormed(s) && s.inIO != [] && s.bufs[s.inIO[0]].slots == []
    ensures Enabled(s, remote, Release) && Exec(s, remote, Release) == Released(s) && WellFormed(Released(s))
  {}

  lemma SaveFollows(start: State, remote: seq<seq<Byte>>, es: seq<Event>, s: State, answer: Answer)
    returns (more: seq<Event>)
    requires Follow(start, remote, es) == Some(s) && WellFormed(s) && s.inIO != [] && s.bufs[s.inIO[0]].slots != []
    ensures SlotNamed(s.files, |s.bufs[s.inIO[0]].mem|, s.bufs[s.inIO[0]].slots[0])
    ensures Follow(start, remote, more) == Some(Saved(s, answer))
  {
    SaveStep(s, remote, answer);
    var e := SaveOf(answer, s.bufs[s.inIO[0]].slots[0].len);
    FollowSnoc(start, remote, es, s, e);
    more := es + [e];
  }

  lemma ReleaseFollows(start: State, remote: seq<seq<Byte>>, es: seq<Event>, s: State)
    requires Follow(start, remote, es) == Some(s) && WellFormed(s) && s.inIO != [] && s.bufs[s.inIO[0]].slots == []
    ensures Follow(start, remote, es + [Release]) == Some(Released(s)) && WellFormed(Released(s))
  {
    ReleaseStep(s, remote);
    FollowSnoc(start, remote, es, s, Release);
  }

  /** The state once the first k chunks of the buffer the I/O thread works on were written. */
  function Midway(s: State, answers: nat -> Answer, writes: nat, k: nat): State
    requires s.inIO != [] && s.inIO[0] < |s.bufs| && k <= |s.bufs[s.inIO[0]].slots|
  {
    var buf := s.bufs[s.inIO[0]];
    s.(files := AfterWrites(s.files, PendingOf(buf)[..k], answers, writes),
       bufs := s.bufs[s.inIO[0] := buf.(slots := buf.slots[k..])])
  }

  lemma MidwayFirst(s: State, answers: nat -> Answer, writes: nat)
    requires s.inIO != [] && s.inIO[0] < |s.bufs|
    ensures Midway(s, answers, writes, 0) == s
  {}

  lemma MidwayNext(s: State, answers: nat -> Answer, writes: nat, k: nat)
    requires s.inIO != [] && s.inIO[0] < |s.bufs| && k < |s.bufs[s.inIO[0]].slots|
    requires var m, b := Midway(s, answers, writes, k), s.inIO[0];
      SlotNamed(m.files, |m.bufs[b].mem|, m.bufs[b].slots[0])
    ensures Saved(Midway(s, answers, writes, k), answers(writes + k)) == Midway(s, answers, writes, k + 1)
  {
    var ps, buf := PendingOf(s.bufs[s.inIO[0]]), s.bufs[s.inIO[0]];
    assert ps[..k + 1][..k] == ps[..k];
    assert buf.slots[k..][1..] == buf.slots[k + 1..] && buf.slots[k..][0] == buf.slots[k];
  }

  /** mid(k), ..., mid(n) are the states between the writes of the n chunks of buffer b. */
  ghost predicate CourseAt(mid: nat -> State, b: nat, n: nat, answers: nat -> Answer, writes: nat, k: nat) {
    && mid(k).inIO != [] && mid(k).inIO[0] == b < |mid(k).bufs| && k + |mid(k).bufs[b].slots| == n
    && (k < n && WellFormed(mid(k)) ==>
          && SlotNamed(mid(k).files, |mid(k).bufs[b].mem|, mid(k).bufs[b].slots[0])
          && Saved(mid(k), answers(writes + k)) == mid(k + 1))
  }

  ghost predicate Course(mid: nat -> State, b: nat, n: nat, answers: nat -> Answer, writes: nat) {
    forall k: nat :: k <= n ==> CourseAt(mid, b, n, answers, writes, k)
  }

  lemma CourseNext(mid: nat -> State, b: nat, n: nat, answers: nat -> Answer, writes: nat, k: nat, s: State,
                   answer: Answer)
    requires Course(mid, b, n, answers, writes) && k < n && s == mid(k) && WellFormed(s)
    requires answer == answers(writes + k)
    ensures s.inIO != [] && s.inIO[0] == b < |s.bufs| && s.bufs[b].slots != []
    ensures SlotNamed(s.files, |s.bufs[b].mem|, s.bufs[b].slots[0]) && Saved(s, answer) == mid(k + 1)
    ensures WellFormed(mid(k + 1))
  {
    assert CourseAt(mid, b, n, answers, writes, k);
    SaveKeepsForm(s, answer);
  }

  lemma NextFollows(start: State, remote: seq<seq<Byte>>, es: seq<Event>, s: State, answer: Answer, next: State)
    returns (more: seq<Event>)
    requires Follow(start, remote, es) == Some(s) && WellFormed(s) && s.inIO != [] && s.bufs[s.inIO[0]].slots != []
    requires SlotNamed(s.files, |s.bufs[s.inIO[0]].mem|, s.bufs[s.inIO[0]].slots[0]) && Saved(s, answer) == next
    ensures Follow(start, remote, more) == Some(next)
  {
    more := SaveFollows(start, remote, es, s, answer);
  }

  lemma {:induction false} CourseFollows(mid: nat -> State, start: State, remote: seq<seq<Byte>>, b: nat, n: nat,
                                         answers: nat -> Answer, writes: nat, k: nat) returns (es: seq<Event>)
    requires Course(mid, b, n, answers, writes) && k <= n && start == mid(0) && WellFormed(start)
    ensures WellFormed(mid(k)) && Follow(start, remote, es) == Some(mid(k))
  {
    if k == 0 {
      es := [];
    } else {
      var before := CourseFollows(mid, start, remote, b, n, answers, writes, k - 1);
      CourseNext(mid, b, n, answers, writes, k - 1, mid(k - 1), answers(writes + (k - 1)));
      es := NextFollows(start, remote, before, mid(k - 1), answers(writes + (k - 1)), mid(k));
    }
  }

  lemma CourseHere(mid: nat -> State, b: nat, n: nat, answers: nat -> Answer, writes: nat, k: nat, s: State)
    requires Course(mid, b, n, answers, writes) && k <= n && s == mid(k)
    ensures s.inIO != [] && s.inIO[0] == b < |s.bufs| && k + |s.bufs[b].slots| == n
  {
    assert CourseAt(mid, b, n, answers, writes, k);
  }

  lemma MidwayCourse(s: State, mid: nat -> State, answers: nat -> Answer, writes: nat)
    requires s.inIO != [] && s.inIO[0] < |s.bufs|
    requires forall k: nat :: k <= |s.bufs[s.inIO[0]].slots| ==> mid(k) == Midway(s, answers, writes, k)
    ensures Course(mid, s.inIO[0], |s.bufs[s.inIO[0]].slots|, answers, writes)
  {
    var b, n := s.inIO[0], |s.bufs[s.inIO[0]].slots|;
    forall k: nat | k <= n
      ensures CourseAt(mid, b, n, answers, writes, k)
    {
      if k < n && WellFormed(mid(k)) {
        assert SlotsNamed(mid(k).files, mid(k).bufs[b]);
        MidwayNext(s, answers, writes, k);
      }
    }
  }

  lemma MidwayLast(s: State, answers: nat -> Answer, writes: nat)
    requires s.inIO != [] && s.inIO[0] < |s.bufs|
    ensures var buf := s.bufs[s.inIO[0]];
      Midway(s, answers, writes, |buf.slots|) ==
      s.(files := AfterWrites(s.files, PendingOf(buf), answers, writes), bufs := s.bufs[s.inIO[0] := buf.(slots := [])])
  {
    var ps, slots := PendingOf(s.bufs[s.inIO[0]]), s.bufs[s.inIO[0]].slots;
    assert ps[..|ps|] == ps && slots[|slots|..] == [];
  }

  /** The state once the chunks of the first buffers of the queue were written and those buffers
      handed back: `done` are these chunks. */
  ghost predicate PartDone(start: State, s: State, answers: nat -> Answer, done: seq<Pending>) {
    && s.ioDone + s.inIO == start.ioDone + start.inIO
    && Queue(start.bufs, start.inIO) == done + Queue(s.bufs, s.inIO)
    && s.files == AfterWrites(start.files, done, answers, 0)
  }

  lemma PartDoneNext(start: State, s: State, s': State, answers: nat -> Answer, done: seq<Pending>)
    requires PartDone(start, s, answers, done) && s.inIO != [] && s.inIO[0] < |s.bufs|
    requires s'.inIO == s.inIO[1..] && s'.ioDone == s.ioDone + [s.inIO[0]]
    requires s'.bufs == s.bufs[s.inIO[0] := s.bufs[s.inIO[0]].(slots := [])]
    requires s'.files == AfterWrites(s.files, PendingOf(s.bufs[s.inIO[0]]), answers, |done|)
    ensures PartDone(start, s', answers, done + PendingOf(s.bufs[s.inIO[0]]))
  {
    HandedOver(s.ioDone, s.inIO);
    QueueMore(Queue(start.bufs, start.inIO), done, s.bufs, s.inIO);
    FilesMore(start.files, s.files, s'.files, done, PendingOf(s.bufs[s.inIO[0]]), answers);
  }

  lemma PartDoneFirst(start: State, answers: nat -> Answer)
    ensures PartDone(start, start, answers, [])
  {}

  lemma PartDoneLast(start: State, s: State, answers: nat -> Answer, done: seq<Pending>)
    requires PartDone(start, s, answers, done) && s.inIO == []
    ensures s.files == AfterWrites(start.files, Queue(start.bufs, start.inIO), answers, 0)
    ensures s.ioDone == start.ioDone + start.inIO
  {
    assert done + Queue(s.bufs, s.inIO) == done;
  }

  lemma FilesMore(files: seq<FileState>, mid: seq<FileState>, files': seq<FileState>, done: seq<Pending>,
                  ps: seq<Pending>, answers: nat -> Answer)
    requires mid == AfterWrites(files, done, answers, 0) && files' == AfterWrites(mid, ps, answers, |done|)
    ensures files' == AfterWrites(files, done + ps, answers, 0)
  {
    AfterMore(files, done, ps, answers, 0);
  }

  lemma QueueMore(all: seq<Pending>, done: seq<Pending>, bufs: seq<BufState>, waiting: seq<nat>)
    requires waiting != [] && waiting[0] < |bufs| && all == done + Queue(bufs, waiting)
    ensures var b := waiting[0];
      all == (done + PendingOf(bufs[b])) + Queue(bufs[b := bufs[b].(slots := [])], waiting[1..])
  {
    QueueHead(bufs, waiting);
    var b := waiting[0];
    var ps, rest := PendingOf(bufs[b]), Queue(bufs[b := bufs[b].(slots := [])], waiting[1..]);
    assert done + (ps + rest) == (done + ps) + rest;
  }

  lemma QueueHead(bufs: seq<BufState>, waiting: seq<nat>)
    requires waiting != [] && waiting[0] < |bufs|
    ensures var b := waiting[0];
      Queue(bufs, waiting) == PendingOf(bufs[b]) + Queue(bufs[b := bufs[b].(slots := [])], waiting[1..])
  {}

  // ---------------------------------------------------------------- the loops

  class Downloader {
    var files: seq<FileState>
    var bufs: seq<BufState>
    var pool: seq<nat>
    var inIO: seq<nat>
    var ioDone: seq<nat>

    ghost function Now(): State
      reads this
    {
      State(files, bufs, pool, inIO, ioDone)
    }

    /** Buffers whose chunks have all arrived go to the I/O thread; then every buffer that came
        back is emptied and joins the pool. */
    method TransferBuf(ghost remote: seq<seq<Byte>>) returns (ghost es: seq<Event>)
      requires WellFormed(Now())
      modifies this
      ensures WellFormed(Now()) && Follow(old(Now()), remote, es) == Some(Now())
      ensures ioDone == [] && NoneFull(Now(), |pool|)
    {
      es := [];
      var j := 0;
      while j < |pool|
        invariant j <= |pool| && WellFormed(Now()) && NoneFull(Now(), j)
        invariant Follow(old(Now()), remote, es) == Some(Now())
        decreases |pool| - j
      {
        var full := IsFull(bufs[pool[j]].slots);
        if full {
          ghost var s := Now();
          TransferStep(s, remote, j);
          FollowSnoc(old(Now()), remote, es, s, Transfer(j));
          inIO := inIO + [pool[j]];
          pool := pool[..j] + pool[j + 1..];
          es := es + [Transfer(j)];
          assert Now() == Transferred(s, j);
        } else {
          j := j + 1;
        }
      }
      while ioDone != []
        invariant WellFormed(Now()) && NoneFull(Now(), |pool|)
        invariant Follow(old(Now()), remote, es) == Some(Now())
        decreases |ioDone|
      {
        ghost var s := Now();
        RecycleStep(s, remote);
        FollowSnoc(old(Now()), remote, es, s, Recycle);
        var b := ioDone[0];
        ioDone := ioDone[1..];
        bufs := bufs[b := bufs[b].(slots := [])];
        pool := pool + [b];
        es := es + [Recycle];
        assert Now() == Recycled(s);
      }
    }

    /** Writes a chunk's bytes at its place in the file; tells whether all were written. */
    method SaveDate(slot: Slot, mem: seq<Byte>, answer: Answer) returns (ok: bool)
      requires SlotNamed(files, |mem|, slot)
      modifies this`files
      ensures ok == answer.Written?
      ensures files == old(files)[slot.file := old(files)[slot.file].(content :=
        Overwrite(old(files)[slot.file].content, First(slot.index),
                  if ok then mem[slot.cursor..slot.cursor + slot.len]
                  else seq(slot.len, j requires 0 <= j => answer.left(j))))]
    {
      var file := files[slot.file];
      match answer
      case Written =>
        var data := mem[slot.cursor..slot.cursor + slot.len];
        files := files[slot.file := file.(content := Overwrite(file.content, First(slot.index), data))];
        return true;
      case Failed(left) =>
        var junk := seq(slot.len, j requires 0 <= j => left(j));
        files := files[slot.file := file.(content := Overwrite(file.content, First(slot.index), junk))];
        return false;
    }

    method CompleteChunk(slot: Slot)
      requires slot.file < |files| && slot.index < |files[slot.file].done|
      modifies this`files
      ensures var file := old(files)[slot.file];
        files == old(files)[slot.file :=
          file.(done := file.done[slot.index := true], downloadSize := file.downloadSize + slot.len)]
    {
      var file := files[slot.file];
      files := files[slot.file :=
        file.(done := file.done[slot.index := true], downloadSize := file.downloadSize + slot.len)];
    }

    /** Writes out the next chunk of the buffer the I/O thread works on. */
    method SaveNext(answer: Answer)
      requires WellFormed(Now()) && inIO != [] && bufs[inIO[0]].slots != []
      requires SlotNamed(files, |bufs[inIO[0]].mem|, bufs[inIO[0]].slots[0])
      modifies this`files, this`bufs
      ensures Now() == Saved(old(Now()), answer)
    {
      ghost var s := Now();
      var b := inIO[0];
      var slot := bufs[b].slots[0];
      var ok := SaveDate(slot, bufs[b].mem, answer);
      if ok {
        CompleteChunk(slot);
      } else {
        files := files[slot.file := files[slot.file].(lost := files[slot.file].lost + {slot.index})];
      }
      bufs := bufs[b := bufs[b].(slots := bufs[b].slots[1..])];
    }

    /** Writes out the chunks of the buffer the I/O thread works on and hands it back; the writes
        are answered by `answers` from `writes` on. */
    method SaveBuffer(ghost remote: seq<seq<Byte>>, answers: nat -> Answer, writes: nat)
      returns (after: nat, ghost es: seq<Event>)
      requires WellFormed(Now()) && inIO != []
      modifies this`files, this`bufs, this`inIO, this`ioDone
      ensures WellFormed(Now()) && Follow(old(Now()), remote, es) == Some(Now())
      ensures inIO == old(inIO)[1..] && ioDone == old(ioDone) + [old(inIO)[0]]
      ensures after == writes + |old(bufs[inIO[0]].slots)|
      ensures bufs == old(bufs)[old(inIO)[0] := old(bufs[inIO[0]]).(slots := [])]
      ensures files == AfterWrites(old(files), PendingOf(old(bufs[inIO[0]])), answers, writes)
    {
      ghost var start, n := Now(), |bufs[inIO[0]].slots|;
      ghost var mid := k requires 0 <= k => if k <= n then Midway(start, answers, writes, k) else start;
      MidwayFirst(start, answers, writes);
      MidwayCourse(start, mid, answers, writes);
      es := CourseFollows(mid, start, remote, inIO[0], n, answers, writes, n);
      after := SaveChunks(answers, writes, n, mid);
      MidwayLast(start, answers, writes);
      ghost var s := Now();
      ReleaseFollows(start, remote, es, s);
      es := es + [Release];
      ioDone := ioDone + [inIO[0]];
      inIO := inIO[1..];
      assert Now() == Released(s);
    }

    /** The loop over the chunks of one buffer; `mid` are the states between the writes. */
    method SaveChunks(answers: nat -> Answer, writes: nat, ghost n: nat, ghost mid: nat -> State) returns (after: nat)
      requires WellFormed(Now()) && Now() == mid(0) && inIO != [] && Course(mid, inIO[0], n, answers, writes)
      modifies this`files, this`bufs
      ensures Now() == mid(n) && after == writes + n
    {
      after := writes;
      var b := inIO[0];
      ghost var k := 0;
      CourseHere(mid, b, n, answers, writes, 0, Now());
      while bufs[b].slots != []
        invariant WellFormed(Now()) && k <= n && after == writes + k && Now() == mid(k)
        invariant inIO != [] && inIO[0] == b < |bufs| && k + |bufs[b].slots| == n
        decreases n - k
        modifies this`files, this`bufs
      {
        CourseNext(mid, b, n, answers, writes, k, Now(), answers(after));
        SaveNext(answers(after));
        k, after := k + 1, after + 1;
        CourseHere(mid, b, n, answers, writes, k, Now());
      }
    }

    /** Writes out every buffer that waits for it; `answers` is what the writes answer in turn.  The
        k-th waiting chunk is complete, its bytes in its range, exactly when answers(k) says that it
        was written, and else lost; nothing else changes in the files. */
    method TickIO(ghost remote: seq<seq<Byte>>, answers: nat -> Answer) returns (ghost es: seq<Event>)
      requires WellFormed(Now())
      modifies this`files, this`bufs, this`inIO, this`ioDone
      ensures WellFormed(Now()) && Follow(old(Now()), remote, es) == Some(Now())
      ensures inIO == [] && ioDone == old(ioDone) + old(inIO)
      ensures files == AfterWrites(old(files), Queue(old(bufs), old(inIO)), answers, 0)
      ensures old(Inv(Now(), remote)) ==> AllEnded(old(files), files, Queue(old(bufs), old(inIO)), answers)
    {
      ghost var start := Now();
      if Inv(start, remote) {
        WritesEnd(start, remote, answers);
      }
      es := [];
      var writes := 0;
      ghost var done: seq<Pending> := [];
      PartDoneFirst(start, answers);
      while inIO != []
        invariant WellFormed(Now()) && Follow(start, remote, es) == Some(Now())
        invariant |done| == writes && PartDone(start, Now(), answers, done)
        decreases |inIO|
      {
        ghost var before, more := Now(), [];
        writes, more := SaveBuffer(remote, answers, writes);
        FollowConcat(start, remote, es, before, more);
        es := es + more;
        PartDoneNext(start, before, Now(), answers, done);
        done := done + PendingOf(before.bufs[before.inIO[0]]);
      }
      PartDoneLast(start, Now(), answers, done);
    }

    /** All chunks of a non-empty list have arrived. */
    method IsFull(slots: seq<Slot>) returns (full: bool)
      ensures full <==> Full(slots)
    {
      var k := 0;
      while k < |slots|
        invariant k <= |slots| && forall i :: 0 <= i < k ==> slots[i].downloaded == slots[i].len
      {
        if slots[k].downloaded != slots[k].len {
          break;
        }
        k := k + 1;
      }
      full := k == |slots| && |slots| > 0;
    }
  }
}
