/** What a sequence of chunk writes leaves in the files, answer by answer. */
module DownloadWrites {
  import opened Bytes
  import opened ResponseBodies
  import opened Chunks
  import opened DownloadBuffers
  import opened Downloads

  /** What the file system answers to a write: success, or what a failed write left behind. */
  datatype Answer = Written | Failed(left: nat -> Byte)

  /** A chunk that waits to be written, with the bytes of its region. */
  datatype Pending = Pending(slot: Slot, data: seq<Byte>)

  function Region(mem: seq<Byte>, slot: Slot): seq<Byte> {
    if slot.cursor + slot.len <= |mem| then mem[slot.cursor..slot.cursor + slot.len] else []
  }

  function PendingOf(buf: BufState): (ps: seq<Pending>)
    ensures |ps| == |buf.slots|
  {
    seq(|buf.slots|, k requires 0 <= k < |buf.slots| => Pending(buf.slots[k], Region(buf.mem, buf.slots[k])))
  }

  /** The chunks that wait in the named buffers, buffer by buffer. */
  function Queue(bufs: seq<BufState>, waiting: seq<nat>): seq<Pending>
    decreases |waiting|
  {
    if waiting == [] || waiting[0] >= |bufs| then []
    else
      var b := waiting[0];
      PendingOf(bufs[b]) + Queue(bufs[b := bufs[b].(slots := [])], waiting[1..])
  }

  /** The file after SaveDate on a chunk, and CompleteChunk when that succeeds. */
  function AfterSave(file: FileState, slot: Slot, data: seq<Byte>, answer: Answer): FileState
    requires slot.index < |file.done|
  {
    match answer
    case Written =>
      file.(content := Overwrite(file.content, First(slot.index), data),
            done := file.done[slot.index := true], downloadSize := file.downloadSize + slot.len)
    case Failed(left) =>
      file.(content := Overwrite(file.content, First(slot.index), seq(slot.len, j requires 0 <= j => left(j))),
            lost := file.lost + {slot.index})
  }

  predicate InFiles(files: seq<FileState>, slot: Slot) {
    slot.file < |files| && slot.index < |files[slot.file].done|
  }

  function OneWritten(files: seq<FileState>, p: Pending, answer: Answer): (r: seq<FileState>)
    ensures |r| == |files|
  {
    if InFiles(files, p.slot) then
      files[p.slot.file := AfterSave(files[p.slot.file], p.slot, p.data, answer)]
    else files
  }

  predicate SameShape(file: FileState, file': FileState) {
    |file'.done| == |file.done| && |file'.content| == |file.content|
  }

  /** `write` for each pending chunk in turn, the first of which is answered by answers(from). */
  function InTurn(write: (seq<FileState>, Pending, Answer) -> seq<FileState>, files: seq<FileState>, ps: seq<Pending>,
                  answers: nat -> Answer, from: nat): seq<FileState>
  {
    if ps == [] then files
    else
      var n := |ps| - 1;
      write(InTurn(write, files, ps[..n], answers, from), ps[n], answers(from + n))
  }

  /** The files after the writes. */
  function AfterWrites(files: seq<FileState>, ps: seq<Pending>, answers: nat -> Answer, from: nat): (r: seq<FileState>)
    ensures |r| == |files|
  {
    InTurnLength(OneWritten, files, ps, answers, from);
    InTurn(OneWritten, files, ps, answers, from)
  }

  lemma {:induction false} InTurnLength(write: (seq<FileState>, Pending, Answer) -> seq<FileState>,
                                        files: seq<FileState>, ps: seq<Pending>, answers: nat -> Answer, from: nat)
    requires forall fs, p, a :: |write(fs, p, a)| == |fs|
    ensures |InTurn(write, files, ps, answers, from)| == |files|
  {
    if ps != [] {
      InTurnLength(write, files, ps[..|ps| - 1], answers, from);
    }
  }

  lemma FrontOfBoth(a: seq<Pending>, b: seq<Pending>)
    requires b != []
    ensures (a + b)[..|a + b| - 1] == a + b[..|b| - 1] && (a + b)[|a + b| - 1] == b[|b| - 1]
  {}

  lemma {:induction false} InTurnMore(write: (seq<FileState>, Pending, Answer) -> seq<FileState>, files: seq<FileState>,
                                      a: seq<Pending>, b: seq<Pending>, answers: nat -> Answer, from: nat)
    ensures InTurn(write, files, a + b, answers, from) ==
            InTurn(write, InTurn(write, files, a, answers, from), b, answers, from + |a|)
  {
    if b == [] {
      assert a + b == a;
    } else {
      InTurnMore(write, files, a, b[..|b| - 1], answers, from);
      FrontOfBoth(a, b);
    }
  }

  lemma AfterMore(files: seq<FileState>, a: seq<Pending>, b: seq<Pending>, answers: nat -> Answer, from: nat)
    ensures AfterWrites(files, a + b, answers, from) ==
            AfterWrites(AfterWrites(files, a, answers, from), b, answers, from + |a|)
  {
    InTurnMore(OneWritten, files, a, b, answers, from);
  }

  /** The last write comes after the others. */
  lemma AfterLast(files: seq<FileState>, ps: seq<Pending>, answers: nat -> Answer, from: nat, n: nat)
    requires |ps| == n + 1
    ensures AfterWrites(files, ps, answers, from) ==
            OneWritten(AfterWrites(files, ps[..n], answers, from), ps[n], answers(from + n))
  {}

  // ---------------------------------------------------------------- what the writes do

  /** A chunk that waits: its place is inside its file, and it is neither complete nor lost. */
  ghost predicate Waits(files: seq<FileState>, p: Pending) {
    && InFiles(files, p.slot) && |p.data| == p.slot.len <= CHUNK_SIZE
    && First(p.slot.index) + p.slot.len <= |files[p.slot.file].content|
    && !files[p.slot.file].done[p.slot.index] && p.slot.index !in files[p.slot.file].lost
  }

  /** A successful write completes the chunk and puts its bytes in its range; a failed one loses it. */
  ghost predicate Outcome(files: seq<FileState>, p: Pending, answer: Answer) {
    InFiles(files, p.slot) && First(p.slot.index) + p.slot.len <= |files[p.slot.file].content| &&
    var file, i := files[p.slot.file], p.slot.index;
    if answer.Written? then
      file.done[i] && i !in file.lost && file.content[First(i)..First(i) + p.slot.len] == p.data
    else !file.done[i] && i in file.lost
  }

  ghost predicate Distinct(ps: seq<Pending>) {
    forall j, k :: 0 <= j < k < |ps| ==> KeyOf(ps[j].slot) != KeyOf(ps[k].slot)
  }

  /** A chunk and its range in the file are as they were. */
  ghost predicate Untouched(files: seq<FileState>, files': seq<FileState>, f: nat, i: nat) {
    && f < |files| == |files'| && SameShape(files[f], files'[f])
    && (i < |files[f].done| ==> files'[f].done[i] == files[f].done[i])
    && (i in files'[f].lost <==> i in files[f].lost)
    && forall x :: First(i) <= x < First(i) + CHUNK_SIZE && x < |files[f].content| ==>
         files'[f].content[x] == files[f].content[x]
  }

  lemma OneWrittenTouches(files: seq<FileState>, p: Pending, answer: Answer, f: nat, i: nat)
    requires Waits(files, p) && f < |files| && Chunk(f, i) != KeyOf(p.slot)
    ensures Untouched(files, OneWritten(files, p, answer), f, i)
  {
    if f == p.slot.file {
      assert i < p.slot.index ==> First(i) + CHUNK_SIZE <= First(p.slot.index);
      assert p.slot.index < i ==> First(p.slot.index) + CHUNK_SIZE <= First(i);
    }
  }

  lemma OneWrittenOutcome(files: seq<FileState>, p: Pending, answer: Answer)
    requires Waits(files, p)
    ensures Outcome(OneWritten(files, p, answer), p, answer)
  {
    var i := p.slot.index;
    if answer.Written? {
      var after := OneWritten(files, p, answer)[p.slot.file].content;
      assert after[First(i)..First(i) + p.slot.len] == p.data;
    }
  }

  lemma WaitsUntouched(files: seq<FileState>, files': seq<FileState>, p: Pending)
    requires Waits(files, p) && Untouched(files, files', p.slot.file, p.slot.index)
    ensures Waits(files', p)
  {}

  lemma OutcomeUntouched(files: seq<FileState>, files': seq<FileState>, p: Pending, answer: Answer)
    requires p.slot.len <= CHUNK_SIZE && Outcome(files, p, answer)
    requires Untouched(files, files', p.slot.file, p.slot.index)
    ensures Outcome(files', p, answer)
  {
    var f, at := p.slot.file, First(p.slot.index);
    assert files'[f].content[at..at + p.slot.len] == files[f].content[at..at + p.slot.len];
  }

  lemma UntouchedTwice(a: seq<FileState>, b: seq<FileState>, c: seq<FileState>, f: nat, i: nat)
    requires Untouched(a, b, f, i) && Untouched(b, c, f, i)
    ensures Untouched(a, c, f, i)
  {}

  ghost predicate AllWait(files: seq<FileState>, ps: seq<Pending>) {
    Distinct(ps) && forall k :: 0 <= k < |ps| ==> Waits(files, ps[k])
  }

  /** The writes touch no chunk but their own. */
  lemma {:induction false} OthersUntouched(files: seq<FileState>, ps: seq<Pending>, answers: nat -> Answer, from: nat,
                                           f: nat, i: nat)
    requires AllWait(files, ps) && f < |files|
    requires forall k :: 0 <= k < |ps| ==> KeyOf(ps[k].slot) != Chunk(f, i)
    ensures Untouched(files, AfterWrites(files, ps, answers, from), f, i)
    decreases |ps|, 0
  {
    if ps != [] {
      var n := |ps| - 1;
      var before := AfterWrites(files, ps[..n], answers, from);
      OthersUntouched(files, ps[..n], answers, from, f, i);
      StillWaits(files, ps, answers, from, n);
      AfterLast(files, ps, answers, from, n);
      OneWrittenTouches(before, ps[n], answers(from + n), f, i);
      UntouchedTwice(files, before, AfterWrites(files, ps, answers, from), f, i);
    }
  }

  lemma {:induction false} StillWaits(files: seq<FileState>, ps: seq<Pending>, answers: nat -> Answer, from: nat,
                                      n: nat)
    requires AllWait(files, ps) && n < |ps|
    ensures Waits(AfterWrites(files, ps[..n], answers, from), ps[n])
    decreases n, 1
  {
    if n > 0 {
      assert forall k :: 0 <= k < n ==> ps[..n][k] == ps[k];
      OthersUntouched(files, ps[..n], answers, from, ps[n].slot.file, ps[n].slot.index);
      WaitsUntouched(files, AfterWrites(files, ps[..n], answers, from), ps[n]);
    }
  }

  /** Each write has its outcome, and keeps it. */
  lemma {:induction false} WritesOutcome(files: seq<FileState>, ps: seq<Pending>, answers: nat -> Answer, from: nat,
                                         k: nat)
    requires AllWait(files, ps) && k < |ps|
    ensures Outcome(AfterWrites(files, ps, answers, from), ps[k], answers(from + k))
  {
    var n := |ps| - 1;
    var before, after := AfterWrites(files, ps[..n], answers, from), AfterWrites(files, ps, answers, from);
    StillWaits(files, ps, answers, from, n);
    AfterLast(files, ps, answers, from, n);
    if k == n {
      OneWrittenOutcome(before, ps[n], answers(from + n));
    } else {
      WritesOutcome(files, ps[..n], answers, from, k);
      OneWrittenTouches(before, ps[n], answers(from + n), ps[k].slot.file, ps[k].slot.index);
      OutcomeUntouched(before, after, ps[k], answers(from + k));
    }
  }

  // ---------------------------------------------------------------- the chunks of all buffers

  /** Every chunk in a buffer waits, and in no two places. */
  ghost predicate BufsWait(files: seq<FileState>, bufs: seq<BufState>) {
    && (forall b: nat, k: nat :: InBuf(bufs, b, k) ==> Waits(files, PendingOf(bufs[b])[k]))
    && (forall b: nat, k: nat, a: nat, j: nat :: InBuf(bufs, b, k) && InBuf(bufs, a, j) ==> OnePlace(bufs, b, k, a, j))
  }

  predicate OnePlace(bufs: seq<BufState>, b: nat, k: nat, a: nat, j: nat)
    requires InBuf(bufs, b, k) && InBuf(bufs, a, j)
  {
    KeyOf(bufs[b].slots[k]) == KeyOf(bufs[a].slots[j]) ==> a == b && j == k
  }

  predicate InBuf(bufs: seq<BufState>, b: nat, k: nat) {
    b < |bufs| && k < |bufs[b].slots|
  }

  lemma InvBufsWait(s: State, remote: seq<seq<Byte>>)
    requires Inv(s, remote)
    ensures BufsWait(s.files, s.bufs)
  {
    forall b: nat, k: nat | InBuf(s.bufs, b, k)
      ensures Waits(s.files, PendingOf(s.bufs[b])[k])
    {
      HeldIsOwed(s, remote, b, k);
      var slot := s.bufs[b].slots[k];
      assert FileOk(s.files[slot.file], remote[slot.file]);
    }
    forall b: nat, k: nat, a: nat, j: nat | InBuf(s.bufs, b, k) && InBuf(s.bufs, a, j)
      ensures OnePlace(s.bufs, b, k, a, j)
    {
      if KeyOf(s.bufs[b].slots[k]) == KeyOf(s.bufs[a].slots[j]) {
        HeldOnce(s, remote, b, k, a, j);
      }
    }
  }

  /** Where a waiting chunk comes from. */
  lemma {:induction false} FromBuffer(bufs: seq<BufState>, waiting: seq<nat>, i: nat) returns (b: nat, k: nat)
    requires i < |Queue(bufs, waiting)|
    ensures b < |bufs| && k < |bufs[b].slots| && Queue(bufs, waiting)[i] == PendingOf(bufs[b])[k]
    decreases |waiting|
  {
    b := waiting[0];
    if i < |bufs[b].slots| {
      k := i;
    } else {
      b, k := FromBuffer(bufs[b := bufs[b].(slots := [])], waiting[1..], i - |bufs[b].slots|);
    }
  }

  lemma RestWaits(files: seq<FileState>, bufs: seq<BufState>, b: nat)
    requires BufsWait(files, bufs) && b < |bufs|
    ensures BufsWait(files, bufs[b := bufs[b].(slots := [])])
  {
    var rest := bufs[b := bufs[b].(slots := [])];
    assert forall a: nat, k: nat :: InBuf(rest, a, k) ==> InBuf(bufs, a, k) && rest[a] == bufs[a];
    forall c: nat, k: nat, a: nat, j: nat | InBuf(rest, c, k) && InBuf(rest, a, j)
      ensures OnePlace(rest, c, k, a, j)
    {
      assert OnePlace(bufs, c, k, a, j);
    }
  }

  lemma HeadWaits(files: seq<FileState>, bufs: seq<BufState>, b: nat)
    requires BufsWait(files, bufs) && b < |bufs|
    ensures AllWait(files, PendingOf(bufs[b]))
  {
    assert forall k: nat :: k < |bufs[b].slots| ==> InBuf(bufs, b, k);
    forall j: nat, k: nat | j < k < |bufs[b].slots|
      ensures KeyOf(bufs[b].slots[j]) != KeyOf(bufs[b].slots[k])
    {
      assert OnePlace(bufs, b, j, b, k);
    }
  }

  lemma {:induction false} QueueWaits(files: seq<FileState>, bufs: seq<BufState>, waiting: seq<nat>)
    requires BufsWait(files, bufs)
    ensures AllWait(files, Queue(bufs, waiting))
    decreases |waiting|
  {
    if waiting != [] && waiting[0] < |bufs| {
      var b := waiting[0];
      var rest := bufs[b := bufs[b].(slots := [])];
      RestWaits(files, bufs, b);
      QueueWaits(files, rest, waiting[1..]);
      var head, tail := PendingOf(bufs[b]), Queue(rest, waiting[1..]);
      forall j, i | 0 <= j < |head| && 0 <= i < |tail|
        ensures KeyOf(head[j].slot) != KeyOf(tail[i].slot)
      {
        var a, k := FromBuffer(rest, waiting[1..], i);
        assert a != b && rest[a] == bufs[a];
        assert OnePlace(bufs, b, j, a, k);
      }
      HeadWaits(files, bufs, b);
      DistinctBoth(head, tail);
    }
  }

  lemma DistinctBoth(a: seq<Pending>, b: seq<Pending>)
    requires Distinct(a) && Distinct(b)
    requires forall j, i :: 0 <= j < |a| && 0 <= i < |b| ==> KeyOf(a[j].slot) != KeyOf(b[i].slot)
    ensures Distinct(a + b)
  {}

  /** When every write succeeds nothing more is lost. */
  lemma NothingMoreLost(files: seq<FileState>, ps: seq<Pending>, answers: nat -> Answer, f: nat)
    requires AllWait(files, ps) && f < |files| && AllWritten(answers, |ps|)
    ensures AfterWrites(files, ps, answers, 0)[f].lost == files[f].lost
  {
    var after := AfterWrites(files, ps, answers, 0);
    forall i
      ensures i in after[f].lost <==> i in files[f].lost
    {
      if k: nat :| k < |ps| && KeyOf(ps[k].slot) == Chunk(f, i) {
        WritesOutcome(files, ps, answers, 0, k);
        assert Waits(files, ps[k]) && answers(k).Written?;
      } else {
        OthersUntouched(files, ps, answers, 0, f, i);
      }
    }
  }

  /** What writing out the waiting chunks does, for files and buffers as they are in every run. */
  ghost predicate AllEnded(files: seq<FileState>, files': seq<FileState>, ps: seq<Pending>, answers: nat -> Answer) {
    && |files'| == |files|
    && (forall k: nat :: k < |ps| ==> Outcome(files', ps[k], answers(k)))
    && (forall f: nat, i: nat :: f < |files| && !Listed(ps, f, i) ==> Untouched(files, files', f, i))
    && (AllWritten(answers, |ps|) ==> forall f :: 0 <= f < |files| ==> files'[f].lost == files[f].lost)
  }

  ghost predicate AllWritten(answers: nat -> Answer, n: nat) {
    forall k: nat :: k < n ==> answers(k).Written?
  }

  ghost predicate Listed(ps: seq<Pending>, f: nat, i: nat) {
    exists k :: 0 <= k < |ps| && KeyOf(ps[k].slot) == Chunk(f, i)
  }

  lemma WritesEnd(s: State, remote: seq<seq<Byte>>, answers: nat -> Answer)
    requires Inv(s, remote)
    ensures var ps := Queue(s.bufs, s.inIO);
      AllEnded(s.files, AfterWrites(s.files, ps, answers, 0), ps, answers)
  {
    var ps := Queue(s.bufs, s.inIO);
    InvBufsWait(s, remote);
    QueueWaits(s.files, s.bufs, s.inIO);
    forall k: nat | k < |ps| {
      WritesOutcome(s.files, ps, answers, 0, k);
    }
    forall f: nat, i: nat | f < |s.files| && !Listed(ps, f, i) {
      OthersUntouched(s.files, ps, answers, 0, f, i);
    }
    if AllWritten(answers, |ps|) {
      forall f: nat | f < |s.files| {
        NothingMoreLost(s.files, ps, answers, f);
      }
    }
  }
}
