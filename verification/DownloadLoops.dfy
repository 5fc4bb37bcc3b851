/** What one pass of the DownloadChunk loop of Tick does, and how many requests it lets run. */
module DownloadLoops {
  import opened Bytes
  import opened Chunks
  import opened DownloadBuffers
  import opened Downloads

  // ---------------------------------------------------------------- room

  /** The buffer at pool position k has a free place of len bytes. */
  ghost predicate RoomAt(s: State, k: nat, len: nat) {
    k < |s.pool| && s.pool[k] < |s.bufs| && exists c: nat :: Free(s.bufs[s.pool[k]].slots, CAP, c, len)
  }

  /** The chunk goes to the first buffer of the pool that has a place for it. */
  lemma FirstRoomIs(s: State, remote: seq<seq<Byte>>, len: nat)
    requires Inv(s, remote) && PoolOk(s) && len > 0
    ensures var j := FirstRoom(s, 0, len);
      && (j < |s.pool| ==> RoomAt(s, j, len))
      && forall k: nat :: k < j ==> !RoomAt(s, k, len)
  {
    forall k: nat | k < |s.pool|
      ensures Fits(s.bufs[s.pool[k]].slots, CAP, len) <==> RoomAt(s, k, len)
    {
      assert BufOk(s, remote, s.bufs[s.pool[k]]);
      FitsIffSomePlaceFree(s.bufs[s.pool[k]].slots, CAP, len);
    }
  }

  // ---------------------------------------------------------------- one pass

  /** The size of chunk i of a file of the remote length. */
  function SizeOf(r: seq<Byte>, i: nat): nat {
    if First(i) <= Second(i, |r|) then Second(i, |r|) - First(i) else 0
  }

  lemma NextSize(s: State, remote: seq<seq<Byte>>, f: nat, i: nat)
    requires Inv(s, remote) && f < |s.files| && s.files[f].status != Waiting && i < |s.files[f].flags|
    ensures f < |remote| && NextLen(s.files[f], i) == SizeOf(remote[f], i) > 0
  {
    assert FileOk(s.files[f], remote[f]);
    NextLenIsSize(s, remote, f, i);
  }

  /** All chunks are complete exactly when the counter is full. */
  lemma AllDoneIff(s: State, remote: seq<seq<Byte>>, f: nat)
    requires Inv(s, remote) && f < |s.files| && s.files[f].status != Waiting
    ensures s.files[f].downloadSize == |s.files[f].content| <==> AllSet(s.files[f].done)
    ensures AllSet(s.files[f].done) ==> AllSet(s.files[f].flags)
  {
    assert FileOk(s.files[f], remote[f]);
    FullIffAllDone(s.files[f].done, |remote[f]|);
  }

  lemma OpenTailHasLeast(flags: seq<bool>)
    requires !TailSet(flags)
    ensures LeastClear(flags) < |flags|
  {}

  /** A file whose chunks are all complete is finished, and nothing else happens. */
  lemma LoopFinishesIff(s: State, remote: seq<seq<Byte>>, f: nat)
    requires Inv(s, remote) && Enabled(s, remote, Loop(f))
    ensures var s' := ExecLoop(s, f);
      && |s'.files| == |s.files|
      && (s'.files[f].status == Finished <==> AllSet(s.files[f].done))
      && (AllSet(s.files[f].done) ==> s' == s.(files := s.files[f := s.files[f].(status := Finished)]))
  {
    AllDoneIff(s, remote, f);
    if AllSet(s.files[f].done) {
      assert TailSet(s.files[f].flags);
    } else {
      assert PutFile(s, f, s.files[f]) == s;
      StartNextCases(s, f);
    }
  }

  lemma UnfinishedLoop(s: State, remote: seq<seq<Byte>>, f: nat)
    requires Inv(s, remote) && Enabled(s, remote, Loop(f)) && !AllSet(s.files[f].done)
    ensures ExecLoop(s, f) == StartNext(s, f)
  {
    AllDoneIff(s, remote, f);
    assert PutFile(s, f, s.files[f]) == s;
  }

  lemma StartedDiffers(s: State, f: nat, i: nat, b: nat, len: nat)
    requires f < |s.files| && i < |s.files[f].flags| && !s.files[f].flags[i]
    requires b < |s.bufs| && Fits(s.bufs[b].slots, CAP, len)
    ensures Started(s, f, i, b, len) != s
  {
    assert Started(s, f, i, b, len).files[f].flags[i];
  }

  /** With chunk i the least unflagged one: how the pass goes. */
  lemma StartNextGoes(s: State, f: nat, i: nat, len: nat, j: nat)
    requires f < |s.files| && PoolOk(s) && i == LeastClear(s.files[f].flags)
    requires len == NextLen(s.files[f], i) && j == FirstRoom(s, 0, len)
    ensures !TailSet(s.files[f].flags) && |s.files[f].requests| < 3 && j < |s.pool| ==>
              i < |s.files[f].flags| && StartNext(s, f) == Started(s, f, i, s.pool[j], len) != s
    ensures TailSet(s.files[f].flags) || |s.files[f].requests| >= 3 || j == |s.pool| ==> StartNext(s, f) == s
  {
    if !TailSet(s.files[f].flags) {
      OpenTailHasLeast(s.files[f].flags);
      RevertUndoesFlag(s, f, i);
      if j < |s.pool| {
        StartedDiffers(s, f, i, s.pool[j], len);
      }
    }
  }

  ghost predicate MayStart(s: State, r: seq<Byte>, f: nat)
    requires f < |s.files|
  {
    && !TailSet(s.files[f].flags) && |s.files[f].requests| < 3
    && exists k: nat :: RoomAt(s, k, SizeOf(r, LeastClear(s.files[f].flags)))
  }

  /** A pass over an unfinished file starts a chunk if and only if a chunk of the last flag byte is
      unflagged, fewer than three requests run, and some buffer of the pool has a free place for the
      least unflagged chunk. */
  lemma StartsIffTailOpen(s: State, remote: seq<seq<Byte>>, f: nat)
    requires Inv(s, remote) && Enabled(s, remote, Loop(f)) && !AllSet(s.files[f].done) && f < |remote|
    ensures ExecLoop(s, f) != s <==> MayStart(s, remote[f], f)
  {
    UnfinishedLoop(s, remote, f);
    if !TailSet(s.files[f].flags) {
      OpenTailHasLeast(s.files[f].flags);
      var i := LeastClear(s.files[f].flags);
      NextSize(s, remote, f, i);
      FirstRoomIs(s, remote, NextLen(s.files[f], i));
    }
    var i := LeastClear(s.files[f].flags);
    StartNextGoes(s, f, i, NextLen(s.files[f], i), FirstRoom(s, 0, NextLen(s.files[f], i)));
  }

  /** What it starts: the least unflagged chunk, flagged and requested, at a free place of the first
      buffer that has one; all else stays. */
  lemma StartsLeastInFirst(s: State, remote: seq<seq<Byte>>, f: nat) returns (k: nat)
    requires Inv(s, remote) && Enabled(s, remote, Loop(f)) && !AllSet(s.files[f].done) && ExecLoop(s, f) != s
    ensures var i := LeastClear(s.files[f].flags);
      && i < |s.files[f].flags| && f < |remote|
      && var len := SizeOf(remote[f], i);
      && len > 0 && RoomAt(s, k, len) && (forall j: nat :: j < k ==> !RoomAt(s, j, len))
      && Fits(s.bufs[s.pool[k]].slots, CAP, len) && ExecLoop(s, f) == Started(s, f, i, s.pool[k], len)
  {
    UnfinishedLoop(s, remote, f);
    var i := LeastClear(s.files[f].flags);
    k := FirstRoom(s, 0, NextLen(s.files[f], i));
    StartNextGoes(s, f, i, NextLen(s.files[f], i), k);
    OpenTailHasLeast(s.files[f].flags);
    NextSize(s, remote, f, i);
    FirstRoomIs(s, remote, NextLen(s.files[f], i));
  }

  // ---------------------------------------------------------------- the limit of requests

  ghost predicate FewRequests(s: State) {
    forall f :: 0 <= f < |s.files| ==> |s.files[f].requests| <= 3
  }

  lemma MoreRequests(m: map<nat, seq<Byte>>, i: nat, body: seq<Byte>)
    ensures |m[i := body]| <= |m| + 1
    ensures i in m ==> |m[i := body]| == |m|
  {
    assert m[i := body].Keys == m.Keys + {i};
    if i in m {
      assert m[i := body].Keys == m.Keys;
    }
  }

  lemma FewerRequests(m: map<nat, seq<Byte>>, i: nat)
    ensures |m - {i}| <= |m|
  {
    assert (m - {i}).Keys == m.Keys - {i};
    assert m.Keys == (m.Keys - {i}) + (m.Keys * {i});
  }

  lemma LoopKeepsFew(s: State, f: nat)
    requires f < |s.files| && PoolOk(s) && |s.files[f].requests| <= 3
    ensures var s' := ExecLoop(s, f);
      |s'.files| == |s.files| && s'.files == s.files[f := s'.files[f]] && |s'.files[f].requests| <= 3
  {
    var file0 := s.files[f];
    var file := if file0.downloadSize == |file0.content| then file0.(status := Finished) else file0;
    var s1 := PutFile(s, f, file);
    var i := LeastClear(file.flags);
    StartNextGoes(s1, f, i, NextLen(file, i), FirstRoom(s1, 0, NextLen(file, i)));
    MoreRequests(file.requests, i, []);
  }

  lemma StepKeepsFew(s: State, remote: seq<seq<Byte>>, e: Event)
    requires FewRequests(s) && Enabled(s, remote, e)
    ensures FewRequests(Exec(s, remote, e))
  {
    match e
    case Loop(f) => LoopKeepsFew(s, f);
    case Receive(c, b, k, data) =>
      MoreRequests(s.files[c.file].requests, c.index, s.files[c.file].requests[c.index] + data);
    case Complete(c, b, ok) => FewerRequests(s.files[c.file].requests, c.index);
    case _ =>
  }

  /** In every run at most three requests of a file run at a time. */
  lemma EveryRunFewRequests(states: seq<State>, remote: seq<seq<Byte>>, es: seq<Event>, i: nat, f: nat)
    requires IsRun(states, remote, es) && i <= |es| && f < |states[i].files|
    ensures |states[i].files[f].requests| <= 3
  {
    RunKeepsFew(states, remote, es, i);
  }

  lemma {:induction false} RunKeepsFew(states: seq<State>, remote: seq<seq<Byte>>, es: seq<Event>, i: nat)
    requires IsRun(states, remote, es) && i <= |es|
    ensures FewRequests(states[i])
  {
    if i > 0 {
      RunKeepsFew(states, remote, es, i - 1);
      assert Steps(states[i - 1], remote, es[i - 1], states[i]);
      StepKeepsFew(states[i - 1], remote, es[i - 1]);
    }
  }
}
