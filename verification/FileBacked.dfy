/** A buffer mapped from a file: writes go to memory and queue the range they touched; TickIO
    sorts and merges the queued ranges in place and flushes each of them once. */
module FileBacked {
  import opened Arithmetic
  import opened Bytes
  import opened Intervals

  const BATCH: nat := 10

  ghost predicate Proper(rs: seq<Range>) {
    forall i :: 0 <= i < |rs| ==> rs[i].first <= rs[i].last
  }

  predicate SortedByFirst(rs: seq<Range>) {
    forall i, j :: 0 <= i <= j < |rs| ==> rs[i].first <= rs[j].first
  }

  /** The byte at p lies in the half-open range. */
  predicate InBytes(r: Range, p: nat) {
    r.first <= p < r.last
  }

  ghost predicate Dirty(rs: seq<Range>, p: nat) {
    exists i :: 0 <= i < |rs| && InBytes(rs[i], p)
  }

  /** Bytes of half-open ranges are the odd positions of closed ones. */
  lemma DirtyIsCovered(rs: seq<Range>, p: nat)
    ensures Dirty(rs, p) <==> Covers(rs, 2 * p + 1)
  {
    if i :| 0 <= i < |rs| && InRange(rs[i], 2 * p + 1) {
      assert InBytes(rs[i], p);
    }
    if i :| 0 <= i < |rs| && InBytes(rs[i], p) {
      assert InRange(rs[i], 2 * p + 1);
    }
  }

  // ---------------------------------------------------------------- merging

  /** One step of the merge: r joins the last range when it starts within or right after it. */
  function Join(m: seq<Range>, r: Range): seq<Range>
    requires m != []
  {
    var n := |m| - 1;
    if r.first <= m[n].last then m[n := Range(m[n].first, Max(m[n].last, r.last))] else m + [r]
  }

  function Merged(rs: seq<Range>): (m: seq<Range>)
    ensures |m| <= |rs| && (rs != [] ==> m != [])
  {
    if |rs| <= 1 then rs else Join(Merged(rs[..|rs| - 1]), rs[|rs| - 1])
  }

  lemma JoinKeeps(m: seq<Range>, r: Range, h: nat)
    requires m != [] && Canonical(m) && r.first <= r.last && m[|m| - 1].first <= r.first
    ensures Canonical(Join(m, r)) && Join(m, r)[|Join(m, r)| - 1].first <= r.first
    ensures Covers(Join(m, r), h) <==> Covers(m, h) || InRange(r, h)
  {
    var n := |m| - 1;
    assert m == m[..n] + [m[n]];
    CoversSnoc(m[..n], m[n], h);
    if r.first <= m[n].last {
      var joined := Range(m[n].first, Max(m[n].last, r.last));
      assert Join(m, r) == m[..n] + [joined];
      CoversSnoc(m[..n], joined, h);
    } else {
      CoversSnoc(m, r, h);
    }
  }

  lemma {:induction false} MergedExact(rs: seq<Range>, h: nat)
    requires Proper(rs) && SortedByFirst(rs)
    ensures Canonical(Merged(rs))
    ensures rs != [] ==> Merged(rs)[|Merged(rs)| - 1].first <= rs[|rs| - 1].first
    ensures Covers(Merged(rs), h) <==> Covers(rs, h)
  {
    if |rs| > 1 {
      var prefix, r := rs[..|rs| - 1], rs[|rs| - 1];
      MergedExact(prefix, h);
      assert rs == prefix + [r];
      CoversSnoc(prefix, r, h);
      JoinKeeps(Merged(prefix), r, h);
    }
  }

  /** Sorting and merging give what inserting the ranges one by one gives, in whatever order the
      ranges came and however the sort breaks ties. */
  lemma MergedSortedIsInsertAll(rs: seq<Range>, entries: seq<Range>)
    requires Proper(entries) && SortedByFirst(rs) && multiset(rs) == multiset(entries)
    ensures Merged(rs) == InsertAll(entries)
  {
    assert forall r :: r in rs <==> r in multiset(rs);
    assert forall r :: r in entries <==> r in multiset(entries);
    assert Proper(rs) by {
      forall i | 0 <= i < |rs|
        ensures rs[i].first <= rs[i].last
      {
        assert rs[i] in entries;
      }
    }
    forall h: nat
      ensures Covers(Merged(rs), h) <==> Covers(entries, h)
    {
      MergedExact(rs, h);
      CoversElements(rs, entries, h);
      CoversElements(entries, rs, h);
    }
    MergedExact(rs, 0);
    CanonicalIsInsertAll(Merged(rs), entries);
  }

  /** Every dirty byte lies in exactly one of the ranges flushed, and no clean byte in any. */
  lemma EachDirtyByteOnce(entries: seq<Range>, p: nat)
    requires Proper(entries)
    ensures var flushed := InsertAll(entries);
      && (Dirty(entries, p) <==> exists i :: 0 <= i < |flushed| && InBytes(flushed[i], p))
      && (forall i, j | 0 <= i < |flushed| && 0 <= j < |flushed| ::
            InBytes(flushed[i], p) && InBytes(flushed[j], p) ==> i == j)
      && (forall i, j :: 0 <= i < j < |flushed| ==> flushed[i].last < flushed[j].first)
  {
    InsertAllExact(entries, 2 * p + 1);
    DirtyIsCovered(entries, p);
    DirtyIsCovered(InsertAll(entries), p);
  }

  function Placed(rs: seq<Range>, k: nat, r: Range): seq<Range>
    requires k <= |rs|
  {
    rs[..k] + [r] + rs[k..]
  }

  lemma PlacedSorts(rs: seq<Range>, k: nat, r: Range)
    requires k <= |rs| && SortedByFirst(rs)
    requires forall j :: 0 <= j < k ==> rs[j].first <= r.first
    requires forall j :: k <= j < |rs| ==> r.first < rs[j].first
    ensures SortedByFirst(Placed(rs, k, r))
  {}

  lemma PlacedElements(rs: seq<Range>, k: nat, r: Range)
    requires k <= |rs|
    ensures multiset(Placed(rs, k, r)) == multiset(rs) + multiset{r}
  {
    assert rs == rs[..k] + rs[k..];
  }

  /** Some sort by first position; nothing more is known of the order. */
  method Sort(rs: seq<Range>) returns (r: seq<Range>)
    ensures multiset(r) == multiset(rs) && SortedByFirst(r)
  {
    r := [];
    var i := 0;
    while i < |rs|
      invariant i <= |rs| && multiset(r) == multiset(rs[..i]) && SortedByFirst(r)
    {
      var k := |r|;
      while k > 0 && rs[i].first < r[k - 1].first
        invariant 0 <= k <= |r| && forall j :: k <= j < |r| ==> rs[i].first < r[j].first
      {
        k := k - 1;
      }
      PlacedSorts(r, k, rs[i]);
      PlacedElements(r, k, rs[i]);
      assert rs[..i + 1] == rs[..i] + [rs[i]];
      r := Placed(r, k, rs[i]);
      i := i + 1;
    }
    assert rs[..i] == rs;
  }

  /** The in-place pass: a[..w + 1] is the merge of the elements read so far. */
  method Coalesce(a: array<Range>) returns (n: nat)
    requires a.Length > 0
    modifies a
    ensures n <= a.Length && a[..n] == Merged(old(a[..]))
  {
    ghost var was := a[..];
    var w, i := 0, 1;
    assert a[..1] == was[..1];
    while i < a.Length
      invariant 0 <= w < i <= a.Length
      invariant a[..w + 1] == Merged(was[..i])
      invariant a[i..] == was[i..]
    {
      assert a[i] == a[i..][0] == was[i..][0] == was[i];
      assert was[..i + 1][..i] == was[..i] && |was[..i + 1]| > 1;
      assert Merged(was[..i + 1]) == Join(a[..w + 1], was[i]);
      ghost var m := a[..w + 1];
      if a[i].first <= a[w].last {
        a[w] := Range(a[w].first, Max(a[w].last, a[i].last));
        assert a[..w + 1] == Join(m, was[i]);
      } else {
        w := w + 1;
        a[w] := a[i];
        assert a[..w + 1] == m + [was[i]];
      }
      assert a[i + 1..] == was[i + 1..] by {
        assert forall k :: i < k < a.Length ==> was[k] == was[i..][k - i];
      }
      i := i + 1;
    }
    assert was[..i] == was;
    n := w + 1;
  }

  // ---------------------------------------------------------------- the buffer

  class FileBackedBuffer {
    const data: array<Octet>
    const backup: array<Octet>
    var dirtyRanges: seq<Range>
    var dirtyRangeCache: seq<Range>

    /** Memory and file agree on every byte that is neither in a queued range nor in r. */
    ghost predicate ValidBut(r: Range)
      reads this, data, backup
    {
      && data != backup && data.Length == backup.Length
      && dirtyRangeCache == []
      && Proper(dirtyRanges)
      && (forall i :: 0 <= i < |dirtyRanges| ==> dirtyRanges[i].last <= data.Length)
      && (forall p: nat :: p < data.Length && !Dirty(dirtyRanges, p) && !InBytes(r, p) ==> data[p] == backup[p])
    }

    /** Memory and file agree on every byte no queued range contains. */
    ghost predicate Valid()
      reads this, data, backup
    {
      ValidBut(Range(0, 0))
    }

    /** Maps a file that already has its size. */
    constructor (file: array<Octet>)
      ensures Valid() && fresh(data) && backup == file && data[..] == file[..] && dirtyRanges == []
    {
      data := new Octet[file.Length](k requires 0 <= k < file.Length reads file => file[k]);
      backup := file;
      dirtyRanges, dirtyRangeCache := [], [];
    }

    method WriteData(target: nat, source: seq<Octet>)
      requires Valid() && target + |source| <= data.Length
      modifies this, data
      ensures Valid() && backup[..] == old(backup[..])
      ensures data[..] == old(data[..target]) + source + old(data[target + |source|..])
      ensures dirtyRanges == old(dirtyRanges) + [Range(target, target + |source|)]
    {
      forall k | 0 <= k < |source| {
        data[target + k] := source[k];
      }
      UpdateDirtyRange(target, target + |source|);
    }

    /** Queuing the range of the bytes just written accounts for them. */
    method UpdateDirtyRange(begin: nat, end: nat)
      requires begin <= end <= data.Length && ValidBut(Range(begin, end))
      modifies this
      ensures Valid() && dirtyRanges == old(dirtyRanges) + [Range(begin, end)]
    {
      dirtyRanges := dirtyRanges + [Range(begin, end)];
      forall p: nat | p < data.Length && !Dirty(dirtyRanges, p)
        ensures data[p] == backup[p]
      {
        DirtySnoc(old(dirtyRanges), Range(begin, end), p);
      }
    }

    method TryDequeueBulk() returns (tmp: seq<Range>)
      modifies this
      ensures |tmp| <= BATCH && old(dirtyRanges) == tmp + dirtyRanges
      ensures |tmp| < BATCH ==> dirtyRanges == []
      ensures dirtyRangeCache == old(dirtyRangeCache)
    {
      var outSize := Min(|dirtyRanges|, BATCH);
      tmp, dirtyRanges := dirtyRanges[..outSize], dirtyRanges[outSize..];
    }

    method Flush(r: Range)
      requires data != backup && r.first <= r.last <= data.Length == backup.Length
      modifies backup
      ensures forall p: nat :: p < backup.Length ==> backup[p] == if InBytes(r, p) then data[p] else old(backup[p])
    {
      forall p | r.first <= p < r.last {
        backup[p] := data[p];
      }
    }

    /** Moves all queued ranges to the cache, a batch at a time. */
    method Drain()
      modifies this
      ensures dirtyRangeCache == old(dirtyRangeCache) + old(dirtyRanges) && dirtyRanges == []
    {
      while true
        invariant dirtyRangeCache + dirtyRanges == old(dirtyRangeCache) + old(dirtyRanges)
        decreases |dirtyRanges|
      {
        var tmp := TryDequeueBulk();
        dirtyRangeCache := dirtyRangeCache + tmp;
        if |tmp| < BATCH {
          break;
        }
      }
    }

    method FlushAll(flushed: seq<Range>)
      requires data != backup && data.Length == backup.Length && Proper(flushed)
      requires forall i :: 0 <= i < |flushed| ==> flushed[i].last <= data.Length
      modifies backup
      ensures forall p: nat :: p < backup.Length ==> backup[p] == if Dirty(flushed, p) then data[p] else old(backup[p])
    {
      for i := 0 to |flushed|
        invariant forall p: nat :: p < backup.Length ==>
          backup[p] == if Dirty(flushed[..i], p) then data[p] else old(backup[p])
      {
        Flush(flushed[i]);
        forall p: nat | p < backup.Length
          ensures Dirty(flushed[..i + 1], p) <==> Dirty(flushed[..i], p) || InBytes(flushed[i], p)
        {
          assert flushed[..i + 1] == flushed[..i] + [flushed[i]];
          DirtySnoc(flushed[..i], flushed[i], p);
        }
      }
      assert flushed[..|flushed|] == flushed;
    }

    /** Afterwards memory and file agree everywhere.  The ranges flushed are the canonical union
        of the queued ones, and only dirty bytes of the file change. */
    method TickIO() returns (flushed: seq<Range>)
      requires Valid()
      modifies this, backup
      ensures Valid() && dirtyRanges == []
      ensures backup[..] == data[..]
      ensures flushed == InsertAll(old(dirtyRanges))
      ensures forall p: nat :: p < backup.Length && !Dirty(old(dirtyRanges), p) ==> backup[p] == old(backup[p])
    {
      ghost var entries := dirtyRanges;
      Drain();
      assert dirtyRangeCache == entries;
      if |dirtyRangeCache| == 0 {
        return [];
      }
      flushed := MergeCache();
      FlushedInside(entries, data.Length);
      FlushAll(flushed);
      forall p: nat | p < backup.Length
        ensures Dirty(flushed, p) <==> Dirty(entries, p)
      {
        EachDirtyByteOnce(entries, p);
      }
      dirtyRangeCache := [];
    }

    /** Sorts and merges what was taken from the queue. */
    method MergeCache() returns (flushed: seq<Range>)
      requires dirtyRangeCache != [] && Proper(dirtyRangeCache)
      modifies this`dirtyRangeCache
      ensures flushed == InsertAll(old(dirtyRangeCache))
    {
      dirtyRangeCache := Sort(dirtyRangeCache);
      ghost var rs := dirtyRangeCache;
      var cache := new Range[|dirtyRangeCache|](k requires 0 <= k < |dirtyRangeCache| reads this => dirtyRangeCache[k]);
      assert cache[..] == rs;
      var n := Coalesce(cache);
      MergedSortedIsInsertAll(rs, old(dirtyRangeCache));
      flushed := cache[..n];
    }
  }

  lemma DirtySnoc(rs: seq<Range>, r: Range, p: nat)
    ensures Dirty(rs + [r], p) <==> Dirty(rs, p) || InBytes(r, p)
  {
    DirtyIsCovered(rs + [r], p);
    DirtyIsCovered(rs, p);
    CoversSnoc(rs, r, 2 * p + 1);
  }

  /** What is flushed stays inside the map. */
  lemma FlushedInside(entries: seq<Range>, len: nat)
    requires Proper(entries) && forall i :: 0 <= i < |entries| ==> entries[i].last <= len
    ensures Proper(InsertAll(entries))
    ensures forall i :: 0 <= i < |InsertAll(entries)| ==> InsertAll(entries)[i].last <= len
  {
    var flushed := InsertAll(entries);
    InsertAllExact(entries, 0);
    forall i | 0 <= i < |flushed|
      ensures flushed[i].last <= len
    {
      var h := 2 * flushed[i].last;
      InsertAllExact(entries, h);
      assert InRange(flushed[i], h);
    }
  }
}
