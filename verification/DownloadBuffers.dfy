/** A download buffer shared by several chunks: a first-fit allocator over one region whose
    chunk list is kept in address order. */
module DownloadBuffers {

  /** A chunk placed in a buffer: which chunk, where its bytes start, how many it has, and how
      many the network reported so far. */
  datatype Slot = Slot(file: nat, index: nat, cursor: nat, len: nat, downloaded: nat)

  // ---------------------------------------------------------------- specification

  /** In address order, pairwise disjoint, inside [0, cap). */
  ghost predicate Packed(slots: seq<Slot>, cap: nat) {
    && (forall i :: 0 <= i < |slots| ==> slots[i].cursor + slots[i].len <= cap)
    && (forall i, j :: 0 <= i < j < |slots| ==> slots[i].cursor + slots[i].len <= slots[j].cursor)
  }

  /** [c, c + len) lies in the buffer and meets no slot. */
  ghost predicate Free(slots: seq<Slot>, cap: nat, c: nat, len: nat) {
    c + len <= cap && forall i :: 0 <= i < |slots| ==> Apart(slots[i], c, len)
  }

  predicate Apart(s: Slot, c: nat, len: nat) {
    c + len <= s.cursor || s.cursor + s.len <= c
  }

  function EndBefore(slots: seq<Slot>, i: nat): nat
    requires i <= |slots|
  {
    if i == 0 then 0 else slots[i - 1].cursor + slots[i - 1].len
  }

  predicate GapBefore(slots: seq<Slot>, cap: nat, i: nat, len: nat)
    requires i <= |slots|
  {
    EndBefore(slots, i) + len <= if i < |slots| then slots[i].cursor else cap
  }

  /** The first list position at or after i in front of which `len` bytes fit; |slots| + 1 if none. */
  function FirstGap(slots: seq<Slot>, cap: nat, i: nat, len: nat): (r: nat)
    requires i <= |slots|
    ensures i <= r <= |slots| + 1
    ensures r <= |slots| ==> GapBefore(slots, cap, r, len)
    ensures forall k :: i <= k < r && k <= |slots| ==> !GapBefore(slots, cap, k, len)
    decreases |slots| - i
  {
    if GapBefore(slots, cap, i, len) then i
    else if i == |slots| then |slots| + 1
    else FirstGap(slots, cap, i + 1, len)
  }

  /** Where a chunk of `len` bytes goes, if it fits. */
  function Position(slots: seq<Slot>, cap: nat, len: nat): (r: nat) {
    FirstGap(slots, cap, 0, len)
  }

  predicate Fits(slots: seq<Slot>, cap: nat, len: nat) {
    Position(slots, cap, len) <= |slots|
  }

  function Inserted(slots: seq<Slot>, cap: nat, file: nat, index: nat, len: nat): seq<Slot>
    requires Fits(slots, cap, len)
  {
    var i := Position(slots, cap, len);
    slots[..i] + [Slot(file, index, EndBefore(slots, i), len, 0)] + slots[i..]
  }

  predicate Names(s: Slot, file: nat, index: nat) {
    s.file == file && s.index == index
  }

  /** The slots other than the first one of the given chunk. */
  function Removed(slots: seq<Slot>, file: nat, index: nat): (r: seq<Slot>)
    ensures |r| <= |slots|
  {
    if slots == [] then []
    else if Names(slots[0], file, index) then slots[1..]
    else [slots[0]] + Removed(slots[1..], file, index)
  }

  // ---------------------------------------------------------------- lemmas

  lemma InsertKeepsPacked(slots: seq<Slot>, cap: nat, file: nat, index: nat, len: nat)
    requires Packed(slots, cap) && Fits(slots, cap, len)
    ensures Packed(Inserted(slots, cap, file, index, len), cap)
  {}

  /** First fit: the place taken is free, and no lower one is. */
  lemma InsertTakesLowestPlace(slots: seq<Slot>, cap: nat, len: nat)
    requires Packed(slots, cap) && Fits(slots, cap, len)
    ensures var c := EndBefore(slots, Position(slots, cap, len));
      Free(slots, cap, c, len) && forall b :: Free(slots, cap, b, len) && len > 0 ==> c <= b
  {
    var c := EndBefore(slots, Position(slots, cap, len));
    forall b: nat | Free(slots, cap, b, len) && len > 0
      ensures c <= b
    {
      if b < c {
        var k := GapOf(slots, cap, b, len);
      }
    }
  }

  /** A free place of positive size lies in the gap in front of some position. */
  lemma GapOf(slots: seq<Slot>, cap: nat, c: nat, len: nat) returns (i: nat)
    requires Packed(slots, cap) && Free(slots, cap, c, len) && len > 0
    ensures i <= |slots| && GapBefore(slots, cap, i, len) && EndBefore(slots, i) <= c
    ensures i < |slots| ==> c + len <= slots[i].cursor
  {
    i := 0;
    while i < |slots| && slots[i].cursor + slots[i].len <= c
      invariant i <= |slots| && EndBefore(slots, i) <= c
    {
      i := i + 1;
    }
    if i < |slots| {
      assert Apart(slots[i], c, len);
    }
  }

  /** InsertInBuf refuses exactly when no gap is large enough. */
  lemma FitsIffSomePlaceFree(slots: seq<Slot>, cap: nat, len: nat)
    requires Packed(slots, cap) && len > 0
    ensures Fits(slots, cap, len) <==> exists c: nat :: Free(slots, cap, c, len)
  {
    if Fits(slots, cap, len) {
      InsertTakesLowestPlace(slots, cap, len);
    }
    if c: nat :| Free(slots, cap, c, len) {
      var i := GapOf(slots, cap, c, len);
    }
  }

  lemma {:induction false} RemoveKeepsPacked(slots: seq<Slot>, cap: nat, file: nat, index: nat)
    requires Packed(slots, cap)
    ensures Packed(Removed(slots, file, index), cap)
    ensures forall s :: s in Removed(slots, file, index) ==> s in slots
  {
    if slots != [] && !Names(slots[0], file, index) {
      RemoveKeepsPacked(slots[1..], cap, file, index);
      var r := Removed(slots[1..], file, index);
      forall j | 0 <= j < |r|
        ensures slots[0].cursor + slots[0].len <= r[j].cursor
      {
        assert r[j] in slots[1..];
      }
    }
  }

  // ---------------------------------------------------------------- runs

  datatype BufOp = Insert(file: nat, index: nat, len: nat) | Remove(file: nat, index: nat)

  function ApplyOp(slots: seq<Slot>, cap: nat, op: BufOp): seq<Slot> {
    match op
    case Insert(file, index, len) => if Fits(slots, cap, len) then Inserted(slots, cap, file, index, len) else slots
    case Remove(file, index) => Removed(slots, file, index)
  }

  function ApplyAll(cap: nat, ops: seq<BufOp>): seq<Slot> {
    if ops == [] then [] else ApplyOp(ApplyAll(cap, ops[..|ops| - 1]), cap, ops[|ops| - 1])
  }

  /** Over any run of insertions and removals the regions stay ordered, disjoint and inside. */
  lemma {:induction false} EveryRunPacked(cap: nat, ops: seq<BufOp>)
    ensures Packed(ApplyAll(cap, ops), cap)
  {
    if ops != [] {
      var before := ApplyAll(cap, ops[..|ops| - 1]);
      EveryRunPacked(cap, ops[..|ops| - 1]);
      match ops[|ops| - 1] {
        case Insert(file, index, len) =>
          if Fits(before, cap, len) { InsertKeepsPacked(before, cap, file, index, len); }
        case Remove(file, index) => RemoveKeepsPacked(before, cap, file, index);
      }
    }
  }

  // ---------------------------------------------------------------- the class

  class DownloadBuf {
    const cap: nat
    var chunkList: seq<Slot>

    constructor (length: nat)
      ensures cap == length && chunkList == []
    {
      cap, chunkList := length, [];
    }

    method InsertInBuf(file: nat, index: nat, len: nat) returns (ok: bool)
      requires Packed(chunkList, cap)
      modifies this
      ensures Packed(chunkList, cap) && ok == Fits(old(chunkList), cap, len)
      ensures chunkList == if ok then Inserted(old(chunkList), cap, file, index, len) else old(chunkList)
    {
      var cursor := 0;
      var i := 0;
      while i < |chunkList|
        invariant i <= |chunkList| && chunkList == old(chunkList) && cursor == EndBefore(chunkList, i)
        invariant Position(chunkList, cap, len) == FirstGap(chunkList, cap, i, len)
      {
        if chunkList[i].cursor - cursor >= len {
          InsertKeepsPacked(chunkList, cap, file, index, len);
          chunkList := chunkList[..i] + [Slot(file, index, cursor, len, 0)] + chunkList[i..];
          return true;
        }
        cursor := chunkList[i].cursor + chunkList[i].len;
        i := i + 1;
      }
      if cap - cursor >= len {
        InsertKeepsPacked(chunkList, cap, file, index, len);
        chunkList := chunkList + [Slot(file, index, cursor, len, 0)];
        assert chunkList == Inserted(old(chunkList), cap, file, index, len);
        return true;
      }
      return false;
    }

    method RemoveChunk(file: nat, index: nat) returns (found: bool)
      requires Packed(chunkList, cap)
      modifies this
      ensures Packed(chunkList, cap) && chunkList == Removed(old(chunkList), file, index)
      ensures found <==> exists s :: s in old(chunkList) && Names(s, file, index)
    {
      var i := 0;
      while i < |chunkList| && !Names(chunkList[i], file, index)
        invariant i <= |chunkList| && chunkList == old(chunkList)
        invariant forall k :: 0 <= k < i ==> !Names(chunkList[k], file, index)
        invariant Removed(chunkList, file, index) == chunkList[..i] + Removed(chunkList[i..], file, index)
      {
        i := i + 1;
      }
      RemoveKeepsPacked(chunkList, cap, file, index);
      if i == |chunkList| {
        return false;
      }
      chunkList := chunkList[..i] + chunkList[i + 1..];
      return true;
    }
  }
}
