/** The doubling character buffer.  Sizes are kept in 64 bits, but Reserve and Resize take 32. */
module CharBuffers {
  import opened Arithmetic
  import opened Bytes

  function IncreasedSize(bufSize: nat): nat {
    (if bufSize == 0 then 64 else bufSize) * 2
  }

  /** The size Append asks Reserve for. */
  function Wanted(bufSize: nat, length: nat): nat {
    Max(IncreasedSize(bufSize), length + 2)
  }

  /** The capacity when Append writes its bytes, up to `length`: a request is cut to 32 bits. */
  function Room(bufSize: nat, length: nat): nat {
    if bufSize == 0 || length > bufSize - 1 then Max(bufSize, Wanted(bufSize, length) % U32) else bufSize
  }

  /** The bytes fit exactly when they fitted before or the request survives the cut. */
  lemma RoomIff(bufSize: nat, length: nat)
    requires bufSize < U32 && length > 0
    ensures length <= Room(bufSize, length) <==> length <= bufSize || Wanted(bufSize, length) < U32
  {
    var w := Wanted(bufSize, length);
    if length > bufSize && w >= U32 {
      if w == length + 2 {
        assert w % U32 <= w - U32;
      } else {
        assert w == 2 * bufSize && w % U32 == w - U32;
      }
    }
  }

  /** A buffer that grows doubles, from 128 bytes on, or grows to what is needed and two spare bytes. */
  lemma RoomDoubles(bufSize: nat, length: nat)
    requires bufSize < 0x8000_0000 && length < 0x8000_0000 && (bufSize > 0 ==> length > bufSize - 1)
    ensures bufSize == 0 ==> Room(bufSize, length) == if length <= 126 then 128 else length + 2
    ensures bufSize > 0 ==> Room(bufSize, length) == if length + 2 <= 2 * bufSize then 2 * bufSize else length + 2
  {
    RoomBelowLimit(bufSize, length);
  }

  /** Up to 2^31 bytes no request is cut. */
  lemma RoomBelowLimit(bufSize: nat, length: nat)
    requires length < 0x8000_0000 && (bufSize > 0 ==> length > bufSize - 1)
    ensures Wanted(bufSize, length) < U32
  {}

  /** One byte past 2^31 need not fit: doubling 2^31 is cut to nothing. */
  lemma CutRequestLeavesNoRoom()
    ensures Room(0x8000_0000, 0x8000_0001) == 0x8000_0000 < 0x8000_0001
  {}

  predicate Cheap(copied: nat, bufSize: nat, cursor: nat) {
    copied <= bufSize && copied <= 2 * cursor && bufSize <= Max(128, 2 * cursor + 2)
  }

  /** Growing to the room for `length` bytes copies the ones there are. */
  lemma GrowingIsCheap(copied: nat, bufSize: nat, cursor: nat, length: nat)
    requires Cheap(copied, bufSize, cursor) && cursor <= bufSize < U32 && cursor < length <= Room(bufSize, length)
    ensures Cheap(if Room(bufSize, length) > bufSize then copied + cursor else copied, Room(bufSize, length), length)
  {
    RoomIff(bufSize, length);
  }

  /** The capacity when Assign writes its bytes: the size it asks for is cut to 32 bits. */
  function AssignRoom(bufSize: nat, length: nat): nat {
    Max(bufSize, (length + 2) % U32)
  }

  /** The bytes of an Assign fit exactly when they fitted before or the request survives the cut. */
  lemma AssignRoomIff(bufSize: nat, length: nat)
    requires bufSize < U32 && length > 0
    ensures length <= AssignRoom(bufSize, length) <==> length <= bufSize || length + 2 < U32
  {
    if length + 2 >= U32 {
      assert (length + 2) % U32 <= length + 2 - U32;
    }
  }

  class CharBuffer {
    var bufSize: nat
    var pBuf: array?<Byte>
    var cursor: nat
    var readCursor: nat
    /** The bytes Reserve has copied so far. */
    ghost var copied: nat
    /** The blocks asked for and given back so far. */
    ghost var mallocs: nat
    ghost var frees: nat

    ghost predicate Valid()
      reads this
    {
      && bufSize == (if pBuf == null then 0 else pBuf.Length) < U32
      && (pBuf != null ==> bufSize > 0)
      && cursor <= bufSize
    }

    ghost function Contents(): seq<Byte>
      reads this, pBuf
      requires Valid()
    {
      if pBuf == null then [] else pBuf[..cursor]
    }

    /** The blocks that are neither in use nor given back. */
    ghost function Lost(): int
      reads this
    {
      mallocs - frees - if pBuf == null then 0 else 1
    }

    /** Copying has cost at most the capacity and at most two bytes per byte held, and the capacity
        is not much more than twice what is held. */
    ghost predicate Amortised()
      reads this
    {
      Cheap(copied, bufSize, cursor)
    }

    constructor ()
      ensures Valid() && Contents() == [] && bufSize == 0 && Amortised() && copied == 0 && Lost() == 0
    {
      bufSize, pBuf, cursor, readCursor, copied, mallocs, frees := 0, null, 0, 0, 0, 0, 0;
    }

    method Reserve(size: nat)
      requires Valid() && size < U32
      modifies this
      ensures Valid() && Contents() == old(Contents()) && cursor == old(cursor) && Lost() == old(Lost())
      ensures bufSize == Max(old(bufSize), size)
      ensures size <= old(bufSize) ==> pBuf == old(pBuf) && copied == old(copied) && readCursor == old(readCursor)
      ensures size > old(bufSize) ==> fresh(pBuf) && copied == old(copied + cursor) && readCursor == 0
    {
      if size <= bufSize {
        return;
      }
      var newbuf := new Byte[size](_ => 0);
      mallocs := mallocs + 1;
      if bufSize > 0 {
        forall k | 0 <= k < cursor {
          newbuf[k] := pBuf[k];
        }
        frees := frees + 1;
      }
      copied := copied + cursor;
      bufSize := size;
      pBuf := newbuf;
      readCursor := 0;
    }

    /** Adds the bytes at the end, given that they end up with room. */
    method Append(str: seq<Byte>)
      requires Valid()
      requires str != [] ==> cursor + |str| <= Room(bufSize, cursor + |str|)
      modifies this, pBuf
      ensures Valid() && Contents() == old(Contents()) + str && Lost() == old(Lost())
      ensures bufSize == if str == [] then old(bufSize) else Room(old(bufSize), old(cursor) + |str|)
      ensures old(Amortised()) ==> Amortised()
      ensures pBuf == old(pBuf) || fresh(pBuf)
    {
      if |str| <= 0 {
        return;
      }
      if Amortised() {
        GrowingIsCheap(copied, bufSize, cursor, cursor + |str|);
      }
      if bufSize == 0 || |str| + cursor > bufSize - 1 {
        Reserve(Max(IncreasedSize(bufSize), |str| + cursor + 2) % U32);
      }
      Write(str);
    }

    /** The copy at the end of Append. */
    method Write(str: seq<Byte>)
      requires Valid() && cursor + |str| <= bufSize
      modifies this`cursor, pBuf
      ensures Valid() && Contents() == old(Contents()) + str && cursor == old(cursor) + |str|
    {
      forall k | 0 <= k < |str| {
        pBuf[cursor + k] := str[k];
      }
      cursor := cursor + |str|;
    }

    method Put(c: Byte)
      requires Valid()
      requires bufSize == 0 || cursor < bufSize || IncreasedSize(bufSize) < U32
      modifies this, pBuf
      ensures Valid() && Contents() == old(Contents()) + [c] && Lost() == old(Lost())
      ensures bufSize == if old(bufSize == 0 || cursor >= bufSize - 1)
                         then Max(old(bufSize), IncreasedSize(old(bufSize)) % U32) else old(bufSize)
      ensures old(Amortised()) ==> Amortised()
      ensures pBuf == old(pBuf) || fresh(pBuf)
    {
      ghost var was := Contents();
      if bufSize == 0 || cursor >= bufSize - 1 {
        Reserve(IncreasedSize(bufSize) % U32);
      }
      pBuf[cursor] := c;
      cursor := cursor + 1;
      assert pBuf[..cursor] == was + [c];
    }

    /** Growing keeps the contents and adds zeros; not growing leaves zeros only.  A block is lost
        exactly when a buffer grows that is there but empty. */
    method Resize(size: nat)
      requires Valid() && size < U32
      modifies this, pBuf
      ensures Valid() && bufSize == Max(old(bufSize), size)
      ensures Contents() == if old(bufSize) < size then old(Contents()) + Zeros(size - old(cursor)) else Zeros(size)
      ensures readCursor == 0 && (pBuf == old(pBuf) || fresh(pBuf))
      ensures Lost() == old(Lost()) + if old(pBuf) != null && old(cursor) == 0 && old(bufSize) < size then 1 else 0
    {
      var copySize := 0;
      ghost var was := Contents();
      if bufSize < size {
        var newbuf := new Byte[size](_ => 0);
        mallocs := mallocs + 1;
        if pBuf != null {
          copySize := if cursor < size then cursor else size;
          if copySize > 0 {
            forall k | 0 <= k < copySize {
              newbuf[k] := pBuf[k];
            }
            frees := frees + 1;
          }
        }
        pBuf := newbuf;
        bufSize := size;
      }
      if pBuf != null {
        forall k | copySize <= k < size {
          pBuf[k] := 0;
        }
      }
      cursor := size;
      readCursor := 0;
    }

    /** The contents become str, given that they end up with room. */
    method Assign(str: seq<Byte>)
      requires Valid() && (str != [] ==> |str| <= AssignRoom(bufSize, |str|))
      modifies this, pBuf
      ensures Valid() && Contents() == str && bufSize == AssignRoom(old(bufSize), |str|)
      ensures pBuf == old(pBuf) || fresh(pBuf)
      ensures Lost() == old(Lost()) + if old(pBuf) != null && old(cursor) == 0 && old(bufSize) < bufSize then 1 else 0
    {
      Resize((|str| + 2) % U32);
      if |str| > 0 {
        forall k | 0 <= k < |str| {
          pBuf[k] := str[k];
        }
      }
      cursor := |str|;
    }
  }

  function Zeros(n: nat): seq<Byte> {
    seq(n, _ => 0)
  }

  // ---------------------------------------------------------------- whole runs

  datatype Op = AppendOp(str: seq<Byte>) | PutOp(c: Byte)

  function Added(op: Op): seq<Byte> {
    match op
    case AppendOp(str) => str
    case PutOp(c) => [c]
  }

  function Total(ops: seq<Op>): seq<Byte> {
    if ops == [] then [] else Total(ops[..|ops| - 1]) + Added(ops[|ops| - 1])
  }

  method Perform(buf: CharBuffer, op: Op)
    requires buf.Valid() && buf.Amortised() && buf.cursor + |Added(op)| < 0x8000_0000
    modifies buf, buf.pBuf
    ensures buf.Valid() && buf.Amortised() && buf.Contents() == old(buf.Contents()) + Added(op)
    ensures (buf.pBuf == old(buf.pBuf) || fresh(buf.pBuf)) && buf.Lost() == old(buf.Lost())
  {
    match op
    case AppendOp(str) =>
      var length := buf.cursor + |str|;
      if str != [] {
        RoomIff(buf.bufSize, length);
        if buf.bufSize == 0 || length > buf.bufSize - 1 {
          RoomBelowLimit(buf.bufSize, length);
        }
      }
      buf.Append(str);
    case PutOp(c) =>
      buf.Put(c);
  }

  lemma {:induction false} PrefixIsShorter(ops: seq<Op>, k: nat)
    requires k <= |ops|
    ensures |Total(ops[..k])| <= |Total(ops)|
  {
    if k == |ops| {
      assert ops[..k] == ops;
    } else {
      PrefixIsShorter(ops[..|ops| - 1], k);
      assert ops[..|ops| - 1][..k] == ops[..k];
    }
  }

  lemma NextTotal(ops: seq<Op>, i: nat)
    requires i < |ops|
    ensures Total(ops[..i + 1]) == Total(ops[..i]) + Added(ops[i])
    ensures |Total(ops[..i])| + |Added(ops[i])| <= |Total(ops)|
  {
    assert ops[..i + 1][..i] == ops[..i];
    PrefixIsShorter(ops, i + 1);
  }

  /** Any sequence of Append and Put from an empty buffer, as long as the total stays below 2^31
      bytes: the contents are the concatenation, and Reserve has copied at most twice their length. */
  method Run(ops: seq<Op>) returns (buf: CharBuffer)
    requires |Total(ops)| < 0x8000_0000
    ensures buf.Valid() && buf.Contents() == Total(ops)
    ensures buf.Lost() == 0
    ensures buf.copied <= 2 * |Total(ops)| && buf.bufSize <= Max(128, 2 * |Total(ops)| + 2)
  {
    buf := new CharBuffer();
    for i := 0 to |ops|
      invariant fresh(buf) && (buf.pBuf != null ==> fresh(buf.pBuf))
      invariant buf.Valid() && buf.Amortised() && buf.Lost() == 0 && buf.Contents() == Total(ops[..i])
    {
      NextTotal(ops, i);
      Perform(buf, ops[i]);
    }
    assert ops[..|ops|] == ops;
  }
}
