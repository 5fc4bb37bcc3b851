/** The body of an HTTP response, kept by the response or written to a buffer of the caller. */
module ResponseBodies {
  import opened Bytes

  function Overwrite(m: seq<Byte>, at: nat, data: seq<Byte>): (r: seq<Byte>)
    ensures |r| == |m|
  {
    seq(|m|, j requires 0 <= j < |m| => if at <= j < at + |data| then data[j - at] else m[j])
  }

  /** ContentAppend into a user buffer: what still fits of `data` after `total` bytes. */
  function Appended(m: seq<Byte>, cursor: nat, len: nat, total: nat, data: seq<Byte>): (r: seq<Byte>)
    ensures |r| == |m|
  {
    if total < len then
      Overwrite(m, cursor + total, if |data| <= len - total then data else data[..len - total])
    else m
  }

  class HttpResponse {
    var userBuf: array?<Byte>
    var userStart: nat
    var userBufLen: nat
    var content: seq<Byte>
    var totalBytesRead: nat

    ghost predicate Valid()
      reads this
    {
      userBuf != null ==> userStart + userBufLen <= userBuf.Length
    }

    constructor ()
      ensures Valid() && userBuf == null && content == [] && totalBytesRead == 0
    {
      userBuf, userStart, userBufLen, content, totalBytesRead := null, 0, 0, [], 0;
    }

    method SetContentBuf(buf: array?<Byte>, start: nat, len: nat)
      requires buf != null ==> start + len <= buf.Length
      modifies this
      ensures Valid() && userBuf == buf && userStart == start && userBufLen == len
      ensures content == old(content) && totalBytesRead == old(totalBytesRead)
    {
      userBuf, userStart, userBufLen := buf, start, len;
    }

    /** Bytes that no longer fit the user's buffer are counted and dropped. */
    method ContentAppend(data: seq<Byte>)
      requires Valid()
      modifies this, userBuf
      ensures Valid() && userBuf == old(userBuf) && userStart == old(userStart) && userBufLen == old(userBufLen)
      ensures totalBytesRead == old(totalBytesRead) + |data|
      ensures userBuf != null ==> content == old(content)
      ensures userBuf != null ==>
                userBuf[..] == Appended(old(userBuf[..]), userStart, userBufLen, old(totalBytesRead), data)
      ensures userBuf == null ==> content == old(content) + data
    {
      if userBuf != null {
        var writelen: int := if userBufLen - totalBytesRead < |data| then userBufLen - totalBytesRead else |data|;
        if writelen > 0 {
          CopyIn(userStart + totalBytesRead, data[..writelen]);
        }
      } else {
        content := content + data;
      }
      totalBytesRead := totalBytesRead + |data|;
    }

    /** The memcpy of ContentAppend. */
    method CopyIn(at: nat, data: seq<Byte>)
      requires userBuf != null && at + |data| <= userBuf.Length
      modifies userBuf
      ensures userBuf[..] == Overwrite(old(userBuf[..]), at, data)
    {
      forall k | 0 <= k < |data| {
        userBuf[at + k] := data[k];
      }
    }
  }

  function Concat(pieces: seq<seq<Byte>>): seq<Byte> {
    if pieces == [] then [] else Concat(pieces[..|pieces| - 1]) + pieces[|pieces| - 1]
  }

  /** The buffer after a whole body has arrived in pieces. */
  function AppendedAll(m: seq<Byte>, cursor: nat, len: nat, pieces: seq<seq<Byte>>): (r: seq<Byte>)
    ensures |r| == |m|
  {
    if pieces == [] then m
    else
      var before := pieces[..|pieces| - 1];
      Appended(AppendedAll(m, cursor, len, before), cursor, len, |Concat(before)|, pieces[|pieces| - 1])
  }

  /** However a body is cut into pieces, the buffer ends up with the body's first `len` bytes in
      its region and is unchanged outside it. */
  lemma {:induction false} AnyPiecesSameBuffer(m: seq<Byte>, cursor: nat, len: nat, pieces: seq<seq<Byte>>)
    requires cursor + len <= |m|
    ensures var body, r := Concat(pieces), AppendedAll(m, cursor, len, pieces);
      r == Overwrite(m, cursor, if |body| <= len then body else body[..len])
  {
    if pieces != [] {
      AnyPiecesSameBuffer(m, cursor, len, pieces[..|pieces| - 1]);
    }
  }

  /** A response that was given a buffer, and then a body in any pieces: the body's first `len`
      bytes are in the buffer's region, the rest of the buffer is untouched, and the response itself
      keeps no bytes. */
  method ReceiveInto(buf: array<Byte>, start: nat, len: nat, pieces: seq<seq<Byte>>) returns (r: HttpResponse)
    requires start + len <= buf.Length
    modifies buf
    ensures r.totalBytesRead == |Concat(pieces)| && r.content == []
    ensures var body := Concat(pieces);
      buf[..] == Overwrite(old(buf[..]), start, if |body| <= len then body else body[..len])
  {
    r := new HttpResponse();
    r.SetContentBuf(buf, start, len);
    for i := 0 to |pieces|
      invariant fresh(r) && r.Valid() && r.userBuf == buf && r.userStart == start && r.userBufLen == len
      invariant r.content == [] && r.totalBytesRead == |Concat(pieces[..i])|
      invariant buf[..] == AppendedAll(old(buf[..]), start, len, pieces[..i])
    {
      assert pieces[..i + 1][..i] == pieces[..i];
      r.ContentAppend(pieces[i]);
    }
    assert pieces[..|pieces|] == pieces;
    AnyPiecesSameBuffer(old(buf[..]), start, len, pieces);
  }
}
