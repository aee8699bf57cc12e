/** The writing side of `FCGX_Stream`: one fixed buffer with a header slot in front. */
module Writers {
  import opened Bytes
  import opened Wire
  import opened Environment
  import opened ReaderSpec
  import opened WriterSpec

  class StreamWriter {
    const buff: array<Byte>
    const conn: Connection
    const data: RequestData
    const ty: Byte
    var wrNext: nat       // first free byte
    var stop: nat         // last free byte + 1
    var isClosed: bool
    var wasFCloseCalled: bool
    var errno: int
    var isAnythingWritten: bool
    var rawWrite: bool

    /** The buffer as a whole: a multiple of 8, so that padding always fits. */
    ghost predicate Shape()
      reads this
    {
      && 24 <= buff.Length <= FCGI_MAX_LENGTH + 1 && buff.Length % 8 == 0
      && wrNext <= stop <= buff.Length
      && (if isClosed then rawWrite && stop == wrNext else stop == buff.Length)
      && wasFCloseCalled == isClosed && errno == 0
    }

    ghost predicate Valid()
      reads this
    {
      Shape() && (!rawWrite ==> FCGI_HEADER_LEN <= wrNext)
    }

    /** Bytes written or buffered: what raw mode adds to. */
    ghost function Raw(): seq<Byte>
      requires Shape()
      reads this, buff, conn
    {
      conn.output + buff[..wrNext]
    }

    /** The writer outside of closing: open and past its header slot, or closed. */
    ghost predicate Steady()
      reads this
    {
      Valid() && rawWrite == isClosed
    }

    ghost function Abs(): WriterSpec.Writer
      requires Steady()
      reads this, buff
    {
      Writer(ty, buff.Length - FCGI_HEADER_LEN, if isClosed then [] else buff[FCGI_HEADER_LEN..wrNext],
             isClosed || isAnythingWritten, isClosed)
    }

    /** `NewStream` for a writer. */
    constructor (conn: Connection, data: RequestData, bufflen: int, ty: Byte, aligned: bool)
      ensures Steady() && fresh(buff) && buff.Length == BufferSize(bufflen, aligned)
      ensures this.ty == ty && !isClosed
      ensures this.conn == conn && this.data == data
      ensures Abs() == Writer(ty, buff.Length - FCGI_HEADER_LEN, [], false, false)
    {
      var usable := BufferSize(bufflen, aligned);
      this.buff := new Byte[usable](_ => 0);
      this.conn, this.data, this.ty := conn, data, ty;
      wrNext, stop := FCGI_HEADER_LEN, usable;
      isClosed, wasFCloseCalled, errno, isAnythingWritten, rawWrite := false, false, 0, false, false;
    }

    /** `memcpy` into the buffer. */
    method Store(at: nat, bytes: seq<Byte>)
      requires at + |bytes| <= buff.Length
      modifies buff
      ensures buff[..at + |bytes|] == old(buff[..at]) + bytes && buff[at + |bytes|..] == old(buff[at + |bytes|..])
    {
      for i := 0 to |bytes|
        invariant buff[..at + i] == old(buff[..at]) + bytes[..i]
        invariant buff[at + i..] == old(buff[at + i..])
      {
        buff[at + i] := bytes[i];
      }
    }

    /** Append to the buffer. */
    method Append(bytes: seq<Byte>)
      requires Shape() && wrNext + |bytes| <= stop && !isClosed
      modifies this`wrNext, buff
      ensures Shape() && wrNext == old(wrNext) + |bytes| && buff[..wrNext] == old(buff[..wrNext]) + bytes
      ensures Raw() == old(Raw()) + bytes
      ensures old(Steady()) ==> Steady() && Abs() == old(Abs()).(buffered := old(Abs()).buffered + bytes)
    {
      Store(wrNext, bytes);
      wrNext := wrNext + |bytes|;
      assert buff[..wrNext] == old(buff[..wrNext]) + bytes;
      Assoc(conn.output, old(buff[..wrNext]), bytes);
      if old(Steady()) {
        assert buff[FCGI_HEADER_LEN..wrNext] == old(buff[FCGI_HEADER_LEN..wrNext]) + bytes;
      }
    }

    /** Whatever is in the buffer goes out as it stands. */
    method WriteOut()
      requires Shape() && !isClosed
      modifies this`wrNext, this`isAnythingWritten, conn`output
      ensures Shape() && wrNext == 0 && isAnythingWritten == (old(isAnythingWritten) || old(wrNext) != 0)
      ensures conn.output == old(Raw())
    {
      if wrNext != 0 {
        isAnythingWritten := true;
        WriteItAll(conn, buff[..wrNext]);
        wrNext := 0;
      }
    }

    /** Fill in the header of the buffered content, or reclaim its slot. */
    method Encapsulate()
      requires Steady() && !isClosed
      modifies this`wrNext, buff
      ensures Shape() && (wrNext == 0 <==> old(Abs()).buffered == [])
      ensures buff[..wrNext] == EncodeAll(Flush(old(Abs()), data.requestId).1)
    {
      ghost var content := buff[FCGI_HEADER_LEN..wrNext];
      var cLen := wrNext - FCGI_HEADER_LEN;
      if cLen > 0 {
        var eLen := AlignInt8(cLen);
        AlignFits(cLen, stop - FCGI_HEADER_LEN);
        Append(Zeros(eLen - cLen));
        assert buff[FCGI_HEADER_LEN..wrNext] == content + Zeros(eLen - cLen);
        var header := MakeHeader(ty as int, data.requestId, cLen, eLen - cLen);
        ghost var laid := buff[FCGI_HEADER_LEN..];
        Store(0, header);
        assert buff[..FCGI_HEADER_LEN] == header && buff[FCGI_HEADER_LEN..] == laid;
        assert buff[..wrNext][..FCGI_HEADER_LEN] == buff[..FCGI_HEADER_LEN];
        assert buff[..wrNext][FCGI_HEADER_LEN..] == laid[..wrNext - FCGI_HEADER_LEN] == content + Zeros(eLen - cLen);
        Laid(buff[..wrNext], data.requestId, ty, content);
      } else {
        wrNext := 0;
      }
    }

    /** `EmptyBuffProc`. */
    method EmptyBuffProc(doClose: bool)
      requires Valid() && !isClosed && (doClose ==> !rawWrite)
      modifies this`wrNext, this`isAnythingWritten, this`rawWrite, buff, conn`output, data`nWriters
      ensures Valid() && !isClosed && rawWrite == (doClose || old(rawWrite))
      ensures data.nWriters == old(data.nWriters) - if doClose then 1 else 0
      ensures rawWrite ==> wrNext == 0
      ensures rawWrite && !doClose ==> conn.output == old(Raw())
      ensures !rawWrite ==> var (w, rs) := Flush(old(Abs()), data.requestId);
                            Abs() == w && conn.output == old(conn.output) + EncodeAll(rs)
      ensures doClose ==> conn.output == old(conn.output) +
                            EncodeAll(CloseRecords(old(Abs()), data.requestId, old(data.nWriters) == 1, data.appStatus))
      decreases if doClose then 2 else 0, 0
    {
      hide EncodeAll, Encode;
      ghost var w := Writer(ty, 8, [], false, false);
      if !rawWrite {
        w := Abs();
        Encapsulate();
      }
      if doClose {
        WriteCloseRecords();
        CloseIsThree(w, data.requestId, old(data.nWriters) == 1, data.appStatus, old(conn.output));
      }
      WriteOut();
      if !rawWrite {
        wrNext := wrNext + FCGI_HEADER_LEN;
      }
    }

    /** `WriteCloseRecords`: raw from here on, so that the final records are not encapsulated. */
    method WriteCloseRecords()
      requires Shape() && !isClosed && !rawWrite
      modifies this`wrNext, this`isAnythingWritten, this`rawWrite, buff, conn`output, data`nWriters
      ensures Valid() && !isClosed && rawWrite && data.nWriters == old(data.nWriters) - 1
      ensures Raw() == old(Raw())
        + (if ty == FCGI_STDERR && old(wrNext) == 0 && !old(isAnythingWritten) then []
           else Encode(DataRecord(ty, data.requestId, [])))
        + (if old(data.nWriters) == 1 then Encode(EndRequest(data.requestId, data.appStatus, FCGI_REQUEST_COMPLETE))
           else [])
      decreases 1, 4
    {
      hide Encode;
      rawWrite := true;
      if !(ty == FCGI_STDERR && wrNext == 0 && !isAnythingWritten) {
        var header := MakeHeader(ty as int, data.requestId, 0, 0);
        EmptyRecord(ty, data.requestId);
        var r := PutStr(header);
      }
      if data.nWriters == 1 {
        var header := MakeHeader(FCGI_END_REQUEST as int, data.requestId, 8, 0);
        EndRecord(data.requestId, data.appStatus);
        var r := PutStr(header + EndRequestBody(data.appStatus, FCGI_REQUEST_COMPLETE));
      }
      data.nWriters := data.nWriters - 1;
    }

    /** One round of the loop of `FCGX_PutStr`: fill the buffer up and, if more is to come, empty it. */
    method PutRound(str: seq<Byte>) returns (m: nat)
      requires Valid() && !isClosed && str != []
      modifies this`wrNext, this`isAnythingWritten, this`rawWrite, buff, conn`output, data`nWriters
      ensures rawWrite == old(rawWrite) && data.nWriters == old(data.nWriters)
      ensures Valid() && m == Min(|str|, stop - old(wrNext)) && (m < |str| ==> wrNext < stop)
      ensures rawWrite ==> Raw() == old(Raw()) + str[..m]
      ensures !rawWrite && m == |str| ==>
                conn.output == old(conn.output) && Abs() == old(Abs()).(buffered := old(Abs()).buffered + str)
      ensures !rawWrite && m < |str| ==>
                var (v, rs) := Overflow(old(Abs()), data.requestId, str);
                Abs() == v && conn.output == old(conn.output) + EncodeAll(rs)
      decreases 1, 0
    {
      hide EncodeAll;
      m := 0;
      assert Raw() + str[..0] == Raw();
      if wrNext != stop {
        m := Min(|str|, stop - wrNext);
        Append(str[..m]);
        if m == |str| {
          assert str[..m] == str;
          return;
        }
      } else if !rawWrite {
        assert Abs().buffered + str[..0] == Abs().buffered;
      }
      EmptyBuffProc(false);
    }

    /** `FCGX_PutStr`. */
    method PutStr(str: seq<Byte>) returns (r: int)
      requires Valid()
      modifies this`wrNext, this`isAnythingWritten, this`rawWrite, buff, conn`output, data`nWriters
      ensures rawWrite == old(rawWrite) && data.nWriters == old(data.nWriters)
      ensures Valid()
      ensures isClosed ==> r == (if str == [] then 0 else -1) && Raw() == old(Raw())
      ensures !isClosed ==> r == |str|
      ensures rawWrite && !isClosed ==> Raw() == old(Raw()) + str
      ensures Steady() ==> var (w, rs) := Put(old(Abs()), data.requestId, str);
                           Abs() == w && conn.output == old(conn.output) + EncodeAll(rs)
      decreases 1, 3
    {
      hide Put, EncodeAll;
      EncodeAllNothing(conn.output);
      var n := |str|;
      if n <= stop - wrNext {
        if Steady() {
          PutFits(Abs(), data.requestId, str);
        }
        if n > 0 {
          Append(str);
        } else {
          assert Raw() + str == Raw();
          assert Steady() ==> Abs().buffered + str == Abs().buffered;
        }
        return n;
      }
      if isClosed {
        PutFits(Abs(), data.requestId, str);
        return -1;
      }
      PutInRounds(str);
      return n;
    }

    /** What putting `rest` comes to from here, after some records were emitted. */
    ghost function Prospect(rest: seq<Byte>, emitted: seq<Record>): (WriterSpec.Writer, seq<Record>)
      requires Steady()
      reads this, buff, data
    {
      (Put(Abs(), data.requestId, rest).0, emitted + Put(Abs(), data.requestId, rest).1)
    }

    /** A round, with what it leaves to be put and all the records emitted since the output was `base`. */
    method PutSome(rest: seq<Byte>, ghost emitted: seq<Record>, ghost base: seq<Byte>)
        returns (more: seq<Byte>, ghost records: seq<Record>)
      requires Valid() && !isClosed && rest != []
      modifies this`wrNext, this`isAnythingWritten, this`rawWrite, buff, conn`output, data`nWriters
      ensures rawWrite == old(rawWrite) && data.nWriters == old(data.nWriters) && Valid()
      ensures |more| < |rest| || (|more| == |rest| && old(wrNext) == stop && wrNext != stop)
      ensures rawWrite ==> Raw() + more == old(Raw()) + rest
      ensures !rawWrite ==> Prospect(more, records) == old(Prospect(rest, emitted))
      ensures !rawWrite && old(conn.output) == base + EncodeAll(emitted) ==> conn.output == base + EncodeAll(records)
      decreases 1, 1
    {
      hide Put, EncodeAll, Overflow;
      ghost var raw, id, v := Raw(), data.requestId, if rawWrite then Writer(ty, 8, [], true, true) else Abs();
      PutByRound(v, id, rest, emitted);
      var m := PutRound(rest);
      SplitAt(rest, m, |rest|);
      Assoc(raw, rest[..m], rest[m..]);
      more, records := rest[m..], emitted;
      if !rawWrite && m < |rest| {
        records := emitted + Overflow(v, id, rest).1;
        EncodeAllMore(base, emitted, Overflow(v, id, rest).1);
      }
    }

    /** The loop of `FCGX_PutStr`, for more bytes than there is room for. */
    method PutInRounds(str: seq<Byte>)
      requires Valid() && !isClosed && |str| > stop - wrNext
      modifies this`wrNext, this`isAnythingWritten, this`rawWrite, buff, conn`output, data`nWriters
      ensures Valid() && rawWrite == old(rawWrite) && data.nWriters == old(data.nWriters)
      ensures rawWrite ==> Raw() == old(Raw()) + str
      ensures !rawWrite ==> var (w, rs) := Put(old(Abs()), data.requestId, str);
                            Abs() == w && conn.output == old(conn.output) + EncodeAll(rs)
      decreases 1, 2
    {
      hide Put, EncodeAll;
      var rest := str;
      ghost var emitted: seq<Record> := [];
      ghost var base := conn.output;
      EncodeAllNothing(base);
      while rest != []
        invariant Valid() && rawWrite == old(rawWrite) && data.nWriters == old(data.nWriters)
        invariant rawWrite ==> Raw() + rest == old(Raw()) + str
        invariant !rawWrite ==> conn.output == base + EncodeAll(emitted) &&
                                Prospect(rest, emitted) == old(Prospect(str, []))
        decreases |rest|, wrNext == stop
      {
        rest, emitted := PutSome(rest, emitted, base);
      }
      assert Raw() + [] == Raw();
      if !rawWrite {
        NothingToPut(Abs(), data.requestId);
        assert emitted + [] == emitted;
        assert old([] + Put(Abs(), data.requestId, str).1 == Put(Abs(), data.requestId, str).1);
      }
    }

    /** `FCGX_PutChar`. */
    method PutChar(c: int) returns (r: int)
      requires Steady()
      modifies this`wrNext, this`isAnythingWritten, this`rawWrite, buff, conn`output, data`nWriters
      ensures Steady() && data.nWriters == old(data.nWriters)
      ensures r == if isClosed then -1 else ToByte(c)
      ensures var (w, rs) := Put(old(Abs()), data.requestId, [ToByte(c)]);
              Abs() == w && conn.output == old(conn.output) + EncodeAll(rs)
    {
      hide Put, EncodeAll;
      ghost var v, id := Abs(), data.requestId;
      PutByRound(v, id, [ToByte(c)], []);
      EncodeAllNothing(conn.output);
      assert [] + Put(v, id, [ToByte(c)]).1 == Put(v, id, [ToByte(c)]).1;
      if wrNext != stop {
        Append([ToByte(c)]);
        return ToByte(c);
      }
      if isClosed {
        PutFits(v, id, [ToByte(c)]);
        return -1;
      }
      assert v.buffered + [ToByte(c)][..0] == v.buffered && [ToByte(c)][0..] == [ToByte(c)];
      EmptyBuffProc(false);
      PutFits(Abs(), id, [ToByte(c)]);
      assert [] + Overflow(v, id, [ToByte(c)]).1 + [] == Overflow(v, id, [ToByte(c)]).1;
      Append([ToByte(c)]);
      return ToByte(c);
    }

    /** `FCGX_FFlush`. */
    method FFlush() returns (r: int)
      requires Steady()
      modifies this`wrNext, this`isAnythingWritten, this`rawWrite, buff, conn`output, data`nWriters
      ensures Steady() && data.nWriters == old(data.nWriters) && r == 0
      ensures var (w, rs) := Flush(old(Abs()), data.requestId);
              Abs() == w && conn.output == old(conn.output) + EncodeAll(rs)
    {
      if isClosed {
        EncodeAllNothing(conn.output);
        return 0;
      }
      EmptyBuffProc(false);
      return if isClosed then -1 else 0;
    }

    /** `FCGX_FClose`. */
    method FClose() returns (r: int)
      requires Steady()
      modifies this, buff, conn`output, data`nWriters
      ensures Steady() && isClosed && r == 0
      ensures if old(isClosed) then Abs() == old(Abs()) && conn.output == old(conn.output) &&
              data.nWriters == old(data.nWriters)
              else Abs() == Closed(old(Abs())) && data.nWriters == old(data.nWriters) - 1 &&
                   conn.output == old(conn.output) +
                     EncodeAll(CloseRecords(old(Abs()), data.requestId, old(data.nWriters) == 1, data.appStatus))
    {
      hide EncodeAll, CloseRecords;
      if !wasFCloseCalled {
        EmptyBuffProc(true);
        wasFCloseCalled := true;
        isClosed := true;
        stop := wrNext;
      }
      return if errno == 0 then 0 else -1;
    }
  }

  lemma EmptyRecord(ty: Byte, id: int)
    ensures Encode(DataRecord(ty, id, [])) == MakeHeader(ty as int, id, 0, 0)
  {
    HeaderReducesId(ty as int, id, 0, 0);
  }

  lemma {:induction false} EndRecord(id: int, appStatus: int)
    ensures Encode(EndRequest(id, appStatus, FCGI_REQUEST_COMPLETE)) ==
            MakeHeader(FCGI_END_REQUEST as int, id, 8, 0) + EndRequestBody(appStatus, FCGI_REQUEST_COMPLETE)
  {
    HeaderReducesId(FCGI_END_REQUEST as int, id, 8, 0);
  }

  /** Closing is flushing, then announcing the end of the stream, then ending the request. */
  lemma {:induction false} CloseIsThree(w: WriterSpec.Writer, id: int, last: bool, status: int, output: seq<Byte>)
    ensures output + EncodeAll(CloseRecords(w, id, last, status)) ==
            output + EncodeAll(Flush(w, id).1)
            + (if Announces(w) then Encode(DataRecord(w.ty, id, [])) else [])
            + (if last then Encode(EndRequest(id, status, FCGI_REQUEST_COMPLETE)) else [])
  {
    hide Encode, DataRecord, EndRequest, Flush;
    var a := Flush(w, id).1;
    var b := if Announces(w) then [DataRecord(w.ty, id, [])] else [];
    var c := if last then [EndRequest(id, status, FCGI_REQUEST_COMPLETE)] else [];
    EncodeAllAppend(a, b);
    EncodeAllAppend(a + b, c);
    EncodeAllOne(DataRecord(w.ty, id, []));
    EncodeAllOne(EndRequest(id, status, FCGI_REQUEST_COMPLETE));
    Assoc(output, EncodeAll(a), EncodeAll(b));
    Assoc(output, EncodeAll(a) + EncodeAll(b), EncodeAll(c));
  }

  /** A buffer of header, content and padding is the content's record. */
  lemma Laid(bytes: seq<Byte>, id: int, ty: Byte, content: seq<Byte>)
    requires content != []
    requires var pad := AlignInt8(|content|) - |content|;
             |bytes| == FCGI_HEADER_LEN + |content| + pad &&
             bytes[..FCGI_HEADER_LEN] == MakeHeader(ty as int, id, |content|, pad) &&
             bytes[FCGI_HEADER_LEN..] == content + Zeros(pad)
    ensures bytes == EncodeAll([DataRecord(ty, id, content)])
  {
    var r := DataRecord(ty, id, content);
    EncodeAllOne(r);
    HeaderReducesId(ty as int, id, |content|, |r.padding|);
    Assoc(Header(ty as int, r.id, |content|, |r.padding|, 0), content, r.padding);
    assert bytes == bytes[..FCGI_HEADER_LEN] + bytes[FCGI_HEADER_LEN..];
  }
}
