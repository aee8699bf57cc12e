/** The reading side of `FCGX_Stream`: a demultiplexer over one fixed buffer. Every operation is
    proved to be the operation of the same name on the whole of the connection's bytes. */
module Readers {
  import opened Bytes
  import opened Wire
  import opened NameValue
  import opened Environment
  import opened Parameters
  import opened ReaderSpec
  import opened ReaderLaws

  class Reader {
    const buff: array<Byte>
    const conn: Connection
    const data: RequestData
    var rdNext: nat       // first valid byte
    var stop: nat         // last valid byte + 1
    var stopUnget: nat    // first byte of the current buffer fragment
    var buffStop: nat     // last valid byte + 1 of the entire buffer
    var isClosed: bool
    var errno: int
    var ty: int
    var eorStop: bool
    var skip: bool
    var contentLen: nat
    var paddingLen: nat
    ghost var defined: bool   // no lengths were added beyond `int`, no answer overran its buffer

    /** The buffer as a whole; `stop` has no meaning while the buffer is being filled. */
    ghost predicate Shape()
      reads this
    {
      buff.Length > 0 && rdNext <= buffStop <= buff.Length
    }

    ghost predicate Valid()
      reads this
    {
      && Shape()
      && (!isClosed ==> rdNext <= stop <= buffStop && (rdNext < stop ==> !skip))
      && (isClosed && errno == 0 ==> contentLen == 0)
      && (!isClosed && !eorStop ==> !skip)
    }

    /** The fragment being read starts at `stopUnget`, unless that is left over from before a change of
        stream, with bytes pushed back since; then it is out of the way of the fragment. */
    ghost predicate Anchored()
      reads this
    {
      !isClosed && rdNext < stop ==> stopUnget <= rdNext || stop < stopUnget
    }

    /** A byte can be pushed back, and there is room for it. */
    ghost predicate CanUnGet()
      reads this
    {
      !isClosed && rdNext != stopUnget && rdNext > 0
    }

    /** The bytes of the connection not yet consumed: the buffered ones, then the rest. */
    ghost function Rest(): seq<Byte>
      requires Shape()
      reads this, buff, conn
    {
      buff[rdNext..buffStop] + conn.input
    }

    ghost function StateWith(pending: nat): State
      requires Shape()
      reads this, buff, conn, data
    {
      State(Rest(), conn.ending, if isClosed then 0 else pending, paddingLen, skip, eorStop, ty, isClosed, errno,
            RequestInfo(data.requestId, data.role, data.isBeginProcessed, data.keepConnection), conn.output, defined)
    }

    /** The parser's state: the window counts as content not yet delivered. */
    ghost function Abs(): State
      requires Valid()
      reads this, buff, conn, data
    {
      StateWith(if isClosed then 0 else contentLen + (stop - rdNext))
    }

    /** `NewStream` for a reader. */
    constructor (conn: Connection, data: RequestData, bufflen: int, ty: int, aligned: bool)
      ensures Valid() && Anchored() && fresh(buff) && rdNext == stop
      ensures this.conn == conn && this.data == data
      ensures Abs() == State(conn.input, conn.ending, 0, 0, false, false, ty, false, 0,
                             RequestInfo(data.requestId, data.role, data.isBeginProcessed, data.keepConnection),
                             conn.output, true)
    {
      this.buff := new Byte[BufferSize(bufflen, aligned)](_ => 0);
      this.conn, this.data, this.ty := conn, data, ty;
      rdNext, stop, stopUnget, buffStop := 0, 0, 0, 0;
      isClosed, errno, eorStop, skip, contentLen, paddingLen := false, 0, false, false, 0, 0;
      defined := true;
      new;
      assert buff[0..0] + conn.input == conn.input;
    }

    method SetError(code: int)
      requires Shape() && code != 0
      modifies this`errno, this`isClosed
      ensures errno == (if old(errno) == 0 then code else old(errno)) && isClosed
    {
      if errno == 0 {
        errno := code;
      }
      isClosed := true;
    }

    /** `SetReaderType`. */
    method SetReaderType(ty: int)
      requires Shape()
      modifies this
      ensures Valid() && Anchored() && !eorStop
      ensures Abs() == SetType(old(StateWith(0)), ty)
      ensures rdNext == stop && conn.output == old(conn.output)
    {
      this.ty := ty;
      eorStop, skip, contentLen, paddingLen := false, false, 0, 0;
      stop := rdNext;
      isClosed := false;
    }

    /** The refill at the top of the loop of `FillBuffProc`. */
    method Refill() returns (ok: bool)
      requires Shape() && !isClosed
      modifies this, buff, conn`input
      ensures Shape() && ok == (old(Rest()) != [])
      ensures ok ==> rdNext < buffStop && StateWith(contentLen) == old(StateWith(contentLen)) &&
                     contentLen == old(contentLen)
      ensures !ok ==> isClosed && errno != 0 && StateWith(0) == Fail(old(StateWith(contentLen)), EndCode(conn.ending))
    {
      ok := true;
      if rdNext == buffStop {
        assert buff[rdNext..buffStop] == [];
        var count := conn.Read(buff);
        if count <= 0 {
          SetError(EndCode(conn.ending));
          return false;
        }
        rdNext := 0;
        buffStop := count;
        assert buff[0..count] == buff[..count];
      }
    }

    /** The parser's state while the buffer is being filled and no window is open. */
    ghost function Here(): State
      requires Shape()
      reads this, buff, conn, data
    {
      StateWith(contentLen)
    }

    /** The same state before a partly read header. */
    ghost function Top(header: seq<Byte>): State
      requires Shape()
      reads this, buff, conn, data
    {
      Here().(rest := header + Rest())
    }

    /** Drop `count` buffered bytes. */
    method Drop(count: nat)
      requires Shape() && rdNext + count <= buffStop
      modifies this`rdNext
      ensures rdNext == old(rdNext) + count && Rest() == old(Rest())[count..]
    {
      rdNext := rdNext + count;
    }

    /** Content of the current record: open a window on what is buffered of it, or drop it. */
    method PassContent() returns (p: Passed)
      requires Shape() && !isClosed && rdNext < buffStop
      modifies this
      ensures Shape() && eorStop == old(eorStop) && buffStop == old(buffStop) && rdNext >= old(rdNext)
      ensures p.Window? ==> Valid() && rdNext < stop && Abs() == old(Here()) && Ready(Abs())
      ensures p.More? ==> !isClosed && rdNext == buffStop && Fill(Here()) == Fill(old(Here())) && old(contentLen) > 0
      ensures p.Past? ==> !isClosed && contentLen == 0 && Consume(old(Here())) == PastContent(Here())
      ensures p.Past? && old(contentLen) == 0 ==> Here() == old(Here())
    {
      hide Fill, Consume, PastContent;
      ghost var s := Here();
      if contentLen > 0 {
        var count := Min(contentLen, buffStop - rdNext);
        contentLen := contentLen - count;
        if !skip {
          stop := rdNext + count;
          return Window;
        }
        Drop(count);
        if contentLen > 0 {
          FillSkips(s, count);
          return More;
        }
        SkipAll(s);
        skip := false;
        return Past;
      }
      NothingToSkip(s);
      return Past;
    }

    /** Padding of the current record, whose content is behind. */
    method PassPadding() returns (p: Passed)
      requires Shape() && !isClosed && contentLen == 0
      modifies this
      ensures Shape() && !isClosed && contentLen == 0 && eorStop == old(eorStop) && buffStop == old(buffStop) &&
              rdNext >= old(rdNext)
      ensures p.More? ==> rdNext == buffStop && Consume(Here()) == PastContent(old(Here())) && old(paddingLen) > 0
      ensures p.More? || p.Past?
      ensures p.Past? ==> paddingLen == 0 && PastContent(old(Here())) == PastPadding(Here())
      ensures p.Past? && old(paddingLen) == 0 ==> Here() == old(Here())
    {
      hide Fill, Consume, PastContent, PastPadding;
      ghost var s := Here();
      if paddingLen > 0 {
        var count := Min(paddingLen, buffStop - rdNext);
        paddingLen := paddingLen - count;
        Drop(count);
        if paddingLen > 0 {
          PadSome(s, count);
          return More;
        }
      }
      PadAll(s);
      return Past;
    }

    /** What is left of the current record, before a header of which some bytes may have been read. */
    method PassRecord(header: seq<Byte>) returns (p: Passed)
      requires Shape() && !isClosed && rdNext < buffStop
      requires header != [] ==> contentLen == 0 && paddingLen == 0 && !eorStop
      modifies this
      ensures Shape() && eorStop == old(eorStop) && buffStop == old(buffStop) && rdNext >= old(rdNext)
      ensures p.Window? ==> Valid() && Abs() == Fill(old(Top(header))) && (!isClosed ==> rdNext < stop)
      ensures !p.Window? ==> !isClosed && (header != [] ==> contentLen == 0 && paddingLen == 0)
      ensures p.More? ==> rdNext == buffStop && Fill(Top(header)) == Fill(old(Top(header)))
      ensures p.Past? ==> contentLen == 0 && paddingLen == 0 && !eorStop &&
                          PastPadding(Top(header)) == Consume(old(Top(header)))
    {
      hide Fill, Consume, PastContent, PastPadding;
      ghost var top := Top(header);
      assert [] + Rest() == Rest();
      p := PassContent();
      assert [] + Rest() == Rest();
      if p == Window {
        FillAtHand(top);
        return;
      }
      if p == More {
        return;
      }
      p := PassPadding();
      assert [] + Rest() == Rest();
      if p == More {
        FillByStep(Here(), top);
        return;
      }
      if eorStop {
        AtEndOfRecord(Here());
        FillStops(top);
        stop := rdNext;
        isClosed := true;
        return Window;
      }
      if header != [] {
        BeforeHeader(top);
      }
    }

    /** Header bytes as far as they are buffered. */
    method ReadHeader(header: seq<Byte>) returns (h: seq<Byte>)
      requires Shape() && !isClosed && contentLen == 0 && paddingLen == 0 && !eorStop && |header| < FCGI_HEADER_LEN
      modifies this`rdNext
      ensures Shape() && |h| <= FCGI_HEADER_LEN
      ensures |h| < FCGI_HEADER_LEN ==> rdNext == buffStop && Top(h) == old(Top(header)) &&
                                        Consume(Top(h)) == PastPadding(Top(h))
      ensures |h| == FCGI_HEADER_LEN ==> rdNext > old(rdNext) && PastPadding(old(Top(header))) == At(h, Here())
    {
      hide Fill, Consume, PastContent, PastPadding;
      ghost var s := Top(header);
      var count := Min(FCGI_HEADER_LEN - |header|, buffStop - rdNext);
      h := header + buff[rdNext..rdNext + count];
      assert Rest()[..count] == buff[rdNext..rdNext + count];
      HeaderBytes(header, Rest(), count);
      Drop(count);
      if |h| < FCGI_HEADER_LEN {
        BeforeHeader(s);
      } else {
        AtHeader(s);
      }
    }

    /** One round of the loop of `FillBuffProc`, up to a whole header. */
    method PassToHeader(header: seq<Byte>) returns (h: seq<Byte>, p: Passed)
      requires Shape() && !isClosed && |header| < FCGI_HEADER_LEN
      requires header != [] ==> contentLen == 0 && paddingLen == 0 && !eorStop
      modifies this, buff, conn`input
      ensures Shape() && eorStop == old(eorStop)
      ensures p.Window? ==> Valid() && Abs() == Fill(old(Top(header))) && (!isClosed ==> rdNext < stop)
      ensures p.More? ==> !isClosed && |h| < FCGI_HEADER_LEN &&
                          (h != [] ==> contentLen == 0 && paddingLen == 0 && !eorStop) &&
                          Fill(Top(h)) == Fill(old(Top(header)))
      ensures p.Past? ==> !isClosed && |h| == FCGI_HEADER_LEN && contentLen == 0 && !eorStop &&
                          Consume(old(Top(header))) == At(h, Here())
      ensures !p.Window? ==> |Rest()| < old(|Rest()|)
    {
      hide Fill, Consume, PastPadding;
      h := header;
      ghost var top := Top(header);
      var ok := Refill();
      if !ok {
        FillAtEnd(top, header);
        return h, Window;
      }
      p := PassRecord(header);
      if p != Past {
        return;
      }
      h := ReadHeader(header);
      if |h| < FCGI_HEADER_LEN {
        FillByStep(Top(h), top);
        p := More;
      }
    }

    /** `FillBuffProc`: one call has the effect of the parser on all the bytes to come. */
    method FillBuffProc()
      requires Valid() && !isClosed && rdNext == stop
      modifies this, buff, conn, data`requestId, data`role, data`isBeginProcessed, data`keepConnection
      ensures Valid() && Abs() == Fill(old(Abs()))
      ensures !isClosed ==> rdNext < stop ||
                            (rdNext == stop && !old(eorStop) && !old(data.isBeginProcessed) && data.isBeginProcessed)
      decreases if eorStop then 0 else 2, 0
    {
      hide Fill, Consume, Dispatch;
      ghost var start := Abs();
      var header: seq<Byte> := [];
      assert [] + Rest() == Rest();
      while true
        invariant Shape() && !isClosed && eorStop == start.eor
        invariant |header| < FCGI_HEADER_LEN && (header != [] ==> contentLen == 0 && paddingLen == 0 && !eorStop)
        invariant Fill(Top(header)) == Fill(start)
        invariant start.req.begun ==> data.isBeginProcessed
        decreases |Rest()|
      {
        ghost var top := Top(header);
        var passed;
        header, passed := PassToHeader(header);
        if passed == Window {
          return;
        }
        if passed == Past {
          FillDispatches(top);
          var again := Interpret(header);
          if !again {
            return;
          }
          header := [];
          assert [] + Rest() == Rest();
        }
      }
    }

    /** A whole header was read: process its record, and say whether to go on. */
    method Interpret(header: seq<Byte>) returns (again: bool)
      requires Shape() && !isClosed && !eorStop && |header| == FCGI_HEADER_LEN && contentLen == 0
      modifies this, buff, conn, data`requestId, data`role, data`isBeginProcessed, data`keepConnection
      ensures Shape() && !eorStop && (again ==> !isClosed)
      ensures var n := Dispatch(header, old(Here()));
              if again then n == Loop(Here()) && |Rest()| <= old(|Rest()|)
              else Valid() && n == Return(Abs()) && (!isClosed ==> rdNext == stop)
      decreases 1, 0
    {
      hide Fill, ReaderSpec.ProcessHeader, AfterHeader;
      eorStop := true;
      stop := rdNext;
      assert Abs() == old(Here()).(eor := true);
      var status := ProcessHeader(header);
      ghost var t := Abs();
      eorStop := false;
      isClosed := false;
      assert status.Error? ==> StateWith(0) == t.(pending := 0, eor := false, closed := false);
      assert !status.Error? ==> Here() == t.(eor := false, closed := false);
      again := Proceed(status, t);
    }

    /** What is to be done with the record. */
    method Proceed(status: Status, ghost t: State) returns (again: bool)
      requires Shape() && !isClosed && !eorStop && (status.Error? ==> status.code != 0)
      requires if status.Error? then StateWith(0) == t.(pending := 0, eor := false, closed := false)
               else Here() == t.(eor := false, closed := false) && (status.BeginRecord? ==> Valid() && rdNext == stop)
      modifies this
      ensures Shape() && !eorStop && (again ==> !isClosed)
      ensures if again then AfterHeader(status, t) == Loop(Here()) && |Rest()| == old(|Rest()|)
              else Valid() && AfterHeader(status, t) == Return(Abs()) && (!isClosed ==> rdNext == stop)
    {
      match status {
        case StreamRecord =>
          if contentLen == 0 {
            stop := rdNext;
            isClosed := true;
            return false;
          }
        case Skip =>
          skip := true;
        case BeginRecord =>
          return false;
        case MgmtRecord =>
        case Error(code) =>
          SetError(code);
          return false;
      }
      return true;
    }

    method ProcessHeader(header: seq<Byte>) returns (status: Status)
      requires Valid() && Anchored() && !isClosed && eorStop && rdNext == stop && |header| == FCGI_HEADER_LEN
      modifies this, buff, conn, data`requestId, data`role, data`isBeginProcessed, data`keepConnection
      ensures Valid() && (status, Abs()) == ReaderSpec.ProcessHeader(header, old(Abs()))
      ensures !status.Error? ==> contentLen == Abs().pending && (!isClosed ==> rdNext == stop)
      decreases 0, 8
    {
      hide Fill, Consume, RecordEnd, RecordContent;
      if header[0] != FCGI_VERSION_1 {
        return Error(FCGX_UNSUPPORTED_VERSION);
      }
      var requestId := HeaderId(header);
      contentLen := HeaderContentLen(header);
      paddingLen := header[6];
      if header[1] == FCGI_BEGIN_REQUEST {
        status := ProcessBeginRecord(requestId);
        return;
      }
      if requestId == 0 {
        status := ProcessManagementRecord(header[1]);
        return;
      }
      if requestId != data.requestId {
        return Status.Skip;
      }
      if header[1] as int != ty {
        return Error(FCGX_PROTOCOL_ERROR);
      }
      return StreamRecord;
    }

    method ProcessBeginRecord(requestId: nat) returns (status: Status)
      requires Valid() && Anchored() && !isClosed && eorStop && rdNext == stop
      modifies this, buff, conn, data`requestId, data`role, data`isBeginProcessed, data`keepConnection
      ensures Valid() && (status, Abs()) == ProcessBegin(requestId, old(Abs()))
      ensures !status.Error? ==> contentLen == Abs().pending && (!isClosed ==> rdNext == stop)
      decreases 0, 7
    {
      hide Fill, Consume, RecordEnd, GetBytes;
      if requestId == 0 || contentLen != 8 {
        return Error(FCGX_PROTOCOL_ERROR);
      }
      if data.isBeginProcessed {
        WriteItAll(conn, Encode(EndRequest(requestId, 0, FCGI_CANT_MPX_CONN)));
        return Status.Skip;
      }
      data.requestId := requestId;
      BeginBody(Abs());
      var body := GetStr(8);
      if |body| != 8 {
        return Error(FCGX_PROTOCOL_ERROR);
      }
      data.keepConnection := KeepsConnection(body);
      data.role := Role(body);
      data.isBeginProcessed := true;
      return BeginRecord;
    }

    method ProcessManagementRecord(ty: Byte) returns (status: Status)
      requires Valid() && Anchored() && !isClosed && eorStop && rdNext == stop
      modifies this, buff, conn, data`requestId, data`role, data`isBeginProcessed, data`keepConnection
      ensures Valid() && (status, Abs()) == ProcessManagement(ty, old(Abs()))
      ensures !status.Error? ==> contentLen == Abs().pending && (!isClosed ==> rdNext == stop)
      decreases 0, 7
    {
      hide Fill, Consume, RecordEnd, RecordContent, Drain, Encode, GetValuesResult, UnknownType, Answers, Decode;
      hide Answerable, SumsFit;
      if ty == FCGI_GET_VALUES {
        var params := new Params(3);
        ghost var s := Abs();
        DrainRecord(s);
        var r := ReadParams(params);
        if errno != 0 || contentLen != 0 {
          return Error(FCGX_PROTOCOL_ERROR);
        }
        defined := defined && Answerable(params.Contents());
        var body := ValuesAnswered(params);
        var paddedLen := AlignInt8(|body|);
        assert params.Contents() == [] + Entries(Decode(RecordContent(s)).pairs) ==
               Entries(Decode(RecordContent(s)).pairs);
        GetValuesReply(params.Contents());
        var header := MakeHeader(FCGI_GET_VALUES_RESULT as int, 0, |body|, paddedLen - |body|);
        WriteItAll(conn, header + body + Zeros(paddedLen - |body|));
      } else {
        UnknownTypeReply(ty);
        WriteItAll(conn, MakeHeader(FCGI_UNKNOWN_TYPE as int, 0, 8, 0) + UnknownTypeBody(ty));
      }
      return MgmtRecord;
    }

    /** Move `count` bytes of the window to the client. */
    method Take(count: nat) returns (bytes: seq<Byte>)
      requires Valid() && !isClosed && rdNext + count <= stop
      modifies this`rdNext
      ensures Valid() && rdNext == old(rdNext) + count
      ensures old(Anchored()) ==> Anchored() && (count > 0 ==> CanUnGet())
      ensures count <= old(Abs()).pending && count <= |old(Abs()).rest|
      ensures Abs() == Advance(old(Abs()), count) && bytes == old(Abs()).rest[..count]
    {
      bytes := buff[rdNext..rdNext + count];
      assert bytes == Rest()[..count];
      rdNext := rdNext + count;
      assert Rest() == old(Rest())[count..];
    }

    /** As much of the window as the client still wants. */
    method TakeUpTo(n: nat) returns (bytes: seq<Byte>)
      requires Valid() && !isClosed && Live(Abs()) && rdNext < stop && n > 0
      modifies this`rdNext
      ensures Valid() && (old(Anchored()) ==> Anchored() && CanUnGet())
      ensures rdNext > old(rdNext) && 0 < |bytes| <= n && (|bytes| < n ==> rdNext == stop)
      ensures Live(Abs()) && |Rest()| < old(|Rest()|)
      ensures var (t, more) := GetBytes(Abs(), n - |bytes|); GetBytes(old(Abs()), n) == (t, bytes + more)
    {
      hide Fill, GetBytes;
      var m := Min(n, stop - rdNext);
      GetBytesAtHand(Abs(), m);
      GetBytesTwice(Abs(), m, n - m);
      bytes := Take(m);
    }

    /** `FCGX_GetChar`. */
    method GetChar() returns (c: int)
      requires Valid() && Anchored() && Live(Abs())
      modifies this, buff, conn, data`requestId, data`role, data`isBeginProcessed, data`keepConnection
      ensures Valid() && Anchored() && (Abs(), c) == GetByte(old(Abs()))
      ensures c >= 0 ==> CanUnGet()
      decreases if eorStop then 0 else 2, 1
    {
      hide Fill;
      if isClosed {
        return -1;
      }
      if rdNext != stop {
        FillAtHand(Abs());
        var next := Take(1);
        return next[0] as int;
      }
      FillBuffProc();
      if isClosed {
        return -1;
      }
      stopUnget := rdNext;
      var next := Take(1);
      return next[0] as int;
    }

    /** Fill the buffer for a client that wants `n` more bytes. */
    method FillFor(n: nat)
      requires Valid() && !isClosed && Live(Abs()) && rdNext == stop && n > 0
      modifies this, buff, conn, data`requestId, data`role, data`isBeginProcessed, data`keepConnection
      ensures Valid() && Live(Abs()) && eorStop == old(eorStop) && |Rest()| <= old(|Rest()|)
      ensures Anchored() && (!isClosed ==> rdNext < stop)
      ensures GetBytes(old(Abs()), n) == if isClosed then (Abs(), []) else GetBytes(Abs(), n)
      decreases if eorStop then 0 else 2, 1
    {
      hide Fill, GetBytes;
      GetBytesAfterFill(Abs(), n);
      FillBuffProc();
      if !isClosed {
        stopUnget := rdNext;
      }
    }

    /** `FCGX_GetStr`. */
    method GetStr(n: int) returns (str: seq<Byte>)
      requires Valid() && Anchored() && Live(Abs())
      modifies this, buff, conn, data`requestId, data`role, data`isBeginProcessed, data`keepConnection
      ensures Valid() && Anchored() && (Abs(), str) == GetBytes(old(Abs()), if n < 0 then 0 else n)
      ensures str != [] && |str| == n ==> CanUnGet()
      decreases if eorStop then 0 else 2, 2
    {
      hide Fill, GetBytes, Anchored, CanUnGet;
      ghost var s := Abs();
      if isClosed || n <= 0 {
        NoBytes(s, if n < 0 then 0 else n);
        return [];
      }
      if n <= stop - rdNext {
        GetBytesAtHand(s, n);
        str := Take(n);
        return;
      }
      str := [];
      assert str + GetBytes(s, n).1 == GetBytes(s, n).1;
      while true
        invariant Valid() && Anchored() && !isClosed && Live(Abs()) && eorStop == old(eorStop)
        invariant |str| < n
        invariant GetBytes(s, n) == (GetBytes(Abs(), n - |str|).0, str + GetBytes(Abs(), n - |str|).1)
        decreases |Rest()|, if rdNext == stop then 1 else 0
      {
        if rdNext != stop {
          var bytes := TakeUpTo(n - |str|);
          Assoc(str, bytes, GetBytes(Abs(), n - |str| - |bytes|).1);
          str := str + bytes;
          if |str| == n {
            NoBytes(Abs(), 0);
            assert str + [] == str;
            return;
          }
        }
        FillFor(n - |str|);
        if isClosed {
          assert str + [] == str;
          return;
        }
      }
    }

    /** `GetChar`, in terms of what the stream still delivers. */
    method GetFirst() returns (c: int)
      requires Valid() && Anchored() && Live(Abs())
      modifies this, buff, conn, data`requestId, data`role, data`isBeginProcessed, data`keepConnection
      ensures Valid() && Anchored() && Live(Abs()) && eorStop == old(eorStop) && c < 256
      ensures |Rest()| <= old(|Rest()|) && (c >= 0 ==> |Rest()| < old(|Rest()|))
      ensures var (rest, end) := Drain(old(Abs()));
              if c < 0 then rest == [] && Abs() == end
              else rest == [c as Byte] + Drain(Abs()).0 && Drain(Abs()).1 == end
      decreases if eorStop then 0 else 2, 2
    {
      hide Fill, GetByte, Drain;
      DrainByByte(Abs());
      c := GetChar();
    }

    /** `ReadParams`. */
    method ReadParams(params: Params) returns (r: int)
      requires Valid() && Anchored() && Live(Abs()) && params.Valid()
      modifies this, buff, conn, data`requestId, data`role, data`isBeginProcessed, data`keepConnection, params,
               params.vec
      ensures Valid() && Anchored() && params.Valid()
      ensures params.vec == old(params.vec) || fresh(params.vec)
      ensures var (content, end) := Drain(old(Abs()));
              Abs() == AfterPairs(content, end) &&
              params.Contents() == old(params.Contents()) + Entries(Decode(content).pairs) &&
              r == if Decode(content).ok then 0 else -1
      decreases if eorStop then 0 else 2, 6
    {
      hide Fill, GetByte, GetBytes, Drain, Decode, DecodePair, Prepend, Entries, Entry, DecodeLength, Consume, SumsFit,
           RoomFits, Mark, SoFar;
      ghost var (content, end) := Drain(Abs());
      ghost var read, ahead := [], content;      // the pairs read so far, and the content after them
      MarkTwice(end, true, true);
      SoFarNothing(content);
      ghost var fits := true;                    // whether the sums of lengths so far were in range
      assert params.Contents() + Entries(read) == params.Contents();
      var nameLen := GetFirst();
      while nameLen >= 0
        invariant Valid() && Anchored() && Live(Abs()) && params.Valid() && eorStop == old(eorStop)
        invariant params.vec == old(params.vec) || fresh(params.vec)
        invariant params.Contents() == old(params.Contents()) + Entries(read)
        invariant SoFar(content, read, ahead, fits) && nameLen < 256
        invariant if nameLen < 0 then ahead == [] && Abs() == Mark(end, fits)
                  else ahead == [nameLen as Byte] + Drain(Abs()).0 && Drain(Abs()).1 == Mark(end, fits)
        decreases nameLen >= 0, |Rest()|
      {
        SoFarNext(content, read, ahead, fits);
        var ok := ReadParam(params, nameLen as Byte);
        if !ok {
          MarkTwice(end, fits, RoomFits(ahead));
          return -1;
        }
        ghost var p := DecodePair(ahead);
        EntriesMore(old(params.Contents()), read, p.pair);
        MarkTwice(end, fits, RoomFits(ahead));
        fits := fits && RoomFits(ahead);
        read, ahead := read + [p.pair], ahead[p.size..];
        nameLen := GetFirst();
      }
      SoFarAll(content, read, fits);
      return 0;
    }

    /** One pair, of which the first byte has been read, into the parameters. */
    method ReadParam(params: Params, first: Byte) returns (ok: bool)
      requires Valid() && Anchored() && Live(Abs()) && params.Valid()
      modifies this, buff, conn, data`requestId, data`role, data`isBeginProcessed, data`keepConnection, params,
               params.vec
      ensures Valid() && Anchored() && params.Valid() && Live(Abs()) && eorStop == old(eorStop) &&
              |Rest()| <= old(|Rest()|)
      ensures params.vec == old(params.vec) || fresh(params.vec)
      ensures var (rest, end) := Drain(old(Abs())); var p := DecodePair([first] + rest);
              var marked := Mark(end, RoomFits([first] + rest));
              if p.Short? then !ok && Abs() == Fail(marked, FCGX_PARAMS_ERROR) &&
                               params.Contents() == old(params.Contents())
              else ok && Drain(Abs()) == (([first] + rest)[p.size..], marked) &&
                   params.Contents() == old(params.Contents()) + [Entry(p.pair)]
      decreases if eorStop then 0 else 2, 5
    {
      hide Fill, Drain, DecodePair, Entry, RoomFits;
      var nameValue := ReadPair(first);
      if nameValue == NULL {
        SetError(FCGX_PARAMS_ERROR);
        return false;
      }
      params.PutParam(nameValue.bytes);
      return true;
    }

    /** A length whose first byte has been read. */
    method ReadLength(first: Byte) returns (len: int)
      requires Valid() && Anchored() && Live(Abs())
      modifies this, buff, conn, data`requestId, data`role, data`isBeginProcessed, data`keepConnection
      ensures Valid() && Anchored() && Live(Abs()) && eorStop == old(eorStop) && |Rest()| <= old(|Rest()|)
      ensures var (rest, end) := Drain(old(Abs())); var l := DecodeLength([first] + rest);
              if l.Truncated? then len == -1 && Abs() == end
              else len == l.value && Drain(Abs()) == (([first] + rest)[l.size..], end)
      decreases if eorStop then 0 else 2, 3, 0
    {
      hide Fill, GetByte, GetBytes, Drain;
      ghost var s := Abs();
      ghost var (rest, end) := Drain(s);
      assert ([first] + rest)[1..] == rest;
      if first < 128 {
        return first as int;
      }
      GetBytesIsAPrefix(s, 3);
      var lenBuff := GetStr(3);
      if |lenBuff| != 3 {
        return -1;
      }
      DropAppend([first] + lenBuff, Drain(Abs()).0);
      Assoc([first], lenBuff, Drain(Abs()).0);
      return ((first as int - 128) * 256 + lenBuff[0] as int) * 0x1_0000 + lenBuff[1] as int * 256 + lenBuff[2] as int;
    }

    /** A pair of which the first byte has been read, as an environment entry. */
    method ReadPair(first: Byte) returns (nameValue: Pointer)
      requires Valid() && Anchored() && Live(Abs())
      modifies this, buff, conn, data`requestId, data`role, data`isBeginProcessed, data`keepConnection
      ensures Valid() && Anchored() && Live(Abs()) && eorStop == old(eorStop) && |Rest()| <= old(|Rest()|)
      ensures var (rest, end) := Drain(old(Abs())); var p := DecodePair([first] + rest);
              var marked := Mark(end, RoomFits([first] + rest));
              if p.Short? then nameValue == NULL && Abs() == marked
              else nameValue == String(Entry(p.pair)) && Drain(Abs()) == (([first] + rest)[p.size..], marked)
      decreases if eorStop then 0 else 2, 4
    {
      hide Fill, GetByte, GetBytes, Drain, DecodeLength, DecodePair, RoomFits;
      ghost var (rest, end) := Drain(Abs());
      ghost var bs := [first] + rest;
      PairInPieces(bs);
      var nameLen := ReadLength(first);
      if nameLen < 0 {
        return NULL;
      }
      ghost var s := Abs();
      var valueFirst := GetChar();
      DrainByByte(s);
      if valueFirst < 0 {
        NoLength();
        return NULL;
      }
      var valueLen := ReadLength(valueFirst as Byte);
      if valueLen < 0 {
        return NULL;
      }
      nameValue := ReadEntry(nameLen, valueLen);
    }

    /** A name and a value of which the lengths have been read. */
    method ReadEntry(nameLen: nat, valueLen: nat) returns (nameValue: Pointer)
      requires Valid() && Anchored() && Live(Abs())
      modifies this, buff, conn, data`requestId, data`role, data`isBeginProcessed, data`keepConnection
      ensures Valid() && Anchored() && Live(Abs()) && eorStop == old(eorStop) && |Rest()| <= old(|Rest()|)
      ensures var (body, end) := Drain(old(Abs())); var marked := Mark(end, nameLen + valueLen + 2 <= INT_MAX);
              if |body| < nameLen || |body[nameLen..]| < valueLen then nameValue == NULL && Abs() == marked
              else nameValue == String(Entry(Pair(body[..nameLen], body[nameLen..][..valueLen]))) &&
                   Drain(Abs()) == (body[nameLen..][valueLen..], marked)
      decreases if eorStop then 0 else 2, 3, 1
    {
      hide Fill, GetByte, GetBytes, Drain;
      DrainMark(Abs(), nameLen + valueLen + 2 <= INT_MAX);
      defined := defined && nameLen + valueLen + 2 <= INT_MAX;
      var name := GetContent(nameLen);
      if |name| != nameLen {
        return NULL;
      }
      var value := GetContent(valueLen);
      if |value| != valueLen {
        return NULL;
      }
      return String(name + [EQ] + value);
    }

    /** `GetStr`, in terms of what the stream still delivers. */
    method GetContent(n: nat) returns (str: seq<Byte>)
      requires Valid() && Anchored() && Live(Abs())
      modifies this, buff, conn, data`requestId, data`role, data`isBeginProcessed, data`keepConnection
      ensures Valid() && Anchored() && Live(Abs()) && eorStop == old(eorStop) && |Rest()| <= old(|Rest()|)
      ensures var (rest, end) := Drain(old(Abs()));
              if n <= |rest| then str == rest[..n] && Drain(Abs()) == (rest[n..], end)
              else |str| < n && Abs() == end
      decreases if eorStop then 0 else 2, 3, 0
    {
      hide Fill, GetByte, GetBytes, Drain;
      GetBytesIsAPrefix(Abs(), n);
      str := GetStr(n);
      DropAppend(str, Drain(Abs()).0);
    }

    /** `FCGX_GetLine` into an array of `n` characters: NULL only at the end of the stream. */
    method GetLine(n: int) returns (line: Pointer)
      requires Valid() && Anchored() && Live(Abs()) && !eorStop
      modifies this, buff, conn, data`requestId, data`role, data`isBeginProcessed, data`keepConnection
      ensures Valid() && Anchored() && !eorStop
      ensures var room := if n <= 1 then 0 else n - 1; var (t, bs) := ReaderLaws.GetLine(old(Abs()), room);
              Abs() == t && line == if room > 0 && bs == [] then NULL else String(bs)
      ensures line.String? && line.bytes != [] ==> isClosed || CanUnGet()
    {
      hide Fill, GetByte;
      ghost var s, room := Abs(), if n <= 1 then 0 else n - 1;
      var left := n - 1;
      var p: seq<Byte> := [];
      assert p + ReaderLaws.GetLine(s, room).1 == ReaderLaws.GetLine(s, room).1;
      while left > 0
        invariant Valid() && Anchored() && Live(Abs()) && !eorStop && (left >= 0 ==> |p| + left == room)
        invariant left < 0 ==> room == 0
        invariant p != [] ==> isClosed || CanUnGet()
        invariant left < 0 ==> Abs() == s && p == []
        invariant left >= 0 ==> ReaderLaws.GetLine(s, room) ==
                                (ReaderLaws.GetLine(Abs(), left).0, p + ReaderLaws.GetLine(Abs(), left).1)
      {
        ghost var more := ReaderLaws.GetLine(Abs(), left).1;
        var c := GetChar();
        if c < 0 {
          assert p + [] == p;
          if p == [] {
            return NULL;
          }
          return String(p);
        }
        p := p + [c as Byte];
        left := left - 1;
        if c == NEWLINE as int {
          return String(p);
        }
        Assoc(p[..|p| - 1], [c as Byte], ReaderLaws.GetLine(Abs(), left).1);
      }
      assert p + [] == p;
      return String(p);
    }

    /** `FCGX_UnGetChar`. With nothing before `rdNext`, and `stopUnget` left over from before a change of
        stream, the code would write in front of its buffer. */
    method UnGetChar(c: int) returns (r: int)
      requires Valid() && Anchored() && !eorStop
      modifies this, buff
      ensures Valid() && Anchored() && stopUnget == old(stopUnget) && isClosed == old(isClosed)
      ensures if c == -1 || old(isClosed || rdNext == stopUnget) then
                r == -1 && Abs() == old(Abs()) && rdNext == old(rdNext)
              else if old(rdNext) > 0 then
                r == c && Abs() == PushBack(old(Abs()), ToByte(c)) && rdNext == old(rdNext) - 1
              else Abs() == Mark(old(Abs()), false) && rdNext == 0
    {
      if c == -1 || isClosed || rdNext == stopUnget {
        return -1;
      }
      if rdNext == 0 {
        defined := false;
        return c;
      }
      rdNext := rdNext - 1;
      buff[rdNext] := ToByte(c);
      assert buff[rdNext..buffStop] == [ToByte(c)] + old(buff[rdNext..buffStop]);
      Assoc([ToByte(c)], old(buff[rdNext..buffStop]), conn.input);
      return c;
    }

    /** After any read that returned a byte one pushback is in bounds, and undoes the read. */
    method GetAndUnGet() returns (c: int)
      requires Valid() && Anchored() && Live(Abs()) && !eorStop
      modifies this, buff, conn, data`requestId, data`role, data`isBeginProcessed, data`keepConnection
      ensures Valid() && Anchored() && Live(Abs())
      ensures c == GetByte(old(Abs())).1 && Abs().defined == GetByte(old(Abs())).0.defined
      ensures Drain(Abs()) == Drain(old(Abs()))
    {
      hide Fill, GetByte, Drain;
      ghost var s := Abs();
      DrainByByte(s);
      c := GetChar();
      if c >= 0 {
        PushBackIsNext(Abs(), c as Byte);
        var r := UnGetChar(c);
      }
    }

    /** Where a change of stream left `stopUnget` ahead of `rdNext`, pushing back once more than there are
        bytes in front is beyond what C defines. */
    method UnGetTooFar(c: int)
      requires Valid() && Anchored() && !eorStop && !isClosed && rdNext == stop && rdNext < stopUnget && c != -1
      modifies this, buff
      ensures Valid() && !Abs().defined
    {
      while rdNext > 0
        invariant Valid() && Anchored() && !isClosed && !eorStop && rdNext < stopUnget
      {
        var r := UnGetChar(c);
      }
      var r := UnGetChar(c);
    }

    /** `FCGX_StartFilterData`. */
    method StartFilterData() returns (r: int)
      requires Valid() && Anchored()
      modifies this
      ensures Valid() && Anchored()
      ensures if old(Abs()).req.role == FCGI_FILTER && old(isClosed) && old(ty) == FCGI_STDIN as int
              then r == 0 && Abs() == SetType(old(Abs()), FCGI_DATA as int)
              else r == -1 && Abs() == Fail(old(Abs()), FCGX_CALL_SEQ_ERROR)
    {
      if data.role != FCGI_FILTER || !isClosed || ty != FCGI_STDIN as int {
        SetError(FCGX_CALL_SEQ_ERROR);
        return -1;
      }
      SetReaderType(FCGI_DATA as int);
      return 0;
    }
  }

  /** The answers to the entries of an FCGI_GET_VALUES record. */
  method ValuesAnswered(params: Params) returns (response: seq<Byte>)
    requires params.Valid()
    ensures response == Answers(params.Contents())
  {
    hide Answer;
    response := [];
    var p := 0;
    while p < params.cur
      invariant p <= params.cur && response == Answers(params.Contents()[..p])
    {
      assert params.Contents()[..p + 1][..p] == params.Contents()[..p];
      assert params.Contents()[..p + 1][p] == params.vec[p].bytes;
      response := response + Answer(params.vec[p].bytes);
      p := p + 1;
    }
    assert params.Contents()[..p] == params.Contents();
  }

  /** What passing a part of a record came to. */
  datatype Passed = Window | More | Past
}
