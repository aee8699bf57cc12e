/** From a writer to a reader: the bytes put are the bytes read. */
module RoundTrip {
  import opened Bytes
  import opened Wire
  import opened ReaderSpec
  import opened WriterSpec
  import opened WriterLaws
  import opened Demux
  import opened Environment
  import opened Readers
  import opened Writers

  datatype Use = Bytes(bytes: seq<Byte>) | Char(c: int) | Flushing

  /** The bytes that a use puts. */
  function Part(u: Use): seq<Byte> {
    match u
    case Bytes(bs) => bs
    case Char(c) => [ToByte(c)]
    case Flushing => []
  }

  /** One use of a writer. */
  function UseOnce(w: Writer, id: int, u: Use): (r: (Writer, seq<Record>))
    requires Sound(w)
    ensures Sound(r.0)
  {
    if u.Flushing? then Flush(w, id) else Put(w, id, Part(u))
  }

  /** A run of puts and flushes of one writer: the writer left and the records emitted. */
  function Uses(w: Writer, id: int, us: seq<Use>): (r: (Writer, seq<Record>))
    requires Sound(w)
    ensures Sound(r.0)
    decreases |us|
  {
    if us == [] then (w, []) else
    var (v, rs) := UseOnce(w, id, us[0]);
    var (u, more) := Uses(v, id, us[1..]);
    (u, rs + more)
  }

  /** The bytes a run puts. */
  function Given(us: seq<Use>): seq<Byte> {
    if us == [] then [] else Part(us[0]) + Given(us[1..])
  }

  /** Everything on the wire of a writer made by `FCGX_CreateWriter`, used and then closed. */
  function WireOf(w: Writer, id: int, us: seq<Use>): seq<Record>
    requires Sound(w)
  {
    var (v, rs) := Uses(w, id, us);
    rs + CloseRecords(v, id, false, 0)
  }

  lemma {:induction false} UsesConserve(w: Writer, id: int, us: seq<Use>)
    requires Sound(w) && !w.closed
    ensures var (v, rs) := Uses(w, id, us);
            v.ty == w.ty && !v.closed && DataOnly(rs, w.ty, id) &&
            Contents(rs) + v.buffered == w.buffered + Given(us) &&
            v.written == (w.written || Contents(rs) != [])
    decreases |us|
  {
    hide Put, Flush, DataOnly;
    if us == [] {
      assert DataOnly([], w.ty, id) by { NoData(w.ty, id); }
      assert [] + w.buffered == w.buffered + [];
    } else {
      var (v, rs) := UseOnce(w, id, us[0]);
      var bytes := Part(us[0]);
      if us[0].Flushing? {
        FlushFacts(w, id);
      } else {
        PutFacts(w, id, bytes);
      }
      UsesConserve(v, id, us[1..]);
      var (u, more) := Uses(v, id, us[1..]);
      ContentsAppend(rs, more);
      DataOnlyAppend(rs, more, w.ty, id);
      Assoc(Contents(rs), Contents(more), u.buffered);
      Assoc(Contents(rs), v.buffered, Given(us[1..]));
      assert w.buffered + [] == w.buffered;
      Assoc(w.buffered, bytes, Given(us[1..]));
    }
  }

  lemma NoData(ty: Byte, id: int)
    ensures DataOnly([], ty, id)
  {
  }

  /** The wire of a writer: nonempty records holding the bytes put, then the empty one, which only
      an error stream never used goes without. */
  lemma WireFacts(w: Writer, id: int, us: seq<Use>) returns (data: seq<Record>)
    requires Sound(w) && !w.closed && w.buffered == [] && !w.written
    ensures DataOnly(data, w.ty, id) && Contents(data) == Given(us)
    ensures WireOf(w, id, us) ==
            data + if w.ty == FCGI_STDERR && Given(us) == [] then [] else [DataRecord(w.ty, id, [])]
  {
    hide Flush, DataOnly, DataRecord;
    var (v, rs) := Uses(w, id, us);
    UsesConserve(w, id, us);
    FlushFacts(v, id);
    var flushed := Flush(v, id).1;
    data := rs + flushed;
    ContentsAppend(rs, flushed);
    DataOnlyAppend(rs, flushed, w.ty, id);
    assert [] + Given(us) == Given(us);
    assert CloseRecords(v, id, false, 0) == flushed + Announcement(v, id) + [] == flushed + Announcement(v, id);
    Assoc(rs, flushed, Announcement(v, id));
  }

  lemma {:induction false} DataIsDelivered(ty: Byte, id: int, rs: seq<Record>)
    requires DataOnly(rs, ty, id) && ty != FCGI_BEGIN_REQUEST && id % 0x1_0000 > 0
    ensures DeliverAll(id % 0x1_0000, false, rs) == Outcome(false, Contents(rs), [], true)
    ensures AllRegular(id % 0x1_0000, ty as int, false, rs)
    decreases |rs|
  {
    if rs != [] {
      assert rs[0] in rs && rs == [rs[0]] + rs[1..];
      DataIsDelivered(ty, id, rs[1..]);
      ContentsAppend([rs[0]], rs[1..]);
      ContentsOne(rs[0]);
    }
  }

  /** Round trip: whatever is put on a writer, with flushes anywhere and whatever its buffer size, a
      reader of the same request and type delivers exactly those bytes and then the end of the stream. */
  lemma WriteThenRead(w: Writer, id: int, us: seq<Use>, s: State, tail: seq<Byte>)
    requires Sound(w) && !w.closed && w.buffered == [] && !w.written && w.ty != FCGI_BEGIN_REQUEST
    requires w.ty != FCGI_STDERR || Given(us) != []
    requires Between(s) && !s.skip && s.req.id == id % 0x1_0000 && s.ty == w.ty as int
    requires s.rest == EncodeAll(WireOf(w, id, us)) + tail
    ensures Drain(s) == (Given(us), s.(rest := tail, closed := true))
  {
    hide Drain, DataOnly, EncodeAll, DeliverAll, WireOf;
    var data := WireFacts(w, id, us);
    var end := DataRecord(w.ty, id, []);
    EncodeAllAppend(data, [end]);
    EncodeAllOne(end);
    Assoc(EncodeAll(data), Encode(end), tail);
    DataIsDelivered(w.ty, id, data);
    DemultiplexedStream(s, data, end, tail);
    EncodeAllNothing(s.sent);
    assert [] + tail == tail;
  }

  /** An error stream never used leaves nothing on the wire, not even its end. */
  lemma UnusedErrorStream(w: Writer, id: int, us: seq<Use>)
    requires Sound(w) && !w.closed && w.buffered == [] && !w.written && w.ty == FCGI_STDERR
    ensures WireOf(w, id, us) == [] <==> Given(us) == []
  {
    var data := WireFacts(w, id, us);
    NonemptyContents(data, w.ty, id);
  }

  // ---------------------------------------------------------------------------------------
  // The same of the stream objects.

  lemma {:induction false} UsesMore(w: Writer, id: int, us: seq<Use>, u: Use)
    requires Sound(w)
    ensures var (v, rs) := Uses(w, id, us); var (t, more) := UseOnce(v, id, u);
            Uses(w, id, us + [u]) == (t, rs + more)
    decreases |us|
  {
    hide UseOnce;
    if us == [] {
      assert [] + [u] == [u] && [u][1..] == [];
      var (t, more) := UseOnce(w, id, u);
      assert Uses(t, id, []) == (t, []) && more + [] == more == [] + more;
    } else {
      assert (us + [u])[0] == us[0] && (us + [u])[1..] == us[1..] + [u];
      var (v, rs) := UseOnce(w, id, us[0]);
      UsesMore(v, id, us[1..], u);
      var (x, rest) := Uses(v, id, us[1..]);
      Assoc(rs, rest, UseOnce(x, id, u).1);
    }
  }

  /** `FCGX_CreateWriter`: two writers are said to be open, so that no end of the request is written. */
  method CreateWriter(conn: Connection, requestId: int, bufflen: int, ty: Byte) returns (w: StreamWriter)
    ensures fresh(w) && fresh(w.buff) && fresh(w.data) && w.conn == conn && w.Steady()
    ensures w.data.requestId == requestId && w.data.nWriters == 2
    ensures w.Abs() == Writer(ty, w.buff.Length - FCGI_HEADER_LEN, [], false, false)
  {
    var data := new RequestData();
    data.requestId, data.nWriters := requestId, 2;
    var aligned: bool := *;
    w := new StreamWriter(conn, data, bufflen, ty, aligned);
  }

  /** Puts and flushes on a writer. */
  method UseAll(w: StreamWriter, us: seq<Use>)
    requires w.Steady()
    modifies w, w.buff, w.conn`output, w.data`nWriters
    ensures w.Steady() && w.data.nWriters == old(w.data.nWriters) && w.isClosed == old(w.isClosed)
    ensures var (v, rs) := Uses(old(w.Abs()), w.data.requestId, us);
            w.Abs() == v && w.conn.output == old(w.conn.output) + EncodeAll(rs)
  {
    hide Put, Flush, EncodeAll, Uses;
    ghost var start, base, id := w.Abs(), w.conn.output, w.data.requestId;
    NothingUsed(start, id, base);
    for i := 0 to |us|
      invariant w.Steady() && w.data.nWriters == old(w.data.nWriters) && w.isClosed == old(w.isClosed)
      invariant var (v, rs) := Uses(start, id, us[..i]); w.Abs() == v && w.conn.output == base + EncodeAll(rs)
    {
      assert us[..i + 1] == us[..i] + [us[i]];
      UsesMore(start, id, us[..i], us[i]);
      EncodeAllMore(base, Uses(start, id, us[..i]).1, UseOnce(w.Abs(), id, us[i]).1);
      match us[i] {
        case Bytes(bs) => var r := w.PutStr(bs);
        case Char(c) => var r := w.PutChar(c);
        case Flushing => var r := w.FFlush();
      }
    }
    assert us[..|us|] == us;
  }

  lemma NothingUsed(w: Writer, id: int, output: seq<Byte>)
    requires Sound(w)
    ensures Uses(w, id, []) == (w, []) && output + EncodeAll([]) == output
  {
  }

  /** A writer made for the purpose, used and closed, puts on its connection the records of that use. */
  method WriteStream(conn: Connection, requestId: int, bufflen: int, ty: Byte, us: seq<Use>) returns (w: StreamWriter)
    modifies conn`output
    ensures fresh(w) && FCGI_HEADER_LEN < w.buff.Length <= FCGI_MAX_LENGTH + 1
    ensures conn.output == old(conn.output) +
              EncodeAll(WireOf(Writer(ty, w.buff.Length - FCGI_HEADER_LEN, [], false, false), requestId, us))
  {
    hide EncodeAll, Uses;
    w := CreateWriter(conn, requestId, bufflen, ty);
    ghost var start, base := w.Abs(), conn.output;
    UseAll(w, us);
    ghost var (v, rs) := Uses(start, requestId, us);
    EncodeAllMore(base, rs, CloseRecords(v, requestId, false, 0));
    assert CloseRecords(v, requestId, false, 0) == CloseRecords(v, requestId, false, w.data.appStatus);
    var r := w.FClose();
  }

  /** Everything a reader still delivers, a byte at a time. */
  method ReadStream(reader: Reader) returns (bytes: seq<Byte>)
    requires reader.Valid() && reader.Anchored() && Live(reader.Abs())
    modifies reader, reader.buff, reader.conn, reader.data`requestId, reader.data`role,
             reader.data`isBeginProcessed, reader.data`keepConnection
    ensures reader.Valid() && (bytes, reader.Abs()) == Drain(old(reader.Abs()))
  {
    hide Drain;
    bytes := [];
    ghost var all := Drain(reader.Abs());
    assert bytes + all.0 == all.0;
    while true
      invariant reader.Valid() && reader.Anchored() && Live(reader.Abs())
      invariant all == (bytes + Drain(reader.Abs()).0, Drain(reader.Abs()).1)
      decreases |reader.Rest()|
    {
      var c := reader.GetFirst();
      if c < 0 {
        assert bytes + [] == bytes;
        return;
      }
      Assoc(bytes, [c as Byte], Drain(reader.Abs()).0);
      bytes := bytes + [c as Byte];
    }
  }

  /** The round trip on the objects: what is put on a writer, in whatever pieces and with whatever
      flushes, is what a reader of its connection's output returns, whatever the sizes of their buffers. */
  method SendAndReceive(requestId: int, ty: Byte, us: seq<Use>, writeSize: int, readSize: int)
      returns (bytes: seq<Byte>, errno: int)
    requires ty != FCGI_BEGIN_REQUEST && requestId % 0x1_0000 > 0 && (ty != FCGI_STDERR || Given(us) != [])
    ensures bytes == Given(us) && errno == 0
  {
    hide Drain, EncodeAll, WireOf;
    var sent := new Connection([], 0);
    var w := WriteStream(sent, requestId, writeSize, ty, us);
    var received := new Connection(sent.output, 0);
    var data := new RequestData();
    data.requestId, data.isBeginProcessed := requestId % 0x1_0000, true;
    var aligned: bool := *;
    var reader := new Reader(received, data, readSize, ty as int, aligned);
    ghost var wire := EncodeAll(WireOf(Writer(ty, w.buff.Length - FCGI_HEADER_LEN, [], false, false), requestId, us));
    assert received.input == wire by { assert [] + wire == wire; }
    assert wire + [] == wire;
    WriteThenRead(Writer(ty, w.buff.Length - FCGI_HEADER_LEN, [], false, false), requestId, us, reader.Abs(), []);
    bytes := ReadStream(reader);
    errno := reader.errno;
  }
}
