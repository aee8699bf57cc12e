/** What writing means: the records that a writer emits when it is put on, flushed and closed. */
module WriterSpec {
  import opened Bytes
  import opened Wire
  import opened ReaderSpec

  /** A writer with room for `room` content bytes. `written` records whether a record was emitted; once a writer is
      closed it no longer matters. */
  datatype Writer = Writer(ty: Byte, room: nat, buffered: seq<Byte>, written: bool, closed: bool)

  /** The most content a record of this library holds: a full buffer less its header. */
  const MAX_CONTENT := FCGI_MAX_LENGTH + 1 - FCGI_HEADER_LEN

  predicate Sound(w: Writer) {
    0 < w.room <= MAX_CONTENT && |w.buffered| <= w.room && (w.closed ==> w.buffered == [] && w.written)
  }

  /** Content as a record, padded to a multiple of 8. */
  function DataRecord(ty: Byte, id: int, content: seq<Byte>): Record {
    Record(ty, id % 0x1_0000, content, Zeros(AlignInt8(|content|) - |content|), 0)
  }

  /** `EmptyBuffProc` without closing. */
  function Flush(w: Writer, id: int): (Writer, seq<Record>) {
    if w.closed || w.buffered == [] then (w, [])
    else (w.(buffered := [], written := true), [DataRecord(w.ty, id, w.buffered)])
  }

  /** `FCGX_PutStr`: a record is emitted each time the buffer is full and more bytes are to come. */
  function Put(w: Writer, id: int, bs: seq<Byte>): (r: (Writer, seq<Record>))
    requires Sound(w)
    ensures Sound(r.0)
    decreases |w.buffered| + |bs|
  {
    var free := w.room - |w.buffered|;
    if w.closed then (w, [])
    else if |bs| <= free then (w.(buffered := w.buffered + bs), [])
    else
      var (v, flushed) := Flush(w.(buffered := w.buffered + bs[..free]), id);
      var (u, more) := Put(v, id, bs[free..]);
      (u, flushed + more)
  }

  /** The bytes that fill a writer up and the record they complete, when there are more to come. */
  function Overflow(w: Writer, id: int, bs: seq<Byte>): (Writer, seq<Record>)
    requires Sound(w) && |bs| >= w.room - |w.buffered|
  {
    Flush(w.(buffered := w.buffered + bs[..w.room - |w.buffered|]), id)
  }

  lemma PutFits(w: Writer, id: int, bs: seq<Byte>)
    requires Sound(w) && (w.closed || |bs| <= w.room - |w.buffered|)
    ensures Put(w, id, bs) == (if w.closed then w else w.(buffered := w.buffered + bs), [])
  {
  }

  lemma PutOverflows(w: Writer, id: int, bs: seq<Byte>)
    requires Sound(w) && !w.closed && |bs| > w.room - |w.buffered|
    ensures var (v, rs) := Overflow(w, id, bs); var (u, more) := Put(v, id, bs[w.room - |w.buffered|..]);
            Sound(v) && v.buffered == [] && v.room == w.room && !v.closed && Put(w, id, bs) == (u, rs + more)
  {
  }

  lemma NothingToPut(w: Writer, id: int)
    requires Sound(w)
    ensures Put(w, id, []) == (w, [])
  {
    assert w.buffered + [] == w.buffered;
  }

  /** One round of putting, after some records have been emitted. */
  lemma PutByRound(w: Writer, id: int, bs: seq<Byte>, emitted: seq<Record>)
    requires Sound(w)
    ensures !w.closed ==>
              var (u, rs) := Put(w, id, bs); var free := w.room - |w.buffered|;
              if |bs| <= free then
                var v := w.(buffered := w.buffered + bs);
                Put(v, id, []) == (v, []) && (u, emitted + rs) == (v, emitted + [])
              else
                var (v, flushed) := Overflow(w, id, bs); var (t, more) := Put(v, id, bs[free..]);
                (u, emitted + rs) == (t, emitted + flushed + more)
  {
    if !w.closed {
      var free := w.room - |w.buffered|;
      if |bs| <= free {
        NothingToPut(w.(buffered := w.buffered + bs), id);
      } else {
        PutOverflows(w, id, bs);
        var (v, flushed) := Overflow(w, id, bs);
        Assoc(emitted, flushed, Put(v, id, bs[free..]).1);
      }
    }
  }

  /** Whether closing writes an empty record: always, except for an error stream never used. */
  predicate Announces(w: Writer) {
    !(w.ty == FCGI_STDERR && w.buffered == [] && !w.written)
  }

  /** The records that closing a writer emits; the last writer of a request ends it. */
  function CloseRecords(w: Writer, id: int, last: bool, status: int): seq<Record> {
    Flush(w, id).1
    + (if Announces(w) then [DataRecord(w.ty, id, [])] else [])
    + (if last then [EndRequest(id, status, FCGI_REQUEST_COMPLETE)] else [])
  }

  function Closed(w: Writer): Writer {
    w.(buffered := [], written := true, closed := true)
  }

  /** What closing a writer adds to the wire while `nWriters` writers of its request are open. */
  function Finishing(w: Writer, id: int, nWriters: int, status: int): seq<Record> {
    if w.closed then [] else CloseRecords(w, id, nWriters == 1, status)
  }

  function Count(w: Writer): int {
    if w.closed then 0 else 1
  }
}
