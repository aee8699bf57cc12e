/** What the operations of a writer keep, and what every run of the two writers of a request puts on the wire. */
module WriterLaws {
  import opened Bytes
  import opened Wire
  import opened ReaderSpec
  import opened WriterSpec

  // ---------------------------------------------------------------------------------------
  // Records by type.

  /** The records of one type, in order. */
  function Of(rs: seq<Record>, ty: Byte): seq<Record> {
    if rs == [] then []
    else Of(rs[..|rs| - 1], ty) + if rs[|rs| - 1].ty == ty then [rs[|rs| - 1]] else []
  }

  lemma {:induction false} OfAppend(a: seq<Record>, b: seq<Record>, ty: Byte)
    ensures Of(a + b, ty) == Of(a, ty) + Of(b, ty)
    decreases |b|
  {
    if b == [] {
      assert a + b == a;
    } else {
      var n := |b| - 1;
      assert (a + b)[..|a + b| - 1] == a + b[..n];
      OfAppend(a, b[..n], ty);
      Assoc(Of(a, ty), Of(b[..n], ty), if b[n].ty == ty then [b[n]] else []);
    }
  }

  function Contents(rs: seq<Record>): seq<Byte> {
    if rs == [] then [] else Contents(rs[..|rs| - 1]) + rs[|rs| - 1].content
  }

  lemma {:induction false} ContentsAppend(a: seq<Record>, b: seq<Record>)
    ensures Contents(a + b) == Contents(a) + Contents(b)
    decreases |b|
  {
    if b == [] {
      assert a + b == a;
    } else {
      var n := |b| - 1;
      assert (a + b)[..|a + b| - 1] == a + b[..n];
      ContentsAppend(a, b[..n]);
      Assoc(Contents(a), Contents(b[..n]), b[n].content);
    }
  }

  lemma ContentsOne(r: Record)
    ensures Contents([r]) == r.content
  {
    assert Contents([r]) == Contents([]) + r.content;
  }

  /** A record as a writer lays it out: it fits its header and its buffer, and is a multiple of 8 bytes long. */
  predicate WellFormed(r: Record, id: int) {
    Fits(r) && r.id == id % 0x1_0000 && |r.content| <= 65528 && (|r.content| + |r.padding|) % 8 == 0 &&
    |r.padding| < 8
  }

  /** Nonempty records of one type. */
  predicate DataOnly(rs: seq<Record>, ty: Byte, id: int) {
    forall r :: r in rs ==> r.ty == ty && r.content != [] && WellFormed(r, id)
  }

  /** Records that are all of one type. */
  predicate AllOfType(rs: seq<Record>, ty: Byte) {
    forall i :: 0 <= i < |rs| ==> rs[i].ty == ty
  }

  lemma {:induction false} OneTypeOnly(rs: seq<Record>, ty: Byte, other: Byte)
    requires AllOfType(rs, ty)
    ensures Of(rs, other) == if other == ty then rs else []
    decreases |rs|
  {
    if rs != [] {
      var n := |rs| - 1;
      OneTypeOnly(rs[..n], ty, other);
      assert rs == rs[..n] + [rs[n]];
    }
  }

  lemma DataOf(rs: seq<Record>, ty: Byte, id: int, other: Byte)
    requires DataOnly(rs, ty, id)
    ensures Of(rs, other) == if other == ty then rs else []
  {
    forall i | 0 <= i < |rs| ensures rs[i].ty == ty {
      assert rs[i] in rs;
    }
    OneTypeOnly(rs, ty, other);
  }

  // ---------------------------------------------------------------------------------------
  // What one operation of a writer emits.

  lemma FlushFacts(w: Writer, id: int)
    requires Sound(w)
    ensures var (v, rs) := Flush(w, id);
            Sound(v) && v.ty == w.ty && v.room == w.room && v.closed == w.closed && v.buffered == [] &&
            DataOnly(rs, w.ty, id) && Contents(rs) == w.buffered &&
            v.written == (w.written || w.buffered != [])
  {
    if !w.closed && w.buffered != [] {
      ContentsOne(DataRecord(w.ty, id, w.buffered));
    }
  }

  /** Putting conserves bytes: those emitted, followed by those buffered, are those buffered before
      followed by those put; every record emitted is nonempty and well formed. */
  lemma {:induction false} PutFacts(w: Writer, id: int, bs: seq<Byte>)
    requires Sound(w)
    ensures var (v, rs) := Put(w, id, bs);
            v.ty == w.ty && v.room == w.room && v.closed == w.closed && DataOnly(rs, w.ty, id) &&
            Contents(rs) + v.buffered == w.buffered + (if w.closed then [] else bs) &&
            v.written == (w.written || Contents(rs) != [])
    decreases |w.buffered| + |bs|
  {
    hide Put, DataRecord;
    var free := w.room - |w.buffered|;
    if w.closed || |bs| <= free {
      PutFits(w, id, bs);
    } else {
      PutOverflows(w, id, bs);
      var full := w.(buffered := w.buffered + bs[..free]);
      var (v, rs) := Flush(full, id);
      FlushFacts(full, id);
      PutFacts(v, id, bs[free..]);
      var (u, more) := Put(v, id, bs[free..]);
      ContentsAppend(rs, more);
      Assoc(Contents(rs), Contents(more), u.buffered);
      Assoc(w.buffered, bs[..free], bs[free..]);
      SplitAt(bs, free, |bs|);
    }
  }

  /** Putting emits only full buffers, and leaves no full one that it need not: what stays buffered is
      nothing only if nothing was there to put. */
  lemma {:induction false} PutEmitsFull(w: Writer, id: int, bs: seq<Byte>)
    requires Sound(w)
    ensures var (v, rs) := Put(w, id, bs);
            (forall r :: r in rs ==> |r.content| == w.room) && (!w.closed && bs != [] ==> v.buffered != [])
    decreases |w.buffered| + |bs|
  {
    var free := w.room - |w.buffered|;
    if !w.closed && |bs| > free {
      PutOverflows(w, id, bs);
      PutEmitsFull(Overflow(w, id, bs).0, id, bs[free..]);
    }
  }

  // ---------------------------------------------------------------------------------------
  // Runs of the two writers of a request.

  datatype Side = Out | Err

  datatype Op =
    | PutBytes(side: Side, bytes: seq<Byte>)
    | PutByte(side: Side, c: int)
    | FlushBytes(side: Side)
    | CloseSide(side: Side)
    | SetExitStatus(status: int)

  /** Whether an operation puts bytes on a side, and which. */
  predicate Puts(op: Op, side: Side) {
    (op.PutBytes? || op.PutByte?) && op.side == side
  }

  function BytesOf(op: Op): seq<Byte> {
    match op
    case PutBytes(_, bytes) => bytes
    case PutByte(_, c) => [ToByte(c)]
    case _ => []
  }

  /** The writers of a request, what they have put on the wire between them, and the count of open ones. */
  datatype Output = Output(id: int, out: Writer, err: Writer, appStatus: int, nWriters: int, wire: seq<Record>)

  function WriterOf(o: Output, side: Side): Writer {
    if side.Out? then o.out else o.err
  }

  function WithSide(o: Output, side: Side, w: Writer): Output {
    if side.Out? then o.(out := w) else o.(err := w)
  }

  function Step(o: Output, op: Op): Output
    requires Sound(o.out) && Sound(o.err)
  {
    match op
    case PutBytes(side, bytes) =>
      var (w, rs) := Put(WriterOf(o, side), o.id, bytes);
      WithSide(o, side, w).(wire := o.wire + rs)
    case PutByte(side, c) =>
      var (w, rs) := Put(WriterOf(o, side), o.id, [ToByte(c)]);
      WithSide(o, side, w).(wire := o.wire + rs)
    case FlushBytes(side) =>
      var (w, rs) := Flush(WriterOf(o, side), o.id);
      WithSide(o, side, w).(wire := o.wire + rs)
    case CloseSide(side) =>
      var w := WriterOf(o, side);
      if w.closed then o
      else WithSide(o, side, Closed(w)).(
             nWriters := o.nWriters - 1,
             wire := o.wire + CloseRecords(w, o.id, o.nWriters == 1, o.appStatus))
    case SetExitStatus(status) => o.(appStatus := status)
  }

  function Run(o: Output, ops: seq<Op>): (r: Output)
    requires Sound(o.out) && Sound(o.err)
    ensures Sound(r.out) && Sound(r.err)
  {
    if ops == [] then o else Step(Run(o, ops[..|ops| - 1]), ops[|ops| - 1])
  }

  /** Two fresh writers of one request. */
  predicate Fresh(o: Output) {
    && Sound(o.out) && Sound(o.err) && !o.out.closed && !o.err.closed && !o.out.written && !o.err.written
    && o.out.buffered == [] && o.err.buffered == []
    && o.out.ty == FCGI_STDOUT && o.err.ty == FCGI_STDERR
    && o.nWriters == 2 && o.wire == []
  }

  // What a run asks for, read off its operations alone.

  predicate IsClosed(ops: seq<Op>, side: Side) {
    CloseSide(side) in ops
  }

  /** The bytes put on a side before it was closed. */
  function Sent(ops: seq<Op>, side: Side): seq<Byte> {
    if ops == [] then [] else
    var n := |ops| - 1;
    Sent(ops[..n], side) + if Puts(ops[n], side) && !IsClosed(ops[..n], side) then BytesOf(ops[n]) else []
  }

  /** The last exit status set before both sides were closed. */
  function ExitStatus(ops: seq<Op>, initial: int): int {
    if ops == [] then initial else
    var n := |ops| - 1;
    if ops[n].SetExitStatus? && !(IsClosed(ops[..n], Out) && IsClosed(ops[..n], Err)) then ops[n].status
    else ExitStatus(ops[..n], initial)
  }

  /** The records of one side on the wire: nonempty ones, and at the end an empty one exactly when
      the side is closed and, on the error side, something was put. */
  predicate StreamIs(rs: seq<Record>, id: int, w: Writer, sent: seq<Byte>) {
    var ended := w.closed && (w.ty != FCGI_STDERR || sent != []);
    if ended then
      |rs| > 0 && rs[|rs| - 1] == DataRecord(w.ty, id, []) && DataOnly(rs[..|rs| - 1], w.ty, id) && Contents(rs) == sent
    else DataOnly(rs, w.ty, id) && Contents(rs) + w.buffered == sent && (!w.closed ==> w.written == (rs != []))
  }

  /** The records that end the request: one once both sides are closed, and it is the last of all. */
  predicate EndIs(wire: seq<Record>, id: int, closed: bool, status: int) {
    if closed then wire != [] && wire[|wire| - 1] == EndRequest(id, status, FCGI_REQUEST_COMPLETE) &&
                   Of(wire, FCGI_END_REQUEST) == [wire[|wire| - 1]]
    else Of(wire, FCGI_END_REQUEST) == []
  }

  function TypeOf(side: Side): Byte {
    if side.Out? then FCGI_STDOUT else FCGI_STDERR
  }

  predicate SideHolds(o: Output, ops: seq<Op>, side: Side) {
    var w := WriterOf(o, side);
    && w.ty == TypeOf(side) && Sound(w) && (w.closed <==> IsClosed(ops, side))
    && StreamIs(Of(o.wire, TypeOf(side)), o.id, w, Sent(ops, side))
  }

  predicate RecordsHold(o: Output) {
    forall r :: r in o.wire ==>
      WellFormed(r, o.id) && (r.ty == FCGI_STDOUT || r.ty == FCGI_STDERR || r.ty == FCGI_END_REQUEST)
  }

  /** What every run keeps. */
  predicate Holds(o: Output, ops: seq<Op>, initial: int) {
    && SideHolds(o, ops, Out) && SideHolds(o, ops, Err)
    && o.nWriters == Count(o.out) + Count(o.err)
    && EndIs(o.wire, o.id, o.nWriters == 0, ExitStatus(ops, initial))
    && (o.nWriters > 0 ==> o.appStatus == ExitStatus(ops, initial))
    && RecordsHold(o)
  }

  function Other(side: Side): Side {
    if side.Out? then Err else Out
  }

  lemma Unsnoc<T>(s: seq<T>, x: T)
    ensures (s + [x])[..|s + [x]| - 1] == s && (s + [x])[|s + [x]| - 1] == x
  {
  }

  lemma DataOnlyAppend(a: seq<Record>, b: seq<Record>, ty: Byte, id: int)
    requires DataOnly(a, ty, id) && DataOnly(b, ty, id)
    ensures DataOnly(a + b, ty, id)
  {
  }

  lemma NonemptyContents(rs: seq<Record>, ty: Byte, id: int)
    requires DataOnly(rs, ty, id)
    ensures Contents(rs) == [] <==> rs == []
  {
    if rs != [] {
      assert rs[|rs| - 1] in rs;
    }
  }

  /** A side on which data records are emitted. */
  lemma StreamGrows(before: seq<Record>, rs: seq<Record>, id: int, w: Writer, v: Writer, sent: seq<Byte>,
                    bytes: seq<Byte>)
    requires !w.closed && !v.closed && v.ty == w.ty && StreamIs(before, id, w, sent) && DataOnly(rs, w.ty, id)
    requires Contents(rs) + v.buffered == w.buffered + bytes
    requires v.written == (w.written || Contents(rs) != [])
    ensures StreamIs(before + rs, id, v, sent + bytes)
  {
    ContentsAppend(before, rs);
    DataOnlyAppend(before, rs, w.ty, id);
    NonemptyContents(rs, w.ty, id);
    Assoc(Contents(before), Contents(rs), v.buffered);
    Assoc(Contents(before), w.buffered, bytes);
  }

  /** Data emitted on one side is seen on that side alone. */
  lemma Emitted(wire: seq<Record>, rs: seq<Record>, ty: Byte, id: int)
    requires DataOnly(rs, ty, id)
    ensures Of(wire + rs, ty) == Of(wire, ty) + rs
    ensures forall other: Byte :: other != ty ==> Of(wire + rs, other) == Of(wire, other)
  {
    OfAppend(wire, rs, ty);
    DataOf(rs, ty, id, ty);
    forall other: Byte | other != ty ensures Of(wire + rs, other) == Of(wire, other) {
      OfAppend(wire, rs, other);
      DataOf(rs, ty, id, other);
      assert Of(wire, other) + [] == Of(wire, other);
    }
  }

  /** How one more operation extends what a run asks for. */
  lemma History(ops: seq<Op>, op: Op, side: Side, initial: int)
    ensures Sent(ops + [op], side) ==
            Sent(ops, side) + if Puts(op, side) && !IsClosed(ops, side) then BytesOf(op) else []
    ensures IsClosed(ops + [op], side) <==> IsClosed(ops, side) || op == CloseSide(side)
    ensures ExitStatus(ops + [op], initial) ==
            if op.SetExitStatus? && !(IsClosed(ops, Out) && IsClosed(ops, Err)) then op.status
            else ExitStatus(ops, initial)
  {
    Unsnoc(ops, op);
  }

  /** A side that an operation leaves alone. */
  lemma SideKept(o: Output, p: Output, ops: seq<Op>, op: Op, side: Side)
    requires SideHolds(o, ops, side)
    requires p.id == o.id && WriterOf(p, side) == WriterOf(o, side) &&
             Of(p.wire, TypeOf(side)) == Of(o.wire, TypeOf(side))
    requires op != CloseSide(side) || WriterOf(o, side).closed
    requires Puts(op, side) ==> WriterOf(o, side).closed || BytesOf(op) == []
    ensures SideHolds(p, ops + [op], side)
  {
    hide StreamIs, Of, Sent, IsClosed;
    History(ops, op, side, 0);
    assert Sent(ops, side) + [] == Sent(ops, side);
  }

  /** Putting or flushing on an open side. */
  lemma {:induction false} KeptByData(o: Output, ops: seq<Op>, op: Op, initial: int, side: Side, v: Writer,
                                      rs: seq<Record>, bytes: seq<Byte>)
    requires Holds(o, ops, initial) && !WriterOf(o, side).closed
    requires var w := WriterOf(o, side);
             !v.closed && v.ty == w.ty && Sound(v) && DataOnly(rs, w.ty, o.id) &&
             Contents(rs) + v.buffered == w.buffered + bytes && v.written == (w.written || Contents(rs) != [])
    requires (Puts(op, side) && BytesOf(op) == bytes) || (op == FlushBytes(side) && bytes == [])
    ensures Holds(WithSide(o, side, v).(wire := o.wire + rs), ops + [op], initial)
  {
    hide Contents, Of, WellFormed, EndRequest, StreamIs, Sent, IsClosed, ExitStatus;
    var p := WithSide(o, side, v).(wire := o.wire + rs);
    History(ops, op, side, initial);
    Emitted(o.wire, rs, v.ty, o.id);
    StreamGrows(Of(o.wire, v.ty), rs, o.id, WriterOf(o, side), v, Sent(ops, side), bytes);
    assert Sent(ops, side) + [] == Sent(ops, side);
    assert SideHolds(p, ops + [op], side);
    SideKept(o, p, ops, op, Other(side));
    DataTypes(rs, v.ty, o.id);
    EndKept(o.wire, rs, o.id, ExitStatus(ops, initial));
  }

  lemma DataTypes(rs: seq<Record>, ty: Byte, id: int)
    requires DataOnly(rs, ty, id)
    ensures forall r :: r in rs ==> r.ty == ty && WellFormed(r, id)
  {
  }

  lemma EndKept(wire: seq<Record>, rs: seq<Record>, id: int, status: int)
    requires EndIs(wire, id, false, status) && Of(wire + rs, FCGI_END_REQUEST) == Of(wire, FCGI_END_REQUEST)
    ensures EndIs(wire + rs, id, false, status)
  {
  }

  /** An operation on a side already closed changes nothing. */
  lemma KeptByNothing(o: Output, ops: seq<Op>, op: Op, initial: int)
    requires Holds(o, ops, initial)
    requires !op.SetExitStatus? && WriterOf(o, op.side).closed
    ensures Holds(o, ops + [op], initial)
  {
    hide StreamIs, Of, WellFormed, EndIs, Sent, IsClosed, ExitStatus;
    History(ops, op, op.side, initial);
    SideKept(o, o, ops, op, Out);
    SideKept(o, o, ops, op, Err);
  }

  lemma KeptByStatus(o: Output, ops: seq<Op>, status: int, initial: int)
    requires Holds(o, ops, initial)
    ensures Holds(o.(appStatus := status), ops + [SetExitStatus(status)], initial)
  {
    hide StreamIs, Of, WellFormed, EndRequest, Sent, IsClosed, ExitStatus;
    var op, p := SetExitStatus(status), o.(appStatus := status);
    History(ops, op, Out, initial);
    SideKept(o, p, ops, op, Out);
    SideKept(o, p, ops, op, Err);
  }

  /** The empty record that announces the end of a stream, if one is due. */
  function Announcement(w: Writer, id: int): seq<Record> {
    if Announces(w) then [DataRecord(w.ty, id, [])] else []
  }

  lemma EmptyRecordFacts(ty: Byte, id: int)
    ensures var r := DataRecord(ty, id, []); WellFormed(r, id) && r.content == [] && r.ty == ty
  {
  }

  lemma EndRecordFacts(id: int, status: int)
    ensures var r := EndRequest(id, status, FCGI_REQUEST_COMPLETE); WellFormed(r, id) && r.ty == FCGI_END_REQUEST
  {
  }

  /** Closing completes a side's stream. */
  lemma StreamCloses(records: seq<Record>, id: int, w: Writer, sent: seq<Byte>)
    requires Sound(w) && !w.closed && StreamIs(records, id, w, sent)
    ensures StreamIs(records + Flush(w, id).1 + Announcement(w, id), id, Closed(w), sent)
  {
    hide WellFormed, DataRecord, Flush;
    var data := Flush(w, id).1;
    FlushFacts(w, id);
    ContentsAppend(records, data);
    DataOnlyAppend(records, data, w.ty, id);
    NonemptyContents(records, w.ty, id);
    NonemptyContents(data, w.ty, id);
    var empty := DataRecord(w.ty, id, []);
    EmptyRecordFacts(w.ty, id);
    ContentsOne(empty);
    if Announces(w) {
      ContentsAppend(records + data, [empty]);
      Unsnoc(records + data, empty);
      assert Contents(records + data) + [] == sent;
    } else {
      assert records + data + [] == records + data;
    }
  }

  /** The records that closing emits, by type. */
  lemma {:induction false} CloseByType(wire: seq<Record>, w: Writer, id: int, last: bool, status: int, other: Byte)
    requires Sound(w) && w.ty != FCGI_END_REQUEST
    ensures var rs := CloseRecords(w, id, last, status);
            Of(wire + rs, other) == Of(wire, other) +
              (if other == w.ty then Flush(w, id).1 + Announcement(w, id)
               else if other == FCGI_END_REQUEST && last then [EndRequest(id, status, FCGI_REQUEST_COMPLETE)]
               else [])
    ensures forall r :: r in CloseRecords(w, id, last, status) ==>
            WellFormed(r, id) && (r.ty == w.ty || r.ty == FCGI_END_REQUEST)
  {
    hide WellFormed, DataRecord, Flush, EndRequest, Of;
    var data := Flush(w, id).1 + Announcement(w, id);
    var end := if last then [EndRequest(id, status, FCGI_REQUEST_COMPLETE)] else [];
    FlushFacts(w, id);
    EmptyRecordFacts(w.ty, id);
    EndRecordFacts(id, status);
    DataTypes(Flush(w, id).1, w.ty, id);
    assert CloseRecords(w, id, last, status) == data + end;
    OfAppend(wire, data + end, other);
    OfAppend(data, end, other);
    OneTypeOnly(data, w.ty, other);
    OneTypeOnly(end, FCGI_END_REQUEST, other);
    assert data + [] == data;
  }

  lemma EndComes(wire: seq<Record>, rs: seq<Record>, id: int, status: int)
    requires Of(wire, FCGI_END_REQUEST) == [] && rs != []
    requires var end := EndRequest(id, status, FCGI_REQUEST_COMPLETE);
             rs[|rs| - 1] == end && Of(wire + rs, FCGI_END_REQUEST) == Of(wire, FCGI_END_REQUEST) + [end]
    ensures EndIs(wire + rs, id, true, status)
  {
  }

  lemma {:induction false} KeptByClose(o: Output, ops: seq<Op>, initial: int, side: Side)
    requires Holds(o, ops, initial) && !WriterOf(o, side).closed
    ensures var w := WriterOf(o, side);
            Holds(WithSide(o, side, Closed(w)).(nWriters := o.nWriters - 1,
                    wire := o.wire + CloseRecords(w, o.id, o.nWriters == 1, o.appStatus)),
                    ops + [CloseSide(side)], initial)
  {
    hide WellFormed, DataRecord, Flush, EndRequest, Of, StreamIs, Sent, IsClosed, ExitStatus, EndIs, CloseRecords;
    var w, op, last := WriterOf(o, side), CloseSide(side), o.nWriters == 1;
    var rs := CloseRecords(w, o.id, last, o.appStatus);
    var p := WithSide(o, side, Closed(w)).(nWriters := o.nWriters - 1, wire := o.wire + rs);
    History(ops, op, side, initial);
    assert Sent(ops, side) + [] == Sent(ops, side);
    CloseByType(o.wire, w, o.id, last, o.appStatus, w.ty);
    StreamCloses(Of(o.wire, w.ty), o.id, w, Sent(ops, side));
    Assoc(Of(o.wire, w.ty), Flush(w, o.id).1, Announcement(w, o.id));
    assert SideHolds(p, ops + [op], side);
    var other := TypeOf(Other(side));
    CloseByType(o.wire, w, o.id, last, o.appStatus, other);
    assert Of(o.wire, other) + [] == Of(o.wire, other);
    SideKept(o, p, ops, op, Other(side));
    CloseByType(o.wire, w, o.id, last, o.appStatus, FCGI_END_REQUEST);
    EndByClose(o.wire, w, o.id, last, o.appStatus);
  }

  lemma EndByClose(wire: seq<Record>, w: Writer, id: int, last: bool, status: int)
    requires Sound(w) && w.ty != FCGI_END_REQUEST && EndIs(wire, id, false, status)
    ensures EndIs(wire + CloseRecords(w, id, last, status), id, last, status)
  {
    hide Flush, EndRequest, Of, DataRecord;
    CloseByType(wire, w, id, last, status, FCGI_END_REQUEST);
    var rs := CloseRecords(w, id, last, status);
    if last {
      EndComes(wire, rs, id, status);
    } else {
      assert Of(wire, FCGI_END_REQUEST) + [] == Of(wire, FCGI_END_REQUEST);
    }
  }

  /** Putting bytes on a side, closed or not. */
  lemma {:induction false} KeptByPut(o: Output, ops: seq<Op>, op: Op, initial: int, side: Side, bytes: seq<Byte>)
    requires Holds(o, ops, initial) && Sound(WriterOf(o, side)) && Puts(op, side) && BytesOf(op) == bytes
    ensures var (w, rs) := Put(WriterOf(o, side), o.id, bytes);
            Holds(WithSide(o, side, w).(wire := o.wire + rs), ops + [op], initial)
  {
    hide Put, Holds;
    var w := WriterOf(o, side);
    PutFacts(w, o.id, bytes);
    if w.closed {
      PutFits(w, o.id, bytes);
      NothingEmitted(o, side);
      KeptByNothing(o, ops, op, initial);
    } else {
      var (v, rs) := Put(w, o.id, bytes);
      KeptByData(o, ops, op, initial, side, v, rs, bytes);
    }
  }

  lemma {:induction false} KeptByStep(o: Output, ops: seq<Op>, op: Op, initial: int)
    requires Holds(o, ops, initial)
    ensures Holds(Step(o, op), ops + [op], initial)
  {
    hide Put, Flush, CloseRecords, SideHolds, EndIs, RecordsHold, ExitStatus;
    match op {
      case SetExitStatus(status) =>
        KeptByStatus(o, ops, status, initial);
      case CloseSide(side) =>
        if WriterOf(o, side).closed {
          KeptByNothing(o, ops, op, initial);
        } else {
          KeptByClose(o, ops, initial, side);
        }
      case FlushBytes(side) =>
        var w := WriterOf(o, side);
        SideSound(o, ops, initial, side);
        FlushFacts(w, o.id);
        if w.closed {
          NothingEmitted(o, side);
          KeptByNothing(o, ops, op, initial);
        } else {
          var (v, rs) := Flush(w, o.id);
          assert Contents(rs) + v.buffered == w.buffered + [];
          KeptByData(o, ops, op, initial, side, v, rs, []);
        }
      case PutBytes(side, bytes) =>
        SideSound(o, ops, initial, side);
        KeptByPut(o, ops, op, initial, side, bytes);
      case PutByte(side, c) =>
        SideSound(o, ops, initial, side);
        KeptByPut(o, ops, op, initial, side, [ToByte(c)]);
    }
  }

  lemma SideSound(o: Output, ops: seq<Op>, initial: int, side: Side)
    requires Holds(o, ops, initial)
    ensures SideHolds(o, ops, side) && Sound(WriterOf(o, side))
  {
  }

  lemma NothingEmitted(o: Output, side: Side)
    ensures WithSide(o, side, WriterOf(o, side)).(wire := o.wire + []) == o
    ensures WriterOf(o, side).closed ==> Flush(WriterOf(o, side), o.id) == (WriterOf(o, side), [])
  {
    assert o.wire + [] == o.wire;
  }

  lemma {:induction false} HoldsAtFirst(o: Output)
    requires Fresh(o)
    ensures Sound(o.out) && Sound(o.err) && Holds(o, [], o.appStatus)
  {
  }

  /** Every run of puts, flushes, closes and exit statuses, in any order and interleaving, keeps the
      wire a concatenation of whole well-formed records whose contents, with what is still buffered,
      are the bytes put on each side; ends each stream once, when its side is closed; and ends the
      request once, last of all, with the exit status set before. */
  lemma {:induction false} EveryRunHolds(o: Output, ops: seq<Op>)
    requires Fresh(o)
    ensures Holds(Run(o, ops), ops, o.appStatus)
    decreases |ops|
  {
    hide Holds, Step, Fresh;
    HoldsAtFirst(o);
    if ops != [] {
      var n := |ops| - 1;
      EveryRunHolds(o, ops[..n]);
      KeptByStep(Run(o, ops[..n]), ops[..n], ops[n], o.appStatus);
      assert ops == ops[..n] + [ops[n]];
    }
  }

  /** A finished request as its peer sees it: each stream complete and ended once, the error stream
      ended only if it was used, and exactly one end of the request, after everything else. */
  lemma {:induction false} FinishedRequest(o: Output, ops: seq<Op>)
    requires Fresh(o) && IsClosed(ops, Out) && IsClosed(ops, Err)
    ensures var wire := Run(o, ops).wire; var out, err := Of(wire, FCGI_STDOUT), Of(wire, FCGI_STDERR);
            Contents(out) == Sent(ops, Out) && Contents(err) == Sent(ops, Err) &&
            (forall i :: 0 <= i < |out| ==> (out[i].content == [] <==> i == |out| - 1)) && out != [] &&
            (forall i :: 0 <= i < |err| ==> (err[i].content == [] <==> i == |err| - 1)) &&
            (err != [] <==> Sent(ops, Err) != []) &&
            wire != [] && wire[|wire| - 1] == EndRequest(o.id, ExitStatus(ops, o.appStatus), FCGI_REQUEST_COMPLETE) &&
            Of(wire, FCGI_END_REQUEST) == [wire[|wire| - 1]]
  {
    hide Of, WellFormed, DataRecord, EndRequest, Run, Sent, IsClosed, ExitStatus, Contents;
    EveryRunHolds(o, ops);
    var p := Run(o, ops);
    RunKeepsId(o, ops);
    EndedStream(Of(p.wire, FCGI_STDOUT), p.id, p.out, Sent(ops, Out));
    EndedStream(Of(p.wire, FCGI_STDERR), p.id, p.err, Sent(ops, Err));
  }

  /** Whether a run sets an exit status in time. */
  ghost predicate SetsStatus(ops: seq<Op>) {
    exists n :: 0 <= n < |ops| && ops[n].SetExitStatus? && !(IsClosed(ops[..n], Out) && IsClosed(ops[..n], Err))
  }

  lemma {:induction false} StatusOf(ops: seq<Op>, initial: int)
    ensures ExitStatus(ops, initial) == if SetsStatus(ops) then ExitStatus(ops, 0) else initial
    decreases |ops|
  {
    hide IsClosed;
    if ops != [] {
      var n := |ops| - 1;
      StatusOf(ops[..n], initial);
      if ops[n].SetExitStatus? && !(IsClosed(ops[..n], Out) && IsClosed(ops[..n], Err)) {
        assert SetsStatus(ops);
      } else {
        SetsBefore(ops);
      }
    }
  }

  lemma SetsBefore(ops: seq<Op>)
    requires ops != []
    requires var n := |ops| - 1;
             !ops[n].SetExitStatus? || (IsClosed(ops[..n], Out) && IsClosed(ops[..n], Err))
    ensures SetsStatus(ops) <==> SetsStatus(ops[..|ops| - 1])
  {
    hide IsClosed;
    var front := ops[..|ops| - 1];
    forall k | 0 <= k < |front| ensures front[..k] == ops[..k] && front[k] == ops[k] {
    }
    if SetsStatus(ops) {
      var k :| 0 <= k < |ops| && ops[k].SetExitStatus? && !(IsClosed(ops[..k], Out) && IsClosed(ops[..k], Err));
      assert front[k].SetExitStatus? && front[..k] == ops[..k];
    }
    if SetsStatus(front) {
      var k :| 0 <= k < |front| && front[k].SetExitStatus? && !(IsClosed(front[..k], Out) && IsClosed(front[..k], Err));
      assert ops[k].SetExitStatus? && front[..k] == ops[..k];
    }
  }

  /** The exit status reported is the request's own if and only if it sets one in time; else it is the
      status found at the start. */
  lemma OwnStatusIff(ops: seq<Op>)
    ensures SetsStatus(ops) <==> forall initial: int :: ExitStatus(ops, initial) == ExitStatus(ops, 0)
    ensures !SetsStatus(ops) ==> forall initial: int :: ExitStatus(ops, initial) == initial
  {
    hide ExitStatus, SetsStatus;
    forall initial: int
      ensures ExitStatus(ops, initial) == if SetsStatus(ops) then ExitStatus(ops, 0) else initial
    {
      StatusOf(ops, initial);
    }
    assert !SetsStatus(ops) ==> ExitStatus(ops, 1) == 1;
  }

  /** The last exit status set at all. */
  function LastStatus(ops: seq<Op>, initial: int): int {
    if ops == [] then initial
    else if ops[|ops| - 1].SetExitStatus? then ops[|ops| - 1].status
    else LastStatus(ops[..|ops| - 1], initial)
  }

  lemma {:induction false} RunKeepsStatus(o: Output, ops: seq<Op>)
    requires Sound(o.out) && Sound(o.err)
    ensures Run(o, ops).appStatus == LastStatus(ops, o.appStatus)
    decreases |ops|
  {
    hide Put, Flush, CloseRecords;
    if ops != [] {
      RunKeepsStatus(o, ops[..|ops| - 1]);
    }
  }

  /** The exit status is never reset: a request that sets none reports that of the one before. */
  lemma StatusCarriedOver(o: Output, ops: seq<Op>, p: Output, more: seq<Op>)
    requires Fresh(o) && Fresh(p) && p.appStatus == Run(o, ops).appStatus
    requires IsClosed(more, Out) && IsClosed(more, Err) && !SetsStatus(more)
    ensures var wire := Run(p, more).wire;
            wire != [] &&
            wire[|wire| - 1] == EndRequest(p.id, LastStatus(ops, o.appStatus), FCGI_REQUEST_COMPLETE)
  {
    hide Run, Of, IsClosed, EndRequest, Contents;
    RunKeepsStatus(o, ops);
    FinishedRequest(p, more);
    OwnStatusIff(more);
  }

  /** A request that only closes its sides reports whatever status was there, here 7. */
  lemma StatusExample()
    ensures var ops := [CloseSide(Err), CloseSide(Out)]; !SetsStatus(ops) && ExitStatus(ops, 7) == 7
  {
    var ops := [CloseSide(Err), CloseSide(Out)];
    OwnStatusIff(ops);
  }

  lemma EndedStream(rs: seq<Record>, id: int, w: Writer, sent: seq<Byte>)
    requires Sound(w) && w.closed && StreamIs(rs, id, w, sent)
    ensures Contents(rs) == sent
    ensures forall i :: 0 <= i < |rs| ==> (rs[i].content == [] <==> i == |rs| - 1)
    ensures rs != [] <==> w.ty != FCGI_STDERR || sent != []
  {
    var ended := w.ty != FCGI_STDERR || sent != [];
    if ended {
      forall i | 0 <= i < |rs| - 1 ensures rs[i].content != [] {
        assert rs[i] in rs[..|rs| - 1];
      }
    } else {
      assert Contents(rs) + [] == Contents(rs);
      NonemptyContents(rs, w.ty, id);
    }
  }

  lemma {:induction false} RunKeepsId(o: Output, ops: seq<Op>)
    requires Sound(o.out) && Sound(o.err)
    ensures Run(o, ops).id == o.id
    decreases |ops|
  {
    if ops != [] {
      RunKeepsId(o, ops[..|ops| - 1]);
    }
  }

  lemma ClosedStep(o: Output, op: Op)
    requires Sound(o.out) && Sound(o.err) && o.out.closed && o.err.closed
    ensures Step(o, op).wire == o.wire
  {
    hide Put, CloseRecords;
    assert o.wire + [] == o.wire;
    match op {
      case PutBytes(side, bytes) => PutFits(WriterOf(o, side), o.id, bytes);
      case PutByte(side, c) => PutFits(WriterOf(o, side), o.id, [ToByte(c)]);
      case _ =>
    }
  }

  lemma BothClosed(o: Output, ops: seq<Op>, initial: int)
    requires Holds(o, ops, initial) && IsClosed(ops, Out) && IsClosed(ops, Err)
    ensures o.out.closed && o.err.closed
  {
    hide StreamIs, Of, RecordsHold, EndIs;
    assert SideHolds(o, ops, Out) && SideHolds(o, ops, Err);
  }

  /** Once both sides are closed nothing more reaches the wire. */
  lemma {:induction false} ClosedAddsNothing(o: Output, ops: seq<Op>, more: seq<Op>)
    requires Fresh(o) && IsClosed(ops, Out) && IsClosed(ops, Err)
    ensures Run(o, ops + more).wire == Run(o, ops).wire
    decreases |more|
  {
    hide Step, Holds;
    if more == [] {
      assert ops + more == ops;
    } else {
      var n := |more| - 1;
      var all := ops + more[..n];
      ClosedAddsNothing(o, ops, more[..n]);
      assert (ops + more)[..|ops + more| - 1] == all && (ops + more)[|ops + more| - 1] == more[n];
      EveryRunHolds(o, all);
      assert IsClosed(all, Out) && IsClosed(all, Err);
      BothClosed(Run(o, all), all, o.appStatus);
      ClosedStep(Run(o, all), more[n]);
    }
  }

  /** Finishing a request is closing its error side and then its other side. */
  lemma {:induction false} FinishIsTwoCloses(o: Output, ops: seq<Op>)
    requires Fresh(o)
    ensures var p := Run(o, ops); var n := p.nWriters - Count(p.err);
            Run(o, ops + [CloseSide(Err), CloseSide(Out)]).wire ==
            p.wire + (Finishing(p.err, p.id, p.nWriters, p.appStatus) + Finishing(p.out, p.id, n, p.appStatus))
  {
    hide CloseRecords, Run;
    var p := Run(o, ops);
    RunMore(o, ops, CloseSide(Err));
    RunMore(o, ops + [CloseSide(Err)], CloseSide(Out));
    assert ops + [CloseSide(Err)] + [CloseSide(Out)] == ops + [CloseSide(Err), CloseSide(Out)];
    var first := Finishing(p.err, p.id, p.nWriters, p.appStatus);
    assert p.wire + [] == p.wire;
    assert Step(p, CloseSide(Err)).wire == p.wire + first;
    assert p.wire + first + [] == p.wire + first;
    Assoc(p.wire, first, Finishing(p.out, p.id, p.nWriters - Count(p.err), p.appStatus));
  }

  lemma RunMore(o: Output, ops: seq<Op>, op: Op)
    requires Sound(o.out) && Sound(o.err)
    ensures Run(o, ops + [op]) == Step(Run(o, ops), op)
  {
    Unsnoc(ops, op);
  }
}
