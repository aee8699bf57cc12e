/** `FCGX_Request`: accepting and finishing requests over the stream objects. */
module Requests {
  import opened Bytes
  import opened Wire
  import opened Environment
  import opened NameValue
  import opened Parameters
  import opened ReaderSpec
  import opened ReaderLaws
  import opened Readers
  import opened WriterSpec
  import opened Writers
  import opened WriterLaws
  import opened Replies
  import opened Lifecycle

  /** The listening socket: the connections that will be accepted, then the errno of a failure. */
  class Listener {
    var waiting: seq<Arrival>
    const errno: nat

    constructor (waiting: seq<Arrival>, errno: nat)
      ensures this.waiting == waiting && this.errno == errno
    {
      this.waiting, this.errno := waiting, errno;
    }

    /** `OS_Accept`. */
    method Accept() returns (conn: Connection?)
      modifies this
      ensures old(waiting) == [] ==> conn == null && waiting == []
      ensures old(waiting) != [] ==> conn != null && fresh(conn) && waiting == old(waiting)[1..]
      ensures old(waiting) != [] ==> Arrival(conn.input, conn.ending) == old(waiting)[0] && conn.output == []
    {
      if waiting == [] {
        return null;
      }
      conn := new Connection(waiting[0].bytes, waiting[0].ending);
      waiting := waiting[1..];
    }
  }

  /** What a served request does to its streams. */
  datatype Act = Write(op: Op) | Read(n: int)

  function WritesOf(acts: seq<Act>): seq<Op> {
    if acts == [] then [] else
    var n := |acts| - 1;
    WritesOf(acts[..n]) + if acts[n].Write? then [acts[n].op] else []
  }

  /** What reaches its connection: records of its writers, and replies to what is read. */
  datatype Logged = Written(record: Record) | Replied(record: Record)

  function Logs(log: seq<Logged>): (rs: seq<Record>)
    ensures |rs| == |log|
  {
    seq(|log|, i requires 0 <= i < |log| => log[i].record)
  }

  function WrittenIn(log: seq<Logged>): seq<Record> {
    if log == [] then [] else (if log[0].Written? then [log[0].record] else []) + WrittenIn(log[1..])
  }

  function AsWritten(rs: seq<Record>): seq<Logged> {
    seq(|rs|, i requires 0 <= i < |rs| => Written(rs[i]))
  }

  function AsReplied(rs: seq<Record>): seq<Logged> {
    seq(|rs|, i requires 0 <= i < |rs| => Replied(rs[i]))
  }

  predicate RepliesOnly(log: seq<Logged>) {
    forall e :: e in log && e.Replied? ==> IsReply(e.record)
  }

  lemma {:induction false} LogsAppend(a: seq<Logged>, b: seq<Logged>)
    ensures Logs(a + b) == Logs(a) + Logs(b) && WrittenIn(a + b) == WrittenIn(a) + WrittenIn(b)
    ensures RepliesOnly(a + b) <==> RepliesOnly(a) && RepliesOnly(b)
    decreases |a|
  {
    if a == [] {
      assert a + b == b;
    } else {
      LogsAppend(a[1..], b);
      assert (a + b)[0] == a[0] && (a + b)[1..] == a[1..] + b;
      Assoc(if a[0].Written? then [a[0].record] else [], WrittenIn(a[1..]), WrittenIn(b));
    }
    forall e | e in a || e in b ensures e in a + b {
    }
  }

  lemma {:induction false} LogsOf(rs: seq<Record>)
    ensures Logs(AsWritten(rs)) == rs == WrittenIn(AsWritten(rs)) && RepliesOnly(AsWritten(rs))
    ensures Logs(AsReplied(rs)) == rs && WrittenIn(AsReplied(rs)) == []
    ensures (forall r :: r in rs ==> IsReply(r)) ==> RepliesOnly(AsReplied(rs))
    decreases |rs|
  {
    if rs != [] {
      LogsOf(rs[1..]);
      assert AsWritten(rs)[1..] == AsWritten(rs[1..]) && AsReplied(rs)[1..] == AsReplied(rs[1..]);
      assert WrittenIn(AsWritten(rs)) == [rs[0]] + WrittenIn(AsWritten(rs[1..]));
      assert WrittenIn(AsReplied(rs)) == [] + WrittenIn(AsReplied(rs[1..]));
    }
  }

  class Server {
    const data: RequestData
    const listener: Listener
    var conn: Connection?          // null stands for a negative descriptor
    var input: Reader?
    var out: StreamWriter?
    var err: StreamWriter?
    var params: Params?

    ghost predicate Idle()
      reads this
    {
      input == null && out == null && err == null && params == null
    }

    /** A request is being served. */
    ghost predicate Serving()
      reads this, data, input, out, err, params, if params == null then {} else {params.vec}
    {
      && conn != null && input != null && out != null && err != null && params != null
      && input.Valid() && input.Anchored() && !input.eorStop && input.conn == conn && input.data == data
      && out.Steady() && out.conn == conn && out.data == data && out.ty == FCGI_STDOUT
      && err.Steady() && err.conn == conn && err.data == data && err.ty == FCGI_STDERR
      && out != err && input.buff != out.buff && input.buff != err.buff && out.buff != err.buff
      && params.Valid()
      && data.isBeginProcessed && KnownRole(data.role)
      && data.nWriters == (if out.isClosed then 0 else 1) + (if err.isClosed then 0 else 1)
    }

    constructor (listener: Listener)
      ensures Idle() && conn == null && this.listener == listener && fresh(data)
    {
      data := new RequestData();
      this.listener := listener;
      conn, input, out, err, params := null, null, null, null, null;
    }

    /** `FCGX_Free`. */
    method Free(close: bool)
      modifies this
      ensures Idle() && conn == if close then null else old(conn)
    {
      input, out, err, params := null, null, null, null;
      if close {
        conn := null;
      }
    }

    /** What finishing writes: the error stream is closed first, so the end of the request is last. */
    ghost function Closing(): seq<Record>
      requires Serving()
      reads this, data, input, out, err, params, if params == null then {} else {params.vec}
      reads if out == null then {} else {out.buff}, if err == null then {} else {err.buff}
    {
      Finishing(err.Abs(), data.requestId, data.nWriters, data.appStatus) +
      Finishing(out.Abs(), data.requestId, data.nWriters - Count(err.Abs()), data.appStatus)
    }

    /** `FCGX_Finish_r`. */
    method Finish()
      requires Idle() || Serving()
      modifies this, data, conn, out, err
      modifies if out == null then {} else {out.buff}, if err == null then {} else {err.buff}
      ensures Idle()
      ensures conn ==
              if old(data.keepConnection) && (old(input) == null || old(input.errno) == 0) then old(conn) else null
      ensures old(conn) != null ==> old(conn).input == old(conn.input)
      ensures old(input) != null ==> old(conn).output == old(conn.output) + EncodeAll(old(Closing())) &&
                                     data.nWriters == 0
      ensures old(input) == null && old(conn) != null ==> old(conn).output == old(conn.output)
      ensures data.requestId == old(data.requestId) && data.role == old(data.role) &&
              data.keepConnection == old(data.keepConnection)
      ensures data.isBeginProcessed == old(data.isBeginProcessed) && data.appStatus == old(data.appStatus)
    {
      hide EncodeAll, CloseRecords;
      var close := !data.keepConnection;
      if input != null {
        EncodeAllMore(conn.output, Finishing(err.Abs(), data.requestId, data.nWriters, data.appStatus),
                      Finishing(out.Abs(), data.requestId, data.nWriters - Count(err.Abs()), data.appStatus));
        EncodeAllNothing(conn.output);
        var e := err.FClose();
        EncodeAllNothing(conn.output);
        var o := out.FClose();
        close := close || e != 0 || o != 0 || input.errno != 0;
      }
      Free(close);
    }

    /** What the library keeps of the last request that began. */
    ghost function Info(): RequestInfo
      reads this, data
    {
      RequestInfo(data.requestId, data.role, data.isBeginProcessed, data.keepConnection)
    }

    /** The reader of the current request is in place. */
    ghost predicate Reading()
      reads this, input
    {
      conn != null && input != null && input.Valid() && input.Anchored() && !input.eorStop && input.conn == conn &&
      input.data == data
    }

    /** A new reader, up to the beginning of a request. */
    method OpenReader() returns (begun: bool)
      requires Idle() && conn != null
      modifies this, conn, data`requestId, data`role, data`isBeginProcessed, data`keepConnection
      ensures conn == old(conn) && input != null && fresh(input) && fresh(input.buff) && params == null &&
              out == null && err == null
      ensures var t := Fill(NewReader(Arrival(old(conn.input), conn.ending), old(Info()), old(conn.output)));
              begun == t.req.begun && Info() == t.req && (begun ==> Reading() && input.Abs() == t)
    {
      hide Fill;
      data.isBeginProcessed := false;
      var aligned: bool := *;
      input := new Reader(conn, data, 8192, 0, aligned);
      input.FillBuffProc();
      return data.isBeginProcessed;
    }

    /** The request's parameters, headed by its role. */
    method ReadEnvironment() returns (ok: bool)
      requires Reading() && data.isBeginProcessed && KnownRole(data.role)
      modifies this`params, input, input.buff, conn
      modifies data`requestId, data`role, data`isBeginProcessed, data`keepConnection
      ensures Reading() && params != null && fresh(params) && fresh(params.vec) && params.Valid() &&
              Info() == old(Info())
      ensures var (content, end) := Drain(SetType(old(input.Abs()), FCGI_PARAMS as int)); var d := Decode(content);
              ok == d.ok && input.Abs() == AfterPairs(content, end) &&
              params.Contents() == [RoleEntry(data.role)] + Entries(d.pairs)
    {
      hide Fill, Drain, Decode, RoleEntry, Entries;
      params := new Params(30);
      params.PutParam(RoleEntry(data.role));
      assert [] + [RoleEntry(data.role)] == [RoleEntry(data.role)];
      ghost var t := input.Abs();
      input.SetReaderType(FCGI_PARAMS as int);
      assert input.Abs() == SetType(t, FCGI_PARAMS as int);
      var r := input.ReadParams(params);
      return r >= 0;
    }

    /** One round of the loop of `FCGX_Accept_r`, on an open connection. */
    method TryConnection() returns (ok: bool)
      requires Idle() && conn != null
      modifies this, conn, data`requestId, data`role, data`isBeginProcessed, data`keepConnection
      ensures var a := Attempted(NewReader(Arrival(old(conn.input), old(conn).ending), old(Info()), old(conn.output)));
              ok == a.Request? && Info() == a.state.req &&
              (ok ==> conn == old(conn) && Reading() && fresh(input) && fresh(input.buff) &&
                      out == null && err == null &&
                      params != null && fresh(params) && fresh(params.vec) && params.Valid() &&
                      SetType(input.Abs(), FCGI_STDIN as int) == a.state && params.Contents() == a.params)
      ensures if ok then data.isBeginProcessed && KnownRole(data.role) else Idle() && conn == null
    {
      hide Fill, Drain, Decode, RoleEntry, Entries;
      ok := OpenReader();
      if ok && KnownRole(data.role) {
        ok := ReadEnvironment();
        if ok {
          return true;
        }
      }
      Free(true);
      return false;
    }

    /** The writers and what they have put on the wire, as a run sees them. */
    ghost function Writing(wire: seq<Record>): Output
      requires Serving()
      reads this, data, input, out, err, params, if params == null then {} else {params.vec}
      reads if out == null then {} else {out.buff}, if err == null then {} else {err.buff}
    {
      Output(data.requestId, out.Abs(), err.Abs(), data.appStatus, data.nWriters, wire)
    }

    /** The open connection, if any. */
    ghost function Holding(): Held
      reads this, conn
    {
      if conn == null then NoConnection else Held(conn.input, conn.ending, conn.output)
    }

    /** The outcome of accepting: a request served, with fresh writers, or none. */
    ghost predicate Accepted(service: Service, r: int)
      reads this, data, listener, conn, input, out, err, params, if params == null then {} else {params.vec}
      reads if input == null then {} else {input.buff, input.conn, input.data}
      reads if out == null then {} else {out.buff}, if err == null then {} else {err.buff}
    {
      if service.Serves? then
        && r == 0 && Serving() && input.Abs() == service.state && params.Contents() == service.params
        && listener.waiting == service.waiting && Fresh(Writing([]))
        && 8184 <= out.buff.Length <= 8192 && 504 <= err.buff.Length <= 512
      else
        && r == (if listener.errno > 0 then 0 - listener.errno as int else -9999)
        && Idle() && conn == null && listener.waiting == []
    }

    /** The loop of `FCGX_Accept_r`. */
    method AcceptLoop() returns (r: int)
      requires Idle()
      modifies this, listener, conn
      modifies data`requestId, data`role, data`isBeginProcessed, data`keepConnection, data`nWriters
      ensures Accepted(Accepting(old(Holding()), old(Info()), old(listener.waiting)), r)
      ensures r == 0 ==> fresh(input) && fresh(input.buff) && fresh(out) && fresh(out.buff) && fresh(err) &&
                         fresh(err.buff) && (conn == old(conn) || fresh(conn))
    {
      hide Attempted, AcceptOn, AcceptFrom;
      ghost var service := Accepting(Holding(), Info(), listener.waiting);
      while true
        invariant Idle() && (conn == old(conn) || conn == null || fresh(conn))
        invariant Accepting(Holding(), Info(), listener.waiting) == service
        decreases |listener.waiting| + if conn == null then 0 else 1
      {
        if conn == null {
          AcceptNext(Info(), listener.waiting);
          conn := listener.Accept();
          if conn == null {
            return if listener.errno > 0 then 0 - listener.errno as int else -9999;
          }
        }
        AcceptRound(Info(), conn.input, conn.ending, conn.output, listener.waiting);
        var ok := TryConnection();
        if ok {
          break;
        }
      }
      StartServing();
      return 0;
    }

    /** What is left to build once a request's parameters are read. */
    method StartServing()
      requires Reading() && params != null && params.Valid() && data.isBeginProcessed && KnownRole(data.role)
      modifies this`out, this`err, input, data`nWriters
      ensures Serving() && input.Abs() == SetType(old(input.Abs()), FCGI_STDIN as int) &&
              params.Contents() == old(params.Contents())
      ensures 8184 <= out.buff.Length <= 8192 && 504 <= err.buff.Length <= 512
      ensures Fresh(Writing([])) && fresh(out) && fresh(out.buff) && fresh(err) && fresh(err.buff)
    {
      input.SetReaderType(FCGI_STDIN as int);
      var aligned: bool, alignedToo: bool := *, *;
      BufferSizeFacts(8192, aligned);
      BufferSizeFacts(512, alignedToo);
      out := new StreamWriter(conn, data, 8192, FCGI_STDOUT, aligned);
      err := new StreamWriter(conn, data, 512, FCGI_STDERR, alignedToo);
      data.nWriters := 2;
    }

    /** `FCGX_Accept_r`: finish the request being served, if any, and accept the next. */
    method Accept(libInitialized: bool) returns (r: int)
      requires Idle() || Serving()
      modifies this, data, listener, conn, out, err
      modifies if out == null then {} else {out.buff}, if err == null then {} else {err.buff}
      ensures !libInitialized ==> r == -9998 && Idle() == old(Idle()) && Info() == old(Info())
      ensures var keeps := old(data.keepConnection) && (old(input) == null || old(input.errno) == 0);
              var sent := if old(input) == null then [] else EncodeAll(old(Closing()));
              var held := match old(Holding())
                          case Held(bytes, ending, output) =>
                            if keeps then Held(bytes, ending, output + sent) else NoConnection
                          case NoConnection => NoConnection;
              libInitialized ==> Accepted(Accepting(held, old(Info()), old(listener.waiting)), r)
      ensures data.appStatus == old(data.appStatus)
      ensures r == 0 ==> fresh(input) && fresh(input.buff) && fresh(out) && fresh(out.buff) && fresh(err) &&
                         fresh(err.buff) && (conn == old(conn) || fresh(conn))
    {
      hide EncodeAll, Attempted, CloseRecords;
      if !libInitialized {
        return -9998;
      }
      Finish();
      assert conn != null ==> conn.output + [] == conn.output;
      r := AcceptLoop();
    }

    /** `HB_FCGX_GETINPUT`: `n` bytes of the request's input, or nothing when there are fewer. */
    method GetInput(n: int) returns (bytes: Pointer)
      requires Serving()
      modifies input, input.buff, conn, data`requestId, data`role, data`isBeginProcessed, data`keepConnection
      ensures Serving() && out.Abs() == old(out.Abs()) && err.Abs() == old(err.Abs()) && Info() == old(Info())
      ensures var (t, str) := GetBytes(old(input.Abs()), if n < 0 then 0 else n);
              input.Abs() == t && bytes == if |str| == n then String(str) else NULL
    {
      hide Fill, GetBytes;
      GetBytesFacts(input.Abs(), if n < 0 then 0 else n);
      var str := input.GetStr(n);
      return if |str| != n then NULL else String(str);
    }

    /** An operation of a run was performed: the writers are as the run says, and what it adds to the
        wire was written. */
    ghost predicate Performed(o: Output, op: Op, output: seq<Byte>)
      requires Serving() && Sound(o.out) && Sound(o.err)
      reads this, data, conn, input, out, err, params, if params == null then {} else {params.vec}
      reads if out == null then {} else {out.buff}, if err == null then {} else {err.buff}
    {
      var p := WriterLaws.Step(o, op);
      Writing(p.wire) == p && o.wire <= p.wire && conn.output == output + EncodeAll(p.wire[|o.wire|..])
    }

    /** `FCGX_PutStr`, as `HB_FCGX_BPRINT` does on the output. */
    method PutStr(side: Side, bytes: seq<Byte>, ghost wire: seq<Record>)
      requires Serving()
      modifies out, err, out.buff, err.buff, conn`output, data`nWriters
      ensures Serving() && Performed(old(Writing(wire)), PutBytes(side, bytes), old(conn.output))
    {
      hide Put, EncodeAll;
      var w := if side.Out? then out else err;
      DropAppend(wire, Put(w.Abs(), data.requestId, bytes).1);
      var r := w.PutStr(bytes);
    }

    method PutChar(side: Side, c: int, ghost wire: seq<Record>)
      requires Serving()
      modifies out, err, out.buff, err.buff, conn`output, data`nWriters
      ensures Serving() && Performed(old(Writing(wire)), PutByte(side, c), old(conn.output))
    {
      hide Put, EncodeAll;
      var w := if side.Out? then out else err;
      DropAppend(wire, Put(w.Abs(), data.requestId, [ToByte(c)]).1);
      var r := w.PutChar(c);
    }

    method FFlush(side: Side, ghost wire: seq<Record>)
      requires Serving()
      modifies out, err, out.buff, err.buff, conn`output, data`nWriters
      ensures Serving() && Performed(old(Writing(wire)), FlushBytes(side), old(conn.output))
    {
      hide Flush, EncodeAll;
      var w := if side.Out? then out else err;
      DropAppend(wire, Flush(w.Abs(), data.requestId).1);
      var r := w.FFlush();
    }

    method FClose(side: Side, ghost wire: seq<Record>)
      requires Serving()
      modifies out, err, out.buff, err.buff, conn`output, data`nWriters
      ensures Serving() && Performed(old(Writing(wire)), CloseSide(side), old(conn.output))
    {
      hide CloseRecords, EncodeAll;
      var w := if side.Out? then out else err;
      EncodeAllNothing(conn.output);
      assert wire[|wire|..] == [];
      DropAppend(wire, CloseRecords(w.Abs(), data.requestId, data.nWriters == 1, data.appStatus));
      var r := w.FClose();
    }

    method SetExitStatus(status: int, ghost wire: seq<Record>)
      requires Serving()
      modifies data`appStatus
      ensures Serving() && Performed(old(Writing(wire)), Op.SetExitStatus(status), old(conn.output))
    {
      EncodeAllNothing(conn.output);
      data.appStatus := status;
    }

    /** One operation of a run. */
    method Perform(op: Op, ghost wire: seq<Record>)
      requires Serving()
      modifies out, err, out.buff, err.buff, conn`output, data`nWriters, data`appStatus
      ensures Serving() && Performed(old(Writing(wire)), op, old(conn.output))
    {
      hide EncodeAll, WriterLaws.Step;
      match op {
        case PutBytes(side, bytes) => PutStr(side, bytes, wire);
        case PutByte(side, c) => PutChar(side, c, wire);
        case FlushBytes(side) => FFlush(side, wire);
        case CloseSide(side) => FClose(side, wire);
        case SetExitStatus(status) => SetExitStatus(status, wire);
      }
    }

    /** A run of operations on the writers of a request just accepted puts on the wire exactly the
        records that the run does. */
    method PerformAll(ops: seq<Op>)
      requires Serving()
      modifies out, err, out.buff, err.buff, conn`output, data`nWriters, data`appStatus
      ensures Serving()
      ensures var o := Run(old(Writing([])), ops);
              Writing(o.wire) == o && conn.output == old(conn.output) + EncodeAll(o.wire)
    {
      hide WriterLaws.Step, EncodeAll, Run;
      ghost var start, base := Writing([]), conn.output;
      NothingRun(start, base);
      for i := 0 to |ops|
        invariant Serving()
        invariant var o := Run(start, ops[..i]); Writing(o.wire) == o && conn.output == base + EncodeAll(o.wire)
      {
        ghost var o := Run(start, ops[..i]);
        RunStep(start, ops, i, base);
        Perform(ops[i], o.wire);
      }
      assert ops[..|ops|] == ops;
    }

    /** A read: what it adds to the wire is replies, and the writers are left alone. */
    method ReadOnce(n: int, ghost wire: seq<Record>) returns (ghost log: seq<Logged>)
      requires Serving()
      modifies input, input.buff, conn, data`requestId, data`role, data`isBeginProcessed, data`keepConnection
      ensures Serving() && Writing(wire) == old(Writing(wire)) && WrittenIn(log) == [] && Info() == old(Info())
      ensures input.defined ==> old(input.defined) && RepliesOnly(log)
      ensures conn.output == old(conn.output) + EncodeAll(Logs(log))
    {
      hide EncodeAll, IsReply, Logs, WrittenIn, RepliesOnly, Fill, GetBytes;
      ghost var s := input.Abs();
      var bytes := GetInput(n);
      ghost var rs := GetBytesReplies(s, if n < 0 then 0 else n);
      LogsOf(rs);
      log := AsReplied(rs);
    }

    /** One act: what it adds to the wire, and to the run of the writers. */
    method ActOnce(act: Act, ghost o: Output) returns (ghost log: seq<Logged>)
      requires Serving() && Writing(o.wire) == o
      modifies input, input.buff, out, err, out.buff, err.buff, conn, data
      ensures Info() == old(Info())
      ensures Serving() && (input.defined ==> old(input.defined) && RepliesOnly(log))
      ensures conn.output == old(conn.output) + EncodeAll(Logs(log))
      ensures var p := if act.Write? then WriterLaws.Step(o, act.op) else o;
              Writing(p.wire) == p && p.wire == o.wire + WrittenIn(log)
    {
      hide EncodeAll, WriterLaws.Step, Logs, WrittenIn, RepliesOnly;
      match act {
        case Write(op) =>
          Perform(op, o.wire);
          ghost var p := WriterLaws.Step(o, op);
          LogsOf(p.wire[|o.wire|..]);
          log := AsWritten(p.wire[|o.wire|..]);
        case Read(n) =>
          log := ReadOnce(n, o.wire);
          assert o.wire + [] == o.wire;
      }
    }

    /** Any interleaving of reads with operations on the writers: what reaches the connection is whole records,
        those of the run of the operations in their order, and replies in between. */
    method Interact(acts: seq<Act>) returns (ghost log: seq<Logged>)
      requires Serving()
      modifies input, input.buff, out, err, out.buff, err.buff, conn, data
      ensures Info() == old(Info())
      ensures Serving() && (input.defined ==> old(input.defined) && RepliesOnly(log))
      ensures conn.output == old(conn.output) + EncodeAll(Logs(log))
      ensures var o := Run(old(Writing([])), WritesOf(acts)); Writing(o.wire) == o && o.wire == WrittenIn(log)
    {
      hide EncodeAll, WriterLaws.Step, IsReply, Logs, WrittenIn, RepliesOnly, Run;
      ghost var start, base := Writing([]), conn.output;
      log := [];
      NothingLogged(start, base);
      for i := 0 to |acts|
        invariant Info() == old(Info())
        invariant Serving() && (input.defined ==> old(input.defined) && RepliesOnly(log))
        invariant conn.output == base + EncodeAll(Logs(log))
        invariant var o := Run(start, WritesOf(acts[..i])); Writing(o.wire) == o && o.wire == WrittenIn(log)
      {
        ghost var o := Run(start, WritesOf(acts[..i]));
        ActStep(start, acts, i);
        ghost var more := ActOnce(acts[i], o);
        LogsAppend(log, more);
        EncodeAllMore(base, Logs(log), Logs(more));
        log := log + more;
      }
      assert acts[..|acts|] == acts;
    }

    /** A request just accepted, used in whatever way and finished: the wire of its writers is that of the run
        that ends with closing both sides. */
    method InteractAndFinish(acts: seq<Act>) returns (ghost log: seq<Logged>)
      requires Serving() && Fresh(Writing([]))
      modifies this, input, input.buff, out, err, out.buff, err.buff, conn, data
      ensures Idle() && (old(input).defined ==> old(input.defined) && RepliesOnly(log))
      ensures old(conn).output == old(conn.output) + EncodeAll(Logs(log))
      ensures WrittenIn(log) == Run(old(Writing([])), WritesOf(acts) + [CloseSide(Err), CloseSide(Out)]).wire
      ensures data.requestId == old(data.requestId)
      ensures conn == if old(data.keepConnection) && old(input).errno == 0 then old(conn) else null
      ensures data.appStatus == LastStatus(WritesOf(acts), old(data.appStatus))
    {
      hide EncodeAll, IsReply, Logs, WrittenIn, RepliesOnly, Run, LastStatus, Finishing;
      ghost var start, ops, base := Writing([]), WritesOf(acts), conn.output;
      log := Interact(acts);
      FinishIsTwoCloses(start, ops);
      RunKeepsStatus(start, ops);
      RunKeepsId(start, ops);
      ghost var last := Closing();
      Finish();
      LogsOf(last);
      LogsAppend(log, AsWritten(last));
      EncodeAllMore(base, Logs(log), last);
      log := log + AsWritten(last);
    }

    /** The next request accepted, and what was written on its connection so far. */
    method TakeRequest() returns (r: int, ghost base: seq<Byte>, ghost log: seq<Logged>, ghost b: Record)
      requires Idle()
      modifies this, data, listener, conn
      ensures data.appStatus == old(data.appStatus)
      ensures r != 0 ==> Idle()
      ensures r == 0 ==> Serving() && Fresh(Writing([])) && conn.output == base + EncodeAll(Logs(log)) &&
                         (base == [] || (old(conn) != null && base == old(conn.output))) &&
                         WrittenIn(log) == [] && (input.defined ==> RepliesOnly(log))
      ensures r == 0 ==> Arrived(old(Holding()), old(listener.waiting), b) && |b.content| == 8 &&
                         data.requestId == b.id && (data.keepConnection <==> b.content[2] % 2 == 1)
      ensures r == 0 ==> fresh(input) && fresh(input.buff) && fresh(out) && fresh(out.buff) && fresh(err) &&
                         fresh(err.buff) && (conn == old(conn) || fresh(conn))
    {
      hide EncodeAll, IsReply, Logs, WrittenIn, RepliesOnly, Accepting, OpenedBy;
      base, log, b := [], [], EndRequest(0, 0, 0);
      ghost var held := if conn == null || !data.keepConnection then NoConnection else Holding();
      ghost var info, waiting := Info(), listener.waiting;
      assert conn != null ==> conn.output + [] == conn.output;
      r := Accept(true);
      if r == 0 {
        ghost var rs;
        base, rs := ServiceReplies(held, info, waiting);
        b := ServiceAsked(held, info, waiting);
        LogsOf(rs);
        log := AsReplied(rs);
      }
    }

    /** A request from its acceptance to its end. Everything written on its connection, behind what was there if
        the connection was kept, is whole records: the replies to what was read and, complete, the streams of its
        two writers, ended with the exit status set last, if need be by the request before. The connection
        stays open exactly if the beginning `b` asked for it and reading did not fail. */
    method Serve(acts: seq<Act>)
      returns (r: int, ghost reader: Reader?, ghost base: seq<Byte>,
               ghost log: seq<Logged>, ghost b: Record)
      requires Idle()
      modifies this, data, listener, conn
      ensures Idle()
      ensures r == 0 ==> reader != null && reader.data == data
      ensures r == 0 ==> reader.conn.output == base + EncodeAll(Logs(log)) &&
                         (base == [] || (old(conn) != null && base == old(conn.output))) &&
                         (reader.defined ==> RepliesOnly(log))
      ensures r == 0 ==> Complete(WrittenIn(log), data.requestId, WritesOf(acts) + [CloseSide(Err), CloseSide(Out)],
                                  old(data.appStatus))
      ensures r == 0 ==> data.appStatus == LastStatus(WritesOf(acts), old(data.appStatus))
      ensures r == 0 ==> Arrived(old(Holding()), old(listener.waiting), b) && |b.content| == 8 &&
                         data.requestId == b.id &&
                         conn == if b.content[2] % 2 == 1 && reader.errno == 0 then reader.conn else null
    {
      hide EncodeAll, IsReply, Logs, WrittenIn, RepliesOnly, Run, LastStatus, Complete, Arrived;
      reader := null;
      r, base, log, b := TakeRequest();
      if r == 0 {
        reader := input;
        WholeRun(Writing([]), WritesOf(acts));
        ghost var more;
        more := InteractAndFinish(acts);
        LogsAppend(log, more);
        EncodeAllMore(base, Logs(log), Logs(more));
        assert [] + WrittenIn(more) == WrittenIn(more);
        log := log + more;
      }
    }

    /** A request just accepted, its output written in whatever way, and finished: the wire is that of
        the run that ends with closing both sides. */
    method PerformAndFinish(ops: seq<Op>)
      requires Serving() && Fresh(Writing([]))
      modifies this, data, conn, out, err, out.buff, err.buff
      ensures Idle()
      ensures var o := Run(old(Writing([])), ops + [CloseSide(Err), CloseSide(Out)]);
              old(conn).output == old(conn.output) + EncodeAll(o.wire) && data.nWriters == o.nWriters == 0
      ensures data.appStatus == LastStatus(ops, old(data.appStatus))
    {
      hide Run, EncodeAll, Finishing;
      ghost var start, base := Writing([]), conn.output;
      PerformAll(ops);
      ghost var o := Run(start, ops);
      FinishIsTwoCloses(start, ops);
      RunKeepsStatus(start, ops);
      EncodeAllMore(base, o.wire, Closing());
      Finish();
      EveryRunHolds(start, ops + [CloseSide(Err), CloseSide(Out)]);
    }
  }

  /** The records of a request from first to last: both streams as they were put, and one end of the request,
      last of all, with the exit status set in time or found at the start. */
  predicate Complete(wire: seq<Record>, id: int, ops: seq<Op>, initial: int) {
    && Contents(Of(wire, FCGI_STDOUT)) == Sent(ops, Out) && Contents(Of(wire, FCGI_STDERR)) == Sent(ops, Err)
    && wire != [] && wire[|wire| - 1] == EndRequest(id, ExitStatus(ops, initial), FCGI_REQUEST_COMPLETE)
    && Of(wire, FCGI_END_REQUEST) == [wire[|wire| - 1]]
    && forall w :: w in wire ==> WellFormed(w, id)
  }

  /** The wire of a run that ends with closing both sides. */
  lemma WholeRun(start: Output, ops: seq<Op>)
    requires Fresh(start)
    ensures var all := ops + [CloseSide(Err), CloseSide(Out)];
            Complete(Run(start, all).wire, start.id, all, start.appStatus)
  {
    hide Run, Contents, Of, Sent, ExitStatus, EndRequest, WellFormed;
    var all := ops + [CloseSide(Err), CloseSide(Out)];
    assert all[|ops|] == CloseSide(Err) && all[|ops| + 1] == CloseSide(Out);
    FinishedRequest(start, all);
    EveryRunHolds(start, all);
    RunKeepsId(start, all);
  }

  lemma NothingLogged(o: Output, output: seq<Byte>)
    requires Sound(o.out) && Sound(o.err) && o.wire == []
    ensures Run(o, WritesOf([])) == o && o.wire == WrittenIn([]) && output + EncodeAll(Logs([])) == output
    ensures RepliesOnly([])
  {
    assert Logs([]) == [];
  }

  lemma ActStep(start: Output, acts: seq<Act>, i: nat)
    requires Sound(start.out) && Sound(start.err) && i < |acts|
    ensures var o := Run(start, WritesOf(acts[..i]));
            Run(start, WritesOf(acts[..i + 1])) == if acts[i].Write? then WriterLaws.Step(o, acts[i].op) else o
  {
    hide Run, WriterLaws.Step;
    assert acts[..i + 1][..i] == acts[..i] && acts[..i + 1][i] == acts[i];
    var ops := WritesOf(acts[..i]);
    if acts[i].Write? {
      RunMore(start, ops, acts[i].op);
    } else {
      assert ops + [] == ops;
    }
  }

  lemma NothingRun(o: Output, output: seq<Byte>)
    requires Sound(o.out) && Sound(o.err) && o.wire == []
    ensures Run(o, []) == o && output + EncodeAll(o.wire) == output
  {
  }

  /** One operation more of a run, and the bytes it adds. */
  lemma RunStep(start: Output, ops: seq<Op>, i: nat, output: seq<Byte>)
    requires Sound(start.out) && Sound(start.err) && i < |ops|
    ensures var o := Run(start, ops[..i]); var p := WriterLaws.Step(o, ops[i]);
            Run(start, ops[..i + 1]) == p &&
            (o.wire <= p.wire ==>
               output + EncodeAll(o.wire) + EncodeAll(p.wire[|o.wire|..]) == output + EncodeAll(p.wire))
  {
    hide WriterLaws.Step, EncodeAll;
    var o := Run(start, ops[..i]);
    assert ops[..i + 1] == ops[..i] + [ops[i]];
    RunMore(start, ops[..i], ops[i]);
    var p := WriterLaws.Step(o, ops[i]);
    if o.wire <= p.wire {
      EncodeAllMore(output, o.wire, p.wire[|o.wire|..]);
      assert o.wire + p.wire[|o.wire|..] == p.wire;
    }
  }
}
