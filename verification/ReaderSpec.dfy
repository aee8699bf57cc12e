/** What reading a connection means: one parser over the connection's bytes as a whole.
    It mirrors `FillBuffProc` and `ProcessHeader` on every input, but knows nothing of
    buffers or of the pieces in which the bytes arrive. */
module ReaderSpec {
  import opened Bytes
  import opened Wire
  import opened NameValue

  /** The part of a request that reading sets. */
  datatype RequestInfo = RequestInfo(id: int, role: int, begun: bool, keep: bool)

  /** `rest` is every byte of the connection not yet consumed, and `ending` what follows the
      last one: 0 for an orderly end, otherwise the errno of the failing read.
      `pending` counts the unread content bytes of the current record and `padding` its
      unread padding; a closed stream has no pending content.
      `sent` is what reading made the library write on the connection.
      `defined` says that so far the code has stayed within what C defines: it has added no
      lengths beyond `int` and written nothing beyond its buffer for an answer. What the model
      does after that is what unbounded integers and buffers would give. */
  datatype State = State(
    rest: seq<Byte>, ending: nat, pending: nat, padding: nat, skip: bool, eor: bool,
    ty: int, closed: bool, errno: int, req: RequestInfo, sent: seq<Byte>, defined: bool)

  function EndCode(ending: nat): (code: int)
    ensures code != 0
  {
    if ending == 0 then FCGX_PROTOCOL_ERROR else ending
  }

  /** Only the first error of a stream is kept. */
  function Fail(s: State, code: int): State {
    s.(pending := 0, closed := true, errno := if s.errno == 0 then code else s.errno)
  }

  predicate Ready(s: State) {
    !s.closed && s.pending > 0 && !s.skip && s.rest != []
  }

  /** What reading never changes, and what it never adds to. */
  predicate Follows(s: State, t: State) {
    t.ty == s.ty && t.ending == s.ending && |t.rest| <= |s.rest| && (s.req.begun ==> t.req == s.req)
  }

  /** Something that C defines only if `b`. */
  function Mark(s: State, b: bool): State {
    s.(defined := s.defined && b)
  }

  /** Consuming bytes up to the next header ends in a state the client sees, or at a header. */
  datatype Step = Done(state: State) | At(header: seq<Byte>, after: State)

  /** Where consuming may stop: closed or with content at hand, or past a whole header. */
  predicate Stops(s: State, c: Step) {
    match c
    case Done(t) => Follows(s, t) && t.eor == s.eor && t.req == s.req && (t.closed || Ready(t))
    case At(h, t) => |h| == FCGI_HEADER_LEN && Follows(s, t) && |t.rest| < |s.rest| && t.req == s.req &&
                     t.closed == s.closed && !t.eor && !s.eor
  }

  function PastPadding(s: State): (c: Step)
    ensures Stops(s, c)
  {
    if s.eor then Done(s.(pending := 0, closed := true))
    else if |s.rest| < FCGI_HEADER_LEN then Done(Fail(s.(rest := []), EndCode(s.ending)))
    else At(s.rest[..FCGI_HEADER_LEN], s.(rest := s.rest[FCGI_HEADER_LEN..]))
  }

  function PastContent(s: State): (c: Step)
    ensures Stops(s, c)
  {
    if |s.rest| < s.padding then Done(Fail(s.(rest := [], padding := s.padding - |s.rest|), EndCode(s.ending)))
    else PastPadding(s.(rest := s.rest[s.padding..], padding := 0))
  }

  function Consume(s: State): (c: Step)
    requires !s.closed
    ensures Stops(s, c)
  {
    if s.rest == [] then Done(Fail(s, EndCode(s.ending)))
    else if s.pending > 0 && !s.skip then Done(s)
    else if |s.rest| < s.pending then Done(Fail(s.(rest := []), EndCode(s.ending)))
    else PastContent(if s.pending > 0 then s.(rest := s.rest[s.pending..], pending := 0, skip := false) else s)
  }

  /** Unread content that a read confined to the current record delivers. */
  function RecordContent(s: State): seq<Byte> {
    if s.skip then [] else s.rest[..Min(s.pending, |s.rest|)]
  }

  /** The state once a read confined to the current record has reached its end. */
  function RecordEnd(s: State): (t: State)
    requires !s.closed && s.eor
    ensures Follows(s, t) && t.req == s.req
  {
    if s.skip then FinalState(s)
    else var n := Min(s.pending, |s.rest|);
         FinalState(s.(rest := s.rest[n..], pending := s.pending - n))
  }

  function FinalState(s: State): (t: State)
    requires !s.closed && s.eor
    ensures Follows(s, t) && t.req == s.req
  {
    Consume(s).state
  }

  /** The answer to one entry of an FCGI_GET_VALUES record. */
  function Answer(entry: seq<Byte>): seq<Byte> {
    var name := CString(entry[..IndexOf(entry, EQ)]);
    if name == Ascii("FCGI_MAX_CONNS") then [14, 1] + name + Ascii("1")
    else if name == Ascii("FCGI_MAX_REQS") then [13, 1] + name + Ascii("1")
    else if name == Ascii("FCGI_MPXS_CONNS") then [15, 1] + name + Ascii("0")
    else []
  }

  function Answers(entries: seq<seq<Byte>>): seq<Byte> {
    if entries == [] then [] else Answers(entries[..|entries| - 1]) + Answer(entries[|entries| - 1])
  }

  /** How many entries are answered. */
  function Known(entries: seq<seq<Byte>>): nat {
    if entries == [] then 0 else
    Known(entries[..|entries| - 1]) + if Answer(entries[|entries| - 1]) == [] then 0 else 1
  }

  /** The entries that the code can answer: each has its '=' within the C string, and the answers
      fit its buffer of 64 bytes, which they do for up to three. */
  predicate Answerable(entries: seq<seq<Byte>>) {
    (forall i :: 0 <= i < |entries| ==> SplitEntry(entries[i]).Split?) && Known(entries) <= 3
  }

  function GetValuesResult(entries: seq<seq<Byte>>): Record {
    var body := Answers(entries);
    Record(FCGI_GET_VALUES_RESULT, 0, body, Zeros(AlignInt8(|body|) - |body|), 0)
  }

  function UnknownType(ty: Byte): Record {
    Record(FCGI_UNKNOWN_TYPE, 0, UnknownTypeBody(ty), [], 0)
  }

  function EndRequest(id: int, appStatus: int, protocolStatus: Byte): Record {
    Record(FCGI_END_REQUEST, id % 0x1_0000, EndRequestBody(appStatus, protocolStatus), [], 0)
  }

  function Role(body: seq<Byte>): int
    requires |body| == 8
  {
    body[0] as int * 256 + body[1] as int
  }

  function KeepsConnection(body: seq<Byte>): bool
    requires |body| == 8
  {
    body[2] % 2 == 1
  }

  /** What interpreting a header leads to. */
  datatype Status = StreamRecord | Skip | BeginRecord | MgmtRecord | Error(code: int)

  predicate Proceeds(s: State, status: Status, t: State) {
    Follows(s, t) && (status.BeginRecord? ==> !s.req.begun && t.req.begun && t.pending == 0 && !t.skip && !t.closed) &&
    (status.Error? ==> status.code != 0) && (!status.BeginRecord? ==> t.req.begun == s.req.begun)
  }

  /** `s` is confined to the record whose header was read. */
  function ProcessBegin(id: nat, s: State): (r: (Status, State))
    requires !s.closed && s.eor
    ensures Proceeds(s, r.0, r.1)
  {
    if id == 0 || s.pending != 8 then (Error(FCGX_PROTOCOL_ERROR), s)
    else if s.req.begun then (Skip, s.(sent := s.sent + Encode(EndRequest(id, 0, FCGI_CANT_MPX_CONN))))
    else var t := s.(req := s.req.(id := id));
      if s.skip || |s.rest| < 8 then (Error(FCGX_PROTOCOL_ERROR), RecordEnd(t))
      else (BeginRecord, t.(rest := s.rest[8..], pending := 0,
                            req := RequestInfo(id, Role(s.rest[..8]), true, KeepsConnection(s.rest[..8]))))
  }

  /** Reading name-value pairs until the end of the content. */
  function AfterPairs(content: seq<Byte>, end: State): State {
    var t := Mark(end, SumsFit(content));
    if Decode(content).ok then t else Fail(t, FCGX_PARAMS_ERROR)
  }

  function ProcessManagement(ty: Byte, s: State): (r: (Status, State))
    requires !s.closed && s.eor
    ensures Proceeds(s, r.0, r.1)
  {
    if ty == FCGI_GET_VALUES then
      var t := AfterPairs(RecordContent(s), RecordEnd(s));
      if t.errno != 0 || t.pending != 0 then (Error(FCGX_PROTOCOL_ERROR), t)
      else
        var entries := Entries(Decode(RecordContent(s)).pairs);
        (MgmtRecord, Mark(t.(sent := t.sent + Encode(GetValuesResult(entries))), Answerable(entries)))
    else (MgmtRecord, s.(sent := s.sent + Encode(UnknownType(ty))))
  }

  function ProcessHeader(h: seq<Byte>, s: State): (r: (Status, State))
    requires |h| == FCGI_HEADER_LEN && !s.closed && s.eor
    ensures Proceeds(s, r.0, r.1)
  {
    if h[0] != FCGI_VERSION_1 then (Error(FCGX_UNSUPPORTED_VERSION), s) else
    var id := HeaderId(h);
    var t := s.(pending := HeaderContentLen(h), padding := h[6]);
    if h[1] == FCGI_BEGIN_REQUEST then ProcessBegin(id, t)
    else if id == 0 then ProcessManagement(h[1], t)
    else if id != s.req.id then (Skip, t)
    else if h[1] as int != s.ty then (Error(FCGX_PROTOCOL_ERROR), t)
    else (StreamRecord, t)
  }

  /** Whether filling the buffer returns to its client or goes on to the next record. */
  datatype Next = Return(state: State) | Loop(state: State)

  function AfterHeader(status: Status, t: State): Next {
    var u := t.(eor := false, closed := false);
    match status
    case StreamRecord => if u.pending == 0 then Return(u.(closed := true)) else Loop(u)
    case Skip => Loop(u.(skip := true))
    case BeginRecord => Return(u)
    case MgmtRecord => Loop(u)
    case Error(code) => Return(Fail(u, code))
  }

  function Dispatch(h: seq<Byte>, s: State): (n: Next)
    requires |h| == FCGI_HEADER_LEN && !s.closed
    ensures Follows(s, n.state) && !n.state.eor
    ensures n.Return? && !n.state.closed ==> !s.req.begun && n.state.req.begun && n.state.pending == 0 && !n.state.skip
    ensures n.Loop? ==> !n.state.closed && n.state.req.begun == s.req.begun
    ensures n.Return? && !s.req.begun && n.state.req.begun ==> !n.state.closed && n.state.pending == 0
  {
    var (status, t) := ProcessHeader(h, s.(eor := true));
    AfterHeader(status, t)
  }

  /** A read of this state meets content or the end of the stream, never a request's beginning. */
  predicate Live(s: State) {
    s.closed || s.req.begun || s.eor
  }

  /** `FillBuffProc`: go on until content is at hand, the stream is closed, or a request begins. */
  function Fill(s: State): (t: State)
    requires !s.closed
    ensures Follows(s, t)
    ensures Live(s) ==> Live(t) && (t.closed || Ready(t))
    ensures !s.req.begun && t.req.begun ==> !t.closed && t.pending == 0
    ensures t.closed || Ready(t) || (!s.req.begun && t.req.begun && t.pending == 0 && !t.skip)
    ensures t.eor == s.eor
    decreases |s.rest|
  {
    match Consume(s)
    case Done(t) => t
    case At(h, t) =>
      match Dispatch(h, t)
      case Return(u) => u
      case Loop(u) => Fill(u)
  }

  /** `FCGX_GetChar`: the next content byte, or -1 at the end. */
  function GetByte(s: State): (r: (State, int))
    requires Live(s)
    ensures Live(r.0) && |r.0.rest| <= |s.rest| && r.0.eor == s.eor && r.0.ty == s.ty &&
            (s.req.begun ==> r.0.req == s.req)
    ensures r.1 >= 0 ==> |r.0.rest| < |s.rest| && !r.0.closed && !r.0.skip && r.1 < 256
    ensures r.1 < 0 ==> r.0.closed && r.1 == -1
  {
    var end: int := -1;
    if s.closed then (s, end) else
    var t := Fill(s);
    if t.closed then (t, end)
    else (t.(rest := t.rest[1..], pending := t.pending - 1), t.rest[0] as int)
  }

  /** Up to `n` bytes, as `FCGX_GetStr` delivers them. */
  function GetBytes(s: State, n: nat): (r: (State, seq<Byte>))
    requires Live(s)
    ensures Live(r.0) && r.0.eor == s.eor && |r.1| <= n && |r.0.rest| + |r.1| <= |s.rest|
    ensures |r.1| < n ==> r.0.closed
    decreases n
  {
    if n == 0 then (s, []) else
    var (t, c) := GetByte(s);
    if c < 0 then (t, []) else
    var (u, bs) := GetBytes(t, n - 1);
    (u, [c] + bs)
  }

  /** Everything a stream will still deliver, and the state in which it is closed. */
  function Drain(s: State): (r: (seq<Byte>, State))
    requires Live(s)
    ensures r.1.closed && Live(r.1) && r.1.ty == s.ty && r.1.eor == s.eor && (s.req.begun ==> r.1.req == s.req)
    decreases |s.rest|
  {
    var (t, c) := GetByte(s);
    if c < 0 then ([], t) else
    var d := Drain(t);
    ([c] + d.0, d.1)
  }

  /** `SetReaderType`: start on another type of record, forgetting what is left of the last one. */
  function SetType(s: State, ty: int): State {
    s.(ty := ty, eor := false, skip := false, pending := 0, padding := 0, closed := false)
  }
}
