/** Accepting and finishing requests, as functions of what arrives. */
module Lifecycle {
  import opened Bytes
  import opened Wire
  import opened NameValue
  import opened Parameters
  import opened ReaderSpec
  import opened Demux
  import opened Breaks
  import opened Openings
  import opened Replies

  /** A connection waiting to be accepted: its bytes and what follows them. */
  datatype Arrival = Arrival(bytes: seq<Byte>, ending: nat)

  predicate KnownRole(role: int) {
    role == FCGI_RESPONDER || role == FCGI_AUTHORIZER || role == FCGI_FILTER
  }

  function RoleName(role: int): seq<Byte>
    requires KnownRole(role)
  {
    if role == FCGI_RESPONDER then Ascii("RESPONDER")
    else if role == FCGI_AUTHORIZER then Ascii("AUTHORIZER")
    else Ascii("FILTER")
  }

  const FCGI_ROLE: seq<Byte> := Ascii("FCGI_ROLE")

  function RoleEntry(role: int): seq<Byte>
    requires KnownRole(role)
  {
    Entry(Pair(FCGI_ROLE, RoleName(role)))
  }

  /** A fresh reader of a connection, for a request that has not begun. */
  function NewReader(a: Arrival, req: RequestInfo, sent: seq<Byte>): State {
    State(a.bytes, a.ending, 0, 0, false, false, 0, false, 0, req.(begun := false), sent, true)
  }

  /** What a connection comes to: a request with its parameters, positioned at its input, or nothing. */
  datatype Attempt = Request(state: State, params: seq<seq<Byte>>) | Refused(state: State)

  function Attempted(s: State): (a: Attempt)
    requires !s.closed
  {
    var t := Fill(s);
    if !t.req.begun || !KnownRole(t.req.role) then Refused(t) else
    var (content, end) := Drain(SetType(t, FCGI_PARAMS as int));
    var u := AfterPairs(content, end);
    if Decode(content).ok
    then Request(SetType(u, FCGI_STDIN as int), [RoleEntry(t.req.role)] + Entries(Decode(content).pairs))
    else Refused(u)
  }

  /** What accepting comes to: the first connection that carries a request serves it. */
  datatype Service = Serves(state: State, params: seq<seq<Byte>>, waiting: seq<Arrival>) | Exhausted(req: RequestInfo)

  function AcceptFrom(req: RequestInfo, waiting: seq<Arrival>): Service
    decreases |waiting|, 0
  {
    if waiting == [] then Exhausted(req)
    else AcceptOn(NewReader(waiting[0], req, []), waiting[1..])
  }

  function AcceptOn(s: State, waiting: seq<Arrival>): Service
    requires !s.closed
    decreases |waiting|, 1
  {
    match Attempted(s)
    case Request(t, params) => Serves(t, params, waiting)
    case Refused(t) => AcceptFrom(t.req, waiting)
  }

  /** Accepting with a connection kept open, or without one. */
  datatype Held = Held(input: seq<Byte>, ending: nat, output: seq<Byte>) | NoConnection

  function Accepting(held: Held, req: RequestInfo, waiting: seq<Arrival>): Service {
    match held
    case Held(input, ending, output) => AcceptOn(NewReader(Arrival(input, ending), req, output), waiting)
    case NoConnection => AcceptFrom(req, waiting)
  }

  lemma AcceptNext(req: RequestInfo, waiting: seq<Arrival>)
    ensures Accepting(NoConnection, req, waiting) ==
            if waiting == [] then Exhausted(req)
            else Accepting(Held(waiting[0].bytes, waiting[0].ending, []), req, waiting[1..])
  {
  }

  lemma AcceptRound(req: RequestInfo, input: seq<Byte>, ending: nat, output: seq<Byte>, waiting: seq<Arrival>)
    ensures Accepting(Held(input, ending, output), req, waiting) ==
            match Attempted(NewReader(Arrival(input, ending), req, output))
            case Request(t, params) => Serves(t, params, waiting)
            case Refused(t) => Accepting(NoConnection, t.req, waiting)
  {
    hide Attempted;
  }

  /** The names of the roles 1, 2 and 3. */
  const ROLES: seq<string> := ["RESPONDER", "AUTHORIZER", "FILTER"]

  /** The parameters name a role: first of all, and to whoever looks it up. */
  predicate SaysRole(params: seq<seq<Byte>>, name: string) {
    && params != [] && params[0] == Ascii("FCGI_ROLE=" + name)
    && Lookup(params, Ascii("FCGI_ROLE")) == String(Ascii(name))
  }

  /** An accepted request has one of three roles, has begun, and is at the start of its input; its first
      parameter names its role. */
  lemma {:induction false} RequestFacts(s: State)
    requires !s.closed && Attempted(s).Request?
    ensures var a := Attempted(s); var role := a.state.req.role;
            a.state.req.begun && a.state.ty == FCGI_STDIN as int && !a.state.closed && !a.state.eor &&
            1 <= role <= 3 && SaysRole(a.params, ROLES[role - 1])
  {
    hide Fill, Drain, Decode, SplitEntry;
    RoleIsFound(Fill(s).req.role, Attempted(s).params);
  }

  lemma {:induction false} RoleIsFound(role: int, entries: seq<seq<Byte>>)
    requires KnownRole(role) && entries != [] && entries[0] == RoleEntry(role)
    ensures 1 <= role <= 3 && RoleName(role) == Ascii(ROLES[role - 1]) && SaysRole(entries, ROLES[role - 1])
  {
    hide Lookup, Entry;
    NoNulIn("RESPONDER");
    NoNulIn("AUTHORIZER");
    NoNulIn("FILTER");
    LookupFirst(Pair(FCGI_ROLE, RoleName(role)), entries);
    RoleByText(role);
  }

  lemma RoleByText(role: int)
    requires KnownRole(role)
    ensures 1 <= role <= 3 && RoleEntry(role) == Ascii("FCGI_ROLE=" + ROLES[role - 1])
  {
    var name := ROLES[role - 1];
    assert RoleName(role) == Ascii(name);
    assert Ascii("FCGI_ROLE=" + name) == Ascii("FCGI_ROLE") + [61] + Ascii(name);
  }

  /** The roles known are those of two bytes 0 and 1, 2 or 3. */
  lemma RoleKnownIff(b: Record)
    requires |b.content| == 8
    ensures KnownRole(RoleOf(b)) <==> b.content[0] == 0 && 1 <= b.content[1] <= 3
  {
  }

  lemma NoNulIn(s: string)
    requires forall c :: c in s ==> 0 < c as int < 256
    ensures 0 !in Ascii(s)
  {
    forall i | 0 <= i < |s| ensures Ascii(s)[i] != 0 {
      assert s[i] in s;
    }
  }

  lemma LookupFirst(p: Pair, entries: seq<seq<Byte>>)
    requires entries != [] && entries[0] == Entry(p) && 0 !in p.value
    ensures Lookup(entries, p.name) == String(p.value)
  {
    var e := Entry(p);
    assert e[..|p.name|] == p.name && e[|p.name|] == EQ && e[|p.name| + 1..] == p.value;
    IndexOfUnique(p.value, 0, |p.value|);
  }

  /** A request served on a kept connection, or on one of those waiting, satisfies the same; the
      connections still waiting are the later ones. */
  lemma {:induction false} ServiceFacts(held: Held, req: RequestInfo, waiting: seq<Arrival>)
    requires Accepting(held, req, waiting).Serves?
    ensures var a := Accepting(held, req, waiting); var role := a.state.req.role;
            a.state.req.begun && a.state.ty == FCGI_STDIN as int && !a.state.closed &&
            1 <= role <= 3 && SaysRole(a.params, ROLES[role - 1])
    ensures var later := Accepting(held, req, waiting).waiting; var taken := |waiting| - |later|;
            0 <= taken && later == waiting[taken..] && (held.NoConnection? ==> taken > 0)
    decreases |waiting|, held.Held?
  {
    hide Attempted;
    match held
    case NoConnection =>
      AcceptNext(req, waiting);
      ServiceFacts(Held(waiting[0].bytes, waiting[0].ending, []), req, waiting[1..]);
    case Held(input, ending, output) =>
      var s := NewReader(Arrival(input, ending), req, output);
      AcceptRound(req, input, ending, output, waiting);
      if Attempted(s).Request? {
        RequestFacts(s);
      } else {
        ServiceFacts(NoConnection, Attempted(s).state.req, waiting);
      }
  }

  /** Accepting writes whole records on the connection, whatever becomes of it. */
  lemma {:induction false} AttemptedReplies(s: State) returns (rs: seq<Record>)
    requires !s.closed
    ensures Answered(s, Attempted(s).state, rs)
  {
    hide Fill, Drain, Decode, IsReply, SumsFit;
    rs := FillReplies(s);
    var t := Fill(s);
    if t.req.begun && KnownRole(t.req.role) {
      var more := DrainReplies(SetType(t, FCGI_PARAMS as int));
      AnsweredTwice(s, t, Drain(SetType(t, FCGI_PARAMS as int)).1, rs, more);
      rs := rs + more;
    }
  }

  /** What was written on the connection that serves a request: whole records, behind what was written
      before if it was kept. */
  lemma {:induction false} ServiceReplies(held: Held, req: RequestInfo, waiting: seq<Arrival>)
      returns (base: seq<Byte>, rs: seq<Record>)
    requires Accepting(held, req, waiting).Serves?
    ensures base == [] || (held.Held? && base == held.output)
    ensures var s := Accepting(held, req, waiting).state;
            s.sent == base + EncodeAll(rs) && (s.defined ==> forall r :: r in rs ==> IsReply(r))
    decreases |waiting|, held.Held?
  {
    hide Attempted, IsReply;
    match held
    case NoConnection =>
      AcceptNext(req, waiting);
      base, rs := ServiceReplies(Held(waiting[0].bytes, waiting[0].ending, []), req, waiting[1..]);
    case Held(input, ending, output) =>
      var s := NewReader(Arrival(input, ending), req, output);
      AcceptRound(req, input, ending, output, waiting);
      if Attempted(s).Request? {
        base := output;
        rs := AttemptedReplies(s);
      } else {
        base, rs := ServiceReplies(NoConnection, Attempted(s).state.req, waiting);
      }
  }

  // ---------------------------------------------------------------------------------------
  // What an arrival comes to.

  /** The role that a beginning names. */
  function RoleOf(b: Record): int
    requires |b.content| == 8
  {
    b.content[0] as int * 256 + b.content[1] as int
  }

  /** Records in front that a reader passes by, and then the beginning of a request. `before` is the request
      before, of which the library keeps the id. */
  predicate Opening(before: RequestInfo, fronts: seq<Record>, b: Record) {
    && AllPassedBy(before.id, false, fronts) && !DeliverAll(before.id, false, fronts).skip
    && Beginning(b) && KnownRole(RoleOf(b))
  }

  /** The same, read off the bytes; the padding of the beginning belongs to what follows. */
  predicate OpensRequest(before: RequestInfo, w: seq<Byte>, fronts: seq<Record>, b: Record, more: seq<Byte>) {
    Opens(before.id, false, w, fronts, b, more) && KnownRole(RoleOf(b))
  }

  lemma OpeningOpens(before: RequestInfo, fronts: seq<Record>, b: Record, tail: seq<Byte>)
    requires Opening(before, fronts, b)
    ensures OpensRequest(before, EncodeAll(fronts) + (Encode(b) + tail), fronts, b, b.padding + tail)
  {
    hide AllPassedBy, DeliverAll, EncodeAll;
    HeaderFirst(b, tail);
  }

  /** The state a request's reader is in at the start of a stream. */
  function AtStream(s: State, ty: Byte, req: RequestInfo, rest: seq<Byte>, sent: seq<Byte>): State {
    SetType(s.(rest := rest, errno := 0, req := req, sent := sent), ty as int)
  }

  /** Behind a beginning the parameters are read, from its padding on, whatever was written before. */
  lemma {:induction false} AttemptedAfterOpening(a: Arrival, before: RequestInfo, sent: seq<Byte>,
                                                 fronts: seq<Record>, b: Record, more: seq<Byte>)
      returns (s: State)
    requires OpensRequest(before, a.bytes, fronts, b, more)
    ensures var o := DeliverAll(before.id, false, fronts);
            s == Mark(AtStream(NewReader(a, before, sent), FCGI_PARAMS, RequestOf(b), more, sent + EncodeAll(o.reply)),
                      o.defined)
    ensures var served := Attempted(NewReader(a, before, sent));
            var (content, end) := Drain(s); var d := Decode(content);
            (served.Request? <==> d.ok) &&
            (d.ok ==> served.params == [RoleEntry(RoleOf(b))] + Entries(d.pairs) &&
                      served.state == SetType(Mark(end, SumsFit(content)), FCGI_STDIN as int)) &&
            (end.errno != 0 ==> served.state.errno == end.errno)
  {
    hide Fill, Drain, Encode, EncodeAll, DeliverAll, AllPassedBy, Decode, SumsFit;
    var o := DeliverAll(before.id, false, fronts);
    s := Mark(AtStream(NewReader(a, before, sent), FCGI_PARAMS, RequestOf(b), more, sent + EncodeAll(o.reply)),
              o.defined);
    OpeningIsRead(NewReader(a, before, sent), fronts, b, more);
  }

  /** A request is served as its beginning asks for: its id, the role of the first two bytes, and the lowest
      bit of the third for keeping the connection. */
  lemma {:induction false} ServedAsAsked(a: Arrival, before: RequestInfo, sent: seq<Byte>,
                                         fronts: seq<Record>, b: Record, more: seq<Byte>)
    requires OpensRequest(before, a.bytes, fronts, b, more) && Attempted(NewReader(a, before, sent)).Request?
    ensures var req := Attempted(NewReader(a, before, sent)).state.req;
            req.begun && req.id == b.id && req.role == b.content[0] as int * 256 + b.content[1] as int &&
            (req.keep <==> b.content[2] % 2 == 1)
  {
    hide Fill, Drain, Encode, EncodeAll, DeliverAll, AllPassedBy, Decode, SumsFit;
    OpeningIsRead(NewReader(a, before, sent), fronts, b, more);
  }

  /** An arrival without a beginning that can be read, or with one of an unknown role, carries no request. */
  lemma {:induction false} NotOpened(a: Arrival, before: RequestInfo, sent: seq<Byte>)
    ensures Attempted(NewReader(a, before, sent)).Request? ==>
            exists fronts, b, more :: OpensRequest(before, a.bytes, fronts, b, more)
  {
    hide Fill, Drain, Decode, EncodeAll, DeliverAll, AllPassedBy;
    var s := NewReader(a, before, sent);
    BegunIff(s);
    if Fill(s).req.begun {
      var fronts, b, more :| Opens(s.req.id, s.skip, s.rest, fronts, b, more);
      OpeningIsRead(s, fronts, b, more);
      if KnownRole(RoleOf(b)) {
        assert OpensRequest(before, a.bytes, fronts, b, more);
      }
    }
  }

  /** Records in front of a beginning only add their answers: what follows is met as by a new reader. */
  lemma {:induction false} FrontsOnlyAnswer(a: Arrival, before: RequestInfo, sent: seq<Byte>,
                                            fronts: seq<Record>, tail: seq<Byte>)
    requires AllPassedBy(before.id, false, fronts) && a.bytes == EncodeAll(fronts) + tail && tail != []
    ensures var o := DeliverAll(before.id, false, fronts);
            Attempted(NewReader(a, before, sent)) ==
            Attempted(NewReader(Arrival(tail, a.ending), before, sent + EncodeAll(o.reply)).
                        (skip := o.skip, defined := o.defined))
  {
    hide Fill, AllPassedBy, DeliverAll, EncodeAll;
    FillAllPassed(NewReader(a, before, sent), fronts, tail);
  }

  /** So nonempty records of other requests change nothing at all. */
  lemma {:induction false} ForeignFronts(a: Arrival, before: RequestInfo, sent: seq<Byte>,
                                         fronts: seq<Record>, tail: seq<Byte>)
    requires forall r :: r in fronts ==>
               Fits(r) && r.ty != FCGI_BEGIN_REQUEST && r.id != 0 && r.id != before.id && r.content != []
    requires a.bytes == EncodeAll(fronts) + tail && tail != []
    ensures Attempted(NewReader(a, before, sent)) == Attempted(NewReader(Arrival(tail, a.ending), before, sent))
  {
    hide Attempted, EncodeAll;
    ForeignPassedBy(before.id, fronts);
    FrontsOnlyAnswer(a, before, sent, fronts, tail);
    EncodeAllNothing(sent);
  }

  lemma {:induction false} ForeignPassedBy(id: int, rs: seq<Record>)
    requires forall r :: r in rs ==>
               Fits(r) && r.ty != FCGI_BEGIN_REQUEST && r.id != 0 && r.id != id && r.content != []
    ensures AllPassedBy(id, false, rs) && DeliverAll(id, false, rs) == Outcome(false, [], [], true)
    decreases |rs|
  {
    if rs != [] {
      assert rs[0] in rs;
      ForeignPassedBy(id, rs[1..]);
    }
  }

  /** An empty record of another request as the last content in front of a beginning drops its body. */
  lemma {:induction false} ArmedBeginning(a: Arrival, before: RequestInfo, sent: seq<Byte>,
                                          fronts: seq<Record>, b: Record, tail: seq<Byte>)
    requires AllPassedBy(before.id, false, fronts) && DeliverAll(before.id, false, fronts).skip && Beginning(b)
    requires a.bytes == EncodeAll(fronts) + (Encode(b) + tail)
    ensures Attempted(NewReader(a, before, sent)).Refused?
  {
    hide Fill, AllPassedBy, DeliverAll, EncodeAll, Encode;
    var s := NewReader(a, before, sent);
    var w := Encode(b) + tail;
    FillAllPassed(s, fronts, w);
    HeaderFirst(b, tail);
    NoBeginning(After(s, w, DeliverAll(before.id, false, fronts)), b, b.content + (b.padding + tail));
  }

  /** A record left over from the request before, unless of type 0, refuses the connection. */
  lemma {:induction false} LeftOverRecord(a: Arrival, before: RequestInfo, sent: seq<Byte>,
                                          fronts: seq<Record>, r: Record, more: seq<Byte>)
    requires AllPassedBy(before.id, false, fronts) && Fits(r)
    requires r.id == before.id && r.id != 0 && r.ty != 0 && r.ty != FCGI_BEGIN_REQUEST
    requires a.bytes == EncodeAll(fronts) + (HeaderOf(r) + more)
    ensures Attempted(NewReader(a, before, sent)).Refused?
  {
    hide Fill, AllPassedBy, DeliverAll, EncodeAll, Encode;
    var s := NewReader(a, before, sent);
    FillAllPassed(s, fronts, HeaderOf(r) + more);
    LeftOver(After(s, HeaderOf(r) + more, DeliverAll(before.id, false, fronts)), r, more);
  }

  // ---------------------------------------------------------------------------------------
  // Which of several connections is served.

  /** A connection that carries no request, and the request remembered after it. */
  predicate RefusedThen(a: Arrival, req: RequestInfo, next: RequestInfo) {
    var attempt := Attempted(NewReader(a, req, []));
    attempt.Refused? && next == attempt.state.req
  }

  /** Connections passed over one after the other, and the request remembered before each. */
  predicate PassedOver(reqs: seq<RequestInfo>, waiting: seq<Arrival>) {
    && 0 < |reqs| <= |waiting| + 1
    && forall i :: 0 <= i < |reqs| - 1 ==> RefusedThen(waiting[i], reqs[i], reqs[i + 1])
  }

  lemma {:induction false} PassedOverMore(reqs: seq<RequestInfo>, req: RequestInfo, waiting: seq<Arrival>)
    requires waiting != [] && PassedOver(reqs, waiting[1..])
    requires RefusedThen(waiting[0], req, reqs[0])
    ensures PassedOver([req] + reqs, waiting)
  {
    hide RefusedThen;
    var all := [req] + reqs;
    forall i | 0 <= i < |all| - 1 ensures RefusedThen(waiting[i], all[i], all[i + 1]) {
      if i > 0 {
        assert all[i] == reqs[i - 1] && all[i + 1] == reqs[i] && waiting[i] == waiting[1..][i - 1];
      }
    }
  }

  lemma {:induction false} AcceptFront(req: RequestInfo, waiting: seq<Arrival>)
    ensures AcceptFrom(req, waiting) ==
            if waiting == [] then Exhausted(req) else
            match Attempted(NewReader(waiting[0], req, []))
            case Request(t, params) => Serves(t, params, waiting[1..])
            case Refused(t) => AcceptFrom(t.req, waiting[1..])
  {
    hide Attempted;
  }

  /** The first connection that carries a request is served, and none is if none does. */
  lemma {:induction false} ServesFirst(req: RequestInfo, waiting: seq<Arrival>) returns (reqs: seq<RequestInfo>)
    ensures PassedOver(reqs, waiting) && reqs[0] == req
    ensures match AcceptFrom(req, waiting)
            case Exhausted(last) => |reqs| == |waiting| + 1 && last == reqs[|waiting|]
            case Serves(state, params, later) =>
              var k := |reqs| - 1;
              k < |waiting| && later == waiting[k + 1..] &&
              Attempted(NewReader(waiting[k], reqs[k], [])) == Attempt.Request(state, params)
    decreases |waiting|
  {
    hide Attempted, AcceptFrom;
    AcceptFront(req, waiting);
    if waiting == [] || Attempted(NewReader(waiting[0], req, [])).Request? {
      reqs := [req];
    } else {
      var more := ServesFirst(Attempted(NewReader(waiting[0], req, [])).state.req, waiting[1..]);
      PassedOverMore(more, req, waiting);
      reqs := [req] + more;
      var k := |more| - 1;
      if k < |waiting| - 1 {
        assert waiting[1..][k] == waiting[k + 1] && waiting[1..][k + 1..] == waiting[k + 2..];
      }
    }
  }

  ghost predicate OpenedBy(w: seq<Byte>, b: Record) {
    exists before, fronts, more :: OpensRequest(before, w, fronts, b, more)
  }

  /** One of the connections at hand carries the beginning `b`. */
  ghost predicate Arrived(held: Held, waiting: seq<Arrival>, b: Record) {
    (held.Held? && OpenedBy(held.input, b)) || exists a :: a in waiting && OpenedBy(a.bytes, b)
  }

  /** Whatever is served was asked for by a beginning that arrived. */
  lemma {:induction false} ServiceAsked(held: Held, req: RequestInfo, waiting: seq<Arrival>) returns (b: Record)
    requires Accepting(held, req, waiting).Serves?
    ensures Arrived(held, waiting, b) && |b.content| == 8
    ensures var asked := Accepting(held, req, waiting).state.req;
            asked.id == b.id && asked.role == b.content[0] as int * 256 + b.content[1] as int &&
            (asked.keep <==> b.content[2] % 2 == 1)
    decreases |waiting|, held.Held?
  {
    hide Attempted, OpensRequest;
    match held
    case NoConnection =>
      AcceptNext(req, waiting);
      b := ServiceAsked(Held(waiting[0].bytes, waiting[0].ending, []), req, waiting[1..]);
    case Held(input, ending, output) =>
      var a := Arrival(input, ending);
      AcceptRound(req, input, ending, output, waiting);
      if Attempted(NewReader(a, req, output)).Request? {
        NotOpened(a, req, output);
        var fronts, c, more :| OpensRequest(req, a.bytes, fronts, c, more);
        ServedAsAsked(a, req, output, fronts, c, more);
        OpensWhole(req, a.bytes, fronts, c, more);
        assert OpenedBy(a.bytes, c);
        b := c;
      } else {
        b := ServiceAsked(NoConnection, Attempted(NewReader(a, req, output)).state.req, waiting);
      }
  }

  lemma OpensWhole(before: RequestInfo, w: seq<Byte>, fronts: seq<Record>, b: Record, more: seq<Byte>)
    requires OpensRequest(before, w, fronts, b, more)
    ensures |b.content| == 8
  {
  }

  // ---------------------------------------------------------------------------------------
  // A whole request from end to end.

  /** One stream of a request and the position of the next: the records, their empty terminator
      without padding, and what follows. */
  lemma {:induction false} StreamIsRead(s: State, ty: Byte, next: Byte, req: RequestInfo, rs: seq<Record>,
                                        end: Record, tail: seq<Byte>, sent: seq<Byte>)
    requires req.begun && req.id > 0 && AllRegular(req.id, ty as int, false, rs) &&
             EndsStream(req.id, ty as int, end) && end.padding == []
    ensures var t := AtStream(s, ty, req, EncodeAll(rs) + (Encode(end) + tail), sent);
            var o := DeliverAll(req.id, false, rs); var (content, u) := Drain(t);
            content == o.content && u.errno == 0 &&
            SetType(u, next as int) == Mark(AtStream(s, next, req, tail, sent + EncodeAll(o.reply)), o.defined)
  {
    hide Drain, DeliverAll, AllRegular, EncodeAll, Encode;
    var t := AtStream(s, ty, req, EncodeAll(rs) + (Encode(end) + tail), sent);
    DemultiplexedStream(t, rs, end, tail);
    assert [] + tail == tail;
  }

  /** A whole request, on a new connection or a kept one: records in front, a beginning, its parameters as
      records that carry the encoding of `ps`, and its input, without padding where one stream gives way
      to the next. Whatever else is interleaved, accepting yields exactly the role and the pairs, in order,
      both as entries and as the variables presented to the application; and reading then yields exactly
      the input. */
  lemma {:induction false} RequestEndToEnd(a: Arrival, before: RequestInfo, sent: seq<Byte>,
                                           fronts: seq<Record>, b: Record,
                                           params: seq<Record>, endParams: Record, ps: seq<Pair>, fs: seq<Form>,
                                           input: seq<Record>, endInput: Record, tail: seq<Byte>)
    requires Opening(before, fronts, b) && b.padding == []
    requires AllRegular(b.id, FCGI_PARAMS as int, false, params) && EndsStream(b.id, FCGI_PARAMS as int, endParams) &&
             endParams.padding == []
    requires AllRegular(b.id, FCGI_STDIN as int, false, input) && EndsStream(b.id, FCGI_STDIN as int, endInput)
    requires EncodablePairs(ps, fs) && DeliverAll(b.id, false, params).content == EncodePairs(ps, fs)
    requires a.bytes ==
             EncodeAll(fronts) + (Encode(b) + (EncodeAll(params) + (Encode(endParams) +
                                  (EncodeAll(input) + (Encode(endInput) + tail)))))
    ensures var served := Attempted(NewReader(a, before, sent));
            var first, second := DeliverAll(before.id, false, fronts), DeliverAll(b.id, false, params);
            served.Request? && served.params == [RoleEntry(RoleOf(b))] + Entries(ps) &&
            served.state.req == RequestOf(b) &&
            served.state.sent == sent + EncodeAll(first.reply) + EncodeAll(second.reply) &&
            Drain(served.state).0 == DeliverAll(b.id, false, input).content &&
            Drain(served.state).1.errno == 0 &&
            (served.state.defined <==> first.defined && second.defined && SumsFit(EncodePairs(ps, fs)))
    ensures b.content[0] == 0 && 1 <= b.content[1] <= 3
    ensures SaysRole(Attempted(NewReader(a, before, sent)).params, ROLES[b.content[1] - 1])
    ensures (forall p :: p in ps ==> Plain(p)) ==>
            Variables(Attempted(NewReader(a, before, sent)).params) ==
            [Pair(Ascii("FCGI_ROLE"), Ascii(ROLES[b.content[1] - 1]))] + ps
  {
    hide Attempted, Fill, Drain, DeliverAll, AllRegular, AllPassedBy, EncodeAll, Encode, Decode, EncodePairs,
         SplitEntry, CString, SumsFit, Opens, SaysRole, Variables, RoleEntry;
    var rest := EncodeAll(input) + (Encode(endInput) + tail);
    var more := EncodeAll(params) + (Encode(endParams) + rest);
    OpeningOpens(before, fronts, b, more);
    assert [] + more == more;
    var s := AttemptedAfterOpening(a, before, sent, fronts, b, more);
    RoleKnownIff(b);
    var first, second := DeliverAll(before.id, false, fronts), DeliverAll(b.id, false, params);
    StreamIsRead(s, FCGI_PARAMS, FCGI_STDIN, RequestOf(b), params, endParams, rest, sent + EncodeAll(first.reply));
    PairsRoundTrip(ps, fs);
    var u := Attempted(NewReader(a, before, sent)).state;
    var output := sent + EncodeAll(first.reply) + EncodeAll(second.reply);
    assert u == Mark(AtStream(s, FCGI_STDIN, RequestOf(b), rest, output),
                     second.defined && SumsFit(EncodePairs(ps, fs)));
    DemultiplexedStream(u, input, endInput, tail);
    RolePresented(RoleOf(b), ps);
  }

  /** The role and the pairs, as they are presented to the application. */
  lemma {:induction false} RolePresented(role: int, ps: seq<Pair>)
    requires KnownRole(role)
    ensures var params := [RoleEntry(role)] + Entries(ps);
            1 <= role <= 3 && SaysRole(params, ROLES[role - 1]) &&
            ((forall p :: p in ps ==> Plain(p)) ==>
               Variables(params) == [Pair(Ascii("FCGI_ROLE"), Ascii(ROLES[role - 1]))] + ps)
  {
    hide Lookup, Entry, SplitEntry, CString, Variables;
    RoleIsFound(role, [RoleEntry(role)] + Entries(ps));
    if forall p :: p in ps ==> Plain(p) {
      RoleIsPlain(role);
      var all := [Pair(FCGI_ROLE, RoleName(role))] + ps;
      assert Entries(all) == [RoleEntry(role)] + Entries(ps);
      VariablesInvertEntries(all);
    }
  }

  lemma RoleIsPlain(role: int)
    requires KnownRole(role)
    ensures Plain(Pair(FCGI_ROLE, RoleName(role)))
  {
    NoNulIn("RESPONDER");
    NoNulIn("AUTHORIZER");
    NoNulIn("FILTER");
    NoNulIn("FCGI_ROLE");
    NoEqIn("FCGI_ROLE");
  }

  lemma NoEqIn(s: string)
    requires forall c :: c in s ==> 0 < c as int < 256 && c != '='
    ensures EQ !in Ascii(s)
  {
    forall i | 0 <= i < |s| ensures Ascii(s)[i] != EQ {
      assert s[i] in s;
    }
  }

  // ---------------------------------------------------------------------------------------
  // Padding where one stream gives way to the next.

  /** A header cannot start with a byte other than the version. */
  lemma {:induction false} WrongVersion(s: State)
    requires Between(s) && s.rest != [] && s.rest[0] != FCGI_VERSION_1
    ensures Drain(s).0 == [] && Drain(s).1.errno != 0
  {
    hide Drain;
    var b := if |s.rest| < FCGI_HEADER_LEN then NoHeader(s.rest) else BadHeader(s.rest);
    DrainBreak(s, b);
    BreakIsError(s.ending, b);
  }

  /** The padding of a stream's terminator is not skipped: the next stream starts with it. */
  lemma {:induction false} PaddedTerminator(s: State, next: Byte, rs: seq<Record>, end: Record, tail: seq<Byte>)
    requires Between(s) && AllRegular(s.req.id, s.ty, s.skip, rs) && EndsStream(s.req.id, s.ty, end)
    requires s.rest == EncodeAll(rs) + (Encode(end) + tail)
    ensures var t := SetType(Drain(s).1, next as int);
            t.rest == end.padding + tail && Between(t) && !t.skip && t.req == s.req && t.ending == s.ending
    ensures end.padding != [] && end.padding[0] != FCGI_VERSION_1 ==>
            var t := SetType(Drain(s).1, next as int); Drain(t).0 == [] && Drain(t).1.errno != 0
  {
    hide Drain, DeliverAll, AllRegular, EncodeAll, Encode;
    DemultiplexedStream(s, rs, end, tail);
    if end.padding != [] && end.padding[0] != FCGI_VERSION_1 {
      WrongVersion(SetType(Drain(s).1, next as int));
    }
  }

  /** So, unless the padding looks like a record, the next stream is read as it was sent if and only if
      there is no padding. */
  lemma {:induction false} NextStreamIff(s: State, next: Byte, rs: seq<Record>, end: Record,
                                         rs': seq<Record>, end': Record, tail: seq<Byte>)
    requires Between(s) && AllRegular(s.req.id, s.ty, s.skip, rs) && EndsStream(s.req.id, s.ty, end)
    requires AllRegular(s.req.id, next as int, false, rs') && EndsStream(s.req.id, next as int, end')
    requires s.rest == EncodeAll(rs) + (Encode(end) + (EncodeAll(rs') + (Encode(end') + tail)))
    requires end.padding == [] || end.padding[0] != FCGI_VERSION_1
    ensures var t := SetType(Drain(s).1, next as int);
            Drain(t).0 == DeliverAll(s.req.id, false, rs').content && Drain(t).1.errno == 0 <==> end.padding == []
  {
    hide Drain, DeliverAll, AllRegular, EncodeAll, Encode;
    var more := EncodeAll(rs') + (Encode(end') + tail);
    PaddedTerminator(s, next, rs, end, more);
    if end.padding == [] {
      assert [] + more == more;
      DemultiplexedStream(SetType(Drain(s).1, next as int), rs', end', tail);
    }
  }

  /** Padding that is itself records is read as the next stream, whatever follows. */
  lemma {:induction false} PaddingIsRead(s: State, next: Byte, rs: seq<Record>, end: Record,
                                         inner: seq<Record>, innerEnd: Record, tail: seq<Byte>)
    requires Between(s) && AllRegular(s.req.id, s.ty, s.skip, rs) && EndsStream(s.req.id, s.ty, end)
    requires AllRegular(s.req.id, next as int, false, inner) && EndsStream(s.req.id, next as int, innerEnd)
    requires s.rest == EncodeAll(rs) + (Encode(end) + tail)
    requires end.padding == EncodeAll(inner) + Encode(innerEnd)
    ensures var t := SetType(Drain(s).1, next as int);
            Drain(t).0 == DeliverAll(s.req.id, false, inner).content && Drain(t).1.errno == 0
  {
    hide Drain, DeliverAll, AllRegular, EncodeAll, Encode;
    PaddedTerminator(s, next, rs, end, tail);
    Assoc(EncodeAll(inner), Encode(innerEnd), tail);
    DemultiplexedStream(SetType(Drain(s).1, next as int), inner, innerEnd, tail);
  }

  /** The same of the beginning of a request: unless its padding looks like a record, the request is
      accepted all the same, but without any parameters. */
  lemma {:induction false} PaddedBeginning(a: Arrival, before: RequestInfo, sent: seq<Byte>,
                                           fronts: seq<Record>, b: Record, tail: seq<Byte>)
    requires Opening(before, fronts, b) && a.bytes == EncodeAll(fronts) + (Encode(b) + tail)
    requires b.padding != [] && b.padding[0] != FCGI_VERSION_1
    ensures var served := Attempted(NewReader(a, before, sent));
            served.Request? && served.params == [RoleEntry(RoleOf(b))] && served.state.errno != 0
  {
    hide Fill, Drain, Encode, EncodeAll, Attempted, DeliverAll, AllPassedBy, Opens;
    OpeningOpens(before, fronts, b, tail);
    var t := AttemptedAfterOpening(a, before, sent, fronts, b, b.padding + tail);
    WrongVersion(t);
    assert [RoleEntry(RoleOf(b))] + Entries([]) == [RoleEntry(RoleOf(b))];
  }

  /** So, unless the padding looks like a record, a request comes through with its parameters and without
      an error if and only if its beginning has no padding. */
  lemma {:induction false} PaddedBeginningIff(a: Arrival, before: RequestInfo, sent: seq<Byte>,
                                              fronts: seq<Record>, b: Record, params: seq<Record>, end: Record,
                                              ps: seq<Pair>, fs: seq<Form>, tail: seq<Byte>)
    requires Opening(before, fronts, b) && (b.padding == [] || b.padding[0] != FCGI_VERSION_1)
    requires AllRegular(b.id, FCGI_PARAMS as int, false, params) && EndsStream(b.id, FCGI_PARAMS as int, end)
    requires EncodablePairs(ps, fs) && DeliverAll(b.id, false, params).content == EncodePairs(ps, fs)
    requires a.bytes == EncodeAll(fronts) + (Encode(b) + (EncodeAll(params) + (Encode(end) + tail)))
    ensures var served := Attempted(NewReader(a, before, sent));
            served.Request? &&
            (served.params == [RoleEntry(RoleOf(b))] + Entries(ps) && served.state.errno == 0 <==> b.padding == [])
  {
    hide Fill, Drain, Encode, EncodeAll, EncodePairs, Decode, Attempted, DeliverAll, AllRegular, AllPassedBy, Opens;
    var more := EncodeAll(params) + (Encode(end) + tail);
    if b.padding == [] {
      assert [] + more == more;
      OpeningOpens(before, fronts, b, more);
      ParametersAreRead(a, before, sent, fronts, b, params, end, ps, fs, tail);
    } else {
      PaddedBeginning(a, before, sent, fronts, b, more);
    }
  }

  /** A beginning whose padding and what follows are, together, the records of the parameters. */
  lemma {:induction false} ParametersAreRead(a: Arrival, before: RequestInfo, sent: seq<Byte>,
                                             fronts: seq<Record>, b: Record, params: seq<Record>, end: Record,
                                             ps: seq<Pair>, fs: seq<Form>, tail: seq<Byte>)
    requires OpensRequest(before, a.bytes, fronts, b, EncodeAll(params) + (Encode(end) + tail))
    requires AllRegular(b.id, FCGI_PARAMS as int, false, params) && EndsStream(b.id, FCGI_PARAMS as int, end)
    requires EncodablePairs(ps, fs) && DeliverAll(b.id, false, params).content == EncodePairs(ps, fs)
    ensures var served := Attempted(NewReader(a, before, sent));
            served.Request? && served.params == [RoleEntry(RoleOf(b))] + Entries(ps) && served.state.errno == 0
  {
    hide Fill, Drain, Encode, EncodeAll, EncodePairs, Decode, Attempted, DeliverAll, AllRegular, AllPassedBy;
    var t := AttemptedAfterOpening(a, before, sent, fronts, b, EncodeAll(params) + (Encode(end) + tail));
    DemultiplexedStream(t, params, end, tail);
    PairsRoundTrip(ps, fs);
  }

  /** Padding that is itself records becomes the request's parameters, whatever follows. */
  lemma {:induction false} PaddingIsParameters(a: Arrival, before: RequestInfo, sent: seq<Byte>,
                                               fronts: seq<Record>, b: Record, inner: seq<Record>, innerEnd: Record,
                                               ps: seq<Pair>, fs: seq<Form>, tail: seq<Byte>)
    requires Opening(before, fronts, b) && b.padding == EncodeAll(inner) + Encode(innerEnd)
    requires AllRegular(b.id, FCGI_PARAMS as int, false, inner) && EndsStream(b.id, FCGI_PARAMS as int, innerEnd)
    requires EncodablePairs(ps, fs) && DeliverAll(b.id, false, inner).content == EncodePairs(ps, fs)
    requires a.bytes == EncodeAll(fronts) + (Encode(b) + tail)
    ensures var served := Attempted(NewReader(a, before, sent));
            served.Request? && served.params == [RoleEntry(RoleOf(b))] + Entries(ps) && served.state.errno == 0
  {
    hide Attempted, Encode, EncodeAll, EncodePairs, DeliverAll, AllRegular, AllPassedBy, Opens;
    Assoc(EncodeAll(inner), Encode(innerEnd), tail);
    OpeningOpens(before, fronts, b, tail);
    ParametersAreRead(a, before, sent, fronts, b, inner, innerEnd, ps, fs, tail);
  }

  // ---------------------------------------------------------------------------------------
  // Parameters that break off, and when an arrival carries a request.

  /** A connection that breaks off, anywhere, within the parameters: the request is accepted all the same
      if and only if what was delivered before is whole pairs, with those pairs; the error is kept either way. */
  lemma {:induction false} BrokenParameters(a: Arrival, before: RequestInfo, sent: seq<Byte>,
                                            fronts: seq<Record>, b: Record, params: seq<Record>, k: Break)
    requires Opening(before, fronts, b) && b.padding == [] && AllRegular(b.id, FCGI_PARAMS as int, false, params)
    requires IsBreak(b.id, FCGI_PARAMS as int, DeliverAll(b.id, false, params).skip, k)
    requires a.bytes == EncodeAll(fronts) + (Encode(b) + (EncodeAll(params) + BreakBytes(k)))
    ensures var served := Attempted(NewReader(a, before, sent)); var o := DeliverAll(b.id, false, params);
            var d := Decode(o.content + BreakContent(b.id, o.skip, k));
            (served.Request? <==> d.ok) &&
            (served.Request? ==> served.params == [RoleEntry(RoleOf(b))] + Entries(d.pairs)) &&
            served.state.errno == BreakCode(a.ending, k)
  {
    hide Attempted, Drain, DeliverAll, AllRegular, AllPassedBy, EncodeAll, Encode, Decode, IsBreak, BreakBytes,
         BreakContent, BreakCode, Opens;
    var rest := EncodeAll(params) + BreakBytes(k);
    OpeningOpens(before, fronts, b, rest);
    assert [] + rest == rest;
    var t := AttemptedAfterOpening(a, before, sent, fronts, b, rest);
    BrokenStream(t, params, k);
    BreakIsError(a.ending, k);
  }

  /** Regular records of parameters that deliver whole pairs, up to the header of the empty one. */
  predicate CarriesPairs(id: int, w: seq<Byte>, rs: seq<Record>, end: Record, more: seq<Byte>) {
    Ends(id, FCGI_PARAMS as int, false, w, rs, end, more) && Decode(DeliverAll(id, false, rs).content).ok
  }

  /** Regular records of parameters up to a break, that deliver whole pairs all the same. */
  predicate LeavesPairs(id: int, w: seq<Byte>, rs: seq<Record>, k: Break) {
    BreaksOff(id, FCGI_PARAMS as int, false, w, rs, k) &&
    var o := DeliverAll(id, false, rs); Decode(o.content + BreakContent(id, o.skip, k)).ok
  }

  ghost predicate Carries(id: int, w: seq<Byte>) {
    exists rs, end, more :: CarriesPairs(id, w, rs, end, more)
  }

  ghost predicate Leaves(id: int, w: seq<Byte>) {
    exists rs, k :: LeavesPairs(id, w, rs, k)
  }

  /** What the parameters of a request have to be for it to come through, with and without an error. */
  lemma {:induction false} ParametersIff(t: State)
    requires Between(t) && !t.skip && t.ty == FCGI_PARAMS as int
    ensures Decode(Drain(t).0).ok && Drain(t).1.errno == 0 <==> Carries(t.req.id, t.rest)
    ensures Decode(Drain(t).0).ok && Drain(t).1.errno != 0 <==> Leaves(t.req.id, t.rest)
  {
    hide Drain, DeliverAll, AllRegular, EncodeAll, Decode, IsBreak, BreakBytes, BreakContent, BreakCode;
    EndsWithoutErrorIff(t);
    if Drain(t).1.errno == 0 {
      var rs, end, more :| Ends(t.req.id, t.ty, t.skip, t.rest, rs, end, more);
      StreamEnds(t, rs, end, more);
      assert CarriesPairs(t.req.id, t.rest, rs, end, more) <==> Decode(Drain(t).0).ok;
    } else {
      var rs, k :| BreaksOff(t.req.id, t.ty, t.skip, t.rest, rs, k) &&
                   Drain(t).1.errno == BreakCode(t.ending, k) &&
                   var o := DeliverAll(t.req.id, t.skip, rs);
                   Drain(t).0 == o.content + BreakContent(t.req.id, o.skip, k);
      assert LeavesPairs(t.req.id, t.rest, rs, k) <==> Decode(Drain(t).0).ok;
    }
    if rs, end, more :| CarriesPairs(t.req.id, t.rest, rs, end, more) {
      StreamEnds(t, rs, end, more);
    }
    if rs, k :| LeavesPairs(t.req.id, t.rest, rs, k) {
      BrokenStream(t, rs, k);
      BreakIsError(t.ending, k);
    }
  }

  /** A request whose beginning was read comes through without an error if and only if what follows, padding
      included, is regular records up to an empty one of its own, and what they deliver is whole pairs; and
      with an error if and only if they break off with whole pairs delivered. */
  lemma {:induction false} AcceptedIff(a: Arrival, before: RequestInfo, sent: seq<Byte>,
                                       fronts: seq<Record>, b: Record, more: seq<Byte>)
    requires OpensRequest(before, a.bytes, fronts, b, more)
    ensures var served := Attempted(NewReader(a, before, sent));
            (served.Request? && served.state.errno == 0 <==> Carries(b.id, more)) &&
            (served.Request? && served.state.errno != 0 <==> Leaves(b.id, more))
  {
    hide Attempted, Drain, DeliverAll, AllPassedBy, EncodeAll, Encode, Decode, Carries, Leaves;
    var t := AttemptedAfterOpening(a, before, sent, fronts, b, more);
    ParametersIff(t);
  }

  ghost predicate OpensWith(before: RequestInfo, w: seq<Byte>, fronts: seq<Record>, b: Record, more: seq<Byte>,
                            error: bool)
  {
    OpensRequest(before, w, fronts, b, more) && if error then Leaves(b.id, more) else Carries(b.id, more)
  }

  /** When any connection at all carries a request: if and only if its bytes are records passed by, then a
      beginning with a known role, then parameters that are whole pairs, ended or broken off. */
  lemma {:induction false} RequestIff(a: Arrival, before: RequestInfo, sent: seq<Byte>, error: bool)
    ensures var served := Attempted(NewReader(a, before, sent));
            served.Request? && (served.state.errno != 0) == error <==>
            exists fronts, b, more :: OpensWith(before, a.bytes, fronts, b, more, error)
  {
    hide Attempted, Carries, Leaves, OpensRequest;
    if Attempted(NewReader(a, before, sent)).Request? {
      NotOpened(a, before, sent);
      var fronts, b, more :| OpensRequest(before, a.bytes, fronts, b, more);
      AcceptedIff(a, before, sent, fronts, b, more);
      assert OpensWith(before, a.bytes, fronts, b, more, error) <==>
             (Attempted(NewReader(a, before, sent)).state.errno != 0) == error;
    }
    if fronts, b, more :| OpensWith(before, a.bytes, fronts, b, more, error) {
      AcceptedIff(a, before, sent, fronts, b, more);
    }
  }
}
