/** What a stream delivers from a wire of whole records: the demultiplexer seen from the records. */
module Demux {
  import opened Bytes
  import opened Wire
  import opened NameValue
  import opened ReaderSpec
  import opened ReaderLaws

  /** Between two records. */
  predicate Clear(s: State) {
    !s.closed && !s.eor && s.pending == 0 && s.padding == 0 && s.errno == 0
  }

  /** Between two records of a request that has begun. */
  predicate Between(s: State) {
    Clear(s) && s.req.begun && s.req.id > 0
  }

  /** A record of which the header does not end or break the stream of type `ty` of request `id`. */
  predicate Passable(id: int, ty: int, r: Record) {
    && Fits(r)
    && (r.ty == FCGI_BEGIN_REQUEST ==> r.id != 0 && |r.content| == 8)
    && (Own(id, r) ==> r.ty as int == ty && r.content != [])
  }

  predicate AsksValues(r: Record) {
    r.ty == FCGI_GET_VALUES && r.id == 0
  }

  predicate Own(id: int, r: Record) {
    r.ty != FCGI_BEGIN_REQUEST && r.id == id
  }

  /** What one record does: whether the next content is to be skipped, the bytes delivered,
      the records written in answer, and whether the code stays within what C defines. */
  datatype Outcome = Outcome(skip: bool, content: seq<Byte>, reply: seq<Record>, defined: bool)

  function Kept(skip: bool, content: seq<Byte>): seq<Byte> {
    if skip then [] else content
  }

  /** The answer to a second beginning, byte by byte: status 0 and FCGI_CANT_MPX_CONN. */
  function CannotMultiplex(id: nat): Record {
    Record(FCGI_END_REQUEST, id % 0x1_0000, [0, 0, 0, 0, 1, 0, 0, 0], [], 0)
  }

  /** The answer to a management record of unknown type, byte by byte: the type asked comes first. */
  function NotKnown(ty: Byte): Record {
    Record(FCGI_UNKNOWN_TYPE, 0, [ty, 0, 0, 0, 0, 0, 0, 0], [], 0)
  }

  lemma AnswersByBytes(id: nat, ty: Byte)
    ensures EndRequest(id, 0, FCGI_CANT_MPX_CONN) == CannotMultiplex(id) && UnknownType(ty) == NotKnown(ty)
  {
  }

  function Deliver(id: int, skip: bool, r: Record): Outcome {
    if r.ty == FCGI_BEGIN_REQUEST then Outcome(false, [], [CannotMultiplex(r.id)], true)
    else if r.id == 0 && r.ty == FCGI_GET_VALUES then
      var asked := Kept(skip, r.content);
      var entries := Entries(Decode(asked).pairs);
      Outcome(skip && r.content == [], [], [GetValuesResult(entries)], SumsFit(asked) && Answerable(entries))
    else if r.id == 0 then Outcome(skip && r.content == [], Kept(skip, r.content), [NotKnown(r.ty)], true)
    else if r.id != id then Outcome(r.content == [], [], [], true)
    else Outcome(skip && r.content == [], Kept(skip, r.content), [], true)
  }

  /** A record that does not end or break the stream at all. */
  predicate Regular(id: int, ty: int, skip: bool, r: Record) {
    Passable(id, ty, r) && (AsksValues(r) ==> Decode(Kept(skip, r.content)).ok)
  }

  predicate AllRegular(id: int, ty: int, skip: bool, rs: seq<Record>)
    decreases |rs|
  {
    rs == [] || (Regular(id, ty, skip, rs[0]) && AllRegular(id, ty, Deliver(id, skip, rs[0]).skip, rs[1..]))
  }

  function DeliverAll(id: int, skip: bool, rs: seq<Record>): Outcome
    decreases |rs|
  {
    if rs == [] then Outcome(skip, [], [], true) else
    var o := Deliver(id, skip, rs[0]);
    var p := DeliverAll(id, o.skip, rs[1..]);
    Outcome(p.skip, o.content + p.content, o.reply + p.reply, o.defined && p.defined)
  }

  /** The parser's state past a record. */
  function After(s: State, tail: seq<Byte>, o: Outcome): State {
    s.(rest := tail, skip := o.skip, sent := s.sent + EncodeAll(o.reply), defined := s.defined && o.defined)
  }

  /** Inside a record whose header has been read. */
  function Inside(s: State, r: Record, tail: seq<Byte>): State {
    s.(rest := r.content + (r.padding + tail), pending := |r.content|, padding := |r.padding|)
  }

  function HeaderOf(r: Record): seq<Byte> {
    Header(r.ty as int, r.id, |r.content|, |r.padding|, r.reserved)
  }

  /** A whole header is read, whatever follows it. */
  lemma ReadsHeader(s: State, r: Record, more: seq<Byte>)
    requires !s.closed && !s.eor && s.pending == 0 && s.padding == 0 && s.rest == HeaderOf(r) + more
    ensures Consume(s) == At(HeaderOf(r), s.(rest := more))
  {
    DropAppend(HeaderOf(r), more);
    BeforeHeader(s);
    AtHeader(s);
  }

  lemma ReadsRecord(s: State, r: Record, tail: seq<Byte>)
    requires !s.closed && !s.eor && s.pending == 0 && s.padding == 0 && s.rest == Encode(r) + tail
    ensures Consume(s) == At(HeaderOf(r), s.(rest := r.content + (r.padding + tail)))
  {
    HeaderFirst(r, tail);
    ReadsHeader(s, r, r.content + (r.padding + tail));
  }

  lemma HeaderFirst(r: Record, tail: seq<Byte>)
    ensures Encode(r) + tail == HeaderOf(r) + (r.content + (r.padding + tail))
  {
    var h := HeaderOf(r);
    Assoc(h, r.content, r.padding);
    Assoc(h, r.content + r.padding, tail);
    Assoc(r.content, r.padding, tail);
  }

  /** Two states from which filling leads to the same place drain alike. */
  lemma SameDrain(s: State, t: State)
    requires Live(s) && Live(t) && !s.closed && !t.closed && Fill(s) == Fill(t)
    ensures Drain(s) == Drain(t)
  {
    hide Fill;
    assert GetByte(s) == GetByte(t);
  }

  /** Padding leads nowhere. */
  lemma {:induction false} FillPadding(s: State, padding: seq<Byte>, tail: seq<Byte>)
    requires !s.closed && !s.eor && s.pending == 0 && s.rest == padding + tail && s.padding == |padding|
    ensures Fill(s) == Fill(s.(rest := tail, padding := 0))
  {
    hide Fill, Consume, PastContent, PastPadding;
    var t := s.(rest := tail, padding := 0);
    DropAppend(padding, tail);
    BeforeHeader(t);
    if s.rest == [] {
      assert s == t;
    } else {
      NothingToSkip(s);
      PadAll(s);
      FillByStep(s, t);
    }
  }

  /** Padding contributes nothing. */
  lemma {:induction false} DrainPadding(s: State, padding: seq<Byte>, tail: seq<Byte>)
    requires Live(s) && !s.closed && !s.eor && s.pending == 0 && s.rest == padding + tail && s.padding == |padding|
    ensures Drain(s) == Drain(s.(rest := tail, padding := 0))
  {
    hide Fill, Drain;
    FillPadding(s, padding, tail);
    SameDrain(s, s.(rest := tail, padding := 0));
  }

  /** The content of a record is delivered unless it is to be skipped; its padding never is. */
  lemma DrainInside(s: State, r: Record, tail: seq<Byte>)
    requires Live(s) && !s.closed && !s.eor
    ensures var t := s.(rest := tail, pending := 0, padding := 0, skip := s.skip && r.content == []);
            var d := Drain(t);
            Drain(Inside(s, r, tail)) == (Kept(s.skip, r.content) + d.0, d.1)
  {
    hide Fill, Consume, PastContent, PastPadding, Drain;
    var u := Inside(s, r, tail);
    var rest := r.padding + tail;
    DropAppend(r.content, rest);
    DropAppend(r.padding, tail);
    var v := u.(rest := rest, pending := 0, skip := s.skip && r.content == []);
    DrainPadding(v, r.padding, tail);
    var d := Drain(v);
    if s.skip && r.content != [] {
      SkipAll(u);
      PadAll(v);
      BeforeHeader(v.(rest := tail, padding := 0));
      assert v.rest[v.padding..] == tail;
      FillByStep(u, v.(rest := tail, padding := 0));
      SameDrain(u, v.(rest := tail, padding := 0));
      assert [] + d.0 == d.0;
    } else if s.skip {
      assert u == v by { assert [] + rest == rest; }
      assert [] + d.0 == d.0;
    } else {
      DrainAtHand(u, |r.content|);
      assert Advance(u, |r.content|) == v;
    }
  }

  /** The end of a record shows without another byte: it is padded, or its content was skipped. */
  predicate Shows(s: State, r: Record) {
    r.padding != [] || (s.skip && r.content != [])
  }

  /** An FCGI_GET_VALUES record is read to its end and answered. */
  lemma ValuesRecord(s: State, r: Record, tail: seq<Byte>)
    requires Clear(s) && Fits(r) && r.ty == FCGI_GET_VALUES && r.id == 0 && Decode(Kept(s.skip, r.content)).ok &&
             (tail != [] || Shows(s, r))
    ensures var u := Inside(s, r, tail).(eor := true); var t := RecordEnd(u);
            RecordContent(u) == Kept(s.skip, r.content) && Decode(RecordContent(u)).ok &&
            t.errno == 0 && t.pending == 0 &&
            t.(eor := false, closed := false) == s.(rest := tail, skip := s.skip && r.content == [])
  {
    var u := Inside(s, r, tail).(eor := true);
    var rest := r.padding + tail;
    DropAppend(r.content, rest);
    DropAppend(r.padding, tail);
    PrependEnd([]);
    assert u.rest[|r.content|..] == rest;
    assert u.rest[0..] == u.rest;
    assert [] + rest == rest;
  }

  lemma Looping(s: State, u: State)
    requires Between(s) && Consume(s).At? && !u.closed && Live(u) &&
             Dispatch(Consume(s).header, Consume(s).after) == Loop(u)
    ensures Drain(s) == Drain(u)
  {
    hide Fill, Consume, Dispatch;
    FillDispatches(s);
    SameDrain(s, u);
  }

  /** The answer to a record as soon as its header is read. */
  function Reply(s: State, r: Record): seq<Byte> {
    if r.ty == FCGI_BEGIN_REQUEST then Encode(EndRequest(r.id, 0, FCGI_CANT_MPX_CONN))
    else if r.id == 0 then Encode(UnknownType(r.ty))
    else []
  }

  /** Whether the content of a record is to be skipped. */
  predicate Skips(s: State, r: Record) {
    s.skip || r.ty == FCGI_BEGIN_REQUEST || (r.id != 0 && r.id != s.req.id)
  }

  /** The state behind the header of a record that is not FCGI_GET_VALUES. */
  function Met(s: State, r: Record, rest: seq<Byte>): State {
    s.(rest := rest, pending := |r.content|, padding := |r.padding|, skip := Skips(s, r), sent := s.sent + Reply(s, r))
  }

  lemma {:induction false} DrainMet(s: State, r: Record, rest: seq<Byte>)
    requires Between(s) && Passable(s.req.id, s.ty, r) && !AsksValues(r) && s.rest == HeaderOf(r) + rest
    ensures Live(Met(s, r, rest)) && Drain(s) == Drain(Met(s, r, rest))
  {
    hide Fill, Consume, Encode, Drain, EndRequest, UnknownType;
    ReadsHeader(s, r, rest);
    HeaderRoundTrip(r);
    assert s.sent + [] == s.sent;
    Looping(s, Met(s, r, rest));
  }

  /** One regular record, whatever its kind. */
  lemma {:induction false} DrainRegular(s: State, r: Record, tail: seq<Byte>)
    requires Between(s) && Regular(s.req.id, s.ty, s.skip, r) && s.rest == Encode(r) + tail &&
             (tail != [] || !AsksValues(r))
    ensures var o := Deliver(s.req.id, s.skip, r); var d := Drain(After(s, tail, o));
            Drain(s) == (o.content + d.0, d.1)
  {
    hide Fill, Consume, Encode, Drain, Decode, SumsFit, Answerable, EndRequest, UnknownType, GetValuesResult;
    if AsksValues(r) {
      DrainValues(s, r, tail);
    } else {
      var body := r.content + (r.padding + tail);
      HeaderFirst(r, tail);
      DrainMet(s, r, body);
      DrainInside(s.(skip := Skips(s, r), sent := s.sent + Reply(s, r)), r, tail);
      var o := Deliver(s.req.id, s.skip, r);
      AnswersByBytes(r.id, r.ty);
      if o.reply != [] {
        EncodeAllOne(o.reply[0]);
      }
    }
  }

  lemma {:induction false} DrainValues(s: State, r: Record, tail: seq<Byte>)
    requires Between(s) && Regular(s.req.id, s.ty, s.skip, r) && AsksValues(r) && s.rest == Encode(r) + tail
    requires tail != [] || Shows(s, r)
    ensures var o := Deliver(s.req.id, s.skip, r); Drain(s) == Drain(After(s, tail, o)) && o.content == []
    ensures var d := Drain(After(s, tail, Deliver(s.req.id, s.skip, r))); Drain(s) == ([] + d.0, d.1)
  {
    hide Fill, Consume, Encode, Drain, RecordEnd, RecordContent, Decode, SumsFit, Answerable;
    ReadsRecord(s, r, tail);
    HeaderRoundTrip(r);
    var o := Deliver(s.req.id, s.skip, r);
    EncodeAllOne(o.reply[0]);
    ValuesRecord(s, r, tail);
    Looping(s, After(s, tail, o));
    assert [] + Drain(s).0 == Drain(s).0;
  }

  lemma ClosedDrain(s: State)
    requires Live(s) && !s.closed && Fill(s).closed
    ensures Drain(s) == ([], Fill(s))
  {
  }

  /** Where the end of an FCGI_GET_VALUES record does not show, the connection's end is met in its place. */
  lemma {:induction false} ValuesUnanswered(s: State, r: Record)
    requires Between(s) && Regular(s.req.id, s.ty, s.skip, r) && AsksValues(r) && s.rest == Encode(r) && !Shows(s, r)
    ensures Drain(s).1.sent == s.sent && Drain(s).0 == [] && Drain(s).1.errno == EndCode(s.ending)
  {
    hide Fill, Drain, Consume, Encode, RecordEnd, RecordContent, Decode, SumsFit, Answerable;
    assert s.rest == Encode(r) + [];
    ReadsRecord(s, r, []);
    FillDispatches(s);
    HeaderRoundTrip(r);
    UnpaddedAtEnd(s, r);
    ClosedDrain(s);
  }

  /** At the very end of a connection an FCGI_GET_VALUES record is answered if and only if it is padded
      or its content skipped: the read that would show its end comes before the test for that end. */
  lemma {:induction false} ValuesAtEnd(s: State, r: Record)
    requires Between(s) && Regular(s.req.id, s.ty, s.skip, r) && AsksValues(r) && s.rest == Encode(r)
    ensures var o := Deliver(s.req.id, s.skip, r);
            Drain(s).1.sent == s.sent + (if Shows(s, r) then EncodeAll(o.reply) else []) &&
            Drain(s).0 == [] && Drain(s).1.errno == EndCode(s.ending)
  {
    hide Fill, Drain, Encode, Decode, SumsFit, Answerable, GetValuesResult;
    if Shows(s, r) {
      assert s.rest == Encode(r) + [];
      DrainValues(s, r, []);
      NothingMore(After(s, [], Deliver(s.req.id, s.skip, r)));
    } else {
      ValuesUnanswered(s, r);
    }
  }

  lemma NothingMore(s: State)
    requires Live(s) && !s.closed && s.rest == [] && s.errno == 0
    ensures Drain(s) == ([], Fail(s, EndCode(s.ending)))
  {
  }

  lemma UnpaddedAtEnd(s: State, r: Record)
    requires Clear(s) && Fits(r) && !Shows(s, r)
    ensures var t := RecordEnd(Inside(s, r, []).(eor := true));
            t.errno == EndCode(s.ending) && t.sent == s.sent
  {
    var u := Inside(s, r, []).(eor := true);
    assert u.rest == r.content;
  }

  lemma {:induction false} RegularMore(id: int, ty: int, skip: bool, rs: seq<Record>, r: Record)
    ensures AllRegular(id, ty, skip, rs + [r]) <==>
            AllRegular(id, ty, skip, rs) && Regular(id, ty, DeliverAll(id, skip, rs).skip, r)
    decreases |rs|
  {
    hide Deliver, Regular;
    if rs == [] {
      assert [] + [r] == [r] && [r][1..] == [];
    } else {
      assert (rs + [r])[0] == rs[0] && (rs + [r])[1..] == rs[1..] + [r];
      RegularMore(id, ty, Deliver(id, skip, rs[0]).skip, rs[1..], r);
    }
  }

  lemma {:induction false} RegularPasses(id: int, ty: int, skip: bool, rs: seq<Record>)
    requires AllRegular(id, ty, skip, rs)
    ensures forall r :: r in rs ==> Passable(id, ty, r)
    decreases |rs|
  {
    hide Deliver, Passable;
    if rs != [] {
      RegularPasses(id, ty, Deliver(id, skip, rs[0]).skip, rs[1..]);
    }
  }

  /** Any run of regular records, up to whatever follows it. */
  lemma {:induction false} DrainRegulars(s: State, rs: seq<Record>, tail: seq<Byte>)
    requires Between(s) && AllRegular(s.req.id, s.ty, s.skip, rs) && s.rest == EncodeAll(rs) + tail && tail != []
    ensures var o := DeliverAll(s.req.id, s.skip, rs); var d := Drain(After(s, tail, o));
            Drain(s) == (o.content + d.0, d.1)
    decreases |rs|
  {
    hide Drain, Encode, Deliver;
    var o := DeliverAll(s.req.id, s.skip, rs);
    if rs == [] {
      assert s.rest == tail && s.sent + [] == s.sent;
      assert After(s, tail, o) == s;
      assert [] + Drain(s).0 == Drain(s).0;
    } else {
      assert rs[0] in rs;
      var more := EncodeAll(rs[1..]) + tail;
      Assoc(Encode(rs[0]), EncodeAll(rs[1..]), tail);
      DrainRegular(s, rs[0], more);
      var p := Deliver(s.req.id, s.skip, rs[0]);
      var t := After(s, more, p);
      DrainRegulars(t, rs[1..], tail);
      var q := DeliverAll(s.req.id, p.skip, rs[1..]);
      EncodeAllAppend(p.reply, q.reply);
      Assoc(s.sent, EncodeAll(p.reply), EncodeAll(q.reply));
      assert After(t, tail, q) == After(s, tail, o);
      Assoc(p.content, q.content, Drain(After(s, tail, o)).0);
    }
  }

  /** So an FCGI_GET_VALUES record made of pairs keeps the code within what C defines if and only if no NUL
      comes before the first '=' and no more than three known variables are asked for. */
  lemma ValuesDefinedIff(id: int, r: Record, ps: seq<Pair>, fs: seq<Form>)
    requires Fits(r) && AsksValues(r) && EncodablePairs(ps, fs) && r.content == EncodePairs(ps, fs)
    ensures Deliver(id, false, r).defined <==>
            (forall p :: p in ps ==> EqFirst(p.name)) && Known(Entries(ps)) <= 3
  {
    hide Answerable, SumsFit, EqFirst, Known, Decode, EncodePairs;
    PairsRoundTrip(ps, fs);
    EncodedSumsFit(ps, fs);
    PartsWithin(ps, fs);
    AnswerableIff(ps);
  }

  /** As long as the code is within what C defines, everything it answers is a record that fits its header. */
  lemma {:induction false} RepliesFit(id: int, ty: int, skip: bool, rs: seq<Record>)
    requires AllRegular(id, ty, skip, rs) && DeliverAll(id, skip, rs).defined
    ensures forall r :: r in DeliverAll(id, skip, rs).reply ==> Fits(r)
    decreases |rs|
  {
    hide Decode, SumsFit, Answerable, Answers;
    if rs != [] {
      assert rs[0] in rs;
      var o := Deliver(id, skip, rs[0]);
      RepliesFit(id, ty, o.skip, rs[1..]);
      if rs[0].ty != FCGI_BEGIN_REQUEST && rs[0].id == 0 && rs[0].ty == FCGI_GET_VALUES {
        AnswerableFits(Entries(Decode(Kept(skip, rs[0].content)).pairs));
      }
    }
  }

  /** The state in which a stream is closed by its empty record. */
  function Ended(s: State, padding: seq<Byte>, tail: seq<Byte>, o: Outcome): State {
    After(s, padding + tail, o).(padding := |padding|, closed := true)
  }

  /** The empty record of section 5.3 that ends a stream. */
  predicate EndsStream(id: int, ty: int, r: Record) {
    Fits(r) && r.id == id && r.ty as int == ty && r.ty != FCGI_BEGIN_REQUEST && r.content == []
  }

  lemma {:induction false} DrainEnd(s: State, end: Record, more: seq<Byte>)
    requires Between(s) && EndsStream(s.req.id, s.ty, end) && s.rest == HeaderOf(end) + more
    ensures Drain(s) == ([], s.(rest := more, padding := |end.padding|, closed := true))
  {
    hide Fill, Consume;
    ReadsHeader(s, end, more);
    FillDispatches(s);
    HeaderRoundTrip(end);
  }

  /** What a stream delivers from regular records up to the header of the first empty one. */
  lemma {:induction false} StreamEnds(s: State, rs: seq<Record>, end: Record, more: seq<Byte>)
    requires Between(s) && AllRegular(s.req.id, s.ty, s.skip, rs) && EndsStream(s.req.id, s.ty, end)
    requires s.rest == EncodeAll(rs) + (HeaderOf(end) + more)
    ensures var o := DeliverAll(s.req.id, s.skip, rs);
            Drain(s) == (o.content, After(s, more, o).(padding := |end.padding|, closed := true))
  {
    hide Drain, DeliverAll, AllRegular;
    DrainRegulars(s, rs, HeaderOf(end) + more);
    var o := DeliverAll(s.req.id, s.skip, rs);
    DrainEnd(After(s, HeaderOf(end) + more, o), end, more);
    assert o.content + [] == o.content;
  }

  /** What a stream delivers from regular records up to the first empty one, and the state it is left in. */
  lemma {:induction false} DemultiplexedStream(s: State, rs: seq<Record>, end: Record, tail: seq<Byte>)
    requires Between(s) && AllRegular(s.req.id, s.ty, s.skip, rs) && EndsStream(s.req.id, s.ty, end)
    requires s.rest == EncodeAll(rs) + (Encode(end) + tail)
    ensures var o := DeliverAll(s.req.id, s.skip, rs);
            Drain(s) == (o.content, Ended(s, end.padding, tail, o))
  {
    hide Drain, DeliverAll, AllRegular;
    HeaderFirst(end, tail);
    assert [] + (end.padding + tail) == end.padding + tail;
    StreamEnds(s, rs, end, end.padding + tail);
  }

  // ---------------------------------------------------------------------------------------
  // When the bytes delivered are the contents of the stream's own records.

  /** The concatenated contents of a request's own records, which is what section 5.3 means by its stream. */
  function OwnContents(id: int, rs: seq<Record>): seq<Byte> {
    if rs == [] then [] else (if Own(id, rs[0]) then rs[0].content else []) + OwnContents(id, rs[1..])
  }

  /** An empty record of another request makes the demultiplexer skip the next content it meets. */
  predicate Armed(id: int, r: Record) {
    r.ty != FCGI_BEGIN_REQUEST && r.id != 0 && r.id != id && r.content == []
  }

  /** Record `j` is the next content after `i`. */
  predicate NextContent(rs: seq<Record>, i: int, j: int)
    requires i < j < |rs|
  {
    forall k :: 0 <= k && i < k < j ==> rs[k].content == []
  }

  /** An own record whose content is lost to the empty record `i` of another request. */
  predicate Loses(id: int, rs: seq<Record>, i: int, j: int) {
    0 <= i < j < |rs| && Armed(id, rs[i]) && Own(id, rs[j]) && NextContent(rs, i, j)
  }

  /** An own record that is the first content of all. */
  predicate LosesFirst(id: int, rs: seq<Record>, j: int) {
    0 <= j < |rs| && Own(id, rs[j]) && NextContent(rs, -1, j)
  }

  /** A management record the library does not know and whose content it does not consume. */
  predicate Leaks(r: Record) {
    r.id == 0 && r.ty != FCGI_BEGIN_REQUEST && r.ty != FCGI_GET_VALUES && r.content != []
  }

  predicate NoLeaks(rs: seq<Record>) {
    forall r :: r in rs ==> !Leaks(r)
  }

  lemma {:induction false} NoMoreThanOwn(id: int, ty: int, skip: bool, rs: seq<Record>)
    requires id > 0 && AllRegular(id, ty, skip, rs) && NoLeaks(rs)
    ensures |DeliverAll(id, skip, rs).content| <= |OwnContents(id, rs)|
    decreases |rs|
  {
    hide Encode, EndRequest, GetValuesResult, UnknownType, Decode, SumsFit, Answerable;
    if rs != [] {
      assert rs[0] in rs;
      NoMoreThanOwn(id, ty, Deliver(id, skip, rs[0]).skip, rs[1..]);
    }
  }

  /** Whether the first content is an own record's, read off the front record. */
  lemma FirstLossByFront(id: int, rs: seq<Record>)
    requires rs != []
    ensures (exists j :: LosesFirst(id, rs, j)) <==>
            Own(id, rs[0]) || (rs[0].content == [] && exists j :: LosesFirst(id, rs[1..], j))
  {
    var more := rs[1..];
    if j :| LosesFirst(id, rs, j) {
      if j > 0 {
        assert forall k :: 0 <= k < j - 1 ==> more[k] == rs[k + 1];
        assert rs[0].content == [] && LosesFirst(id, more, j - 1);
      }
    }
    if Own(id, rs[0]) {
      assert LosesFirst(id, rs, 0);
    }
    if j :| LosesFirst(id, more, j) {
      if rs[0].content == [] {
        assert forall k :: 0 < k < j + 1 ==> rs[k] == more[k - 1];
        assert LosesFirst(id, rs, j + 1);
      }
    }
  }

  /** Whether anything is lost, read off the front record. */
  lemma LossByFront(id: int, rs: seq<Record>)
    requires rs != []
    ensures (exists i, j :: Loses(id, rs, i, j)) <==>
            (Armed(id, rs[0]) && exists j :: LosesFirst(id, rs[1..], j)) || exists i, j :: Loses(id, rs[1..], i, j)
  {
    var more := rs[1..];
    assert forall k :: 0 <= k < |more| ==> more[k] == rs[k + 1];
    if i, j :| Loses(id, rs, i, j) {
      if i == 0 {
        assert LosesFirst(id, more, j - 1);
      } else {
        assert Loses(id, more, i - 1, j - 1);
      }
    }
    if j :| LosesFirst(id, more, j) {
      if Armed(id, rs[0]) {
        assert forall k :: 0 < k < j + 1 ==> rs[k] == more[k - 1];
        assert Loses(id, rs, 0, j + 1);
      }
    }
    if i, j :| Loses(id, more, i, j) {
      assert forall k :: 0 < k < |rs| ==> rs[k] == more[k - 1];
      assert Loses(id, rs, i + 1, j + 1);
    }
  }

  lemma {:induction false} LossIffLost(id: int, ty: int, skip: bool, rs: seq<Record>)
    requires id > 0 && AllRegular(id, ty, skip, rs) && NoLeaks(rs)
    ensures DeliverAll(id, skip, rs).content == OwnContents(id, rs) <==>
            !(exists i, j :: Loses(id, rs, i, j)) && !(skip && exists j :: LosesFirst(id, rs, j))
    decreases |rs|
  {
    hide Encode, EndRequest, GetValuesResult, UnknownType, Decode, SumsFit, Answerable, Loses, LosesFirst;
    if rs == [] {
      NothingToLose(id);
    } else {
      assert rs[0] in rs;
      var o := Deliver(id, skip, rs[0]);
      FirstLossByFront(id, rs);
      LossByFront(id, rs);
      LossIffLost(id, ty, o.skip, rs[1..]);
      NoMoreThanOwn(id, ty, o.skip, rs[1..]);
      var d, w := DeliverAll(id, o.skip, rs[1..]).content, OwnContents(id, rs[1..]);
      assert DeliverAll(id, skip, rs).content == o.content + d;
      if Own(id, rs[0]) {
        assert OwnContents(id, rs) == rs[0].content + w;
        if !skip {
          assert (rs[0].content + d == rs[0].content + w) <==> d == w by {
            DropAppend(rs[0].content, d);
            DropAppend(rs[0].content, w);
          }
        }
      } else {
        assert [] + d == d && [] + w == w;
      }
    }
  }

  lemma NothingToLose(id: int)
    ensures !(exists i, j :: Loses(id, [], i, j)) && !(exists j :: LosesFirst(id, [], j))
  {
  }

  /** A stream delivers exactly the contents of its own records if and only if no empty record of
      another request precedes, with no content in between, an own record. */
  lemma DeliversOwnIff(id: int, ty: int, rs: seq<Record>)
    requires id > 0 && AllRegular(id, ty, false, rs) && NoLeaks(rs)
    ensures DeliverAll(id, false, rs).content == OwnContents(id, rs) <==> !(exists i, j :: Loses(id, rs, i, j))
  {
    LossIffLost(id, ty, false, rs);
  }

  /** Where no empty record of another request occurs, a stream delivers exactly the contents of its
      own records if and only if no unknown management record has content. */
  lemma {:induction false} DeliversOwnIffNoLeaks(id: int, ty: int, rs: seq<Record>)
    requires id > 0 && AllRegular(id, ty, false, rs) && forall r :: r in rs ==> !Armed(id, r)
    ensures DeliverAll(id, false, rs).content == OwnContents(id, rs) <==> NoLeaks(rs)
    ensures |DeliverAll(id, false, rs).content| >= |OwnContents(id, rs)|
    decreases |rs|
  {
    hide Encode, EndRequest, GetValuesResult, UnknownType, Decode, SumsFit, Answerable;
    if rs != [] {
      assert rs[0] in rs && rs == [rs[0]] + rs[1..];
      var o := Deliver(id, false, rs[0]);
      assert !o.skip;
      DeliversOwnIffNoLeaks(id, ty, rs[1..]);
      var d, w := DeliverAll(id, false, rs[1..]).content, OwnContents(id, rs[1..]);
      if Own(id, rs[0]) {
        DropAppend(rs[0].content, d);
        DropAppend(rs[0].content, w);
      } else {
        assert [] + d == d && [] + w == w;
      }
    }
  }

  // ---------------------------------------------------------------------------------------
  // Any regular wire, record by record.

  /** The last record with any content, or empty and of another request, before record `j` is of the latter kind. */
  predicate Preceded(id: int, rs: seq<Record>, j: nat)
    requires j <= |rs|
  {
    exists i :: 0 <= i < j && Armed(id, rs[i]) && forall k :: i < k < j ==> rs[k].content == []
  }

  /** The content of record `j` reaches the client. */
  predicate Reaches(id: int, rs: seq<Record>, j: nat)
    requires j < |rs|
  {
    (Own(id, rs[j]) || Leaks(rs[j])) && !Preceded(id, rs, j)
  }

  /** The contents that reach the client, in order, of the first `n` records. */
  function ReachingContents(id: int, rs: seq<Record>, n: nat): seq<Byte>
    requires n <= |rs|
  {
    if n == 0 then [] else
    ReachingContents(id, rs, n - 1) + if Reaches(id, rs, n - 1) then rs[n - 1].content else []
  }

  lemma {:induction false} DeliverAllMore(id: int, skip: bool, rs: seq<Record>, r: Record)
    ensures var o := DeliverAll(id, skip, rs); var p := Deliver(id, o.skip, r);
            DeliverAll(id, skip, rs + [r]) ==
            Outcome(p.skip, o.content + p.content, o.reply + p.reply, o.defined && p.defined)
    decreases |rs|
  {
    hide Deliver;
    if rs == [] {
      assert [] + [r] == [r] && [r][1..] == [];
      var p := Deliver(id, skip, r);
      assert DeliverAll(id, p.skip, []) == Outcome(p.skip, [], [], true);
      assert p.content + [] == p.content == [] + p.content && p.reply + [] == p.reply == [] + p.reply;
    } else {
      var o := Deliver(id, skip, rs[0]);
      DeliverAllMore(id, o.skip, rs[1..], r);
      assert (rs + [r])[0] == rs[0] && (rs + [r])[1..] == rs[1..] + [r];
      var q := DeliverAll(id, o.skip, rs[1..]);
      var p := Deliver(id, q.skip, r);
      Assoc(o.content, q.content, p.content);
      Assoc(o.reply, q.reply, p.reply);
    }
  }

  lemma PrecededMore(id: int, rs: seq<Record>, n: nat)
    requires n < |rs|
    ensures Preceded(id, rs, n + 1) <==> Armed(id, rs[n]) || (rs[n].content == [] && Preceded(id, rs, n))
  {
    if Preceded(id, rs, n + 1) {
      var i :| 0 <= i < n + 1 && Armed(id, rs[i]) && forall k :: i < k < n + 1 ==> rs[k].content == [];
    }
  }

  /** On any regular wire the bytes delivered are the contents of the own and the unknown management
      records that no empty record of another request precedes as the last content before them. */
  lemma {:induction false} DeliversReaching(id: int, ty: int, rs: seq<Record>, n: nat)
    requires id > 0 && AllRegular(id, ty, false, rs) && n <= |rs|
    ensures var o := DeliverAll(id, false, rs[..n]);
            o.content == ReachingContents(id, rs, n) && (o.skip <==> Preceded(id, rs, n))
    decreases n
  {
    hide DeliverAll, Preceded, Decode, SumsFit, Answerable, GetValuesResult, UnknownType, EndRequest;
    if n == 0 {
      NothingBefore(id, rs);
    } else {
      var r := rs[n - 1];
      assert r in rs;
      RegularPasses(id, ty, false, rs);
      DeliversReaching(id, ty, rs, n - 1);
      PrecededMore(id, rs, n - 1);
      DeliverAllMore(id, false, rs[..n - 1], r);
      assert rs[..n] == rs[..n - 1] + [r];
    }
  }

  lemma NothingBefore(id: int, rs: seq<Record>)
    ensures !Preceded(id, rs, 0) && DeliverAll(id, false, rs[..0]) == Outcome(false, [], [], true)
  {
  }

  /** What an arbitrary regular wire delivers, and when that comes from the request's own records and from all
      of them: if and only if every own record escapes, and every unknown management record with content
      meets, an empty record of another request as the last content before it. */
  lemma DeliversExactlyOwnIff(id: int, ty: int, rs: seq<Record>)
    requires id > 0 && AllRegular(id, ty, false, rs)
    ensures DeliverAll(id, false, rs).content == ReachingContents(id, rs, |rs|)
    ensures (forall j :: 0 <= j < |rs| ==> (Reaches(id, rs, j) <==> Own(id, rs[j])))
            <==> !(exists i, j :: Loses(id, rs, i, j)) &&
                 forall j :: 0 <= j < |rs| && Leaks(rs[j]) ==> Preceded(id, rs, j)
  {
    hide AllRegular, DeliverAll, ReachingContents, Loses, Reaches, Preceded;
    DeliversReaching(id, ty, rs, |rs|);
    assert rs[..|rs|] == rs;
    ReachesOwnIff(id, rs);
  }

  lemma ReachesOwnIff(id: int, rs: seq<Record>)
    requires id > 0
    ensures (forall j :: 0 <= j < |rs| ==> (Reaches(id, rs, j) <==> Own(id, rs[j])))
            <==> !(exists i, j :: Loses(id, rs, i, j)) &&
                 forall j :: 0 <= j < |rs| && Leaks(rs[j]) ==> Preceded(id, rs, j)
  {
    if forall j :: 0 <= j < |rs| ==> (Reaches(id, rs, j) <==> Own(id, rs[j])) {
      if i, j :| Loses(id, rs, i, j) {
        LostIsPreceded(id, rs, i, j);
      }
      forall j | 0 <= j < |rs| && Leaks(rs[j]) ensures Preceded(id, rs, j) {
        assert Reaches(id, rs, j) <==> Own(id, rs[j]);
      }
    }
    if !(exists i, j :: Loses(id, rs, i, j)) && forall j :: 0 <= j < |rs| && Leaks(rs[j]) ==> Preceded(id, rs, j) {
      forall j | 0 <= j < |rs| ensures Reaches(id, rs, j) <==> Own(id, rs[j]) {
        if Own(id, rs[j]) && Preceded(id, rs, j) {
          var i :| 0 <= i < j && Armed(id, rs[i]) && forall k :: i < k < j ==> rs[k].content == [];
          assert Loses(id, rs, i, j);
        }
      }
    }
  }

  lemma LostIsPreceded(id: int, rs: seq<Record>, i: int, j: int)
    requires Loses(id, rs, i, j)
    ensures Own(id, rs[j]) && !Reaches(id, rs, j)
  {
  }

  /** And then the bytes delivered are the request's own. */
  lemma DeliversOwn(id: int, ty: int, rs: seq<Record>)
    requires id > 0 && AllRegular(id, ty, false, rs)
    requires !(exists i, j :: Loses(id, rs, i, j)) && forall j :: 0 <= j < |rs| && Leaks(rs[j]) ==> Preceded(id, rs, j)
    ensures DeliverAll(id, false, rs).content == OwnContents(id, rs)
  {
    hide Loses, Reaches, Preceded, DeliverAll;
    DeliversExactlyOwnIff(id, ty, rs);
    ReachingIsOwn(id, rs, |rs|);
    assert rs[..|rs|] == rs;
  }

  lemma {:induction false} ReachingIsOwn(id: int, rs: seq<Record>, n: nat)
    requires n <= |rs| && forall j :: 0 <= j < |rs| ==> (Reaches(id, rs, j) <==> Own(id, rs[j]))
    ensures ReachingContents(id, rs, n) == OwnContents(id, rs[..n])
    decreases n
  {
    hide Reaches;
    if n > 0 {
      ReachingIsOwn(id, rs, n - 1);
      OwnContentsMore(id, rs[..n - 1], rs[n - 1]);
      assert rs[..n] == rs[..n - 1] + [rs[n - 1]];
    }
  }

  lemma {:induction false} OwnContentsMore(id: int, rs: seq<Record>, r: Record)
    ensures OwnContents(id, rs + [r]) == OwnContents(id, rs) + if Own(id, r) then r.content else []
    decreases |rs|
  {
    var last := if Own(id, r) then r.content else [];
    if rs == [] {
      assert [] + [r] == [r] && [r][1..] == [] && last + [] == last == [] + last;
    } else {
      OwnContentsMore(id, rs[1..], r);
      assert (rs + [r])[0] == rs[0] && (rs + [r])[1..] == rs[1..] + [r];
      Assoc(if Own(id, rs[0]) then rs[0].content else [], OwnContents(id, rs[1..]), last);
    }
  }

  /** The smallest wire that loses content: an empty record of request 2, then a record of request 1. */
  lemma LossExample()
    ensures var rs := [Record(FCGI_STDIN, 2, [], [], 0), Record(FCGI_STDIN, 1, [7], [], 0)];
            AllRegular(1, FCGI_STDIN as int, false, rs) && NoLeaks(rs) &&
            OwnContents(1, rs) == [7] && DeliverAll(1, false, rs).content == []
  {
    var a, b := Record(FCGI_STDIN, 2, [], [], 0), Record(FCGI_STDIN, 1, [7], [], 0);
    assert [a, b][1..] == [b] && [b][1..] == [];
    assert OwnContents(1, [b]) == [7] + OwnContents(1, []);
    assert OwnContents(1, [a, b]) == [] + OwnContents(1, [b]);
    assert DeliverAll(1, true, [b]).content == [] + DeliverAll(1, false, []).content;
  }

  /** The smallest wire that leaks: a management record of unknown type with one byte of content. */
  lemma LeakExample()
    ensures var rs := [Record(12, 0, [7], [], 0)];
            AllRegular(1, FCGI_STDIN as int, false, rs) && OwnContents(1, rs) == [] &&
            DeliverAll(1, false, rs).content == [7]
  {
    var a := Record(12, 0, [7], [], 0);
    assert [a][1..] == [];
    assert OwnContents(1, [a]) == [] + OwnContents(1, []);
    assert DeliverAll(1, false, [a]).content == [7] + DeliverAll(1, false, []).content;
  }

  /** The bytes alone do not tell: here a leaked 7 stands in for the request's own, which is lost. */
  lemma {:induction false} StandInExample()
    ensures var rs := [Record(FCGI_STDIN, 2, [], [], 0), Record(FCGI_STDIN, 1, [7], [], 0), Record(12, 0, [7], [], 0)];
            AllRegular(1, FCGI_STDIN as int, false, rs) && Loses(1, rs, 0, 1) && Leaks(rs[2]) && Reaches(1, rs, 2) &&
            DeliverAll(1, false, rs).content == OwnContents(1, rs) == [7]
  {
    hide Encode, EndRequest, GetValuesResult, UnknownType, Decode, SumsFit, Answerable;
    var a, b, c := Record(FCGI_STDIN, 2, [], [], 0), Record(FCGI_STDIN, 1, [7], [], 0), Record(12, 0, [7], [], 0);
    assert [a, b, c][1..] == [b, c] && [b, c][1..] == [c] && [c][1..] == [];
    assert OwnContents(1, [c]) == [] + OwnContents(1, []);
    assert OwnContents(1, [b, c]) == [7] + OwnContents(1, [c]);
    assert OwnContents(1, [a, b, c]) == [] + OwnContents(1, [b, c]);
    assert DeliverAll(1, false, [c]).content == [7] + DeliverAll(1, false, []).content;
    assert DeliverAll(1, true, [b, c]).content == [] + DeliverAll(1, false, [c]).content;
    assert AllRegular(1, FCGI_STDIN as int, false, [c]) && AllRegular(1, FCGI_STDIN as int, true, [b, c]);
    assert [a, b, c][1].content != [];
  }
}
