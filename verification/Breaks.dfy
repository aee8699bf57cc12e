/** How a wire may break off or be refused, and what a stream delivers up to there. */
module Breaks {
  import opened Bytes
  import opened Wire
  import opened NameValue
  import opened ReaderSpec
  import opened ReaderLaws
  import opened Demux

  /** A wire that breaks a stream runs out between two records or inside a header (`NoHeader`), inside the
      content or the padding of a record (`Within`, after `n` of its bytes), or goes on with a header that
      is refused, or with an FCGI_GET_VALUES record of which the content breaks off inside a pair. */
  datatype Break =
    | NoHeader(bytes: seq<Byte>)
    | Within(r: Record, n: nat)
    | BadHeader(bytes: seq<Byte>)
    | Garbled(r: Record, tail: seq<Byte>)

  function BreakBytes(b: Break): seq<Byte> {
    match b
    case NoHeader(bytes) => bytes
    case Within(r, n) => if n <= |Encode(r)| then Encode(r)[..n] else []
    case BadHeader(bytes) => bytes
    case Garbled(r, tail) => Encode(r) + tail
  }

  /** A header of another version, of a record of the request with another type (that of
      FCGI_ABORT_REQUEST is one), or of an FCGI_BEGIN_REQUEST that cannot be one. */
  predicate RefusedHeader(id: int, ty: int, h: seq<Byte>)
    requires |h| == FCGI_HEADER_LEN
  {
    h[0] != FCGI_VERSION_1 ||
    if h[1] == FCGI_BEGIN_REQUEST then HeaderId(h) == 0 || HeaderContentLen(h) != 8
    else HeaderId(h) == id && h[1] as int != ty
  }

  predicate IsBreak(id: int, ty: int, skip: bool, b: Break) {
    match b
    case NoHeader(bytes) => |bytes| < FCGI_HEADER_LEN
    case Within(r, n) => Passable(id, ty, r) && FCGI_HEADER_LEN <= n < |Encode(r)|
    case BadHeader(bytes) => |bytes| >= FCGI_HEADER_LEN && RefusedHeader(id, ty, bytes[..FCGI_HEADER_LEN])
    case Garbled(r, _) => Passable(id, ty, r) && AsksValues(r) && !skip && !Decode(r.content).ok
  }

  /** What is delivered of the record that breaks off: only own content, and that of unknown management records. */
  function BreakContent(id: int, skip: bool, b: Break): seq<Byte> {
    if b.Within? && b.n >= FCGI_HEADER_LEN &&
       (Own(id, b.r) || (b.r.id == 0 && b.r.ty != FCGI_BEGIN_REQUEST && !AsksValues(b.r)))
    then Kept(skip, b.r.content[..Min(b.n - FCGI_HEADER_LEN, |b.r.content|)])
    else []
  }

  /** The error that is reported: where the wire runs out, the errno of the failing read, or that of the
      protocol after an orderly end. */
  function BreakCode(ending: nat, b: Break): int {
    match b
    case BadHeader(bytes) =>
      if bytes == [] || bytes[0] != 1 then FCGX_UNSUPPORTED_VERSION else FCGX_PROTOCOL_ERROR
    case Garbled(r, tail) =>
      if r.padding != [] || tail != [] then FCGX_PARAMS_ERROR
      else if ending == 0 then FCGX_PROTOCOL_ERROR else ending
    case _ => if ending == 0 then FCGX_PROTOCOL_ERROR else ending
  }

  /** A wire that runs out inside a record whose header was read. */
  lemma {:induction false} RunsOut(s: State)
    requires Live(s) && !s.closed && !s.eor && s.errno == 0 && |s.rest| < s.pending + s.padding
    ensures var d := Drain(s); d.0 == Kept(s.skip, s.rest[..Min(s.pending, |s.rest|)]) && d.1.errno == EndCode(s.ending)
  {
    hide Fill, Consume, PastContent, Drain;
    var n := Min(s.pending, |s.rest|);
    if s.skip {
      RunsOutSkipping(s);
      FillStops(s);
      ClosedDrain(s);
    } else {
      DrainAtHand(s, n);
      var t := Advance(s, n);
      RunsOutPadding(t);
      FillStops(t);
      ClosedDrain(t);
      assert s.rest[..n] + [] == s.rest[..n];
    }
  }

  lemma RunsOutSkipping(s: State)
    requires !s.closed && s.skip && s.errno == 0 && |s.rest| < s.pending + s.padding
    ensures Consume(s).Done? && Consume(s).state.closed && Consume(s).state.errno == EndCode(s.ending)
  {
  }

  lemma RunsOutPadding(s: State)
    requires !s.closed && s.errno == 0 && (s.rest == [] || (s.pending == 0 && |s.rest| < s.padding))
    ensures Consume(s).Done? && Consume(s).state.closed && Consume(s).state.errno == EndCode(s.ending)
  {
  }

  /** What is there of a record of which only `n` bytes are. */
  function Part(r: Record, n: nat): (part: seq<Byte>)
    requires FCGI_HEADER_LEN <= n < |Encode(r)|
    ensures part[..Min(|r.content|, |part|)] == r.content[..Min(n - FCGI_HEADER_LEN, |r.content|)]
  {
    (r.content + r.padding)[..n - FCGI_HEADER_LEN]
  }

  lemma ReadsCutHeader(s: State, r: Record, n: nat)
    requires Between(s) && FCGI_HEADER_LEN <= n < |Encode(r)| && s.rest == Encode(r)[..n]
    ensures Consume(s) == At(HeaderOf(r), s.(rest := Part(r, n)))
  {
    PartFollows(r, n);
    ReadsHeader(s, r, Part(r, n));
  }

  lemma PartFollows(r: Record, n: nat)
    requires FCGI_HEADER_LEN <= n < |Encode(r)|
    ensures Encode(r)[..n] == HeaderOf(r) + Part(r, n)
  {
    Assoc(HeaderOf(r), r.content, r.padding);
  }

  /** An FCGI_GET_VALUES record that breaks off is not answered. */
  lemma CutValues(s: State, r: Record, n: nat)
    requires Between(s) && Fits(r) && FCGI_HEADER_LEN <= n < |Encode(r)|
    ensures var u := s.(rest := Part(r, n), pending := |r.content|, padding := |r.padding|, eor := true);
            RecordEnd(u).errno == EndCode(s.ending)
  {
  }

  /** The record that breaks off, met between records. */
  lemma {:induction false} DrainWithin(s: State, r: Record, n: nat)
    requires Between(s) && Passable(s.req.id, s.ty, r) && FCGI_HEADER_LEN <= n < |Encode(r)| && s.rest == Encode(r)[..n]
    ensures var d := Drain(s); d.0 == BreakContent(s.req.id, s.skip, Within(r, n)) && d.1.errno == EndCode(s.ending)
  {
    hide Fill, Consume, Encode, Drain, RecordEnd, RecordContent, Decode, SumsFit, Answerable, Part;
    PartIsShort(r, n);
    if AsksValues(r) {
      ReadsCutHeader(s, r, n);
      HeaderRoundTrip(r);
      FillDispatches(s);
      CutValues(s, r, n);
      ClosedDrain(s);
    } else {
      PartFollows(r, n);
      DrainMet(s, r, Part(r, n));
      RunsOut(Met(s, r, Part(r, n)));
    }
  }

  lemma PartIsShort(r: Record, n: nat)
    requires FCGI_HEADER_LEN <= n < |Encode(r)|
    ensures |Part(r, n)| < |r.content| + |r.padding|
  {
  }

  /** A header that is refused, met between records. */
  lemma {:induction false} DrainRefused(s: State, bytes: seq<Byte>)
    requires Between(s) && s.rest == bytes && IsBreak(s.req.id, s.ty, s.skip, BadHeader(bytes))
    ensures Drain(s).0 == [] && Drain(s).1.errno == BreakCode(s.ending, BadHeader(bytes))
  {
    hide Fill, Consume, Drain;
    BeforeHeader(s);
    AtHeader(s);
    FillDispatches(s);
    ClosedDrain(s);
  }

  /** An FCGI_GET_VALUES record of which the content is not whole pairs, met between records. */
  lemma {:induction false} DrainGarbled(s: State, r: Record, tail: seq<Byte>)
    requires Between(s) && s.rest == Encode(r) + tail && IsBreak(s.req.id, s.ty, s.skip, Garbled(r, tail))
    ensures Drain(s).0 == [] && Drain(s).1.errno == BreakCode(s.ending, Garbled(r, tail))
  {
    hide Fill, Consume, Encode, Drain, RecordEnd, RecordContent, Decode, SumsFit, Answerable;
    ReadsRecord(s, r, tail);
    HeaderRoundTrip(r);
    FillDispatches(s);
    GarbledRecord(s, r, tail);
    ClosedDrain(s);
  }

  lemma GarbledRecord(s: State, r: Record, tail: seq<Byte>)
    requires Between(s) && Fits(r) && !s.skip
    ensures var u := Inside(s, r, tail).(eor := true);
            RecordContent(u) == r.content &&
            RecordEnd(u).errno == if r.padding == [] && tail == [] then EndCode(s.ending) else 0
  {
    var u := Inside(s, r, tail).(eor := true);
    var rest := r.padding + tail;
    DropAppend(r.content, rest);
    assert u.rest[|r.content|..] == rest;
  }

  /** Whatever the break, met between records, except at the very end. */
  lemma {:induction false} DrainBreak(s: State, b: Break)
    requires Between(s) && s.rest == BreakBytes(b) && IsBreak(s.req.id, s.ty, s.skip, b)
    ensures Drain(s).0 == BreakContent(s.req.id, s.skip, b) && Drain(s).1.errno == BreakCode(s.ending, b)
  {
    hide Fill, Consume, Encode, Drain, Decode, Passable;
    match b
    case NoHeader(bytes) =>
      FillAtEnd(s, bytes);
      ClosedDrain(s);
    case Within(r, n) => DrainWithin(s, r, n);
    case BadHeader(bytes) => DrainRefused(s, bytes);
    case Garbled(r, tail) => DrainGarbled(s, r, tail);
  }

  /** The wire ends exactly behind its last record. */
  lemma {:induction false} EndsBetween(s: State, rs: seq<Record>)
    requires Between(s) && AllRegular(s.req.id, s.ty, s.skip, rs) && s.rest == EncodeAll(rs)
    ensures Drain(s).0 == DeliverAll(s.req.id, s.skip, rs).content && Drain(s).1.errno == EndCode(s.ending)
  {
    hide Fill, Encode, Drain, Deliver, Decode, Regular, AllRegular;
    if rs == [] {
      NothingMore(s);
    } else {
      var front, last := rs[..|rs| - 1], rs[|rs| - 1];
      assert rs == front + [last];
      RegularMore(s.req.id, s.ty, s.skip, front, last);
      EncodeAllAppend(front, [last]);
      EncodeAllOne(last);
      DrainRegulars(s, front, Encode(last));
      var o := DeliverAll(s.req.id, s.skip, front);
      DeliverAllMore(s.req.id, s.skip, front, last);
      EndsBehind(After(s, Encode(last), o), last);
    }
  }

  lemma {:induction false} EndsBehind(s: State, r: Record)
    requires Between(s) && Regular(s.req.id, s.ty, s.skip, r) && s.rest == Encode(r)
    ensures Drain(s).0 == Deliver(s.req.id, s.skip, r).content && Drain(s).1.errno == EndCode(s.ending)
  {
    hide Fill, Encode, Drain, Decode, SumsFit, Answerable;
    var o := Deliver(s.req.id, s.skip, r);
    if AsksValues(r) {
      ValuesAtEnd(s, r);
    } else {
      assert s.rest == Encode(r) + [];
      DrainRegular(s, r, []);
      NothingMore(After(s, [], o));
      assert o.content + [] == o.content;
    }
  }

  /** A wire of regular records that breaks off, wherever it does, delivers everything before the break
      and what is there of the content of the record that breaks, and then reports the error. */
  lemma {:induction false} BrokenStream(s: State, rs: seq<Record>, b: Break)
    requires Between(s) && AllRegular(s.req.id, s.ty, s.skip, rs) && s.rest == EncodeAll(rs) + BreakBytes(b)
    requires IsBreak(s.req.id, s.ty, DeliverAll(s.req.id, s.skip, rs).skip, b)
    ensures var o := DeliverAll(s.req.id, s.skip, rs);
            Drain(s).0 == o.content + BreakContent(s.req.id, o.skip, b) && Drain(s).1.errno == BreakCode(s.ending, b)
  {
    hide Drain, EncodeAll, Encode, DeliverAll, Passable, AllRegular;
    var o := DeliverAll(s.req.id, s.skip, rs);
    var tail := BreakBytes(b);
    if tail == [] {
      assert s.rest == EncodeAll(rs);
      EndsBetween(s, rs);
      assert b == NoHeader([]);
      assert o.content + [] == o.content;
    } else {
      DrainRegulars(s, rs, tail);
      DrainBreak(After(s, tail, o), b);
    }
  }

  // ---------------------------------------------------------------------------------------
  // Every wire is regular records and then the end of the stream or a break.

  /** The record at the front of `w`, with zeros for what is missing of it. */
  function FrontRecord(w: seq<Byte>): (r: Record)
    requires |w| >= FCGI_HEADER_LEN
    ensures Fits(r) && r.ty == w[1] && r.id == HeaderId(w[..FCGI_HEADER_LEN])
  {
    var c, p := HeaderContentLen(w[..FCGI_HEADER_LEN]), w[6];
    var body := w[FCGI_HEADER_LEN..];
    var full := if |body| < c + p then body + Zeros(c + p - |body|) else body;
    Record(w[1], HeaderId(w[..FCGI_HEADER_LEN]), full[..c], full[c..c + p], w[7])
  }

  lemma FrontHeader(w: seq<Byte>)
    requires |w| >= FCGI_HEADER_LEN && w[0] == FCGI_VERSION_1
    ensures HeaderOf(FrontRecord(w)) == w[..FCGI_HEADER_LEN]
    ensures |FrontRecord(w).content| == HeaderContentLen(w[..FCGI_HEADER_LEN])
  {
    var r := FrontRecord(w);
    assert r.id / 256 == w[2] && r.id % 256 == w[3];
    assert |r.content| / 256 == w[4] && |r.content| % 256 == w[5];
  }

  lemma FrontWhole(w: seq<Byte>)
    requires |w| >= FCGI_HEADER_LEN && w[0] == FCGI_VERSION_1
    ensures var e := Encode(FrontRecord(w)); if |e| <= |w| then w == e + w[|e|..] else w == e[..|w|]
  {
    FrontHeader(w);
    var r := FrontRecord(w);
    var h, body := w[..FCGI_HEADER_LEN], w[FCGI_HEADER_LEN..];
    assert w == h + body;
    Assoc(h, r.content, r.padding);
    if |body| < |r.content| + |r.padding| {
      assert r.content + r.padding == body + Zeros(|r.content| + |r.padding| - |body|);
    } else {
      assert r.content + r.padding == body[..|r.content| + |r.padding|];
    }
  }

  /** Regular records up to the header of the empty one. */
  predicate Ends(id: int, ty: int, skip: bool, w: seq<Byte>, rs: seq<Record>, end: Record, more: seq<Byte>) {
    AllRegular(id, ty, skip, rs) && EndsStream(id, ty, end) && w == EncodeAll(rs) + (HeaderOf(end) + more)
  }

  /** Regular records up to a break. */
  predicate BreaksOff(id: int, ty: int, skip: bool, w: seq<Byte>, rs: seq<Record>, b: Break) {
    AllRegular(id, ty, skip, rs) && IsBreak(id, ty, DeliverAll(id, skip, rs).skip, b) &&
    w == EncodeAll(rs) + BreakBytes(b)
  }

  lemma {:induction false} EveryWire(id: int, ty: int, skip: bool, w: seq<Byte>)
    requires id > 0
    ensures (exists rs, end, more :: Ends(id, ty, skip, w, rs, end, more)) ||
            (exists rs, b :: BreaksOff(id, ty, skip, w, rs, b))
    decreases |w|
  {
    hide Encode, Decode, Deliver, SumsFit, Answerable;
    if |w| < FCGI_HEADER_LEN {
      BreaksAtOnce(id, ty, skip, w, NoHeader(w));
    } else if RefusedHeader(id, ty, w[..FCGI_HEADER_LEN]) {
      BreaksAtOnce(id, ty, skip, w, BadHeader(w));
    } else {
      var r := FrontRecord(w);
      FrontHeader(w);
      FrontWhole(w);
      if EndsStream(id, ty, r) {
        EndsAtOnce(id, ty, skip, w, r);
      } else if |Encode(r)| > |w| {
        BreaksAtOnce(id, ty, skip, w, Within(r, |w|));
      } else if !Regular(id, ty, skip, r) {
        NothingDecodes();
        BreaksAtOnce(id, ty, skip, w, Garbled(r, w[|Encode(r)|..]));
      } else {
        EveryWire(id, ty, Deliver(id, skip, r).skip, w[|Encode(r)|..]);
        OneMore(id, ty, skip, r, w[|Encode(r)|..]);
      }
    }
  }

  lemma NothingDecodes()
    ensures Decode([]).ok
  {
  }

  lemma BreaksAtOnce(id: int, ty: int, skip: bool, w: seq<Byte>, b: Break)
    requires IsBreak(id, ty, skip, b) && w == BreakBytes(b)
    ensures exists rs, b :: BreaksOff(id, ty, skip, w, rs, b)
  {
    assert EncodeAll([]) + BreakBytes(b) == w;
    assert BreaksOff(id, ty, skip, w, [], b);
  }

  lemma EndsAtOnce(id: int, ty: int, skip: bool, w: seq<Byte>, end: Record)
    requires EndsStream(id, ty, end) && |w| >= FCGI_HEADER_LEN && w[..FCGI_HEADER_LEN] == HeaderOf(end)
    ensures exists rs, end, more :: Ends(id, ty, skip, w, rs, end, more)
  {
    var more := w[FCGI_HEADER_LEN..];
    assert EncodeAll([]) + (HeaderOf(end) + more) == w;
    assert Ends(id, ty, skip, w, [], end, more);
  }

  lemma OneMore(id: int, ty: int, skip: bool, r: Record, w: seq<Byte>)
    requires Regular(id, ty, skip, r)
    ensures var o := Deliver(id, skip, r);
            ((exists rs, end, more :: Ends(id, ty, o.skip, w, rs, end, more)) ==>
             exists rs, end, more :: Ends(id, ty, skip, Encode(r) + w, rs, end, more)) &&
            ((exists rs, b :: BreaksOff(id, ty, o.skip, w, rs, b)) ==>
             exists rs, b :: BreaksOff(id, ty, skip, Encode(r) + w, rs, b))
  {
    hide Encode, Decode, Deliver, Regular;
    var o := Deliver(id, skip, r);
    if rs, end, more :| Ends(id, ty, o.skip, w, rs, end, more) {
      assert ([r] + rs)[1..] == rs;
      Assoc(Encode(r), EncodeAll(rs), HeaderOf(end) + more);
      assert Ends(id, ty, skip, Encode(r) + w, [r] + rs, end, more);
    }
    if rs, b :| BreaksOff(id, ty, o.skip, w, rs, b) {
      assert ([r] + rs)[1..] == rs;
      Assoc(Encode(r), EncodeAll(rs), BreakBytes(b));
      assert BreaksOff(id, ty, skip, Encode(r) + w, [r] + rs, b);
    }
  }

  /** A stream ends without error if and only if its wire is regular records up to the header of an
      empty record of its own; on any other wire what it delivers and the error are those of a break. */
  lemma {:induction false} EndsWithoutErrorIff(s: State)
    requires Between(s)
    ensures Drain(s).1.errno == 0 <==>
            exists rs, end, more :: Ends(s.req.id, s.ty, s.skip, s.rest, rs, end, more)
    ensures Drain(s).1.errno != 0 ==>
            exists rs, b :: BreaksOff(s.req.id, s.ty, s.skip, s.rest, rs, b) &&
              Drain(s).1.errno == BreakCode(s.ending, b) &&
              var o := DeliverAll(s.req.id, s.skip, rs); Drain(s).0 == o.content + BreakContent(s.req.id, o.skip, b)
  {
    hide Drain, DeliverAll, AllRegular, IsBreak, BreakContent, EncodeAll, BreakBytes;
    EveryWire(s.req.id, s.ty, s.skip, s.rest);
    if rs, end, more :| Ends(s.req.id, s.ty, s.skip, s.rest, rs, end, more) {
      StreamEnds(s, rs, end, more);
    } else {
      var rs, b :| BreaksOff(s.req.id, s.ty, s.skip, s.rest, rs, b);
      BrokenStream(s, rs, b);
      BreakIsError(s.ending, b);
    }
  }

  lemma BreakIsError(ending: nat, b: Break)
    ensures BreakCode(ending, b) != 0
  {
  }
}
