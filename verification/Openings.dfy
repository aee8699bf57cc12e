/** The beginning of a request: what a new reader makes of the records in front of it. */
module Openings {
  import opened Bytes
  import opened Wire
  import opened NameValue
  import opened ReaderSpec
  import opened ReaderLaws
  import opened Demux
  import opened Breaks

  /** Between two records, before a request has begun; `req.id` is that of the request before, if any. */
  predicate Waiting(s: State) {
    Clear(s) && !s.req.begun && s.ty == 0
  }

  /** A record that is skipped or answered, and leaves the reader waiting. */
  predicate PassedBy(id: int, skip: bool, r: Record) {
    && Fits(r) && r.ty != FCGI_BEGIN_REQUEST
    && (r.id == id && r.id != 0 ==> r.ty == 0 && r.content != [])
    && (AsksValues(r) ==> Decode(Kept(skip, r.content)).ok)
    && Deliver(id, skip, r).content == []
  }

  predicate AllPassedBy(id: int, skip: bool, rs: seq<Record>)
    decreases |rs|
  {
    rs == [] || (PassedBy(id, skip, rs[0]) && AllPassedBy(id, Deliver(id, skip, rs[0]).skip, rs[1..]))
  }

  /** A record that begins a request, whatever its role. */
  predicate Beginning(r: Record) {
    Fits(r) && r.ty == FCGI_BEGIN_REQUEST && r.id != 0 && |r.content| == 8
  }

  /** What it says, byte by byte: the role is the first two, and the connection is kept by the lowest bit
      of the third. */
  function RequestOf(r: Record): RequestInfo
    requires Beginning(r)
  {
    RequestInfo(r.id, r.content[0] as int * 256 + r.content[1] as int, true, r.content[2] % 2 == 1)
  }

  /** Past a record whose content is empty or skipped nothing of it is left. */
  lemma {:induction false} FillInside(s: State, r: Record, tail: seq<Byte>)
    requires !s.closed && !s.eor && (s.skip || r.content == [])
    ensures Fill(Inside(s, r, tail)) ==
            Fill(s.(rest := tail, pending := 0, padding := 0, skip := s.skip && r.content == []))
  {
    hide Fill, Consume, PastContent, PastPadding;
    var u := Inside(s, r, tail);
    var rest := r.padding + tail;
    DropAppend(r.content, rest);
    var v := u.(rest := rest, pending := 0, skip := s.skip && r.content == []);
    FillPadding(v, r.padding, tail);
    if r.content == [] {
      assert u == v by { assert [] + rest == rest; }
    } else {
      SkipAll(u);
      if rest != [] {
        NothingToSkip(v);
        FillByStep(u, v);
      } else {
        PastNothing(u, v);
      }
    }
  }

  lemma PastNothing(u: State, v: State)
    requires !u.closed && !v.closed && !v.eor && v.rest == [] && v.pending == 0 && v.padding == 0
    requires Consume(u) == PastContent(v)
    ensures Fill(u) == Fill(v)
  {
  }

  /** Behind the header of a record that does not end the waiting. */
  lemma {:induction false} FillMet(s: State, r: Record, rest: seq<Byte>)
    requires Waiting(s) && Fits(r) && r.ty != FCGI_BEGIN_REQUEST && !AsksValues(r)
    requires r.id == s.req.id && r.id != 0 ==> r.ty == 0 && r.content != []
    requires s.rest == HeaderOf(r) + rest
    ensures Fill(s) == Fill(Met(s, r, rest))
  {
    hide Fill, Consume, Encode, UnknownType;
    ReadsHeader(s, r, rest);
    HeaderRoundTrip(r);
    assert s.sent + [] == s.sent;
    FillDispatches(s);
  }

  lemma {:induction false} FillValues(s: State, r: Record, tail: seq<Byte>)
    requires Waiting(s) && PassedBy(s.req.id, s.skip, r) && AsksValues(r) && s.rest == Encode(r) + tail
    requires tail != [] || Shows(s, r)
    ensures Fill(s) == Fill(After(s, tail, Deliver(s.req.id, s.skip, r)))
  {
    hide Fill, Consume, Encode, RecordEnd, RecordContent, Decode, SumsFit, Answerable;
    ReadsRecord(s, r, tail);
    HeaderRoundTrip(r);
    EncodeAllOne(Deliver(s.req.id, s.skip, r).reply[0]);
    ValuesRecord(s, r, tail);
    FillDispatches(s);
  }

  lemma {:induction false} FillPassed(s: State, r: Record, tail: seq<Byte>)
    requires Waiting(s) && PassedBy(s.req.id, s.skip, r) && s.rest == Encode(r) + tail && (tail != [] || !AsksValues(r))
    ensures Fill(s) == Fill(After(s, tail, Deliver(s.req.id, s.skip, r)))
  {
    hide Fill, Consume, Encode, Decode, SumsFit, Answerable, UnknownType, GetValuesResult;
    if AsksValues(r) {
      FillValues(s, r, tail);
    } else {
      HeaderFirst(r, tail);
      FillMet(s, r, r.content + (r.padding + tail));
      FillInside(s.(skip := Skips(s, r), sent := s.sent + Reply(s, r)), r, tail);
      var o := Deliver(s.req.id, s.skip, r);
      AnswersByBytes(r.id, r.ty);
      if o.reply != [] {
        EncodeAllOne(o.reply[0]);
      }
    }
  }

  /** Any run of records passed by, up to whatever follows. */
  lemma {:induction false} FillAllPassed(s: State, rs: seq<Record>, tail: seq<Byte>)
    requires Waiting(s) && AllPassedBy(s.req.id, s.skip, rs) && s.rest == EncodeAll(rs) + tail && tail != []
    ensures Fill(s) == Fill(After(s, tail, DeliverAll(s.req.id, s.skip, rs)))
    ensures DeliverAll(s.req.id, s.skip, rs).content == []
    decreases |rs|
  {
    hide Fill, Encode, Deliver;
    var o := DeliverAll(s.req.id, s.skip, rs);
    if rs == [] {
      assert s.rest == tail && s.sent + [] == s.sent;
      assert After(s, tail, o) == s;
    } else {
      var more := EncodeAll(rs[1..]) + tail;
      Assoc(Encode(rs[0]), EncodeAll(rs[1..]), tail);
      FillPassed(s, rs[0], more);
      var p := Deliver(s.req.id, s.skip, rs[0]);
      var t := After(s, more, p);
      FillAllPassed(t, rs[1..], tail);
      var q := DeliverAll(s.req.id, p.skip, rs[1..]);
      EncodeAllAppend(p.reply, q.reply);
      Assoc(s.sent, EncodeAll(p.reply), EncodeAll(q.reply));
      assert After(t, tail, q) == After(s, tail, o);
    }
  }

  /** The beginning of a request is read from its record; what is padding to the record is not skipped,
      and is left for what comes next. */
  lemma {:induction false} FillBegins(s: State, b: Record, more: seq<Byte>)
    requires Waiting(s) && !s.skip && Beginning(b) && s.rest == HeaderOf(b) + (b.content + more)
    ensures Fill(s) == s.(rest := more, padding := |b.padding|, req := RequestOf(b))
  {
    hide Fill, Consume;
    ReadsHeader(s, b, b.content + more);
    HeaderRoundTrip(b);
    FillDispatches(s);
    DropAppend(b.content, more);
  }

  /** Records passed by, and then a beginning that can be read, padding aside. */
  predicate Opens(id: int, skip: bool, w: seq<Byte>, fronts: seq<Record>, b: Record, more: seq<Byte>) {
    && AllPassedBy(id, skip, fronts) && !DeliverAll(id, skip, fronts).skip
    && Beginning(b) && w == EncodeAll(fronts) + (HeaderOf(b) + (b.content + more))
  }

  lemma {:induction false} OpeningIsRead(s: State, fronts: seq<Record>, b: Record, more: seq<Byte>)
    requires Waiting(s) && Opens(s.req.id, s.skip, s.rest, fronts, b, more)
    ensures Fill(s) ==
            After(s, more, DeliverAll(s.req.id, s.skip, fronts)).(padding := |b.padding|, req := RequestOf(b))
  {
    hide Fill, AllPassedBy, DeliverAll, EncodeAll;
    var tail := HeaderOf(b) + (b.content + more);
    FillAllPassed(s, fronts, tail);
    FillBegins(After(s, tail, DeliverAll(s.req.id, s.skip, fronts)), b, more);
  }

  // ---------------------------------------------------------------------------------------
  // What keeps a request from beginning.

  /** A beginning that is malformed, cut, or comes when content is to be skipped. */
  lemma {:induction false} NoBeginning(s: State, b: Record, rest: seq<Byte>)
    requires Waiting(s) && Fits(b) && b.ty == FCGI_BEGIN_REQUEST && s.rest == HeaderOf(b) + rest
    requires b.id == 0 || |b.content| != 8 || s.skip || |rest| < 8
    ensures !Fill(s).req.begun
    ensures Fill(s).req.id == if b.id != 0 && |b.content| == 8 then b.id else s.req.id
  {
    hide Fill, Consume, RecordEnd;
    ReadsHeader(s, b, rest);
    HeaderRoundTrip(b);
    FillDispatches(s);
  }

  /** A record of the request before: its type is not the reader's, or it ends the stream at once. */
  lemma {:induction false} LeftOver(s: State, r: Record, rest: seq<Byte>)
    requires Waiting(s) && Fits(r) && r.ty != FCGI_BEGIN_REQUEST && r.id == s.req.id && r.id != 0
    requires (r.ty != 0 || r.content == []) && s.rest == HeaderOf(r) + rest
    ensures !Fill(s).req.begun && Fill(s).closed
  {
    hide Fill, Consume;
    ReadsHeader(s, r, rest);
    HeaderRoundTrip(r);
    FillDispatches(s);
  }

  /** An FCGI_GET_VALUES record that breaks off, or of which the content does. */
  lemma {:induction false} NoValues(s: State, r: Record, rest: seq<Byte>)
    requires Waiting(s) && Fits(r) && AsksValues(r) && s.rest == HeaderOf(r) + rest
    requires var u := s.(rest := rest, pending := |r.content|, padding := |r.padding|, eor := true);
             RecordEnd(u).errno != 0 || !Decode(RecordContent(u)).ok
    ensures !Fill(s).req.begun
  {
    hide Fill, Consume, RecordEnd, RecordContent, Decode, SumsFit, Answerable;
    ReadsHeader(s, r, rest);
    HeaderRoundTrip(r);
    FillDispatches(s);
  }

  /** A record with content at hand, or that breaks off. */
  lemma {:induction false} NoEnd(s: State, r: Record, rest: seq<Byte>)
    requires Waiting(s) && Fits(r) && r.ty != FCGI_BEGIN_REQUEST && !AsksValues(r)
    requires r.id == s.req.id && r.id != 0 ==> r.ty == 0 && r.content != []
    requires s.rest == HeaderOf(r) + rest
    requires (!Skips(s, r) && r.content != []) || |rest| < |r.content| + |r.padding|
    ensures !Fill(s).req.begun
  {
    hide Fill;
    FillMet(s, r, rest);
    FillStops(Met(s, r, rest));
  }

  lemma FrontRest(w: seq<Byte>) returns (rest: seq<Byte>)
    requires |w| >= FCGI_HEADER_LEN && w[0] == FCGI_VERSION_1
    ensures w == HeaderOf(FrontRecord(w)) + rest && |rest| == |w| - FCGI_HEADER_LEN
  {
    FrontHeader(w);
    rest := w[FCGI_HEADER_LEN..];
  }

  /** A front record that is neither a readable beginning nor passed by. */
  lemma {:induction false} Obstacle(s: State, r: Record, rest: seq<Byte>)
    requires Waiting(s) && Fits(r) && s.rest == HeaderOf(r) + rest
    requires |rest| < |r.content| + |r.padding| || s.rest == Encode(r) + rest[|r.content| + |r.padding|..]
    requires !(Beginning(r) && !s.skip && |rest| >= 8)
    requires !(PassedBy(s.req.id, s.skip, r) && |rest| >= |r.content| + |r.padding|)
    ensures !Fill(s).req.begun
  {
    hide Fill, Consume, Encode, RecordEnd, RecordContent, Decode, SumsFit, Answerable, EncodeAll;
    if r.ty == FCGI_BEGIN_REQUEST {
      NoBeginning(s, r, rest);
    } else if AsksValues(r) {
      ValuesBreak(s, r, rest);
      NoValues(s, r, rest);
    } else if r.id == s.req.id && r.id != 0 && (r.ty != 0 || r.content == []) {
      LeftOver(s, r, rest);
    } else {
      NoEnd(s, r, rest);
    }
  }

  lemma ValuesBreak(s: State, r: Record, rest: seq<Byte>)
    requires Waiting(s) && Fits(r) && AsksValues(r) && s.rest == HeaderOf(r) + rest
    requires |rest| < |r.content| + |r.padding| || s.rest == Encode(r) + rest[|r.content| + |r.padding|..]
    requires |rest| < |r.content| + |r.padding| || !Decode(Kept(s.skip, r.content)).ok
    ensures var u := s.(rest := rest, pending := |r.content|, padding := |r.padding|, eor := true);
            RecordEnd(u).errno != 0 || !Decode(RecordContent(u)).ok
  {
    if |rest| >= |r.content| + |r.padding| {
      var tail := rest[|r.content| + |r.padding|..];
      HeaderFirst(r, tail);
      DropAppend(HeaderOf(r), rest);
      DropAppend(HeaderOf(r), r.content + (r.padding + tail));
      DropAppend(r.content, r.padding + tail);
      hide Decode;
      NothingDecodes();
    }
  }

  /** A request begins if and only if the wire is records passed by and then a beginning that can be read. */
  lemma {:induction false} BegunIff(s: State)
    requires Waiting(s)
    ensures Fill(s).req.begun <==> exists fronts, b, more :: Opens(s.req.id, s.skip, s.rest, fronts, b, more)
    decreases |s.rest|
  {
    hide Fill, Encode, Deliver, Opens, PassedBy;
    if fronts, b, more :| Opens(s.req.id, s.skip, s.rest, fronts, b, more) {
      OpeningIsRead(s, fronts, b, more);
      OpensBeginning(s.req.id, s.skip, s.rest, fronts, b, more);
    }
    if Fill(s).req.begun {
      OpensIfBegun(s);
    }
  }

  lemma OpensBeginning(id: int, skip: bool, w: seq<Byte>, fronts: seq<Record>, b: Record, more: seq<Byte>)
    requires Opens(id, skip, w, fronts, b, more)
    ensures Beginning(b)
  {
  }

  lemma {:induction false} NothingBegins(s: State)
    requires Waiting(s) && (|s.rest| < FCGI_HEADER_LEN || s.rest[0] != FCGI_VERSION_1)
    ensures !Fill(s).req.begun
  {
    hide Fill, Consume;
    if |s.rest| < FCGI_HEADER_LEN {
      FillAtEnd(s, s.rest);
    } else {
      BeforeHeader(s);
      AtHeader(s);
      FillDispatches(s);
    }
  }

  lemma {:induction false} OpensIfBegun(s: State)
    requires Waiting(s) && Fill(s).req.begun
    ensures exists fronts, b, more :: Opens(s.req.id, s.skip, s.rest, fronts, b, more)
    decreases |s.rest|
  {
    hide Fill, Encode, Deliver, PassedBy, Opens;
    if |s.rest| < FCGI_HEADER_LEN || s.rest[0] != FCGI_VERSION_1 {
      NothingBegins(s);
    } else {
      var r := FrontRecord(s.rest);
      var rest := FrontRest(s.rest);
      FrontWhole(s.rest);
      if Beginning(r) && !s.skip && |rest| >= 8 {
        BeginsAtOnce(s.req.id, s.rest, rest);
      } else if PassedBy(s.req.id, s.skip, r) && |rest| >= |r.content| + |r.padding| {
        var tail := s.rest[|Encode(r)|..];
        var o := Deliver(s.req.id, s.skip, r);
        if tail == [] && AsksValues(r) {
          NothingFollows(s, r);
        } else {
          FillPassed(s, r, tail);
          OpensIfBegun(After(s, tail, o));
          OneMoreFront(s.req.id, s.skip, r, tail);
        }
      } else {
        Obstacle(s, r, rest);
      }
    }
  }

  lemma BeginsAtOnce(id: int, w: seq<Byte>, rest: seq<Byte>)
    requires |w| >= FCGI_HEADER_LEN && Beginning(FrontRecord(w)) && w == HeaderOf(FrontRecord(w)) + rest && |rest| >= 8
    ensures exists fronts, b, more :: Opens(id, false, w, fronts, b, more)
  {
    var b := FrontRecord(w);
    DropAppend(HeaderOf(b), rest);
    assert w[FCGI_HEADER_LEN..] == rest;
    assert b.content == rest[..8];
    assert rest == b.content + rest[8..];
    assert EncodeAll([]) + (HeaderOf(b) + (b.content + rest[8..])) == w;
    assert Opens(id, false, w, [], b, rest[8..]);
  }

  lemma OneMoreFront(id: int, skip: bool, r: Record, w: seq<Byte>)
    requires PassedBy(id, skip, r) && exists fronts, b, more :: Opens(id, Deliver(id, skip, r).skip, w, fronts, b, more)
    ensures exists fronts, b, more :: Opens(id, skip, Encode(r) + w, fronts, b, more)
  {
    hide Encode, Deliver, PassedBy;
    var fronts, b, more :| Opens(id, Deliver(id, skip, r).skip, w, fronts, b, more);
    assert ([r] + fronts)[1..] == fronts;
    Assoc(Encode(r), EncodeAll(fronts), HeaderOf(b) + (b.content + more));
    assert Opens(id, skip, Encode(r) + w, [r] + fronts, b, more);
  }

  /** An FCGI_GET_VALUES record at the very end. */
  lemma {:induction false} NothingFollows(s: State, r: Record)
    requires Waiting(s) && PassedBy(s.req.id, s.skip, r) && AsksValues(r) && s.rest == Encode(r) + []
    ensures !Fill(s).req.begun
  {
    hide Fill, Encode, Decode, SumsFit, Answerable, RecordContent, RecordEnd;
    if Shows(s, r) {
      FillValues(s, r, []);
      FillAtEnd(After(s, [], Deliver(s.req.id, s.skip, r)), []);
    } else {
      HeaderFirst(r, []);
      UnpaddedAtEnd(s, r);
      NoValues(s, r, r.content + (r.padding + []));
    }
  }
}
