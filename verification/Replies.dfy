/** What reading makes the library write: whole records, whatever arrives. */
module Replies {
  import opened Bytes
  import opened Wire
  import opened NameValue
  import opened ReaderSpec
  import opened ReaderLaws

  /** An answer to a management record, or to a second beginning. */
  predicate IsReply(r: Record) {
    Fits(r) && (r.ty == FCGI_GET_VALUES_RESULT || r.ty == FCGI_UNKNOWN_TYPE ||
                (r.ty == FCGI_END_REQUEST && r.content == EndRequestBody(0, FCGI_CANT_MPX_CONN)))
  }

  /** `t` was reached from `s` by writing `rs`, which are replies as long as nothing undefined was met. */
  predicate Answered(s: State, t: State, rs: seq<Record>) {
    && t.sent == s.sent + EncodeAll(rs) && (t.defined ==> s.defined)
    && (t.defined ==> forall r :: r in rs ==> IsReply(r))
  }

  lemma AnsweredNothing(s: State, t: State)
    requires t.sent == s.sent && (t.defined ==> s.defined)
    ensures Answered(s, t, [])
  {
    EncodeAllNothing(s.sent);
  }

  lemma AnsweredOnce(s: State, t: State, r: Record)
    requires t.sent == s.sent + Encode(r) && (t.defined ==> s.defined && IsReply(r))
    ensures Answered(s, t, [r])
  {
    EncodeAllOne(r);
  }

  lemma AnsweredTwice(s: State, t: State, u: State, a: seq<Record>, b: seq<Record>)
    requires Answered(s, t, a) && Answered(t, u, b)
    ensures Answered(s, u, a + b)
  {
    EncodeAllMore(s.sent, a, b);
  }

  lemma ConsumeWritesNothing(s: State)
    requires !s.closed
    ensures match Consume(s)
            case Done(t) => t.sent == s.sent && t.defined == s.defined
            case At(_, t) => t.sent == s.sent && t.defined == s.defined
  {
  }

  lemma RecordEndWritesNothing(s: State)
    requires !s.closed && s.eor
    ensures RecordEnd(s).sent == s.sent && RecordEnd(s).defined == s.defined
  {
  }

  lemma {:induction false} ManagementReplies(ty: Byte, s: State) returns (rs: seq<Record>)
    requires !s.closed && s.eor
    ensures Answered(s, ProcessManagement(ty, s).1, rs)
  {
    hide RecordEnd, RecordContent, Decode, SumsFit, Answerable, Answers, GetValuesResult, UnknownType, Encode, Answered;
    RecordEndWritesNothing(s);
    var t := ProcessManagement(ty, s).1;
    if ProcessManagement(ty, s).0.Error? {
      AnsweredNothing(s, t);
      return [];
    }
    var entries := Entries(Decode(RecordContent(s)).pairs);
    var r := if ty == FCGI_GET_VALUES then GetValuesResult(entries) else UnknownType(ty);
    if t.defined {
      ReplyFits(ty, entries);
    }
    AnsweredOnce(s, t, r);
    return [r];
  }

  lemma ReplyFits(ty: Byte, entries: seq<seq<Byte>>)
    ensures Answerable(entries) ==> IsReply(GetValuesResult(entries))
    ensures IsReply(UnknownType(ty))
  {
    if Answerable(entries) {
      AnswerableFits(entries);
    }
  }

  lemma {:induction false} HeaderReplies(h: seq<Byte>, s: State) returns (rs: seq<Record>)
    requires |h| == FCGI_HEADER_LEN && !s.closed && s.eor
    ensures Answered(s, ProcessHeader(h, s).1, rs)
  {
    hide RecordEnd, ProcessManagement, Answered, Encode;
    var id := HeaderId(h);
    var t := s.(pending := HeaderContentLen(h), padding := h[6]);
    AnsweredNothing(s, t);
    if h[0] != FCGI_VERSION_1 {
      AnsweredNothing(s, s);
      return [];
    } else if h[1] == FCGI_BEGIN_REQUEST {
      RecordEndWritesNothing(t.(req := t.req.(id := id)));
      if id != 0 && t.pending == 8 && s.req.begun {
        AnsweredOnce(s, ProcessHeader(h, s).1, EndRequest(id, 0, FCGI_CANT_MPX_CONN));
        return [EndRequest(id, 0, FCGI_CANT_MPX_CONN)];
      }
      AnsweredNothing(s, ProcessHeader(h, s).1);
      return [];
    } else if id == 0 {
      rs := ManagementReplies(h[1], t);
      AnsweredTwice(s, t, ProcessHeader(h, s).1, [], rs);
      assert [] + rs == rs;
    } else {
      return [];
    }
  }

  lemma {:induction false} DispatchReplies(h: seq<Byte>, s: State) returns (rs: seq<Record>)
    requires |h| == FCGI_HEADER_LEN && !s.closed
    ensures Answered(s, Dispatch(h, s).state, rs)
  {
    hide ProcessHeader, IsReply;
    rs := HeaderReplies(h, s.(eor := true));
  }

  /** Filling writes whole records. */
  lemma {:induction false} FillReplies(s: State) returns (rs: seq<Record>)
    requires !s.closed
    ensures Answered(s, Fill(s), rs)
    decreases |s.rest|
  {
    hide Consume, Dispatch, Answered;
    ConsumeWritesNothing(s);
    match Consume(s) {
      case Done(t) =>
        AnsweredNothing(s, t);
        rs := [];
      case At(h, t) =>
        AnsweredNothing(s, t);
        rs := DispatchReplies(h, t);
        AnsweredTwice(s, t, Dispatch(h, t).state, [], rs);
        assert [] + rs == rs;
        if Dispatch(h, t).Loop? {
          var more := FillReplies(Dispatch(h, t).state);
          AnsweredTwice(s, Dispatch(h, t).state, Fill(s), rs, more);
          rs := rs + more;
        }
    }
  }

  lemma {:induction false} GetByteReplies(s: State) returns (rs: seq<Record>)
    requires Live(s)
    ensures Answered(s, GetByte(s).0, rs)
  {
    hide Fill, IsReply;
    if s.closed {
      AnsweredNothing(s, s);
      rs := [];
    } else {
      rs := FillReplies(s);
    }
  }

  /** So does any read. */
  lemma {:induction false} GetBytesReplies(s: State, n: nat) returns (rs: seq<Record>)
    requires Live(s)
    ensures Answered(s, GetBytes(s, n).0, rs)
    decreases n
  {
    hide GetByte, Answered;
    AnsweredNothing(s, s);
    if n == 0 {
      rs := [];
    } else {
      rs := GetByteReplies(s);
      if GetByte(s).1 >= 0 {
        var more := GetBytesReplies(GetByte(s).0, n - 1);
        AnsweredTwice(s, GetByte(s).0, GetBytes(s, n).0, rs, more);
        rs := rs + more;
      }
    }
  }

  lemma {:induction false} DrainReplies(s: State) returns (rs: seq<Record>)
    requires Live(s)
    ensures Answered(s, Drain(s).1, rs)
    decreases |s.rest|
  {
    hide GetByte, Answered;
    rs := GetByteReplies(s);
    if GetByte(s).1 >= 0 {
      var more := DrainReplies(GetByte(s).0);
      AnsweredTwice(s, GetByte(s).0, Drain(s).1, rs, more);
      rs := rs + more;
    }
  }
}
