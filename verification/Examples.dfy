/** The smallest wires on which the code does not do what one would expect of it. */
module Examples {
  import opened Bytes
  import opened Wire
  import opened NameValue
  import opened ReaderSpec
  import opened ReaderLaws
  import opened WriterSpec
  import opened Demux
  import opened Breaks
  import opened Openings
  import opened Lifecycle

  const A_IS_1: Pair := Pair([65], [49])
  const PARAMETERS: Record := Record(FCGI_PARAMS, 1, [1, 1, 65, 49], [], 0)
  const INPUT: Record := Record(FCGI_STDIN, 1, [7], [], 0)
  const END_OF_INPUT: Record := Record(FCGI_STDIN, 1, [], [], 0)

  function BeginRecordOf(id: nat, role: Byte, padding: seq<Byte>): Record {
    Record(FCGI_BEGIN_REQUEST, id, [0, role, 0, 0, 0, 0, 0, 0], padding, 0)
  }

  function EndOfParameters(padding: seq<Byte>): Record {
    Record(FCGI_PARAMS, 1, [], padding, 0)
  }

  /** A stream of request 1 over `w`. */
  function StreamOf(ty: Byte, w: seq<Byte>): State {
    State(w, 0, 0, 0, false, false, ty as int, false, 0, RequestInfo(1, FCGI_RESPONDER, true, false), [], true)
  }

  lemma {:induction false} OneRecord(ty: int, r: Record)
    requires Regular(1, ty, false, r)
    ensures AllRegular(1, ty, false, [r]) && DeliverAll(1, false, [r]) == Deliver(1, false, r)
  {
    hide Regular;
    var o := Deliver(1, false, r);
    assert [r][1..] == [];
    assert DeliverAll(1, o.skip, []) == Outcome(o.skip, [], [], true);
    assert o.content + [] == o.content && o.reply + [] == o.reply;
  }

  /** An end of the parameters with one byte of padding: the input's byte 7 never arrives. */
  lemma {:induction false} PaddedTerminatorExample(padding: seq<Byte>)
    requires padding == [] || padding == [0]
    ensures var w := Encode(EndOfParameters(padding)) + (Encode(INPUT) + (Encode(END_OF_INPUT) + []));
            var t := SetType(Drain(StreamOf(FCGI_PARAMS, w)).1, FCGI_STDIN as int);
            (padding == [] ==> Drain(t).0 == [7] && Drain(t).1.errno == 0) &&
            (padding == [0] ==> Drain(t).0 == [] && Drain(t).1.errno != 0)
  {
    hide Drain, Encode, DeliverAll, AllRegular;
    var end := EndOfParameters(padding);
    var more := Encode(INPUT) + (Encode(END_OF_INPUT) + []);
    var s := StreamOf(FCGI_PARAMS, Encode(end) + more);
    Nothing(s);
    OneRecord(FCGI_STDIN as int, INPUT);
    EncodeAllOne(INPUT);
    NextStreamIff(s, FCGI_STDIN, [], end, [INPUT], END_OF_INPUT, []);
    PaddedTerminator(s, FCGI_STDIN, [], end, more);
  }

  lemma Nothing(s: State)
    ensures AllRegular(s.req.id, s.ty, s.skip, []) && s.rest == EncodeAll([]) + s.rest
  {
  }

  /** An end of the parameters whose padding is two records: their byte 9 arrives, and not the input's. */
  lemma {:induction false} SmuggledExample(tail: seq<Byte>)
    ensures var inner := Record(FCGI_STDIN, 1, [9], [], 0);
            var w := Encode(EndOfParameters(Encode(inner) + Encode(END_OF_INPUT))) + tail;
            var t := SetType(Drain(StreamOf(FCGI_PARAMS, w)).1, FCGI_STDIN as int);
            Drain(t).0 == [9] && Drain(t).1.errno == 0
  {
    hide Drain, Encode, DeliverAll, AllRegular;
    var inner := Record(FCGI_STDIN, 1, [9], [], 0);
    var end := EndOfParameters(Encode(inner) + Encode(END_OF_INPUT));
    var s := StreamOf(FCGI_PARAMS, Encode(end) + tail);
    Nothing(s);
    OneRecord(FCGI_STDIN as int, inner);
    EncodeAllOne(inner);
    PaddingIsRead(s, FCGI_STDIN, [], end, [inner], END_OF_INPUT, tail);
  }

  lemma ParametersDecode()
    ensures var fs := [Form(false, false)];
            EncodablePairs([A_IS_1], fs) && EncodePairs([A_IS_1], fs) == PARAMETERS.content &&
            Decode(PARAMETERS.content) == Decoded([A_IS_1], true)
  {
    OnePair(A_IS_1, Form(false, false));
    ShortPair([65], [49]);
    PairsRoundTrip([A_IS_1], [Form(false, false)]);
  }

  /** A beginning at the very front. */
  lemma Begins(before: RequestInfo, padding: seq<Byte>, tail: seq<Byte>)
    requires |padding| < 256
    ensures Opening(before, [], BeginRecordOf(1, FCGI_RESPONDER, padding))
    ensures var w := Encode(BeginRecordOf(1, FCGI_RESPONDER, padding)) + tail; EncodeAll([]) + w == w
  {
  }

  /** A beginning with one byte of padding: the parameter A=1 never arrives. */
  lemma {:induction false} PaddedBeginningExample(before: RequestInfo, sent: seq<Byte>, padding: seq<Byte>)
    requires padding == [] || padding == [0]
    ensures var w := Encode(BeginRecordOf(1, FCGI_RESPONDER, padding)) +
                     (Encode(PARAMETERS) + (Encode(EndOfParameters([])) + []));
            var served := Attempted(NewReader(Arrival(w, 0), before, sent));
            served.Request? && served.params[1..] == if padding == [] then [Entry(A_IS_1)] else []
  {
    hide Attempted, Encode, DeliverAll, AllRegular, AllPassedBy, EncodePairs, Decode;
    var b := BeginRecordOf(1, FCGI_RESPONDER, padding);
    var more := Encode(PARAMETERS) + (Encode(EndOfParameters([])) + []);
    var a := Arrival(Encode(b) + more, 0);
    Begins(before, padding, more);
    if padding == [] {
      ParametersDecode();
      OneRecord(FCGI_PARAMS as int, PARAMETERS);
      EncodeAllOne(PARAMETERS);
      PaddedBeginningIff(a, before, sent, [], b, [PARAMETERS], EndOfParameters([]), [A_IS_1], [Form(false, false)], []);
    } else {
      PaddedBeginning(a, before, sent, [], b, more);
    }
  }

  /** A connection that ends behind its first record of parameters: the request is accepted with A=1,
      although its parameters were never ended. */
  lemma {:induction false} BrokenParametersExample(before: RequestInfo, sent: seq<Byte>)
    ensures var w := Encode(BeginRecordOf(1, FCGI_RESPONDER, [])) + Encode(PARAMETERS);
            var served := Attempted(NewReader(Arrival(w, 0), before, sent));
            served.Request? && served.params[1..] == [Entry(A_IS_1)] && served.state.errno == FCGX_PROTOCOL_ERROR
  {
    hide Attempted, Encode, DeliverAll, AllRegular, AllPassedBy, Decode;
    var b := BeginRecordOf(1, FCGI_RESPONDER, []);
    ParametersDecode();
    OneRecord(FCGI_PARAMS as int, PARAMETERS);
    EncodeAllOne(PARAMETERS);
    Begins(before, [], Encode(PARAMETERS));
    assert EncodeAll([PARAMETERS]) + BreakBytes(NoHeader([])) == Encode(PARAMETERS);
    assert PARAMETERS.content + [] == PARAMETERS.content;
    BrokenParameters(Arrival(Encode(b) + Encode(PARAMETERS), 0), before, sent, [], b, [PARAMETERS], NoHeader([]));
  }

  /** A whole request for which nothing stands in front but one record. */
  function Behind(front: Record): Arrival {
    Arrival(Encode(front) + (Encode(BeginRecordOf(1, FCGI_RESPONDER, [])) + (Encode(EndOfParameters([])) + [])), 0)
  }

  lemma {:induction false} OneFront(id: int, r: Record)
    requires PassedBy(id, false, r)
    ensures AllPassedBy(id, false, [r]) && DeliverAll(id, false, [r]) == Deliver(id, false, r)
  {
    hide PassedBy;
    var o := Deliver(id, false, r);
    assert [r][1..] == [];
    assert DeliverAll(id, o.skip, []) == Outcome(o.skip, [], [], true);
    assert o.content + [] == o.content && o.reply + [] == o.reply;
  }

  /** An empty record of request 2 in front of the beginning of request 1: the request is never served. */
  lemma {:induction false} ArmedBeginningExample(before: RequestInfo, sent: seq<Byte>)
    requires before.id != 2
    ensures Attempted(NewReader(Behind(Record(FCGI_STDIN, 2, [], [], 0)), before, sent)).Refused?
  {
    hide Attempted, Encode, DeliverAll, AllPassedBy;
    var front := Record(FCGI_STDIN, 2, [], [], 0);
    OneFront(before.id, front);
    EncodeAllOne(front);
    ArmedBeginning(Behind(front), before, sent, [front], BeginRecordOf(1, FCGI_RESPONDER, []),
                   Encode(EndOfParameters([])) + []);
  }

  /** A record of input left over from request 1 in front of the next beginning: with request 1 as the one
      before, the next is never served; with any other it is. */
  lemma {:induction false} LeftOverExample(before: RequestInfo, sent: seq<Byte>)
    ensures Attempted(NewReader(Behind(INPUT), before, sent)).Request? <==> before.id != 1
  {
    hide Attempted, Encode, DeliverAll, AllRegular, AllPassedBy, Decode, Opens, EncodePairs;
    var a, b := Behind(INPUT), BeginRecordOf(1, FCGI_RESPONDER, []);
    var more := Encode(EndOfParameters([])) + [];
    if before.id == 1 {
      HeaderFirst(INPUT, Encode(b) + more);
      NoFronts(before.id, a.bytes);
      LeftOverRecord(a, before, sent, [], INPUT, INPUT.content + (INPUT.padding + (Encode(b) + more)));
    } else {
      OneFront(before.id, INPUT);
      EncodeAllOne(INPUT);
      Begins(before, [], more);
      assert EncodeAll([]) + more == more;
      Nothing(StreamOf(FCGI_PARAMS, []));
      NoPairs();
      PaddedBeginningIff(a, before, sent, [INPUT], b, [], EndOfParameters([]), [], [], []);
    }
  }

  lemma NoFronts(id: int, w: seq<Byte>)
    ensures AllPassedBy(id, false, []) && EncodeAll([]) + w == w
  {
  }

  lemma NoPairs()
    ensures EncodablePairs([], []) && DeliverAll(1, false, []).content == EncodePairs([], [])
  {
  }

  /** An FCGI_GET_VALUES record asks for the name that is a single NUL: no '=' is found to write through. */
  lemma {:induction false} NulNameExample(ty: int)
    ensures var r := Record(FCGI_GET_VALUES, 0, [1, 0, 0], [], 0);
            Regular(1, ty, false, r) && !Deliver(1, false, r).defined
  {
    hide Decode, EncodePairs, SumsFit, Answerable, Known;
    var p, f := Pair([0], []), Form(false, false);
    var r := Record(FCGI_GET_VALUES, 0, [1, 0, 0], [], 0);
    OnePair(p, f);
    assert EncodePair(p, f) == [1, 0, 0];
    PairsRoundTrip([p], [f]);
    ValuesDefinedIff(1, r, [p], [f]);
    assert p in [p] && !EqFirst(p.name);
  }

  /** An empty FCGI_GET_VALUES as the last record of a connection: with a byte of padding it is answered,
      without any it is not. */
  lemma {:induction false} ValuesAtEndExample(padding: seq<Byte>)
    requires padding == [] || padding == [0]
    ensures var r := Record(FCGI_GET_VALUES, 0, [], padding, 0);
            (Drain(StreamOf(FCGI_STDIN, Encode(r))).1.sent != [] <==> padding == [0])
  {
    hide Drain, Encode, Decode;
    var r := Record(FCGI_GET_VALUES, 0, [], padding, 0);
    var s := StreamOf(FCGI_STDIN, Encode(r));
    NothingDecodes();
    ValuesAtEnd(s, r);
    EncodeAllOne(Deliver(1, false, r).reply[0]);
  }

  // ---------------------------------------------------------------------------------------
  // Records byte by byte, as section 3.3 and section 8 have them.

  lemma HeaderExample()
    ensures Encode(Record(FCGI_BEGIN_REQUEST, 258, [], [], 9)) == [1, 1, 1, 2, 0, 0, 0, 9]
    ensures Encode(Record(FCGI_PARAMS, 1, [7], [8, 9], 0)) == [1, 4, 0, 1, 0, 1, 2, 0, 7, 8, 9]
    ensures Encode(INPUT) == [1, 5, 0, 1, 0, 1, 0, 0, 7]
    ensures Encode(Record(FCGI_DATA, 1, [], [], 0)) == [1, 8, 0, 1, 0, 0, 0, 0]
    ensures Encode(Record(FCGI_GET_VALUES, 0, [], [], 0)) == [1, 9, 0, 0, 0, 0, 0, 0]
  {
  }

  lemma LongHeaderExample(content: seq<Byte>)
    requires |content| == 513
    ensures Encode(Record(FCGI_STDIN, 1, content, [], 0))[..8] == [1, 5, 0, 1, 2, 1, 0, 0]
  {
  }

  lemma WrittenExample()
    ensures Encode(DataRecord(FCGI_STDOUT, 1, [7])) == [1, 6, 0, 1, 0, 1, 7, 0, 7, 0, 0, 0, 0, 0, 0, 0]
    ensures Encode(DataRecord(FCGI_STDERR, 1, [])) == [1, 7, 0, 1, 0, 0, 0, 0]
  {
  }

  lemma RepliesExample()
    ensures Encode(EndRequest(1, 0x0102_0304, FCGI_REQUEST_COMPLETE)) ==
            [1, 3, 0, 1, 0, 8, 0, 0, 1, 2, 3, 4, 0, 0, 0, 0]
    ensures Encode(EndRequest(1, 0, FCGI_CANT_MPX_CONN)) == [1, 3, 0, 1, 0, 8, 0, 0, 0, 0, 0, 0, 1, 0, 0, 0]
    ensures Encode(UnknownType(12)) == [1, 11, 0, 0, 0, 8, 0, 0, 12, 0, 0, 0, 0, 0, 0, 0]
  {
  }

  lemma {:induction false} AnswerText()
    ensures Answers([Entry(Pair(Ascii("FCGI_MPXS_CONNS"), []))]) == [15, 1] + Ascii("FCGI_MPXS_CONNS0")
  {
    var p := Pair(Ascii("FCGI_MPXS_CONNS"), []);
    var e := Entry(p);
    assert |e| == 16 && e[..15] == p.name && e[15] == EQ;
    NameOfExample(p);
    assert [e][..0] == [];
    assert Answers([e]) == [] + Answer(e);
    assert Ascii("FCGI_MPXS_CONNS0") == p.name + Ascii("0");
  }

  lemma NameOfExample(p: Pair)
    requires p == Pair(Ascii("FCGI_MPXS_CONNS"), [])
    ensures Answer(Entry(p)) == [15, 1] + p.name + Ascii("0")
  {
    hide Answer;
    var e := Entry(p);
    assert |e| == 16 && e[..15] == p.name && e[15] == EQ;
    IndexOfUnique(e, EQ, 15);
    IndexOfUnique(p.name, 0, 15);
    assert p.name[..15] == p.name;
    AnswerToName(e, p.name);
  }

  lemma AnswerToName(e: seq<Byte>, name: seq<Byte>)
    requires CString(e[..IndexOf(e, EQ)]) == name == Ascii("FCGI_MPXS_CONNS")
    ensures Answer(e) == [15, 1] + name + Ascii("0")
  {
    hide CString, IndexOf;
    assert |Ascii("FCGI_MAX_CONNS")| == 14 && |Ascii("FCGI_MAX_REQS")| == 13 && |name| == 15;
  }

  lemma {:induction false} ValuesExample()
    ensures Encode(GetValuesResult([Entry(Pair(Ascii("FCGI_MPXS_CONNS"), []))])) ==
            [1, 10, 0, 0, 0, 18, 6, 0, 15, 1] + Ascii("FCGI_MPXS_CONNS0") + [0, 0, 0, 0, 0, 0]
  {
    hide Answers, Ascii, Entry;
    var es, text := [Entry(Pair(Ascii("FCGI_MPXS_CONNS"), []))], Ascii("FCGI_MPXS_CONNS0");
    AnswerText();
    PaddedText(es, text);
  }

  lemma PaddedText(entries: seq<seq<Byte>>, text: seq<Byte>)
    requires Answers(entries) == [15, 1] + text && |text| == 16
    ensures Encode(GetValuesResult(entries)) == [1, 10, 0, 0, 0, 18, 6, 0, 15, 1] + text + [0, 0, 0, 0, 0, 0]
  {
    hide Answers;
    assert Zeros(6) == [0, 0, 0, 0, 0, 0];
    Assoc([1, 10, 0, 0, 0, 18, 6, 0], [15, 1], text);
  }

  lemma ErrorExample()
    ensures BreakCode(0, NoHeader([])) == -3 && BreakCode(104, NoHeader([])) == 104
    ensures BreakCode(0, BadHeader([2])) == -2 && BreakCode(0, BadHeader([1])) == -3
    ensures BreakCode(104, Garbled(INPUT, [0])) == -4 && FCGX_CALL_SEQ_ERROR == -5
  {
  }
}
