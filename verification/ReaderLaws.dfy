/** Laws of reading: what a mix of reads delivers, and the steps by which a buffer may be consumed. */
module ReaderLaws {
  import opened Bytes
  import opened Wire
  import opened NameValue
  import opened ReaderSpec

  /** Taking `n` content bytes that are at hand. */
  function Advance(s: State, n: nat): State
    requires n <= s.pending && n <= |s.rest|
  {
    s.(rest := s.rest[n..], pending := s.pending - n)
  }

  lemma AdvanceTwice(s: State, m: nat, n: nat)
    requires m + n <= s.pending && m + n <= |s.rest|
    ensures Advance(Advance(s, m), n) == Advance(s, m + n)
  {
    assert s.rest[m..][n..] == s.rest[m + n..];
  }

  /** Content at hand is delivered as it stands. */
  lemma {:induction false} GetBytesAtHand(s: State, n: nat)
    requires Live(s) && !s.closed && !s.skip && n <= s.pending && n <= |s.rest|
    ensures GetBytes(s, n) == (Advance(s, n), s.rest[..n])
    decreases n
  {
    if n > 0 {
      assert GetByte(s) == (Advance(s, 1), s.rest[0] as int);
      GetBytesAtHand(Advance(s, 1), n - 1);
      AdvanceTwice(s, 1, n - 1);
      HeadAndTail(s.rest, n);
    } else {
      assert s.rest[0..] == s.rest;
    }
  }

  /** Reading `m` bytes and then `n` is reading `m + n`. */
  lemma {:induction false} GetBytesTwice(s: State, m: nat, n: nat)
    requires Live(s)
    ensures var (t, a) := GetBytes(s, m); var (u, b) := GetBytes(t, n);
            GetBytes(s, m + n) == (u, a + b)
    decreases m
  {
    hide Fill, GetByte;
    if m > 0 {
      var (t, c) := GetByte(s);
      if c >= 0 {
        GetBytesTwice(t, m - 1, n);
        var (v, a) := GetBytes(t, m - 1);
        var (u, b) := GetBytes(v, n);
        assert GetBytes(s, m) == (v, [c as Byte] + a);
        assert GetBytes(s, m + n) == (u, [c as Byte] + (a + b)) by { assert m + n - 1 == m - 1 + n; }
        Assoc([c as Byte], a, b);
      } else {
        ClosedDelivers(t, n);
        assert [] + GetBytes(t, n).1 == [];
      }
    } else {
      assert [] + GetBytes(s, n).1 == GetBytes(s, n).1;
    }
  }

  lemma NoBytes(s: State, n: nat)
    requires Live(s) && (s.closed || n == 0)
    ensures GetBytes(s, n) == (s, [])
  {
  }

  lemma ClosedDelivers(s: State, n: nat)
    requires s.closed
    ensures GetBytes(s, n) == (s, []) && Drain(s) == ([], s)
  {
  }

  /** A read takes its bytes off the front of what the stream will deliver and leaves the remainder;
      it is short only when the stream has delivered everything. */
  lemma {:induction false} GetBytesIsAPrefix(s: State, n: nat)
    requires Live(s)
    ensures var (t, bs) := GetBytes(s, n);
            Drain(s) == (bs + Drain(t).0, Drain(t).1) &&
            (|bs| < n ==> Drain(s) == (bs, t)) &&
            bs == Drain(s).0[..Min(n, |Drain(s).0|)]
    decreases n
  {
    hide Fill, GetByte, Drain;
    if n > 0 {
      var (t, c) := GetByte(s);
      DrainByByte(s);
      if c >= 0 {
        GetBytesIsAPrefix(t, n - 1);
        var (u, bs) := GetBytes(t, n - 1);
        Assoc([c as Byte], bs, Drain(u).0);
      }
    } else {
      assert [] + Drain(s).0 == Drain(s).0;
    }
  }

  /** Draining byte by byte. */
  lemma DrainByByte(s: State)
    requires Live(s)
    ensures var (t, c) := GetByte(s); var (bs, e) := Drain(t);
            Drain(s) == if c < 0 then ([], t) else ([c as Byte] + bs, e)
    ensures GetByte(s).1 < 0 ==> Drain(GetByte(s).0) == ([], GetByte(s).0)
  {
    hide Fill;
  }

  /** Reading never changes the request that began. */
  lemma {:induction false} GetBytesFacts(s: State, n: nat)
    requires Live(s)
    ensures var t := GetBytes(s, n).0; t.ty == s.ty && (s.req.begun ==> t.req == s.req)
    decreases n
  {
    hide Fill, GetByte;
    if n > 0 {
      var (t, c) := GetByte(s);
      if c >= 0 {
        GetBytesFacts(t, n - 1);
      }
    }
  }

  lemma MarkTwice(s: State, a: bool, b: bool)
    ensures Mark(Mark(s, a), b) == Mark(s, a && b) && Mark(s, true) == s
  {
  }

  lemma ConsumeMark(s: State, b: bool)
    requires !s.closed
    ensures Consume(Mark(s, b)) == match Consume(s) case Done(t) => Done(Mark(t, b)) case At(h, t) => At(h, Mark(t, b))
  {
  }

  lemma AfterPairsMark(content: seq<Byte>, end: State, b: bool)
    ensures AfterPairs(content, Mark(end, b)) == Mark(AfterPairs(content, end), b)
  {
    hide Decode, SumsFit;
  }

  lemma {:induction false} FillMark(s: State, b: bool)
    requires !s.closed
    ensures Fill(Mark(s, b)) == Mark(Fill(s), b)
    decreases |s.rest|
  {
    hide Decode, SumsFit, Answerable, GetValuesResult, Encode;
    hide Consume, Dispatch;
    ConsumeMark(s, b);
    if Consume(s).At? {
      DispatchMark(Consume(s).header, Consume(s).after, b);
      var n := Dispatch(Consume(s).header, Consume(s).after);
      if n.Loop? {
        FillMark(n.state, b);
      }
    }
  }

  lemma RecordMark(s: State, b: bool)
    requires !s.closed && s.eor
    ensures RecordContent(Mark(s, b)) == RecordContent(s) && RecordEnd(Mark(s, b)) == Mark(RecordEnd(s), b)
  {
  }

  lemma ManagementMark(ty: Byte, s: State, b: bool)
    requires !s.closed && s.eor
    ensures var (status, t) := ProcessManagement(ty, s); ProcessManagement(ty, Mark(s, b)) == (status, Mark(t, b))
  {
    hide RecordContent, RecordEnd, Decode, AfterPairs, Answerable, GetValuesResult, Encode, UnknownType;
    RecordMark(s, b);
    AfterPairsMark(RecordContent(s), RecordEnd(s), b);
  }

  lemma BeginMark(id: nat, s: State, b: bool)
    requires !s.closed && s.eor
    ensures var (status, t) := ProcessBegin(id, s); ProcessBegin(id, Mark(s, b)) == (status, Mark(t, b))
  {
    hide RecordEnd, Encode, EndRequest;
    RecordMark(s.(req := s.req.(id := id)), b);
  }

  lemma HeaderMark(h: seq<Byte>, s: State, b: bool)
    requires |h| == FCGI_HEADER_LEN && !s.closed && s.eor
    ensures var (status, t) := ProcessHeader(h, s); ProcessHeader(h, Mark(s, b)) == (status, Mark(t, b))
  {
    hide ProcessManagement, ProcessBegin;
    var u := s.(pending := HeaderContentLen(h), padding := h[6]);
    ManagementMark(h[1], u, b);
    BeginMark(HeaderId(h), u, b);
  }

  lemma NextMark(status: Status, s: State, b: bool)
    ensures AfterHeader(status, Mark(s, b)) ==
            match AfterHeader(status, s) case Return(u) => Return(Mark(u, b)) case Loop(u) => Loop(Mark(u, b))
  {
  }

  lemma DispatchMark(h: seq<Byte>, s: State, b: bool)
    requires |h| == FCGI_HEADER_LEN && !s.closed
    ensures Dispatch(h, Mark(s, b)) ==
            match Dispatch(h, s) case Return(u) => Return(Mark(u, b)) case Loop(u) => Loop(Mark(u, b))
  {
    hide ProcessHeader, AfterHeader;
    var u := s.(eor := true);
    HeaderMark(h, u, b);
    NextMark(ProcessHeader(h, u).0, ProcessHeader(h, u).1, b);
  }

  /** What is delivered does not depend on whether the code was defined so far. */
  lemma {:induction false} DrainMark(s: State, b: bool)
    requires Live(s)
    ensures Drain(Mark(s, b)) == (Drain(s).0, Mark(Drain(s).1, b))
    decreases |s.rest|
  {
    hide Fill;
    if !s.closed {
      FillMark(s, b);
      var (t, c) := GetByte(s);
      assert GetByte(Mark(s, b)) == (Mark(t, b), c);
      if c >= 0 {
        DrainMark(t, b);
      }
    }
  }

  /** Within one record the end of the stream is the end of the record. */
  lemma {:induction false} DrainRecord(s: State)
    requires s.eor && !s.closed
    ensures Drain(s) == (RecordContent(s), RecordEnd(s))
    decreases |s.rest|
  {
    hide Fill, Consume;
    if Ready(s) {
      var t := Advance(s, 1);
      FillAtHand(s);
      assert GetByte(s) == (t, s.rest[0] as int);
      DrainRecord(t);
      var n := Min(s.pending, |s.rest|);
      AdvanceTwice(s, 1, n - 1);
      HeadAndTail(s.rest, n);
      assert RecordContent(s) == [s.rest[0]] + RecordContent(t);
      assert RecordEnd(s) == RecordEnd(t);
    } else {
      assert s.skip || Advance(s, 0) == s by { assert s.rest[0..] == s.rest; }
      FillStops(s);
      NothingAtHandCloses(s);
    }
  }

  lemma NothingAtHandCloses(s: State)
    requires !s.closed && s.eor && !Ready(s)
    ensures Consume(s).state.closed
  {
  }

  /** Draining content at hand first. */
  lemma {:induction false} DrainAtHand(s: State, n: nat)
    requires Live(s) && !s.closed && !s.skip && n <= s.pending && n <= |s.rest|
    ensures var d := Drain(Advance(s, n)); Drain(s) == (s.rest[..n] + d.0, d.1)
  {
    GetBytesAtHand(s, n);
    GetBytesIsAPrefix(s, n);
  }

  // ---------------------------------------------------------------------------------------
  // Steps of a buffer: consuming the bytes that happen to be buffered changes nothing.

  /** No byte is left: a partly read header does not matter. */
  lemma FillAtEnd(s: State, header: seq<Byte>)
    requires !s.closed && s.rest == header && |header| < FCGI_HEADER_LEN
    requires header != [] ==> s.pending == 0 && s.padding == 0 && !s.eor
    ensures Fill(s) == Fail(s.(rest := []), EndCode(s.ending))
  {
    if header != [] {
      BeforeHeader(s);
    }
  }

  /** A read that finds nothing more closes the stream with the errno of the failure, or after an orderly end
      with the protocol's. */
  lemma FailingRead(s: State)
    requires !s.closed && s.rest == [] && s.errno == 0
    ensures Fill(s).closed && Fill(s).errno == if s.ending == 0 then FCGX_PROTOCOL_ERROR else s.ending
  {
    FillAtEnd(s, []);
  }

  /** Content at hand is left for the client. */
  lemma FillAtHand(s: State)
    requires Ready(s)
    ensures Fill(s) == s
  {
  }

  /** Dropping part of a skipped record's content. */
  lemma {:induction false} FillSkips(s: State, n: nat)
    requires !s.closed && s.skip && 0 < n <= |s.rest| && n < s.pending
    ensures Fill(Advance(s, n)) == Fill(s)
  {
    hide Fill, PastContent;
    if s.pending <= |s.rest| {
      assert s.rest[n..][s.pending - n..] == s.rest[s.pending..];
    }
    FillByStep(Advance(s, n), s);
  }

  /** A skipped record's content is behind. */
  lemma SkipAll(s: State)
    requires !s.closed && s.skip && 0 < s.pending <= |s.rest|
    ensures Consume(s) == PastContent(s.(rest := s.rest[s.pending..], pending := 0, skip := false))
  {
  }

  lemma NothingToSkip(s: State)
    requires !s.closed && s.pending == 0 && s.rest != []
    ensures Consume(s) == PastContent(s)
  {
  }

  /** Dropping part of the padding: what is past it is where consuming starts over. */
  lemma PadSome(s: State, n: nat)
    requires !s.closed && s.pending == 0 && n <= |s.rest| && n < s.padding
    ensures Consume(s.(rest := s.rest[n..], padding := s.padding - n)) == PastContent(s)
  {
    if s.padding <= |s.rest| {
      assert s.rest[n..][s.padding - n..] == s.rest[s.padding..];
    }
  }

  lemma PadAll(s: State)
    requires s.padding <= |s.rest|
    ensures PastContent(s) == PastPadding(s.(rest := s.rest[s.padding..], padding := 0))
  {
  }

  /** Where consuming starts over with nothing but a header to come. */
  lemma BeforeHeader(s: State)
    requires !s.closed && !s.eor && s.pending == 0 && s.padding == 0
    ensures Consume(s) == PastPadding(s)
  {
    assert s.rest[0..] == s.rest;
  }

  /** Moving bytes from the rest to a partly read header. */
  lemma HeaderBytes(header: seq<Byte>, rest: seq<Byte>, count: nat)
    requires count <= |rest|
    ensures var h := header + rest[..count];
            h + rest[count..] == header + rest && (header + rest)[..|h|] == h && (header + rest)[|h|..] == rest[count..]
  {
    Assoc(header, rest[..count], rest[count..]);
    SplitAt(rest, count, |rest|);
    DropAppend(header + rest[..count], rest[count..]);
  }

  lemma AtHeader(s: State)
    requires !s.eor && |s.rest| >= FCGI_HEADER_LEN
    ensures PastPadding(s) == At(s.rest[..FCGI_HEADER_LEN], s.(rest := s.rest[FCGI_HEADER_LEN..]))
  {
  }

  lemma AtEndOfRecord(s: State)
    requires s.eor
    ensures PastPadding(s) == Done(s.(pending := 0, closed := true))
  {
  }

  /** Filling depends only on where consuming leads. */
  lemma FillByStep(s: State, t: State)
    requires !s.closed && !t.closed && Consume(s) == Consume(t)
    ensures Fill(s) == Fill(t)
  {
  }

  lemma FillStops(s: State)
    requires !s.closed && Consume(s).Done?
    ensures Fill(s) == Consume(s).state
  {
  }

  lemma FillDispatches(s: State)
    requires !s.closed && Consume(s).At?
    ensures var n := Dispatch(Consume(s).header, Consume(s).after);
            Fill(s) == match n case Return(u) => u case Loop(u) => Fill(u)
  {
  }

  /** Filling first does not change what is read. */
  lemma GetBytesAfterFill(s: State, n: nat)
    requires Live(s) && !s.closed && n > 0
    ensures GetBytes(s, n) == if Fill(s).closed then (Fill(s), []) else GetBytes(Fill(s), n)
  {
    hide Consume;
    var t := Fill(s);
    if !t.closed {
      FillAtHand(t);
      hide Fill;
      assert GetByte(s) == GetByte(t);
    }
  }

  lemma GetValuesReply(entries: seq<seq<Byte>>)
    ensures var body := Answers(entries); var pad := AlignInt8(|body|) - |body|;
            Encode(GetValuesResult(entries)) ==
            MakeHeader(FCGI_GET_VALUES_RESULT as int, 0, |body|, pad) + body + Zeros(pad)
  {
  }

  lemma UnknownTypeReply(ty: Byte)
    ensures Encode(UnknownType(ty)) == MakeHeader(FCGI_UNKNOWN_TYPE as int, 0, 8, 0) + UnknownTypeBody(ty)
  {
    assert Encode(UnknownType(ty)) == Header(FCGI_UNKNOWN_TYPE as int, 0, 8, 0, 0) + UnknownTypeBody(ty) + [];
  }

  /** The body of a beginning request, read within its record. */
  lemma {:induction false} BeginBody(s: State)
    requires s.eor && !s.closed && s.pending == 8
    ensures var (t, bs) := GetBytes(s, 8);
            if s.skip || |s.rest| < 8 then |bs| < 8 && t == RecordEnd(s)
            else bs == s.rest[..8] && t == s.(rest := s.rest[8..], pending := 0)
  {
    hide GetBytes, Drain, Fill, RecordEnd, Consume;
    if s.skip || |s.rest| < 8 {
      DrainRecord(s);
      GetBytesIsAPrefix(s, 8);
    } else {
      GetBytesAtHand(s, 8);
    }
  }

  // ---------------------------------------------------------------------------------------
  // Pushing a byte back.

  /** `FCGX_UnGetChar` when it succeeds. */
  function PushBack(s: State, c: Byte): State {
    s.(rest := [c] + s.rest, pending := s.pending + 1)
  }

  /** The byte pushed back is delivered next and the remainder is unchanged. */
  lemma PushBackIsNext(s: State, c: Byte)
    requires Live(s) && !s.closed && !s.skip
    ensures GetByte(PushBack(s, c)) == (s, c as int)
    ensures Drain(PushBack(s, c)) == ([c] + Drain(s).0, Drain(s).1)
  {
    var t := PushBack(s, c);
    assert t.rest[1..] == s.rest;
  }

  // ---------------------------------------------------------------------------------------
  // Whole runs of reads.

  /** `FCGX_GetLine` with room for `n` bytes and a terminator: up to a newline, which is kept. */
  const NEWLINE: Byte := 10

  function GetLine(s: State, n: nat): (r: (State, seq<Byte>))
    requires Live(s)
    ensures Live(r.0)
    decreases n
  {
    if n == 0 then (s, []) else
    var (t, c) := GetByte(s);
    if c < 0 then (t, []) else
    if c == NEWLINE as int then (t, [NEWLINE]) else
    var (u, bs) := GetLine(t, n - 1);
    (u, [c as Byte] + bs)
  }

  /** A line is the prefix up to the first newline, the room or the end, whichever comes first. */
  function LineOf(bs: seq<Byte>, n: nat): seq<Byte> {
    bs[..Min(n, Min(|bs|, IndexOf(bs, NEWLINE) + 1))]
  }

  lemma LineOfMore(c: Byte, d: seq<Byte>, n: nat)
    requires n > 0 && c != NEWLINE
    ensures LineOf([c] + d, n) == [c] + LineOf(d, n - 1)
  {
    var s := [c] + d;
    assert s[1..] == d;
    assert IndexOf(s, NEWLINE) == 1 + IndexOf(d, NEWLINE);
  }

  lemma LineOfNewline(d: seq<Byte>, n: nat)
    requires n > 0
    ensures LineOf([NEWLINE] + d, n) == [NEWLINE]
  {
    assert IndexOf([NEWLINE] + d, NEWLINE) == 0;
  }

  /** A line ends with a byte 10. */
  lemma LineExample()
    ensures LineOf([97, 10, 98, 10], 9) == [97, 10] == LineOf([97, 10, 98, 10], 2) && LineOf([97, 13], 9) == [97, 13]
  {
    LineOfMore(97, [10, 98, 10], 9);
    LineOfMore(97, [10, 98, 10], 2);
    LineOfNewline([98, 10], 8);
    LineOfNewline([98, 10], 1);
    assert [97] + [10, 98, 10] == [97, 10, 98, 10] && [10] + [98, 10] == [10, 98, 10];
    LineOfMore(97, [13], 9);
    LineOfMore(13, [], 8);
    NoLine([]);
    assert [97] + [13] == [97, 13] && [13] + [] == [13];
  }

  lemma {:induction false} GetLineIsAPrefix(s: State, n: nat)
    requires Live(s)
    ensures var (t, bs) := GetLine(s, n);
            Drain(s) == (bs + Drain(t).0, Drain(t).1) && bs == LineOf(Drain(s).0, n)
    decreases n
  {
    hide Fill, GetByte, LineOf, Drain;
    if n == 0 {
      NoLine(Drain(s).0);
    } else {
      var (t, c) := GetByte(s);
      DrainByByte(s);
      if c < 0 {
        NoLine([]);
      } else if c == NEWLINE as int {
        LineOfNewline(Drain(t).0, n);
      } else {
        GetLineIsAPrefix(t, n - 1);
        LineOfMore(c as Byte, Drain(t).0, n);
        var (u, bs) := GetLine(t, n - 1);
        Assoc([c as Byte], bs, Drain(u).0);
      }
    }
  }

  lemma NoLine(bs: seq<Byte>)
    ensures LineOf(bs, 0) == [] == LineOf([], 1) && [] + bs == bs
    ensures forall n: nat :: LineOf([], n) == []
  {
  }

  datatype Read = Char | Str(n: nat) | Line(room: nat)

  function DoRead(s: State, r: Read): (o: (State, seq<Byte>))
    requires Live(s)
    ensures Live(o.0)
  {
    match r
    case Char => GetBytes(s, 1)
    case Str(n) => GetBytes(s, n)
    case Line(n) => GetLine(s, n)
  }

  function DoReads(s: State, rs: seq<Read>): (o: (State, seq<seq<Byte>>))
    requires Live(s)
    ensures Live(o.0) && |o.1| == |rs|
    decreases |rs|
  {
    if rs == [] then (s, []) else
    var (t, b) := DoRead(s, rs[0]);
    var (u, bs) := DoReads(t, rs[1..]);
    (u, [b] + bs)
  }

  function Concat(bss: seq<seq<Byte>>): seq<Byte> {
    if bss == [] then [] else bss[0] + Concat(bss[1..])
  }

  /** Any mix of reads delivers consecutive segments of the content: laid end to end, and
      followed by what is left, they are exactly what the stream had to deliver. */
  lemma {:induction false} ReadsAreConsecutive(s: State, rs: seq<Read>)
    requires Live(s)
    ensures var (t, bs) := DoReads(s, rs);
            Drain(s) == (Concat(bs) + Drain(t).0, Drain(t).1)
    decreases |rs|
  {
    if rs == [] {
      assert [] + Drain(s).0 == Drain(s).0;
    } else {
      var (t, b) := DoRead(s, rs[0]);
      match rs[0] {
        case Char => GetBytesIsAPrefix(s, 1);
        case Str(n) => GetBytesIsAPrefix(s, n);
        case Line(n) => GetLineIsAPrefix(s, n);
      }
      ReadsAreConsecutive(t, rs[1..]);
      var (u, bs) := DoReads(t, rs[1..]);
      assert ([b] + bs)[1..] == bs;
      Assoc(b, Concat(bs), Drain(u).0);
    }
  }

  // ---------------------------------------------------------------------------------------
  // A connection that ends early.

  /** The same state on a connection that goes on. */
  function Extend(s: State, more: seq<Byte>): State {
    s.(rest := s.rest + more)
  }

  lemma {:induction false} ConsumeMore(s: State, more: seq<Byte>)
    requires !s.closed
    ensures var c, d := Consume(s), Consume(Extend(s, more));
            match c
            case At(h, t) => d == At(h, Extend(t, more))
            case Done(t) => (Ready(t) ==> d == Done(Extend(t, more))) &&
                            (s.eor && t.closed && t.errno == s.errno == 0 ==> d == Done(Extend(t, more)))
  {
    var r := s.rest + more;
    if s.pending <= |s.rest| {
      assert r[s.pending..] == s.rest[s.pending..] + more;
      var a := if s.pending > 0 then s.(rest := s.rest[s.pending..], pending := 0, skip := false) else s;
      if s.padding <= |a.rest| {
        assert (a.rest + more)[s.padding..] == a.rest[s.padding..] + more;
        var b := a.rest[s.padding..];
        if |b| >= FCGI_HEADER_LEN {
          assert (b + more)[..FCGI_HEADER_LEN] == b[..FCGI_HEADER_LEN];
          assert (b + more)[FCGI_HEADER_LEN..] == b[FCGI_HEADER_LEN..] + more;
        }
      }
    }
  }

  lemma RecordMore(s: State, more: seq<Byte>)
    requires !s.closed && s.eor && s.errno == 0 && RecordEnd(s).errno == 0
    ensures RecordContent(Extend(s, more)) == RecordContent(s) &&
            RecordEnd(Extend(s, more)) == Extend(RecordEnd(s), more)
  {
    hide Consume;
    if s.skip {
      ConsumeMore(s, more);
    } else {
      var n := Min(s.pending, |s.rest|);
      var t := Advance(s, n);
      if |s.rest| < s.pending {
        assert t.rest == [];
        FailsAtEnd(t);
      }
      ConsumeMore(t, more);
      assert (s.rest + more)[n..] == s.rest[n..] + more;
      assert (s.rest + more)[..n] == s.rest[..n];
    }
    RecordEndCloses(s);
  }

  lemma FailsAtEnd(s: State)
    requires !s.closed && s.rest == []
    ensures Consume(s) == Done(Fail(s, EndCode(s.ending)))
  {
  }

  lemma RecordEndCloses(s: State)
    requires !s.closed && s.eor
    ensures RecordEnd(s).closed
  {
  }

  lemma ManagementMore(ty: Byte, s: State, more: seq<Byte>)
    requires !s.closed && s.eor && ProcessManagement(ty, s).0.MgmtRecord?
    ensures ProcessManagement(ty, Extend(s, more)) == (MgmtRecord, Extend(ProcessManagement(ty, s).1, more))
  {
    hide RecordContent, RecordEnd, Decode, SumsFit, Answerable, GetValuesResult, Encode, UnknownType;
    if ty == FCGI_GET_VALUES {
      if s.errno == 0 && RecordEnd(s).errno == 0 {
        RecordMore(s, more);
      } else {
        ErrorStays(s);
      }
    }
  }

  lemma BeginMore(id: nat, s: State, more: seq<Byte>)
    requires !s.closed && s.eor && s.req.begun
    ensures var (status, t) := ProcessBegin(id, s); ProcessBegin(id, Extend(s, more)) == (status, Extend(t, more))
  {
    hide RecordEnd, Encode, EndRequest;
  }

  lemma HeaderMore(h: seq<Byte>, s: State, more: seq<Byte>)
    requires |h| == FCGI_HEADER_LEN && !s.closed && s.eor && s.req.begun && !ProcessHeader(h, s).0.Error?
    ensures var (status, t) := ProcessHeader(h, s); ProcessHeader(h, Extend(s, more)) == (status, Extend(t, more))
  {
    hide ProcessManagement, ProcessBegin;
    var u := s.(pending := HeaderContentLen(h), padding := h[6]);
    BeginMore(HeaderId(h), u, more);
    NeverStream(h[1], u);
    if ProcessManagement(h[1], u).0.MgmtRecord? {
      ManagementMore(h[1], u, more);
    }
  }

  lemma NextMore(status: Status, s: State, more: seq<Byte>)
    ensures AfterHeader(status, Extend(s, more)) ==
            match AfterHeader(status, s) case Return(u) => Return(Extend(u, more)) case Loop(u) => Loop(Extend(u, more))
  {
  }

  lemma DispatchMore(h: seq<Byte>, s: State, more: seq<Byte>)
    requires |h| == FCGI_HEADER_LEN && !s.closed && s.req.begun && Dispatch(h, s).Loop?
    ensures Dispatch(h, Extend(s, more)) == Loop(Extend(Dispatch(h, s).state, more))
  {
    hide ProcessHeader;
    var u := s.(eor := true);
    HeaderMore(h, u, more);
    NextMore(ProcessHeader(h, u).0, ProcessHeader(h, u).1, more);
  }

  lemma NeverStream(ty: Byte, s: State)
    requires !s.closed && s.eor
    ensures ProcessManagement(ty, s).0.MgmtRecord? || ProcessManagement(ty, s).0.Error?
  {
    hide RecordContent, RecordEnd, Decode, SumsFit, Answerable, GetValuesResult, Encode, UnknownType;
  }

  lemma ErrorStays(s: State)
    requires !s.closed && s.eor && s.errno != 0
    ensures RecordEnd(s).errno != 0
  {
  }

  lemma {:induction false} FillMore(s: State, more: seq<Byte>)
    requires !s.closed && !s.eor && s.req.begun && !Fill(s).closed
    ensures Fill(Extend(s, more)) == Extend(Fill(s), more)
    decreases |s.rest|
  {
    hide Consume, Dispatch;
    ConsumeMore(s, more);
    match Consume(s) {
      case Done(t) =>
      case At(h, t) =>
        if Dispatch(h, t).Loop? {
          DispatchMore(h, t, more);
          FillMore(Dispatch(h, t).state, more);
        }
    }
  }

  /** A connection that ends early delivers nothing that it would not have delivered anyway: on every
      wire, well formed or not, what is delivered up to a cut is a prefix of what is delivered in all. */
  lemma {:induction false} CutDeliversPrefix(s: State, more: seq<Byte>)
    requires Live(s) && !s.eor && (s.closed || s.req.begun)
    ensures Drain(s).0 <= Drain(Extend(s, more)).0
    decreases |s.rest|
  {
    hide Fill;
    var (t, c) := GetByte(s);
    if c >= 0 {
      FillMore(s, more);
      var f := Fill(s);
      assert (f.rest + more)[1..] == f.rest[1..] + more;
      assert GetByte(Extend(s, more)) == (Extend(t, more), c);
      CutDeliversPrefix(t, more);
    }
  }

  // ---------------------------------------------------------------------------------------
  // Answers to management records.

  /** The value of a variable the library knows, as section 4.1 defines it for one request at a time. */
  function KnownValue(name: seq<Byte>): seq<Byte> {
    if name == Ascii("FCGI_MAX_CONNS") || name == Ascii("FCGI_MAX_REQS") then Ascii("1")
    else if name == Ascii("FCGI_MPXS_CONNS") then Ascii("0")
    else []
  }

  /** The known variables among those asked for, with their values. */
  function KnownPairs(ps: seq<Pair>): seq<Pair> {
    if ps == [] then [] else
    var n := |ps| - 1;
    KnownPairs(ps[..n]) + if KnownValue(ps[n].name) == [] then [] else [Pair(ps[n].name, KnownValue(ps[n].name))]
  }

  function Short(n: nat): (fs: seq<Form>)
    ensures |fs| == n
  {
    seq(n, _ => Form(false, false))
  }

  /** The name that the code cuts out of the entry of a pair. */
  lemma NameOfEntry(p: Pair)
    requires Plain(p)
    ensures CString(Entry(p)[..IndexOf(Entry(p), EQ)]) == p.name
  {
    var e := Entry(p);
    IndexOfUnique(e, EQ, |p.name|);
    assert e[..|p.name|] == p.name;
    IndexOfUnique(p.name, 0, |p.name|);
    assert p.name[..|p.name|] == p.name;
  }

  lemma ShortPair(name: seq<Byte>, value: seq<Byte>)
    requires |name| < 128 && |value| == 1
    ensures EncodePair(Pair(name, value), Form(false, false)) == [|name|, 1] + name + value
  {
    assert [|name|] + ([1] + (name + value)) == [|name|, 1] + name + value;
  }

  lemma AnswerIsPair(p: Pair)
    requires Plain(p)
    ensures var v := KnownValue(p.name); var q := Pair(p.name, v);
            if v == [] then Answer(Entry(p)) == []
            else Answer(Entry(p)) != [] && EncodablePair(q, Form(false, false)) &&
                 Answer(Entry(p)) == EncodePair(q, Form(false, false))
  {
    hide EncodePair, CString, Entry, IndexOf;
    NameOfEntry(p);
    if KnownValue(p.name) != [] {
      ShortPair(p.name, KnownValue(p.name));
    }
  }

  lemma AnswerLength(entry: seq<Byte>)
    ensures Answer(entry) == [] || 16 <= |Answer(entry)| <= 18
  {
  }

  lemma {:induction false} AnswersLength(entries: seq<seq<Byte>>)
    ensures 16 * Known(entries) <= |Answers(entries)| <= 18 * Known(entries)
    decreases |entries|
  {
    hide Answer;
    if entries != [] {
      AnswerLength(entries[|entries| - 1]);
      AnswersLength(entries[..|entries| - 1]);
    }
  }

  /** The answers, with a header in front and the NUL that ends the last of them, fit the 64 bytes set
      aside for them if and only if no more than three known variables are asked for. */
  lemma AnswersFitIff(entries: seq<seq<Byte>>)
    ensures FCGI_HEADER_LEN + |Answers(entries)| + 1 <= 64 <==> Known(entries) <= 3
  {
    AnswersLength(entries);
  }

  /** Asking four times is too much. */
  lemma FourAnswersExample()
    ensures var e := Entry(Pair(Ascii("FCGI_MAX_REQS"), []));
            FCGI_HEADER_LEN + |Answers([e, e, e, e])| + 1 > 64 && !Answerable([e, e, e, e])
  {
    hide Answer;
    var e := Entry(Pair(Ascii("FCGI_MAX_REQS"), []));
    AnswerExample();
    assert Known([e]) == 1 by { OnlyOne(e); }
    assert Known([e, e]) == 2 by { assert [e, e][..1] == [e]; }
    assert Known([e, e, e]) == 3 by { assert [e, e, e][..2] == [e, e]; }
    assert Known([e, e, e, e]) == 4 by { assert [e, e, e, e][..3] == [e, e, e]; }
    AnswersFitIff([e, e, e, e]);
  }

  lemma OnlyOne(e: seq<Byte>)
    ensures Known([e]) == if Answer(e) == [] then 0 else 1
  {
    hide Answer;
    assert Known([e]) == Known([e][..0]) + if Answer(e) == [] then 0 else 1;
  }

  lemma AnswerExample()
    ensures Answer(Entry(Pair(Ascii("FCGI_MAX_REQS"), []))) != []
  {
    var p := Pair(Ascii("FCGI_MAX_REQS"), []);
    var e := Entry(p);
    assert e[13] == EQ && e[..13] == p.name;
    IndexOfUnique(e, EQ, 13);
    IndexOfUnique(p.name, 0, 13);
    assert p.name[..13] == p.name;
  }

  /** Answers that fit their buffer make a record that fits its header. */
  lemma AnswerableFits(entries: seq<seq<Byte>>)
    requires Answerable(entries)
    ensures Fits(GetValuesResult(entries))
  {
    AnswersLength(entries);
  }

  /** The answer to an FCGI_GET_VALUES record is itself a list of name-value pairs: the variables asked
      for that the library knows, each with its value, in the order asked. */
  lemma {:induction false} AnswersArePairs(ps: seq<Pair>)
    requires forall p :: p in ps ==> Plain(p)
    ensures var qs := KnownPairs(ps);
            EncodablePairs(qs, Short(|qs|)) && Answers(Entries(ps)) == EncodePairs(qs, Short(|qs|))
    ensures Decode(Answers(Entries(ps))) == Decoded(KnownPairs(ps), true)
    ensures Known(Entries(ps)) == |KnownPairs(ps)|
    decreases |ps|
  {
    hide Answer, EncodePair, KnownValue, EncodablePair, Entry, Plain, Decode;
    var all := KnownPairs(ps);
    if ps != [] {
      var n := |ps| - 1;
      AnswersArePairs(ps[..n]);
      AnswerIsPair(ps[n]);
      assert Entries(ps)[..n] == Entries(ps[..n]) && Entries(ps)[n] == Entry(ps[n]);
      var qs, v := KnownPairs(ps[..n]), KnownValue(ps[n].name);
      if v == [] {
        assert all == qs;
        assert Answers(Entries(ps[..n])) + [] == Answers(Entries(ps[..n]));
      } else {
        var q := Pair(ps[n].name, v);
        EncodePairsAppend(qs, Short(|qs|), [q], [Form(false, false)]);
        assert Short(|qs|) + [Form(false, false)] == Short(|all|);
        OnePair(q, Form(false, false));
      }
    }
    PairsRoundTrip(all, Short(|all|));
  }

  lemma OnePair(p: Pair, f: Form)
    requires EncodablePair(p, f)
    ensures EncodablePairs([p], [f]) && EncodePairs([p], [f]) == EncodePair(p, f)
  {
    assert EncodePairs([p], [f]) == EncodePair(p, f) + EncodePairs([], []);
  }

  /** An answer is defined if and only if in every name asked for an '=' comes before any NUL, its own or
      the one that follows it, and no more than three known variables are asked for. */
  lemma AnswerableIff(ps: seq<Pair>)
    ensures Answerable(Entries(ps)) <==> (forall p :: p in ps ==> EqFirst(p.name)) && Known(Entries(ps)) <= 3
  {
    hide SplitEntry, EqFirst, Known, Entry;
    forall i | 0 <= i < |ps| ensures SplitEntry(Entries(ps)[i]).Split? <==> EqFirst(ps[i].name) {
      SplitIff(ps[i]);
    }
  }

  /** The exit status an FCGI_END_REQUEST record carries: four bytes, the most significant first. */
  lemma {:induction false} EndRequestStatus(id: int, appStatus: int, protocolStatus: Byte)
    ensures var b := EndRequest(id, appStatus, protocolStatus).content;
            ((b[0] as int * 256 + b[1] as int) * 256 + b[2] as int) * 256 + b[3] as int == appStatus % 0x1_0000_0000 &&
            b[4] == protocolStatus
  {
    var x, y, z := appStatus / 0x100, appStatus / 0x1_0000, appStatus / 0x100_0000;
    assert appStatus == x * 256 + appStatus % 256;
    assert y == x / 256 && x == y * 256 + x % 256;
    assert z == y / 256 && y == z * 256 + y % 256;
    assert z == z / 256 * 256 + z % 256;
    var low := ((z % 256 * 256 + y % 256) * 256 + x % 256) * 256 + appStatus % 256;
    assert appStatus == z / 256 * 0x1_0000_0000 + low;
    assert 0 <= low < 0x1_0000_0000;
    Remainder(appStatus, z / 256, low);
  }

  lemma Remainder(n: int, q: int, r: int)
    requires n == q * 0x1_0000_0000 + r && 0 <= r < 0x1_0000_0000
    ensures n % 0x1_0000_0000 == r
  {
  }

  // ---------------------------------------------------------------------------------------
  // Reading pairs one by one.

  /** `read` and `ahead` are what was read of `content` and what was not; `fits` says whether the sums
      of lengths so far were in range. */
  predicate SoFar(content: seq<Byte>, read: seq<Pair>, ahead: seq<Byte>, fits: bool) {
    Decode(content) == Prepend(read, Decode(ahead)) && SumsFit(content) == (fits && SumsFit(ahead))
  }

  lemma SoFarNothing(content: seq<Byte>)
    ensures SoFar(content, [], content, true)
  {
    PrependNothing(Decode(content));
  }

  lemma SoFarNext(content: seq<Byte>, read: seq<Pair>, ahead: seq<Byte>, fits: bool)
    requires ahead != [] && SoFar(content, read, ahead, fits)
    ensures var p := DecodePair(ahead); var nowFits := fits && RoomFits(ahead);
            if p.Short? then Decode(content) == Decoded(read, false) && SumsFit(content) == nowFits
            else SoFar(content, read + [p.pair], ahead[p.size..], nowFits)
  {
    hide Decode, DecodePair, Prepend, SumsFit, RoomFits;
    DecodeNext(read, ahead);
    SumsFitNext(ahead);
  }

  lemma SoFarAll(content: seq<Byte>, read: seq<Pair>, fits: bool)
    requires SoFar(content, read, [], fits)
    ensures Decode(content) == Decoded(read, true) && SumsFit(content) == fits
  {
    PrependEnd(read);
    SumsFitNext([]);
  }
}
