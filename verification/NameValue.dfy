/** Name-value pairs: FastCGI Specification 1.0, section 3.4, and the entries the library makes of them. */
module NameValue {
  import opened Bytes

  const EQ: Byte := 61   // '='

  datatype Pair = Pair(name: seq<Byte>, value: seq<Byte>)

  /** The environment entry the library stores for a pair. */
  function Entry(p: Pair): seq<Byte> {
    p.name + [EQ] + p.value
  }

  function Entries(ps: seq<Pair>): (es: seq<seq<Byte>>)
    ensures |es| == |ps|
  {
    seq(|ps|, i requires 0 <= i < |ps| => Entry(ps[i]))
  }

  /** A length read from the front of a stream, and how many bytes it took. */
  datatype Length = Length(value: nat, size: nat) | Truncated

  function DecodeLength(bs: seq<Byte>): (l: Length)
    ensures l.Length? ==> 1 <= l.size <= |bs|
  {
    if bs == [] then Truncated
    else if bs[0] < 128 then Length(bs[0], 1)
    else if |bs| < 4 then Truncated
    else Length(((bs[0] as int - 128) * 256 + bs[1] as int) * 0x1_0000 + bs[2] as int * 256 + bs[3] as int, 4)
  }

  lemma NoLength()
    ensures DecodeLength([]) == Truncated
  {
  }

  /** A pair read from the front of a stream, and how many bytes it took. */
  datatype Parsed = Parsed(pair: Pair, size: nat) | Short

  function DecodePair(bs: seq<Byte>): (r: Parsed)
    ensures r.Parsed? ==> 2 <= r.size <= |bs|
  {
    var n := DecodeLength(bs);
    if n.Truncated? then Short else
    var v := DecodeLength(bs[n.size..]);
    if v.Truncated? then Short else
    var at := n.size + v.size;
    if |bs| - at < n.value + v.value then Short
    else Parsed(Pair(bs[at..at + n.value], bs[at + n.value..at + n.value + v.value]), at + n.value + v.value)
  }

  /** What a whole stream of pairs means: the pairs read before its end or before
      the pair it breaks off in, and whether it ended between pairs. */
  datatype Decoded = Decoded(pairs: seq<Pair>, ok: bool)

  function Decode(bs: seq<Byte>): Decoded {
    if bs == [] then Decoded([], true) else
    var p := DecodePair(bs);
    if p.Short? then Decoded([], false) else
    var d := Decode(bs[p.size..]);
    Decoded([p.pair] + d.pairs, d.ok)
  }

  const INT_MAX := 0x7fff_ffff

  /** The room for the entry of the next pair, once both its lengths are read, is an `int`. */
  predicate RoomFits(bs: seq<Byte>) {
    var n := DecodeLength(bs);
    n.Length? ==> var v := DecodeLength(bs[n.size..]);
                  v.Length? ==> n.value + v.value + 2 <= INT_MAX
  }

  /** So is the room for every entry of a stream, up to where it ends or breaks off. */
  predicate SumsFit(bs: seq<Byte>) {
    bs == [] || (RoomFits(bs) && (DecodePair(bs).Parsed? ==> SumsFit(bs[DecodePair(bs).size..])))
  }

  lemma SumsFitNext(bs: seq<Byte>)
    ensures SumsFit(bs) ==
            (bs == [] || (RoomFits(bs) && (DecodePair(bs).Parsed? ==> SumsFit(bs[DecodePair(bs).size..]))))
  {
  }

  /** Two lengths of 2^31 - 1 are enough to leave the range. */
  lemma OverflowExample()
    ensures var bs := [255, 255, 255, 255, 255, 255, 255, 255]; !SumsFit(bs) && !Decode(bs).ok
  {
    var bs: seq<Byte> := [255, 255, 255, 255, 255, 255, 255, 255];
    assert DecodeLength(bs) == Length(INT_MAX, 4);
    assert DecodeLength(bs[4..]) == Length(INT_MAX, 4);
  }

  function Prepend(ps: seq<Pair>, d: Decoded): Decoded {
    Decoded(ps + d.pairs, d.ok)
  }

  lemma PrependNothing(d: Decoded)
    ensures Prepend([], d) == d
  {
    assert [] + d.pairs == d.pairs;
  }

  lemma PrependEnd(ps: seq<Pair>)
    ensures Prepend(ps, Decode([])) == Decoded(ps, true)
  {
    assert ps + [] == ps;
  }

  /** The next pair of a stream, after those already read. */
  lemma DecodeNext(ps: seq<Pair>, bs: seq<Byte>)
    requires bs != []
    ensures var p := DecodePair(bs);
            Prepend(ps, Decode(bs)) ==
            if p.Short? then Decoded(ps, false) else Prepend(ps + [p.pair], Decode(bs[p.size..]))
  {
    var p := DecodePair(bs);
    assert ps + [] == ps;
    if p.Parsed? {
      Assoc(ps, [p.pair], Decode(bs[p.size..]).pairs);
    }
  }

  lemma DropTwice(bs: seq<Byte>, m: nat, n: nat)
    requires m + n <= |bs|
    ensures bs[m..][n..] == bs[m + n..]
  {
  }

  lemma Pieces(bs: seq<Byte>, at: nat, m: nat, n: nat)
    requires at + m + n <= |bs|
    ensures var body := bs[at..];
            body[..m] == bs[at..at + m] && body[m..][..n] == bs[at + m..at + m + n] &&
            body[m..][n..] == bs[at + m + n..]
  {
  }

  /** A pair in the pieces in which it is read. */
  lemma PairInPieces(bs: seq<Byte>)
    ensures var n := DecodeLength(bs);
            if n.Truncated? then DecodePair(bs).Short? && RoomFits(bs) else
            var v := DecodeLength(bs[n.size..]);
            if v.Truncated? then DecodePair(bs).Short? && RoomFits(bs) else
            RoomFits(bs) == (n.value + v.value + 2 <= INT_MAX) &&
            var body := bs[n.size..][v.size..];
            if |body| < n.value || |body[n.value..]| < v.value then DecodePair(bs).Short? else
            var p := DecodePair(bs);
            p.Parsed? && p.pair == Pair(body[..n.value], body[n.value..][..v.value]) &&
            body[n.value..][v.value..] == bs[p.size..]
  {
    hide DecodeLength;
    var n := DecodeLength(bs);
    if n.Length? {
      var v := DecodeLength(bs[n.size..]);
      if v.Length? {
        var at := n.size + v.size;
        DropTwice(bs, n.size, v.size);
        if n.value + v.value <= |bs| - at {
          Pieces(bs, at, n.value, v.value);
        }
      }
    }
  }

  lemma EntriesMore(es: seq<seq<Byte>>, ps: seq<Pair>, p: Pair)
    ensures es + Entries(ps + [p]) == es + Entries(ps) + [Entry(p)]
  {
    assert Entries(ps + [p]) == Entries(ps) + [Entry(p)];
    Assoc(es, Entries(ps), [Entry(p)]);
  }

  /** Section 3.4 lets a length below 128 take one byte or four. */
  datatype Form = Form(longName: bool, longValue: bool)

  predicate Encodable(n: nat, long: bool) {
    n < 0x8000_0000 && (long || n < 128)
  }

  function EncodeLength(n: nat, long: bool): (b: seq<Byte>)
    requires Encodable(n, long)
    ensures |b| == if long then 4 else 1
  {
    if long then [128 + n / 256 / 256 / 256, n / 256 / 256 % 256, n / 256 % 256, n % 256] else [n]
  }

  predicate EncodablePair(p: Pair, f: Form) {
    Encodable(|p.name|, f.longName) && Encodable(|p.value|, f.longValue)
  }

  function EncodePair(p: Pair, f: Form): (b: seq<Byte>)
    requires EncodablePair(p, f)
    ensures |b| >= 2
  {
    EncodeLength(|p.name|, f.longName) + (EncodeLength(|p.value|, f.longValue) + (p.name + p.value))
  }

  predicate EncodablePairs(ps: seq<Pair>, fs: seq<Form>) {
    |ps| == |fs| && forall i :: 0 <= i < |ps| ==> EncodablePair(ps[i], fs[i])
  }

  function EncodePairs(ps: seq<Pair>, fs: seq<Form>): seq<Byte>
    requires EncodablePairs(ps, fs)
  {
    if ps == [] then [] else EncodePair(ps[0], fs[0]) + EncodePairs(ps[1..], fs[1..])
  }

  lemma LengthRoundTrip(n: nat, long: bool, rest: seq<Byte>)
    requires Encodable(n, long)
    ensures DecodeLength(EncodeLength(n, long) + rest) == Length(n, if long then 4 else 1)
  {
    if long {
      var b := EncodeLength(n, long);
      assert (b + rest)[0] == b[0] && (b + rest)[1] == b[1] && (b + rest)[2] == b[2] && (b + rest)[3] == b[3];
    }
  }

  lemma PairRoundTrip(p: Pair, f: Form, rest: seq<Byte>)
    requires EncodablePair(p, f)
    ensures DecodePair(EncodePair(p, f) + rest) == Parsed(p, |EncodePair(p, f)|)
  {
    var n, v := EncodeLength(|p.name|, f.longName), EncodeLength(|p.value|, f.longValue);
    var bs := EncodePair(p, f) + rest;
    var body := p.name + (p.value + rest);
    assert bs == n + (v + body) by {
      Assoc(n, v + (p.name + p.value), rest);
      Assoc(v, p.name + p.value, rest);
      Assoc(p.name, p.value, rest);
    }
    LengthRoundTrip(|p.name|, f.longName, v + body);
    DropAppend(n, v + body);
    LengthRoundTrip(|p.value|, f.longValue, body);
    BodySlices(n + v, p, rest);
    Assoc(n, v, body);
  }

  lemma BodySlices(head: seq<Byte>, p: Pair, rest: seq<Byte>)
    ensures var bs := head + (p.name + (p.value + rest)); var at := |head|;
            bs[at..at + |p.name|] == p.name &&
            bs[at + |p.name|..at + |p.name| + |p.value|] == p.value
  {
    Middle(head, p.name, p.value + rest);
    Assoc(head, p.name, p.value + rest);
    Middle(head + p.name, p.value, rest);
  }

  /** Decoding inverts the encoding of section 3.4, whichever length forms were used. */
  lemma {:induction false} PairsRoundTrip(ps: seq<Pair>, fs: seq<Form>)
    requires EncodablePairs(ps, fs)
    ensures Decode(EncodePairs(ps, fs)) == Decoded(ps, true)
  {
    if ps != [] {
      PairRoundTrip(ps[0], fs[0], EncodePairs(ps[1..], fs[1..]));
      PairsRoundTrip(ps[1..], fs[1..]);
      DropAppend(EncodePair(ps[0], fs[0]), EncodePairs(ps[1..], fs[1..]));
      assert [ps[0]] + ps[1..] == ps;
    }
  }

  /** The length form that was read at the front of a stream. */
  lemma LengthIsEncoded(bs: seq<Byte>)
    requires DecodeLength(bs).Length?
    ensures var l := DecodeLength(bs); var long := bs[0] >= 128;
            Encodable(l.value, long) && bs[..l.size] == EncodeLength(l.value, long)
  {
    if bs[0] >= 128 {
      var high := (bs[0] as int - 128) * 256 + bs[1] as int;
      var upper := high * 256 + bs[2] as int;
      var n := upper * 256 + bs[3] as int;
      assert n == DecodeLength(bs).value;
      assert n / 256 == upper && n % 256 == bs[3] as int;
      assert upper / 256 == high && upper % 256 == bs[2] as int;
      assert high / 256 == bs[0] as int - 128 && high % 256 == bs[1] as int;
      assert bs[..4] == [bs[0], bs[1], bs[2], bs[3]];
    }
  }

  lemma PairIsEncoded(bs: seq<Byte>) returns (f: Form)
    requires DecodePair(bs).Parsed?
    ensures var p := DecodePair(bs);
            EncodablePair(p.pair, f) && bs[..p.size] == EncodePair(p.pair, f)
  {
    hide DecodeLength, EncodeLength;
    var n := DecodeLength(bs);
    LengthIsEncoded(bs);
    var v := DecodeLength(bs[n.size..]);
    LengthIsEncoded(bs[n.size..]);
    f := Form(bs[0] >= 128, bs[n.size] >= 128);
    var at := n.size + v.size;
    SplitAt(bs, n.size, at);
    Cuts(bs, n.size, at, at + n.value, at + n.value + v.value);
  }

  lemma Cuts(bs: seq<Byte>, a: nat, b: nat, c: nat, d: nat)
    requires a <= b <= c <= d <= |bs|
    ensures bs[..d] == bs[..a] + (bs[a..b] + (bs[b..c] + bs[c..d]))
  {
    SplitAt(bs, c, d);
    SplitAt(bs, b, c);
    SplitAt(bs, a, b);
    Assoc(bs[..b], bs[b..c], bs[c..d]);
    Assoc(bs[..a], bs[a..b], bs[b..c] + bs[c..d]);
  }

  /** A stream decodes without error exactly when it is the encoding of some list of pairs:
      every stream that breaks off inside a pair is an error. */
  lemma {:induction false} DecodeOkIffEncoding(bs: seq<Byte>)
    ensures Decode(bs).ok <==>
            exists fs :: EncodablePairs(Decode(bs).pairs, fs) && bs == EncodePairs(Decode(bs).pairs, fs)
  {
    forall fs | EncodablePairs(Decode(bs).pairs, fs) && bs == EncodePairs(Decode(bs).pairs, fs) ensures Decode(bs).ok {
      PairsRoundTrip(Decode(bs).pairs, fs);
    }
    if Decode(bs).ok {
      var fs := EncodingForms(bs);
    }
  }

  lemma {:induction false} EncodingForms(bs: seq<Byte>) returns (fs: seq<Form>)
    requires Decode(bs).ok
    ensures EncodablePairs(Decode(bs).pairs, fs) && bs == EncodePairs(Decode(bs).pairs, fs)
    decreases |bs|
  {
    if bs == [] {
      fs := [];
    } else {
      var p := DecodePair(bs);
      var f := PairIsEncoded(bs);
      var gs := EncodingForms(bs[p.size..]);
      fs := [f] + gs;
      ConsPairs(p.pair, Decode(bs[p.size..]).pairs, f, gs);
      SplitAt(bs, p.size, |bs|);
    }
  }

  lemma ConsPairs(p: Pair, ps: seq<Pair>, f: Form, fs: seq<Form>)
    requires EncodablePair(p, f) && EncodablePairs(ps, fs)
    ensures EncodablePairs([p] + ps, [f] + fs)
    ensures EncodePairs([p] + ps, [f] + fs) == EncodePair(p, f) + EncodePairs(ps, fs)
  {
    assert ([p] + ps)[1..] == ps && ([f] + fs)[1..] == fs;
  }

  /** Of a stream that breaks off inside a pair, the pairs before are read. */
  lemma {:induction false} BrokenPairs(ps: seq<Pair>, fs: seq<Form>, tail: seq<Byte>)
    requires EncodablePairs(ps, fs) && tail != [] && DecodePair(tail).Short?
    ensures Decode(EncodePairs(ps, fs) + tail) == Decoded(ps, false)
    decreases |ps|
  {
    hide DecodePair, EncodePair;
    if ps == [] {
      assert EncodePairs(ps, fs) + tail == tail;
    } else {
      var more := EncodePairs(ps[1..], fs[1..]) + tail;
      Assoc(EncodePair(ps[0], fs[0]), EncodePairs(ps[1..], fs[1..]), tail);
      PairRoundTrip(ps[0], fs[0], more);
      DropAppend(EncodePair(ps[0], fs[0]), more);
      BrokenPairs(ps[1..], fs[1..], tail);
      assert [ps[0]] + ps[1..] == ps;
    }
  }

  /** Encoded pairs stay in range exactly when the two lengths of each do. */
  lemma {:induction false} EncodedSumsFit(ps: seq<Pair>, fs: seq<Form>)
    requires EncodablePairs(ps, fs)
    ensures SumsFit(EncodePairs(ps, fs)) <==> forall p :: p in ps ==> |p.name| + |p.value| + 2 <= INT_MAX
    decreases |ps|
  {
    hide DecodePair, RoomFits, EncodePair, SumsFit;
    SumsFitNext(EncodePairs(ps, fs));
    if ps != [] {
      var more := EncodePairs(ps[1..], fs[1..]);
      PairRoundTrip(ps[0], fs[0], more);
      PairRoom(ps[0], fs[0], more);
      DropAppend(EncodePair(ps[0], fs[0]), more);
      EncodedSumsFit(ps[1..], fs[1..]);
      assert ps == [ps[0]] + ps[1..];
    }
  }

  lemma PairRoom(p: Pair, f: Form, rest: seq<Byte>)
    requires EncodablePair(p, f)
    ensures RoomFits(EncodePair(p, f) + rest) <==> |p.name| + |p.value| + 2 <= INT_MAX
  {
    hide DecodeLength, EncodeLength;
    var n, v := EncodeLength(|p.name|, f.longName), EncodeLength(|p.value|, f.longValue);
    var body := p.name + (p.value + rest);
    assert EncodePair(p, f) + rest == n + (v + body) by {
      Assoc(n, v + (p.name + p.value), rest);
      Assoc(v, p.name + p.value, rest);
      Assoc(p.name, p.value, rest);
    }
    LengthRoundTrip(|p.name|, f.longName, v + body);
    DropAppend(n, v + body);
    LengthRoundTrip(|p.value|, f.longValue, body);
  }

  lemma {:induction false} EncodePairsAppend(ps: seq<Pair>, fs: seq<Form>, qs: seq<Pair>, gs: seq<Form>)
    requires EncodablePairs(ps, fs) && EncodablePairs(qs, gs)
    ensures EncodablePairs(ps + qs, fs + gs)
    ensures EncodePairs(ps + qs, fs + gs) == EncodePairs(ps, fs) + EncodePairs(qs, gs)
    decreases |ps|
  {
    hide EncodePair;
    if ps == [] {
      assert ps + qs == qs && fs + gs == gs;
    } else {
      EncodePairsAppend(ps[1..], fs[1..], qs, gs);
      assert (ps + qs)[1..] == ps[1..] + qs && (fs + gs)[1..] == fs[1..] + gs;
      Assoc(EncodePair(ps[0], fs[0]), EncodePairs(ps[1..], fs[1..]), EncodePairs(qs, gs));
    }
  }

  /** What the library does with an entry: a C string, split at its first '='. */
  datatype Split = Split(name: seq<Byte>, value: seq<Byte>) | Unsplit

  function SplitEntry(e: seq<Byte>): Split {
    var s := CString(e);
    var i := IndexOf(s, EQ);
    if i < |s| then Split(s[..i], s[i + 1..]) else Unsplit
  }

  /** A pair that a C string can carry. */
  predicate Plain(p: Pair) {
    EQ !in p.name && 0 !in p.name && 0 !in p.value
  }

  lemma IndexOfUnique(s: seq<Byte>, c: Byte, i: nat)
    requires i <= |s| && (forall j :: 0 <= j < i ==> s[j] != c) && (i < |s| ==> s[i] == c)
    ensures IndexOf(s, c) == i
  {
  }

  /** Splitting an entry at its first '=' gives the pair back, for every pair a C string can carry. */
  lemma SplitInvertsEntry(p: Pair)
    requires Plain(p)
    ensures SplitEntry(Entry(p)) == Split(p.name, p.value)
  {
    var e := Entry(p);
    IndexOfUnique(e, 0, |e|);
    assert CString(e) == e;
    IndexOfUnique(e, EQ, |p.name|);
  }

  /** A name that a C string can carry up to an '=': its own first one, or else the one that follows it. */
  predicate EqFirst(name: seq<Byte>) {
    0 !in name || IndexOf(name, EQ) < IndexOf(name, 0)
  }

  /** An entry has its '=' within the C string if and only if no NUL comes before. */
  lemma SplitIff(p: Pair)
    ensures SplitEntry(Entry(p)).Split? <==> EqFirst(p.name)
  {
    var e, n, z := Entry(p), IndexOf(p.name, EQ), IndexOf(p.name, 0);
    assert forall j :: 0 <= j < |p.name| ==> e[j] == p.name[j];
    IndexOfUnique(e, EQ, n);
    if z < |p.name| {
      IndexOfUnique(e, 0, z);
      assert p.name[z] in p.name;
    }
    var s := CString(e);
    if n < |s| {
      IndexOfUnique(s, EQ, n);
    } else {
      IndexOfUnique(s, EQ, |s|);
    }
  }

  /** Neither part of a pair is longer than what the pairs take. */
  lemma {:induction false} PartsWithin(ps: seq<Pair>, fs: seq<Form>)
    requires EncodablePairs(ps, fs)
    ensures forall p :: p in ps ==> |p.name| + |p.value| + 2 <= |EncodePairs(ps, fs)|
    decreases |ps|
  {
    if ps != [] {
      PartsWithin(ps[1..], fs[1..]);
    }
  }
}
