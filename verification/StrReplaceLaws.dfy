/** What `EL_STRREPLACE` means, said of its text and result alone. */
module StrReplaceLaws {
  import opened Bytes
  import opened Harbour
  import opened StrReplace

  /** The keys as a list. */
  function KeysOf(src: Source): seq<seq<Byte>> {
    match src
    case Chars(cs) => seq(|cs|, i requires 0 <= i < |cs| => [cs[i]])
    case Keys(ks) => ks
    case Hash(es) => seq(|es|, i requires 0 <= i < |es| => es[i].key)
  }

  /** What they are replaced with, one by one; there may be more or fewer than keys. A hash brings its own. */
  function ValuesOf(src: Source, dst: Target): seq<seq<Byte>> {
    if src.Hash? then seq(|src.entries|, i requires 0 <= i < |src.entries| => src.entries[i].value)
    else match dst
         case Each(bs) => seq(|bs|, i requires 0 <= i < |bs| => [bs[i]])
         case Strings(ss) => ss
         case _ => []
  }

  /** A nonempty key is found at a position: byte by byte, ignoring case up to the first NUL of the text only. */
  predicate Matches(key: seq<Byte>, ignoreCase: bool, text: seq<Byte>, pos: nat) {
    key != [] && pos + |key| <= |text| &&
    forall i :: 0 <= i < |key| && (ignoreCase ==> 0 !in text[pos..pos + i]) ==> Alike(ignoreCase, text[pos + i], key[i])
  }

  /** A stretch of the text: a byte that is kept, or one at which the key numbered `at` is found. */
  datatype Segment = Kept(byte: Byte) | Taken(at: nat, cut: seq<Byte>)

  function Length(s: Segment): nat {
    if s.Kept? then 1 else |s.cut|
  }

  /** The segment at the position: no key is found there, or the first that is. */
  predicate Fits(keys: seq<seq<Byte>>, ignoreCase: bool, text: seq<Byte>, pos: nat, s: Segment) {
    match s
    case Kept(byte) =>
      pos < |text| && text[pos] == byte &&
      forall k :: 0 <= k < |keys| ==> !Matches(keys[k], ignoreCase, text, pos)
    case Taken(at, cut) =>
      1 <= at <= |keys| && Matches(keys[at - 1], ignoreCase, text, pos) &&
      |cut| == |keys[at - 1]| && text[pos..pos + |cut|] == cut &&
      forall k :: 0 <= k < at - 1 ==> !Matches(keys[k], ignoreCase, text, pos)
  }

  /** The text from a position on, cut up from left to right. */
  predicate CutInto(keys: seq<seq<Byte>>, ignoreCase: bool, text: seq<Byte>, pos: nat, segments: seq<Segment>)
    decreases |segments|
  {
    if segments == [] then pos == |text|
    else Fits(keys, ignoreCase, text, pos, segments[0]) &&
         CutInto(keys, ignoreCase, text, pos + Length(segments[0]), segments[1..])
  }

  /** The bytes kept, and in place of each key found its counterpart, or nothing where it has none. */
  function Joined(values: seq<seq<Byte>>, segments: seq<Segment>): seq<Byte> {
    if segments == [] then [] else
    (match segments[0]
     case Kept(byte) => [byte]
     case Taken(at, _) => if 1 <= at <= |values| then values[at - 1] else [])
    + Joined(values, segments[1..])
  }

  lemma LowerIsAlike(a: Byte, b: Byte)
    ensures Lower(a) == Lower(b) <==> Alike(true, a, b)
  {
  }

  lemma {:induction false} AgreeIsAlike(a: seq<Byte>, b: seq<Byte>)
    requires |a| == |b|
    ensures AgreeIgnoringCase(a, b) <==> forall i :: 0 <= i < |a| && 0 !in a[..i] ==> Alike(true, a[i], b[i])
    decreases |a|
  {
    if a != [] {
      LowerIsAlike(a[0], b[0]);
      AgreeIsAlike(a[1..], b[1..]);
      var here := forall i :: 0 <= i < |a| && 0 !in a[..i] ==> Alike(true, a[i], b[i]);
      var next := forall i :: 0 <= i < |a[1..]| && 0 !in a[1..][..i] ==> Alike(true, a[1..][i], b[1..][i]);
      if a[0] == 0 {
        forall i | 0 < i < |a| ensures 0 in a[..i] {
          assert a[..i][0] == 0;
        }
      } else {
        forall i | 0 < i < |a| ensures 0 in a[..i] <==> 0 in a[1..][..i - 1] {
          assert a[..i] == [a[0]] + a[1..][..i - 1];
        }
        if next && Alike(true, a[0], b[0]) {
          forall i | 0 <= i < |a| && 0 !in a[..i] ensures Alike(true, a[i], b[i]) {
            if i > 0 {
              assert a[1..][i - 1] == a[i] && b[1..][i - 1] == b[i];
            }
          }
        }
        if here {
          assert 0 !in a[..0];
          forall i | 0 <= i < |a[1..]| && 0 !in a[1..][..i] ensures Alike(true, a[1..][i], b[1..][i]) {
            assert a[1..][i] == a[i + 1] && b[1..][i] == b[i + 1] && 0 !in a[..i + 1];
          }
        }
      }
    }
  }

  /** A key is found in the code's sense exactly if it matches in this one. */
  lemma {:induction false} FoundIsMatch(src: Source, ignoreCase: bool, text: seq<Byte>, pos: nat, at: nat)
    requires 1 <= at <= Size(src) && pos <= |text|
    ensures |KeysOf(src)| == Size(src) && KeysOf(src)[at - 1] == Key(src, at)
    ensures Found(src, ignoreCase, text, pos, at) <==>
            Matches(KeysOf(src)[at - 1], ignoreCase && !src.Chars?, text, pos)
  {
    hide AgreeIgnoringCase;
    var key := Key(src, at);
    if 0 < |key| <= |text| - pos {
      var here := text[pos..pos + |key|];
      forall i | 0 <= i < |key| ensures here[i] == text[pos + i] && here[..i] == text[pos..pos + i] {
      }
      if ignoreCase && !src.Chars? {
        AgreeIsAlike(here, key);
      }
    }
  }

  /** What the code puts for a key is what the lists say. */
  lemma CounterpartIsValue(src: Source, dst: Target, at: nat)
    requires 1 <= at <= Size(src)
    ensures var values := ValuesOf(src, dst);
            Replacement(src, dst, at) == if at <= |values| then values[at - 1] else []
  {
  }

  /** The segment that the scan finds at a position. */
  function SegmentAt(src: Source, ignoreCase: bool, text: seq<Byte>, pos: nat): Segment
    requires pos < |text|
  {
    var at := Scan(src, ignoreCase, text, pos, 1);
    if at == 0 then Kept(text[pos]) else Taken(at, text[pos..pos + |Key(src, at)|])
  }

  lemma {:induction false} SegmentFits(src: Source, ignoreCase: bool, text: seq<Byte>, pos: nat, s: Segment)
    requires pos < |text|
    ensures Fits(KeysOf(src), ignoreCase && !src.Chars?, text, pos, s) <==> s == SegmentAt(src, ignoreCase, text, pos)
  {
    hide Found, Matches, Key, Scan, KeysOf;
    var keys, ic, at := KeysOf(src), ignoreCase && !src.Chars?, Scan(src, ignoreCase, text, pos, 1);
    KeysAreAll(src);
    forall k: nat | k < |keys|
      ensures keys[k] == Key(src, k + 1)
      ensures Matches(keys[k], ic, text, pos) <==> Found(src, ignoreCase, text, pos, k + 1)
    {
      FoundIsMatch(src, ignoreCase, text, pos, k + 1);
    }
    if at != 0 {
      assert Found(src, ignoreCase, text, pos, at) && Matches(keys[at - 1], ic, text, pos);
      MatchFits(keys[at - 1], ic, text, pos);
      if s.Taken? && Fits(keys, ic, text, pos, s) {
        assert Found(src, ignoreCase, text, pos, s.at);
        assert s.at == at;
      }
    }
  }

  lemma KeysAreAll(src: Source)
    ensures |KeysOf(src)| == Size(src)
  {
  }

  lemma MatchFits(key: seq<Byte>, ignoreCase: bool, text: seq<Byte>, pos: nat)
    requires Matches(key, ignoreCase, text, pos)
    ensures key != [] && pos + |key| <= |text|
  {
  }

  /** However the text is cut up by the law, joining it gives what is promised. */
  lemma {:induction false} CutGivesPromised(src: Source, dst: Target, ignoreCase: bool, text: seq<Byte>, pos: nat,
                                            segments: seq<Segment>)
    requires pos <= |text| && CutInto(KeysOf(src), ignoreCase && !src.Chars?, text, pos, segments)
    ensures Joined(ValuesOf(src, dst), segments) == Substituted(src, dst, ignoreCase, false, text, pos)
    decreases |segments|
  {
    hide Fits, Scan, Key, Replacement, ValuesOf, KeysOf, Substituted, Pick;
    if segments == [] {
      NothingToSubstitute(src, dst, ignoreCase, false, text);
    } else {
      FitsWithin(KeysOf(src), ignoreCase && !src.Chars?, text, pos, segments[0]);
      SegmentFits(src, ignoreCase, text, pos, segments[0]);
      SubstituteHere(src, dst, ignoreCase, false, text, pos);
      var at := Scan(src, ignoreCase, text, pos, 1);
      if at != 0 {
        CounterpartIsValue(src, dst, at);
      }
      CutGivesPromised(src, dst, ignoreCase, text, pos + Length(segments[0]), segments[1..]);
    }
  }

  lemma FitsWithin(keys: seq<seq<Byte>>, ignoreCase: bool, text: seq<Byte>, pos: nat, s: Segment)
    requires Fits(keys, ignoreCase, text, pos, s)
    ensures pos < pos + Length(s) <= |text|
  {
  }

  lemma {:induction false} CanBeCut(src: Source, ignoreCase: bool, text: seq<Byte>, pos: nat)
      returns (segments: seq<Segment>)
    requires pos <= |text|
    ensures CutInto(KeysOf(src), ignoreCase && !src.Chars?, text, pos, segments)
    decreases |text| - pos
  {
    hide Fits, KeysOf, SegmentAt;
    if pos == |text| {
      segments := [];
    } else {
      var s := SegmentAt(src, ignoreCase, text, pos);
      SegmentFits(src, ignoreCase, text, pos, s);
      FitsWithin(KeysOf(src), ignoreCase && !src.Chars?, text, pos, s);
      var more := CanBeCut(src, ignoreCase, text, pos + Length(s));
      segments := [s] + more;
      assert segments[1..] == more;
    }
  }

  /** The law: a result is the one promised if and only if it is the text cut up from left to right into bytes
      at which no key is found and the first keys found elsewhere, with each key's counterpart in its place. */
  lemma {:induction false} PromisedIff(src: Source, dst: Target, ignoreCase: bool, text: seq<Byte>, result: seq<Byte>)
    ensures result == Promised(src, dst, ignoreCase, text) <==>
            exists segments :: CutInto(KeysOf(src), ignoreCase && !src.Chars?, text, 0, segments) &&
                               Joined(ValuesOf(src, dst), segments) == result
  {
    hide CutInto, KeysOf, ValuesOf, Joined, Substituted;
    var segments := CanBeCut(src, ignoreCase, text, 0);
    CutGivesPromised(src, dst, ignoreCase, text, 0, segments);
    forall other | CutInto(KeysOf(src), ignoreCase && !src.Chars?, text, 0, other)
      ensures Joined(ValuesOf(src, dst), other) == Promised(src, dst, ignoreCase, text)
    {
      CutGivesPromised(src, dst, ignoreCase, text, 0, other);
    }
  }

  /** A key begins with the very byte at a position. */
  predicate BeginsHere(key: seq<Byte>, text: seq<Byte>, pos: nat) {
    key != [] && pos < |text| && key[0] == text[pos]
  }

  /** The law of the table: with `f` the first key that begins with the very byte, none is found if there is no
      such key; key `f` if it matches; and, only if two keys begin alike, else the first after it that does. */
  lemma {:induction false} TableLaw(src: Source, ignoreCase: bool, text: seq<Byte>, pos: nat, f: nat)
    requires pos < |text| && 1 <= f <= |KeysOf(src)| && BeginsHere(KeysOf(src)[f - 1], text, pos)
    requires forall k :: 0 <= k < f - 1 ==> !BeginsHere(KeysOf(src)[k], text, pos)
    ensures var keys, ic := KeysOf(src), ignoreCase && !src.Chars?; var at := Pick(src, ignoreCase, text, pos);
            (Matches(keys[f - 1], ic, text, pos) ==> at == f) &&
            (!SharedStart(src, Size(src)) ==> at == 0 || at == f) &&
            (at != 0 ==> f <= at <= |keys| && Matches(keys[at - 1], ic, text, pos)) &&
            (SharedStart(src, Size(src)) ==>
               forall k :: f - 1 <= k < |keys| && (at == 0 || k < at - 1) ==> !Matches(keys[k], ic, text, pos))
  {
    hide Found, Matches, SharedStart, KeysOf;
    var keys := KeysOf(src);
    KeysAreAll(src);
    forall k: nat | k < |keys|
      ensures keys[k] == Key(src, k + 1)
      ensures Matches(keys[k], ignoreCase && !src.Chars?, text, pos) <==> Found(src, ignoreCase, text, pos, k + 1)
    {
      FoundIsMatch(src, ignoreCase, text, pos, k + 1);
    }
    forall k | 1 <= k <= Size(src) ensures StartsWith(src, k, text[pos]) <==> BeginsHere(keys[k - 1], text, pos) {
    }
    var first := FirstStarting(src, text[pos], Size(src));
    assert StartsWith(src, f, text[pos]);
    assert first != 0 && BeginsHere(keys[first - 1], text, pos);
    assert first == f;
    if src.Chars? {
      CharFound(src, ignoreCase, text, pos, f);
    }
  }

  lemma CharFound(src: Source, ignoreCase: bool, text: seq<Byte>, pos: nat, at: nat)
    requires src.Chars? && 1 <= at <= Size(src) && pos < |text| && src.chars[at - 1] == text[pos]
    ensures Found(src, ignoreCase, text, pos, at) && !SharedStart(src, Size(src))
  {
    assert text[pos..pos + 1] == [text[pos]];
  }

  /** The smallest instances: a text that is just the one key sought becomes the value of a hash, the string or
      the character given, and nothing where nothing is. */
  lemma {:induction false} WholeKey(k: seq<Byte>, v: seq<Byte>, c: Byte)
    requires k != []
    ensures Promised(Hash([HashEntry(k, v)]), Nil, false, k) == v
    ensures Promised(Keys([k]), Strings([v]), false, k) == v
    ensures Promised(Keys([k]), Each([c]), false, k) == [c]
    ensures Promised(Keys([k]), Nil, false, k) == Promised(Keys([k]), Useless, false, k) == []
    ensures Promised(Keys([k]), Strings([]), false, k) == []
  {
    hide CutInto, Joined, Substituted;
    OneSegment(Hash([HashEntry(k, v)]), Nil, k, v);
    OneSegment(Keys([k]), Strings([v]), k, v);
    OneSegment(Keys([k]), Each([c]), k, [c]);
    OneSegment(Keys([k]), Nil, k, []);
    OneSegment(Keys([k]), Useless, k, []);
    OneSegment(Keys([k]), Strings([]), k, []);
  }

  lemma {:induction false} OneSegment(src: Source, dst: Target, k: seq<Byte>, v: seq<Byte>)
    requires k != [] && KeysOf(src) == [k] && !src.Chars?
    requires v == if ValuesOf(src, dst) == [] then [] else ValuesOf(src, dst)[0]
    ensures Promised(src, dst, false, k) == v
  {
    hide Substituted, ValuesOf, KeysOf;
    var s, values := Taken(1, k), ValuesOf(src, dst);
    assert k[0..0 + |k|] == k && Matches(k, false, k, 0);
    assert [s][1..] == [];
    assert CutInto([k], false, k, |k|, []);
    assert CutInto([k], false, k, 0, [s]);
    assert Joined(values, []) == [] && v + [] == v;
    assert Joined(values, [s]) == v;
    CutGivesPromised(src, dst, false, k, 0, [s]);
  }
}
