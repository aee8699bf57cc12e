/** `EL_STRREPLACE`: replacing many keys in one pass over a text. */
module StrReplace {
  import opened Bytes
  import opened Harbour

  /** What is sought: single characters, strings, or the keys of a hash with their values. */
  datatype Source = Chars(chars: seq<Byte>) | Keys(keys: seq<seq<Byte>>) | Hash(entries: seq<HashEntry>)

  datatype HashEntry = HashEntry(key: seq<Byte>, value: seq<Byte>)

  /** What it is replaced with: nothing given, something of no use, single characters, or strings. */
  datatype Target = Nil | Useless | Each(bytes: seq<Byte>) | Strings(strings: seq<seq<Byte>>)

  function Size(src: Source): nat {
    match src
    case Chars(s) => |s|
    case Keys(ks) => |ks|
    case Hash(es) => |es|
  }

  /** The key numbered `at`, counting from 1. */
  function Key(src: Source, at: nat): seq<Byte>
    requires 1 <= at <= Size(src)
  {
    match src
    case Chars(s) => [s[at - 1]]
    case Keys(ks) => ks[at - 1]
    case Hash(es) => es[at - 1].key
  }

  function Lower(c: Byte): Byte {
    if 65 <= c <= 90 then c + 32 else c
  }

  /** `strncasecmp` of two strings of one length: a NUL ends the comparison. */
  predicate AgreeIgnoringCase(a: seq<Byte>, b: seq<Byte>)
    requires |a| == |b|
  {
    a == [] || (Lower(a[0]) == Lower(b[0]) && (a[0] == 0 || AgreeIgnoringCase(a[1..], b[1..])))
  }

  /** Key number `at` is found at a position. Single characters are always compared exactly. */
  predicate Found(src: Source, ignoreCase: bool, text: seq<Byte>, pos: nat, at: nat)
    requires 1 <= at <= Size(src) && pos <= |text|
  {
    var key := Key(src, at);
    0 < |key| <= |text| - pos &&
    if ignoreCase && !src.Chars? then AgreeIgnoringCase(text[pos..pos + |key|], key) else text[pos..pos + |key|] == key
  }

  /** The first key from number `from` on that is found at a position, or 0. */
  function Scan(src: Source, ignoreCase: bool, text: seq<Byte>, pos: nat, from: nat): (at: nat)
    requires 1 <= from && pos <= |text|
    ensures at == 0 || (from <= at <= Size(src) && Found(src, ignoreCase, text, pos, at))
    ensures forall k :: from <= k <= Size(src) && (at == 0 || k < at) ==> !Found(src, ignoreCase, text, pos, k)
    decreases Size(src) + 1 - from
  {
    if from > Size(src) then 0
    else if Found(src, ignoreCase, text, pos, from) then from
    else Scan(src, ignoreCase, text, pos, from + 1)
  }

  /** What a key is replaced with: what has no counterpart is deleted. */
  function Replacement(src: Source, dst: Target, at: nat): seq<Byte>
    requires 1 <= at <= Size(src)
  {
    match src
    case Hash(es) => es[at - 1].value
    case _ =>
      match dst
      case Nil => []
      case Useless => []
      case Each(bs) => if at <= |bs| then [bs[at - 1]] else []
      case Strings(ss) => if at <= |ss| then ss[at - 1] else []
  }

  // ---------------------------------------------------------------------------------------
  // The lookup table.

  /** Key `at` begins with byte `c`. */
  predicate StartsWith(src: Source, at: nat, c: Byte)
    requires 1 <= at <= Size(src)
  {
    Key(src, at) != [] && Key(src, at)[0] == c
  }

  /** The first of the first `n` keys that begins with `c`, or 0. */
  function FirstStarting(src: Source, c: Byte, n: nat): (at: nat)
    requires n <= Size(src)
    ensures at == 0 || (1 <= at <= n && StartsWith(src, at, c))
    ensures forall k :: 1 <= k <= n && (at == 0 || k < at) ==> !StartsWith(src, k, c)
  {
    if n == 0 then 0 else
    var at := FirstStarting(src, c, n - 1);
    if at != 0 then at else if StartsWith(src, n, c) then n else 0
  }

  /** Two of the first `n` keys, not single characters, begin alike. */
  predicate SharedStart(src: Source, n: nat)
    requires n <= Size(src)
  {
    !src.Chars? &&
    exists i, j :: 1 <= i < j <= n && Key(src, i) != [] && Key(src, j) != [] && Key(src, i)[0] == Key(src, j)[0]
  }

  /** The key picked by way of the table. */
  function Pick(src: Source, ignoreCase: bool, text: seq<Byte>, pos: nat): nat
    requires pos < |text|
  {
    var at := FirstStarting(src, text[pos], Size(src));
    if at == 0 || src.Chars? then at
    else if SharedStart(src, Size(src)) then Scan(src, ignoreCase, text, pos, at)
    else if Found(src, ignoreCase, text, pos, at) then at else 0
  }

  predicate Letter(c: Byte) {
    65 <= c <= 90 || 97 <= c <= 122
  }

  /** The same letter in the other case. */
  function OtherCase(c: Byte): Byte
    requires Letter(c)
  {
    if c <= 90 then c + 32 else c - 32
  }

  /** Key `at` begins with a letter. */
  predicate LetterStart(src: Source, at: nat)
    requires 1 <= at <= Size(src)
  {
    Key(src, at) != [] && Letter(Key(src, at)[0])
  }

  /** What decides whether the table may be used: case is counted, single characters are sought, or
      no key begins with a letter. */
  predicate CaseHarmless(src: Source, ignoreCase: bool) {
    !ignoreCase || src.Chars? || forall at :: 1 <= at <= Size(src) ==> !LetterStart(src, at)
  }

  /** A key found begins with the very byte it is found at. */
  lemma FoundStarts(src: Source, ignoreCase: bool, text: seq<Byte>, pos: nat, at: nat)
    requires 1 <= at <= Size(src) && pos < |text| && Found(src, ignoreCase, text, pos, at) &&
             CaseHarmless(src, ignoreCase)
    ensures StartsWith(src, at, text[pos])
  {
    var key := Key(src, at);
    assert text[pos..pos + |key|][0] == text[pos];
    if ignoreCase && !src.Chars? {
      assert !LetterStart(src, at) && Lower(text[pos]) == Lower(key[0]);
    }
  }

  /** Then the table never changes what is picked. */
  lemma PickIsScan(src: Source, ignoreCase: bool, text: seq<Byte>, pos: nat)
    requires pos < |text| && CaseHarmless(src, ignoreCase)
    ensures Pick(src, ignoreCase, text, pos) == Scan(src, ignoreCase, text, pos, 1)
  {
    var at, first, n := Scan(src, ignoreCase, text, pos, 1), FirstStarting(src, text[pos], Size(src)), Size(src);
    if at != 0 {
      FoundStarts(src, ignoreCase, text, pos, at);
    }
    if src.Chars? {
      if first != 0 {
        assert text[pos..pos + 1] == [text[pos]] == Key(src, first);
        assert Found(src, ignoreCase, text, pos, first);
      }
    } else if first != 0 && first < at {
      assert Key(src, first)[0] == Key(src, at)[0];
    }
  }

  /** `b` with every `from` in it replaced by `to`. */
  function Swapped(b: seq<Byte>, from: Byte, to: Byte): (r: seq<Byte>)
    ensures |r| == |b|
  {
    seq(|b|, i requires 0 <= i < |b| => if b[i] == from then to else b[i])
  }

  lemma {:induction false} SwappedAgrees(b: seq<Byte>, from: Byte)
    requires Letter(from)
    ensures AgreeIgnoringCase(Swapped(b, from, OtherCase(from)), b)
    decreases |b|
  {
    if b != [] {
      SwappedAgrees(b[1..], from);
      assert Swapped(b, from, OtherCase(from))[1..] == Swapped(b[1..], from, OtherCase(from));
    }
  }

  /** A text longer than 1024 bytes at whose start the scan finds a key and the table cannot: the key
      with its first letter in the other case throughout, then that letter over and over. */
  function Counterexample(key: seq<Byte>): (text: seq<Byte>)
    requires key != [] && Letter(key[0])
    ensures |text| > 1024
  {
    var to := OtherCase(key[0]);
    Swapped(key, key[0], to) + seq(1024, _ => to)
  }

  /** The first key that begins with a letter is found at the start of that text, and the table never
      leads to it anywhere in the text. */
  lemma CounterexampleFacts(src: Source, i: nat)
    requires !src.Chars? && 1 <= i <= Size(src) && LetterStart(src, i)
    requires forall k :: 1 <= k < i ==> !LetterStart(src, k)
    ensures var text := Counterexample(Key(src, i));
            Scan(src, true, text, 0, 1) == i && forall pos :: 0 <= pos < |text| ==> Pick(src, true, text, pos) != i
  {
    var key := Key(src, i);
    var text := Counterexample(key);
    SwappedAgrees(key, key[0]);
    assert text[0..0 + |key|] == Swapped(key, key[0], OtherCase(key[0]));
    assert Found(src, true, text, 0, i);
    forall k: nat | 1 <= k < i ensures !Found(src, true, text, 0, k) {
      if Found(src, true, text, 0, k) {
        NeedsLetter(src, text, 0, k);
      }
    }
    forall pos | 0 <= pos < |text| ensures Pick(src, true, text, pos) != i {
      assert text[pos] != key[0];
      if Pick(src, true, text, pos) == i {
        var first := FirstStarting(src, text[pos], Size(src));
        NeedsLetter(src, text, pos, i);
        assert Letter(text[pos]) && first < i && LetterStart(src, first);
      }
    }
  }

  /** A key found ignoring case at a letter begins with a letter, and the other way round. */
  lemma NeedsLetter(src: Source, text: seq<Byte>, pos: nat, at: nat)
    requires !src.Chars? && 1 <= at <= Size(src) && pos < |text| && Found(src, true, text, pos, at)
    ensures Letter(text[pos]) <==> LetterStart(src, at)
  {
    var key := Key(src, at);
    assert text[pos..pos + |key|][0] == text[pos];
    assert Lower(text[pos]) == Lower(key[0]);
  }

  lemma {:induction false} FirstLetterStart(src: Source, n: nat) returns (i: nat)
    requires n <= Size(src) && exists at :: 1 <= at <= n && LetterStart(src, at)
    ensures 1 <= i <= n && LetterStart(src, i) && forall k :: 1 <= k < i ==> !LetterStart(src, k)
  {
    if k :| 1 <= k < n && LetterStart(src, k) {
      i := FirstLetterStart(src, n - 1);
    } else {
      i := n;
    }
  }

  /** The table picks the key that the scan picks, at every position of every text long enough for a
      table, if and only if case is counted, single characters are sought, or no key begins with a letter. */
  lemma PickIsScanIff(src: Source, ignoreCase: bool)
    ensures (forall text: seq<Byte>, pos: nat :: |text| > 1024 && pos < |text| ==>
               Pick(src, ignoreCase, text, pos) == Scan(src, ignoreCase, text, pos, 1))
            <==> CaseHarmless(src, ignoreCase)
  {
    hide Pick, Scan, Counterexample, LetterStart;
    if CaseHarmless(src, ignoreCase) {
      forall text: seq<Byte>, pos: nat | |text| > 1024 && pos < |text|
        ensures Pick(src, ignoreCase, text, pos) == Scan(src, ignoreCase, text, pos, 1)
      {
        PickIsScan(src, ignoreCase, text, pos);
      }
    } else {
      var i := FirstLetterStart(src, Size(src));
      CounterexampleFacts(src, i);
      assert LetterStart(src, i);
      assert |Counterexample(LetterKey(src, i))| > 1024;
    }
  }

  function LetterKey(src: Source, i: nat): (key: seq<Byte>)
    requires 1 <= i <= Size(src) && LetterStart(src, i)
    ensures key == Key(src, i) && key != [] && Letter(key[0])
  {
    Key(src, i)
  }

  // ---------------------------------------------------------------------------------------
  // The substitution.

  /** The key at a position, by way of the table or not. */
  function At(src: Source, ignoreCase: bool, table: bool, text: seq<Byte>, pos: nat): (at: nat)
    requires pos < |text|
    ensures at <= Size(src) && (at > 0 ==> 0 < |Key(src, at)| <= |text| - pos)
  {
    if table then Pick(src, ignoreCase, text, pos) else Scan(src, ignoreCase, text, pos, 1)
  }

  /** One pass from left to right: at each position the key is replaced, or the byte kept. */
  function Substituted(src: Source, dst: Target, ignoreCase: bool, table: bool, text: seq<Byte>, pos: nat): seq<Byte>
    requires pos <= |text|
    decreases |text| - pos
  {
    if pos == |text| then [] else
    var at := At(src, ignoreCase, table, text, pos);
    if at == 0 then [text[pos]] + Substituted(src, dst, ignoreCase, table, text, pos + 1)
    else Replacement(src, dst, at) + Substituted(src, dst, ignoreCase, table, text, pos + |Key(src, at)|)
  }

  /** What the function promises: one pass with the keys tried in order. */
  function Promised(src: Source, dst: Target, ignoreCase: bool, text: seq<Byte>): seq<Byte>
  {
    Substituted(src, dst, ignoreCase, false, text, 0)
  }

  lemma {:induction false} SubstituteHere(src: Source, dst: Target, ignoreCase: bool, table: bool, text: seq<Byte>,
                                          pos: nat)
    requires pos < |text|
    ensures var at := At(src, ignoreCase, table, text, pos); var skip := if at == 0 then 1 else |Key(src, at)|;
            at <= Size(src) && 0 < skip <= |text| - pos &&
            Substituted(src, dst, ignoreCase, table, text, pos) ==
              (if at != 0 then Replacement(src, dst, at) else [text[pos]]) +
              Substituted(src, dst, ignoreCase, table, text, pos + skip)
  {
    hide Pick, Scan, Key, Found, Replacement;
  }

  lemma NothingToSubstitute(src: Source, dst: Target, ignoreCase: bool, table: bool, text: seq<Byte>)
    ensures Substituted(src, dst, ignoreCase, table, text, |text|) == []
  {
  }

  /** Where the table leads to the key of the scan at every position, it changes nothing. */
  lemma {:induction false} SamePicks(src: Source, dst: Target, ignoreCase: bool, text: seq<Byte>, pos: nat)
    requires pos <= |text|
    requires forall p :: pos <= p < |text| ==> Pick(src, ignoreCase, text, p) == Scan(src, ignoreCase, text, p, 1)
    ensures Substituted(src, dst, ignoreCase, true, text, pos) == Substituted(src, dst, ignoreCase, false, text, pos)
    decreases |text| - pos
  {
    hide Substituted, Replacement, Key, Scan, Pick;
    if pos < |text| {
      SubstituteHere(src, dst, ignoreCase, true, text, pos);
      SubstituteHere(src, dst, ignoreCase, false, text, pos);
      var at := At(src, ignoreCase, true, text, pos);
      SamePicks(src, dst, ignoreCase, text, pos + if at == 0 then 1 else |Key(src, at)|);
    } else {
      NothingToSubstitute(src, dst, ignoreCase, true, text);
      NothingToSubstitute(src, dst, ignoreCase, false, text);
    }
  }

  /** Texts long enough for a table and texts that are not are then treated alike. */
  lemma TableChangesNothing(src: Source, dst: Target, ignoreCase: bool, text: seq<Byte>)
    requires CaseHarmless(src, ignoreCase)
    ensures Substituted(src, dst, ignoreCase, true, text, 0) == Substituted(src, dst, ignoreCase, false, text, 0)
  {
    hide Substituted, Pick, Scan;
    forall p: nat | p < |text| ensures Pick(src, ignoreCase, text, p) == Scan(src, ignoreCase, text, p, 1) {
      PickIsScan(src, ignoreCase, text, p);
    }
    SamePicks(src, dst, ignoreCase, text, 0);
  }

  /** A target that shows where key `i` is put, and nothing else. */
  function Showing(ks: seq<seq<Byte>>, i: nat, mark: seq<Byte>): Target {
    Strings(seq(|ks|, k => if k + 1 == i then mark else []))
  }

  lemma {:induction false} NeverShown(ks: seq<seq<Byte>>, i: nat, mark: seq<Byte>, text: seq<Byte>, pos: nat)
    requires pos <= |text| && forall p :: 0 <= p < |text| ==> Pick(Keys(ks), true, text, p) != i
    ensures |Substituted(Keys(ks), Showing(ks, i, mark), true, true, text, pos)| <= |text| - pos
    decreases |text| - pos
  {
    hide Substituted, Pick, Scan;
    var src, dst := Keys(ks), Showing(ks, i, mark);
    if pos < |text| {
      SubstituteHere(src, dst, true, true, text, pos);
      var at := At(src, true, true, text, pos);
      NeverShown(ks, i, mark, text, pos + if at == 0 then 1 else |Key(src, at)|);
    } else {
      NothingToSubstitute(src, dst, true, true, text);
    }
  }

  /** Whatever strings are replaced with, long texts are treated like short ones ignoring case if and only
      if no key begins with a letter. */
  lemma StringsTreatedAlikeIff(ks: seq<seq<Byte>>)
    ensures (forall text: seq<Byte>, dst: Target :: |text| > 1024 ==>
               Substituted(Keys(ks), dst, true, true, text, 0) == Promised(Keys(ks), dst, true, text))
            <==> CaseHarmless(Keys(ks), true)
  {
    hide Substituted, Pick, Scan, LetterStart;
    var src := Keys(ks);
    if CaseHarmless(src, true) {
      forall text: seq<Byte>, dst: Target | |text| > 1024
        ensures Substituted(src, dst, true, true, text, 0) == Promised(src, dst, true, text)
      {
        TableChangesNothing(src, dst, true, text);
      }
    } else {
      var i := FirstLetterStart(src, Size(src));
      CounterexampleFacts(src, i);
      var text := Counterexample(LetterKey(src, i));
      var mark := Zeros(|text| + 1);
      var dst := Showing(ks, i, mark);
      NeverShown(ks, i, mark, text, 0);
      SubstituteHere(src, dst, true, false, text, 0);
      assert Replacement(src, dst, i) == mark;
      assert |Promised(src, dst, true, text)| > |Substituted(src, dst, true, true, text, 0)|;
    }
  }

  /** Where no key is found the text is unchanged. */
  lemma {:induction false} NothingFoundKeepsText(src: Source, dst: Target, ignoreCase: bool, table: bool,
                                                 text: seq<Byte>, pos: nat)
    requires pos <= |text|
    requires forall p :: pos <= p < |text| ==> At(src, ignoreCase, table, text, p) == 0
    ensures Substituted(src, dst, ignoreCase, table, text, pos) == text[pos..]
    decreases |text| - pos
  {
    if pos < |text| {
      NothingFoundKeepsText(src, dst, ignoreCase, table, text, pos + 1);
      assert text[pos..] == [text[pos]] + text[pos + 1..];
    }
  }

  /** The table: for each byte the first key that begins with it, and whether two keys begin alike. */
  method BuildTable(src: Source) returns (ptrOpt: array<nat>, fNext: bool)
    ensures fresh(ptrOpt) && ptrOpt.Length == 256
    ensures forall c: Byte :: ptrOpt[c] == FirstStarting(src, c, Size(src))
    ensures fNext == SharedStart(src, Size(src))
  {
    ptrOpt := new nat[256](_ => 0);
    fNext := false;
    for nAt := 0 to Size(src)
      invariant forall c: Byte :: ptrOpt[c] == FirstStarting(src, c, nAt)
      invariant fNext == SharedStart(src, nAt)
    {
      var key := Key(src, nAt + 1);
      SharedMore(src, nAt);
      if key != [] {
        var uc := key[0];
        if ptrOpt[uc] == 0 {
          ptrOpt[uc] := nAt + 1;
        } else if !src.Chars? {
          fNext := true;
        }
      }
    }
  }

  lemma SharedMore(src: Source, n: nat)
    requires n < Size(src)
    ensures SharedStart(src, n + 1) <==>
            SharedStart(src, n) ||
            (!src.Chars? && Key(src, n + 1) != [] && FirstStarting(src, Key(src, n + 1)[0], n) != 0)
  {
    if SharedStart(src, n + 1) && !SharedStart(src, n) {
      var i, j :| 1 <= i < j <= n + 1 && Key(src, i) != [] && Key(src, j) != [] && Key(src, i)[0] == Key(src, j)[0];
      assert j == n + 1 && StartsWith(src, i, Key(src, j)[0]);
    }
    if Key(src, n + 1) != [] {
      var i := FirstStarting(src, Key(src, n + 1)[0], n);
      if i != 0 && !src.Chars? {
        assert StartsWith(src, i, Key(src, n + 1)[0]);
        assert Key(src, i)[0] == Key(src, n + 1)[0];
      }
    }
  }

  /** The search at one position: the loop over the keys, from the table's entry or from the first. */
  method Search(src: Source, ignoreCase: bool, table: bool, ptrOpt: array<nat>, fNext: bool, text: seq<Byte>, nPos: nat)
    returns (nAt: nat, nSkip: nat)
    requires nPos < |text|
    requires table ==> ptrOpt.Length == 256 && fNext == SharedStart(src, Size(src)) &&
                       forall c: Byte :: ptrOpt[c] == FirstStarting(src, c, Size(src))
    ensures nAt == At(src, ignoreCase, table, text, nPos)
    ensures nSkip == if nAt == 0 then 1 else |Key(src, nAt)|
  {
    if table {
      nAt := ptrOpt[text[nPos]];
      if nAt == 0 || src.Chars? {
        return nAt, 1;
      }
    } else if src.Chars? {
      CharsScan(src, ignoreCase, text, nPos);
      var i := IndexOf(src.chars, text[nPos]);
      return if i < |src.chars| then i + 1 else 0, 1;
    } else {
      nAt := 1;
    }
    ghost var first := nAt;
    while nAt <= Size(src)
      invariant first <= nAt && (table && !fNext ==> nAt == first)
      invariant Scan(src, ignoreCase, text, nPos, first) == Scan(src, ignoreCase, text, nPos, nAt)
      decreases Size(src) + 1 - nAt
    {
      if Found(src, ignoreCase, text, nPos, nAt) {
        return nAt, |Key(src, nAt)|;
      }
      if table && !fNext {
        return 0, 1;
      }
      nAt := nAt + 1;
    }
    return 0, 1;
  }

  /** `memchr` over the characters sought. */
  lemma CharsScan(src: Source, ignoreCase: bool, text: seq<Byte>, pos: nat)
    requires pos < |text| && src.Chars?
    ensures var i := IndexOf(src.chars, text[pos]);
            Scan(src, ignoreCase, text, pos, 1) == if i < |src.chars| then i + 1 else 0
  {
    assert text[pos..pos + 1] == [text[pos]];
    var i := IndexOf(src.chars, text[pos]);
    if i < |src.chars| {
      assert Found(src, ignoreCase, text, pos, i + 1);
    }
  }

  /** The loop that runs twice over the text: first to size the result, then to fill it in. */
  method Replace(src: Source, dst: Target, ignoreCase: bool, text: seq<Byte>) returns (pszResult: array<Byte>)
    requires text != [] && Size(src) > 0
    ensures fresh(pszResult) && pszResult[..] == Substituted(src, dst, ignoreCase, |text| > 1024, text, 0)
  {
    hide Substituted, At, Replacement;
    var nText := |text|;
    var table := nText > 1024;
    var ptrOpt, fNext := new nat[0], false;
    if table {
      ptrOpt, fNext := BuildTable(src);
    }
    ghost var whole := Substituted(src, dst, ignoreCase, table, text, 0);
    var filling := false;
    var nSize: nat, nPos: nat := 0, 0;
    pszResult := new Byte[0];
    while nPos < nText
      invariant nPos <= nText && (nPos == nText ==> filling)
      invariant fresh(pszResult) && fresh(ptrOpt)
      invariant table ==> ptrOpt.Length == 256 && fNext == SharedStart(src, Size(src)) &&
                          forall c: Byte :: ptrOpt[c] == FirstStarting(src, c, Size(src))
      invariant var rest := Substituted(src, dst, ignoreCase, table, text, nPos);
                if filling then pszResult.Length == |whole| && nSize <= |whole| && pszResult[..nSize] + rest == whole
                else nSize + |rest| == |whole|
      decreases !filling, nText - nPos
    {
      var nAt, nSkip := Search(src, ignoreCase, table, ptrOpt, fNext, text, nPos);
      SubstituteHere(src, dst, ignoreCase, table, text, nPos);
      ghost var rest := Substituted(src, dst, ignoreCase, table, text, nPos + nSkip);
      var piece := if nAt != 0 then Replacement(src, dst, nAt) else [text[nPos]];
      if filling {
        Assoc(pszResult[..nSize], piece, rest);
        nSize := WritePiece(pszResult, nSize, piece, rest, whole);
        nPos := nPos + nSkip;
      } else {
        nSize := nSize + |piece|;
        nPos := nPos + nSkip;
        if nPos == nText {
          NothingToSubstitute(src, dst, ignoreCase, table, text);
          pszResult := new Byte[nSize](_ => 0);
          filling := true;
          nSize, nPos := 0, 0;
          assert pszResult[..0] + whole == whole;
        }
      }
    }
    NothingToSubstitute(src, dst, ignoreCase, table, text);
    assert pszResult[..nSize] + [] == pszResult[..nSize];
  }

  /** `memcpy` of a piece of the result, which fits what was sized. */
  method WritePiece(dest: array<Byte>, at: nat, piece: seq<Byte>, ghost rest: seq<Byte>, ghost whole: seq<Byte>)
      returns (end: nat)
    requires at <= dest.Length == |whole| && dest[..at] + (piece + rest) == whole
    modifies dest
    ensures end == at + |piece| <= dest.Length && dest[..end] + rest == whole
  {
    ghost var before := dest[..at];
    assert |before + (piece + rest)| == at + |piece| + |rest|;
    end := at + |piece|;
    for i := 0 to |piece|
      invariant dest[..at + i] == before + piece[..i]
    {
      dest[at + i] := piece[i];
    }
    Assoc(before, piece, rest);
  }

  datatype SourceArgument = Sought(src: Source) | Absent

  /** `EL_STRREPLACE`. A hash stands for its own replacements, and is accepted only without a third argument. */
  method ElStrReplace(pText: Argument, pSrc: SourceArgument, dst: Target, flag: int) returns (r: Result)
    ensures var refused := pText.Missing? || pSrc.Absent? || (pSrc.src.Hash? && !dst.Nil?);
            refused <==> r == ArgumentError
    ensures r.String? ==>
              r.bytes == Substituted(pSrc.src, dst, flag == 1, |pText.bytes| > 1024, pText.bytes, 0)
    ensures r.String? && (|pText.bytes| <= 1024 || CaseHarmless(pSrc.src, flag == 1)) ==>
              r.bytes == Promised(pSrc.src, dst, flag == 1, pText.bytes)
  {
    if pText.Missing? || pSrc.Absent? || (pSrc.src.Hash? && !dst.Nil?) {
      return ArgumentError;
    }
    hide Substituted, At;
    var text, src := pText.bytes, pSrc.src;
    ghost var harmless := CaseHarmless(src, flag == 1);
    if harmless {
      TableChangesNothing(src, dst, flag == 1, text);
    }
    if |text| > 0 && Size(src) > 0 {
      var pszResult := Replace(src, dst, flag == 1, text);
      return String(pszResult[..]);
    }
    NothingSought(src, dst, flag == 1, |text| > 1024, text);
    return String(text);
  }

  lemma NothingSought(src: Source, dst: Target, ignoreCase: bool, table: bool, text: seq<Byte>)
    requires Size(src) == 0 || text == []
    ensures Substituted(src, dst, ignoreCase, table, text, 0) == text
  {
    hide Substituted;
    NothingFoundKeepsText(src, dst, ignoreCase, table, text, 0);
    assert text[0..] == text;
  }

  lemma {:induction false} AllDeleted(text: seq<Byte>, pos: nat)
    requires pos <= |text| && forall p :: 0 <= p < |text| ==> text[p] == 65
    ensures Substituted(Keys([[97]]), Nil, true, false, text, pos) == []
    decreases |text| - pos
  {
    var src := Keys([[97]]);
    if pos < |text| {
      assert text[pos..pos + 1] == [65] && AgreeIgnoringCase([65], [97]);
      assert Found(src, true, text, pos, 1);
      AllDeleted(text, pos + 1);
    }
  }

  /** Deleting "a" from 1025 times "A", ignoring case, deletes nothing where it should delete everything. */
  lemma TableMissesExample()
    ensures var src, text := Keys([[97]]), seq(1025, _ => 65);
            Substituted(src, Nil, true, |text| > 1024, text, 0) == text && Promised(src, Nil, true, text) == []
  {
    var src, text := Keys([[97]]), seq(1025, _ => 65);
    AllDeleted(text, 0);
    forall p | 0 <= p < |text| ensures At(src, true, true, text, p) == 0 {
      assert !StartsWith(src, 1, 65);
    }
    NothingFoundKeepsText(src, Nil, true, true, text, 0);
    assert text[0..] == text;
  }
}
