/** `EL_STRTRAN`: replacing occurrences of one string in another. */
module StrTran {
  import opened Bytes
  import opened Harbour

  /** `toupper` in the C locale. */
  function Upper(c: Byte): Byte {
    if 97 <= c <= 122 then c - 32 else c
  }

  predicate Same(exact: bool, a: Byte, b: Byte) {
    if exact then a == b else Upper(a) == Upper(b)
  }

  /** The first `n` bytes of `seek` are found at `i`. */
  predicate Begins(text: seq<Byte>, seek: seq<Byte>, exact: bool, i: nat, n: nat)
    requires n <= |seek| && i + n <= |text|
  {
    forall k :: 0 <= k < n ==> Same(exact, text[i + k], seek[k])
  }

  predicate Occurs(text: seq<Byte>, seek: seq<Byte>, exact: bool, i: nat) {
    i + |seek| <= |text| && Begins(text, seek, exact, i, |seek|)
  }

  /** The number of leftmost non-overlapping occurrences from `i` on. */
  function Occurrences(text: seq<Byte>, seek: seq<Byte>, exact: bool, i: nat): nat
    requires seek != []
    decreases |text| - i
  {
    if i + |seek| > |text| then 0
    else if Occurs(text, seek, exact, i) then 1 + Occurrences(text, seek, exact, i + |seek|)
    else Occurrences(text, seek, exact, i + 1)
  }

  /** The text from `i` on with its next `skip` occurrences left alone and the `count` after them replaced. */
  function Replaced(text: seq<Byte>, seek: seq<Byte>, replace: seq<Byte>, exact: bool, i: nat, skip: nat,
                    count: nat): seq<Byte>
    requires seek != [] && i <= |text|
    decreases |text| - i
  {
    if i == |text| || count == 0 then text[i..]
    else if !Occurs(text, seek, exact, i) then [text[i]] + Replaced(text, seek, replace, exact, i + 1, skip, count)
    else if skip > 0 then text[i..i + |seek|] + Replaced(text, seek, replace, exact, i + |seek|, skip - 1, count)
    else replace + Replaced(text, seek, replace, exact, i + |seek|, 0, count - 1)
  }

  /** How many occurrences are replaced: those from number `start` on, at most `count` of them
      unless `count` is negative. */
  function Chosen(occurrences: nat, start: int, count: int): nat
    requires start > 0
  {
    var eligible := if occurrences < start then 0 else occurrences - start + 1;
    if count < 0 || eligible <= count then eligible else count
  }

  /** What the function promises. */
  function Translated(text: seq<Byte>, seek: seq<Byte>, replace: seq<Byte>, start: int, count: int, exact: bool)
    : seq<Byte>
  {
    var first := if start <= 0 then 1 else start;
    if count == 0 then []
    else if seek == [] then text
    else Replaced(text, seek, replace, exact, 0, first - 1, Chosen(Occurrences(text, seek, exact, 0), first, count))
  }

  /** What the code writes: an occurrence left alone is written as the string sought, not as it is spelt. */
  function Written(text: seq<Byte>, seek: seq<Byte>, replace: seq<Byte>, exact: bool, i: nat, skip: nat,
                   count: nat): seq<Byte>
    requires seek != [] && i <= |text|
    decreases |text| - i
  {
    if i == |text| || count == 0 then text[i..]
    else if !Occurs(text, seek, exact, i) then [text[i]] + Written(text, seek, replace, exact, i + 1, skip, count)
    else (if skip > 0 then seek else replace) +
         Written(text, seek, replace, exact, i + |seek|, if skip > 0 then skip - 1 else 0,
                 if skip > 0 then count else count - 1)
  }

  /** Every occurrence left alone before the last one replaced is spelt exactly as sought. */
  predicate SkippedAsSought(text: seq<Byte>, seek: seq<Byte>, exact: bool, i: nat, skip: nat, count: nat)
    requires seek != [] && i <= |text|
    decreases |text| - i
  {
    if i == |text| || count == 0 || skip == 0 then true
    else if !Occurs(text, seek, exact, i) then SkippedAsSought(text, seek, exact, i + 1, skip, count)
    else text[i..i + |seek|] == seek && SkippedAsSought(text, seek, exact, i + |seek|, skip - 1, count)
  }

  /** The code writes what it promises if and only if the occurrences it leaves alone are spelt as sought. */
  lemma {:induction false} WrittenIffAsSought(text: seq<Byte>, seek: seq<Byte>, replace: seq<Byte>, exact: bool, i: nat,
                                              skip: nat, count: nat)
    requires seek != [] && i <= |text|
    ensures Written(text, seek, replace, exact, i, skip, count) == Replaced(text, seek, replace, exact, i, skip, count)
            <==> SkippedAsSought(text, seek, exact, i, skip, count)
    decreases |text| - i
  {
    hide Occurs;
    if i == |text| || count == 0 {
    } else if !Occurs(text, seek, exact, i) {
      WrittenIffAsSought(text, seek, replace, exact, i + 1, skip, count);
      var w, r := Written(text, seek, replace, exact, i + 1, skip, count),
          Replaced(text, seek, replace, exact, i + 1, skip, count);
      SameHead([text[i]], [text[i]], w, r);
    } else {
      OccurrenceFits(text, seek, exact, i);
      var s, c := if skip > 0 then skip - 1 else 0, if skip > 0 then count else count - 1;
      var j := i + |seek|;
      WrittenIffAsSought(text, seek, replace, exact, j, s, c);
      var w, r := Written(text, seek, replace, exact, j, s, c), Replaced(text, seek, replace, exact, j, s, c);
      if skip > 0 {
        SameHead(seek, text[i..j], w, r);
      } else {
        SameHead(replace, replace, w, r);
        NoneSkipped(text, seek, exact, j, c);
      }
    }
  }

  lemma OccurrenceFits(text: seq<Byte>, seek: seq<Byte>, exact: bool, i: nat)
    requires Occurs(text, seek, exact, i)
    ensures i + |seek| <= |text|
  {
  }

  lemma NoneSkipped(text: seq<Byte>, seek: seq<Byte>, exact: bool, i: nat, count: nat)
    requires seek != [] && i <= |text|
    ensures SkippedAsSought(text, seek, exact, i, 0, count)
  {
  }

  lemma SameHead(a: seq<Byte>, b: seq<Byte>, x: seq<Byte>, y: seq<Byte>)
    requires |a| == |b|
    ensures a + x == b + y <==> a == b && x == y
  {
    DropAppend(a, x);
    DropAppend(b, y);
  }

  /** An exact search finds what it seeks as it is spelt. */
  lemma {:induction false} ExactIsAsSought(text: seq<Byte>, seek: seq<Byte>, i: nat, skip: nat, count: nat)
    requires seek != [] && i <= |text|
    ensures SkippedAsSought(text, seek, true, i, skip, count)
    decreases |text| - i
  {
    if i == |text| || count == 0 || skip == 0 {
    } else if !Occurs(text, seek, true, i) {
      ExactIsAsSought(text, seek, i + 1, skip, count);
    } else {
      ExactIsAsSought(text, seek, i + |seek|, skip - 1, count);
      forall k | 0 <= k < |seek| ensures text[i..i + |seek|][k] == seek[k] {
        assert Same(true, text[i + k], seek[k]);
      }
      assert text[i..i + |seek|] == seek;
    }
  }

  /** Occurrences take their room in the text. */
  lemma {:induction false} OccurrencesFit(text: seq<Byte>, seek: seq<Byte>, exact: bool, i: nat)
    requires seek != [] && i <= |text|
    ensures Occurrences(text, seek, exact, i) * |seek| <= |text| - i
    decreases |text| - i
  {
    if i + |seek| > |text| {
    } else if Occurs(text, seek, exact, i) {
      var n := Occurrences(text, seek, exact, i + |seek|);
      OccurrencesFit(text, seek, exact, i + |seek|);
      TimesOneMore(1 + n, |seek|);
    } else {
      OccurrencesFit(text, seek, exact, i + 1);
    }
  }

  /** The length of what is written follows from the number of replacements alone. */
  lemma {:induction false} WrittenLength(text: seq<Byte>, seek: seq<Byte>, replace: seq<Byte>, exact: bool, i: nat,
                                         skip: nat, count: nat)
    requires seek != [] && i <= |text| && skip + count <= Occurrences(text, seek, exact, i)
    ensures |Written(text, seek, replace, exact, i, skip, count)| == |text| - i + count * (|replace| - |seek|)
    decreases |text| - i
  {
    hide Occurs;
    var d := |replace| - |seek|;
    if i == |text| || count == 0 {
      TimesZero(d);
    } else if !Occurs(text, seek, exact, i) {
      WrittenLength(text, seek, replace, exact, i + 1, skip, count);
    } else {
      OccurrenceFits(text, seek, exact, i);
      if skip > 0 {
        WrittenLength(text, seek, replace, exact, i + |seek|, skip - 1, count);
      } else {
        WrittenLength(text, seek, replace, exact, i + |seek|, 0, count - 1);
        TimesOneMore(count, d);
      }
    }
  }

  lemma TimesZero(d: int)
    ensures 0 * d == 0
  {
  }

  lemma TimesOneMore(n: int, d: int)
    ensures n * d == d + (n - 1) * d
  {
  }

  /** Replacing each occurrence with what it replaced changes nothing, whichever are chosen. */
  lemma {:induction false} ReplaceBySame(text: seq<Byte>, seek: seq<Byte>, i: nat, skip: nat, count: nat)
    requires seek != [] && i <= |text|
    ensures Replaced(text, seek, seek, true, i, skip, count) == text[i..]
    decreases |text| - i
  {
    if i == |text| || count == 0 {
    } else if !Occurs(text, seek, true, i) {
      ReplaceBySame(text, seek, i + 1, skip, count);
    } else {
      forall k | 0 <= k < |seek| ensures text[i..i + |seek|][k] == seek[k] {
        assert Same(true, text[i + k], seek[k]);
      }
      assert text[i..i + |seek|] == seek;
      ReplaceBySame(text, seek, i + |seek|, if skip > 0 then skip - 1 else 0, if skip > 0 then count else count - 1);
      SplitAt(text, i, i + |seek|);
      assert text[i..] == text[i..i + |seek|] + text[i + |seek|..];
    }
  }

  // ---------------------------------------------------------------------------------------
  // The two passes.

  /** The first pass: a scanner that backs up after a partial match, and stops once enough
      occurrences are found. It counts the occurrences replaced, and those found when it stopped. */
  method CountOccurrences(text: seq<Byte>, seek: seq<Byte>, start: int, count: int, exact: bool)
      returns (nFound: nat, nReplaced: nat)
    requires 0 < |seek| <= |text| && start > 0 && count != 0
    ensures nReplaced == Chosen(Occurrences(text, seek, exact, 0), start, count)
    ensures nReplaced > 0 ==> nFound - nReplaced == start - 1
  {
    hide Occurs, Occurrences, Begins;
    var nText, nSeek := |text|, |seek|;
    var nCount := count;
    var nT: nat, nS: nat := 0, 0;
    nFound, nReplaced := 0, 0;
    ghost var at: nat := 0;      // where the match in progress started
    NothingMatched(text, seek, exact, 0);
    while nT < nText && nText - nT >= nSeek - nS
      invariant nS < nSeek && at + nS == nT <= nText
      invariant nReplaced == (if nFound < start then 0 else nFound - start + 1)
      invariant nCount == count - nReplaced
      invariant if nCount == 0 then nT == nText && nS == 0 && count > 0 && nFound <= Occurrences(text, seek, exact, 0)
                else (nCount < 0) == (count < 0) &&
                     nFound + Occurrences(text, seek, exact, at) == Occurrences(text, seek, exact, 0)
      invariant Begins(text, seek, exact, at, nS)
      decreases nText - at, nSeek - nS
    {
      if Same(exact, text[nT], seek[nS]) {
        MoreMatched(text, seek, exact, at, nS);
        nT := nT + 1;
        nS := nS + 1;
        if nS == nSeek {
          CountIt(text, seek, exact, at);
          nFound := nFound + 1;
          if nFound >= start {
            nReplaced := nReplaced + 1;
            nCount := nCount - 1;
            if nCount == 0 {
              nT := nText;
            }
          }
          nS := 0;
          at := nT;
          NothingMatched(text, seek, exact, at);
        }
      } else {
        PassIt(text, seek, exact, at, nS);
        if nS > 0 {
          nT := nT - (nS - 1);
          nS := 0;
        } else {
          nT := nT + 1;
        }
        at := nT;
        NothingMatched(text, seek, exact, at);
      }
    }
    NoneLeft(text, seek, exact, at);
  }

  lemma CountIt(text: seq<Byte>, seek: seq<Byte>, exact: bool, i: nat)
    requires seek != [] && i + |seek| <= |text| && Begins(text, seek, exact, i, |seek|)
    ensures Occurrences(text, seek, exact, i) == 1 + Occurrences(text, seek, exact, i + |seek|)
  {
  }

  lemma PassIt(text: seq<Byte>, seek: seq<Byte>, exact: bool, i: nat, n: nat)
    requires n < |seek| && i + |seek| <= |text| && !Same(exact, text[i + n], seek[n])
    ensures Occurrences(text, seek, exact, i) == Occurrences(text, seek, exact, i + 1)
  {
    assert !Occurs(text, seek, exact, i);
  }

  lemma NoneLeft(text: seq<Byte>, seek: seq<Byte>, exact: bool, i: nat)
    requires seek != []
    ensures i + |seek| > |text| ==> Occurrences(text, seek, exact, i) == 0
  {
  }

  /** Where an occurrence is still to come, a partial match never reaches the end of the text. */
  lemma {:induction false} RoomAhead(text: seq<Byte>, seek: seq<Byte>, exact: bool, i: nat)
    requires seek != [] && Occurrences(text, seek, exact, i) > 0
    ensures i + |seek| <= |text|
    decreases |text| - i
  {
  }

  /** The second pass: the same scanner writes the result. */
  method WriteReplaced(text: seq<Byte>, seek: seq<Byte>, replace: seq<Byte>, exact: bool, skip: nat, count: nat,
                       nLength: nat)
    returns (szResult: array<Byte>)
    requires 0 < |seek| <= |text| && skip + count <= Occurrences(text, seek, exact, 0)
    requires nLength == |text| + count * (|replace| - |seek|)
    ensures fresh(szResult) && szResult.Length == nLength &&
            szResult[..] == Written(text, seek, replace, exact, 0, skip, count)
  {
    hide Written, Occurs, Occurrences, Begins;
    ghost var whole := Written(text, seek, replace, exact, 0, skip, count);
    WrittenLength(text, seek, replace, exact, 0, skip, count);
    szResult := new Byte[nLength](_ => 0);
    var szPtr: nat := 0;
    var nFound: nat, nReplaced: nat := skip, count;
    var nT: nat, nS: nat := 0, 0;
    ghost var at: nat, rest := 0, whole;      // where the match in progress started, and what is still to be written
    NothingMatched(text, seek, exact, 0);
    assert szResult[..szPtr] + rest == whole;
    while nT < |text|
      invariant nS < |seek| && at + nS == nT <= |text| && szPtr <= nLength
      invariant nReplaced == 0 ==> nS == 0
      invariant nReplaced > 0 ==> nFound + nReplaced <= Occurrences(text, seek, exact, at)
      invariant Begins(text, seek, exact, at, nS)
      invariant rest == Written(text, seek, replace, exact, at, nFound, nReplaced)
      invariant szResult[..szPtr] + rest == whole
      decreases |text| - at, |seek| - nS
    {
      if nReplaced > 0 && Same(exact, text[nT], seek[nS]) {
        MoreMatched(text, seek, exact, at, nS);
        nT := nT + 1;
        nS := nS + 1;
        if nS == |seek| {
          WriteOccurrence(text, seek, replace, exact, at, nFound, nReplaced);
          var szCopy;
          if nFound > 0 {
            nFound := nFound - 1;
            szCopy := seek;
          } else {
            nReplaced := nReplaced - 1;
            szCopy := replace;
          }
          at, rest := nT, Written(text, seek, replace, exact, nT, nFound, nReplaced);
          szPtr := CopyOut(szResult, szPtr, szCopy, rest, whole);
          nS := 0;
          NothingMatched(text, seek, exact, at);
        }
      } else {
        if nS > 0 {
          nT := nT - nS;
        }
        KeepByte(text, seek, replace, exact, at, nS, nFound, nReplaced);
        nS := 0;
        rest := Written(text, seek, replace, exact, at + 1, nFound, nReplaced);
        szPtr := CopyOut(szResult, szPtr, [text[nT]], rest, whole);
        nT := nT + 1;
        at := nT;
        NothingMatched(text, seek, exact, at);
      }
    }
    if nReplaced > 0 {
      RoomAhead(text, seek, exact, at);
    }
    NothingLeft(text, seek, replace, exact, nFound, nReplaced);
    assert szResult[..szPtr] + [] == szResult[..szPtr];
  }

  lemma NothingMatched(text: seq<Byte>, seek: seq<Byte>, exact: bool, i: nat)
    requires i <= |text|
    ensures Begins(text, seek, exact, i, 0)
  {
  }

  lemma MoreMatched(text: seq<Byte>, seek: seq<Byte>, exact: bool, i: nat, n: nat)
    requires n < |seek| && i + n < |text| && Begins(text, seek, exact, i, n) && Same(exact, text[i + n], seek[n])
    ensures Begins(text, seek, exact, i, n + 1)
  {
  }

  lemma NothingLeft(text: seq<Byte>, seek: seq<Byte>, replace: seq<Byte>, exact: bool, skip: nat, count: nat)
    requires seek != []
    ensures Written(text, seek, replace, exact, |text|, skip, count) == []
  {
  }

  lemma WriteOccurrence(text: seq<Byte>, seek: seq<Byte>, replace: seq<Byte>, exact: bool, i: nat, skip: nat,
                        count: nat)
    requires seek != [] && i + |seek| <= |text| && Begins(text, seek, exact, i, |seek|)
    requires count > 0 && skip + count <= Occurrences(text, seek, exact, i)
    ensures var s, c := if skip > 0 then skip - 1 else 0, if skip > 0 then count else count - 1;
            Written(text, seek, replace, exact, i, skip, count) ==
              (if skip > 0 then seek else replace) + Written(text, seek, replace, exact, i + |seek|, s, c) &&
            s + c <= Occurrences(text, seek, exact, i + |seek|)
  {
  }

  /** A byte of the text that starts no occurrence to be replaced is written as it is. */
  lemma KeepByte(text: seq<Byte>, seek: seq<Byte>, replace: seq<Byte>, exact: bool, i: nat, n: nat, skip: nat,
                 count: nat)
    requires n < |seek| && i + n < |text| && (count == 0 || !Same(exact, text[i + n], seek[n]))
    requires count > 0 ==> skip + count <= Occurrences(text, seek, exact, i)
    ensures Written(text, seek, replace, exact, i, skip, count) ==
            [text[i]] + Written(text, seek, replace, exact, i + 1, skip, count)
    ensures count > 0 ==> skip + count <= Occurrences(text, seek, exact, i + 1)
  {
    if count == 0 {
      assert text[i..] == [text[i]] + text[i + 1..];
    } else {
      assert !Occurs(text, seek, exact, i);
    }
  }

  /** The copying loop of the second pass, part of a whole that fits. */
  method CopyOut(dest: array<Byte>, at: nat, bytes: seq<Byte>, ghost rest: seq<Byte>, ghost whole: seq<Byte>)
      returns (end: nat)
    requires at <= dest.Length == |whole| && dest[..at] + (bytes + rest) == whole
    modifies dest
    ensures end == at + |bytes| <= dest.Length && dest[..end] == old(dest[..at]) + bytes && dest[..end] + rest == whole
  {
    end := at;
    ghost var before := dest[..at];
    assert |before + (bytes + rest)| == at + |bytes| + |rest|;
    for i := 0 to |bytes|
      invariant end == at + i && dest[..end] == before + bytes[..i]
    {
      dest[end] := bytes[i];
      end := end + 1;
    }
    Assoc(before, bytes, rest);
  }

  /** What the code produces, for every argument. */
  function Produced(text: seq<Byte>, seek: seq<Byte>, replace: seq<Byte>, start: int, count: int, exact: bool)
    : seq<Byte>
  {
    var first := if start <= 0 then 1 else start;
    if count == 0 then []
    else if seek == [] then text
    else Written(text, seek, replace, exact, 0, first - 1, Chosen(Occurrences(text, seek, exact, 0), first, count))
  }

  /** The occurrences left alone before the last one replaced are spelt as sought. */
  predicate KeepsSpelling(text: seq<Byte>, seek: seq<Byte>, start: int, count: int, exact: bool) {
    var first := if start <= 0 then 1 else start;
    count == 0 || seek == [] ||
    SkippedAsSought(text, seek, exact, 0, first - 1, Chosen(Occurrences(text, seek, exact, 0), first, count))
  }

  /** The code keeps its promise if and only if the occurrences it leaves alone are spelt as sought. */
  lemma ProducesTranslationIff(text: seq<Byte>, seek: seq<Byte>, replace: seq<Byte>, start: int, count: int,
                               exact: bool)
    ensures Produced(text, seek, replace, start, count, exact) == Translated(text, seek, replace, start, count, exact)
            <==> KeepsSpelling(text, seek, start, count, exact)
  {
    var first := if start <= 0 then 1 else start;
    if seek != [] {
      WrittenIffAsSought(text, seek, replace, exact, 0, first - 1,
                         Chosen(Occurrences(text, seek, exact, 0), first, count));
    }
  }

  /** So it does whenever the search is exact, and whenever it starts at the first occurrence. */
  lemma ExactOrFirstTranslates(text: seq<Byte>, seek: seq<Byte>, replace: seq<Byte>, start: int, count: int,
                               exact: bool)
    requires exact || start <= 1
    ensures Produced(text, seek, replace, start, count, exact) == Translated(text, seek, replace, start, count, exact)
  {
    var first := if start <= 0 then 1 else start;
    if seek != [] {
      var n := Chosen(Occurrences(text, seek, exact, 0), first, count);
      if exact {
        ExactIsAsSought(text, seek, 0, first - 1, n);
      } else {
        NoneSkipped(text, seek, exact, 0, n);
      }
    }
    ProducesTranslationIff(text, seek, replace, start, count, exact);
  }

  /** In "Aa", replacing "a" with "x" from the second occurrence on, ignoring case, loses the capital. */
  lemma RespellingExample()
    ensures var text, seek, replace := Ascii("Aa"), Ascii("a"), Ascii("x");
            Produced(text, seek, replace, 2, -1, false) == Ascii("ax") &&
            Translated(text, seek, replace, 2, -1, false) == Ascii("Ax")
  {
    var text, seek, replace := Ascii("Aa"), Ascii("a"), Ascii("x");
    assert text == [65, 97] && seek == [97] && replace == [120] && Ascii("ax") == [97, 120] && Ascii("Ax") == [65, 120];
    assert Begins(text, seek, false, 0, 1) && Begins(text, seek, false, 1, 1);
    assert Occurrences(text, seek, false, 2) == 0;
    assert Occurrences(text, seek, false, 1) == 1;
    assert Occurrences(text, seek, false, 0) == 2;
    assert Written(text, seek, replace, false, 2, 0, 0) == [];
    assert Written(text, seek, replace, false, 1, 0, 1) == [120] + [];
    assert Replaced(text, seek, replace, false, 2, 0, 0) == [];
    assert Replaced(text, seek, replace, false, 1, 0, 1) == [120] + [];
  }

  /** The two branches that compute the length of the result. */
  lemma LengthsAgree(text: nat, seek: nat, replace: nat, n: nat)
    ensures (if seek > replace then text - (seek - replace) * n else text + (replace - seek) * n) ==
            text + n * (replace - seek)
  {
  }

  lemma NothingReplaced(text: seq<Byte>, seek: seq<Byte>, replace: seq<Byte>, exact: bool, skip: nat)
    requires seek != []
    ensures Written(text, seek, replace, exact, 0, skip, 0) == text
    ensures |seek| > |text| ==> Occurrences(text, seek, exact, 0) == 0
  {
    assert text[0..] == text;
  }

  /** `EL_STRTRAN`. */
  method ElStrTran(pText: Argument, pSeek: Argument, pReplace: Argument, start: int, count: int, flag: int)
      returns (r: Result)
    ensures r == if pText.Missing? || pSeek.Missing? then ArgumentError
                 else String(Produced(pText.bytes, pSeek.bytes, if pReplace.Given? then pReplace.bytes else [],
                                      start, count, flag != 1))
    ensures pText.Given? && pSeek.Given? && count == 0 ==> r == String([])
    ensures pText.Given? && pSeek.Given? && count != 0 && (pSeek.bytes == [] || |pSeek.bytes| > |pText.bytes|) ==>
              r == String(pText.bytes)
  {
    hide Written, Occurs, Occurrences;
    if pText.Missing? || pSeek.Missing? {
      return ArgumentError;
    }
    var text, seek, replace := pText.bytes, pSeek.bytes, if pReplace.Given? then pReplace.bytes else [];
    var exact := flag != 1;
    var nStart := if start <= 0 then 1 else start;
    if count == 0 {
      return String([]);
    }
    if seek != [] {
      NothingReplaced(text, seek, replace, exact, nStart - 1);
    }
    if !(seek != [] && |seek| <= |text|) {
      return String(text);
    }
    var nFound, nReplaced := CountOccurrences(text, seek, nStart, count, exact);
    if nReplaced == 0 {
      return String(text);
    }
    LengthsAgree(|text|, |seek|, |replace|, nReplaced);
    var nLength := if |seek| > |replace| then |text| - (|seek| - |replace|) * nReplaced
                   else |text| + (|replace| - |seek|) * nReplaced;
    WrittenLength(text, seek, replace, exact, 0, nStart - 1, nReplaced);
    if nLength == 0 {
      return String([]);
    }
    var szResult := WriteReplaced(text, seek, replace, exact, nFound - nReplaced, nReplaced, nLength);
    return String(szResult[..]);
  }
}
