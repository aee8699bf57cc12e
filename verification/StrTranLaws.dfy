/** What `EL_STRTRAN` means, said of its text and result alone. */
module StrTranLaws {
  import opened Bytes
  import opened Harbour
  import opened StrTran

  /** What is sought is found at a position, byte by byte. */
  predicate IsAt(text: seq<Byte>, seek: seq<Byte>, exact: bool, i: int) {
    0 <= i && i + |seek| <= |text| && forall k :: 0 <= k < |seek| ==> Alike(!exact, text[i + k], seek[k])
  }

  /** The positions of the leftmost occurrences that do not overlap, from `pos` on. */
  predicate Leftmost(text: seq<Byte>, seek: seq<Byte>, exact: bool, pos: nat, at: seq<nat>)
    decreases |at|
  {
    if at == [] then forall i :: pos <= i <= |text| ==> !IsAt(text, seek, exact, i)
    else pos <= at[0] && IsAt(text, seek, exact, at[0]) &&
         (forall i :: pos <= i < at[0] ==> !IsAt(text, seek, exact, i)) &&
         Leftmost(text, seek, exact, at[0] + |seek|, at[1..])
  }

  /** Whether occurrence number `n`, counting from 1, is replaced: those from number `start` on, and `count`
      of them unless that is negative. */
  predicate Replaces(n: nat, start: int, count: int) {
    start <= n && (count < 0 || n < start + count)
  }

  /** The text from `pos` on with its occurrences dealt with, the next of which has number `n`. What is not
      replaced stays as it is; or, if `respell`, is written as the string sought if it comes before `start`. */
  function Spliced(text: seq<Byte>, seek: seq<Byte>, replace: seq<Byte>, exact: bool, start: int, count: int,
                   respell: bool, pos: nat, at: seq<nat>, n: nat): seq<Byte>
    requires pos <= |text| && Leftmost(text, seek, exact, pos, at)
    decreases |at|
  {
    if at == [] then text[pos..]
    else
      var end := at[0] + |seek|;
      text[pos..at[0]] +
      (if Replaces(n, start, count) then replace else if respell && n < start then seek else text[at[0]..end]) +
      Spliced(text, seek, replace, exact, start, count, respell, end, at[1..], n + 1)
  }

  /** How many of the `k` occurrences from number `n` on are replaced. */
  function Count(n: nat, k: nat, start: int, count: int): nat
    decreases k
  {
    if k == 0 then 0 else (if Replaces(n, start, count) then 1 else 0) + Count(n + 1, k - 1, start, count)
  }

  lemma UpperIsAlike(a: Byte, b: Byte)
    ensures Upper(a) == Upper(b) <==> Alike(true, a, b)
  {
  }

  lemma OccursIsAt(text: seq<Byte>, seek: seq<Byte>, exact: bool, i: nat)
    ensures Occurs(text, seek, exact, i) <==> IsAt(text, seek, exact, i)
  {
    if i + |seek| <= |text| {
      forall k | 0 <= k < |seek| ensures Same(exact, text[i + k], seek[k]) <==> Alike(!exact, text[i + k], seek[k]) {
        UpperIsAlike(text[i + k], seek[k]);
      }
    }
  }

  /** The code's scan finds the leftmost occurrences. */
  lemma {:induction false} Positions(text: seq<Byte>, seek: seq<Byte>, exact: bool, pos: nat) returns (at: seq<nat>)
    requires seek != []
    ensures Leftmost(text, seek, exact, pos, at)
    decreases |text| - pos
  {
    hide Occurs;
    OccursIsAt(text, seek, exact, pos);
    if pos + |seek| > |text| {
      at := [];
    } else if Occurs(text, seek, exact, pos) {
      var more := Positions(text, seek, exact, pos + |seek|);
      at := [pos] + more;
      assert at[1..] == more;
    } else {
      at := Positions(text, seek, exact, pos + 1);
      NotHere(text, seek, exact, pos, at);
    }
  }

  lemma NotHere(text: seq<Byte>, seek: seq<Byte>, exact: bool, pos: nat, at: seq<nat>)
    requires !IsAt(text, seek, exact, pos) && Leftmost(text, seek, exact, pos + 1, at)
    ensures Leftmost(text, seek, exact, pos, at)
  {
  }

  lemma FurtherOn(text: seq<Byte>, seek: seq<Byte>, exact: bool, pos: nat, at: seq<nat>)
    requires Leftmost(text, seek, exact, pos, at)
    ensures if IsAt(text, seek, exact, pos) then at != [] && at[0] == pos
            else Leftmost(text, seek, exact, pos + 1, at) && (at != [] ==> at[0] > pos)
  {
  }

  lemma {:induction false} OnlyPositions(text: seq<Byte>, seek: seq<Byte>, exact: bool, pos: nat, a: seq<nat>,
                                         b: seq<nat>)
    requires Leftmost(text, seek, exact, pos, a) && Leftmost(text, seek, exact, pos, b)
    ensures a == b
    decreases |a|
  {
    hide IsAt;
    if a != [] {
      AtFits(text, seek, exact, a[0]);
      if b != [] {
        AtFits(text, seek, exact, b[0]);
        OnlyPositions(text, seek, exact, a[0] + |seek|, a[1..], b[1..]);
        assert a == [a[0]] + a[1..] && b == [b[0]] + b[1..];
      }
    } else if b != [] {
      AtFits(text, seek, exact, b[0]);
    }
  }

  /** And counts them. */
  lemma {:induction false} CountsAll(text: seq<Byte>, seek: seq<Byte>, exact: bool, pos: nat, at: seq<nat>)
    requires seek != [] && Leftmost(text, seek, exact, pos, at)
    ensures Occurrences(text, seek, exact, pos) == |at|
    decreases |text| - pos
  {
    hide Occurs, IsAt;
    OccursIsAt(text, seek, exact, pos);
    if pos + |seek| > |text| {
      Nowhere(text, seek, exact, pos, at);
    } else {
      FurtherOn(text, seek, exact, pos, at);
      if Occurs(text, seek, exact, pos) {
        CountsAll(text, seek, exact, pos + |seek|, at[1..]);
      } else {
        CountsAll(text, seek, exact, pos + 1, at);
      }
    }
  }

  lemma Nowhere(text: seq<Byte>, seek: seq<Byte>, exact: bool, pos: nat, at: seq<nat>)
    requires pos + |seek| > |text| && Leftmost(text, seek, exact, pos, at)
    ensures at == []
  {
  }

  /** A number of replacements as the code computes it. */
  lemma {:induction false} ChosenIsCount(n: nat, k: nat, start: int, count: int)
    requires start > 0
    ensures Count(n, k, start, count) == Reckoned(n, k, start, count)
    decreases k
  {
    if k > 0 {
      ChosenIsCount(n + 1, k - 1, start, count);
    }
  }

  /** The same in one step: from the later of two numbers to the earlier of two. */
  function Reckoned(n: nat, k: nat, start: int, count: int): nat {
    var first := if n < start then start else n;
    var last := if count < 0 || n + k < start + count then n + k else start + count;
    if last <= first then 0 else last - first
  }

  /** Where nothing is left to be replaced, nothing is changed. */
  lemma {:induction false} NothingSpliced(text: seq<Byte>, seek: seq<Byte>, replace: seq<Byte>, exact: bool, start: int,
                                          count: int, respell: bool, pos: nat, at: seq<nat>, n: nat)
    requires pos <= |text| && Leftmost(text, seek, exact, pos, at) && Count(n, |at|, start, count) == 0
    requires !respell || start <= n
    ensures Spliced(text, seek, replace, exact, start, count, respell, pos, at, n) == text[pos..]
    decreases |at|
  {
    hide IsAt;
    if at != [] {
      AtFits(text, seek, exact, at[0]);
      var end := at[0] + |seek|;
      NothingSpliced(text, seek, replace, exact, start, count, respell, end, at[1..], n + 1);
      assert text[pos..] == text[pos..at[0]] + text[at[0]..end] + text[end..];
    }
  }

  lemma AtFits(text: seq<Byte>, seek: seq<Byte>, exact: bool, i: nat)
    requires IsAt(text, seek, exact, i)
    ensures i + |seek| <= |text|
  {
  }

  /** A byte at which nothing is found. */
  lemma SplicedByte(text: seq<Byte>, seek: seq<Byte>, replace: seq<Byte>, exact: bool, start: int,
                    count: int, respell: bool, pos: nat, at: seq<nat>, n: nat)
    requires pos < |text| && Leftmost(text, seek, exact, pos, at) && !IsAt(text, seek, exact, pos)
    ensures Leftmost(text, seek, exact, pos + 1, at)
    ensures Spliced(text, seek, replace, exact, start, count, respell, pos, at, n) ==
            [text[pos]] + Spliced(text, seek, replace, exact, start, count, respell, pos + 1, at, n)
  {
    hide IsAt;
    FurtherOn(text, seek, exact, pos, at);
    if at == [] {
      assert text[pos..] == [text[pos]] + text[pos + 1..];
    } else {
      AtFits(text, seek, exact, at[0]);
      assert text[pos..at[0]] == [text[pos]] + text[pos + 1..at[0]];
      var end := at[0] + |seek|;
      var mid := if Replaces(n, start, count) then replace
                 else if respell && n < start then seek else text[at[0]..end];
      var more := Spliced(text, seek, replace, exact, start, count, respell, end, at[1..], n + 1);
      Assoc([text[pos]], text[pos + 1..at[0]], mid);
      Assoc([text[pos]], text[pos + 1..at[0]] + mid, more);
    }
  }

  /** What is promised, from a position on. */
  lemma {:induction false} ReplacedIsSpliced(text: seq<Byte>, seek: seq<Byte>, replace: seq<Byte>, exact: bool,
                                             start: int, count: int, pos: nat, at: seq<nat>, n: nat)
    requires seek != [] && pos <= |text| && start > 0 && Leftmost(text, seek, exact, pos, at)
    ensures Replaced(text, seek, replace, exact, pos, if n < start then start - n else 0,
                     Count(n, |at|, start, count)) ==
            Spliced(text, seek, replace, exact, start, count, false, pos, at, n)
    decreases |text| - pos
  {
    hide Occurs, IsAt, Leftmost, Replaces, Spliced;
    var skip, left := if n < start then start - n else 0, Count(n, |at|, start, count);
    if pos == |text| || left == 0 {
      AtTheEnd(text, seek, exact, pos, at);
      NothingSpliced(text, seek, replace, exact, start, count, false, pos, at, n);
    } else {
      OccursIsAt(text, seek, exact, pos);
      FurtherOn(text, seek, exact, pos, at);
      if !Occurs(text, seek, exact, pos) {
        SplicedByte(text, seek, replace, exact, start, count, false, pos, at, n);
        ReplacedIsSpliced(text, seek, replace, exact, start, count, pos + 1, at, n);
      } else {
        SplicedHere(text, seek, replace, exact, start, count, false, pos, at, n);
        ReplacedIsSpliced(text, seek, replace, exact, start, count, pos + |seek|, at[1..], n + 1);
        ReplacesHere(n, |at|, start, count);
      }
    }
  }

  lemma AtTheEnd(text: seq<Byte>, seek: seq<Byte>, exact: bool, pos: nat, at: seq<nat>)
    requires seek != [] && Leftmost(text, seek, exact, pos, at)
    ensures pos >= |text| ==> at == []
  {
  }

  lemma SplicedHere(text: seq<Byte>, seek: seq<Byte>, replace: seq<Byte>, exact: bool, start: int,
                    count: int, respell: bool, pos: nat, at: seq<nat>, n: nat)
    requires pos <= |text| && Leftmost(text, seek, exact, pos, at) && at != [] && at[0] == pos
    ensures pos + |seek| <= |text| && Leftmost(text, seek, exact, pos + |seek|, at[1..])
    ensures Spliced(text, seek, replace, exact, start, count, respell, pos, at, n) ==
            (if Replaces(n, start, count) then replace
             else if respell && n < start then seek else text[pos..pos + |seek|]) +
            Spliced(text, seek, replace, exact, start, count, respell, pos + |seek|, at[1..], n + 1)
  {
    var mid := if Replaces(n, start, count) then replace
               else if respell && n < start then seek else text[pos..pos + |seek|];
    assert text[pos..pos] + mid == mid;
  }

  /** While some are still to be replaced, the next is replaced exactly from `start` on. */
  lemma ReplacesHere(n: nat, k: nat, start: int, count: int)
    requires start > 0 && Count(n, k, start, count) > 0
    ensures k > 0 && (Replaces(n, start, count) <==> start <= n)
    ensures Count(n, k, start, count) == (if start <= n then 1 else 0) + Count(n + 1, k - 1, start, count)
  {
    ChosenIsCount(n, k, start, count);
  }

  /** What the code writes, from a position on. */
  lemma {:induction false} WrittenIsSpliced(text: seq<Byte>, seek: seq<Byte>, replace: seq<Byte>, exact: bool,
                                            start: int, count: int, pos: nat, at: seq<nat>, n: nat)
    requires seek != [] && pos <= |text| && start > 0 && Leftmost(text, seek, exact, pos, at)
    requires Count(n, |at|, start, count) > 0 || start <= n
    ensures Written(text, seek, replace, exact, pos, if n < start then start - n else 0,
                    Count(n, |at|, start, count)) ==
            Spliced(text, seek, replace, exact, start, count, true, pos, at, n)
    decreases |text| - pos
  {
    hide Occurs, IsAt, Leftmost, Replaces, Spliced;
    var skip, left := if n < start then start - n else 0, Count(n, |at|, start, count);
    if pos == |text| || left == 0 {
      AtTheEnd(text, seek, exact, pos, at);
      NothingSpliced(text, seek, replace, exact, start, count, true, pos, at, n);
    } else {
      OccursIsAt(text, seek, exact, pos);
      FurtherOn(text, seek, exact, pos, at);
      if !Occurs(text, seek, exact, pos) {
        SplicedByte(text, seek, replace, exact, start, count, true, pos, at, n);
        WrittenIsSpliced(text, seek, replace, exact, start, count, pos + 1, at, n);
      } else {
        SplicedHere(text, seek, replace, exact, start, count, true, pos, at, n);
        ReplacesHere(n, |at|, start, count);
        WrittenIsSpliced(text, seek, replace, exact, start, count, pos + |seek|, at[1..], n + 1);
      }
    }
  }

  /** The law of the promise: occurrence number n is replaced if and only if start <= n and, unless `count` is
      negative, n < start + count; all other bytes stay. */
  lemma {:induction false} TranslatedLaw(text: seq<Byte>, seek: seq<Byte>, replace: seq<Byte>, start: int, count: int,
                                         exact: bool) returns (at: seq<nat>)
    requires seek != [] && count != 0
    ensures Leftmost(text, seek, exact, 0, at) && forall other :: Leftmost(text, seek, exact, 0, other) ==> other == at
    ensures Translated(text, seek, replace, start, count, exact) ==
            Spliced(text, seek, replace, exact, if start <= 0 then 1 else start, count, false, 0, at, 1)
  {
    hide Occurrences, Replaced, Spliced, Leftmost;
    var first := if start <= 0 then 1 else start;
    at := Positions(text, seek, exact, 0);
    CountsAll(text, seek, exact, 0, at);
    ChosenIsCount(1, |at|, first, count);
    ReplacedIsSpliced(text, seek, replace, exact, first, count, 0, at, 1);
    forall other | Leftmost(text, seek, exact, 0, other) ensures other == at {
      OnlyPositions(text, seek, exact, 0, other, at);
    }
  }

  /** The law of what the code produces: the same, but that the occurrences before `start` are written as the
      string sought if there is one to be replaced. The length follows from the number of replacements, which is
      no more than `count` and than the occurrences from `start` on, and less than those only if it is `count`. */
  lemma {:induction false} ProducedLaw(text: seq<Byte>, seek: seq<Byte>, replace: seq<Byte>, start: int, count: int,
                                       exact: bool) returns (at: seq<nat>, replacements: nat)
    requires seek != [] && count != 0
    ensures Leftmost(text, seek, exact, 0, at)
    ensures var first := if start <= 0 then 1 else start;
            Produced(text, seek, replace, start, count, exact) ==
            Spliced(text, seek, replace, exact, first, count, first <= |at|, 0, at, 1)
    ensures |Produced(text, seek, replace, start, count, exact)| == |text| + replacements * (|replace| - |seek|)
    ensures var first := if start <= 0 then 1 else start;
            var eligible := if |at| < first then 0 else |at| - first + 1;
            replacements <= eligible && (count >= 0 ==> replacements <= count) &&
            (replacements < eligible ==> replacements == count)
  {
    hide Occurrences, Written, Spliced, Leftmost;
    var first := if start <= 0 then 1 else start;
    at := Positions(text, seek, exact, 0);
    CountsAll(text, seek, exact, 0, at);
    ChosenIsCount(1, |at|, first, count);
    replacements := Count(1, |at|, first, count);
    if replacements > 0 {
      WrittenIsSpliced(text, seek, replace, exact, first, count, 0, at, 1);
      WrittenLength(text, seek, replace, exact, 0, first - 1, replacements);
    } else {
      NothingSpliced(text, seek, replace, exact, first, count, false, 0, at, 1);
      NothingReplaced(text, seek, replace, exact, first - 1);
      assert text[0..] == text;
    }
  }

  /** Behind the last occurrence replaced the text stays. */
  lemma {:induction false} TailStays(text: seq<Byte>, seek: seq<Byte>, replace: seq<Byte>, exact: bool, start: int,
                                     count: int, respell: bool, pos: nat, at: seq<nat>, n: nat)
    requires pos <= |text| && Leftmost(text, seek, exact, pos, at) && count > 0 && start + count <= n
    ensures Spliced(text, seek, replace, exact, start, count, respell, pos, at, n) == text[pos..]
  {
    ChosenIsCountNone(n, |at|, start, count);
    NothingSpliced(text, seek, replace, exact, start, count, respell, pos, at, n);
  }

  lemma {:induction false} ChosenIsCountNone(n: nat, k: nat, start: int, count: int)
    requires count > 0 && start + count <= n
    ensures Count(n, k, start, count) == 0
    decreases k
  {
    if k > 0 {
      ChosenIsCountNone(n + 1, k - 1, start, count);
    }
  }
}
