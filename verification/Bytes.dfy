/** Bytes as C's `unsigned char`, and the few sequence facts the other modules share. */
module Bytes {
  type Byte = b: int | 0 <= b < 256

  /** `x` reduced to an unsigned char; for a negative `x` this is the two's complement byte. */
  function ToByte(x: int): Byte {
    x % 256
  }

  /** The bytes of a C string literal (without its terminator). */
  function Ascii(s: string): (r: seq<Byte>)
    ensures |r| == |s|
  {
    seq(|s|, i requires 0 <= i < |s| => ToByte(s[i] as int))
  }

  function Zeros(n: nat): (r: seq<Byte>)
    ensures |r| == n
  {
    seq(n, _ => 0)
  }

  function Min(a: int, b: int): int {
    if a <= b then a else b
  }

  /** The smallest multiple of 8 that is at least `n`. */
  function AlignInt8(n: nat): (r: nat)
    ensures n <= r < n + 8 && r % 8 == 0
  {
    (n + 7) / 8 * 8
  }

  /** Alignment never leaves room that is itself aligned. */
  lemma AlignFits(n: nat, room: nat)
    requires n <= room && room % 8 == 0
    ensures AlignInt8(n) <= room
  {
  }

  /** The usable size of a stream's buffer: the size asked for, clamped and aligned to 8, less 8
      when the memory allotted is not itself aligned. */
  function BufferSize(asked: int, aligned: bool): (size: nat)
    ensures 24 <= size <= 0x1_0000 && size % 8 == 0
  {
    AlignInt8(Min(if asked < 32 then 32 else asked, 0x1_0000)) - if aligned then 0 else 8
  }

  /** What was asked for, within 32 and 65536, rounded up to a multiple of 8; or the multiple below that. */
  lemma BufferSizeFacts(asked: int, aligned: bool)
    ensures var wanted := if asked < 32 then 32 else if asked > 65536 then 65536 else asked;
            var size := BufferSize(asked, aligned);
            size % 8 == 0 && if aligned then wanted <= size < wanted + 8 else wanted - 8 <= size < wanted
  {
  }

  /** The index of the first occurrence of `c`, or the length when there is none. */
  function IndexOf(s: seq<Byte>, c: Byte): (i: nat)
    ensures i <= |s|
    ensures forall j :: 0 <= j < i ==> s[j] != c
    ensures i < |s| ==> s[i] == c
  {
    if s == [] || s[0] == c then 0 else 1 + IndexOf(s[1..], c)
  }

  /** The C string that starts at a buffer: its bytes up to the first NUL. */
  function CString(s: seq<Byte>): seq<Byte> {
    s[..IndexOf(s, 0)]
  }

  lemma Assoc<T>(a: seq<T>, b: seq<T>, c: seq<T>)
    ensures (a + b) + c == a + (b + c)
  {
  }

  /** A slice of the middle of a concatenation. */
  lemma Middle<T>(a: seq<T>, b: seq<T>, c: seq<T>)
    ensures (a + (b + c))[|a|..|a| + |b|] == b
  {
  }

  lemma SplitAt<T>(s: seq<T>, i: nat, j: nat)
    requires i <= j <= |s|
    ensures s[..i] + s[i..j] == s[..j]
    ensures s[i..][..j - i] == s[i..j]
    ensures s[i..][j - i..] == s[j..]
    ensures s[..i] + s[i..] == s
  {
  }

  lemma HeadAndTail<T>(s: seq<T>, n: nat)
    requires 0 < n <= |s|
    ensures s[..n] == [s[0]] + s[1..][..n - 1]
  {
  }

  lemma DropAppend<T>(a: seq<T>, b: seq<T>)
    ensures (a + b)[|a|..] == b
    ensures (a + b)[..|a|] == a
  {
  }
}
