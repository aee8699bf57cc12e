/** The growable, NULL-terminated vector of `name=value` strings, and how values are looked up in it. */
module Parameters {
  import opened Bytes
  import opened NameValue

  datatype Pointer = NULL | String(bytes: seq<Byte>)

  class Params {
    var vec: array<Pointer>
    var length: nat
    var cur: nat

    ghost predicate Valid()
      reads this, vec
    {
      length == vec.Length && cur < length && vec[cur].NULL? &&
      forall i :: 0 <= i < cur ==> vec[i].String?
    }

    /** The entries stored so far, in order. */
    ghost function Contents(): seq<seq<Byte>>
      requires Valid()
      reads this, vec
    {
      seq(cur, i requires 0 <= i < cur reads this, vec requires Valid() => vec[i].bytes)
    }

    constructor (length: nat)
      requires length > 0
      ensures Valid() && Contents() == [] && fresh(vec)
    {
      this.vec := new Pointer[length](_ => NULL);
      this.length, this.cur := length, 0;
    }

    /** `PutParam`: append, doubling the vector when its last slot would be used up. */
    method PutParam(nameValue: seq<Byte>)
      requires Valid()
      modifies this, vec
      ensures Valid() && Contents() == old(Contents()) + [nameValue]
      ensures vec == old(vec) || fresh(vec)
    {
      vec[cur] := String(nameValue);
      cur := cur + 1;
      if cur >= length {
        length := length * 2;
        var grown := new Pointer[length](_ => NULL);
        for i := 0 to cur
          invariant forall j :: 0 <= j < i ==> grown[j] == vec[j]
          modifies grown
        {
          grown[i] := vec[i];
        }
        vec := grown;
      }
      vec[cur] := NULL;
    }

    /** `FCGX_GetParam`: the value of the first entry that starts with the name and '='. */
    method GetParam(name: seq<Byte>) returns (value: Pointer)
      requires Valid()
      ensures value == Lookup(Contents(), name)
    {
      var p := 0;
      while !vec[p].NULL?
        invariant p <= cur
        invariant Lookup(Contents(), name) == Lookup(Contents()[p..], name)
        decreases cur - p
      {
        var s := vec[p].bytes;
        assert Contents()[p] == s && Contents()[p..][1..] == Contents()[p + 1..];
        if Names(s, name) {
          return String(CString(s[|name| + 1..]));
        }
        p := p + 1;
      }
      value := NULL;
    }
  }

  /** `strncmp` over the length of a name without NULs, followed by a '='. */
  predicate Names(s: seq<Byte>, name: seq<Byte>) {
    |name| < |s| && s[..|name|] == name && s[|name|] == EQ
  }

  function Lookup(entries: seq<seq<Byte>>, name: seq<Byte>): Pointer {
    if entries == [] then NULL
    else if Names(entries[0], name) then String(CString(entries[0][|name| + 1..]))
    else Lookup(entries[1..], name)
  }

  /** The first pair of a name, as an application means it. */
  function FirstNamed(ps: seq<Pair>, name: seq<Byte>): Pointer {
    if ps == [] then NULL
    else if ps[0].name == name then String(CString(ps[0].value))
    else FirstNamed(ps[1..], name)
  }

  /** A name without '=' only ever matches the entry of a pair of that very name. */
  lemma NamesIsName(p: Pair, name: seq<Byte>)
    requires EQ !in name && EQ !in p.name
    ensures Names(Entry(p), name) <==> p.name == name
  {
    var e := Entry(p);
    assert e[|p.name|] == EQ;
    if Names(e, name) {
      IndexOfUnique(e, EQ, |name|);
      IndexOfUnique(e, EQ, |p.name|);
      assert e[..|p.name|] == p.name;
    }
  }

  /** Looking a name up among the stored entries finds the value of the first pair of that name. */
  lemma {:induction false} LookupFindsFirst(ps: seq<Pair>, name: seq<Byte>)
    requires EQ !in name && forall p :: p in ps ==> EQ !in p.name
    ensures Lookup(Entries(ps), name) == FirstNamed(ps, name)
  {
    if ps != [] {
      assert ps[0] in ps;
      NamesIsName(ps[0], name);
      LookupFindsFirst(ps[1..], name);
      assert Entries(ps)[0] == Entry(ps[0]);
      assert Entries(ps)[1..] == Entries(ps[1..]);
      if ps[0].name == name {
        assert Entry(ps[0])[|name| + 1..] == ps[0].value;
      }
    }
  }

  /** `HB_FCGI_GET_REQUEST_VARIABLES`: the pairs added to the hash, in the order of the entries. */
  function Variables(entries: seq<seq<Byte>>): seq<Pair> {
    if entries == [] then [] else
    var n := |entries| - 1;
    var s := SplitEntry(entries[n]);
    Variables(entries[..n]) + if s.Split? then [Pair(s.name, s.value)] else []
  }

  /** `hb_strAt` for '=': the position counted from 1, or 0. */
  method StrAtEq(s: seq<Byte>) returns (at: nat)
    ensures at == if IndexOf(s, EQ) < |s| then IndexOf(s, EQ) + 1 else 0
  {
    for i := 0 to |s|
      invariant EQ !in s[..i]
    {
      if s[i] == EQ {
        IndexOfUnique(s, EQ, i);
        return i + 1;
      }
    }
    IndexOfUnique(s, EQ, |s|);
    return 0;
  }

  method GetRequestVariables(envp: Params) returns (attributes: seq<Pair>)
    requires envp.Valid()
    ensures attributes == Variables(envp.Contents())
  {
    attributes := [];
    var p := 0;
    while !envp.vec[p].NULL?
      invariant p <= envp.cur
      invariant attributes == Variables(envp.Contents()[..p])
      decreases envp.cur - p
    {
      ghost var seen := envp.Contents()[..p + 1];
      assert seen[..p] == envp.Contents()[..p] && seen[p] == envp.vec[p].bytes;
      var s := CString(envp.vec[p].bytes);
      var nLen := |s|;
      assert attributes + [] == attributes;
      var nPos := StrAtEq(s);
      if nPos > 0 {
        var hbName, hbValue := s[..nPos - 1], s[nPos..nLen];
        assert hbValue == s[nPos..];
        attributes := attributes + [Pair(hbName, hbValue)];
      }
      p := p + 1;
    }
    assert envp.Contents()[..p] == envp.Contents();
  }

  /** Every pair a C string can carry comes back from its entry, in order. */
  lemma {:induction false} VariablesInvertEntries(ps: seq<Pair>)
    requires forall p :: p in ps ==> Plain(p)
    ensures Variables(Entries(ps)) == ps
  {
    if ps != [] {
      var n := |ps| - 1;
      VariablesInvertEntries(ps[..n]);
      assert Entries(ps)[..n] == Entries(ps[..n]) && Entries(ps)[n] == Entry(ps[n]);
      SplitInvertsEntry(ps[n]);
      assert ps == ps[..n] + [ps[n]];
    }
  }

  /** Any entries at all: each adds what it adds by itself. */
  lemma {:induction false} VariablesAppend(a: seq<seq<Byte>>, b: seq<seq<Byte>>)
    ensures Variables(a + b) == Variables(a) + Variables(b)
    decreases |b|
  {
    hide SplitEntry;
    if b == [] {
      assert a + b == a && Variables(a) + [] == Variables(a);
    } else {
      var n := |b| - 1;
      VariablesAppend(a, b[..n]);
      assert (a + b)[..|a + b| - 1] == a + b[..n] && (a + b)[|a + b| - 1] == b[n];
      var s := SplitEntry(b[n]);
      Assoc(Variables(a), Variables(b[..n]), if s.Split? then [Pair(s.name, s.value)] else []);
    }
  }

  /** An entry adds what is before and behind its first '=', up to the first NUL, and nothing if there is no '='. */
  lemma VariablesOfOne(name: seq<Byte>, value: seq<Byte>, rest: seq<Byte>)
    requires 61 !in name && 0 !in name && 0 !in value && (rest != [] ==> rest[0] == 0)
    ensures Variables([name + [61] + value + rest]) == [Pair(name, value)]
    ensures Variables([name + rest]) == []
  {
    var e, f := name + [61] + value + rest, name + rest;
    var n, m := |name| + 1 + |value|, |name|;
    assert forall j :: 0 <= j < n ==> e[j] == (name + [61] + value)[j];
    IndexOfUnique(e, 0, n);
    IndexOfUnique(f, 0, m);
    assert CString(e) == name + [61] + value && CString(f) == name;
    IndexOfUnique(CString(e), EQ, |name|);
    IndexOfUnique(CString(f), EQ, |name|);
    assert [e][..0] == [] == [f][..0];
    assert CString(e)[..|name|] == name && CString(e)[|name| + 1..] == value;
  }
}
