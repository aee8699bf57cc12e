/** Records on the wire: FastCGI Specification 1.0, sections 3.3 and 8. */
module Wire {
  import opened Bytes

  const FCGI_VERSION_1: Byte := 1
  const FCGI_HEADER_LEN := 8
  const FCGI_MAX_LENGTH := 0xffff

  const FCGI_BEGIN_REQUEST: Byte := 1
  const FCGI_END_REQUEST: Byte := 3
  const FCGI_PARAMS: Byte := 4
  const FCGI_STDIN: Byte := 5
  const FCGI_STDOUT: Byte := 6
  const FCGI_STDERR: Byte := 7
  const FCGI_DATA: Byte := 8
  const FCGI_GET_VALUES: Byte := 9
  const FCGI_GET_VALUES_RESULT: Byte := 10
  const FCGI_UNKNOWN_TYPE: Byte := 11

  const FCGI_RESPONDER := 1
  const FCGI_AUTHORIZER := 2
  const FCGI_FILTER := 3
  const FCGI_REQUEST_COMPLETE: Byte := 0
  const FCGI_CANT_MPX_CONN: Byte := 1

  const FCGX_UNSUPPORTED_VERSION := -2
  const FCGX_PROTOCOL_ERROR := -3
  const FCGX_PARAMS_ERROR := -4
  const FCGX_CALL_SEQ_ERROR := -5

  /** A record, independent of how it is laid out on the wire. */
  datatype Record = Record(ty: Byte, id: nat, content: seq<Byte>, padding: seq<Byte>, reserved: Byte)

  /** The fields of a record fit the header that carries them. */
  predicate Fits(r: Record) {
    r.id < 0x1_0000 && |r.content| <= FCGI_MAX_LENGTH && |r.padding| < 256
  }

  function Header(ty: int, id: int, contentLen: int, paddingLen: int, reserved: Byte): (h: seq<Byte>)
    ensures |h| == FCGI_HEADER_LEN
  {
    [FCGI_VERSION_1, ToByte(ty), ToByte(id / 256), ToByte(id),
     ToByte(contentLen / 256), ToByte(contentLen), ToByte(paddingLen), reserved]
  }

  function MakeHeader(ty: int, id: int, contentLen: int, paddingLen: int): seq<Byte> {
    Header(ty, id, contentLen, paddingLen, 0)
  }

  function EndRequestBody(appStatus: int, protocolStatus: Byte): (b: seq<Byte>)
    ensures |b| == 8
  {
    [ToByte(appStatus / 0x100_0000), ToByte(appStatus / 0x1_0000), ToByte(appStatus / 0x100), ToByte(appStatus),
     protocolStatus, 0, 0, 0]
  }

  function UnknownTypeBody(ty: Byte): (b: seq<Byte>)
    ensures |b| == 8
  {
    [ty, 0, 0, 0, 0, 0, 0, 0]
  }

  /** The bytes of one record. */
  function Encode(r: Record): (b: seq<Byte>)
    ensures |b| == FCGI_HEADER_LEN + |r.content| + |r.padding|
  {
    Header(r.ty, r.id, |r.content|, |r.padding|, r.reserved) + r.content + r.padding
  }

  /** The bytes of a run of records. */
  function EncodeAll(rs: seq<Record>): seq<Byte> {
    if rs == [] then [] else Encode(rs[0]) + EncodeAll(rs[1..])
  }

  lemma {:induction false} EncodeAllAppend(a: seq<Record>, b: seq<Record>)
    ensures EncodeAll(a + b) == EncodeAll(a) + EncodeAll(b)
  {
    if a == [] {
      assert a + b == b;
    } else {
      EncodeAllAppend(a[1..], b);
      assert (a + b)[0] == a[0] && (a + b)[1..] == a[1..] + b;
      Assoc(Encode(a[0]), EncodeAll(a[1..]), EncodeAll(b));
    }
  }

  lemma EncodeAllNothing(output: seq<Byte>)
    ensures output + EncodeAll([]) == output
  {
  }

  lemma EncodeAllMore(output: seq<Byte>, a: seq<Record>, b: seq<Record>)
    ensures output + EncodeAll(a + b) == output + EncodeAll(a) + EncodeAll(b)
  {
    EncodeAllAppend(a, b);
    Assoc(output, EncodeAll(a), EncodeAll(b));
  }

  lemma EncodeAllOne(r: Record)
    ensures EncodeAll([r]) == Encode(r)
  {
    assert EncodeAll([r]) == Encode(r) + EncodeAll([]);
  }

  /** The request id a header names. */
  function HeaderId(h: seq<Byte>): nat
    requires |h| == FCGI_HEADER_LEN
  {
    h[2] as int * 256 + h[3] as int
  }

  function HeaderContentLen(h: seq<Byte>): nat
    requires |h| == FCGI_HEADER_LEN
  {
    h[4] as int * 256 + h[5] as int
  }

  /** Reading a header back yields the fields it was made from. */
  lemma HeaderRoundTrip(r: Record)
    requires Fits(r)
    ensures var h := Header(r.ty, r.id, |r.content|, |r.padding|, r.reserved);
            h[0] == FCGI_VERSION_1 && h[1] == r.ty && HeaderId(h) == r.id &&
            HeaderContentLen(h) == |r.content| && h[6] == |r.padding| && h[7] == r.reserved
  {
    assert r.id / 256 < 256 && |r.content| / 256 < 256;
  }

  /** A request id outside the wire's two bytes is reduced to them. */
  lemma HeaderReducesId(ty: int, id: int, contentLen: int, paddingLen: int)
    ensures MakeHeader(ty, id, contentLen, paddingLen) == Header(ty, id % 0x1_0000, contentLen, paddingLen, 0)
  {
    var q, r := id / 0x1_0000, id % 0x1_0000;
    assert id == 0x1_0000 * q + r;
    assert id / 256 == 256 * q + r / 256;
    assert (256 * q + r / 256) % 256 == r / 256 % 256;
    assert (256 * (256 * q) + r) % 256 == r % 256;
  }
}
