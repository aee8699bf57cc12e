/** The operating system as the library sees it: what arrives on a connection, in pieces of any
    size, and what is accepted from a write, again in pieces of any size. */
module Environment {
  import opened Bytes

  class Connection {
    var input: seq<Byte>    // bytes that will still arrive
    const ending: nat       // what follows them: 0 is an orderly end, else the errno of the failing read
    var output: seq<Byte>   // bytes accepted so far

    constructor (input: seq<Byte>, ending: nat)
      ensures this.input == input && this.ending == ending && output == []
    {
      this.input, this.ending, output := input, ending, [];
    }

    /** `OS_Read`: any nonempty piece of what arrives, 0 at the end, -1 on an error. */
    method Read(buf: array<Byte>) returns (count: int)
      requires buf.Length > 0
      modifies this`input, buf
      ensures old(input) == [] ==> count == (if ending == 0 then 0 else -1) && input == [] && buf[..] == old(buf[..])
      ensures old(input) != [] ==> 1 <= count <= buf.Length && old(input) == buf[..count] + input
    {
      if input == [] {
        return if ending == 0 then 0 else -1;
      }
      count :| 1 <= count <= buf.Length && count <= |input|;
      for i := 0 to count
        invariant buf[..i] == input[..i]
        modifies buf
      {
        buf[i] := input[i];
      }
      SplitAt(input, count, |input|);
      input := input[count..];
    }

    /** `OS_Write`: accepts any nonempty prefix. */
    method Write(bytes: seq<Byte>) returns (count: nat)
      requires bytes != []
      modifies this`output
      ensures 1 <= count <= |bytes| && output == old(output) + bytes[..count]
    {
      count :| 1 <= count <= |bytes|;
      output := output + bytes[..count];
    }
  }

  /** `write_it_all`. */
  method WriteItAll(conn: Connection, bytes: seq<Byte>)
    modifies conn`output
    ensures conn.output == old(conn.output) + bytes
  {
    var rest := bytes;
    while rest != []
      invariant conn.output + rest == old(conn.output) + bytes
      decreases |rest|
    {
      var wrote := conn.Write(rest);
      SplitAt(rest, wrote, |rest|);
      rest := rest[wrote..];
    }
  }

  /** The part of `FCGX_Request` that its streams share. */
  class RequestData {
    var requestId: int
    var role: int
    var isBeginProcessed: bool
    var keepConnection: bool
    var appStatus: int
    var nWriters: int

    constructor ()
      ensures requestId == 0 && role == 0 && !isBeginProcessed && !keepConnection && appStatus == 0 && nWriters == 0
    {
      requestId, role, isBeginProcessed, keepConnection, appStatus, nWriters := 0, 0, false, false, 0, 0;
    }
  }
}
