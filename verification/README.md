# FastCGI record layer and Harbour string functions

This project models, in Dafny, the FastCGI 1.0 record layer of `fcgi-2.4.1/libfcgi/fcgiapp.c` (streams, parameters,
accepting and finishing requests) and the two string functions `EL_STRTRAN` and `EL_STRREPLACE` that the Harbour
binding adds, and proves properties of the model.

- **Reading.** `ReaderSpec` gives the meaning of a connection as one parser over all of its bytes; it takes the same
  branches as the code on every input, malformed ones included, but knows nothing of buffers. `Readers.Reader` is the
  code's own form: one fixed buffer with `rdNext`, `stop`, `stopUnget` and `buffStop`, refilled by `OS_Read` with
  pieces of any size. Each method is proved to do to the abstract state exactly what the parser says, so neither the
  size of the buffer nor the way `OS_Read` cuts the bytes is visible to a client. `ReaderLaws` and `Demux` then say
  what the parser delivers: mixes of reads, pushed-back bytes, connections that end early, and, for wires of whole
  records, exactly which contents reach the client. `Breaks` covers all other wires: every sequence of bytes is whole
  records and then an end or a break, and what is delivered is given. `Examples` holds the smallest wires on which the
  code does not do what one would expect.
- **Writing.** `Writers.StreamWriter` keeps the header slot, the padding and the raw mode of the code over a byte
  array; it is proved against `WriterSpec`. `WriterLaws` proves what every run of puts, flushes, closes and exit
  statuses on the two writers of a request leaves on the wire, and `RoundTrip` that a reader gets back what was put.
- **Parameters.** `NameValue` is section 3.4 of the FastCGI Specification 1.0, `Parameters` the growable vector and its lookups.
- **Requests.** `Openings` says what a new reader makes of the bytes in front of a request, `Replies` what reading
  makes the library write. `Lifecycle` and `Requests.Server` are `FCGX_Accept_r` and `FCGX_Finish_r` over the streams.
- **Strings.** `StrTran` and `StrReplace` hold the two-pass algorithms and the substitutions they compute;
  `StrTranLaws` and `StrReplaceLaws` say what those are of the text and the result alone.

The operating system is the class `Environment.Connection`: `Read` returns any nonempty piece of what arrives, `Write`
accepts any nonempty prefix, and a connection ends either in order or with a failing read that keeps failing. A
bufferful in one piece or a byte at a time are both allowed, since the choice is left open.

The part of `FCGX_Request` that the streams share is the class `RequestData`; a stream that is a reader and one that
is a writer are two classes, so `isReader` is not a field. Bytes that the C code stores through a caller's pointer are
returned as sequences. A long loop is split into methods along its blocks (`PassContent`, `PassPadding`, `ReadHeader`,
`Interpret` and `Proceed` are the blocks of the loop of `FillBuffProc`).

## What the code does not promise

Some things one would expect of the code are false of it. They are modelled as they are, each with the exact condition
under which the expected holds and a wire or text on which it fails:

- An empty record of another request leaves the skip flag set, and the next content met is dropped; the content of an
  unknown management record is not consumed and reaches the client (`Demux.DeliversReaching`,
  `Demux.DeliversExactlyOwnIff`; `Demux.LossExample`, `Demux.LeakExample`).
- A request is not served behind an empty record of another request, nor behind a record left over from the request
  before (`Openings.BegunIff`, `Lifecycle.RequestIff`; `Examples.ArmedBeginningExample`, `Examples.LeftOverExample`).
- Padding after FCGI_BEGIN_REQUEST or after an empty record that ends a stream is not skipped before the next stream, and
  is read as its records when it looks like some (`Lifecycle.PaddedBeginningIff`, `Lifecycle.PaddingIsParameters`,
  `Lifecycle.NextStreamIff`, `Lifecycle.PaddingIsRead`; `Examples.PaddedBeginningExample`,
  `Examples.PaddedTerminatorExample`, `Examples.SmuggledExample`).
- FCGI_GET_VALUES at the very end of a connection is answered only when its end shows without another byte
  (`Demux.ValuesAtEnd`; `Examples.ValuesAtEndExample`).
- Parameters that break off between two pairs are accepted as complete, with the error kept
  (`Lifecycle.BrokenParameters`, `Lifecycle.AcceptedIff`; `Examples.BrokenParametersExample`).
- The lengths of a pair are added as `int`, and the answers to FCGI_GET_VALUES are written to 64 bytes: long pairs
  overflow the one and a fourth known variable the other (`NameValue.EncodedSumsFit`, `ReaderLaws.AnswersFitIff`;
  `NameValue.OverflowExample`, `ReaderLaws.FourAnswersExample`).
- A name asked for with a NUL before its first '=' is written to where no '=' is (`ReaderLaws.AnswerableIff`,
  `Demux.ValuesDefinedIff`; `Examples.NulNameExample`).
- Bytes can be pushed back, after a change of stream, until the code writes in front of its buffer
  (`Readers.Reader.UnGetChar`; `Readers.Reader.UnGetTooFar`), though never by one pushback after each read
  (`Readers.Reader.GetAndUnGet`).
- The exit status of a request is that of an earlier one unless it sets its own (`WriterLaws.OwnStatusIff`,
  `WriterLaws.StatusCarriedOver`; `WriterLaws.StatusExample`).
- `EL_STRTRAN` writes an occurrence it leaves alone as the string sought, not as it is spelt
  (`StrTran.ProducesTranslationIff`; `StrTran.RespellingExample`).
- The lookup table of `EL_STRREPLACE` is keyed on the exact byte, so in texts of more than 1024 bytes it misses, ignoring
  case, keys that the scan of a shorter text finds (`StrReplace.PickIsScanIff`, `StrReplace.StringsTreatedAlikeIff`;
  `StrReplace.TableMissesExample`).

What C leaves undefined is marked rather than excluded: the field `defined` of the reader and of the parser's state turns
false when a sum of lengths exceeds `int`, when an answer does not fit its buffer or has no '=' to split at, and when a
byte is pushed back in front of the buffer. From then on the model does what unbounded integers and buffers would, and
drops the byte pushed back. Theorems about contents hold either way; the ones that speak of `defined` say when the code
is within C.

## Model

| member | source | states |
|---|---|---|
| Environment.Connection.Read | fcgi-2.4.1/libfcgi/os_unix.c:480-484 | A read returns some nonempty piece of what arrives, of any size up to the buffer's, leaving the rest to arrive; at the end it returns 0 or -1. |
| Environment.WriteItAll | fcgi-2.4.1/libfcgi/fcgiapp.c:1392-1404 | However little each write accepts, all the bytes are written, once and in order. |
| Wire.HeaderRoundTrip | fcgi-2.4.1/libfcgi/fcgiapp.c:1233-1251 | Reading a header gives back the type, id, content length and padding length it was made from, for every record that fits. |
| Wire.HeaderReducesId | fcgi-2.4.1/libfcgi/fcgiapp.c:1243-1244 | An id of more than two bytes is reduced to its low two, negative ids included. |
| NameValue.PairsRoundTrip | fcgi-2.4.1/libfcgi/fcgiapp.c:1170-1222 | Decoding inverts the section 3.4 encoding for every list of pairs, whichever of the one- and four-byte length forms each length uses. |
| NameValue.DecodeOkIffEncoding | fcgi-2.4.1/libfcgi/fcgiapp.c:1170-1222 | A stream decodes without error exactly when it is the encoding of some list of pairs; a stream that breaks off inside a pair is an error. |
| NameValue.BrokenPairs | fcgi-2.4.1/libfcgi/fcgiapp.c:1170-1222 | Of a stream that breaks off inside a pair, the pairs before are read. |
| NameValue.SplitInvertsEntry | hb_fcgi/hb_fcgi_c.c:195-208 | Splitting `name=value` at the first '=' gives the pair back when the name has no '=' and neither part a NUL. |
| NameValue.EncodedSumsFit | fcgi-2.4.1/libfcgi/fcgiapp.c:1203 | For the encoding of any list of pairs, no sum of lengths exceeds `int` exactly when each name and value, with two bytes more, are within it. |
| NameValue.OverflowExample | fcgi-2.4.1/libfcgi/fcgiapp.c:1203 | Eight bytes of 255 announce lengths whose sum does exceed it. |
| Parameters.Params.constructor | fcgi-2.4.1/libfcgi/fcgiapp.c:1055-1064 | A new vector holds nothing and ends with NULL. |
| Parameters.Params.PutParam | fcgi-2.4.1/libfcgi/fcgiapp.c:1108-1120 | The entry is appended, all earlier ones keep their content and order across doublings, and the NULL slot stays in bounds. |
| Parameters.Params.GetParam | fcgi-2.4.1/libfcgi/fcgiapp.c:1135-1150 | The value returned is that of the first entry that starts with the name followed by '=', or NULL. |
| Parameters.LookupFindsFirst | fcgi-2.4.1/libfcgi/fcgiapp.c:1135-1150 | Among entries made of pairs whose names hold no '=', looking up a name finds the value of the first pair of exactly that name. |
| Parameters.GetRequestVariables | hb_fcgi/hb_fcgi_c.c:195-208 | The pairs added are those of the entries that hold an '=', in order. |
| Parameters.VariablesInvertEntries | hb_fcgi/hb_fcgi_c.c:195-208 | The pairs added are exactly the pairs the entries were made of, in order, for all pairs a C string can carry. |
| Parameters.VariablesAppend | hb_fcgi/hb_fcgi_c.c:195-208 | Of any entries at all, each adds what it adds by itself, in order. |
| Parameters.VariablesOfOne | hb_fcgi/hb_fcgi_c.c:195-208 | An entry adds what is before and behind its first '=', up to the first NUL, and nothing if there is no '=' before it. |
| ReaderSpec.Fill | fcgi-2.4.1/libfcgi/fcgiapp.c:1659-1784 | Once a request has begun, filling ends with the stream closed or with content at hand; it never gains bytes, never changes the request, and it ends at all, since every round consumes a byte. |
| Readers.Reader.constructor | fcgi-2.4.1/libfcgi/fcgiapp.c:1796-1853 | A new reader stands before all the bytes of its connection. |
| Bytes.BufferSizeFacts | fcgi-2.4.1/libfcgi/fcgiapp.c:1796-1853 | The buffer of a stream has the size asked for, within 32 and 65536, rounded up to a multiple of 8, or 8 less than that. |
| Readers.Reader.FillBuffProc | fcgi-2.4.1/libfcgi/fcgiapp.c:1659-1784 | One call does to the connection's bytes what the parser does to them as a whole, however they are cut into reads, headers and nested reads included; it terminates. |
| Readers.Reader.ProcessHeader | fcgi-2.4.1/libfcgi/fcgiapp.c:1623-1648 | Status and state are those the parser reaches from the header, for every header. |
| Readers.Reader.ProcessBeginRecord | fcgi-2.4.1/libfcgi/fcgiapp.c:1562-1599 | The body is read in whole or the record is an error; a second beginning is answered with FCGI_CANT_MPX_CONN and skipped. |
| Readers.Reader.ProcessManagementRecord | fcgi-2.4.1/libfcgi/fcgiapp.c:1486-1543 | FCGI_GET_VALUES is read to the end of its record and answered, or is an error; anything else is answered as unknown. The state stays `defined` exactly when the sums fit, each entry has its '=' and at most three known variables are asked for. |
| Readers.Reader.GetChar | fcgi-2.4.1/libfcgi/fcgiapp.c:122-139 | Returns the parser's next content byte or -1 at the end; the assertion after the fill is never reached, and a pushback is possible after a byte. |
| Readers.Reader.GetStr | fcgi-2.4.1/libfcgi/fcgiapp.c:157-201 | Delivers exactly what that many single reads would, across refills and records. |
| Readers.Reader.GetLine | fcgi-2.4.1/libfcgi/fcgiapp.c:220-242 | Delivers the parser's line; NULL exactly when there was room and the stream was at its end. |
| Readers.Reader.UnGetChar | fcgi-2.4.1/libfcgi/fcgiapp.c:257-266 | Refuses EOF, a closed stream and a position at `stopUnget`; otherwise puts the byte in front of what is to come, also after a change of stream, or, with no room in front, is marked as undefined. |
| Readers.Reader.GetAndUnGet | fcgi-2.4.1/libfcgi/fcgiapp.c:122-266 | After any read that returned a byte one pushback is in bounds, and leaves the stream delivering what it did before. |
| Readers.Reader.UnGetTooFar | fcgi-2.4.1/libfcgi/fcgiapp.c:257-266 | Where a change of stream left `stopUnget` ahead, pushing back once more than there are bytes in front is undefined. |
| Readers.Reader.ReadParams | fcgi-2.4.1/libfcgi/fcgiapp.c:1170-1222 | Reads the stream to its end and adds the entries of all the pairs its content decodes to; returns -1 exactly when the content breaks off inside a pair, with FCGX_PARAMS_ERROR unless the stream had an error already; `defined` stays true exactly when no sum of two lengths exceeds `int`. |
| Readers.Reader.SetReaderType | fcgi-2.4.1/libfcgi/fcgiapp.c:1890-1902 | What is left of the last record, padding included, is forgotten. |
| Readers.Reader.StartFilterData | fcgi-2.4.1/libfcgi/fcgiapp.c:2322-2334 | Starts on FCGI_DATA exactly for a filter whose FCGI_STDIN is closed, at its end or by an error; otherwise the stream is closed with FCGX_CALL_SEQ_ERROR. |
| ReaderLaws.GetBytesIsAPrefix | fcgi-2.4.1/libfcgi/fcgiapp.c:157-201 | A read takes its bytes off the front of what the stream will deliver and leaves the remainder; it is short only when everything has been delivered. |
| ReaderLaws.GetBytesTwice | fcgi-2.4.1/libfcgi/fcgiapp.c:157-201 | Reading in two parts delivers what reading at once does and leaves the same state. |
| ReaderLaws.GetLineIsAPrefix | fcgi-2.4.1/libfcgi/fcgiapp.c:220-242 | A line is what the stream delivers up to and with the first newline, up to the room, or up to the end, whichever is first. |
| ReaderLaws.LineExample | fcgi-2.4.1/libfcgi/fcgiapp.c:236-237 | The newline is byte 10. |
| ReaderLaws.ReadsAreConsecutive | fcgi-2.4.1/libfcgi/fcgiapp.c:122-242 | Any mix of reads of characters, strings and lines delivers consecutive segments that, with what is left, are exactly the stream's content. |
| ReaderLaws.PushBackIsNext | fcgi-2.4.1/libfcgi/fcgiapp.c:257-266 | The byte pushed back is read next, and then the unchanged remainder. |
| ReaderLaws.DrainRecord | fcgi-2.4.1/libfcgi/fcgiapp.c:1716-1724 | A read confined to a record by `eorStop` delivers that record's content and ends at the record's end. |
| ReaderLaws.FailingRead | fcgi-2.4.1/libfcgi/fcgiapp.c:1671-1677 | A read that finds nothing more closes the stream with the errno of the failing read, or after an orderly end with FCGX_PROTOCOL_ERROR. |
| ReaderLaws.CutDeliversPrefix | fcgi-2.4.1/libfcgi/fcgiapp.c:1671-1680 | On every wire, well formed or not, what is delivered when the connection ends early is a prefix of what is delivered when it goes on. |
| ReaderLaws.AnswersArePairs | fcgi-2.4.1/libfcgi/fcgiapp.c:1502-1521 | The answer to FCGI_GET_VALUES is the section 3.4 encoding of the known variables asked for, each with its value, in the order asked; as many are counted as known. |
| ReaderLaws.AnswersFitIff | fcgi-2.4.1/libfcgi/fcgiapp.c:1490-1517 | Header, answers and the NUL that `sprintf` adds fit the 64 bytes of `response` exactly when at most three known variables are asked for. |
| ReaderLaws.AnswerableIff | fcgi-2.4.1/libfcgi/fcgiapp.c:1502-1517 | An answer is defined exactly when in every name asked for an '=', its own or the one that follows it, comes before any NUL, and at most three known variables are asked for. |
| ReaderLaws.FourAnswersExample | fcgi-2.4.1/libfcgi/fcgiapp.c:1490-1517 | FCGI_MAX_REQS asked for four times does not fit. |
| ReaderLaws.EndRequestStatus | fcgi-2.4.1/libfcgi/fcgiapp.c:1262-1274 | The four status bytes of FCGI_END_REQUEST are the exit status modulo 2^32, most significant first. |
| Replies.FillReplies | fcgi-2.4.1/libfcgi/fcgiapp.c:1659-1784 | Whatever arrives, filling writes whole records: answers to management records and refusals of second beginnings, each of which fits its header as long as nothing undefined is met. |
| Replies.GetBytesReplies | fcgi-2.4.1/libfcgi/fcgiapp.c:157-201 | So does a read of any length. |
| Demux.DrainRegulars | fcgi-2.4.1/libfcgi/fcgiapp.c:1685-1765 | A run of regular records delivers and answers what its records do one by one, up to whatever follows. |
| Demux.AnswersByBytes | fcgi-2.4.1/libfcgi/fcgiapp.c:1262-1292 | A second beginning is answered with status 0 and the byte 1, and an unknown management record with a body of which the first byte is the type asked. |
| Demux.DemultiplexedStream | fcgi-2.4.1/libfcgi/fcgiapp.c:1743-1764 | Up to the first empty record of the stream the contents delivered, the answers written and the state left are given by the records alone; then the stream is at its end without error. |
| Demux.ValuesDefinedIff | fcgi-2.4.1/libfcgi/fcgiapp.c:1490-1517 | An FCGI_GET_VALUES record made of pairs is answered within what C defines exactly under those two conditions. |
| Demux.RepliesFit | fcgi-2.4.1/libfcgi/fcgiapp.c:1519-1540 | On regular records, as long as nothing undefined is met, everything written in answer is a whole record that fits its header. |
| Demux.DeliversReaching | fcgi-2.4.1/libfcgi/fcgiapp.c:1685-1701 | On any regular wire the bytes delivered are the contents, in order, of the own and the unknown management records that no empty record of another request precedes as the last content before them. |
| Demux.DeliversExactlyOwnIff | fcgi-2.4.1/libfcgi/fcgiapp.c:1685-1701 | So the bytes delivered come from the request's own records and from all of them if and only if no own record is so preceded and every unknown management record with content is. |
| Demux.StandInExample | fcgi-2.4.1/libfcgi/fcgiapp.c:1685-1701 | The bytes alone do not tell: a leaked 7 can stand in for the request's own 7, which is lost. |
| Demux.DeliversOwn | fcgi-2.4.1/libfcgi/fcgiapp.c:1685-1701 | Then the bytes delivered are exactly the request's stream. |
| Demux.DeliversOwnIff | fcgi-2.4.1/libfcgi/fcgiapp.c:1685-1701 | Byte for byte, without such management records: the stream is delivered exactly when no empty record of another request comes before an own record with no content in between. |
| Demux.DeliversOwnIffNoLeaks | fcgi-2.4.1/libfcgi/fcgiapp.c:1527-1537 | Byte for byte, without such empty records: exactly when no unknown management record has content. |
| Demux.LossExample | fcgi-2.4.1/libfcgi/fcgiapp.c:1765-1767 | One empty record of another request in front of one record loses that record's content. |
| Demux.LeakExample | fcgi-2.4.1/libfcgi/fcgiapp.c:1527-1537 | One management record of type 12 delivers its content to the client. |
| Demux.ValuesAtEnd | fcgi-2.4.1/libfcgi/fcgiapp.c:1671-1724 | The last record of a connection, if FCGI_GET_VALUES, is answered exactly when it is padded or its content was skipped. |
| Breaks.BrokenStream | fcgi-2.4.1/libfcgi/fcgiapp.c:1626-1680 | A wire that breaks off delivers everything before the break and what is there of the content of the record that breaks, and then reports the error that belongs to it: the errno of the failing read, or FCGX_PROTOCOL_ERROR after an orderly end, where it runs out between records, inside a header, inside content or inside padding; FCGX_UNSUPPORTED_VERSION or FCGX_PROTOCOL_ERROR at a header of another version, type or a malformed beginning; FCGX_PARAMS_ERROR at an FCGI_GET_VALUES that is not whole pairs. |
| Breaks.EveryWire | fcgi-2.4.1/libfcgi/fcgiapp.c:1659-1784 | Every sequence of bytes is regular records followed either by the header of the empty record of the stream or by such a break. |
| Breaks.EndsWithoutErrorIff | fcgi-2.4.1/libfcgi/fcgiapp.c:1659-1784 | For every wire: a stream ends without error exactly when its wire is regular records up to the header of its empty record; otherwise content and error are those of a break. |
| Openings.BegunIff | fcgi-2.4.1/libfcgi/fcgiapp.c:2248-2252 | For every wire: a new reader comes to the beginning of a request exactly when the wire is records passed by that leave the skip flag clear, and then a beginning that can be read. |
| Openings.OpeningIsRead | fcgi-2.4.1/libfcgi/fcgiapp.c:1562-1599 | It then has the id of that beginning, the role of its first two bytes, the flag that is the lowest bit of the third, has written the answers to the records in front, and stands at the padding of the beginning. |
| Openings.NoBeginning | fcgi-2.4.1/libfcgi/fcgiapp.c:1569-1590 | A beginning that is malformed, cut, or comes when content is to be skipped begins nothing; its id is remembered if its header was in order. |
| Writers.StreamWriter.constructor | fcgi-2.4.1/libfcgi/fcgiapp.c:1796-1853 | A new writer is empty and open, with a buffer of 24 to 65536 bytes, a multiple of 8. |
| Writers.StreamWriter.EmptyBuffProc | fcgi-2.4.1/libfcgi/fcgiapp.c:1416-1462 | Writes the buffered content as one whole record padded to 8, or nothing; when closing, the closing records follow; padding never overflows the buffer. |
| Writers.StreamWriter.WriteCloseRecords | fcgi-2.4.1/libfcgi/fcgiapp.c:1356-1388 | Adds, raw, the empty record unless an error stream was never used, and the end of the request for the last writer; one writer fewer is open. |
| Writers.StreamWriter.PutStr | fcgi-2.4.1/libfcgi/fcgiapp.c:330-363 | Takes all the bytes and writes exactly the records that `WriterSpec.Put` emits; in raw mode adds the bytes as they are; when closed takes nothing. |
| Writers.StreamWriter.PutChar | fcgi-2.4.1/libfcgi/fcgiapp.c:302-312 | The same as putting one byte; -1 exactly when closed, so its assertion holds. |
| Writers.StreamWriter.FFlush | fcgi-2.4.1/libfcgi/fcgiapp.c:919-925 | Writes what is buffered as one record, and nothing when nothing is. |
| Writers.StreamWriter.FClose | fcgi-2.4.1/libfcgi/fcgiapp.c:944-961 | The first close writes the closing records; any later one changes nothing. |
| WriterLaws.PutFacts | fcgi-2.4.1/libfcgi/fcgiapp.c:330-363 | Bytes emitted followed by bytes buffered are bytes buffered before followed by bytes put, and every record emitted is nonempty, well formed and at most 65528 bytes. |
| WriterLaws.PutEmitsFull | fcgi-2.4.1/libfcgi/fcgiapp.c:346-362 | Putting emits full buffers only, and never leaves the buffer empty when something was put. |
| WriterLaws.EveryRunHolds | fcgi-2.4.1/libfcgi/fcgiapp.c:1356-1462 | After any run on both writers the wire is whole well-formed records; per side, contents on the wire followed by what is buffered are the bytes put; no empty record before the close; `nWriters` counts the open writers; the end of the request is there once both are closed, once and last. |
| WriterLaws.FinishedRequest | fcgi-2.4.1/libfcgi/fcgiapp.c:1356-1388 | As its peer sees it a finished request has each stream complete and ended once, the error stream only if used, and one last FCGI_END_REQUEST with the exit status last set, or else the status found when the request was accepted. |
| WriterLaws.OwnStatusIff | fcgi-2.4.1/libfcgi/fcgiapp.c:1380-1383 | The status reported is the request's own exactly when it sets one before both its sides are closed. |
| WriterLaws.StatusCarriedOver | fcgi-2.4.1/libfcgi/fcgiapp.c:1380-1383 | A request that does not reports the last status set by the one before. |
| WriterLaws.StatusExample | fcgi-2.4.1/libfcgi/fcgiapp.c:1380-1383 | A request that only closes its sides reports the 7 it found. |
| WriterLaws.ClosedAddsNothing | fcgi-2.4.1/libfcgi/fcgiapp.c:944-961 | After that nothing an application does adds to the wire. |
| WriterLaws.FinishIsTwoCloses | fcgi-2.4.1/libfcgi/fcgiapp.c:2047-2066 | Finishing puts on the wire what closing the error side and then the other side puts. |
| RoundTrip.WriteThenRead | fcgi-2.4.1/libfcgi/fcgiapp.c:1947-1961 | What is put on a writer with flushes anywhere and any buffer size, then closed, is read back exactly, followed by the end of the stream and nothing else consumed. |
| RoundTrip.UnusedErrorStream | fcgi-2.4.1/libfcgi/fcgiapp.c:1366-1372 | An error stream leaves nothing on the wire, not even its end, exactly when nothing was put on it. |
| RoundTrip.WriteStream | fcgi-2.4.1/libfcgi/fcgiapp.c:1947-1961 | A writer object made as FCGX_CreateWriter makes it, used and closed, puts on its connection the encoding of exactly the records of that use, and no end of the request. |
| RoundTrip.SendAndReceive | fcgi-2.4.1/libfcgi/fcgiapp.c:1947-1961 | What is put on such a writer, in whatever pieces, is what a reader object of the connection's output returns, followed by an end without error, whatever their buffer sizes. |
| Lifecycle.RequestFacts | fcgi-2.4.1/libfcgi/fcgiapp.c:2248-2301 | A connection that yields a request yields one that has begun, at the start of FCGI_STDIN, with role 1, 2 or 3; its first parameter is, and looking FCGI_ROLE up gives, RESPONDER, AUTHORIZER or FILTER in that order. |
| Lifecycle.RoleKnownIff | fcgi-2.4.1/libfcgi/fcgiapp.c:2257-2271 | Those are the two role bytes 0 and 1, 0 and 2, 0 and 3, and no others. |
| Lifecycle.ServedAsAsked | fcgi-2.4.1/libfcgi/fcgiapp.c:1588-1596 | A request is served with the id of its beginning, the role of the first two bytes of its body, and is to keep the connection exactly if the lowest bit of the third is set. |
| Lifecycle.ServesFirst | fcgi-2.4.1/libfcgi/fcgiapp.c:2233-2290 | Of the connections waiting the first that carries a request is served, and none is if none does. |
| Lifecycle.ServiceAsked | fcgi-2.4.1/libfcgi/fcgiapp.c:2224-2302 | Whatever is served was asked for by a beginning that arrived, with that id, role and flag. |
| Lifecycle.ServiceFacts | fcgi-2.4.1/libfcgi/fcgiapp.c:2233-2290 | The same of whatever is served, on a kept connection or after any number of connections that carried no request; those still waiting are the later ones. |
| Lifecycle.FrontsOnlyAnswer | fcgi-2.4.1/libfcgi/fcgiapp.c:2250-2252 | Records passed by in front of a beginning change nothing but what is written in answer, whether something must be skipped, and whether all was defined. |
| Lifecycle.ForeignFronts | fcgi-2.4.1/libfcgi/fcgiapp.c:1641-1643 | Nonempty records of other requests in front of a beginning change nothing. |
| Lifecycle.ArmedBeginning | fcgi-2.4.1/libfcgi/fcgiapp.c:1765-1767 | An empty record of another request as the last content in front of a beginning drops its body: no request comes of it. |
| Lifecycle.LeftOverRecord | fcgi-2.4.1/libfcgi/fcgiapp.c:1641-1645 | A record left over from the request before, unless of type 0, refuses the connection. |
| Lifecycle.RequestEndToEnd | fcgi-2.4.1/libfcgi/fcgiapp.c:2224-2302 | From a connection, new or kept, that carries records passed by, a beginning, encoded pairs and input in records, accepting yields exactly the role and those pairs as entries and as variables, and reading yields exactly the input; what was written is the answers; all of it is defined in C exactly when the answers and the sums of the lengths are. |
| Lifecycle.StreamIsRead | fcgi-2.4.1/libfcgi/fcgiapp.c:1890-1902 | After a stream whose terminator is unpadded the next stream starts exactly at what follows, with the answers written in between. |
| Lifecycle.BrokenParameters | fcgi-2.4.1/libfcgi/fcgiapp.c:2283-2289 | Parameters that break off, wherever and however they do, are accepted exactly when what was delivered is whole pairs, with those pairs, and the error is kept. |
| Lifecycle.AcceptedIff | fcgi-2.4.1/libfcgi/fcgiapp.c:2250-2297 | For every continuation of a beginning: the request is accepted without error exactly when padding and what follows are regular records up to the header of the empty one, delivering whole pairs; and with an error exactly when they break off with whole pairs delivered. |
| Lifecycle.RequestIff | fcgi-2.4.1/libfcgi/fcgiapp.c:2248-2297 | For every connection, new or kept: it carries a request exactly when its bytes are records passed by, then a beginning of known role, then such parameters. |
| Lifecycle.ServiceReplies | fcgi-2.4.1/libfcgi/fcgiapp.c:2233-2302 | What accepting wrote on the connection that serves a request, behind what was there if it was kept, is whole records. |
| Lifecycle.PaddedTerminator | fcgi-2.4.1/libfcgi/fcgiapp.c:1897-1898 | The next stream starts with the padding of the terminator; unless that is empty or starts like a record, it delivers nothing and is an error. |
| Lifecycle.NextStreamIff | fcgi-2.4.1/libfcgi/fcgiapp.c:1897-1898 | Unless the padding starts like a record, the next stream is delivered as sent, without error, exactly when there is no padding. |
| Lifecycle.PaddingIsRead | fcgi-2.4.1/libfcgi/fcgiapp.c:1897-1898 | Padding that is itself the records of a stream is delivered as the next stream, whatever follows it. |
| Lifecycle.PaddedBeginning | fcgi-2.4.1/libfcgi/fcgiapp.c:1897-1898 | Unless its padding starts like a record, a padded beginning makes a request without parameters, accepted with an error. |
| Lifecycle.PaddedBeginningIff | fcgi-2.4.1/libfcgi/fcgiapp.c:1897-1898 | Then a request comes through with its parameters and without error exactly when its beginning has no padding. |
| Lifecycle.PaddingIsParameters | fcgi-2.4.1/libfcgi/fcgiapp.c:1897-1898 | Padding that is itself the records of parameters becomes the parameters of the request, whatever follows it. |
| Examples.PaddedTerminatorExample | fcgi-2.4.1/libfcgi/fcgiapp.c:1897-1898 | One byte of padding on the end of the parameters loses the input 7. |
| Examples.SmuggledExample | fcgi-2.4.1/libfcgi/fcgiapp.c:1897-1898 | Two records as its padding replace the input by their 9. |
| Examples.PaddedBeginningExample | fcgi-2.4.1/libfcgi/fcgiapp.c:1897-1898 | One byte of padding on the beginning loses the parameter A=1. |
| Examples.BrokenParametersExample | fcgi-2.4.1/libfcgi/fcgiapp.c:2283-2289 | A connection that ends behind one record of parameters is accepted with A=1 and an error. |
| Examples.ValuesAtEndExample | fcgi-2.4.1/libfcgi/fcgiapp.c:1671-1724 | An empty FCGI_GET_VALUES at the end of a connection is answered with a byte of padding and not without. |
| Examples.NulNameExample | fcgi-2.4.1/libfcgi/fcgiapp.c:1502-1503 | Asking for the name that is a single NUL leaves what C defines. |
| Examples.ArmedBeginningExample | fcgi-2.4.1/libfcgi/fcgiapp.c:1765-1767 | An empty record of request 2 in front of the beginning of request 1 keeps it from being served. |
| Examples.LeftOverExample | fcgi-2.4.1/libfcgi/fcgiapp.c:1641-1645 | A record of input of request 1 in front of the next beginning refuses it exactly when request 1 was the one before. |
| Examples.HeaderExample | fcgi-2.4.1/include/fastcgi.h:50-60 | Records laid out byte by byte. |
| Examples.WrittenExample | fcgi-2.4.1/libfcgi/fcgiapp.c:1233-1251 | Records of the two writers byte by byte, padding included. |
| Examples.RepliesExample | fcgi-2.4.1/libfcgi/fcgiapp.c:1262-1292 | Ends of a request and an answer to an unknown type byte by byte. |
| Examples.ValuesExample | fcgi-2.4.1/libfcgi/fcgiapp.c:1502-1521 | The answer to FCGI_MPXS_CONNS byte by byte. |
| Examples.ErrorExample | fcgi-2.4.1/include/fcgiapp.h:40-43 | The error codes in numbers, errno 104 among them. |
| Requests.Server.TryConnection | fcgi-2.4.1/libfcgi/fcgiapp.c:2250-2297 | An open connection yields a request exactly when the parser says so, with its parameters and reader; otherwise no stream, parameters or connection remain. |
| Requests.Server.AcceptLoop | fcgi-2.4.1/libfcgi/fcgiapp.c:2233-2302 | Serves the first request among the open connection and those waiting, with two fresh open writers of 8192 and 512 bytes less alignment, or ends with nothing left and the negated errno of accepting, or -9999; it terminates. |
| Requests.Server.Accept | fcgi-2.4.1/libfcgi/fcgiapp.c:2224-2302 | Finishes the current request and accepts on the connection if it is kept, from the bytes not yet read from it, or else on those waiting; the exit status is not reset. |
| Requests.Server.Finish | fcgi-2.4.1/libfcgi/fcgiapp.c:2047-2066 | Closes both writers, error side first, and keeps the connection exactly when it was to be kept and the input had no error; id and exit status stay. |
| Requests.Server.Free | fcgi-2.4.1/libfcgi/fcgiapp.c:2068-2083 | No stream or parameters remain. |
| Requests.Server.GetInput | hb_fcgi/hb_fcgi_c.c:91-102 | Returns that many bytes of the input, or nothing when there are fewer, and leaves the writers alone. |
| Requests.Server.PerformAll | fcgi-2.4.1/libfcgi/fcgiapp.c:302-363 | Any sequence of operations on the stream objects writes the encoding of exactly the records of the run, with the request still being served. |
| Requests.Server.PerformAndFinish | fcgi-2.4.1/libfcgi/fcgiapp.c:2047-2066 | Whatever was done to the writers, finishing leaves on the connection the wire of the run that closes both sides. |
| Requests.Server.Interact | fcgi-2.4.1/libfcgi/fcgiapp.c:122-363 | Any interleaving of reads with operations on the writers puts on the connection whole records: those of the run of the operations, in order, and replies in between. |
| Requests.Server.Serve | fcgi-2.4.1/libfcgi/fcgiapp.c:2047-2302 | From acceptance to the end of a request, everything written on its connection is whole records: replies, and both streams complete and ended, with one last FCGI_END_REQUEST among them and the exit status carried over unless set. The connection stays open exactly if the lowest bit of the third byte of the beginning was set and reading left no error. |
| StrTran.CountOccurrences | hb_fcgi/el_strtran.c:104-127 | The backtracking scan with its early exit counts the leftmost non-overlapping occurrences from number `nStart` on, at most `nCount` unless negative (by StrTranLaws.ProducedLaw); it terminates. |
| StrTran.WriteReplaced | hb_fcgi/el_strtran.c:140-182 | The second pass finds the same occurrences, never ends inside a partial match, and writes exactly the length computed beforehand. |
| StrTran.WrittenLength | hb_fcgi/el_strtran.c:131-136 | The length of the result is the text's plus the number of replacements times the difference in lengths. |
| StrTran.OccurrencesFit | hb_fcgi/el_strtran.c:133-134 | Occurrences times the length sought never exceed the text, so the length does not underflow. |
| StrTran.ReplaceBySame | hb_fcgi/el_strtran.c:145-182 | Replacing any choice of exact occurrences by what is sought changes nothing. |
| StrTran.ProducesTranslationIff | hb_fcgi/el_strtran.c:154-158 | The result is the text with the chosen occurrences replaced and everything else as it was, exactly when the occurrences left alone are spelt as sought. |
| StrTran.ExactOrFirstTranslates | hb_fcgi/el_strtran.c:79-85 | So it is for every exact search and for every search from the first occurrence. |
| StrTran.RespellingExample | hb_fcgi/el_strtran.c:154-158 | "Aa", replacing "a" by "x" from the second occurrence ignoring case, becomes "ax" and not "Ax". |
| StrTranLaws.TranslatedLaw | hb_fcgi/el_strtran.c:104-182 | The law of the intended result, by positions: of the one list of leftmost occurrences that do not overlap, number n is replaced exactly if start <= n and, unless count is negative, n < start + count; all other bytes stay. |
| StrTranLaws.ProducedLaw | hb_fcgi/el_strtran.c:104-182 | The law of what the code produces: the same, but that occurrences before start are written as the string sought if one is replaced. Its length is that of the text and the number of replacements times the difference; that number is at most count, at most the occurrences from start on, and less than those only if it is count. |
| StrTranLaws.TailStays | hb_fcgi/el_strtran.c:145-176 | From the first occurrence past the last one replaced on the text is unchanged. |
| StrTran.ElStrTran | hb_fcgi/el_strtran.c:65-207 | For all arguments: an error without two strings, the empty string for a count of 0, the text when nothing is sought or it is too long, and otherwise the result that StrTranLaws.ProducedLaw describes. |
| StrReplace.BuildTable | hb_fcgi/el_strreplace.c:96-119 | Each entry is the first nonempty key that begins with its byte, and the flag says whether two keys begin alike. |
| StrReplace.Search | hb_fcgi/el_strreplace.c:124-197 | The key and skip length are those of the scan from the first key, or by way of the table those of the table's entry and, only when keys share a start, the ones after it. |
| StrReplace.PickIsScan | hb_fcgi/el_strreplace.c:124-197 | With case counted, for single characters, or when no key begins with a letter, the table picks the key the scan picks, at every position. |
| StrReplace.PickIsScanIff | hb_fcgi/el_strreplace.c:124-197 | It does so at every position of every text long enough for a table only then. |
| StrReplace.StringsTreatedAlikeIff | hb_fcgi/el_strreplace.c:96-255 | Whatever strings are replaced with, the results for long texts ignoring case are those promised exactly when no key begins with a letter. |
| StrReplace.TableMissesExample | hb_fcgi/el_strreplace.c:96-117 | Ignoring case, "a" is deleted from no place of 1025 times "A", where a shorter text loses all. |
| StrReplace.TableChangesNothing | hb_fcgi/el_strreplace.c:96-197 | Under the same condition substitution by way of the table is the substitution promised. |
| StrReplace.NothingFoundKeepsText | hb_fcgi/el_strreplace.c:225-227 | A text in which no key is found is unchanged. |
| StrReplaceLaws.PromisedIff | hb_fcgi/el_strreplace.c:121-255 | The law of the substitution, both ways: a result is the one promised exactly if it is the text cut up from left to right into bytes at which no key is found and the lowest-numbered keys found elsewhere, joined with, for each key, the value of the hash, the string or the character of its number, or nothing where there is none. |
| StrReplaceLaws.WholeKey | hb_fcgi/el_strreplace.c:200-219 | A text that is the one key sought becomes the value of the hash, the string or the character given, and nothing where nothing is. |
| StrReplaceLaws.TableLaw | hb_fcgi/el_strreplace.c:96-197 | The law of the table: with f the first key that begins with the very byte, key f is found if it matches, and, only if two keys begin alike, else the first after it that does. |
| StrReplace.Replace | hb_fcgi/el_strreplace.c:121-255 | The sizing pass lands on the end of the text, the filling pass writes exactly the size computed, and the result is the substitution of which StrReplaceLaws.PromisedIff is the law. |
| StrReplace.ElStrReplace | hb_fcgi/el_strreplace.c:66-262 | An error exactly without a text or a usable source, and otherwise that substitution; as promised (StrReplaceLaws.PromisedIff) for texts of up to 1024 bytes, and for longer ones with case counted, for single characters, or when no key begins with a letter. |

## Left out

- `FCGX_VFPrintF`, `FCGX_FPrintF`, `FCGX_PutS`: formatting rests on `sprintf` and varargs, and the last is `FCGX_PutStr` of a C string.
- Failing writes and the recovery from them: `OS_Write` is taken to accept at least one byte each time, so the error branches behind `write_it_all` are not modelled and a writer's error code stays 0.
- Reads that fail once and then succeed: after a failing read every later one fails with the same `errno`.
- `FCGX_FClose` of a reader: no code of the repository closes a request's input.
- Readers.Reader.GetStr: returns its bytes instead of storing them through a pointer, so aliasing with the stream's own buffer is not modelled; the same of the other reads.
- Readers.Reader.ProcessManagementRecord: the padding of an answer is zeros where the code leaves it unset; what the code does beyond its buffer is marked (`defined`), not modelled.
- StrReplace.AgreeIgnoringCase: is `strncasecmp`, which stops at a NUL; the Windows build uses `_memicmp`, which does not.
- `OS_Accept`, `OS_IpcClose`, sockets, signals, locks, `detached` and the listening flags: only that a connection is taken from those waiting, or none is.
- Bytes of a kept connection that were already buffered: they are discarded with the reader, as in the code, so pipelined requests are lost.
- malloc failure and pointer alignment beyond the 8 bytes it costs.
- Duplicate names in the Harbour hash: the variables are the list of pairs added; what the hash does with them is not part of this model.
- `fcgi_stdio.c`, `fcgio.cpp`, the remaining wrappers in `hb_fcgi_c.c`, the task manager programs and the build scripts: thin dispatch or tools outside the record layer.
