/**
  The record-store write as a request handler: the write lock taken first, the
  header row read, the payload turned into incoming records, the upsert, and the
  file rewritten. The lock is a single permit; a request that finds it taken
  waits until it is released.
*/
module DataEndpoint {
  import opened Records
  import opened Upsert

  /** The record file: its header row and its rows as decoded records. */
  datatype CsvFile = CsvFile(header: seq<string>, records: seq<Record>)

  /** The handler's answer; `Stalled` is a request left waiting for the write lock. */
  datatype Response = Ok | BadRequest | Stalled

  /** The record file together with the write lock's single permit. */
  datatype Server = Server(file: CsvFile, lockFree: bool)

  /**
    The handler as written: on a payload with no record it returns BadRequest
    after taking the lock and never gives the lock back.
  */
  function PostDataAsWritten(server: Server, payload: Payload): (result: (Server, Response))
    ensures result.1 == BadRequest ==> result.0.file == server.file && !result.0.lockFree
    ensures result.1 == BadRequest <==> server.lockFree && payload == JsonArray([])
  {
    if !server.lockFree then (server, Stalled)
    else
      var shape := ShapeOf(server.file.header);
      match Upserted(server.file.records, IncomingRecords(payload))
      case Rejected => (Server(server.file, false), BadRequest)
      case Updated(records) => (Server(CsvFile(Columns(shape), records), true), Ok)
  }

  /**
    The handler with the lock given back on the rejecting path as well. A
    rejected write leaves the file as it was; an accepted one rewrites it with
    the header of the shape its old header selected.
  */
  function PostData(server: Server, payload: Payload): (result: (Server, Response))
    ensures server.lockFree ==> result.0.lockFree && result.1 != Stalled
    ensures result.1 == BadRequest ==> result.0.file == server.file
    ensures result.1 == BadRequest <==> server.lockFree && payload == JsonArray([])
  {
    if !server.lockFree then (server, Stalled)
    else
      var shape := ShapeOf(server.file.header);
      match Upserted(server.file.records, IncomingRecords(payload))
      case Rejected => (server, BadRequest)
      case Updated(records) => (Server(CsvFile(Columns(shape), records), true), Ok)
  }

  /** Every record of the file is of the class its header selects, as the handler decodes it. */
  predicate WellShaped(file: CsvFile)
  {
    forall r :: r in file.records ==> HasShape(r, ShapeOf(file.header))
  }

  /**
    When the stored rows and the payload's records are both decoded into the
    class the header selects, the file after the write is again of one shape.
  */
  lemma PostDataKeepsShape(server: Server, payload: Payload)
    requires WellShaped(server.file)
    requires forall r :: r in IncomingRecords(payload) ==> HasShape(r, ShapeOf(server.file.header))
    ensures WellShaped(PostData(server, payload).0.file)
  {
  }

  /** Requests handled one after another, with the answers in order. */
  function PostAll(server: Server, payloads: seq<Payload>): (Server, seq<Response>)
    decreases |payloads|
  {
    if |payloads| == 0 then (server, [])
    else
      var first := PostData(server, payloads[0]);
      var rest := PostAll(first.0, payloads[1..]);
      (rest.0, [first.1] + rest.1)
  }

  /** As written: once a request is rejected, every later request waits forever. */
  lemma RejectedWriteStallsNextRequest(server: Server, next: Payload)
    requires server.lockFree
    ensures PostDataAsWritten(server, JsonArray([])).1 == BadRequest
    ensures var after := PostDataAsWritten(server, JsonArray([])).0;
            PostDataAsWritten(after, next) == (after, Stalled)
  {
  }

  /** With the lock released on every path, no request in a sequence ever waits forever. */
  lemma {:induction false} PostAllNeverStalls(server: Server, payloads: seq<Payload>)
    requires server.lockFree
    ensures PostAll(server, payloads).0.lockFree
    ensures |PostAll(server, payloads).1| == |payloads|
    ensures forall i :: 0 <= i < |payloads| ==> PostAll(server, payloads).1[i] != Stalled
    decreases |payloads|
  {
    if |payloads| > 0 {
      var first := PostData(server, payloads[0]);
      PostAllNeverStalls(first.0, payloads[1..]);
    }
  }

  /**
    An accepted write stores exactly the upsert's result under the header of the
    file's shape, and that header selects the same shape on the next read.
  */
  lemma AcceptedWriteRewritesFile(server: Server, payload: Payload)
    requires server.lockFree && payload != JsonArray([])
    ensures var result := PostData(server, payload);
            && result.1 == Ok
            && Upserted(server.file.records, IncomingRecords(payload)) == Updated(result.0.file.records)
            && result.0.file.header == Columns(ShapeOf(server.file.header))
            && ShapeOf(result.0.file.header) == ShapeOf(server.file.header)
  {
  }
}
