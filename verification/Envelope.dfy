/**
 JSON-RPC 2.0 envelopes of protocol/types.go, the constants of protocol/constants.go, and the
 contract of the JSON codec. JSON text itself is a parameter; so are payloads.
 */
module Envelope {
  import opened Wrappers

  newtype byte = x: int | 0 <= x < 256

  type bytes = seq<byte>

  const LF: byte := 10
  const CR: byte := 13

  /** A JSON value, as the compact text that the encoder writes for it. */
  type Raw = bytes

  datatype Request = Request(name: string, params: Option<Raw>, id: int)

  datatype RPCError = RPCError(code: int, message: string)

  datatype Response = Response(result: Option<Raw>, error: Option<RPCError>, id: int) {
    /** Section 5 of the JSON-RPC 2.0 Specification: exactly one of result and error. */
    predicate WellFormed() {
      result.Some? <==> error == None
    }
  }

  datatype Notification = Notification(name: string, params: Raw)

  /** What an extension writes. */
  datatype Outgoing = Resp(response: Response) | Notif(notification: Notification)

  /** A Go value about to be marshalled, which may fail. */
  datatype Payload = Json(raw: Raw) | Unmarshallable(reason: string)

  /** A line that survives line splitting: not blank, no line feed inside, no carriage return last. */
  predicate Clean(line: bytes) {
    line != [] && LF !in line && line[|line| - 1] != CR
  }

  /** Why a line is no message to the host. */
  datatype BadLine = InvalidJson | BadNotification | BadResponse

  datatype Codec = Codec(
    encodeRequest: Request -> bytes,
    decodeRequest: bytes -> Result<Request, string>,
    encodeOut: Outgoing -> bytes,
    hasMethodKey: bytes -> Option<bool>,            // None: not a JSON object
    decodeResponse: bytes -> Option<Response>,
    decodeNotification: bytes -> Option<Notification>,
    emptyObject: Raw                                // the text of struct{}{}
  ) {
    ghost predicate Valid() {
      && (forall r :: Clean(encodeRequest(r)) && decodeRequest(encodeRequest(r)) == Ok(r))
      && (forall m :: Clean(encodeOut(m)))
      && (forall r ::
            && hasMethodKey(encodeOut(Resp(r))) == Some(false)
            && decodeResponse(encodeOut(Resp(r))) == Some(r))
      && (forall n ::
            && hasMethodKey(encodeOut(Notif(n))) == Some(true)
            && decodeNotification(encodeOut(Notif(n))) == Some(n))
    }

    /** The host's reading of one line: peek for a method key, then decode accordingly. */
    function Classify(line: bytes): Result<Outgoing, BadLine> {
      match hasMethodKey(line)
      case None => Err(InvalidJson)
      case Some(true) =>
        (match decodeNotification(line) case Some(n) => Ok(Notif(n)) case None => Err(BadNotification))
      case Some(false) =>
        (match decodeResponse(line) case Some(r) => Ok(Resp(r)) case None => Err(BadResponse))
    }

    lemma ClassifyUndoesEncode(m: Outgoing)
      requires Valid()
      ensures Classify(encodeOut(m)) == Ok(m)
    {
      match m
      case Resp(r) =>
      case Notif(n) =>
    }
  }

  const METHOD_INITIALIZE := "initialize"
  const METHOD_SHUTDOWN := "shutdown"

  const ERR_PARSE := -32700
  const ERR_METHOD_NOT_FOUND := -32601
  const ERR_INVALID_PARAMS := -32602
  const ERR_INTERNAL := -32603
  const ERR_TOOL_FAILED := -32001
  const ERR_NOT_READY := -32002
  const ERR_PROVIDER_FAILED := -32010
  const ERR_STREAM_FAILED := -32011
  const ERR_TTS_FAILED := -32013
  const ERR_STT_FAILED := -32015
  const ERR_HOOK_FAILED := -32020
  const ERR_HTTP_FAILED := -32021
  const ERR_SERVICE_FAILED := -32022
}
