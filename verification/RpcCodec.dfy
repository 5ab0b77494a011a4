/** The server codec (`wsrpc/codec.go`): sequence numbers stand for the original request ids,
    which wait in `pending` until the response is written. */
module RpcCodec {
  import opened Strings
  import opened RpcPool

  const SEQ_LIMIT := 0x1_0000_0000_0000_0000   // sequence numbers are 64 bits wide
  const INVALID_REQUEST := "{}"                // what is written in place of a reply
  const NULL := "null"

  /** The raw JSON of a request id; None when it is absent or null. */
  type Id = Option<string>

  datatype ReqBody = ReqBody(serviceMethod: string, seqNo: nat)
  datatype RespBody = RespBody(serviceMethod: string, error: string, seqNo: nat)

  /** What a handler came back with. */
  datatype Outcome = Outcome(reply: string, error: Option<string>) {
    function Reply(): string { if error.Some? then INVALID_REQUEST else reply }
    function ErrorText(): string { if error.Some? then error.value else "" }
  }

  datatype WireBody = Result(reply: string) | Error(text: string)
  datatype WireResponse = WireResponse(id: string, body: WireBody)

  /** A response object says "no error" by an empty error text. */
  function Wire(error: string, reply: string): WireBody {
    if error == "" then Result(reply) else Error(error)
  }

  function IdText(id: Id): string {
    if id.Some? then id.value else NULL
  }

  datatype Codec = Codec(seqNo: nat, pending: map<nat, Id>) {
    function Admit(id: Id): Codec {
      var k := (seqNo + 1) % SEQ_LIMIT;
      Codec(k, pending[k := id])
    }

    function Settle(k: nat): Codec {
      Codec(seqNo, pending - {k})
    }
  }

  datatype Message = Message(name: string, id: Id)

  class ServerCodec {
    var seqNo: nat
    var pending: map<nat, Id>
    var reqMethod: string             // the reused scratch request
    var reqId: Id
    var written: seq<WireResponse>    // what the encoder sent

    constructor ()
      ensures Value() == Codec(0, map[]) && written == []
    {
      seqNo, pending, reqMethod, reqId, written := 0, map[], "", None, [];
    }

    function Value(): Codec
      reads this
    {
      Codec(seqNo, pending)
    }

    /** Decodes one request, if `message` arrived, and files its id under the next number. */
    method ReadRequestHeader(r: Cell<ReqBody>, message: Option<Message>) returns (ok: bool)
      modifies this, r`body
      ensures ok == message.Some? && written == old(written)
      ensures !ok ==> Value() == old(Value()) && r.body == old(r.body)
      ensures ok ==> seqNo == (old(seqNo) + 1) % SEQ_LIMIT && pending == old(pending)[seqNo := message.value.id]
                     && r.body == ReqBody(message.value.name, seqNo)
      ensures ok ==> Value() == old(Value()).Admit(message.value.id)
    {
      reqMethod, reqId := "", None;
      if message.None? {
        return false;
      }
      reqMethod, reqId := message.value.name, message.value.id;
      r.body := r.body.(serviceMethod := reqMethod);
      seqNo := (seqNo + 1) % SEQ_LIMIT;
      pending := pending[seqNo := reqId];
      reqId := None;
      r.body := r.body.(seqNo := seqNo);
      return true;
    }

    /** Answers the request with the response's number, once. */
    method WriteResponse(r: Cell<RespBody>, x: string, encodes: bool) returns (ok: bool)
      modifies this
      ensures r.body.seqNo !in old(pending) ==> !ok && Value() == old(Value()) && written == old(written)
      ensures r.body.seqNo in old(pending) ==>
                ok == encodes && seqNo == old(seqNo) && pending == old(pending) - {r.body.seqNo}
      ensures r.body.seqNo in old(pending) && !encodes ==> written == old(written)
      ensures r.body.seqNo in old(pending) && encodes ==>
                && |written| == |old(written)| + 1 && written[..|old(written)|] == old(written)
                && written[|old(written)|].id == (match old(pending)[r.body.seqNo]
                                                  case Some(raw) => raw
                                                  case None => "null")
                && written[|old(written)|].body == if r.body.error == "" then Result(x) else Error(r.body.error)
    {
      if r.body.seqNo !in pending {
        return false;
      }
      var b := pending[r.body.seqNo];
      pending := pending - {r.body.seqNo};
      var id := if b.None? then NULL else b.value;
      var body := if r.body.error == "" then Result(x) else Error(r.body.error);
      if encodes {
        written := written + [WireResponse(id, body)];
      }
      return encodes;
    }
  }

  const ZERO_RESPONSE := RespBody("", "", 0)

  /** Sends the answer of one request with a response object taken from the free list. */
  method SendResponse(freeResp: FreeList<RespBody>, req: Cell<ReqBody>, outcome: Outcome, codec: ServerCodec, encodes: bool)
    requires freeResp.Valid() && freeResp.zero == ZERO_RESPONSE
    modifies freeResp, codec, set c | c in freeResp.list
    ensures freeResp.Valid() && req.body == old(req.body)
    ensures codec.seqNo == old(codec.seqNo) && codec.pending == old(codec.pending) - {req.body.seqNo}
    ensures !(encodes && req.body.seqNo in old(codec.pending)) ==> codec.written == old(codec.written)
    ensures encodes && req.body.seqNo in old(codec.pending) ==>
              && |codec.written| == |old(codec.written)| + 1
              && codec.written[..|old(codec.written)|] == old(codec.written)
              && codec.written[|old(codec.written)|].id == (match old(codec.pending)[req.body.seqNo]
                                                            case Some(raw) => raw
                                                            case None => "null")
              && codec.written[|old(codec.written)|].body == match outcome.error
                                                              case None => Result(outcome.reply)
                                                              case Some("") => Result(INVALID_REQUEST)
                                                              case Some(text) => Error(text)
  {
    var resp := freeResp.Get();
    resp.body := resp.body.(serviceMethod := req.body.serviceMethod);
    var reply := outcome.reply;
    if outcome.error.Some? {
      resp.body := resp.body.(error := outcome.error.value);
      reply := INVALID_REQUEST;
    }
    resp.body := resp.body.(seqNo := req.body.seqNo);
    var ok := codec.WriteResponse(resp, reply, encodes);
    assert resp.body.seqNo !in old(codec.pending) ==> old(codec.pending) - {resp.body.seqNo} == old(codec.pending);
    freeResp.Free(resp);
  }
}
