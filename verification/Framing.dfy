/**
 * Whole messages on a stream: the headers, and the loops that read a header, then as many bytes as
 * it announces, then the next header (`receive_*` in madbfs-common/src/rpc.cpp).
 */
module Framing {
  import opened Bytes
  import opened Wire
  import opened Rpc

  type Id = nat

  datatype Header = Header(id: Id, proc: Proc, status: int, size: nat)

  const REQUEST_HEADER: List<Kind> := Of3(Integer(U32), Integer(U8), K64)

  const RESPONSE_HEADER: List<Kind> := Cons(Integer(U32), Of3(Integer(U8), Integer(I32), K64))

  function RequestHead(id: Id, p: Proc, size: nat): List<Field> { Of3(M(id), Number(U8, Code(p)), U(size)) }

  function ResponseHead(id: Id, p: Proc, status: int, size: nat): List<Field> {
    Cons(M(id), Of3(Number(U8, Code(p)), Number(I32, status), U(size)))
  }

  datatype Received<+T> = Got(value: T, rest: seq<byte>) | Closed | Bad

  function HeadOf(id: int, code: int, status: int, size: int, rest: seq<byte>): Received<Header> {
    if ProcOf(code).None? || id < 0 || size < 0 then Bad else Got(Header(id, ProcOf(code).value, status, size), rest)
  }

  function ReceiveRequestHeader(stream: seq<byte>): Received<Header> {
    match Decode(REQUEST_HEADER, stream)
    case None => Closed
    case Some((Cons(Number(_, id), Cons(Number(_, code), Cons(Number(_, size), Nil))), rest)) =>
        HeadOf(id, code, 0, size, rest)
    case _ => Bad
  }

  /** The status is read as an `i32` and then kept in a `u8`. */
  function ReceiveResponseHeader(stream: seq<byte>): Received<Header> {
    match Decode(RESPONSE_HEADER, stream)
    case None => Closed
    case Some((Cons(Number(_, id), Cons(Number(_, code), Cons(Number(_, status), Cons(Number(_, size), Nil)))),
        rest)) =>
      HeadOf(id, code, status % 256, size, rest)
    case _ => Bad
  }

  lemma {:induction false} RequestHeadRoundTrip(id: Id, p: Proc, size: nat, tail: seq<byte>)
    requires id < LIMIT32 && size < LIMIT64
    ensures ReceiveRequestHeader(Encode(RequestHead(id, p, size)) + tail) == Got(Header(id, p, 0, size), tail)
  {
    List3(M(id), Number(U8, Code(p)), U(size), Nil);
    RoundTrip(RequestHead(id, p, size), tail);
  }

  lemma {:induction false} ResponseHeadRoundTrip(id: Id, p: Proc, status: int, size: nat, tail: seq<byte>)
    requires id < LIMIT32 && InRange(I32, status) && size < LIMIT64
    ensures ReceiveResponseHeader(Encode(ResponseHead(id, p, status, size)) + tail)
              == Got(Header(id, p, status % 256, size), tail)
  {
    List3(Number(U8, Code(p)), Number(I32, status), U(size), Nil);
    RoundTrip(ResponseHead(id, p, status, size), tail);
  }

  /** A status survives exactly when it is a byte. */
  lemma {:induction false} StatusExact(id: Id, p: Proc, status: int, size: nat, tail: seq<byte>)
    requires id < LIMIT32 && InRange(I32, status) && size < LIMIT64
    ensures ReceiveResponseHeader(Encode(ResponseHead(id, p, status, size)) + tail)
              == Got(Header(id, p, status, size), tail)
            <==> 0 <= status <= 255
  {
    ResponseHeadRoundTrip(id, p, status, size, tail);
  }

  // Requests.

  function EncodeRequest(id: Id, r: Request): seq<byte> {
    Encode(RequestHead(id, RequestProc(r), |RequestPayload(r)|)) + RequestPayload(r)
  }

  predicate Sendable(id: Id, r: Request) { id < LIMIT32 && RequestOk(r) && |RequestPayload(r)| < LIMIT64 }

  function ReceiveRequest(stream: seq<byte>): (r: Received<(Id, Request)>)
    ensures r.Got? ==> |r.rest| < |stream|
  {
    match ReceiveRequestHeader(stream)
    case Closed => Closed
    case Bad => Bad
    case Got(h, rest) =>
      if |rest| < h.size then Closed
      else
        match ParseRequest(h.proc, rest[..h.size])
        case None => Bad
        case Some(r) => HeaderShrinks(stream); Got((h.id, r), rest[h.size..])
  }

  lemma {:induction false} HeaderShrinks(stream: seq<byte>)
    ensures ReceiveRequestHeader(stream).Got? ==> |ReceiveRequestHeader(stream).rest| < |stream|
    ensures ReceiveResponseHeader(stream).Got? ==> |ReceiveResponseHeader(stream).rest| < |stream|
  {
    DecodeShrinks(REQUEST_HEADER, stream);
    DecodeShrinks(RESPONSE_HEADER, stream);
  }

  lemma {:induction false} DecodeShrinks(ks: List<Kind>, buf: seq<byte>)
    ensures Decode(ks, buf).Some? ==>
              |Decode(ks, buf).value.1| <= |buf| && (ks.Cons? ==> |Decode(ks, buf).value.1| < |buf|)
  {
    if ks.Cons? && DecodeField(ks.head, buf).Some? {
      DecodeShrinks(ks.tail, DecodeField(ks.head, buf).value.1);
    }
  }

  lemma {:induction false} Cut(a: seq<byte>, tail: seq<byte>)
    ensures (a + tail)[..|a|] == a && (a + tail)[|a|..] == tail
  {
  }

  /** A request is read back with its id, and nothing of what follows it is touched. */
  lemma {:induction false} ReceiveRequestRoundTrip(id: Id, r: Request, tail: seq<byte>)
    requires Sendable(id, r)
    ensures ReceiveRequest(EncodeRequest(id, r) + tail) == Got((id, r), tail)
  {
    var payload := RequestPayload(r);
    var head := Encode(RequestHead(id, RequestProc(r), |payload|));
    Assoc(head, payload, tail);
    RequestHeadRoundTrip(id, RequestProc(r), |payload|, payload + tail);
    Cut(payload, tail);
    RequestRoundTrip(r);
  }

  /** The server's reading loop: it ends at the end of the stream or at the first trouble. */
  function ReceiveRequests(stream: seq<byte>): (seq<(Id, Request)>, seq<byte>)
    decreases |stream|
  {
    match ReceiveRequest(stream)
    case Got(m, rest) => var (ms, end) := ReceiveRequests(rest); ([m] + ms, end)
    case _ => ([], stream)
  }

  function EncodeRequests(ms: seq<(Id, Request)>): seq<byte> {
    if ms == [] then [] else EncodeRequest(ms[0].0, ms[0].1) + EncodeRequests(ms[1..])
  }

  lemma {:induction false} ReceiveNext(stream: seq<byte>, m: (Id, Request), rest: seq<byte>, ms: seq<(Id, Request)>)
    requires ReceiveRequest(stream) == Got(m, rest) && ReceiveRequests(rest) == (ms, [])
    ensures ReceiveRequests(stream) == ([m] + ms, [])
  {
  }

  /** Requests sent back to back arrive as the same list, with nothing left over. */
  lemma {:induction false} RequestStream(ms: seq<(Id, Request)>)
    requires forall m | m in ms :: Sendable(m.0, m.1)
    ensures ReceiveRequests(EncodeRequests(ms)) == (ms, [])
  {
    if ms != [] {
      assert ms == [ms[0]] + ms[1..];
      var rest := EncodeRequests(ms[1..]);
      RequestStream(ms[1..]);
      ReceiveRequestRoundTrip(ms[0].0, ms[0].1, rest);
      ReceiveNext(EncodeRequest(ms[0].0, ms[0].1) + rest, ms[0], rest, ms[1..]);
    } else {
      assert ReceiveRequestHeader([]) == Closed;
    }
  }

  // Responses.

  datatype Reply = Answer(response: Response) | Failure(proc: Proc, status: int)

  /** What the caller of a request gets. */
  datatype Outcome = Success(response: Response) | Failed(status: int) | Garbled

  function ReplyProc(r: Reply): Proc { if r.Answer? then ResponseProc(r.response) else r.proc }

  function ReplyStatus(r: Reply): int { if r.Answer? then 0 else r.status }

  function ReplyPayload(r: Reply): seq<byte> { if r.Answer? then ResponsePayload(r.response) else [] }

  function EncodeReply(id: Id, r: Reply): seq<byte> {
    Encode(ResponseHead(id, ReplyProc(r), ReplyStatus(r), |ReplyPayload(r)|)) + ReplyPayload(r)
  }

  predicate ReplyOk(id: Id, r: Reply) {
    id < LIMIT32 && (if r.Answer? then ResponseOk(r.response) && |ReplyPayload(r)| < LIMIT64
        else InRange(I32, r.status))
  }

  /** A failure, or a header for the wrong procedure, leaves the payload unread. */
  function ReceiveResponse(h: Header, req: Request, stream: seq<byte>): Received<Outcome> {
    if h.status != 0 then Got(Failed(h.status), stream)
    else if h.proc != RequestProc(req) then Got(Garbled, stream)
    else if |stream| < h.size then Closed
    else Got(match ParseResponse(req, stream[..h.size]) case None => Garbled
        case Some(r) => Success(r), stream[h.size..])
  }

  function ReceiveReply(pending: map<Id, Request>, stream: seq<byte>): (r: Received<(Id, Outcome)>)
    ensures r.Got? ==> |r.rest| < |stream|
  {
    match ReceiveResponseHeader(stream)
    case Closed => Closed
    case Bad => Bad
    case Got(h, rest) =>
      HeaderShrinks(stream);
      if h.id !in pending then Bad
      else
        match ReceiveResponse(h, pending[h.id], rest)
        case Got(o, rest') => Got((h.id, o), rest')
        case Closed => Closed
        case Bad => Bad
  }

  /** What a reply means to the caller of a request: statuses lose all but their lowest byte. */
  function Meaning(req: Request, r: Reply): Outcome {
    match r
    case Answer(resp) => Success(Delivered(req, resp))
    case Failure(_, status) =>
      if status % 256 != 0 then Failed(status % 256)
      else match ParseResponse(req, []) case None => Garbled case Some(resp) => Success(resp)
  }

  lemma {:induction false} AnswerMeaning(id: Id, req: Request, resp: Response, tail: seq<byte>)
    requires ResponseOk(resp) && ResponseProc(resp) == RequestProc(req)
    ensures var payload := ResponsePayload(resp);
            ReceiveResponse(Header(id, RequestProc(req), 0, |payload|), req, payload + tail)
                == Got(Success(Delivered(req, resp)), tail)
  {
    ResponseRoundTrip(req, resp);
    Cut(ResponsePayload(resp), tail);
  }

  lemma {:induction false} FailureMeaning(id: Id, req: Request, status: int, tail: seq<byte>)
    ensures ReceiveResponse(Header(id, RequestProc(req), status % 256, 0), req, tail)
              == Got(Meaning(req, Failure(RequestProc(req), status)), tail)
  {
    assert tail[..0] == [];
  }

  lemma {:induction false} ReceiveReplyFrom(pending: map<Id, Request>, stream: seq<byte>, h: Header, rest: seq<byte>,
                                            o: Outcome, tail: seq<byte>)
    requires ReceiveResponseHeader(stream) == Got(h, rest) && h.id in pending
    requires ReceiveResponse(h, pending[h.id], rest) == Got(o, tail)
    ensures ReceiveReply(pending, stream) == Got((h.id, o), tail)
  {
  }

  lemma {:induction false} ReceiveHead(id: Id, p: Proc, status: int, payload: seq<byte>, tail: seq<byte>)
    requires id < LIMIT32 && InRange(I32, status) && |payload| < LIMIT64
    ensures ReceiveResponseHeader(Encode(ResponseHead(id, p, status, |payload|)) + payload + tail)
            == Got(Header(id, p, status % 256, |payload|), payload + tail)
  {
    Assoc(Encode(ResponseHead(id, p, status, |payload|)), payload, tail);
    ResponseHeadRoundTrip(id, p, status, |payload|, payload + tail);
  }

  lemma {:induction false} Prepend(a: seq<byte>, tail: seq<byte>)
    requires a == []
    ensures a + tail == tail
  {
  }

  lemma {:induction false} ReceivePayload(id: Id, req: Request, r: Reply, tail: seq<byte>)
    requires ReplyOk(id, r) && ReplyProc(r) == RequestProc(req)
    ensures ReceiveResponse(Header(id, ReplyProc(r), ReplyStatus(r) % 256, |ReplyPayload(r)|), req,
              ReplyPayload(r) + tail) == Got(Meaning(req, r), tail)
  {
    if r.Answer? {
      AnswerMeaning(id, req, r.response, tail);
    } else {
      Prepend([], tail);
      FailureMeaning(id, req, r.status, tail);
    }
  }

  /** A reply to a pending request of its procedure is read back, and nothing of what follows it is touched. */
  lemma {:induction false} ReceiveReplyMeaning(pending: map<Id, Request>, id: Id, r: Reply, tail: seq<byte>)
    requires ReplyOk(id, r) && id in pending && ReplyProc(r) == RequestProc(pending[id])
    ensures ReceiveReply(pending, EncodeReply(id, r) + tail) == Got((id, Meaning(pending[id], r)), tail)
  {
    var payload, p, status := ReplyPayload(r), ReplyProc(r), ReplyStatus(r);
    ReceiveHead(id, p, status, payload, tail);
    ReceivePayload(id, pending[id], r, tail);
    ReceiveReplyFrom(pending, EncodeReply(id, r) + tail, Header(id, p, status % 256, |payload|), payload + tail,
        Meaning(pending[id], r), tail);
  }

  /** A failure reaches the caller as sent exactly when its status is one of 1 to 255. */
  lemma {:induction false} FailureExact(pending: map<Id, Request>, id: Id, status: int, tail: seq<byte>)
    requires id < LIMIT32 && InRange(I32, status) && id in pending
    ensures ReceiveReply(pending, EncodeReply(id, Failure(RequestProc(pending[id]), status)) + tail)
              == Got((id, Failed(status)), tail)
            <==> 1 <= status <= 255
  {
    ReceiveReplyMeaning(pending, id, Failure(RequestProc(pending[id]), status), tail);
  }

  /** A failed mkdir with status 256 is taken for a success. */
  lemma {:induction false} FailureLost()
    ensures ReceiveReply(map[7 := Request.Mkdir([], 0)], EncodeReply(7, Failure(Proc.Mkdir, 256)) + [])
              == Got((7, Success(Response.Mkdir)), [])
  {
    ReceiveReplyMeaning(map[7 := Request.Mkdir([], 0)], 7, Failure(Proc.Mkdir, 256), []);
  }

  /** The client's reading loop: each reply takes its request out of the pending ones. */
  function ReceiveReplies(pending: map<Id, Request>,
                          stream: seq<byte>): (seq<(Id, Outcome)>, map<Id, Request>, seq<byte>)
    decreases |stream|
  {
    match ReceiveReply(pending, stream)
    case Got(m, rest) => var (ms, p, end) := ReceiveReplies(pending - {m.0}, rest); ([m] + ms, p, end)
    case _ => ([], pending, stream)
  }

  function EncodeReplies(rs: seq<(Id, Reply)>): seq<byte> {
    if rs == [] then [] else EncodeReply(rs[0].0, rs[0].1) + EncodeReplies(rs[1..])
  }

  /** Every reply answers a pending request of its procedure, and none twice. */
  predicate Matching(pending: map<Id, Request>, rs: seq<(Id, Reply)>) {
    rs != [] ==>
      && ReplyOk(rs[0].0, rs[0].1) && rs[0].0 in pending && ReplyProc(rs[0].1) == RequestProc(pending[rs[0].0])
      && Matching(pending - {rs[0].0}, rs[1..])
  }

  function Meanings(pending: map<Id, Request>, rs: seq<(Id, Reply)>): seq<(Id, Outcome)>
    requires Matching(pending, rs)
  {
    if rs == [] then [] else [(rs[0].0, Meaning(pending[rs[0].0], rs[0].1))] + Meanings(pending - {rs[0].0}, rs[1..])
  }

  function Remaining(pending: map<Id, Request>, rs: seq<(Id, Reply)>): map<Id, Request> {
    if rs == [] then pending else Remaining(pending - {rs[0].0}, rs[1..])
  }

  /** Replies sent back to back, failed ones included, reach their callers one by one, with nothing left over. */
  lemma {:induction false} ReplyStream(pending: map<Id, Request>, rs: seq<(Id, Reply)>)
    requires Matching(pending, rs)
    ensures ReceiveReplies(pending, EncodeReplies(rs)) == (Meanings(pending, rs), Remaining(pending, rs), [])
    decreases |rs|
  {
    if rs != [] {
      ReceiveReplyMeaning(pending, rs[0].0, rs[0].1, EncodeReplies(rs[1..]));
      ReplyStream(pending - {rs[0].0}, rs[1..]);
    } else {
      assert ReceiveResponseHeader([]) == Closed;
    }
  }
}
