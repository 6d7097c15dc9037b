/**
 * The client and the server of an RPC connection as one state machine over whole messages
 * (madbfs/src/transport/proxy_transport.cpp and madbfs-server/src/server.cpp). A step is what runs
 * between two points where a coroutine may suspend; steps of all tasks interleave freely.
 */
module Protocol {
  import opened Bytes

  type Id = nat

  /** What a request asks for; that it is a ping decides where the server runs it. */
  datatype Req = Req(body: nat, ping: bool)

  type Resp = nat

  datatype Msg = Msg(id: Id, req: Req)

  datatype Reply = Reply(id: Id, resp: Resp)

  datatype Answer = Answer(req: Req, resp: Resp)

  datatype Outcome = Success(resp: Resp) | Failure

  datatype Hand = Hand(id: Id, req: Req, resp: Resp)

  datatype State = State(
    // the client
    counter: nat,
    running: bool,
    pending: map<Id, Req>,        // requests whose promise is in the map
    hand: Option<Hand>,           // the request the receiver has taken out of the map
    sets: multiset<Id>,           // how often each promise was set
    outcomes: map<Id, Outcome>,   // and to what
    channel: seq<Msg>,
    sending: seq<Msg>,            // what the sender is writing: at most one
    // the wires and the server
    c2s: seq<Msg>,
    known: set<Id>,
    pool: seq<Msg>,               // first in, first out, one worker
    work: seq<Msg>,               // what the worker has executed
    out: seq<Reply>,
    s2c: seq<Reply>,
    // history
    sent: map<Id, Req>,
    answers: map<Id, Answer>)     // what the handler was given under an id, and what it answered

  const ID_LIMIT: nat := 0x1_0000_0000

  datatype Action =
    | Send(req: Req)
    | Take
    | Transmitted
    | TransmitFails(delivered: bool)
    | Timeout(id: Id)
    | ServerReceives(resp: Resp)   // the answer, if it is a ping
    | Handle(resp: Resp)
    | ServerReplies
    | ClientHeader
    | ClientPayload(ok: bool)
    | Stop
    | ReceiverExits

  predicate Enabled(s: State, a: Action) {
    match a
    case Send(_) => s.running && s.counter + 1 < ID_LIMIT
    case Take => s.running && s.sending == [] && s.channel != []
    case Transmitted => s.sending != []
    case TransmitFails(_) => s.sending != []
    case Timeout(id) => id in s.sent
    case ServerReceives(_) => s.c2s != []
    case Handle(_) => s.pool != []
    case ServerReplies => s.out != []
    case ClientHeader => s.running && s.hand.None? && s.s2c != []
    case ClientPayload(_) => s.hand.Some?
    case Stop => s.running
    case ReceiverExits => s.hand.None?
  }

  /** Takes the promise out of the map and sets it, if it is still there. */
  function Fail(s: State, id: Id): State {
    if id in s.pending then
      s.(pending := s.pending - {id}, sets := s.sets + multiset{id}, outcomes := s.outcomes[id := Failure])
    else s
  }

  /** Sets every promise in the map and clears it: `stop` and the end of the receiver. */
  function FailAll(s: State): State {
    s.(running := false, pending := map[], sets := s.sets + multiset(s.pending.Keys),
       outcomes := map id | id in s.outcomes.Keys + s.pending.Keys :: if id in s.pending then Failure
           else s.outcomes[id],
       channel := [])
  }

  function Apply(s: State, a: Action): State
    requires Enabled(s, a)
  {
    match a
    case Send(req) =>
      var id := s.counter + 1;
      s.(counter := id, pending := s.pending[id := req], channel := s.channel + [Msg(id, req)],
          sent := s.sent[id := req])
    case Take => s.(sending := [s.channel[0]], channel := s.channel[1..])
    case Transmitted => s.(c2s := s.c2s + [s.sending[0]], sending := s.sending[1..])
    case TransmitFails(delivered) =>
      var s' := s.(c2s := if delivered then s.c2s + [s.sending[0]] else s.c2s, sending := s.sending[1..]);
      Fail(s', s.sending[0].id)
    case Timeout(id) => Fail(s, id)
    case ServerReceives(resp) =>
      var m, s' := s.c2s[0], s.(c2s := s.c2s[1..]);
      if m.id in s.known then s'
      else if m.req.ping then
        s'.(known := s.known + {m.id}, out := s.out + [Reply(m.id, resp)],
            answers := s.answers[m.id := Answer(m.req, resp)])
      else s'.(known := s.known + {m.id}, pool := s.pool + [m])
    case Handle(resp) =>
      var m := s.pool[0];
      s.(pool := s.pool[1..], work := s.work + [m], out := s.out + [Reply(m.id, resp)],
          answers := s.answers[m.id := Answer(m.req, resp)])
    case ServerReplies =>
      var r, s' := s.out[0], s.(out := s.out[1..]);
      if r.id in s.known then s'.(known := s.known - {r.id}, s2c := s.s2c + [r]) else s'
    case ClientHeader =>
      var r, s' := s.s2c[0], s.(s2c := s.s2c[1..]);
      if r.id in s.pending then s'.(pending := s.pending - {r.id}, hand := Some(Hand(r.id, s.pending[r.id], r.resp)))
          else s'
    case ClientPayload(ok) =>
      var h := s.hand.value;
      s.(hand := None, sets := s.sets + multiset{h.id},
          outcomes := s.outcomes[h.id := if ok then Success(h.resp) else Failure])
    case Stop => FailAll(s)
    case ReceiverExits => FailAll(s)
  }

  const INITIAL := State(0, true, map[], None, multiset{}, map[], [], [], [], {}, [], [], [], [], map[], map[])

  /** A run: the actions lead from one state to the other, each enabled where it is taken. */
  ghost predicate Leads(s: State, actions: seq<Action>, s': State)
    decreases |actions|
  {
    if actions == [] then s' == s else Enabled(s, actions[0]) && Leads(Apply(s, actions[0]), actions[1..], s')
  }

  // Every promise is in one place.

  function InMap(s: State, id: Id): nat { if id in s.pending then 1 else 0 }

  function InHand(s: State, id: Id): nat { if s.hand.Some? && s.hand.value.id == id then 1 else 0 }

  predicate Issued(s: State, id: Id) { 1 <= id <= s.counter }

  /** An issued id is in exactly one of the map, the receiver's hand and the resolved ones, and was set once at most. */
  ghost predicate TokensOk(s: State) {
    && (forall id :: InMap(s, id) + InHand(s, id) + s.sets[id] == if Issued(s, id) then 1 else 0)
    && (forall id :: id in s.outcomes <==> s.sets[id] > 0)
    && (!s.running ==> s.pending == map[])
  }

  lemma {:induction false} FailTokens(s: State, id: Id)
    requires TokensOk(s)
    ensures TokensOk(Fail(s, id))
  {
    var s' := Fail(s, id);
    forall i ensures InMap(s', i) + InHand(s', i) + s'.sets[i] == if Issued(s', i) then 1 else 0 {
      assert InMap(s, i) + InHand(s, i) + s.sets[i] == if Issued(s, i) then 1 else 0;
    }
  }

  lemma {:induction false} FailAllTokens(s: State)
    requires TokensOk(s)
    ensures TokensOk(FailAll(s))
  {
    var s' := FailAll(s);
    forall i ensures InMap(s', i) + InHand(s', i) + s'.sets[i] == if Issued(s', i) then 1 else 0 {
      assert InMap(s, i) + InHand(s, i) + s.sets[i] == if Issued(s, i) then 1 else 0;
      assert multiset(s.pending.Keys)[i] == InMap(s, i);
    }
  }

  lemma {:induction false} SendTokens(s: State, req: Req)
    requires TokensOk(s) && Enabled(s, Send(req))
    ensures TokensOk(Apply(s, Send(req)))
  {
    var s' := Apply(s, Send(req));
    forall i ensures InMap(s', i) + InHand(s', i) + s'.sets[i] == if Issued(s', i) then 1 else 0 {
      assert InMap(s, i) + InHand(s, i) + s.sets[i] == if Issued(s, i) then 1 else 0;
    }
  }

  lemma {:induction false} HeaderTokens(s: State)
    requires TokensOk(s) && Enabled(s, ClientHeader)
    ensures TokensOk(Apply(s, ClientHeader))
  {
    var s' := Apply(s, ClientHeader);
    forall i ensures InMap(s', i) + InHand(s', i) + s'.sets[i] == if Issued(s', i) then 1 else 0 {
      assert InMap(s, i) + InHand(s, i) + s.sets[i] == if Issued(s, i) then 1 else 0;
    }
  }

  lemma {:induction false} PayloadTokens(s: State, ok: bool)
    requires TokensOk(s) && Enabled(s, ClientPayload(ok))
    ensures TokensOk(Apply(s, ClientPayload(ok)))
  {
    var s' := Apply(s, ClientPayload(ok));
    forall i ensures InMap(s', i) + InHand(s', i) + s'.sets[i] == if Issued(s', i) then 1 else 0 {
      assert InMap(s, i) + InHand(s, i) + s.sets[i] == if Issued(s, i) then 1 else 0;
    }
  }

  /** The other steps touch neither the map nor the receiver's hand nor a promise. */
  predicate SameTokens(s: State, s': State) {
    s'.counter == s.counter && s'.running == s.running && s'.pending == s.pending && s'.hand == s.hand
        && s'.sets == s.sets && s'.outcomes == s.outcomes
  }

  lemma {:induction false} PlainTokens(s: State, s': State)
    requires TokensOk(s) && SameTokens(s, s')
    ensures TokensOk(s')
  {
    assert forall i :: InMap(s', i) == InMap(s, i) && InHand(s', i) == InHand(s, i);
  }

  lemma {:induction false} ReceivesTokens(s: State, resp: Resp)
    requires TokensOk(s) && Enabled(s, ServerReceives(resp))
    ensures TokensOk(Apply(s, ServerReceives(resp)))
  {
    var m := s.c2s[0];
    if m.id !in s.known && !m.req.ping {
      PlainTokens(s, s.(c2s := s.c2s[1..], known := s.known + {m.id}, pool := s.pool + [m]));
    } else {
      PlainTokens(s, Apply(s, ServerReceives(resp)));
    }
  }

  lemma {:induction false} HandleTokens(s: State, resp: Resp)
    requires TokensOk(s) && Enabled(s, Handle(resp))
    ensures TokensOk(Apply(s, Handle(resp)))
  {
    PlainTokens(s, Apply(s, Handle(resp)));
  }

  lemma {:induction false} RepliesTokens(s: State)
    requires TokensOk(s) && Enabled(s, ServerReplies)
    ensures TokensOk(Apply(s, ServerReplies))
  {
    PlainTokens(s, Apply(s, ServerReplies));
  }

  lemma {:induction false} TokensKeep(s: State, a: Action)
    requires TokensOk(s) && Enabled(s, a)
    ensures TokensOk(Apply(s, a))
  {
    match a
    case Send(req) => SendTokens(s, req);
    case TransmitFails(delivered) =>
      var s' := s.(c2s := if delivered then s.c2s + [s.sending[0]] else s.c2s, sending := s.sending[1..]);
      PlainTokens(s, s');
      FailTokens(s', s.sending[0].id);
    case Timeout(id) => FailTokens(s, id);
    case ClientHeader => HeaderTokens(s);
    case ClientPayload(ok) => PayloadTokens(s, ok);
    case Stop => FailAllTokens(s);
    case ReceiverExits => FailAllTokens(s);
    case Take => PlainTokens(s, Apply(s, Take));
    case Transmitted => PlainTokens(s, Apply(s, Transmitted));
    case ServerReceives(resp) => ReceivesTokens(s, resp);
    case Handle(resp) => HandleTokens(s, resp);
    case ServerReplies => RepliesTokens(s);
  }

  // Who answers what.

  ghost predicate ReplyOk(s: State, id: Id, resp: Resp) { id in s.answers && s.answers[id].resp == resp }

  ghost predicate AnswersOk(s: State) {
    && (forall id | id in s.answers :: id in s.sent && s.answers[id].req == s.sent[id])
    && (forall id | id in s.pending :: id in s.sent && s.pending[id] == s.sent[id])
    && (forall r | r in s.out :: ReplyOk(s, r.id, r.resp))
    && (forall r | r in s.s2c :: ReplyOk(s, r.id, r.resp))
    && (s.hand.Some? ==> ReplyOk(s, s.hand.value.id, s.hand.value.resp))
    && (forall id | id in s.outcomes && s.outcomes[id].Success? :: ReplyOk(s, id, s.outcomes[id].resp))
  }

  // The order of the requests: one line from the client's channel to the worker's log.

  function Todo(s: State): seq<Msg> { s.pool + s.c2s + s.sending + s.channel }

  function Line(s: State): seq<Msg> { s.work + Todo(s) }

  ghost predicate Increasing(l: seq<Msg>) { forall i, j | 0 <= i < j < |l| :: l[i].id < l[j].id }

  ghost predicate MsgOk(s: State, m: Msg) { m.id <= s.counter && m.id in s.sent && s.sent[m.id] == m.req }

  ghost predicate LineOk(s: State) {
    && |s.sending| <= 1
    && Increasing(Line(s))
    && (forall m | m in Line(s) :: MsgOk(s, m))
    && (forall id | id in s.sent :: id <= s.counter)
    && (forall m | m in s.work || m in s.pool :: !m.req.ping)
  }

  /** Nothing still to be executed has an answer, and the server knows only ids it has executed or queued. */
  ghost predicate FreshOk(s: State) {
    && (forall m | m in Todo(s) :: m.id !in s.answers)
    && (forall id | id in s.known :: id in s.answers || exists m :: m in s.pool && m.id == id)
  }

  ghost predicate Inv(s: State) { TokensOk(s) && AnswersOk(s) && LineOk(s) && FreshOk(s) }

  // Steps that leave the line alone, drop one message of it, or drop its end.

  lemma {:induction false} LineDrop(l: seq<Msg>, k: nat)
    requires k < |l| && Increasing(l)
    ensures Increasing(l[..k] + l[k + 1..])
    ensures forall m | m in l[..k] + l[k + 1..] :: m in l && m.id != l[k].id
  {
    var d := l[..k] + l[k + 1..];
    forall m | m in d ensures m in l && m.id != l[k].id {
      var i :| 0 <= i < |d| && d[i] == m;
      assert d[i] == if i < k then l[i] else l[i + 1];
    }
  }

  lemma {:induction false} LineAppend(l: seq<Msg>, m: Msg)
    requires Increasing(l) && forall x | x in l :: x.id < m.id
    ensures Increasing(l + [m])
  {
  }

  lemma {:induction false} LinePrefix(a: seq<Msg>, b: seq<Msg>)
    requires Increasing(a + b)
    ensures Increasing(a)
  {
    assert (a + b)[..|a|] == a;
    forall i, j | 0 <= i < j < |a| ensures a[i].id < a[j].id {
      assert a[i] == (a + b)[i] && a[j] == (a + b)[j];
    }
  }

  lemma {:induction false} TakeLine(s: State)
    requires LineOk(s) && FreshOk(s) && Enabled(s, Take)
    ensures LineOk(Apply(s, Take)) && FreshOk(Apply(s, Take))
  {
    var s' := Apply(s, Take);
    assert Todo(s') == Todo(s);
  }

  lemma {:induction false} TransmittedLine(s: State)
    requires LineOk(s) && FreshOk(s) && Enabled(s, Transmitted)
    ensures LineOk(Apply(s, Transmitted)) && FreshOk(Apply(s, Transmitted))
  {
    var s' := Apply(s, Transmitted);
    assert s.sending == [s.sending[0]] && s'.sending == [];
    assert Todo(s') == Todo(s);
  }

  lemma {:induction false} LostLine(s: State, s': State)
    requires LineOk(s) && FreshOk(s) && s.sending != [] && s' == s.(sending := [])
    ensures LineOk(s') && FreshOk(s')
  {
    var k := |s.work + s.pool + s.c2s|;
    assert s.sending == [s.sending[0]];
    assert Line(s)[..k] + Line(s)[k + 1..] == Line(s');
    LineDrop(Line(s), k);
    assert forall m | m in Todo(s') :: m in Todo(s);
  }

  lemma {:induction false} StoppedLine(s: State, s': State)
    requires LineOk(s) && FreshOk(s) && s' == s.(channel := [])
    ensures LineOk(s') && FreshOk(s')
  {
    assert Line(s) == Line(s') + s.channel;
    assert Todo(s) == Todo(s') + s.channel;
    LinePrefix(Line(s'), s.channel);
    forall m | m in Line(s') ensures MsgOk(s', m) { assert m in Line(s) && MsgOk(s, m); }
  }

  /** The line and what is fresh do not depend on the client's promises. */
  predicate SameLine(s: State, s': State) {
    && s'.counter == s.counter && s'.channel == s.channel && s'.sending == s.sending && s'.c2s == s.c2s
         && s'.pool == s.pool && s'.work == s.work
    && s'.sent == s.sent && s'.answers == s.answers && s'.known <= s.known
  }

  lemma {:induction false} SameLineKeeps(s: State, s': State)
    requires LineOk(s) && FreshOk(s) && SameLine(s, s')
    ensures LineOk(s') && FreshOk(s')
  {
  }

  lemma {:induction false} SendLine(s: State, req: Req)
    requires LineOk(s) && FreshOk(s) && AnswersOk(s) && Enabled(s, Send(req))
    ensures LineOk(Apply(s, Send(req))) && FreshOk(Apply(s, Send(req)))
  {
    var s' := Apply(s, Send(req));
    var m := Msg(s.counter + 1, req);
    assert Line(s') == Line(s) + [m] && Todo(s') == Todo(s) + [m];
    assert m.id !in s.sent;
    forall x | x in Line(s) ensures x.id < m.id && MsgOk(s', x) { assert MsgOk(s, x); }
    LineAppend(Line(s), m);
  }

  /** The head of the pool has not been executed, and is before everything that has not been either. */
  lemma {:induction false} PoolHead(s: State)
    requires LineOk(s) && FreshOk(s) && s.pool != []
    ensures s.pool[0].id !in s.answers && MsgOk(s, s.pool[0])
    ensures Todo(s) == [s.pool[0]] + (s.pool[1..] + s.c2s + s.sending + s.channel)
    ensures forall x | x in s.pool[1..] + s.c2s + s.sending + s.channel :: x.id != s.pool[0].id
  {
    var m, rest := s.pool[0], s.pool[1..] + s.c2s + s.sending + s.channel;
    assert s.pool == [m] + s.pool[1..];
    assert Todo(s) == [m] + rest;
    assert m in Todo(s) && Line(s)[|s.work|] == m;
    assert Line(s)[..|s.work|] + Line(s)[|s.work| + 1..] == s.work + rest;
    LineDrop(Line(s), |s.work|);
    assert forall x | x in rest :: x in s.work + rest;
  }

  lemma {:induction false} HandleLine(s: State, resp: Resp)
    requires LineOk(s) && FreshOk(s) && Enabled(s, Handle(resp))
    ensures LineOk(Apply(s, Handle(resp))) && FreshOk(Apply(s, Handle(resp)))
  {
    var s', m := Apply(s, Handle(resp)), s.pool[0];
    PoolHead(s);
    assert Todo(s) == [m] + Todo(s');
    assert Line(s') == Line(s);
    forall id | id in s'.known ensures id in s'.answers || exists x :: x in s'.pool && x.id == id {
      if id !in s.answers && id != m.id {
        var x :| x in s.pool && x.id == id;
        assert x in s'.pool;
      }
    }
  }

  /** The server never sees an id it knows. */
  lemma {:induction false} ReceivesNew(s: State)
    requires LineOk(s) && FreshOk(s) && s.c2s != []
    ensures s.c2s[0].id !in s.known && s.c2s[0].id !in s.answers && MsgOk(s, s.c2s[0])
    ensures var rest := s.c2s[1..] + s.sending + s.channel;
            Increasing(s.work + (s.pool + rest)) && forall x | x in s.work + (s.pool + rest) ::
                x in Line(s) && x.id != s.c2s[0].id
  {
    var m, k := s.c2s[0], |s.work + s.pool|;
    assert s.c2s == [m] + s.c2s[1..];
    assert Line(s)[k] == m;
    assert m in Todo(s);
    assert Line(s)[..k] + Line(s)[k + 1..] == s.work + (s.pool + (s.c2s[1..] + s.sending + s.channel));
    LineDrop(Line(s), k);
  }

  lemma {:induction false} PingLine(s: State, s': State, resp: Resp)
    requires LineOk(s) && FreshOk(s) && s.c2s != []
    requires s' == s.(c2s := s.c2s[1..], known := s.known + {s.c2s[0].id}, out := s'.out,
              answers := s.answers[s.c2s[0].id := Answer(s.c2s[0].req, resp)])
    ensures LineOk(s') && FreshOk(s')
  {
    ReceivesNew(s);
    assert Todo(s') == s.pool + (s.c2s[1..] + s.sending + s.channel);
    assert forall x | x in Todo(s') :: x in Todo(s);
  }

  lemma {:induction false} QueueLine(s: State, s': State)
    requires LineOk(s) && FreshOk(s) && s.c2s != [] && !s.c2s[0].req.ping
    requires s' == s.(c2s := s.c2s[1..], known := s.known + {s.c2s[0].id}, pool := s.pool + [s.c2s[0]])
    ensures LineOk(s') && FreshOk(s')
  {
    var m := s.c2s[0];
    assert s.c2s == [m] + s.c2s[1..];
    assert Todo(s') == Todo(s);
    assert m in s'.pool;
    assert forall x | x in s.pool :: x in s'.pool;
  }

  lemma {:induction false} ReceivesLine(s: State, resp: Resp)
    requires LineOk(s) && FreshOk(s) && Enabled(s, ServerReceives(resp))
    ensures LineOk(Apply(s, ServerReceives(resp))) && FreshOk(Apply(s, ServerReceives(resp)))
  {
    ReceivesNew(s);
    if s.c2s[0].req.ping {
      PingLine(s, Apply(s, ServerReceives(resp)), resp);
    } else {
      QueueLine(s, Apply(s, ServerReceives(resp)));
    }
  }

  lemma {:induction false} FailsLine(s: State, delivered: bool)
    requires LineOk(s) && FreshOk(s) && Enabled(s, TransmitFails(delivered))
    ensures LineOk(Apply(s, TransmitFails(delivered))) && FreshOk(Apply(s, TransmitFails(delivered)))
  {
    if delivered {
      TransmittedLine(s);
      SameLineKeeps(Apply(s, Transmitted), Apply(s, TransmitFails(delivered)));
    } else {
      LostLine(s, s.(sending := []));
      SameLineKeeps(s.(sending := []), Apply(s, TransmitFails(delivered)));
    }
  }

  lemma {:induction false} FailAllLine(s: State)
    requires LineOk(s) && FreshOk(s)
    ensures LineOk(FailAll(s)) && FreshOk(FailAll(s))
  {
    StoppedLine(s, s.(channel := []));
    SameLineKeeps(s.(channel := []), FailAll(s));
  }

  lemma {:induction false} OtherLine(s: State, a: Action)
    requires Enabled(s, a) && (a.Timeout? || a.ServerReplies? || a.ClientHeader? || a.ClientPayload?)
    ensures SameLine(s, Apply(s, a))
  {
    if a.ClientHeader? || a.ClientPayload? {
      ClientLine(s, a);
    }
  }

  lemma {:induction false} ClientLine(s: State, a: Action)
    requires Enabled(s, a) && (a.ClientHeader? || a.ClientPayload?)
    ensures SameLine(s, Apply(s, a))
  {
  }

  lemma {:induction false} LineKeeps(s: State, a: Action)
    requires Inv(s) && Enabled(s, a)
    ensures LineOk(Apply(s, a)) && FreshOk(Apply(s, a))
  {
    match a
    case Send(req) => SendLine(s, req);
    case Take => TakeLine(s);
    case Transmitted => TransmittedLine(s);
    case TransmitFails(delivered) => FailsLine(s, delivered);
    case ServerReceives(resp) => ReceivesLine(s, resp);
    case Handle(resp) => HandleLine(s, resp);
    case Stop => FailAllLine(s);
    case ReceiverExits => FailAllLine(s);
    case _ =>
      OtherLine(s, a);
      SameLineKeeps(s, Apply(s, a));
  }

  // Answers.

  /** Nothing an old reply could refer to has changed. */
  ghost predicate Grown(s: State, s': State) {
    && (forall id | id in s.answers :: id in s'.answers && s'.answers[id] == s.answers[id])
    && (forall id | id in s.sent :: id in s'.sent && s'.sent[id] == s.sent[id])
  }

  lemma {:induction false} GrownReply(s: State, s': State)
    requires AnswersOk(s) && Grown(s, s')
    ensures forall r | r in s.out :: ReplyOk(s', r.id, r.resp)
    ensures forall r | r in s.s2c :: ReplyOk(s', r.id, r.resp)
    ensures s.hand.Some? ==> ReplyOk(s', s.hand.value.id, s.hand.value.resp)
    ensures forall id | id in s.outcomes && s.outcomes[id].Success? :: ReplyOk(s', id, s.outcomes[id].resp)
    ensures forall id | id in s.pending :: id in s'.sent && s.pending[id] == s'.sent[id]
    ensures forall id | id in s.answers :: id in s'.sent && s.answers[id].req == s'.sent[id]
  {
  }

  lemma {:induction false} SendAnswers(s: State, req: Req)
    requires Inv(s) && Enabled(s, Send(req))
    ensures AnswersOk(Apply(s, Send(req)))
  {
    GrownReply(s, Apply(s, Send(req)));
  }

  /** A request is executed: its answer is recorded, and a reply sent. */
  lemma {:induction false} ExecuteAnswers(s: State, s': State, m: Msg, resp: Resp)
    requires Inv(s) && MsgOk(s, m) && m.id !in s.answers
    requires s' == s.(c2s := s'.c2s, known := s'.known, pool := s'.pool, work := s'.work,
              out := s.out + [Reply(m.id, resp)],
                      answers := s.answers[m.id := Answer(m.req, resp)])
    ensures AnswersOk(s')
  {
    GrownReply(s, s');
    forall r | r in s'.out ensures ReplyOk(s', r.id, r.resp) {
      assert r in s.out || r == Reply(m.id, resp);
    }
  }

  lemma {:induction false} HandleAnswers(s: State, resp: Resp)
    requires Inv(s) && Enabled(s, Handle(resp))
    ensures AnswersOk(Apply(s, Handle(resp)))
  {
    PoolHead(s);
    ExecuteAnswers(s, Apply(s, Handle(resp)), s.pool[0], resp);
  }

  lemma {:induction false} ReceivesAnswers(s: State, resp: Resp)
    requires Inv(s) && Enabled(s, ServerReceives(resp))
    ensures AnswersOk(Apply(s, ServerReceives(resp)))
  {
    ReceivesNew(s);
    if s.c2s[0].req.ping {
      ExecuteAnswers(s, Apply(s, ServerReceives(resp)), s.c2s[0], resp);
    }
  }

  /** Nothing is answered or sent: what the new state speaks of, the old one already did. */
  ghost predicate Narrower(s: State, s': State) {
    && s'.sent == s.sent && s'.answers == s.answers
    && (forall id | id in s'.pending :: id in s.pending && s'.pending[id] == s.pending[id])
    && (forall r | r in s'.out :: r in s.out)
    && (forall r | r in s'.s2c :: r in s.s2c || r in s.out)
    && (s'.hand.Some? ==> ReplyOk(s, s'.hand.value.id, s'.hand.value.resp))
    && (forall id | id in s'.outcomes && s'.outcomes[id].Success? :: ReplyOk(s, id, s'.outcomes[id].resp))
  }

  lemma {:induction false} NarrowerAnswers(s: State, s': State)
    requires AnswersOk(s) && Narrower(s, s')
    ensures AnswersOk(s')
  {
  }

  lemma {:induction false} FailNarrower(s: State, id: Id)
    requires AnswersOk(s)
    ensures Narrower(s, Fail(s, id))
  {
  }

  lemma {:induction false} FailAllNarrower(s: State)
    requires AnswersOk(s)
    ensures Narrower(s, FailAll(s))
  {
  }

  lemma {:induction false} RepliesNarrower(s: State)
    requires AnswersOk(s) && Enabled(s, ServerReplies)
    ensures Narrower(s, Apply(s, ServerReplies))
  {
  }

  lemma {:induction false} ClientNarrower(s: State, a: Action)
    requires AnswersOk(s) && Enabled(s, a) && (a.ClientHeader? || a.ClientPayload?)
    ensures Narrower(s, Apply(s, a))
  {
  }

  lemma {:induction false} SenderNarrower(s: State, a: Action)
    requires AnswersOk(s) && Enabled(s, a) && (a.Take? || a.Transmitted?)
    ensures Narrower(s, Apply(s, a))
  {
  }

  lemma {:induction false} OtherAnswers(s: State, a: Action)
    requires AnswersOk(s) && Enabled(s, a) && !a.Send? && !a.Handle? && !a.ServerReceives?
    ensures AnswersOk(Apply(s, a))
  {
    var s' := Apply(s, a);
    match a
    case TransmitFails(delivered) => FailNarrower(s, s.sending[0].id); assert Narrower(s, s'); NarrowerAnswers(s, s');
    case Timeout(id) => FailNarrower(s, id); NarrowerAnswers(s, s');
    case Stop => FailAllNarrower(s); NarrowerAnswers(s, s');
    case ReceiverExits => FailAllNarrower(s); NarrowerAnswers(s, s');
    case ServerReplies => RepliesNarrower(s); NarrowerAnswers(s, s');
    case ClientHeader => ClientNarrower(s, a); NarrowerAnswers(s, s');
    case ClientPayload(_) => ClientNarrower(s, a); NarrowerAnswers(s, s');
    case _ => SenderNarrower(s, a); NarrowerAnswers(s, s');
  }

  lemma {:induction false} StepKeeps(s: State, a: Action)
    requires Inv(s) && Enabled(s, a)
    ensures Inv(Apply(s, a))
  {
    TokensKeep(s, a);
    LineKeeps(s, a);
    match a
    case Send(req) => SendAnswers(s, req);
    case Handle(resp) => HandleAnswers(s, resp);
    case ServerReceives(resp) => ReceivesAnswers(s, resp);
    case _ => OtherAnswers(s, a);
  }

  lemma {:induction false} LeadsKeeps(s: State, actions: seq<Action>, s': State)
    requires Inv(s) && Leads(s, actions, s')
    ensures Inv(s')
    decreases |actions|
  {
    if actions != [] {
      StepKeeps(s, actions[0]);
      LeadsKeeps(Apply(s, actions[0]), actions[1..], s');
    }
  }

  lemma {:induction false} InitialInv()
    ensures Inv(INITIAL) && WaysOk(INITIAL)
  {
  }

  lemma {:induction false} RunKeeps(actions: seq<Action>, s: State)
    requires Leads(INITIAL, actions, s)
    ensures Inv(s)
  {
    InitialInv();
    LeadsKeeps(INITIAL, actions, s);
  }

  /**
   * Safety of every run: an issued id is in exactly one of the map, the receiver's hand and the set
   * promises; no promise is set twice; a success is the handler's answer to the request that was sent
   * under its id; other requests than pings are executed in the order of their ids, and no request twice.
   */
  lemma {:induction false} RpcSafe(actions: seq<Action>, s: State)
    requires Leads(INITIAL, actions, s)
    ensures forall id :: InMap(s, id) + InHand(s, id) + s.sets[id] == if Issued(s, id) then 1 else 0
    ensures forall id :: id in s.outcomes <==> s.sets[id] > 0
    ensures forall id | id in s.outcomes && s.outcomes[id].Success? ::
              id in s.answers && id in s.sent && s.answers[id] == Answer(s.sent[id], s.outcomes[id].resp)
    ensures forall i, j | 0 <= i < j < |s.work| :: s.work[i].id < s.work[j].id && !s.work[i].req.ping
    ensures forall m | m in Todo(s) :: m.id !in s.answers
  {
    RunKeeps(actions, s);
    forall i, j | 0 <= i < j < |s.work| ensures s.work[i].id < s.work[j].id && !s.work[i].req.ping {
      assert s.work[i] == Line(s)[i] && s.work[j] == Line(s)[j];
      assert s.work[i] in s.work;
    }
  }

  lemma {:induction false} StopStep(s: State, a: Action)
    requires Enabled(s, a) && !s.running
    ensures !Apply(s, a).running && Apply(s, a).counter == s.counter
  {
    match a
    case Timeout(_) =>
    case TransmitFails(_) =>
    case _ =>
  }

  lemma {:induction false} StaysStopped(s: State, actions: seq<Action>, s': State)
    requires Leads(s, actions, s') && !s.running
    ensures !s'.running && s'.counter == s.counter
    decreases |actions|
  {
    if actions != [] {
      StopStep(s, actions[0]);
      StaysStopped(Apply(s, actions[0]), actions[1..], s');
    }
  }

  /**
   * Once stopped, nothing is pending ever again: every promise is set or about to be set by the
   * receiver that holds it.
   */
  lemma {:induction false} StopLeavesNothing(actions: seq<Action>, s: State, stop: Action, more: seq<Action>, s': State)
    requires Leads(INITIAL, actions, s) && (stop.Stop? || stop.ReceiverExits?) && Enabled(s, stop)
    requires Leads(Apply(s, stop), more, s')
    ensures s'.pending == map[]
    ensures forall id | Issued(s', id) :: InHand(s', id) + s'.sets[id] == 1
  {
    StaysStopped(Apply(s, stop), more, s');
    RunKeeps(actions, s);
    StepKeeps(s, stop);
    LeadsKeeps(Apply(s, stop), more, s');
    forall id | Issued(s', id) ensures InHand(s', id) + s'.sets[id] == 1 {
      assert InMap(s', id) == 0;
    }
  }

  // What each promise is set to.

  /** The step sets the promise of an id to a failure. */
  predicate Fails(s: State, a: Action, id: Id) {
    match a
    case Timeout(i) => i == id && id in s.pending
    case TransmitFails(_) => s.sending != [] && s.sending[0].id == id && id in s.pending
    case Stop => id in s.pending
    case ReceiverExits => id in s.pending
    case ClientPayload(ok) => !ok && InHand(s, id) == 1
    case _ => false
  }

  /** The step sets the promise of an id to the response that the receiver has for it. */
  predicate Delivers(s: State, a: Action, id: Id, resp: Resp) {
    a == ClientPayload(true) && InHand(s, id) == 1 && s.hand.value.resp == resp
  }

  function SetTo(s: State, id: Id): Option<Outcome> { if id in s.outcomes then Some(s.outcomes[id]) else None }

  /** What the promise of an id is after a step. */
  ghost predicate Sets(s: State, a: Action, id: Id, now: Option<Outcome>) {
    if Fails(s, a, id) then SetTo(s, id) == None && now == Some(Failure)
    else if a == ClientPayload(true) && InHand(s, id) == 1 then
      SetTo(s, id) == None && now == Some(Success(s.hand.value.resp))
    else now == SetTo(s, id)
  }

  /** Every step sets the promises it is said to, which were not set before, and no other. */
  lemma {:induction false} OutcomeStep(s: State, a: Action, id: Id)
    requires TokensOk(s) && Enabled(s, a)
    ensures Sets(s, a, id, SetTo(Apply(s, a), id))
  {
    assert InMap(s, id) + InHand(s, id) + s.sets[id] <= 1;
    if a.Timeout? || a.TransmitFails? {
      FailSets(s, a, id);
    } else if a.Stop? || a.ReceiverExits? || a.ClientPayload? {
    } else {
      OutcomeSame(s, a);
    }
  }

  lemma {:induction false} FailSets(s: State, a: Action, id: Id)
    requires TokensOk(s) && Enabled(s, a) && (a.Timeout? || a.TransmitFails?)
    ensures Sets(s, a, id, SetTo(Apply(s, a), id))
  {
    assert InMap(s, id) + InHand(s, id) + s.sets[id] <= 1;
  }

  lemma {:induction false} OutcomeSame(s: State, a: Action)
    requires Enabled(s, a)
    requires !a.Timeout? && !a.TransmitFails? && !a.Stop? && !a.ReceiverExits? && !a.ClientPayload?
    ensures Apply(s, a).outcomes == s.outcomes
  {
    if a.ServerReceives? { ReceivesSame(s, a.resp); }
  }

  lemma {:induction false} ReceivesSame(s: State, resp: Resp)
    requires Enabled(s, ServerReceives(resp))
    ensures Apply(s, ServerReceives(resp)).outcomes == s.outcomes
  {
  }

  /** Some step of the run delivers this response. */
  ghost predicate IsDelivered(s: State, actions: seq<Action>, id: Id, resp: Resp)
    decreases |actions|
  {
    && actions != [] && Enabled(s, actions[0])
    && (Delivers(s, actions[0], id, resp) || IsDelivered(Apply(s, actions[0]), actions[1..], id, resp))
  }

  /** Some step of the run makes the request fail. */
  ghost predicate IsFailed(s: State, actions: seq<Action>, id: Id)
    decreases |actions|
  {
    && actions != [] && Enabled(s, actions[0])
    && (Fails(s, actions[0], id) || IsFailed(Apply(s, actions[0]), actions[1..], id))
  }

  lemma {:induction false} LeadsOutcomes(s: State, actions: seq<Action>, s': State, id: Id, resp: Resp)
    requires Inv(s) && Leads(s, actions, s')
    ensures SetTo(s', id) == Some(Success(resp)) <==>
              SetTo(s, id) == Some(Success(resp)) || IsDelivered(s, actions, id, resp)
    ensures SetTo(s', id) == Some(Failure) <==> SetTo(s, id) == Some(Failure) || IsFailed(s, actions, id)
    decreases |actions|
  {
    if actions != [] {
      OutcomeStep(s, actions[0], id);
      StepKeeps(s, actions[0]);
      LeadsOutcomes(Apply(s, actions[0]), actions[1..], s', id, resp);
    }
  }

  /**
   * In every run: a promise has the response if and only if the receiver had it in hand and its payload
   * came; and it has failed if and only if it timed out, its message could not be sent, its payload was
   * bad, or the connection was stopped or lost while it was waiting.
   */
  lemma {:induction false} RunOutcomes(actions: seq<Action>, s: State, id: Id, resp: Resp)
    requires Leads(INITIAL, actions, s)
    ensures SetTo(s, id) == Some(Success(resp)) <==> IsDelivered(INITIAL, actions, id, resp)
    ensures SetTo(s, id) == Some(Failure) <==> IsFailed(INITIAL, actions, id)
  {
    InitialInv();
    LeadsOutcomes(INITIAL, actions, s, id, resp);
  }

  lemma {:induction false} Prepend(s: State, a: Action, actions: seq<Action>, s': State) returns (all: seq<Action>)
    requires Enabled(s, a) && Leads(Apply(s, a), actions, s')
    ensures Leads(s, all, s')
  {
    all := [a] + actions;
    assert all[1..] == actions;
  }

  /**
   * The receiver's next round, if its payload is good: the reply is off the wire, and delivered if it
   * is waited for.
   */
  lemma {:induction false} ReceiverRound(s: State) returns (actions: seq<Action>, s': State)
    requires s.running && s.hand.None? && s.s2c != []
    ensures Leads(s, actions, s') && s'.running && s'.hand.None? && s'.s2c == s.s2c[1..]
    ensures var r := s.s2c[0];
            && s'.pending == s.pending - {r.id}
            && (r.id in s.pending ==> SetTo(s', r.id) == Some(Success(r.resp)))
            && (forall id | id != r.id :: SetTo(s', id) == SetTo(s, id))
  {
    var s1 := Apply(s, ClientHeader);
    if s.s2c[0].id in s.pending {
      s' := Apply(s1, ClientPayload(true));
      actions := Prepend(s1, ClientPayload(true), [], s');
    } else {
      s' := s1;
      actions := [];
      assert s.pending - {s.s2c[0].id} == s.pending;
    }
    actions := Prepend(s, ClientHeader, actions, s');
  }

  /** Whatever lies before it on the wire, the first reply to a waiting request is delivered when its turn comes. */
  lemma {:induction false} ReplyArrives(s: State, k: nat) returns (actions: seq<Action>, s': State)
    requires s.running && s.hand.None? && k < |s.s2c| && s.s2c[k].id in s.pending
    requires forall j | 0 <= j < k :: s.s2c[j].id != s.s2c[k].id
    ensures Leads(s, actions, s') && SetTo(s', s.s2c[k].id) == Some(Success(s.s2c[k].resp))
    decreases k
  {
    var s1;
    actions, s1 := ReceiverRound(s);
    if k == 0 {
      s' := s1;
    } else {
      var more;
      more, s' := ReplyArrives(s1, k - 1);
      LeadsOn(s, actions, s1, more, s');
      actions := actions + more;
    }
  }

  lemma {:induction false} LeadsOn(s: State, a: seq<Action>, m: State, b: seq<Action>, s': State)
    requires Leads(s, a, m) && Leads(m, b, s')
    ensures Leads(s, a + b, s')
    decreases |a|
  {
    if a == [] {
      assert a + b == b;
    } else {
      assert (a + b)[0] == a[0] && (a + b)[1..] == a[1..] + b;
      LeadsOn(Apply(s, a[0]), a[1..], m, b, s');
    }
  }

  // No request is lost while somebody waits for it.

  /** The request or its reply is on its way. */
  ghost predicate OnItsWay(s: State, id: Id) {
    (exists m :: m in Todo(s) && m.id == id) || (exists r :: r in s.out + s.s2c && r.id == id)
  }

  /**
   * The server knows what it has queued and what it has not replied to, each once; and what is waited
   * for is on its way.
   */
  ghost predicate WaysOk(s: State) {
    && (forall r | r in s.out :: r.id in s.known)
    && (forall m | m in s.pool :: m.id in s.known)
    && (forall i, j | 0 <= i < j < |s.out| :: s.out[i].id != s.out[j].id)
    && (forall id | id in s.pending :: OnItsWay(s, id))
  }

  /** Nothing on its way is lost by the step. */
  ghost predicate SameWays(s: State, s': State) {
    && (forall m | m in Todo(s) :: m in Todo(s') || exists r :: r in s'.out + s'.s2c && r.id == m.id)
    && (forall r | r in s.out + s.s2c :: r in s'.out + s'.s2c)
    && (forall id | id in s'.pending :: id in s.pending)
  }

  lemma {:induction false} SameWaysKeep(s: State, s': State)
    requires WaysOk(s) && SameWays(s, s')
    ensures forall id | id in s'.pending :: OnItsWay(s', id)
  {
    forall id | id in s'.pending ensures OnItsWay(s', id) {
      assert OnItsWay(s, id);
    }
  }

  lemma {:induction false} SenderWays(s: State, a: Action)
    requires Inv(s) && WaysOk(s) && Enabled(s, a) && (a.Take? || a.Transmitted? || a.TransmitFails?)
    ensures WaysOk(Apply(s, a))
  {
    var s' := Apply(s, a);
    assert s'.out == s.out && s'.pool == s.pool && s'.known == s.known;
    if a.Take? {
      assert s.channel == [s.channel[0]] + s.channel[1..];
      assert Todo(s') == Todo(s);
      SameWaysKeep(s, s');
    } else {
      assert s.sending == [s.sending[0]] && s'.sending == [];
      if a.Transmitted? {
        assert Todo(s') == Todo(s);
        SameWaysKeep(s, s');
      } else {
        FailedWays(s, a);
      }
    }
  }

  lemma {:induction false} FailedWays(s: State, a: Action)
    requires WaysOk(s) && LineOk(s) && a.TransmitFails? && Enabled(s, a)
    ensures forall id | id in Apply(s, a).pending :: OnItsWay(Apply(s, a), id)
  {
    var s' := Apply(s, a);
    assert s.sending == [s.sending[0]] && s'.out == s.out && s'.s2c == s.s2c;
    forall id | id in s'.pending ensures OnItsWay(s', id) {
      assert id in s.pending && id != s.sending[0].id && OnItsWay(s, id);
      if m :| m in Todo(s) && m.id == id {
        assert m in Todo(s');
      }
    }
  }

  lemma {:induction false} SendWays(s: State, req: Req)
    requires WaysOk(s) && Enabled(s, Send(req))
    ensures WaysOk(Apply(s, Send(req)))
  {
    var s' := Apply(s, Send(req));
    var m := Msg(s.counter + 1, req);
    assert Todo(s') == Todo(s) + [m];
    assert m in Todo(s');
    forall id | id in s'.pending ensures OnItsWay(s', id) {
      if id != m.id {
        assert OnItsWay(s, id);
        assert forall x | x in Todo(s) :: x in Todo(s');
      }
    }
  }

  lemma {:induction false} ReceiveWays(s: State, resp: Resp)
    requires Inv(s) && WaysOk(s) && Enabled(s, ServerReceives(resp))
    ensures WaysOk(Apply(s, ServerReceives(resp)))
  {
    ReceivesNew(s);
    if s.c2s[0].req.ping {
      PingWays(s, resp);
    } else {
      QueueWays(s, resp);
    }
  }

  lemma {:induction false} PingWays(s: State, resp: Resp)
    requires AnswersOk(s) && WaysOk(s) && s.c2s != [] && s.c2s[0].req.ping
    requires s.c2s[0].id !in s.known && s.c2s[0].id !in s.answers
    ensures WaysOk(Apply(s, ServerReceives(resp)))
  {
    assert s.c2s == [s.c2s[0]] + s.c2s[1..];
    AnsweredWays(s, Apply(s, ServerReceives(resp)), s.c2s[0], resp);
  }

  lemma {:induction false} QueueWays(s: State, resp: Resp)
    requires WaysOk(s) && s.c2s != [] && !s.c2s[0].req.ping && s.c2s[0].id !in s.known
    ensures WaysOk(Apply(s, ServerReceives(resp)))
  {
    var m, s' := s.c2s[0], Apply(s, ServerReceives(resp));
    assert s.c2s == [m] + s.c2s[1..];
    assert Todo(s') == Todo(s);
    SameWaysKeep(s, s');
  }

  lemma {:induction false} HandleWays(s: State, resp: Resp)
    requires Inv(s) && WaysOk(s) && Enabled(s, Handle(resp))
    ensures WaysOk(Apply(s, Handle(resp)))
  {
    PoolHead(s);
    assert s.pool == [s.pool[0]] + s.pool[1..];
    AnsweredWays(s, Apply(s, Handle(resp)), s.pool[0], resp);
  }

  /** The request at the head of a queue becomes a reply. */
  lemma {:induction false} AnsweredWays(s: State, s': State, m: Msg, resp: Resp)
    requires AnswersOk(s) && WaysOk(s) && m.id !in s.answers
    requires s'.out == s.out + [Reply(m.id, resp)] && s'.s2c == s.s2c && s'.pending == s.pending
    requires m.id in s'.known && s.known <= s'.known && (forall x | x in s'.pool :: x in s.pool)
    requires forall x | x in Todo(s) :: x in Todo(s') || x == m
    ensures WaysOk(s')
  {
    forall i, j | 0 <= i < j < |s'.out| ensures s'.out[i].id != s'.out[j].id {
      if j == |s.out| { assert s.out[i] in s.out; }
    }
    assert Reply(m.id, resp) in s'.out;
    SameWaysKeep(s, s');
  }

  lemma {:induction false} ReplyWays(s: State)
    requires Inv(s) && WaysOk(s) && Enabled(s, ServerReplies)
    ensures WaysOk(Apply(s, ServerReplies))
  {
    var r, s' := s.out[0], Apply(s, ServerReplies);
    assert s.out == [r] + s.out[1..] && r in s.out;
    assert Todo(s') == Todo(s);
    forall m | m in s'.pool ensures m.id in s'.known {
      assert m in Todo(s);
    }
    SameWaysKeep(s, s');
  }

  lemma {:induction false} HeaderWays(s: State)
    requires WaysOk(s) && Enabled(s, ClientHeader)
    ensures WaysOk(Apply(s, ClientHeader))
  {
    var r, s' := s.s2c[0], Apply(s, ClientHeader);
    assert s.s2c == [r] + s.s2c[1..];
    assert Todo(s') == Todo(s);
    forall id | id in s'.pending ensures OnItsWay(s', id) {
      assert id in s.pending && id != r.id && OnItsWay(s, id);
    }
  }

  lemma {:induction false} WaysKeep(s: State, a: Action)
    requires Inv(s) && WaysOk(s) && Enabled(s, a)
    ensures WaysOk(Apply(s, a))
  {
    match a
    case Send(req) => SendWays(s, req);
    case Timeout(id) => SameWaysKeep(s, Apply(s, a));
    case ServerReceives(resp) => ReceiveWays(s, resp);
    case Handle(resp) => HandleWays(s, resp);
    case ServerReplies => ReplyWays(s);
    case ClientHeader => HeaderWays(s);
    case ClientPayload(_) => SameWaysKeep(s, Apply(s, a));
    case Stop =>
    case ReceiverExits =>
    case _ => SenderWays(s, a);
  }

  lemma {:induction false} LeadsWays(s: State, actions: seq<Action>, s': State)
    requires Inv(s) && WaysOk(s) && Leads(s, actions, s')
    ensures WaysOk(s')
    decreases |actions|
  {
    if actions != [] {
      StepKeeps(s, actions[0]);
      WaysKeep(s, actions[0]);
      LeadsWays(Apply(s, actions[0]), actions[1..], s');
    }
  }

  /** In every run, whatever is waited for is on its way: as a request, or as a reply. */
  lemma {:induction false} NothingLost(actions: seq<Action>, s: State)
    requires Leads(INITIAL, actions, s)
    ensures forall id | id in s.pending :: OnItsWay(s, id)
  {
    InitialInv();
    LeadsWays(INITIAL, actions, s);
  }

  lemma {:induction false} FirstReply(replies: seq<Reply>, id: Id) returns (k: nat)
    requires exists r :: r in replies && r.id == id
    ensures k < |replies| && replies[k].id == id && forall j | 0 <= j < k :: replies[j].id != id
  {
    k := 0;
    if replies[0].id != id {
      assert replies == [replies[0]] + replies[1..];
      k := FirstReply(replies[1..], id);
      k := k + 1;
    }
  }

  /** What moves a message on: the sender and the server at work. */
  function NextStep(s: State): Action
    requires s.out != [] || s.pool != [] || s.c2s != [] || s.sending != [] || s.channel != []
  {
    if s.out != [] then ServerReplies else if s.pool != [] then Handle(0) else if s.c2s != [] then ServerReceives(0)
    else if s.sending != [] then Transmitted else Take
  }

  function Ahead(s: State): nat {
    |s.out| + 2 * |s.pool| + 3 * |s.c2s| + 4 * |s.sending| + 5 * |s.channel|
  }

  lemma {:induction false} NextMoves(s: State)
    requires s.running && (s.out != [] || s.pool != [] || s.c2s != [] || s.sending != [] || s.channel != [])
    ensures Enabled(s, NextStep(s))
    ensures var s' := Apply(s, NextStep(s));
            s'.running && s'.hand == s.hand && s'.pending == s.pending && Ahead(s') < Ahead(s)
  {
  }

  lemma {:induction false} SucceedsFrom(s: State, id: Id) returns (actions: seq<Action>, s': State)
    requires Inv(s) && WaysOk(s) && s.running && id in s.pending
    ensures Leads(s, actions, s') && SetTo(s', id).Some? && SetTo(s', id).value.Success?
    decreases Ahead(s), if s.hand.Some? then 1 else 0
  {
    if s.hand.Some? {
      StepKeeps(s, ClientPayload(true));
      WaysKeep(s, ClientPayload(true));
      actions, s' := SucceedsFrom(Apply(s, ClientPayload(true)), id);
      actions := Prepend(s, ClientPayload(true), actions, s');
    } else if s.out == [] && s.pool == [] && s.c2s == [] && s.sending == [] && s.channel == [] {
      assert OnItsWay(s, id) && s.out + s.s2c == s.s2c;
      var k := FirstReply(s.s2c, id);
      actions, s' := ReplyArrives(s, k);
    } else {
      NextMoves(s);
      StepKeeps(s, NextStep(s));
      WaysKeep(s, NextStep(s));
      actions, s' := SucceedsFrom(Apply(s, NextStep(s)), id);
      actions := Prepend(s, NextStep(s), actions, s');
    }
  }

  /** In every run, as long as the connection is up, every request that is waited for can still succeed. */
  lemma {:induction false} CanSucceed(actions: seq<Action>, s: State, id: Id) returns (more: seq<Action>, s': State)
    requires Leads(INITIAL, actions, s) && s.running && id in s.pending
    ensures Leads(s, more, s') && SetTo(s', id).Some? && SetTo(s', id).value.Success?
  {
    InitialInv();
    LeadsKeeps(INITIAL, actions, s);
    LeadsWays(INITIAL, actions, s);
    more, s' := SucceedsFrom(s, id);
  }

  /** A request, from its start to its response. */
  lemma {:induction false} RequestSucceeds(body: nat, resp: Resp) returns (actions: seq<Action>, s: State)
    ensures Leads(INITIAL, actions, s) && SetTo(s, 1) == Some(Success(resp))
  {
    var req := Req(body, false);
    var s1 := Apply(INITIAL, Send(req));
    var s2 := Apply(s1, Take);
    var s3 := Apply(s2, Transmitted);
    assert s3 == INITIAL.(counter := 1, pending := map[1 := req], c2s := [Msg(1, req)], sent := map[1 := req]);
    actions, s := RequestServed(s3, req, resp);
    actions := Prepend(s2, Transmitted, actions, s);
    actions := Prepend(s1, Take, actions, s);
    actions := Prepend(INITIAL, Send(req), actions, s);
  }

  lemma {:induction false} RequestServed(s0: State, req: Req, resp: Resp) returns (actions: seq<Action>, s: State)
    requires s0 == INITIAL.(counter := 1, pending := map[1 := req], c2s := [Msg(1, req)], sent := map[1 := req])
    requires !req.ping
    ensures Leads(s0, actions, s) && SetTo(s, 1) == Some(Success(resp))
  {
    var s1 := Apply(s0, ServerReceives(0));
    assert s1 == s0.(c2s := [], known := {1}, pool := [Msg(1, req)]);
    var s2 := Apply(s1, Handle(resp));
    var s3 := s2.(out := [], known := {}, s2c := [Reply(1, resp)]);
    assert s2.out == [Reply(1, resp)] && s3 == Apply(s2, ServerReplies);
    actions, s := ReceiverRound(s3);
    actions := Prepend(s2, ServerReplies, actions, s);
    actions := Prepend(s1, Handle(resp), actions, s);
    actions := Prepend(s0, ServerReceives(0), actions, s);
  }
}
