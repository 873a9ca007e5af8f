/** The command router of the new broker: a request (a JSON object, from a WebSocket frame or
    from an HTTP message) is checked in a fixed order and handed to one of seven handlers, each
    of which answers with a status code. */
module MqServerAdaptor {
  import opened Wrappers
  import opened Text

  /** The request fields the router and its handlers read (`None` is an absent key). */
  datatype Request = Request(
    cmd: Option<string>, id: Option<string>, mq: Option<string>, channel: Option<string>,
    ack: Option<bool>, window: Option<int>, topic: Option<string>)

  /** A received message: a WebSocket byte frame, an HTTP message, or anything else. The JSON
      object parsed from it (from the body, or from the URL parameters when the body is null)
      is given; `None` when parsing yields null. */
  datatype Incoming = Frame(json: Option<Request>) | Http(json: Option<Request>) | Unsupported

  datatype Command = Pub | Sub | Take | Create | Remove | Query | Ping

  /** `requestAuth.auth(json)`. */
  datatype AuthResult = AuthResult(success: bool, message: string)

  datatype Body = Note(text: string) | QueueInfo(mq: string) | ChannelInfo(mq: string, channel: string)

  /** A reply: status, body and the request id it echoes. */
  datatype Response = Response(status: int, body: Body, id: Option<string>)

  /** What `onMessage` does with a message: answer it at once, run a handler, or throw
      `IllegalStateException` for an unsupported message type. `websocket` picks the channel the
      answer goes back on. */
  datatype Decision =
    | Answer(response: Response, websocket: bool)
    | Handle(command: Command, req: Request, websocket: bool)
    | NotSupported

  /** The command table: lowercase verb to handler. */
  const Commands: map<string, Command> :=
    map["pub" := Pub, "sub" := Sub, "take" := Take, "create" := Create,
        "remove" := Remove, "query" := Query, "ping" := Ping]

  /** `reply(req, status, message)`: the id is echoed whenever there is a request. */
  function Reply(req: Option<Request>, status: int, message: string): (r: Response)
    ensures r.status == status && r.body == Note(message)
    ensures r.id == if req.Some? then req.value.id else None
  {
    Response(status, Note(message), if req.Some? then req.value.id else None)
  }

  /** `onMessage`: the checks in order, then the handler. `auth` is `None` when no
      authenticator is installed. */
  function OnMessage(msg: Incoming, auth: Option<AuthResult>): (d: Decision)
    ensures d.NotSupported? <==> msg.Unsupported?
    ensures !msg.Unsupported? ==> !d.NotSupported? && d.websocket == msg.Frame?
    ensures !msg.Unsupported? && msg.json.None? ==> d == Answer(Reply(None, 400, "json format required"), msg.Frame?)
    ensures !msg.Unsupported? && msg.json.Some? && msg.json.value.cmd.None? ==>
      d == Answer(Reply(Some(msg.json.value), 400, "cmd key required"), msg.Frame?)
    ensures d.Answer? && d.response.status == 403 <==>
      !msg.Unsupported? && msg.json.Some? && msg.json.value.cmd.Some? && auth.Some? && !auth.value.success
    ensures !msg.Unsupported? && msg.json.Some? && msg.json.value.cmd.Some? && auth.Some? && !auth.value.success ==>
      d == Answer(Reply(Some(msg.json.value.(cmd := None)), 403, auth.value.message), msg.Frame?)
    ensures
      && !msg.Unsupported? && msg.json.Some? && msg.json.value.cmd.Some? && (auth.None? || auth.value.success)
      && ToLower(msg.json.value.cmd.value) !in Commands
      ==>
      d == Answer(Reply(Some(msg.json.value.(cmd := None)), 404,
                        "Command(" + ToLower(msg.json.value.cmd.value) + ") Not Found"), msg.Frame?)
    ensures d.Handle? <==>
      !msg.Unsupported? && msg.json.Some? && msg.json.value.cmd.Some? &&
      (auth.None? || auth.value.success) && ToLower(msg.json.value.cmd.value) in Commands
    ensures d.Handle? ==>
      d.command == Commands[ToLower(msg.json.value.cmd.value)] && d.req == msg.json.value.(cmd := None)
  {
    match msg
    case Unsupported => NotSupported
    case _ =>
      var ws := msg.Frame?;
      match msg.json
      case None => Answer(Reply(None, 400, "json format required"), ws)
      case Some(json) =>
        var req := json.(cmd := None);
        match json.cmd
        case None => Answer(Reply(Some(req), 400, "cmd key required"), ws)
        case Some(c) =>
          var verb := ToLower(c);
          if auth.Some? && !auth.value.success then Answer(Reply(Some(req), 403, auth.value.message), ws)
          else if verb !in Commands then Answer(Reply(Some(req), 404, "Command(" + verb + ") Not Found"), ws)
          else Handle(Commands[verb], req, ws)
  }

  /** Verbs are matched without regard to case. */
  lemma CommandCaseInsensitive(json: Request, c1: string, c2: string, ws: bool, auth: Option<AuthResult>)
    requires EqualsIgnoreCase(c1, c2) && ToLower(c1) in Commands
    ensures
      var m1 := if ws then Frame(Some(json.(cmd := Some(c1)))) else Http(Some(json.(cmd := Some(c1))));
      var m2 := if ws then Frame(Some(json.(cmd := Some(c2)))) else Http(Some(json.(cmd := Some(c2))));
      OnMessage(m1, auth) == OnMessage(m2, auth)
  {
  }

  /** A handler that throws: 500 with the exception's message. */
  function HandlerFailed(req: Request, message: string): (r: Response)
    ensures r.status == 500 && r.id == req.id && r.body == Note(message)
  {
    Reply(Some(req), 500, message)
  }

  /** `createHandler`; `saveFault` is the message of an `IOException` from `saveQueue`. */
  function CreateReply(req: Request, saveFault: Option<string>): (r: Response)
    ensures r.id == req.id
    ensures r.status == (if req.mq.None? then 400 else if saveFault.Some? then 500 else 200)
    ensures req.mq.Some? && saveFault.None? ==>
      r.body == Note(if req.channel.None? then "OK, CREATE (mq=" + req.mq.value + ")"
                     else "OK, CREATE (mq=" + req.mq.value + ",channel=" + req.channel.value + ")")
  {
    match req.mq
    case None => Reply(Some(req), 400, "Missing mq field")
    case Some(mq) =>
      if saveFault.Some? then Reply(Some(req), 500, saveFault.value)
      else if req.channel.None? then Reply(Some(req), 200, "OK, CREATE (mq=" + mq + ")")
      else Reply(Some(req), 200, "OK, CREATE (mq=" + mq + ",channel=" + req.channel.value + ")")
  }

  /** `removeHandler`; `removeFault` is the message of an `IOException` from `removeQueue`. */
  function RemoveReply(req: Request, removeFault: Option<string>): (r: Response)
    ensures r.id == req.id
    ensures r.status == (if req.mq.None? then 400 else if removeFault.Some? then 500 else 200)
    ensures req.mq.Some? && removeFault.None? ==>
      r.body == Note(if req.channel.None? then "OK, REMOVE (mq=" + req.mq.value + ")"
                     else "OK, REMOVE (mq=" + req.mq.value + ",channel=" + req.channel.value + ")")
  {
    match req.mq
    case None => Reply(Some(req), 400, "Missing mq field")
    case Some(mq) =>
      if removeFault.Some? then Reply(Some(req), 500, removeFault.value)
      else if req.channel.None? then Reply(Some(req), 200, "OK, REMOVE (mq=" + mq + ")")
      else Reply(Some(req), 200, "OK, REMOVE (mq=" + mq + ",channel=" + req.channel.value + ")")
  }

  /** What `pubHandler` does: its replies, whether it wrote the request into the queue and
      whether it then ran the dispatcher. */
  datatype PubOutcome = PubOutcome(replies: seq<Response>, written: bool, dispatched: bool)

  /** An explicit `ack: false` is the only way to suppress the 200. */
  predicate Acked(req: Request) { req.ack.None? || req.ack.value }

  /** `pubHandler` over the queue names `mqManager` knows. */
  function Publish(req: Request, queues: set<string>): (o: PubOutcome)
    ensures o.written <==> req.mq.Some? && req.mq.value in queues
    ensures o.dispatched == o.written
    ensures !o.written ==> |o.replies| == 1 && o.replies[0].status == (if req.mq.None? then 400 else 404)
    ensures o.written ==> o.replies == if Acked(req) then [Reply(Some(req), 200, "OK, PUB (mq=" + req.mq.value + ")")] else []
    ensures forall i :: 0 <= i < |o.replies| ==> o.replies[i].id == req.id
  {
    match req.mq
    case None => PubOutcome([Reply(Some(req), 400, "Missing mq field")], false, false)
    case Some(mq) =>
      if mq !in queues then PubOutcome([Reply(Some(req), 404, "MQ(" + mq + ") Not Found")], false, false)
      else PubOutcome(if Acked(req) then [Reply(Some(req), 200, "OK, PUB (mq=" + mq + ")")] else [], true, true)
  }

  /** `validateRequest`: `None` when it returns true, else the reply it sent. `queues` gives
      the channel names of each queue. */
  function Validate(req: Request, queues: map<string, set<string>>): (r: Option<Response>)
    ensures r.None? <==> req.mq.Some? && req.channel.Some? && req.mq.value in queues && req.channel.value in queues[req.mq.value]
    ensures r.Some? ==> r.value.id == req.id
    ensures r.Some? ==> r.value.status == (if req.mq.None? || req.channel.None? then 400 else 404)
    ensures r.Some? && req.mq.None? ==> r.value.body == Note("Missing mq field")
    ensures r.Some? && req.mq.Some? && req.channel.None? ==> r.value.body == Note("Missing channel field")
    ensures r.Some? && req.mq.Some? && req.channel.Some? && req.mq.value !in queues ==>
      r.value.body == Note("MQ(" + req.mq.value + ") Not Found")
    ensures r.Some? && req.mq.Some? && req.channel.Some? && req.mq.value in queues ==>
      r.value.body == Note("Channel(" + req.channel.value + ") Not Found")
  {
    if req.mq.None? then Some(Reply(Some(req), 400, "Missing mq field"))
    else if req.channel.None? then Some(Reply(Some(req), 400, "Missing channel field"))
    else if req.mq.value !in queues then Some(Reply(Some(req), 404, "MQ(" + req.mq.value + ") Not Found"))
    else if req.channel.value !in queues[req.mq.value] then Some(Reply(Some(req), 404, "Channel(" + req.channel.value + ") Not Found"))
    else None
  }

  /** The call `takeHandler` hands to the dispatcher. */
  datatype TakeCall = TakeCall(mq: string, channel: string, window: int, msgId: Option<string>)

  /** `takeHandler`: a validation reply, or the dispatcher call with `window` defaulting to 1. */
  function TakeOf(req: Request, queues: map<string, set<string>>): (r: Result<TakeCall, Response>)
    ensures r.Err? <==> Validate(req, queues).Some?
    ensures r.Ok? ==> r.value.mq == req.mq.value && r.value.channel == req.channel.value && r.value.msgId == req.id
    ensures r.Ok? ==> r.value.window == if req.window.None? then 1 else req.window.value
  {
    match Validate(req, queues)
    case Some(resp) => Err(resp)
    case None => Ok(TakeCall(req.mq.value, req.channel.value, if req.window.None? then 1 else req.window.value, req.id))
  }

  /** `queryHandler`. */
  function QueryReply(req: Request, queues: map<string, set<string>>): (r: Response)
    ensures r.id == req.id
    ensures r.status == 200 <==>
      req.mq.Some? && req.mq.value in queues && (req.channel.None? || req.channel.value in queues[req.mq.value])
    ensures r.status == 200 && req.channel.None? ==> r.body == QueueInfo(req.mq.value)
    ensures r.status == 200 && req.channel.Some? ==> r.body == ChannelInfo(req.mq.value, req.channel.value)
    ensures r.status != 200 ==> r.status == (if req.mq.None? then 400 else 404)
  {
    match req.mq
    case None => Reply(Some(req), 400, "Missing mq field")
    case Some(mq) =>
      if mq !in queues then Reply(Some(req), 404, "MQ(" + mq + ") Not Found")
      else match req.channel
        case None => Response(200, QueueInfo(mq), req.id)
        case Some(ch) =>
          if ch !in queues[mq] then Reply(Some(req), 404, "Channel(" + ch + ") Not Found")
          else Response(200, ChannelInfo(mq, ch), req.id)
  }

  datatype Subscription = Subscription(clientId: string, mq: string, channel: string, window: Option<int>, topics: seq<string>)

  /** The subscription table after `subHandler` has validated `req` for session `sessId`. */
  function Subscribed(subs: map<string, Subscription>, sessId: string, req: Request): map<string, Subscription>
    requires req.mq.Some? && req.channel.Some?
  {
    var topics := if req.topic.Some? then [req.topic.value] else [];
    if sessId in subs then subs[sessId := subs[sessId].(window := req.window, topics := topics)]
    else subs[sessId := Subscription(sessId, req.mq.value, req.channel.value, req.window, topics)]
  }

  /** One subscription per session: a second `sub` keeps the queue and channel, refreshes the
      window and replaces the topics. */
  lemma SubscribedKeepsTarget(subs: map<string, Subscription>, sessId: string, req: Request)
    requires req.mq.Some? && req.channel.Some?
    ensures var t := Subscribed(subs, sessId, req);
      t.Keys == subs.Keys + {sessId} && (forall k :: k in subs && k != sessId ==> t[k] == subs[k]) &&
      t[sessId].window == req.window &&
      t[sessId].topics == (if req.topic.Some? then [req.topic.value] else []) &&
      (sessId in subs ==> t[sessId].mq == subs[sessId].mq && t[sessId].channel == subs[sessId].channel &&
                          t[sessId].clientId == subs[sessId].clientId) &&
      (sessId !in subs ==> t[sessId].mq == req.mq.value && t[sessId].channel == req.channel.value &&
                           t[sessId].clientId == sessId)
  {
  }

  class MqServerAdaptor {
    /** `subscriptionManager`, keyed by client (session) id. */
    var subscriptions: map<string, Subscription>
    /** The ids of the open sessions (`sessionTable` of the base adaptor). */
    var sessions: set<string>

    constructor ()
      ensures subscriptions == map[] && sessions == {}
    {
      subscriptions, sessions := map[], {};
    }

    /** `subHandler`: its reply (if any), the subscription update, and the channel dispatched. */
    method Subscribe(req: Request, sessId: string, queues: map<string, set<string>>) returns (reply: Option<Response>, dispatched: Option<(string, string)>)
      modifies this`subscriptions
      ensures Validate(req, queues).Some? ==>
        reply == Validate(req, queues) && dispatched.None? && subscriptions == old(subscriptions)
      ensures Validate(req, queues).None? ==>
        reply == (if Acked(req) then Some(Reply(Some(req), 200, "OK, SUB (mq=" + req.mq.value + ",channel=" + req.channel.value + ")")) else None) &&
        subscriptions == Subscribed(old(subscriptions), sessId, req) &&
        dispatched == Some((req.mq.value, req.channel.value))
    {
      var invalid := Validate(req, queues);
      if invalid.Some? {
        return invalid, None;
      }
      var mq, channel := req.mq.value, req.channel.value;
      reply := None;
      if Acked(req) {
        reply := Some(Reply(Some(req), 200, "OK, SUB (mq=" + mq + ",channel=" + channel + ")"));
      }
      var sub: Subscription;
      if sessId !in subscriptions {
        sub := Subscription(sessId, mq, channel, req.window, []);
      } else {
        sub := subscriptions[sessId].(window := req.window);
      }
      sub := sub.(topics := []);
      if req.topic.Some? {
        sub := sub.(topics := sub.topics + [req.topic.value]);
        assert sub.topics == [req.topic.value];
      }
      subscriptions := subscriptions[sessId := sub];
      dispatched := Some((mq, channel));
    }

    /** `cleanSession(sess)`: the base adaptor forgets the session, then its subscription goes. */
    method CleanSession(sessId: string)
      modifies this
      ensures sessions == old(sessions) - {sessId}
      ensures subscriptions == old(subscriptions) - {sessId}
    {
      sessions := sessions - {sessId};
      subscriptions := subscriptions - {sessId};
    }
  }
}
