/** The message adaptor of the old broker: it fills in a command from the request URL when the
    message has none, routes the command to a handler, and keeps the queue table and the
    session table. */
module MqAdaptor {
  import opened Wrappers
  import opened Text

  /** The parts of a broker message the adaptor reads or rewrites; `headers` holds the other
      header fields (`register_token`, `mq_name`, `mq_mode`, `access_token`, ...). */
  datatype Msg = Msg(
    cmd: Option<string>, mq: Option<string>, id: Option<string>, ack: Option<bool>,
    body: Option<string>, sender: Option<string>, server: Option<string>,
    remoteAddr: Option<string>, headers: map<string, string>)

  /** `msg.getHead(key, default)`. */
  function Head(m: Msg, key: string, default: string): string
  {
    if key in m.headers then m.headers[key] else default
  }

  /** The parsed request URL (`UrlInfo`): whether it was empty, and its optional parts. */
  datatype UrlInfo = UrlInfo(
    empty: bool, mq: Option<string>, cmd: Option<string>, moduleName: Option<string>,
    methodName: Option<string>, params: Option<string>)

  /** The command names the adaptor registers its handlers under, besides `""` (home page). */
  datatype Verbs = Verbs(
    produce: string, consume: string, route: string, createMq: string, test: string,
    query: string, data: string, jquery: string, heartbeat: string)

  datatype Handler = Produce | Consume | Route | CreateMq | TestPage | QueryInfo | Home | Data | Jquery | Heartbeat

  /** The constructor's `registerHandler` calls, in order: the home page goes under `""`. */
  function Registrations(v: Verbs): seq<(string, Handler)>
  {
    [(v.produce, Produce), (v.consume, Consume), (v.route, Route), (v.createMq, CreateMq),
     (v.test, TestPage), (v.query, QueryInfo), ("", Home), (v.data, Data), (v.jquery, Jquery),
     (v.heartbeat, Heartbeat)]
  }

  /** No later call in `regs` registers under the name of call `i`. */
  predicate LastUnder(regs: seq<(string, Handler)>, i: nat)
    requires i < |regs|
  {
    forall j :: i < j < |regs| ==> regs[j].0 != regs[i].0
  }

  /** `registerHandler` called for each pair in turn, each a `handlerMap.put`. */
  function Installed(regs: seq<(string, Handler)>): map<string, Handler>
  {
    if regs == [] then map[]
    else Installed(regs[..|regs| - 1])[regs[|regs| - 1].0 := regs[|regs| - 1].1]
  }

  /** A later registration under an equal name wins: each name maps to the handler of its
      last registration. */
  lemma {:induction false} InstalledLastWins(regs: seq<(string, Handler)>, i: nat)
    requires i < |regs| && LastUnder(regs, i)
    ensures regs[i].0 in Installed(regs) && Installed(regs)[regs[i].0] == regs[i].1
  {
    var n := |regs| - 1;
    if i < n {
      assert regs[n].0 != regs[i].0;
      assert regs[..n][i] == regs[i];
      assert LastUnder(regs[..n], i) by {
        forall j | i < j < n ensures regs[..n][j].0 != regs[..n][i].0 {
          assert regs[..n][j] == regs[j];
        }
      }
      InstalledLastWins(regs[..n], i);
    }
  }

  /** Registering one more pair. */
  lemma InstalledSnoc(regs: seq<(string, Handler)>, k: nat)
    requires 0 < k <= |regs|
    ensures Installed(regs[..k]) == Installed(regs[..k - 1])[regs[k - 1].0 := regs[k - 1].1]
  {
    assert regs[..k][..k - 1] == regs[..k - 1];
  }

  /** The ten registrations, folded. */
  lemma RegistrationsInstalled(v: Verbs)
    ensures Installed(Registrations(v)) ==
      map[][v.produce := Produce][v.consume := Consume][v.route := Route][v.createMq := CreateMq]
        [v.test := TestPage][v.query := QueryInfo]["" := Home][v.data := Data][v.jquery := Jquery]
        [v.heartbeat := Heartbeat]
  {
    var regs := Registrations(v);
    assert regs[..0] == [];
    InstalledSnoc(regs, 1);
    InstalledSnoc(regs, 2);
    InstalledSnoc(regs, 3);
    InstalledSnoc(regs, 4);
    InstalledSnoc(regs, 5);
    InstalledSnoc(regs, 6);
    InstalledSnoc(regs, 7);
    InstalledSnoc(regs, 8);
    InstalledSnoc(regs, 9);
    InstalledSnoc(regs, 10);
    assert regs[..10] == regs;
  }

  /** The adaptor's handler table: the constructor's registrations in order, so a later
      registration under an equal name wins. */
  function HandlerMap(v: Verbs): (m: map<string, Handler>)
    ensures m.Keys == {v.produce, v.consume, v.route, v.createMq, v.test, v.query, "", v.data, v.jquery, v.heartbeat}
    ensures forall i :: 0 <= i < |Registrations(v)| && LastUnder(Registrations(v), i) ==>
      m[Registrations(v)[i].0] == Registrations(v)[i].1
    ensures m[v.heartbeat] == Heartbeat
    ensures "" != v.data && "" != v.jquery && "" != v.heartbeat ==> m[""] == Home
  {
    var regs := Registrations(v);
    RegistrationsInstalled(v);
    forall i | 0 <= i < |regs| && LastUnder(regs, i) ensures Installed(regs)[regs[i].0] == regs[i].1 {
      InstalledLastWins(regs, i);
    }
    Installed(regs)
  }

  /** The bit values of `MqMode.Memory`, `MqMode.RPC` and `MqMode.PubSub`. */
  datatype ModeBits = ModeBits(memory: bv32, rpc: bv32, pubSub: bv32)

  /** A Java `int` as its 32-bit pattern. */
  function Bits32(n: int): bv32
    requires IsInt32(n)
  {
    (if n < 0 then n + 0x1_0000_0000 else n) as bv32
  }

  /** `MqMode.isEnabled(mode, bit)`: the bit is set in the mode. */
  predicate IsEnabled(mode: int, bit: bv32)
    requires IsInt32(mode)
  {
    Bits32(mode) & bit != 0
  }

  datatype Kind = PubSubQueue | LoadBalanceQueue
  datatype Storage = MemoryStore | DiskStore

  /** A queue-table entry (`AbstractMQ`): its implementation, storage and attributes. */
  datatype Queue = Queue(
    name: string, kind: Kind, storage: Storage, mode: int, creator: string,
    accessToken: string, lastUpdateTime: int)

  /** A reply written back by `ReplyKit` or a handler: status, body and the request id. `ReplyKit`
      is not part of this model; its replies are the request with the status set. */
  datatype Reply = Reply(status: int, body: Option<string>, id: Option<string>)

  /** What a handler does towards the client: a reply, nothing, or a `NullPointerException`
      (a `ConcurrentHashMap` lookup with a null key). */
  datatype Outcome = Sent(reply: Reply) | NoReply | NullPointer

  /** The URL turns the message into an RPC call: it names a queue in RPC mode, and a method
      or no command. */
  predicate RpcRewrite(url: UrlInfo, table: map<string, Queue>, bits: ModeBits)
    requires forall k :: k in table ==> IsInt32(table[k].mode)
  {
    && !url.empty && url.mq.Some? && (url.methodName.Some? || url.cmd.None?)
    && url.mq.value in table && IsEnabled(table[url.mq.value].mode, bits.rpc)
  }

  /** `handleUrlMessage(msg)`. */
  function FromUrl(msg: Msg, url: UrlInfo, table: map<string, Queue>, bits: ModeBits, produceVerb: string): (r: Msg)
    requires forall k :: k in table ==> IsInt32(table[k].mode)
    ensures url.empty ==> r == msg.(cmd := Some(""))
    ensures !url.empty && msg.cmd.Some? && r.cmd != msg.cmd ==> r.cmd == Some(produceVerb)
    ensures !url.empty && msg.cmd.None? && r.cmd != Some(produceVerb) ==> r.cmd == url.cmd
    ensures !url.empty && msg.mq.Some? && r.mq != msg.mq ==> r.cmd == Some(produceVerb) && r.mq == url.mq
    ensures !url.empty && msg.mq.None? ==> r.mq == url.mq
    ensures r.id == msg.id && r.headers == msg.headers
    ensures RpcRewrite(url, table, bits) ==>
      r == msg.(mq := url.mq, ack := Some(false), cmd := Some(produceVerb),
                body := Some(RpcJson(if url.moduleName.None? then "" else url.moduleName.value,
                                     if url.methodName.None? then "" else url.methodName.value, url.params)))
    ensures !url.empty && !RpcRewrite(url, table, bits) ==>
      r == msg.(mq := if msg.mq.None? then url.mq else msg.mq, cmd := if msg.cmd.None? then url.cmd else msg.cmd)
  {
    if url.empty then msg.(cmd := Some(""))
    else
      var m1 :=
        if url.mq.Some? then
          var named := if msg.mq.None? then msg.(mq := url.mq) else msg;
          var methodName := if url.methodName.None? then "" else url.methodName.value;
          if (url.methodName.Some? || url.cmd.None?) && url.mq.value in table && IsEnabled(table[url.mq.value].mode, bits.rpc) then
            named.(mq := url.mq, ack := Some(false), cmd := Some(produceVerb),
                   body := Some(RpcJson(if url.moduleName.None? then "" else url.moduleName.value, methodName, url.params)))
          else named
        else msg;
      if url.cmd.Some? && m1.cmd.None? then m1.(cmd := url.cmd) else m1
  }

  /** The JSON request body built for a queue in RPC mode. */
  function RpcJson(moduleName: string, methodName: string, params: Option<string>): (json: string)
    ensures StartsWith(json, "{\"module\": \"" + moduleName + "\", \"method\": \"" + methodName + "\"")
    ensures EndsWith(json, if params.Some? then "]}" else "\"}")
    ensures params.Some? ==>
      json == "{\"module\": \"" + moduleName + "\", \"method\": \"" + methodName + "\", \"params\": [" + params.value + "]}"
    ensures params.None? ==> json == "{\"module\": \"" + moduleName + "\", \"method\": \"" + methodName + "\"}"
  {
    var head := "{\"module\": \"" + moduleName + "\", \"method\": \"" + methodName + "\"";
    var tail := if params.Some? then ", \"params\": [" + params.value + "]" else "";
    assert (head + tail + "}")[..|head|] == head;
    head + tail + "}"
  }

  /** Where `onMessage` sends a message. */
  datatype Routed = ToHandler(handler: Handler, msg: Msg) | BadFormat(reply: Reply)

  /** `setSender`, `setServer` and `setRemoteAddr`: the three fields are set, and nothing else
      changes. */
  function Stamp(msg: Msg, sessionId: string, serverAddr: string, remoteAddr: string): (m: Msg)
    ensures m.sender == Some(sessionId) && m.server == Some(serverAddr) && m.remoteAddr == Some(remoteAddr)
    ensures m.(sender := msg.sender, server := msg.server, remoteAddr := msg.remoteAddr) == msg
  {
    msg.(sender := Some(sessionId), server := Some(serverAddr), remoteAddr := Some(remoteAddr))
  }

  /** `onMessage`: the message is stamped with the session id, the server address and the
      session's remote address; a message without a command is completed from its URL; then the
      command's handler runs, or the session is answered 400. */
  function OnMessage(msg: Msg, sessionId: string, remoteAddr: string, serverAddr: string, url: UrlInfo,
                     handlers: map<string, Handler>, table: map<string, Queue>, bits: ModeBits, produceVerb: string): (r: Routed)
    requires forall k :: k in table ==> IsInt32(table[k].mode)
    ensures var stamped := Stamp(msg, sessionId, serverAddr, remoteAddr);
      && (msg.cmd.Some? && r.ToHandler? ==> r.msg == stamped)
      && (msg.cmd.None? && r.ToHandler? ==> r.msg == FromUrl(stamped, url, table, bits, produceVerb))
      && (msg.cmd.None? && url.empty && "" in handlers ==> r == ToHandler(handlers[""], stamped.(cmd := Some(""))))
    ensures r.ToHandler? ==>
      && r.msg.sender == Some(sessionId) && r.msg.server == Some(serverAddr) && r.msg.remoteAddr == Some(remoteAddr)
      && r.msg.id == msg.id && r.msg.headers == msg.headers
    ensures msg.cmd.Some? ==> (r.ToHandler? <==> msg.cmd.value in handlers)
    ensures r.ToHandler? ==> r.msg.cmd.Some? && r.msg.cmd.value in handlers && r.handler == handlers[r.msg.cmd.value]
    ensures r.BadFormat? ==> r.reply.status == 400 && r.reply.id == msg.id
    ensures msg.cmd.Some? && r.BadFormat? ==>
      r.reply.body == Some("Bad format: command(" + msg.cmd.value + ") not support")
    ensures msg.cmd.None? ==>
      var m := FromUrl(Stamp(msg, sessionId, serverAddr, remoteAddr), url, table, bits, produceVerb);
      && (r.ToHandler? <==> m.cmd.Some? && m.cmd.value in handlers)
      && (r.BadFormat? && m.cmd.None? ==> r.reply.body == Some("Bad format: command(null) not support"))
      && (r.BadFormat? && m.cmd.Some? ==> r.reply.body == Some("Bad format: command(" + m.cmd.value + ") not support"))
  {
    var stamped := Stamp(msg, sessionId, serverAddr, remoteAddr);
    var m := if stamped.cmd.None? then FromUrl(stamped, url, table, bits, produceVerb) else stamped;
    if m.cmd.Some? && m.cmd.value in handlers then ToHandler(handlers[m.cmd.value], m)
    else
      var shown := if m.cmd.None? then "null" else m.cmd.value;
      assert "Bad format: command(" + "null" + ") not support" == "Bad format: command(null) not support";
      BadFormat(Reply(400, Some("Bad format: command(" + shown + ") not support"), m.id))
  }

  /** The first checks of `createMqHandler`: the reply it gives up with, or the queue name and
      mode to create. */
  function CreateMqRequest(msg: Msg, registerToken: string): (r: Result<(string, int), Reply>)
    ensures r.Err? ==> r.error.id == msg.id
    ensures Head(msg, "register_token", "") != registerToken <==> r.Err? && r.error.status == 403
    ensures r.Err? && r.error.status == 400 <==>
      Head(msg, "register_token", "") == registerToken &&
      (JavaTrim(Head(msg, "mq_name", "")) == "" || JavaTrim(Head(msg, "mq_mode", "")) == "" ||
       JavaParseInt(JavaTrim(Head(msg, "mq_mode", ""))).None?)
    ensures r.Ok? ==> r.value.0 == JavaTrim(Head(msg, "mq_name", "")) && r.value.0 != ""
    ensures r.Ok? ==> JavaParseInt(JavaTrim(Head(msg, "mq_mode", ""))) == Some(r.value.1)
  {
    if Head(msg, "register_token", "") != registerToken then Err(Reply(403, Some("registerToken unmatched"), msg.id))
    else
      var name := JavaTrim(Head(msg, "mq_name", ""));
      if name == "" then Err(Reply(400, Some("Missing mq_name"), msg.id))
      else
        var mode := JavaTrim(Head(msg, "mq_mode", ""));
        if mode == "" then Err(Reply(400, Some("Missing mq_mode"), msg.id))
        else match JavaParseInt(mode)
          case None => Err(Reply(400, Some("mq_mode invalid"), msg.id))
          case Some(v) => Ok((name, v))
  }

  /** The queue `createMqHandler` builds: memory storage for the Memory or RPC bit, else disk;
      the PubSub type for the PubSub bit, else the load-balancing queue. */
  function NewQueue(name: string, mode: int, bits: ModeBits, creator: string, accessToken: string, now: int): (q: Queue)
    requires IsInt32(mode)
    ensures q.name == name && q.mode == mode && q.creator == creator && q.accessToken == accessToken
    ensures q.storage == MemoryStore <==> IsEnabled(mode, bits.memory) || IsEnabled(mode, bits.rpc)
    ensures q.kind == PubSubQueue <==> IsEnabled(mode, bits.pubSub)
  {
    Queue(name, if IsEnabled(mode, bits.pubSub) then PubSubQueue else LoadBalanceQueue,
          if IsEnabled(mode, bits.memory) || IsEnabled(mode, bits.rpc) then MemoryStore else DiskStore,
          mode, creator, accessToken, now)
  }

  /** The queue `loadMQ` restores from a disk queue with the given flag. */
  function LoadedQueue(name: string, flag: int, bits: ModeBits, now: int): (q: Queue)
    requires IsInt32(flag)
    ensures q.name == name && q.mode == flag && q.storage == DiskStore && q.creator == "System"
    ensures q.kind == PubSubQueue <==> IsEnabled(flag, bits.pubSub)
  {
    Queue(name, if IsEnabled(flag, bits.pubSub) then PubSubQueue else LoadBalanceQueue, DiskStore, flag, "System", "", now)
  }

  class MqAdaptor {
    const registerToken: string
    const bits: ModeBits
    const verbs: Verbs
    const handlers: map<string, Handler>
    var mqTable: map<string, Queue>
    /** The ids of the sessions in `sessionTable`. */
    var sessionTable: set<string>
    /** The `mq` attribute of each session, by session id. */
    var sessionMq: map<string, string>
    /** The calls `mq.produce(msg)` made, with the queue name. */
    var produced: seq<(string, Msg)>
    /** The calls `mq.consume(msg, sess)` made: queue name, message, session id. */
    var consumed: seq<(string, Msg, string)>
    /** The calls `mq.cleanSession(sess)` made: queue name and session id. */
    var cleaned: seq<(string, string)>

    ghost predicate Valid()
      reads this
    {
      forall k :: k in mqTable ==> IsInt32(mqTable[k].mode) && mqTable[k].name == k
    }

    constructor (registerToken: string, bits: ModeBits, verbs: Verbs)
      ensures Valid() && this.registerToken == registerToken && this.bits == bits && this.verbs == verbs
      ensures handlers == HandlerMap(verbs)
      ensures mqTable == map[] && sessionTable == {} && sessionMq == map[]
      ensures produced == [] && consumed == [] && cleaned == []
    {
      this.registerToken, this.bits, this.verbs := registerToken, bits, verbs;
      handlers := HandlerMap(verbs);
      mqTable, sessionTable, sessionMq := map[], {}, map[];
      produced, consumed, cleaned := [], [], [];
    }

    /** `findMQ`: the queue named by the message, a 404 reply, or the exception a null name
        raises. */
    method FindMq(msg: Msg) returns (r: Result<Queue, Outcome>)
      ensures msg.mq.None? ==> r == Err(NullPointer)
      ensures msg.mq.Some? ==> (r.Ok? <==> msg.mq.value in mqTable)
      ensures r.Ok? ==> r.value == mqTable[msg.mq.value]
      ensures msg.mq.Some? && r.Err? ==> r.error == Sent(Reply(404, msg.body, msg.id))
    {
      if msg.mq.None? {
        return Err(NullPointer);
      }
      if msg.mq.value !in mqTable {
        return Err(Sent(Reply(404, msg.body, msg.id)));
      }
      return Ok(mqTable[msg.mq.value]);
    }

    /** `produceHandler`. `authOk` is `mq.auth(appid, token)`, `ack` is `msg.isAck()`. */
    method ProduceMsg(msg: Msg, authOk: bool, ack: bool, now: int) returns (out: Outcome)
      requires Valid()
      modifies this`mqTable, this`produced
      ensures Valid()
      ensures msg.mq.None? ==> out == NullPointer && unchanged(this)
      ensures msg.mq.Some? && msg.mq.value !in old(mqTable) ==> out == Sent(Reply(404, msg.body, msg.id)) && unchanged(this)
      ensures msg.mq.Some? && msg.mq.value in old(mqTable) && !authOk ==> out == Sent(Reply(403, msg.body, msg.id)) && unchanged(this)
      ensures msg.mq.Some? && msg.mq.value in old(mqTable) && authOk ==>
        var name := msg.mq.value;
        var stripped := msg.(cmd := None, ack := None);
        produced == old(produced) + [(name, stripped)] &&
        mqTable == old(mqTable)[name := old(mqTable)[name].(lastUpdateTime := now)] &&
        out == (if ack then Sent(Reply(200, stripped.body, stripped.id)) else NoReply)
    {
      var found := FindMq(msg);
      if found.Err? {
        return found.error;
      }
      if !authOk {
        return Sent(Reply(403, msg.body, msg.id));
      }
      var stripped := msg.(cmd := None, ack := None);
      var name := msg.mq.value;
      produced := produced + [(name, stripped)];
      mqTable := mqTable[name := found.value.(lastUpdateTime := now)];
      out := if ack then Sent(Reply(200, stripped.body, stripped.id)) else NoReply;
    }

    /** `consumeHandler`: hand the pull to the queue and mark the session with the queue name. */
    method ConsumeMsg(msg: Msg, sessId: string, authOk: bool) returns (out: Outcome)
      requires Valid()
      modifies this`sessionMq, this`consumed
      ensures msg.mq.None? ==> out == NullPointer && unchanged(this)
      ensures msg.mq.Some? && msg.mq.value !in mqTable ==> out == Sent(Reply(404, msg.body, msg.id)) && unchanged(this)
      ensures msg.mq.Some? && msg.mq.value in mqTable && !authOk ==> out == Sent(Reply(403, msg.body, msg.id)) && unchanged(this)
      ensures msg.mq.Some? && msg.mq.value in mqTable && authOk ==>
        out == NoReply && consumed == old(consumed) + [(msg.mq.value, msg, sessId)] &&
        sessionMq == old(sessionMq)[sessId := msg.mq.value]
    {
      var found := FindMq(msg);
      if found.Err? {
        return found.error;
      }
      if !authOk {
        return Sent(Reply(403, msg.body, msg.id));
      }
      consumed := consumed + [(msg.mq.value, msg, sessId)];
      if sessId !in sessionMq || msg.mq.value != sessionMq[sessId] {
        sessionMq := sessionMq[sessId := found.value.name];
      }
      out := NoReply;
    }

    /** `createMqHandler`: validate, then create the queue unless one of that name exists. */
    method CreateMqMsg(msg: Msg, remoteAddress: string, now: int) returns (reply: Reply)
      requires Valid()
      modifies this`mqTable
      ensures Valid()
      ensures reply.id == msg.id
      ensures match CreateMqRequest(msg, registerToken)
        case Err(rejected) => reply == rejected && mqTable == old(mqTable)
        case Ok(req) =>
          reply.status == 200 &&
          mqTable == if req.0 in old(mqTable) then old(mqTable)
            else old(mqTable)[req.0 := NewQueue(req.0, req.1, bits, remoteAddress, Head(msg, "access_token", ""), now)]
    {
      var checked := CreateMqRequest(msg, registerToken);
      if checked.Err? {
        return checked.error;
      }
      var (name, mode) := checked.value;
      if name !in mqTable {
        mqTable := mqTable[name := NewQueue(name, mode, bits, remoteAddress, Head(msg, "access_token", ""), now)];
      }
      reply := Reply(200, msg.body, msg.id);
    }

    /** `cleanSession(sess)`. */
    method CleanSession(sessId: string)
      modifies this`sessionTable, this`cleaned
      ensures sessionTable == old(sessionTable) - {sessId}
      ensures cleaned == old(cleaned) +
        if sessId in sessionMq && sessionMq[sessId] in mqTable then [(sessionMq[sessId], sessId)] else []
    {
      sessionTable := sessionTable - {sessId};
      if sessId !in sessionMq {
        return;
      }
      var mqName := sessionMq[sessId];
      if mqName !in mqTable {
        return;
      }
      cleaned := cleaned + [(mqName, sessId)];
    }

    /** `loadMQ`: clear the table, then add one disk-backed queue per stored queue and flag. */
    method LoadMq(stored: map<string, int>, now: int)
      requires forall k :: k in stored ==> IsInt32(stored[k])
      modifies this`mqTable
      ensures Valid()
      ensures mqTable.Keys == stored.Keys
      ensures forall k :: k in stored ==> mqTable[k] == LoadedQueue(k, stored[k], bits, now)
    {
      mqTable := map[];
      var rest := stored.Keys;
      while rest != {}
        invariant rest <= stored.Keys
        invariant mqTable.Keys == stored.Keys - rest
        invariant forall k :: k in mqTable ==> mqTable[k] == LoadedQueue(k, stored[k], bits, now)
        decreases |rest|
      {
        var name :| name in rest;
        mqTable := mqTable[name := LoadedQueue(name, stored[name], bits, now)];
        rest := rest - {name};
      }
    }
  }
}
