/**
  * `org.zbus.net.ClientAdaptor` (src/main/java/org/zbus/net/ClientAdaptor.java): the client
  * side of a connection. Modelled here: the `host:port` parsing of the constructor, the
  * attribute map, the routing of an incoming response to the ticket that waits for it, and
  * the ticket and id bookkeeping of `invokeAsync`.
  *
  * `Sync` (the ticket table) is not part of this model. It is modelled as a map from ticket
  * id to ticket; the id under which `createTicket` registers a ticket, and the fresh id
  * `Ticket.nextId()` returns, are inputs. Sending, connecting and the handlers' own code are
  * I/O; what a send does is an input too.
  */
module ClientAdaptor {
  import opened Wrappers
  import opened Text

  // ---------------------------------------------------------------------------------------
  // The address

  datatype HostPort = HostPort(host: string, port: int)

  /** `IllegalArgumentException` with its message, `bb[0]` of an empty split, and the
      `NumberFormatException` of `Integer.valueOf`. */
  datatype AddressFailure = InvalidAddress(message: string) | IndexOutOfBounds | NumberFormat

  /** The constructor's parsing: split at `:` the way `String.split` does, reject more than
      two pieces, trim the host, and take the port from the second piece or 80. */
  function ParseAddress(address: string): (r: Result<HostPort, AddressFailure>)
    ensures var bb := JavaSplit(address, ':');
      && (r.Err? && r.error.InvalidAddress? <==> |bb| > 2)
      && (r.Err? && r.error.InvalidAddress? ==> r.error.message == "Address invalid: " + address)
      && (r == Err(IndexOutOfBounds) <==> bb == [])
      && (r == Err(NumberFormat) <==> |bb| == 2 && JavaParseInt(bb[1]).None?)
      && (r.Ok? ==> r.value.host == JavaTrim(bb[0]) && IsInt32(r.value.port))
      && (r.Ok? && |bb| == 1 ==> r.value.port == 80)
      && (r.Ok? && |bb| == 2 ==> Some(r.value.port) == JavaParseInt(bb[1]))
  {
    var bb := JavaSplit(address, ':');
    if |bb| > 2 then Err(InvalidAddress("Address invalid: " + address))
    else if bb == [] then Err(IndexOutOfBounds)
    else
      var host := JavaTrim(bb[0]);
      if |bb| > 1 then
        match JavaParseInt(bb[1])
        case Some(port) => Ok(HostPort(host, port))
        case None => Err(NumberFormat)
      else Ok(HostPort(host, 80))
  }

  /** `host:port` comes back as the trimmed host and the port. */
  lemma ParseOfHostPort(host: string, port: int)
    requires ':' !in host && IsInt32(port)
    ensures ParseAddress(host + ":" + IntDecimal(port)) == Ok(HostPort(JavaTrim(host), port))
  {
    var d := IntDecimal(port);
    DecimalIsWord(port);
    assert ':' !in d by {
      forall i | 0 <= i < |d| ensures d[i] != ':' {
        assert d[i] == '-' || IsDigit(d[i]);
      }
    }
    JavaSplitPair(host, ':', d);
    assert host + ":" + d == host + [':'] + d;
    JavaParseIntOfDecimal(port);
  }

  /** An address without a colon is a host on port 80. */
  lemma ParseOfHost(host: string)
    requires ':' !in host
    ensures ParseAddress(host) == Ok(HostPort(JavaTrim(host), 80))
  {
  }

  /** A trailing colon is dropped with the empty piece after it, so `host:` is port 80, and a
      lone `:` leaves no host at all. */
  lemma ParseOfTrailingColon(host: string)
    requires ':' !in host
    ensures ParseAddress(host + ":") == (if host == "" then Err(IndexOutOfBounds) else Ok(HostPort(JavaTrim(host), 80)))
  {
    JavaSplitTrailing(host, ':');
  }

  lemma JoinOfThree(a: string, b: string, c: string)
    ensures Join([a, b, c], ":") == a + ":" + b + ":" + c
  {
    assert [a, b, c][1..] == [b, c];
    assert [b, c][1..] == [c];
    assert Join([b, c], ":") == b + ":" + c;
    assert a + ":" + (b + ":" + c) == a + ":" + b + ":" + c;
  }

  lemma SplitOfThree(a: string, b: string, c: string)
    requires ':' !in a && ':' !in b && ':' !in c && c != ""
    ensures JavaSplit(a + ":" + b + ":" + c, ':') == [a, b, c]
  {
    var s := a + ":" + b + ":" + c;
    JoinOfThree(a, b, c);
    SplitOfJoin([a, b, c], ":");
    assert s[|a|] == ':';
  }

  /** Three pieces, the last one not empty, are rejected with the address in the message. */
  lemma ParseOfThreePieces(a: string, b: string, c: string)
    requires ':' !in a && ':' !in b && ':' !in c && c != ""
    ensures ParseAddress(a + ":" + b + ":" + c) == Err(InvalidAddress("Address invalid: " + (a + ":" + b + ":" + c)))
  {
    SplitOfThree(a, b, c);
  }

  // ---------------------------------------------------------------------------------------
  // The client

  /** An attribute value, by identity. */
  datatype Value = Value(id: nat)

  /** A `Sync.Ticket`: its id and whether a callback (rather than a blocked caller) waits. */
  datatype Ticket = Ticket(id: string, async: bool)

  /** Where `onMessage` hands a response: to the ticket with its id, to the message handler,
      or nowhere (it is logged and dropped). */
  datatype Delivery = ToTicket(ticket: Ticket) | ToHandler | Dropped

  /** What `sendMessage` does: send, throw `IOException`, or throw `InterruptedException`. */
  datatype SendOutcome = Sent | IoFailure | Interrupted

  class Client {
    const host: string
    const port: int
    var readTimeout: int
    var connectTimeout: int
    /** Null until the first attribute is stored. */
    var attributes: Option<map<string, Value>>
    /** The ticket table of `sync`. */
    var tickets: map<string, Ticket>
    var hasMsgHandler: bool

    /** The fields the constructor sets once the address is parsed. */
    constructor(hp: HostPort)
      ensures host == hp.host && port == hp.port
      ensures readTimeout == 3000 && connectTimeout == 3000
      ensures attributes.None? && tickets == map[] && !hasMsgHandler
    {
      host := hp.host;
      port := hp.port;
      readTimeout := 3000;
      connectTimeout := 3000;
      attributes := None;
      tickets := map[];
      hasMsgHandler := false;
    }

    /** `attr(key)`: none while there is no map, else the map's value. */
    function Attr(key: string): (r: Option<Value>)
      reads this
      ensures attributes.None? ==> r.None?
      ensures r.Some? <==> attributes.Some? && key in attributes.value
      ensures r.Some? ==> r.value == attributes.value[key]
    {
      if attributes.None? then None
      else if key in attributes.value then Some(attributes.value[key])
      else None
    }

    /** `attr(key, value)`: a null value removes the key (and creates no map); any other is
        stored, creating the map first. */
    method SetAttr(key: string, value: Option<Value>)
      modifies this`attributes
      ensures value.None? ==> attributes == (if old(attributes).None? then None else Some(old(attributes).value - {key}))
      ensures value.Some? ==>
        attributes == Some((if old(attributes).None? then map[] else old(attributes).value)[key := value.value])
      ensures Attr(key) == value
      ensures forall k :: k != key ==> Attr(k) == old(Attr(k))
    {
      if value.None? {
        if attributes.Some? {
          attributes := Some(attributes.value - {key});
        }
        return;
      }
      if attributes.None? {
        attributes := Some(map[]);
      }
      attributes := Some(attributes.value[key := value.value]);
    }

    /** `onMessage(MsgHandler)`: install or clear the handler. */
    method SetMsgHandler(present: bool)
      modifies this`hasMsgHandler
      ensures hasMsgHandler == present
    {
      hasMsgHandler := present;
    }

    /** `onMessage(Object, Session)`: the ticket registered under the response's id takes it
        and leaves the table; without one the handler takes it, and without a handler it is
        dropped. */
    method OnMessage(resId: string) returns (d: Delivery)
      modifies this`tickets
      ensures resId in old(tickets) ==> d == ToTicket(old(tickets)[resId])
      ensures resId !in old(tickets) ==> d == (if hasMsgHandler then ToHandler else Dropped)
      ensures tickets == old(tickets) - {resId}
      ensures resId !in tickets
    {
      if resId in tickets {
        var ticket := tickets[resId];
        tickets := tickets - {resId};
        return ToTicket(ticket);
      }
      if hasMsgHandler {
        return ToHandler;
      }
      return Dropped;
    }

    /** `invokeAsync(req, callback)`: with a callback a ticket is registered under
        `ticketId`, which `Sync.createTicket` is taken to stamp on the request as its id (and
        the ticket is taken out again when the send throws `IOException`); without one the
        request keeps its id or, when it has none, gets `freshId`. Returns the request's id as
        this method leaves it, and whether the `IOException` propagates. */
    method InvokeAsync(reqId: Option<string>, hasCallback: bool, ticketId: string, freshId: string,
                       send: SendOutcome)
      returns (id: Option<string>, raised: bool)
      modifies this`tickets
      ensures raised <==> send == IoFailure
      ensures hasCallback && send == IoFailure ==> tickets == old(tickets) - {ticketId}
      ensures hasCallback && send != IoFailure ==> tickets == old(tickets)[ticketId := Ticket(ticketId, true)]
      ensures !hasCallback ==> tickets == old(tickets)
      ensures hasCallback ==> id == Some(ticketId)
      ensures !hasCallback ==> id == (if reqId.None? then Some(freshId) else reqId)
    {
      id := reqId;
      var created := false;
      if hasCallback {
        tickets := tickets[ticketId := Ticket(ticketId, true)];
        id := Some(ticketId);
        created := true;
      } else {
        if id.None? {
          id := Some(freshId);
        }
      }
      raised := false;
      if send == IoFailure {
        if created {
          tickets := tickets - {ticketId};
        }
        raised := true;
      }
    }
  }

  /** `new ClientAdaptor(address)`: the parsed client, or the constructor's exception. */
  method Open(address: string) returns (r: Result<Client, AddressFailure>)
    ensures r.Ok? <==> ParseAddress(address).Ok?
    ensures r.Err? ==> r.error == ParseAddress(address).error
    ensures r.Ok? ==>
      (fresh(r.value) && r.value.host == ParseAddress(address).value.host &&
       r.value.port == ParseAddress(address).value.port &&
       r.value.attributes.None? && r.value.tickets == map[])
  {
    match ParseAddress(address)
    case Err(e) =>
      r := Err(e);
    case Ok(hp) =>
      var c := new Client(hp);
      r := Ok(c);
  }

  /** A response to an asynchronous call reaches the ticket of that call exactly once; the
      second copy goes to the handler. */
  method ReplyReachesTicketOnce(hp: HostPort, ticketId: string) returns (first: Delivery, second: Delivery)
    ensures first == ToTicket(Ticket(ticketId, true))
    ensures second == ToHandler
  {
    var c := new Client(hp);
    c.SetMsgHandler(true);
    var id, raised := c.InvokeAsync(None, true, ticketId, "", Sent);
    first := c.OnMessage(ticketId);
    second := c.OnMessage(ticketId);
  }

  /** A failed send leaves no ticket behind, and no handler is installed, so the late response
      is dropped. */
  method FailedSendLeavesNoTicket(hp: HostPort, ticketId: string) returns (d: Delivery)
    ensures d == Dropped
  {
    var c := new Client(hp);
    var id, raised := c.InvokeAsync(None, true, ticketId, "", IoFailure);
    d := c.OnMessage(ticketId);
  }
}
