/**
  * `HttpRpcServerAdaptor` (src/main/java/io/zbus/rpc/http/HttpRpcServerAdaptor.java): an
  * HTTP GET on `/<module>/<command>/<p1>/<p2>/…` becomes an RPC `Request`; any other
  * request is read from the JSON body. The URL is split into path segments by
  * `HttpKit.parseUrl`, which is not part of this model: its `path` is an input here. The
  * `Request` class is not shown either; `Request.MODULE` is passed in as `moduleKey`.
  */
module HttpRpc {
  import opened Wrappers

  type byte = b: int | 0 <= b < 256

  /** The state of an `io.zbus.rpc.Request` that `handleUrlMessage` fills in. */
  datatype RequestValue = RequestValue(properties: map<string, string>, command: Option<string>, params: seq<string>)

  class Request {
    var properties: map<string, string>
    var command: Option<string>
    var params: seq<string>

    function Value(): RequestValue
      reads this
    {
      RequestValue(properties, command, params)
    }

    constructor()
      ensures Value() == RequestValue(map[], None, [])
    {
      properties := map[];
      command := None;
      params := [];
    }
  }

  /** The request a URL path stands for: the module from the first segment, the command from
      the second, and the rest as the parameters. */
  function PathRequest(path: seq<string>, moduleKey: string): (r: RequestValue)
    ensures |path| >= 1 <==> moduleKey in r.properties
    ensures |path| >= 1 ==> r.properties == map[moduleKey := path[0]]
    ensures |path| >= 2 <==> r.command.Some?
    ensures |path| >= 2 ==> r.command.value == path[1]
    ensures |r.params| == if |path| > 2 then |path| - 2 else 0
    ensures forall i :: 0 <= i < |r.params| ==> r.params[i] == path[i + 2]
  {
    RequestValue(
      if |path| >= 1 then map[moduleKey := path[0]] else map[],
      if |path| >= 2 then Some(path[1]) else None,
      if |path| > 2 then path[2..] else [])
  }

  /** Whether `handleUrlMessage` answers at all: not for a missing URL or `/`, and not when the
      message has a body. */
  predicate RoutesByUrl(url: Option<string>, hasBody: bool)
  {
    url.Some? && url.value != "/" && !hasBody
  }

  /** `handleUrlMessage`: a fresh `Request` filled from the URL's path, or null. */
  method HandleUrlMessage(url: Option<string>, hasBody: bool, path: seq<string>, moduleKey: string)
    returns (req: Request?)
    ensures req == null <==> !RoutesByUrl(url, hasBody)
    ensures req != null ==> fresh(req) && req.Value() == PathRequest(path, moduleKey)
  {
    if url.None? || url.value == "/" {
      return null;
    }
    if hasBody {
      return null;
    }
    req := new Request();
    if |path| >= 1 {
      req.properties := req.properties[moduleKey := path[0]];
    }
    if |path| >= 2 {
      req.command := Some(path[1]);
    }
    if |path| > 2 {
      var i := 0;
      while i < |path| - 2
        invariant 0 <= i <= |path| - 2
        invariant req.properties == PathRequest(path, moduleKey).properties
        invariant req.command == PathRequest(path, moduleKey).command
        invariant req.params == path[2..2 + i]
      {
        req.params := req.params + [path[2 + i]];
        i := i + 1;
      }
      assert path[2..2 + (|path| - 2)] == path[2..];
    }
  }

  /** The path segments come back as the module, the command and the parameters in order. */
  lemma PathRequestRecoversPath(path: seq<string>, moduleKey: string)
    requires |path| >= 2
    ensures var r := PathRequest(path, moduleKey);
      [r.properties[moduleKey], r.command.value] + r.params == path
  {
    var r := PathRequest(path, moduleKey);
    assert r.params == path[2..];
  }

  // ---------------------------------------------------------------------------------------
  // onMessage

  /** What reaches `onMessage`: an `HttpMessage` (its URL, whether it has a body, and the path
      `parseUrl` gives for the URL), raw bytes, or anything else. */
  datatype Incoming =
    | HttpIn(url: Option<string>, hasBody: bool, path: seq<string>)
    | BytesIn(data: seq<byte>)
    | OtherIn

  /** Where `onMessage` takes the request from. */
  datatype Source = FromUrl(request: RequestValue) | FromBodyJson | FromBytesJson | NoRequest

  /** Lines 28-37: an HTTP message routed by URL gives the path's request; one that is not is
      parsed from its body; raw bytes are parsed as JSON; anything else gives a null request. */
  function SourceOf(msg: Incoming, moduleKey: string): (r: Source)
    ensures r.FromUrl? <==> msg.HttpIn? && RoutesByUrl(msg.url, msg.hasBody)
    ensures r.FromUrl? ==> r.request == PathRequest(msg.path, moduleKey)
    ensures r == FromBodyJson <==> msg.HttpIn? && !RoutesByUrl(msg.url, msg.hasBody)
    ensures r == FromBytesJson <==> msg.BytesIn?
  {
    match msg
    case HttpIn(url, hasBody, path) =>
      if RoutesByUrl(url, hasBody) then FromUrl(PathRequest(path, moduleKey)) else FromBodyJson
    case BytesIn(_) => FromBytesJson
    case OtherIn => NoRequest
  }

  /** What `onMessage` writes back: an `HttpMessage` with status 200, or the bare bytes. */
  datatype Outgoing = HttpOut(status: int, body: seq<byte>) | RawOut(data: seq<byte>)

  /** The reply to `msg` whose serialized response is `data`: raw bytes answer raw bytes,
      everything else is answered over HTTP with status 200. */
  function Reply(msg: Incoming, data: seq<byte>): (r: Outgoing)
    ensures r.RawOut? <==> msg.BytesIn?
    ensures r.HttpOut? ==> r.status == 200
    ensures r == HttpOut(200, data) || r == RawOut(data)
  {
    if msg.BytesIn? then RawOut(data) else HttpOut(200, data)
  }
}
