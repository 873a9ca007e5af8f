/** The HTTP side of the server codec: the `content-type` value split into media type and
    charset, the header map built from a decoded Netty message, and the header list written
    for an outgoing message. WebSocket frames, the handshake and file uploads are not part of
    this model. */
module HttpCodec {
  import opened Wrappers
  import opened Text

  /** The header names `HttpMessage.CONTENT_TYPE` and `HttpMessage.ENCODING`; `HttpMessage` is not
      part of this model, so their values are taken to be these. */
  const ContentType := "content-type"
  const Encoding := "encoding"

  /** The charset `httpContentType` defaults to and `encode` always writes. */
  const Utf8 := "utf-8"

  /** `ArrayIndexOutOfBoundsException`, thrown out of `decode`. */
  datatype Fault = IndexOutOfBounds

  /** A request line (method and URL) or a response status. In `HttpMessage` a null status makes
      the message a request. */
  datatype Start = Request(httpMethod: string, url: string) | Response(status: int)

  /** A Netty HTTP message: its start, its header entries in iteration order, and its content. */
  datatype WireMessage = WireMessage(start: Start, headers: seq<(string, string)>, content: string)

  /** A zbus `HttpMessage`; `None` is a null body. */
  datatype HttpMessage = HttpMessage(start: Start, headers: map<string, string>, body: Option<string>)

  // ---------------------------------------------------------------------------------------
  // Content type

  /** `httpContentType(value)`: the trimmed first `;`-segment as the type (`text/plain` when
      there is none) and the charset named in the second segment (`utf-8` unless its key is
      `charset`); Java indexes past the `=`-pieces of a bare `=` or of a `charset` without a
      value. */
  function ContentTypeOf(value: string): (r: Result<(string, string), Fault>)
    ensures r.Err? ==> ';' in value
  {
    var bb := JavaSplit(value, ';');
    var t := if |bb| > 0 then JavaTrim(bb[0]) else "text/plain";
    if |bb| <= 1 then Ok((t, Utf8))
    else
      var bb2 := JavaSplit(JavaTrim(bb[1]), '=');
      if |bb2| == 0 then Err(IndexOutOfBounds)
      else if !EqualsIgnoreCase(JavaTrim(bb2[0]), "charset") then Ok((t, Utf8))
      else if |bb2| < 2 then Err(IndexOutOfBounds)
      else Ok((t, JavaTrim(bb2[1])))
  }

  /** The type is always trimmed and free of `;`. */
  lemma ContentTypeIsTrimmed(value: string)
    ensures ContentTypeOf(value).Ok? ==>
      var t := ContentTypeOf(value).value.0; JavaTrim(t) == t && ';' !in t
  {
    var bb := JavaSplit(value, ';');
    if |bb| > 0 {
      TrimIdempotent(bb[0], JavaBlanks);
      TrimKeepsCore(bb[0], JavaBlanks);
    } else {
      TrimOfTrimmed("text/plain", JavaBlanks);
    }
  }

  /** A value without `;` is its own trimmed type, with the default charset. */
  lemma ContentTypeWithoutParameters(value: string)
    requires ';' !in value
    ensures ContentTypeOf(value) == Ok((JavaTrim(value), Utf8))
  {
  }

  /** A type followed by `; charset=c` gives back the type and `c`. */
  lemma ContentTypeWithCharset(t: string, c: string)
    requires ';' !in t && JavaTrim(t) == t
    requires c != [] && ';' !in c && '=' !in c && JavaTrim(c) == c
    ensures ContentTypeOf(t + "; charset=" + c) == Ok((t, c))
  {
    var p := " charset=" + c;
    assert t + "; charset=" + c == t + [';'] + p;
    assert ';' !in p by { assert forall i :: 9 <= i < |p| ==> p[i] == c[i - 9]; }
    JavaSplitPair(t, ';', p);
    CharsetSegment(c);
    TrimOfTrimmed("charset", JavaBlanks);
  }

  /** The segment ` charset=c` trims and splits into the key and `c`. */
  lemma CharsetSegment(c: string)
    requires c != [] && '=' !in c && JavaTrim(c) == c
    ensures JavaTrim(" charset=" + c) == "charset=" + c
    ensures JavaSplit("charset=" + c, '=') == ["charset", c]
  {
    var q := "charset=" + c;
    assert " charset=" + c == " " + q;
    TrimKeepsCore(c, JavaBlanks);
    assert q[|q| - 1] == c[|c| - 1];
    TrimOfTrimmed(q, JavaBlanks);
    TrimOfPadded(q, JavaBlanks);
    assert q == "charset" + ['='] + c;
    JavaSplitPair("charset", '=', c);
  }

  /** A second segment of only `=` makes Java index past the empty piece list. */
  lemma ContentTypeOfBareEquals(t: string)
    requires ';' !in t
    ensures ContentTypeOf(t + ";=") == Err(IndexOutOfBounds)
  {
    assert t + ";=" == t + [';'] + "=";
    JavaSplitPair(t, ';', "=");
    TrimOfTrimmed("=", JavaBlanks);
    JavaSplitTrailing([], '=');
  }

  /** `charset` without a value makes Java read a second piece that is not there. */
  lemma ContentTypeOfMissingCharset(t: string)
    requires ';' !in t
    ensures ContentTypeOf(t + "; charset=") == Err(IndexOutOfBounds)
  {
    assert t + "; charset=" == t + [';'] + " charset=";
    JavaSplitPair(t, ';', " charset=");
    BareCharsetSegment();
    TrimOfTrimmed("charset", JavaBlanks);
  }

  lemma BareCharsetSegment()
    ensures JavaTrim(" charset=") == "charset="
    ensures JavaSplit("charset=", '=') == ["charset"]
  {
    var q := "charset=";
    assert " charset=" == " " + q;
    TrimOfTrimmed(q, JavaBlanks);
    TrimOfPadded(q, JavaBlanks);
    assert q == "charset" + ['='];
    JavaSplitTrailing("charset", '=');
  }

  // ---------------------------------------------------------------------------------------
  // Decoding headers

  /** One entry of `decodeHeaders`: `content-type` (in any case) is split into the type and an
      encoding that is set only when absent; every other key is stored lowercased. */
  function HeaderStep(h: map<string, string>, e: (string, string)): Result<map<string, string>, Fault>
  {
    if EqualsIgnoreCase(e.0, ContentType) then
      match ContentTypeOf(e.1)
      case Err(f) => Err(f)
      case Ok(info) =>
        var h1 := h[ContentType := info.0];
        Ok(if Encoding in h1 then h1 else h1[Encoding := info.1])
    else Ok(h[ToLower(e.0) := e.1])
  }

  /** One entry sets its own key: a `content-type` entry sets the type and keeps an `encoding`
      that is already there, any other entry stores its value under its lowercased key. */
  lemma HeaderStepSets(h: map<string, string>, e: (string, string))
    ensures var r := HeaderStep(h, e);
      && (r.Err? <==> EqualsIgnoreCase(e.0, ContentType) && ContentTypeOf(e.1).Err?)
      && (r.Ok? && EqualsIgnoreCase(e.0, ContentType) ==>
            && ContentType in r.value && r.value[ContentType] == ContentTypeOf(e.1).value.0
            && Encoding in r.value
            && r.value[Encoding] == if Encoding in h then h[Encoding] else ContentTypeOf(e.1).value.1)
      && (r.Ok? && !EqualsIgnoreCase(e.0, ContentType) ==> r.value == h[ToLower(e.0) := e.1])
  {
    LowerNames();
  }

  /** The header map after the entries, in order; the first fault ends the loop. */
  function HeadersOf(entries: seq<(string, string)>): Result<map<string, string>, Fault>
  {
    if entries == [] then Ok(map[])
    else
      match HeadersOf(entries[..|entries| - 1])
      case Err(f) => Err(f)
      case Ok(h) => HeaderStep(h, entries[|entries| - 1])
  }

  /** `decodeHeaders(httpMsg)`, header part. */
  method DecodeHeaders(entries: seq<(string, string)>) returns (r: Result<map<string, string>, Fault>)
    ensures r == HeadersOf(entries)
  {
    var headers := map[];
    var i := 0;
    while i < |entries|
      invariant 0 <= i <= |entries|
      invariant HeadersOf(entries[..i]) == Ok(headers)
    {
      assert entries[..i + 1][..i] == entries[..i];
      var (key, value) := entries[i];
      if EqualsIgnoreCase(key, ContentType) {
        var info := ContentTypeOf(value);
        if info.Err? {
          HeadersOfFaultSticks(entries, i + 1);
          return Err(info.error);
        }
        headers := headers[ContentType := info.value.0];
        if Encoding !in headers {
          headers := headers[Encoding := info.value.1];
        }
      } else {
        headers := headers[ToLower(key) := value];
      }
      i := i + 1;
    }
    assert entries[..i] == entries;
    r := Ok(headers);
  }

  /** A fault in a prefix is the fault of the whole list. */
  lemma {:induction false} HeadersOfFaultSticks(entries: seq<(string, string)>, n: nat)
    requires n <= |entries|
    ensures HeadersOf(entries[..n]).Err? ==> HeadersOf(entries) == HeadersOf(entries[..n])
    decreases |entries| - n
  {
    if n < |entries| && HeadersOf(entries[..n]).Err? {
      assert entries[..n + 1][..n] == entries[..n];
      HeadersOfFaultSticks(entries, n + 1);
    } else if n == |entries| {
      assert entries[..n] == entries;
    }
  }

  /** Every decoded key is lowercase. */
  lemma {:induction false} HeadersOfLowerKeys(entries: seq<(string, string)>)
    ensures HeadersOf(entries).Ok? ==> forall k :: k in HeadersOf(entries).value ==> IsLowerCase(k)
    decreases |entries|
  {
    if entries != [] {
      HeadersOfLowerKeys(entries[..|entries| - 1]);
      var k := entries[|entries| - 1].0;
      assert IsLowerCase(ToLower(k));
    }
  }

  /** Decoding fails exactly when some `content-type` entry has a value Java indexes past. */
  lemma {:induction false} HeadersOfFails(entries: seq<(string, string)>)
    ensures HeadersOf(entries).Err? <==>
      exists i :: 0 <= i < |entries| && EqualsIgnoreCase(entries[i].0, ContentType) && ContentTypeOf(entries[i].1).Err?
    decreases |entries|
  {
    if entries != [] {
      var init := entries[..|entries| - 1];
      HeadersOfFails(init);
      if HeadersOf(init).Err? {
        var i :| 0 <= i < |init| && EqualsIgnoreCase(init[i].0, ContentType) && ContentTypeOf(init[i].1).Err?;
        assert entries[i] == init[i];
      } else {
        forall i | 0 <= i < |init| ensures !(EqualsIgnoreCase(entries[i].0, ContentType) && ContentTypeOf(entries[i].1).Err?) {
          assert entries[i] == init[i];
        }
      }
    }
  }

  /** The `encoding` header comes from the first `content-type` entry when no other entry names
      it: later `content-type` entries change the type but keep that encoding. */
  lemma {:induction false} HeadersOfEncodingFromFirst(entries: seq<(string, string)>, j: nat)
    requires j < |entries| && EqualsIgnoreCase(entries[j].0, ContentType)
    requires forall i :: 0 <= i < j ==> !EqualsIgnoreCase(entries[i].0, ContentType)
    requires forall i :: 0 <= i < |entries| ==> ToLower(entries[i].0) != Encoding
    requires HeadersOf(entries).Ok?
    ensures ContentTypeOf(entries[j].1).Ok?
    ensures Encoding in HeadersOf(entries).value
    ensures HeadersOf(entries).value[Encoding] == ContentTypeOf(entries[j].1).value.1
    decreases |entries|
  {
    var init := entries[..|entries| - 1];
    HeadersOfFails(entries);
    if j == |entries| - 1 {
      NoEncodingBefore(init);
    } else {
      assert forall i :: 0 <= i < |init| ==> init[i] == entries[i];
      HeadersOfFaultSticks(entries, |init|);
      HeadersOfEncodingFromFirst(init, j);
    }
  }

  /** Without `content-type` entries and entries named `encoding`, no encoding is decoded. */
  lemma {:induction false} NoEncodingBefore(entries: seq<(string, string)>)
    requires forall i :: 0 <= i < |entries| ==> !EqualsIgnoreCase(entries[i].0, ContentType)
    requires forall i :: 0 <= i < |entries| ==> ToLower(entries[i].0) != Encoding
    ensures HeadersOf(entries).Ok? && Encoding !in HeadersOf(entries).value
    decreases |entries|
  {
    if entries != [] {
      var init := entries[..|entries| - 1];
      assert forall i :: 0 <= i < |init| ==> init[i] == entries[i];
      NoEncodingBefore(init);
    }
  }

  // ---------------------------------------------------------------------------------------
  // Encoding headers

  /** The `content-type` that `encode` sets: with an `encoding` header the charset is forced to
      `utf-8` after the stored type (`text/plain` when there is none). */
  function ContentTypeOut(h: map<string, string>): (r: Option<string>)
    ensures r.None? <==> ContentType !in h && Encoding !in h
    ensures Encoding in h ==> EndsWith(r.value, "; charset=" + Utf8)
    ensures Encoding !in h && ContentType in h ==> r == Some(h[ContentType])
  {
    if Encoding in h then Some((if ContentType in h then h[ContentType] else "text/plain") + "; charset=" + Utf8)
    else if ContentType in h then Some(h[ContentType])
    else None
  }

  /** The keys `encode` leaves to the content-type logic. */
  predicate Skipped(key: string)
  {
    EqualsIgnoreCase(key, ContentType) || EqualsIgnoreCase(key, Encoding)
  }

  /** The two header names are already lowercase and differ. */
  lemma LowerNames()
    ensures ToLower(ContentType) == ContentType && ToLower(Encoding) == Encoding
    ensures IsLowerCase(ContentType) && IsLowerCase(Encoding) && ContentType != Encoding
  {
    assert ContentType[0] != Encoding[0];
  }

  /** Lowercasing again changes nothing, neither the key nor how it compares. */
  lemma LoweredKey(k: string)
    ensures ToLower(ToLower(k)) == ToLower(k)
    ensures EqualsIgnoreCase(ToLower(k), ContentType) == EqualsIgnoreCase(k, ContentType)
    ensures Skipped(ToLower(k)) == Skipped(k)
  {
    ToLowerOfLowerCase(ToLower(k));
  }

  /** For a lowercase key, skipping is equality with one of the two names. */
  lemma SkippedLowerKey(k: string)
    requires IsLowerCase(k)
    ensures Skipped(k) <==> k == ContentType || k == Encoding
  {
    ToLowerOfLowerCase(k);
    LowerNames();
  }

  /** The other entries, in iteration order, with lowercased keys. */
  function Copied(entries: seq<(string, string)>): seq<(string, string)>
  {
    if entries == [] then []
    else
      var e := entries[|entries| - 1];
      Copied(entries[..|entries| - 1]) + if Skipped(e.0) then [] else [(ToLower(e.0), e.1)]
  }

  /** The header list of the outgoing Netty message for headers `h` iterated as `entries`. */
  function Encoded(h: map<string, string>, entries: seq<(string, string)>): (out: seq<(string, string)>)
    ensures |out| == |Copied(entries)| + if ContentType in h || Encoding in h then 1 else 0
    ensures ContentType in h || Encoding in h ==> out[0] == (ContentType, ContentTypeOut(h).value)
  {
    (match ContentTypeOut(h) case None => [] case Some(ct) => [(ContentType, ct)]) + Copied(entries)
  }

  /** The header part of `encode` (HTTP branch). */
  method EncodeHeaders(h: map<string, string>, entries: seq<(string, string)>) returns (out: seq<(string, string)>)
    ensures out == Encoded(h, entries)
  {
    var contentType := if ContentType in h then Some(h[ContentType]) else None;
    if Encoding in h {
      var encoding := Utf8;
      if contentType.None? {
        contentType := Some("text/plain");
      }
      contentType := Some(contentType.value + "; charset=" + encoding);
    }
    out := [];
    if contentType.Some? {
      out := [(ContentType, contentType.value)];
    }
    ghost var head := out;
    var i := 0;
    while i < |entries|
      invariant 0 <= i <= |entries|
      invariant out == head + Copied(entries[..i])
    {
      assert entries[..i + 1][..i] == entries[..i];
      var (key, value) := entries[i];
      if EqualsIgnoreCase(key, ContentType) || EqualsIgnoreCase(key, Encoding) {
        i := i + 1;
        continue;
      }
      out := out + [(ToLower(key), value)];
      i := i + 1;
    }
    assert entries[..i] == entries;
  }

  /** Copied keys are lowercase and are neither `content-type` nor `encoding`, so the header
      list carries at most one content type, first, and no encoding. */
  lemma {:induction false} CopiedKeys(entries: seq<(string, string)>)
    ensures forall i :: 0 <= i < |Copied(entries)| ==>
      var k := Copied(entries)[i].0; IsLowerCase(k) && k != ContentType && k != Encoding
    decreases |entries|
  {
    if entries != [] {
      var init := entries[..|entries| - 1];
      CopiedKeys(init);
      var k := entries[|entries| - 1].0;
      ToLowerOfLowerCase(ToLower(k));
    }
  }

  lemma EncodedContentTypeOnce(h: map<string, string>, entries: seq<(string, string)>)
    ensures var out := Encoded(h, entries);
      (exists i :: 0 <= i < |out| && out[i].0 == ContentType) <==> (ContentType in h || Encoding in h)
    ensures var out := Encoded(h, entries);
      forall i :: 0 <= i < |out| && out[i].0 == ContentType ==> i == 0 && Some(out[0].1) == ContentTypeOut(h)
    ensures forall i :: 0 <= i < |Encoded(h, entries)| ==> Encoded(h, entries)[i].0 != Encoding
  {
    CopiedKeys(entries);
    var c := Copied(entries);
    var out := Encoded(h, entries);
    var n := |out| - |c|;
    assert forall i :: n <= i < |out| ==> out[i] == c[i - n];
    if ContentType in h || Encoding in h {
      assert out[0].0 == ContentType;
    }
  }

  // ---------------------------------------------------------------------------------------
  // Messages

  /** `decode` of an HTTP message that is not a file upload: the decoded headers, the request
      line or status, and the content as body when it is not empty. */
  function Decode(w: WireMessage): (r: Result<HttpMessage, Fault>)
    ensures r.Ok? ==> r.value.start == w.start && (r.value.body.Some? <==> w.content != [])
    ensures r.Ok? && r.value.body.Some? ==> r.value.body.value == w.content
  {
    match HeadersOf(w.headers)
    case Err(f) => Err(f)
    case Ok(h) => Ok(HttpMessage(w.start, h, if |w.content| > 0 then Some(w.content) else None))
  }

  /** `encode` of an `HttpMessage` whose headers iterate as `entries`: a request when the
      status is null, a response otherwise. */
  function Encode(m: HttpMessage, entries: seq<(string, string)>): (w: WireMessage)
    ensures w.start == m.start
    ensures m.body.Some? ==> w.content == m.body.value
    ensures m.body.None? ==> w.content == []
  {
    WireMessage(m.start, Encoded(m.headers, entries), if m.body.Some? then m.body.value else "")
  }

  /** A message sent through `encode` and read back by `decode` keeps its start line, its
      headers (normalized) and its body (an empty body reads back as none). */
  lemma DecodeOfEncode(m: HttpMessage, entries: seq<(string, string)>)
    requires Lists(entries, m.headers) && PlainHeaders(m.headers)
    ensures Decode(Encode(m, entries)) ==
      Ok(HttpMessage(m.start, Normalized(m.headers), if m.body == Some("") then None else m.body))
  {
    DecodeOfEncodeHeaders(m.headers, entries);
  }

  // ---------------------------------------------------------------------------------------
  // Round trip

  /** The map the copied entries decode to over any base. */
  function Kept(entries: seq<(string, string)>): map<string, string>
  {
    if entries == [] then map[]
    else
      var e := entries[|entries| - 1];
      var init := Kept(entries[..|entries| - 1]);
      if Skipped(e.0) then init else init[ToLower(e.0) := e.1]
  }

  lemma {:induction false} DecodeCopied(prefix: seq<(string, string)>, entries: seq<(string, string)>, base: map<string, string>)
    requires HeadersOf(prefix) == Ok(base)
    ensures HeadersOf(prefix + Copied(entries)) == Ok(base + Kept(entries))
    decreases |entries|
  {
    if entries == [] {
      assert prefix + Copied(entries) == prefix;
      assert base + Kept(entries) == base;
    } else {
      var init := entries[..|entries| - 1];
      var e := entries[|entries| - 1];
      DecodeCopied(prefix, init, base);
      var tail := if Skipped(e.0) then [] else [(ToLower(e.0), e.1)];
      assert prefix + Copied(entries) == (prefix + Copied(init)) + tail;
      DecodeCopiedStep(prefix + Copied(init), Kept(init), base, e);
    }
  }

  lemma DecodeCopiedStep(x: seq<(string, string)>, k: map<string, string>, base: map<string, string>, e: (string, string))
    requires HeadersOf(x) == Ok(base + k)
    ensures HeadersOf(x + if Skipped(e.0) then [] else [(ToLower(e.0), e.1)]) ==
      Ok(base + if Skipped(e.0) then k else k[ToLower(e.0) := e.1])
  {
    if Skipped(e.0) {
      assert x + [] == x;
    } else {
      var d := (ToLower(e.0), e.1);
      LoweredKey(e.0);
      HeadersOfSnoc(x, d);
      assert (base + k)[d.0 := d.1] == base + k[d.0 := d.1];
    }
  }

  lemma HeadersOfSnoc(x: seq<(string, string)>, d: (string, string))
    ensures HeadersOf(x + [d]) == match HeadersOf(x) case Err(f) => Err(f) case Ok(h) => HeaderStep(h, d)
  {
    assert (x + [d])[..|x|] == x;
  }

  /** `entries` lists exactly the entries of `h`. */
  predicate Lists(entries: seq<(string, string)>, h: map<string, string>)
  {
    && (forall i :: 0 <= i < |entries| ==> entries[i].0 in h && h[entries[i].0] == entries[i].1)
    && (forall k :: k in h ==> exists i :: 0 <= i < |entries| && entries[i].0 == k)
  }

  /** Lowercase keys, and a stored type that is trimmed and without parameters. */
  predicate PlainHeaders(h: map<string, string>)
  {
    && (forall k :: k in h ==> IsLowerCase(k))
    && (ContentType in h ==> ';' !in h[ContentType] && JavaTrim(h[ContentType]) == h[ContentType])
  }

  /** With lowercase keys, the copied entries rebuild every header but the two special ones. */
  lemma {:induction false} KeptOfLowerKeys(entries: seq<(string, string)>, h: map<string, string>)
    requires forall k :: k in h ==> IsLowerCase(k)
    requires forall i :: 0 <= i < |entries| ==> entries[i].0 in h && h[entries[i].0] == entries[i].1
    ensures forall k :: k in Kept(entries) <==>
      k != ContentType && k != Encoding && exists i :: 0 <= i < |entries| && entries[i].0 == k
    ensures forall k :: k in Kept(entries) ==> k in h && Kept(entries)[k] == h[k]
    decreases |entries|
  {
    if entries != [] {
      var init := entries[..|entries| - 1];
      var e := entries[|entries| - 1];
      assert forall i :: 0 <= i < |init| ==> init[i] == entries[i];
      KeptOfLowerKeys(init, h);
      ToLowerOfLowerCase(e.0);
      SkippedLowerKey(e.0);
      forall k | k != ContentType && k != Encoding && (exists i :: 0 <= i < |entries| && entries[i].0 == k)
        ensures k in Kept(entries)
      {
        var i :| 0 <= i < |entries| && entries[i].0 == k;
        if i < |init| {
          assert init[i].0 == k;
          assert k in Kept(init);
        } else {
          assert k == e.0;
        }
      }
    }
  }

  /** What decoding the encoded headers yields: the headers back, with a content type
      (`text/plain` when none) and encoding `utf-8` whenever either was present. */
  function Normalized(h: map<string, string>): map<string, string>
  {
    if ContentType in h || Encoding in h then
      h[ContentType := if ContentType in h then h[ContentType] else "text/plain"][Encoding := Utf8]
    else h
  }

  /** The head of the encoded list decodes to the content type and the `utf-8` encoding. */
  lemma DecodeContentTypeOut(h: map<string, string>, ct: string, t: string)
    requires PlainHeaders(h) && ContentTypeOut(h) == Some(ct)
    requires t == if ContentType in h then h[ContentType] else "text/plain"
    ensures HeadersOf([(ContentType, ct)]) == Ok(map[ContentType := t][Encoding := Utf8])
  {
    if Encoding in h {
      TrimOfTrimmed("text/plain", JavaBlanks);
      DecodeCharsetOut(t);
    } else {
      DecodePlainOut(ct);
    }
  }

  lemma DecodeCharsetOut(t: string)
    requires ';' !in t && JavaTrim(t) == t
    ensures HeadersOf([(ContentType, t + "; charset=" + Utf8)]) == Ok(map[ContentType := t][Encoding := Utf8])
  {
    TrimOfTrimmed(Utf8, JavaBlanks);
    ContentTypeWithCharset(t, Utf8);
    DecodeContentType(t + "; charset=" + Utf8, t, Utf8);
  }

  lemma DecodePlainOut(v: string)
    requires ';' !in v && JavaTrim(v) == v
    ensures HeadersOf([(ContentType, v)]) == Ok(map[ContentType := v][Encoding := Utf8])
  {
    ContentTypeWithoutParameters(v);
    DecodeContentType(v, v, Utf8);
  }

  /** A single `content-type` entry decodes to its type and charset. */
  lemma DecodeContentType(v: string, t: string, c: string)
    requires ContentTypeOf(v) == Ok((t, c))
    ensures HeadersOf([(ContentType, v)]) == Ok(map[ContentType := t][Encoding := c])
  {
    assert [(ContentType, v)] == [] + [(ContentType, v)];
    HeadersOfSnoc([], (ContentType, v));
    LowerNames();
  }

  /** Decoding what `encode` writes gives the normalized headers back. */
  lemma DecodeOfEncodeHeaders(h: map<string, string>, entries: seq<(string, string)>)
    requires Lists(entries, h) && PlainHeaders(h)
    ensures HeadersOf(Encoded(h, entries)) == Ok(Normalized(h))
  {
    var prefix := match ContentTypeOut(h) case None => [] case Some(ct) => [(ContentType, ct)];
    var t := if ContentType in h then h[ContentType] else "text/plain";
    var base := if ContentTypeOut(h).Some? then map[ContentType := t][Encoding := Utf8] else map[];
    if ContentTypeOut(h).Some? {
      DecodeContentTypeOut(h, ContentTypeOut(h).value, t);
    }
    DecodeCopied(prefix, entries, base);
    KeptOfLowerKeys(entries, h);
    NormalizedSplit(h, Kept(entries));
  }

  /** The normalized headers are the two special entries over the others. */
  lemma NormalizedSplit(h: map<string, string>, kept: map<string, string>)
    requires forall k :: k in kept <==> k in h && k != ContentType && k != Encoding
    requires forall k :: k in kept ==> kept[k] == h[k]
    ensures Normalized(h) ==
      (if ContentType in h || Encoding in h then
        map[ContentType := if ContentType in h then h[ContentType] else "text/plain"][Encoding := Utf8]
      else map[]) + kept
  {
    var r := (if ContentType in h || Encoding in h then
        map[ContentType := if ContentType in h then h[ContentType] else "text/plain"][Encoding := Utf8]
      else map[]) + kept;
    assert r.Keys == Normalized(h).Keys;
  }
}
