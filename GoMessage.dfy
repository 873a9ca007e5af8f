/** The HTTP-style message of the Go client: a start line, `key: value` header lines and a body
    whose length travels in a `content-length` header. Go strings and byte slices are both
    modelled as `string`, one char per byte. */
module GoMessage {
  import opened Wrappers
  import opened Text

  const CRLF: string := "\r\n"
  /** The empty line that ends the header block. */
  const Blank: string := "\r\n\r\n"
  const ContentLength: string := "content-length"

  const StatusTable: map<int, string> := map[
    100 := "Continue", 101 := "Switching Protocols", 200 := "OK", 400 := "Bad Request",
    401 := "Unauthorized", 403 := "Forbidden", 404 := "Not Found", 405 := "Method Not Allowed",
    500 := "Internal Server Error", 502 := "Bad Gateway", 503 := "Service Unavailable",
    504 := "Gateway Timeout"]

  /** No line break inside `s`. */
  predicate NoBreak(s: string) { forall i :: 0 <= i < |s| ==> s[i] != '\r' && s[i] != '\n' }

  /** The reason phrase of a status code, as the table gives it; the fallback keeps the
      source's spelling. Split by class of code, each part fits on one line. */
  function StatusText(code: int): (t: string)
    ensures '\r' !in t
  {
    if code < 400 then InformationalText(code)
    else if code < 500 then ClientErrorText(code)
    else ServerErrorText(code)
  }

  function InformationalText(code: int): (t: string)
    ensures '\r' !in t
  {
    match code
    case 100 => "Continue"
    case 101 => "Switching Protocols"
    case 200 => "OK"
    case _ => "Unkown Status"
  }

  function ClientErrorText(code: int): (t: string)
    ensures '\r' !in t
  {
    match code
    case 400 => "Bad Request"
    case 401 => "Unauthorized"
    case 403 => "Forbidden"
    case 404 => "Not Found"
    case 405 => "Method Not Allowed"
    case _ => "Unkown Status"
  }

  function ServerErrorText(code: int): (t: string)
    ensures '\r' !in t
  {
    match code
    case 500 => "Internal Server Error"
    case 502 => "Bad Gateway"
    case 503 => "Service Unavailable"
    case 504 => "Gateway Timeout"
    case _ => "Unkown Status"
  }

  /** `StatusText` is the table lookup with its fallback. */
  lemma StatusTextOfTable(code: int)
    ensures code in StatusTable ==> StatusText(code) == StatusTable[code]
    ensures code !in StatusTable ==> StatusText(code) == "Unkown Status"
  {
  }

  /** Go `strconv.ParseBool`. */
  function ParseBool(s: string): (r: Option<bool>)
    ensures r == Some(true) <==> s in {"1", "t", "T", "TRUE", "true", "True"}
    ensures r == Some(false) <==> s in {"0", "f", "F", "FALSE", "false", "False"}
  {
    if s in {"1", "t", "T", "TRUE", "true", "True"} then Some(true)
    else if s in {"0", "f", "F", "FALSE", "false", "False"} then Some(false)
    else None
  }

  /** `fmt.Sprintf("%v", b)` for a bool. */
  function FormatBool(b: bool): string { if b then "true" else "false" }

  lemma ParseBoolOfFormat(b: bool)
    ensures ParseBool(FormatBool(b)) == Some(b)
  {
  }

  datatype MessageValue = MessageValue(
    status: int, url: string, httpMethod: string, header: map<string, string>, body: Option<string>)

  const DefaultHeader: map<string, string> := map["connection" := "Keep-Alive"]

  /** What `NewMessage()` holds before a body is set. */
  const Initial: MessageValue := MessageValue(0, "/", "GET", DefaultHeader, None)

  function BodyBytes(v: MessageValue): string { if v.body.Some? then v.body.value else "" }

  // ---------------------------------------------------------------------------------------
  // Encoding

  function StartLine(v: MessageValue): string
  {
    if v.status != 0 then "HTTP/1.1 " + IntDecimal(v.status) + " " + StatusText(v.status)
    else v.httpMethod + " " + v.url + " HTTP/1.1"
  }

  function HeaderLine(key: string, value: string): string { key + ": " + value }

  /** The header lines written for the keys in iteration order `order`: each key lowercased,
      any stored content-length skipped. */
  function HeaderLines(order: seq<string>, header: map<string, string>): seq<string>
    requires forall i :: 0 <= i < |order| ==> order[i] in header
  {
    if order == [] then []
    else
      var k := order[|order| - 1];
      HeaderLines(order[..|order| - 1], header) +
        if ToLower(k) == ContentLength then [] else [HeaderLine(ToLower(k), header[k])]
  }

  function LengthLine(v: MessageValue): string { HeaderLine(ContentLength, IntDecimal(|BodyBytes(v)|)) }

  /** Each line followed by CRLF. */
  function Terminated(lines: seq<string>): string
  {
    if lines == [] then "" else Terminated(lines[..|lines| - 1]) + lines[|lines| - 1] + CRLF
  }

  lemma TerminatedSnoc(lines: seq<string>, l: string)
    ensures Terminated(lines + [l]) == Terminated(lines) + l + CRLF
  {
    assert (lines + [l])[..|lines|] == lines;
  }

  lemma {:induction false} TerminatedIsJoin(lines: seq<string>)
    requires |lines| >= 1
    ensures Terminated(lines) == Join(lines, CRLF) + CRLF
    decreases |lines|
  {
    if |lines| > 1 {
      var init := lines[..|lines| - 1];
      TerminatedIsJoin(init);
      JoinSnoc(init, lines[|lines| - 1], CRLF);
      assert init + [lines[|lines| - 1]] == lines;
    }
  }

  /** The lines of the header block, start line first and content-length last. */
  function HeadLines(v: MessageValue, order: seq<string>): seq<string>
    requires forall i :: 0 <= i < |order| ==> order[i] in v.header
  {
    [StartLine(v)] + (HeaderLines(order, v.header) + [LengthLine(v)])
  }

  /** The bytes `EncodeMessage` appends when the header map is iterated in `order`. */
  function Encoding(v: MessageValue, order: seq<string>): string
    requires forall i :: 0 <= i < |order| ==> order[i] in v.header
  {
    Terminated(HeadLines(v, order)) + CRLF + BodyBytes(v)
  }

  /** The encoding is the header block, the blank line, then the body. */
  lemma EncodingShape(v: MessageValue, order: seq<string>)
    requires forall i :: 0 <= i < |order| ==> order[i] in v.header
    ensures Encoding(v, order) == Join(HeadLines(v, order), CRLF) + Blank + BodyBytes(v)
  {
    TerminatedIsJoin(HeadLines(v, order));
  }

  // ---------------------------------------------------------------------------------------
  // Decoding

  /** The piece of `s` that `strings.Split(s, ":")` puts at index 1: from after the first
      `:` (at `i`) up to the second `:` or the end. */
  function SecondPiece(s: string, i: nat): (r: string)
    requires i < |s|
    ensures ':' !in r
  {
    var rest := s[i + 1..];
    match CharIndex(rest, ':')
    case None => rest
    case Some(j) => rest[..j]
  }

  /** One header line: the trimmed, lowercased text before the first `:` and the trimmed text
      between the first and the second `:`; `None` where indexing `kv[1]` panics. */
  function ParseLine(s: string): (r: Option<(string, string)>)
    ensures r.None? <==> ':' !in s
    ensures r.Some? ==> IsLowerCase(r.value.0)
  {
    match CharIndex(s, ':')
    case None => None
    case Some(i) => Some((ToLower(GoTrimSpace(s[..i])), GoTrimSpace(SecondPiece(s, i))))
  }

  /** A line with exactly one `:` is cut there: the key and the value are the two sides, each
      trimmed, the key also lowercased. */
  lemma ParseLineOfPair(k: string, v: string)
    requires ':' !in k && ':' !in v
    ensures ParseLine(k + ":" + v) == Some((ToLower(GoTrimSpace(k)), GoTrimSpace(v)))
  {
    var s := k + ":" + v;
    CharIndexAfterFree(k, ':', v);
    assert s[..|k|] == k && s[|k| + 1..] == v;
  }

  /** A value is not cut inside a multi-byte rune: `k: voilà` keeps the two bytes of `à`,
      whose second byte 0xA0 is not a space on its own. */
  lemma HeaderValueKeepsRune()
    ensures ParseLine("k: voil\U{C3}\U{A0}") == Some(("k", "voil\U{C3}\U{A0}"))
  {
    var k, v := "k", "voil\U{C3}\U{A0}";
    assert ParseLine(k + ": " + v) == Some((k, v)) by {
      assert ':' !in v && v[0] == 'v' && v[|v| - 1] == '\U{A0}';
      PaddedPair(k, v);
      assert ToLower(k) == k;
    }
    assert k + ": " + v == "k: voil\U{C3}\U{A0}";
  }

  /** `key: value` with both sides free of `:` and of spaces at their ends parses to the
      lowercased key and the value. */
  lemma PaddedPair(k: string, v: string)
    requires ':' !in k && k != [] && !IsGoSpace(k[0]) && !IsGoSpace(k[|k| - 1])
    requires ':' !in v && v != [] && !IsGoSpace(v[0]) && !IsGoSpace(v[|v| - 1])
    ensures ParseLine(k + ": " + v) == Some((ToLower(k), v))
  {
    assert k + ": " + v == k + ":" + (" " + v);
    assert ':' !in " " + v;
    ParseLineOfPair(k, " " + v);
    TrimOfTrimmed(k, GoSpaces);
    TrimOfTrimmed(v, GoSpaces);
    TrimOfPadded(v, GoSpaces);
  }

  /** Three words separated by single spaces are the three fields of a start line. */
  lemma FieldsOfThree(a: string, b: string, c: string)
    requires a != [] && NoSpace(a) && b != [] && NoSpace(b) && c != [] && NoSpace(c)
    ensures Fields(a + " " + b + " " + c) == [a, b, c]
  {
    assert Fields(c) == [c] by {
      assert c + [] == c;
      FieldsCons(c, []);
    }
    FieldsWordSpace(b, c);
    assert a + " " + b + " " + c == a + " " + (b + " " + c);
    FieldsWordSpace(a, b + " " + c);
  }

  /** The same rune stays whole in a start line: `GET /voilà HTTP/1.1` has `/voilà` as its
      second field. */
  lemma RequestLineKeepsRune()
    ensures Fields("GET /voil\U{C3}\U{A0} HTTP/1.1") == ["GET", "/voil\U{C3}\U{A0}", "HTTP/1.1"]
  {
    var a, b, c := "GET", "/voil\U{C3}\U{A0}", "HTTP/1.1";
    assert NoSpace(a) && NoSpace(b) && NoSpace(c);
    FieldsOfThree(a, b, c);
    assert a + " " + b + " " + c == "GET /voil\U{C3}\U{A0} HTTP/1.1";
  }

  /** The pieces are those of `strings.Split`. */
  lemma ParseLineIsSplit(s: string)
    requires ':' in s
    ensures |SplitOn(s, ":")| >= 2
    ensures var kv := SplitOn(s, ":");
      ParseLine(s) == Some((ToLower(GoTrimSpace(kv[0])), GoTrimSpace(kv[1])))
  {
    var i := CharIndex(s, ':').value;
    var pre := s[..i];
    var rest := s[i + 1..];
    CutAround(s, i);
    SplitStep(pre, ":", rest);
    match CharIndex(rest, ':')
    case None =>
      IndexOfFree(rest, ":");
    case Some(j) =>
      CutAround(rest, j);
      SplitStep(rest[..j], ":", rest[j + 1..]);
  }

  /** The header map after the loop over `lines` starting from `base`; `None` for a panic. */
  function HeaderOf(lines: seq<string>, base: map<string, string>): (r: Option<map<string, string>>)
    ensures r.Some? ==> base.Keys <= r.value.Keys
  {
    if lines == [] then Some(base)
    else
      match HeaderOf(lines[..|lines| - 1], base)
      case None => None
      case Some(h) =>
        match ParseLine(lines[|lines| - 1])
        case None => None
        case Some(kv) => Some(h[kv.0 := kv.1])
  }

  lemma HeaderOfSnoc(lines: seq<string>, l: string, base: map<string, string>)
    ensures HeaderOf(lines + [l], base) ==
      match HeaderOf(lines, base)
      case None => None
      case Some(h) => match ParseLine(l)
        case None => None
        case Some(kv) => Some(h[kv.0 := kv.1])
  {
    assert (lines + [l])[..|lines|] == lines;
  }

  lemma HeaderOfStep(lines: seq<string>, base: map<string, string>)
    requires lines != []
    ensures HeaderOf(lines, base).Some? <==>
      HeaderOf(lines[..|lines| - 1], base).Some? && ':' in lines[|lines| - 1]
  {
  }

  /** The header loop panics exactly when some line has no `:`. */
  lemma {:induction false} HeaderOfPanics(lines: seq<string>, base: map<string, string>)
    ensures HeaderOf(lines, base).Some? <==> forall i :: 0 <= i < |lines| ==> ':' in lines[i]
    decreases |lines|
  {
    if lines == [] {
      assert HeaderOf(lines, base) == Some(base);
      return;
    }
    var init := lines[..|lines| - 1];
    HeaderOfPanics(init, base);
    HeaderOfStep(lines, base);
    if HeaderOf(lines, base).Some? {
      forall i | 0 <= i < |lines| ensures ':' in lines[i] {
        if i < |init| {
          assert init[i] == lines[i];
        }
      }
    } else if ':' in lines[|lines| - 1] {
      var i :| 0 <= i < |init| && ':' !in init[i];
      assert init[i] == lines[i];
    }
  }

  /** Decoded keys are lowercase when the starting keys are. */
  lemma {:induction false} HeaderOfLowerKeys(lines: seq<string>, base: map<string, string>)
    requires forall k :: k in base ==> IsLowerCase(k)
    ensures HeaderOf(lines, base).Some? ==> forall k :: k in HeaderOf(lines, base).value ==> IsLowerCase(k)
    decreases |lines|
  {
    if lines != [] {
      HeaderOfLowerKeys(lines[..|lines| - 1], base);
    }
  }

  function BodyLength(h: map<string, string>): int
  {
    if ContentLength in h then GoAtoi(h[ContentLength]).value else 0
  }

  /** What `DecodeMessage` does with the buffered bytes. */
  datatype Decoding = Incomplete | Panic | Decoded(msg: MessageValue, consumed: nat)

  function Decode(bb: string): (d: Decoding)
    ensures IndexOf(bb, Blank).None? ==> d.Incomplete?
    ensures d.Decoded? ==> IndexOf(bb, Blank).Some? && d == DecodeAt(bb, IndexOf(bb, Blank).value)
  {
    match IndexOf(bb, Blank)
    case None => Incomplete
    case Some(idx) => DecodeAt(bb, idx)
  }

  /** Decoding once the blank line has been found at `idx`. */
  function DecodeAt(bb: string, idx: nat): (d: Decoding)
    requires idx + 4 <= |bb|
    ensures |SplitOn(bb[..idx], CRLF)| > 0
    ensures |Fields(SplitOn(bb[..idx], CRLF)[0])| < 2 ==> d == Panic
    ensures d.Decoded? ==> DefaultHeader.Keys <= d.msg.header.Keys && d.consumed <= |bb|
  {
    var lines := SplitOn(bb[..idx], CRLF);
    match StartOf(lines[0])
    case None => Panic
    case Some(m) =>
      match HeaderOf(lines[1..], DefaultHeader)
      case None => Panic
      case Some(h) => Framed(bb, idx, m.(header := h))
  }

  /** `strings.HasPrefix(strings.ToUpper(w), "HTTP")`, spelled out on the first four chars
      (only `h`, `t` and `p` upper-case to `H`, `T` and `P`). */
  predicate LooksLikeHttp(w: string)
  {
    && |w| >= 4
    && (w[0] == 'H' || w[0] == 'h') && (w[1] == 'T' || w[1] == 't')
    && (w[2] == 'T' || w[2] == 't') && (w[3] == 'P' || w[3] == 'p')
  }

  /** The spelled-out test is the prefix test on the upper-cased word. */
  lemma LooksLikeHttpIsPrefix(w: string)
    ensures LooksLikeHttp(w) <==> StartsWith(ToUpper(w), "HTTP")
  {
    var u := ToUpper(w);
    if |w| >= 4 {
      assert u[..4] == [u[0], u[1], u[2], u[3]];
    }
  }

  /** The start line: a status line when the first word looks like `HTTP`, a request line
      otherwise; `None` where Go indexes past the words. */
  function StartOf(line: string): (r: Option<MessageValue>)
    ensures r.None? <==> |Fields(line)| < 2
    ensures r.Some? ==> r.value.header == DefaultHeader && r.value.body.None?
  {
    var meta := Fields(line);
    if |meta| < 2 then None
    else if LooksLikeHttp(meta[0]) then Some(Initial.(status := GoAtoi(meta[1]).value))
    else Some(Initial.(httpMethod := meta[0], url := meta[1]))
  }

  /** The body framing: not yet complete, a panic for a negative total, or the message with
      the body cut at the announced length. */
  function Framed(bb: string, idx: nat, m: MessageValue): (d: Decoding)
    requires idx + 4 <= |bb|
    ensures d.Decoded? ==> d.consumed <= |bb| && d.consumed == idx + 4 + BodyLength(m.header)
    ensures d.Decoded? ==> d.msg.header == m.header
    ensures d.Decoded? ==> (d.msg.body.Some? <==> BodyLength(m.header) > 0)
    ensures d.Decoded? && d.msg.body.Some? ==> d.msg.body.value == bb[idx + 4..d.consumed]
    ensures d.Incomplete? <==> |bb| - idx - 4 < BodyLength(m.header)
  {
    var bodyLen := BodyLength(m.header);
    if |bb| - idx - 4 < bodyLen then Incomplete
    else if idx + 4 + bodyLen < 0 then Panic
    else Decoded(m.(body := if bodyLen > 0 then Some(bb[idx + 4..idx + 4 + bodyLen]) else None), idx + 4 + bodyLen)
  }

  /** Every decoded header key is lowercase. */
  lemma DecodedKeysAreLowerCase(bb: string)
    requires Decode(bb).Decoded?
    ensures forall k :: k in Decode(bb).msg.header ==> IsLowerCase(k)
  {
    var idx := IndexOf(bb, Blank).value;
    var lines := SplitOn(bb[..idx], CRLF);
    assert IsLowerCase("connection");
    HeaderOfLowerKeys(lines[1..], DefaultHeader);
  }

  // ---------------------------------------------------------------------------------------
  // Round trip

  /** Header keys lowercase, and keys and values trimmed, without `:` and without line breaks. */
  predicate HeaderWellFormed(header: map<string, string>)
  {
    && (forall k :: k in header ==> IsLowerCase(k) && GoTrimSpace(k) == k && NoBreak(k) && ':' !in k)
    && (forall k :: k in header ==> GoTrimSpace(header[k]) == header[k] && NoBreak(header[k]) && ':' !in header[k])
  }

  /** A message whose encoding decodes back: header keys lowercase, and keys and values
      trimmed, without `:` and without line breaks; a status that fits Go's `int`, or for a
      request a method and URL that are single words and a method that does not look like
      `HTTP`. */
  predicate WellFormed(v: MessageValue)
  {
    && HeaderWellFormed(v.header)
    && StartWords(v)
    && (v.status == 0 ==> !LooksLikeHttp(v.httpMethod))
    && |BodyBytes(v)| <= MaxInt64
  }

  /** A status that fits Go's `int`, or a method and URL that are single words. */
  predicate StartWords(v: MessageValue)
  {
    && (v.status != 0 ==> IsInt64(v.status))
    && (v.status == 0 ==> v.httpMethod != [] && NoSpace(v.httpMethod) && v.url != [] && NoSpace(v.url))
  }

  /** What decoding the encoding of `v` yields: the status, or the method and URL, the
      headers over the defaults with the computed content-length, and a non-empty body. */
  function Recovered(v: MessageValue): MessageValue
  {
    var m := if v.status != 0 then Initial.(status := v.status) else Initial.(httpMethod := v.httpMethod, url := v.url);
    var body := BodyBytes(v);
    m.(header := (DefaultHeader + (v.header - {ContentLength}))[ContentLength := IntDecimal(|body|)],
      body := if body == [] then None else Some(body))
  }

  /** Parts joined by CRLF and followed by the blank line: the first blank line is the one
      after the joined parts, when every part is non-empty and free of CR. */
  lemma {:induction false} BlankAfterJoin(parts: seq<string>, tail: string)
    requires |parts| >= 1
    requires forall i :: 0 <= i < |parts| ==> parts[i] != [] && '\r' !in parts[i]
    ensures IndexOf(Join(parts, CRLF) + Blank + tail, Blank) == Some(|Join(parts, CRLF)|)
  {
    var h := Join(parts, CRLF);
    var s := h + Blank + tail;
    assert s[|h|..|h| + 4] == Blank;
    assert OccursAt(s, Blank, |h|);
    forall j | 0 <= j < |h| ensures !OccursAt(s, Blank, j) {
      NoBlankInside(parts, tail, j);
    }
  }

  lemma {:induction false} NoBlankInside(parts: seq<string>, tail: string, j: nat)
    requires |parts| >= 1
    requires forall i :: 0 <= i < |parts| ==> parts[i] != [] && '\r' !in parts[i]
    requires j < |Join(parts, CRLF)|
    ensures !OccursAt(Join(parts, CRLF) + Blank + tail, Blank, j)
    decreases |parts|
  {
    var p := parts[0];
    var s := Join(parts, CRLF) + Blank + tail;
    var w := s[j..j + 4];
    assert w[0] == s[j] && w[2] == s[j + 2];
    if |parts| == 1 {
      assert s[j] == p[j];
    } else {
      var r := Join(parts[1..], CRLF);
      var s' := r + Blank + tail;
      assert s == p + CRLF + s';
      if j < |p| {
        assert s[j] == p[j];
      } else if j == |p| {
        JoinStartsWithFirst(parts[1..]);
        assert s[j + 2] == parts[1][0];
      } else if j == |p| + 1 {
        assert s[j] == '\n';
      } else {
        var j' := j - |p| - 2;
        assert w == s'[j'..j' + 4];
        assert forall i :: 0 <= i < |parts[1..]| ==> parts[1..][i] == parts[i + 1];
        NoBlankInside(parts[1..], tail, j');
      }
    }
  }

  lemma JoinStartsWithFirst(parts: seq<string>)
    requires |parts| >= 1 && parts[0] != []
    ensures |Join(parts, CRLF)| > 0 && Join(parts, CRLF)[0] == parts[0][0]
  {
  }

  /** A well-formed header line parses back to its key and value. */
  lemma ParseHeaderLine(k: string, val: string)
    requires IsLowerCase(k) && GoTrimSpace(k) == k && ':' !in k
    requires GoTrimSpace(val) == val && ':' !in val
    ensures ParseLine(HeaderLine(k, val)) == Some((k, val))
  {
    var s := HeaderLine(k, val);
    var rest := " " + val;
    assert s == k + [':'] + rest;
    CharIndexAfterFree(k, ':', rest);
    assert s[..|k|] == k && s[|k| + 1..] == rest;
    assert ':' !in rest;
    ToLowerOfLowerCase(k);
    TrimOfPadded(val, GoSpaces);
  }

  /** Key `k` of `header` is written as is and its line parses back to the entry. */
  predicate EntryParses(k: string, header: map<string, string>)
  {
    k in header && ToLower(k) == k && ParseLine(HeaderLine(k, header[k])) == Some((k, header[k]))
  }

  /** The entries the header lines of `order` carry, later keys last. */
  function Kept(order: seq<string>, header: map<string, string>): map<string, string>
    requires forall i :: 0 <= i < |order| ==> order[i] in header
  {
    if order == [] then map[]
    else
      var k := order[|order| - 1];
      var m := Kept(order[..|order| - 1], header);
      if k == ContentLength then m else m[k := header[k]]
  }

  /** The kept entries are those of the keys in `order`, except content-length. */
  lemma {:induction false} KeptRestricts(order: seq<string>, header: map<string, string>)
    requires forall i :: 0 <= i < |order| ==> order[i] in header
    ensures forall k :: k in Kept(order, header) <==> k in order && k != ContentLength
    ensures forall k :: k in Kept(order, header) ==> Kept(order, header)[k] == header[k]
    decreases |order|
  {
    if order != [] {
      var init := order[..|order| - 1];
      KeptRestricts(init, header);
      assert order == init + [order[|order| - 1]];
    }
  }

  lemma HeaderLinesStep(order: seq<string>, header: map<string, string>)
    requires order != [] && forall i :: 0 <= i < |order| ==> order[i] in header
    requires ToLower(order[|order| - 1]) == order[|order| - 1]
    ensures var k := order[|order| - 1]; var init := HeaderLines(order[..|order| - 1], header);
      HeaderLines(order, header) == if k == ContentLength then init else init + [HeaderLine(k, header[k])]
  {
    assert HeaderLines(order[..|order| - 1], header) + [] == HeaderLines(order[..|order| - 1], header);
  }

  lemma UpdateOverBase(base: map<string, string>, m: map<string, string>, k: string, v: string)
    ensures (base + m)[k := v] == base + m[k := v]
  {
  }

  /** The header lines of `order` fold into the kept entries over `base`. */
  lemma {:induction false} HeaderOfHeaderLines(order: seq<string>, header: map<string, string>, base: map<string, string>)
    requires forall i :: 0 <= i < |order| ==> order[i] in header
    requires forall i :: 0 <= i < |order| ==> EntryParses(order[i], header)
    ensures HeaderOf(HeaderLines(order, header), base) == Some(base + Kept(order, header))
    decreases |order|
  {
    if order == [] {
      assert base + map[] == base;
    } else {
      var init := order[..|order| - 1];
      var k := order[|order| - 1];
      assert EntryParses(k, header);
      HeaderOfHeaderLines(init, header, base);
      HeaderLinesStep(order, header);
      if k != ContentLength {
        HeaderOfSnoc(HeaderLines(init, header), HeaderLine(k, header[k]), base);
        UpdateOverBase(base, Kept(init, header), k, header[k]);
      }
    }
  }

  /** The content-length line parses back to the body length. */
  lemma ParseLengthLine(n: nat)
    ensures ParseLine(HeaderLine(ContentLength, IntDecimal(n))) == Some((ContentLength, IntDecimal(n)))
  {
    var d := IntDecimal(n);
    DecimalIsWord(n);
    assert ':' !in d by {
      forall i | 0 <= i < |d| ensures d[i] != ':' {
        assert d[i] == '-' || IsDigit(d[i]);
      }
    }
    assert GoTrimSpace(d) == d;
    assert IsLowerCase(ContentLength);
    assert GoTrimSpace(ContentLength) == ContentLength;
    ParseHeaderLine(ContentLength, d);
  }

  /** The start line splits into the words the decoder reads. */
  lemma StatusLineFields(status: int)
    ensures var f := Fields("HTTP/1.1 " + IntDecimal(status) + " " + StatusText(status));
      |f| >= 2 && f[0] == "HTTP/1.1" && f[1] == IntDecimal(status)
  {
    var d := IntDecimal(status);
    var t := StatusText(status);
    DecimalIsWord(status);
    assert "HTTP/1.1 " == "HTTP/1.1" + " ";
    SpaceRegroup("HTTP/1.1 ", d, t);
    ThreeWords("HTTP/1.1", d, " " + t);
  }

  lemma SpaceRegroup(p: string, d: string, t: string)
    ensures p + d + " " + t == p + d + (" " + t)
  {
  }

  /** Two words and a tail that starts with a space: the first two fields are the words. */
  lemma ThreeWords(a: string, b: string, tail: string)
    requires a != [] && NoSpace(a) && b != [] && NoSpace(b)
    requires tail == [] || IsGoSpace(tail[0])
    ensures Fields(a + " " + b + tail) == [a, b] + Fields(tail)
  {
    var rest := " " + (b + tail);
    assert a + " " + b + tail == a + rest;
    FieldsCons(a, rest);
    FieldsSpacePrefix(" ", b + tail);
    FieldsCons(b, tail);
    ConsTwo(a, b, Fields(tail));
  }

  lemma ConsTwo(a: string, b: string, fs: seq<string>)
    ensures [a] + ([b] + fs) == [a, b] + fs
  {
  }

  /** Every line of the header block is non-empty and holds no CR. */
  lemma HeadLinesAreLines(v: MessageValue, order: seq<string>)
    requires StartWords(v) && HeaderWellFormed(v.header)
    requires forall i :: 0 <= i < |order| ==> order[i] in v.header
    ensures forall i :: 0 <= i < |HeadLines(v, order)| ==>
      HeadLines(v, order)[i] != [] && '\r' !in HeadLines(v, order)[i]
  {
    var ls := HeadLines(v, order);
    StartLineIsLine(v);
    HeaderLinesAreLines(order, v.header);
    DecimalIsWord(|BodyBytes(v)|);
    var hl := HeaderLines(order, v.header);
    forall i | 0 <= i < |ls| ensures ls[i] != [] && '\r' !in ls[i] {
      if 0 < i < |ls| - 1 {
        assert ls[i] == hl[i - 1];
      }
    }
  }

  lemma StartLineIsLine(v: MessageValue)
    requires StartWords(v)
    ensures StartLine(v) != [] && '\r' !in StartLine(v)
  {
    if v.status != 0 {
      DecimalIsWord(v.status);
    }
  }

  lemma {:induction false} HeaderLinesAreLines(order: seq<string>, header: map<string, string>)
    requires forall i :: 0 <= i < |order| ==> order[i] in header
    requires forall k :: k in header ==> NoBreak(k) && NoBreak(header[k])
    ensures forall i :: 0 <= i < |HeaderLines(order, header)| ==>
      HeaderLines(order, header)[i] != [] && '\r' !in HeaderLines(order, header)[i]
    decreases |order|
  {
    if order != [] {
      var k := order[|order| - 1];
      HeaderLinesAreLines(order[..|order| - 1], header);
      var l := ToLower(k);
      assert NoBreak(l) by {
        forall i | 0 <= i < |l| ensures l[i] != '\r' && l[i] != '\n' {
          assert l[i] == LowerChar(k[i]);
        }
      }
      assert HeaderLine(l, header[k])[|l|] == ':';
    }
  }

  /** The start line of a well-formed message decodes to its status, or to its method and URL. */
  lemma StartOfStartLine(v: MessageValue)
    requires WellFormed(v)
    ensures StartOf(StartLine(v)) ==
      Some(if v.status != 0 then Initial.(status := v.status) else Initial.(httpMethod := v.httpMethod, url := v.url))
  {
    if v.status != 0 {
      StartOfStatusLine(v.status);
    } else {
      StartOfRequestLine(v.httpMethod, v.url);
    }
  }

  lemma StartOfStatusLine(status: int)
    requires status != 0 && IsInt64(status)
    ensures StartOf("HTTP/1.1 " + IntDecimal(status) + " " + StatusText(status)) == Some(Initial.(status := status))
  {
    StatusLineFields(status);
    GoAtoiOfDecimal(status);
  }

  lemma StartOfRequestLine(httpMethod: string, url: string)
    requires httpMethod != [] && NoSpace(httpMethod) && url != [] && NoSpace(url)
    requires !LooksLikeHttp(httpMethod)
    ensures StartOf(httpMethod + " " + url + " HTTP/1.1") == Some(Initial.(httpMethod := httpMethod, url := url))
  {
    ThreeWords(httpMethod, url, " HTTP/1.1");
  }

  /** Each entry of a well-formed header is written as is and parses back. */
  lemma EntryOfWellFormed(header: map<string, string>, k: string)
    requires HeaderWellFormed(header) && k in header
    ensures EntryParses(k, header)
  {
    ToLowerOfLowerCase(k);
    ParseHeaderLine(k, header[k]);
  }

  lemma AllEntriesParse(header: map<string, string>, order: seq<string>)
    requires HeaderWellFormed(header)
    requires forall i :: 0 <= i < |order| ==> order[i] in header
    ensures forall i :: 0 <= i < |order| ==> EntryParses(order[i], header)
  {
    forall i | 0 <= i < |order| ensures EntryParses(order[i], header) {
      EntryOfWellFormed(header, order[i]);
    }
  }

  /** When `order` lists exactly the keys of `header`, the kept entries are all but content-length. */
  lemma KeptIsHeader(order: seq<string>, header: map<string, string>)
    requires forall k :: k in header <==> k in order
    ensures Kept(order, header) == header - {ContentLength}
  {
    KeptRestricts(order, header);
  }

  /** The content-length line, parsed last, lands on top of the header lines' entries. */
  lemma HeaderOfLengthLast(hl: seq<string>, ll: string, base: map<string, string>, kept: map<string, string>, d: string)
    requires HeaderOf(hl, base) == Some(base + kept)
    requires ParseLine(ll) == Some((ContentLength, d))
    ensures HeaderOf(hl + [ll], base) == Some((base + kept)[ContentLength := d])
  {
    HeaderOfSnoc(hl, ll, base);
  }

  /** The header lines and a content-length line `d` decode to the header's entries over the
      defaults, with content-length set to `d`. */
  lemma HeaderOfHeadLines(order: seq<string>, header: map<string, string>, d: string)
    requires forall k :: k in header <==> k in order
    requires forall i :: 0 <= i < |order| ==> EntryParses(order[i], header)
    requires ParseLine(HeaderLine(ContentLength, d)) == Some((ContentLength, d))
    ensures HeaderOf(HeaderLines(order, header) + [HeaderLine(ContentLength, d)], DefaultHeader) ==
      Some((DefaultHeader + (header - {ContentLength}))[ContentLength := d])
  {
    HeaderOfHeaderLines(order, header, DefaultHeader);
    HeaderOfLengthLast(HeaderLines(order, header), HeaderLine(ContentLength, d), DefaultHeader, Kept(order, header), d);
    KeptIsHeader(order, header);
  }

  /** The lines after the start line decode to the recovered header. */
  lemma HeaderOfEncoding(v: MessageValue, order: seq<string>)
    requires HeaderWellFormed(v.header)
    requires forall k :: k in v.header <==> k in order
    ensures HeaderOf(HeadLines(v, order)[1..], DefaultHeader) == Some(Recovered(v).header)
  {
    AllEntriesParse(v.header, order);
    ParseLengthLine(|BodyBytes(v)|);
    HeaderOfHeadLines(order, v.header, IntDecimal(|BodyBytes(v)|));
    HeadLinesTail(v, order);
  }

  lemma HeadLinesTail(v: MessageValue, order: seq<string>)
    requires forall i :: 0 <= i < |order| ==> order[i] in v.header
    ensures HeadLines(v, order)[1..] == HeaderLines(order, v.header) + [LengthLine(v)]
  {
    var tail := HeaderLines(order, v.header) + [LengthLine(v)];
    assert ([StartLine(v)] + tail)[1..] == tail;
  }

  /** A body whose length the header announces is cut out exactly. */
  lemma FramedBody(h: string, body: string, rest: string, m: MessageValue)
    requires BodyLength(m.header) == |body|
    ensures Framed(h + Blank + body + rest, |h|, m) ==
      Decoded(m.(body := if body == [] then None else Some(body)), |h| + 4 + |body|)
  {
    var bb := h + Blank + body + rest;
    assert bb[|h| + 4..|h| + 4 + |body|] == body;
  }

  /** The header block of a well-formed message splits back into its lines at the first blank line. */
  lemma HeadOfEncoding(v: MessageValue, order: seq<string>, rest: string)
    requires WellFormed(v)
    requires forall k :: k in v.header <==> k in order
    ensures var h := Join(HeadLines(v, order), CRLF);
      Encoding(v, order) + rest == h + Blank + BodyBytes(v) + rest &&
      IndexOf(Encoding(v, order) + rest, Blank) == Some(|h|) &&
      SplitOn((Encoding(v, order) + rest)[..|h|], CRLF) == HeadLines(v, order)
  {
    var parts := HeadLines(v, order);
    var h := Join(parts, CRLF);
    var bb := Encoding(v, order) + rest;
    EncodingShape(v, order);
    assert bb == h + Blank + (BodyBytes(v) + rest);
    HeadLinesAreLines(v, order);
    BlankAfterJoin(parts, BodyBytes(v) + rest);
    assert bb[..|h|] == h;
    SplitOfJoin(parts, CRLF);
  }

  /** Decoding the encoding of a well-formed message recovers it and consumes exactly the
      encoding, whatever follows in the buffer. */
  lemma DecodeOfEncode(v: MessageValue, order: seq<string>, rest: string)
    requires WellFormed(v)
    requires forall k :: k in v.header <==> k in order
    ensures Decode(Encoding(v, order) + rest) == Decoded(Recovered(v), |Encoding(v, order)|)
  {
    var parts := HeadLines(v, order);
    var h := Join(parts, CRLF);
    var bb := Encoding(v, order) + rest;
    HeadOfEncoding(v, order, rest);
    var lines := SplitOn(bb[..|h|], CRLF);
    assert lines[0] == StartLine(v);
    StartOfStartLine(v);
    HeaderOfEncoding(v, order);
    var hdr := Recovered(v).header;
    GoAtoiOfDecimal(|BodyBytes(v)|);
    assert BodyLength(hdr) == |BodyBytes(v)|;
    var m := StartOf(StartLine(v)).value.(header := hdr);
    assert DecodeAt(bb, |h|) == Framed(bb, |h|, m);
    FramedBody(h, BodyBytes(v), rest, m);
  }

  lemma TerminatedOne(l: string)
    ensures Terminated([l]) == l + CRLF
  {
    TerminatedSnoc([], l);
    assert [] + [l] == [l];
  }

  lemma Append3(a: string, b: string, c: string)
    ensures a + b + c == a + (b + c)
  {
  }

  /** One more key of the iteration order adds its line unless it is content-length. */
  lemma HeaderLinesAt(order: seq<string>, i: nat, header: map<string, string>)
    requires i < |order| && forall j :: 0 <= j < |order| ==> order[j] in header
    ensures HeaderLines(order[..i + 1], header) == HeaderLines(order[..i], header) +
      if ToLower(order[i]) == ContentLength then [] else [HeaderLine(ToLower(order[i]), header[order[i]])]
  {
    assert order[..i + 1][..i] == order[..i];
  }

  /** The encoding is the terminated start and header lines, then the rest. */
  lemma EncodingSplit(v: MessageValue, order: seq<string>)
    requires forall i :: 0 <= i < |order| ==> order[i] in v.header
    ensures Encoding(v, order) ==
      Terminated([StartLine(v)] + HeaderLines(order, v.header)) + (LengthLine(v) + CRLF + CRLF + BodyBytes(v))
  {
    var a := Terminated([StartLine(v)] + HeaderLines(order, v.header));
    TerminatedHead(v, order);
    assert Encoding(v, order) == a + LengthLine(v) + CRLF + CRLF + BodyBytes(v);
    Regroup(a, LengthLine(v), CRLF, BodyBytes(v));
  }

  lemma Regroup(a: string, l: string, c: string, b: string)
    ensures a + l + c + c + b == a + (l + c + c + b)
  {
  }

  /** One step of the header loop: the key's line is written unless it is content-length. */
  lemma EncodeStep(start: string, order: seq<string>, i: nat, h: map<string, string>)
    requires i < |order| && forall j :: 0 <= j < |order| ==> order[j] in h
    ensures var k := ToLower(order[i]);
      Terminated([start] + HeaderLines(order[..i + 1], h)) ==
      Terminated([start] + HeaderLines(order[..i], h)) + if k == ContentLength then "" else HeaderLine(k, h[order[i]]) + CRLF
  {
    var k := ToLower(order[i]);
    var before := [start] + HeaderLines(order[..i], h);
    HeaderLinesAt(order, i, h);
    if k != ContentLength {
      var line := HeaderLine(k, h[order[i]]);
      TerminatedSnoc(before, line);
      assert before + [line] == [start] + HeaderLines(order[..i + 1], h);
    } else {
      assert [start] + HeaderLines(order[..i + 1], h) == before;
    }
  }

  /** The header block is the start and header lines, then the content-length line. */
  lemma TerminatedHead(v: MessageValue, order: seq<string>)
    requires forall i :: 0 <= i < |order| ==> order[i] in v.header
    ensures Terminated([StartLine(v)] + HeaderLines(order, v.header)) + LengthLine(v) + CRLF == Terminated(HeadLines(v, order))
  {
    var init := [StartLine(v)] + HeaderLines(order, v.header);
    assert HeadLines(v, order) == init + [LengthLine(v)];
    TerminatedSnoc(init, LengthLine(v));
  }

  /** The body framing, case by case. */
  lemma FramedCases(bb: string, idx: nat, m: MessageValue)
    requires idx + 4 <= |bb|
    ensures var n := BodyLength(m.header);
      && (|bb| - idx - 4 < n ==> Framed(bb, idx, m) == Incomplete)
      && (n <= |bb| - idx - 4 && idx + 4 + n < 0 ==> Framed(bb, idx, m) == Panic)
      && (n <= |bb| - idx - 4 && 0 <= idx + 4 + n ==>
           Framed(bb, idx, m) == Decoded(m.(body := if n > 0 then Some(bb[idx + 4..idx + 4 + n]) else None), idx + 4 + n))
  {
  }

  /** Once the blank line, the start line and the header lines are known, the body framing decides. */
  lemma DecodeAtIsFramed(bb: string, idx: nat)
    requires idx + 4 <= |bb|
    requires var lines := SplitOn(bb[..idx], CRLF);
      StartOf(lines[0]).Some? && HeaderOf(lines[1..], DefaultHeader).Some?
    ensures var lines := SplitOn(bb[..idx], CRLF);
      DecodeAt(bb, idx) == Framed(bb, idx, StartOf(lines[0]).value.(header := HeaderOf(lines[1..], DefaultHeader).value))
  {
  }

  /** Too few start-line words, or a header line without `:`, make Go panic. */
  lemma DecodeAtPanicsInHead(bb: string, idx: nat)
    requires idx + 4 <= |bb|
    requires var lines := SplitOn(bb[..idx], CRLF);
      StartOf(lines[0]).None? || HeaderOf(lines[1..], DefaultHeader).None?
    ensures DecodeAt(bb, idx) == Panic
  {
  }

  /** One step of the decoder's header loop over `lines[1..]`, with the pieces of `strings.Split`. */
  lemma HeaderOfAt(lines: seq<string>, i: nat, base: map<string, string>)
    requires 1 <= i < |lines|
    ensures ':' !in lines[i] ==> HeaderOf(lines[1..], base).None?
    ensures ':' in lines[i] ==> |SplitOn(lines[i], ":")| >= 2
    ensures ':' in lines[i] && HeaderOf(lines[1..i], base).Some? ==>
      var kv := SplitOn(lines[i], ":");
      HeaderOf(lines[1..i + 1], base) ==
        Some(HeaderOf(lines[1..i], base).value[ToLower(GoTrimSpace(kv[0])) := GoTrimSpace(kv[1])])
  {
    assert lines[1..i + 1] == lines[1..i] + [lines[i]];
    HeaderOfSnoc(lines[1..i], lines[i], base);
    if ':' !in lines[i] {
      HeaderOfPanics(lines[1..], base);
      assert lines[1..][i - 1] == lines[i];
    } else {
      ParseLineIsSplit(lines[i]);
    }
  }

  // ---------------------------------------------------------------------------------------
  // The mutable message and buffer

  /** A `bytes.Buffer`: the unread bytes. */
  class Buffer {
    var bytes: string

    constructor (bytes: string)
      ensures this.bytes == bytes
    {
      this.bytes := bytes;
    }
  }

  class Message {
    var status: int
    var url: string
    var httpMethod: string
    var header: map<string, string>
    var body: Option<string>

    /** `NewMessage(args...)`; `body` is the formatted body, `None` when no format string came. */
    constructor (body: Option<string>)
      ensures Value() == Initial.(body := body)
    {
      status, url, httpMethod := 0, "/", "GET";
      header := DefaultHeader;
      this.body := body;
    }

    function Value(): MessageValue
      reads this
    {
      MessageValue(status, url, httpMethod, header, body)
    }

    /** `SetBody(body)`; `None` is a nil slice. */
    method SetBody(body: Option<string>)
      modifies this`body
      ensures Value() == old(Value()).(body := body)
    {
      this.body := body;
    }

    method SetHeaderIfNone(key: string, val: string)
      modifies this`header
      ensures header == if key in old(header) then old(header) else old(header)[key := val]
    {
      if key in header {
        return;
      }
      header := header[key := val];
    }

    method SetHeader(key: string, value: string)
      modifies this`header
      ensures header == if value == "" then old(header) else old(header)[key := value]
    {
      if value == "" {
        return;
      }
      header := header[key := value];
    }

    /** A missing key reads as the empty string. */
    function GetHeader(key: string): (r: string)
      reads this
      ensures key !in header ==> r == ""
      ensures key in header ==> r == header[key]
    {
      if key in header then header[key] else ""
    }

    /** `Ack()` with the ack header's key passed in: true when unset, false when unparseable. */
    predicate Ack(ackKey: string)
      reads this
      ensures Ack(ackKey) <==> GetHeader(ackKey) == "" || ParseBool(GetHeader(ackKey)) == Some(true)
    {
      var a := GetHeader(ackKey);
      if a == "" then true
      else match ParseBool(a)
        case None => false
        case Some(b) => b
    }

    /** `SetAck(ack)`: afterwards `Ack()` reports `ack`. */
    method SetAck(ackKey: string, ack: bool)
      modifies this`header
      ensures header == old(header)[ackKey := FormatBool(ack)]
      ensures Ack(ackKey) == ack
    {
      SetHeader(ackKey, FormatBool(ack));
    }

    /** The header loop of `DecodeMessage`: each line after the start line puts its key and
        value into the header; `false` where a line without `:` makes Go panic. */
    method ReadHeaderLines(lines: seq<string>) returns (ok: bool)
      requires |lines| >= 1
      modifies this`header
      ensures ok <==> HeaderOf(lines[1..], old(header)).Some?
      ensures ok ==> header == HeaderOf(lines[1..], old(header)).value
    {
      ghost var base := header;
      var i := 1;
      while i < |lines|
        invariant 1 <= i <= |lines|
        invariant HeaderOf(lines[1..i], base) == Some(header)
      {
        HeaderOfAt(lines, i, base);
        if ':' !in lines[i] {
          return false;
        }
        var kv := SplitOn(lines[i], ":");
        var key := ToLower(GoTrimSpace(kv[0]));
        var val := GoTrimSpace(kv[1]);
        header := header[key := val];
        i := i + 1;
      }
      assert lines[1..i] == lines[1..];
      return true;
    }

    /** `EncodeMessage(buf)`, with the map's iteration order passed in as `order`. */
    method EncodeMessage(buf: Buffer, order: seq<string>)
      requires forall i, j :: 0 <= i < j < |order| ==> order[i] != order[j]
      requires forall k :: k in header <==> k in order
      modifies buf
      ensures buf.bytes == old(buf.bytes) + Encoding(Value(), order)
    {
      var v := Value();
      var h := header;
      var start := StartLine(v);
      ghost var written := Terminated([start]);
      TerminatedOne(start);
      buf.bytes := buf.bytes + (start + CRLF);
      var i := 0;
      while i < |order|
        invariant 0 <= i <= |order|
        invariant written == Terminated([start] + HeaderLines(order[..i], h))
        invariant buf.bytes == old(buf.bytes) + written
      {
        var k := ToLower(order[i]);
        EncodeStep(start, order, i, h);
        if k != ContentLength {
          var line := HeaderLine(k, h[order[i]]);
          Append3(old(buf.bytes), written, line + CRLF);
          buf.bytes := buf.bytes + (line + CRLF);
          written := written + (line + CRLF);
        }
        i := i + 1;
      }
      assert order[..i] == order;
      var bodyLen := if body.Some? then |body.value| else 0;
      var lengthLine := HeaderLine(ContentLength, IntDecimal(bodyLen));
      ghost var bodyBytes := if body.Some? then body.value else "";
      ghost var x := old(buf.bytes) + written;
      assert lengthLine == LengthLine(v) && bodyBytes == BodyBytes(v);
      EncodingSplit(v, order);
      Regroup(x, lengthLine, CRLF, bodyBytes);
      Append3(old(buf.bytes), written, lengthLine + CRLF + CRLF + bodyBytes);
      buf.bytes := buf.bytes + lengthLine + CRLF;
      buf.bytes := buf.bytes + CRLF;
      if body.Some? {
        buf.bytes := buf.bytes + body.value;
      } else {
        assert buf.bytes == x + lengthLine + CRLF + CRLF + bodyBytes;
      }
    }
  }

  /** The start line and the header loop of `DecodeMessage`, on the bytes before the blank
      line at `idx`: `null` where Go panics, otherwise the message without its body. */
  method ReadHead(bb: string, idx: nat) returns (msg: Message?)
    requires idx <= |bb|
    ensures var lines := SplitOn(bb[..idx], CRLF);
      msg == null <==> StartOf(lines[0]).None? || HeaderOf(lines[1..], DefaultHeader).None?
    ensures var lines := SplitOn(bb[..idx], CRLF);
      msg != null ==>
        fresh(msg) && msg.Value() == StartOf(lines[0]).value.(header := HeaderOf(lines[1..], DefaultHeader).value)
  {
    msg := new Message(None);
    var lines := SplitOn(bb[..idx], CRLF);
    var meta := Fields(lines[0]);
    if |meta| < 2 {
      return null;
    }
    if LooksLikeHttp(meta[0]) {
      msg.status := GoAtoi(meta[1]).value;
    } else {
      msg.httpMethod := meta[0];
      msg.url := meta[1];
    }
    var ok := msg.ReadHeaderLines(lines);
    if !ok {
      return null;
    }
  }

  /** The body step of `DecodeMessage` for the message `msg` read so far: whether Go panics,
      whether the body is complete, and the number of bytes the message takes up. */
  method ReadBody(bb: string, idx: nat, msg: Message) returns (panicked: bool, complete: bool, consumed: nat)
    requires idx + 4 <= |bb| && msg.body.None?
    modifies msg`body
    ensures panicked <==> Framed(bb, idx, old(msg.Value())).Panic?
    ensures complete <==> Framed(bb, idx, old(msg.Value())).Decoded?
    ensures complete ==>
      msg.Value() == Framed(bb, idx, old(msg.Value())).msg && consumed == Framed(bb, idx, old(msg.Value())).consumed
  {
    ghost var start := msg.Value();
    FramedCases(bb, idx, start);
    var bodyLen := BodyLength(msg.header);
    if |bb| - idx - 4 < bodyLen {
      return false, false, 0;
    }
    if idx + 4 + bodyLen < 0 {
      return true, false, 0;
    }
    ghost var cut := if bodyLen > 0 then Some(bb[idx + 4..idx + 4 + bodyLen]) else None;
    if bodyLen > 0 {
      msg.SetBody(Some(bb[idx + 4..idx + 4 + bodyLen]));
    }
    assert msg.Value() == start.(body := cut);
    return false, true, idx + 4 + bodyLen;
  }

  /** The rest of `DecodeMessage` once the blank line has been found at `idx`: the message and
      the number of bytes it takes up, or `null` and whether Go panics. */
  method DecodeFrom(bb: string, idx: nat) returns (m: Message?, panicked: bool, consumed: nat)
    requires idx + 4 <= |bb|
    ensures panicked <==> DecodeAt(bb, idx).Panic?
    ensures m != null <==> DecodeAt(bb, idx).Decoded?
    ensures m != null ==> fresh(m) && m.Value() == DecodeAt(bb, idx).msg && consumed == DecodeAt(bb, idx).consumed
  {
    m := ReadHead(bb, idx);
    if m == null {
      DecodeAtPanicsInHead(bb, idx);
      return null, true, 0;
    }
    DecodeAtIsFramed(bb, idx);
    var complete;
    panicked, complete, consumed := ReadBody(bb, idx, m);
    if !complete {
      m := null;
    }
  }

  /** `DecodeMessage(buf)`: `null` with the buffer untouched when the message is incomplete;
      `panicked` where Go panics (too few start-line words, a header line without `:`, a
      negative total length); otherwise the decoded message, and the buffer loses exactly
      the consumed bytes. */
  method DecodeMessage(buf: Buffer) returns (m: Message?, panicked: bool)
    modifies buf
    ensures panicked <==> Decode(old(buf.bytes)).Panic?
    ensures m != null <==> Decode(old(buf.bytes)).Decoded?
    ensures m != null ==> fresh(m) && m.Value() == Decode(old(buf.bytes)).msg
    ensures m != null ==> buf.bytes == old(buf.bytes)[Decode(old(buf.bytes)).consumed..]
    ensures m == null ==> buf.bytes == old(buf.bytes)
  {
    var bb := buf.bytes;
    var found := IndexOf(bb, Blank);
    if found.None? {
      return null, false;
    }
    var consumed;
    m, panicked, consumed := DecodeFrom(bb, found.value);
    if m != null {
      buf.bytes := bb[consumed..];
    }
  }
}
