/**
  * `JsonKit` (src/main/java/io/zbus/kit/JsonKit.java): `fixJson`, which turns the loose
  * `a:1,b:2` notation into quoted JSON by a fixed sequence of `String.replace` calls, and the
  * shortcuts of `convert`, whose remaining work is handed to a JSON library given here as
  * parameters.
  */
module JsonKit {
  import opened Wrappers
  import opened Text

  /** The input of the rewrites: the string itself when it opens with `{`, else the string in braces. */
  function Braced(str: string): string
  {
    if StartsWith(str, "{") then str else "{" + str + "}"
  }

  /** `fixJson`: brace the input, drop the spaces, quote around `:` `,` and the brackets, then
      take the quotes off again where they meet a bracket from outside. */
  function FixJson(str: string): string
  {
    var s := Braced(str);
    var s := Replace(s, " ", "");
    var s := Replace(s, ":", "':'");
    var s := Replace(s, ",", "','");
    var s := Replace(s, "{", "{'");
    var s := Replace(s, "}", "'}");
    var s := Replace(s, "[", "['");
    var s := Replace(s, "]", "']");
    var s := Replace(s, "'[", "[");
    var s := Replace(s, "]'", "]");
    var s := Replace(s, "'{", "{");
    Replace(s, "}'", "}")
  }

  /** Bracing by hand first changes nothing: `fixJson` braces an input that does not open with `{`. */
  lemma FixJsonBraces(str: string)
    requires !StartsWith(str, "{")
    ensures FixJson(str) == FixJson("{" + str + "}")
  {
    assert StartsWith("{" + str + "}", "{");
  }

  /** The result of `fixJson` opens with `{`: only the `{` rewrite can touch the first char, and
      it puts `{` back. */
  lemma FixJsonOpensWithBrace(str: string)
    ensures |FixJson(str)| > 0 && FixJson(str)[0] == '{'
  {
    var s0 := Braced(str);
    assert s0[0] == '{';
    var s1 := Replace(s0, " ", "");
    ReplaceKeepsHead(s0, " ", "");
    var s2 := Replace(s1, ":", "':'");
    ReplaceKeepsHead(s1, ":", "':'");
    var s3 := Replace(s2, ",", "','");
    ReplaceKeepsHead(s2, ",", "','");
    var s4 := Replace(s3, "{", "{'");
    ReplaceKeepsHead(s3, "{", "{'");
    var s5 := Replace(s4, "}", "'}");
    ReplaceKeepsHead(s4, "}", "'}");
    var s6 := Replace(s5, "[", "['");
    ReplaceKeepsHead(s5, "[", "['");
    var s7 := Replace(s6, "]", "']");
    ReplaceKeepsHead(s6, "]", "']");
    var s8 := Replace(s7, "'[", "[");
    ReplaceKeepsHead(s7, "'[", "[");
    var s9 := Replace(s8, "]'", "]");
    ReplaceKeepsHead(s8, "]'", "]");
    var s10 := Replace(s9, "'{", "{");
    ReplaceKeepsHead(s9, "'{", "{");
    ReplaceKeepsHead(s10, "}'", "}");
  }

  /** The result of `fixJson` has no space in it: the first rewrite removes them and no later
      replacement has one. */
  lemma FixJsonHasNoSpace(str: string)
    ensures ' ' !in FixJson(str)
  {
    var s1 := Replace(Braced(str), " ", "");
    ReplaceRemovesChar(Braced(str), ' ');
    var s2 := Replace(s1, ":", "':'");
    ReplaceKeepsAbsent(s1, ":", "':'", ' ');
    var s3 := Replace(s2, ",", "','");
    ReplaceKeepsAbsent(s2, ",", "','", ' ');
    var s4 := Replace(s3, "{", "{'");
    ReplaceKeepsAbsent(s3, "{", "{'", ' ');
    var s5 := Replace(s4, "}", "'}");
    ReplaceKeepsAbsent(s4, "}", "'}", ' ');
    var s6 := Replace(s5, "[", "['");
    ReplaceKeepsAbsent(s5, "[", "['", ' ');
    var s7 := Replace(s6, "]", "']");
    ReplaceKeepsAbsent(s6, "]", "']", ' ');
    var s8 := Replace(s7, "'[", "[");
    ReplaceKeepsAbsent(s7, "'[", "[", ' ');
    var s9 := Replace(s8, "]'", "]");
    ReplaceKeepsAbsent(s8, "]'", "]", ' ');
    var s10 := Replace(s9, "'{", "{");
    ReplaceKeepsAbsent(s9, "'{", "{", ' ');
    ReplaceKeepsAbsent(s10, "}'", "}", ' ');
  }

  // ---------------------------------------------------------------------------------------
  // Loose key-value lists

  /** The chars `fixJson` rewrites or quotes, and the space it drops. */
  const Specials: string := " :,{}[]'"

  /** A key or value of the loose notation: not empty, and none of the special chars in it. */
  predicate Plain(w: string)
  {
    w != [] && forall i :: 0 <= i < |w| ==> w[i] !in Specials
  }

  predicate PlainPairs(kvs: seq<(string, string)>)
  {
    forall i :: 0 <= i < |kvs| ==> Plain(kvs[i].0) && Plain(kvs[i].1)
  }

  /** `k0 colon v0 comma k1 colon v1 …`: a non-empty list of pairs written with the given separators. */
  function Loose(kvs: seq<(string, string)>, colon: string, comma: string): string
    requires kvs != []
    decreases |kvs|
  {
    kvs[0].0 + colon + kvs[0].1 + (if |kvs| == 1 then [] else comma + Loose(kvs[1..], colon, comma))
  }

  /** A loose list of plain pairs opens and closes with a plain char. */
  lemma {:induction false} LooseEnds(kvs: seq<(string, string)>, colon: string, comma: string)
    requires kvs != [] && PlainPairs(kvs)
    ensures var l := Loose(kvs, colon, comma); l != [] && l[0] !in Specials && l[|l| - 1] !in Specials
    decreases |kvs|
  {
    var k, v := kvs[0].0, kvs[0].1;
    assert Plain(k) && Plain(v);
    var l := Loose(kvs, colon, comma);
    assert l[0] == k[0];
    if |kvs| == 1 {
      assert l == k + colon + v + [];
      assert l[|l| - 1] == v[|v| - 1];
    } else {
      assert PlainPairs(kvs[1..]) by {
        forall i | 0 <= i < |kvs[1..]| ensures Plain(kvs[1..][i].0) && Plain(kvs[1..][i].1) {
          assert kvs[1..][i] == kvs[i + 1];
        }
      }
      LooseEnds(kvs[1..], colon, comma);
      var rest := Loose(kvs[1..], colon, comma);
      assert l == k + colon + v + (comma + rest);
      assert l[|l| - 1] == rest[|rest| - 1];
    }
  }

  /** A target of one or two special chars. */
  predicate SpecialTarget(target: string)
  {
    (|target| == 1 || |target| == 2) && forall i :: 0 <= i < |target| ==> target[i] in Specials
  }

  /** A special target never straddles a seam next to a plain char. */
  lemma PlainSeams(a: string, b: string, target: string)
    requires SpecialTarget(target)
    requires (a != [] && a[|a| - 1] !in Specials) || (b != [] && b[0] !in Specials)
    ensures Seam(a, b, target)
  {
  }

  /** Rewriting a special target in a loose list of plain pairs rewrites only its separators. */
  lemma {:induction false} ReplaceLoose(kvs: seq<(string, string)>, colon: string, comma: string,
                                        target: string, repl: string)
    requires kvs != [] && PlainPairs(kvs) && SpecialTarget(target)
    ensures Replace(Loose(kvs, colon, comma), target, repl) ==
      Loose(kvs, Replace(colon, target, repl), Replace(comma, target, repl))
    decreases |kvs|
  {
    var k, v := kvs[0].0, kvs[0].1;
    assert Plain(k) && Plain(v);
    var c', m' := Replace(colon, target, repl), Replace(comma, target, repl);
    var tail := if |kvs| == 1 then [] else comma + Loose(kvs[1..], colon, comma);
    var tail' := if |kvs| == 1 then [] else m' + Loose(kvs[1..], c', m');
    assert v[|v| - 1] !in Specials && (k + colon + v)[|k + colon + v| - 1] == v[|v| - 1];
    PlainSeams(k + colon + v, tail, target);
    ReplaceConcat(k + colon + v, tail, target, repl);
    PlainSeams(k + colon, v, target);
    ReplaceConcat(k + colon, v, target, repl);
    PlainSeams(k, colon, target);
    ReplaceConcat(k, colon, target, repl);
    ReplaceMiss(k, target, repl, 0);
    ReplaceMiss(v, target, repl, 0);
    if |kvs| > 1 {
      assert PlainPairs(kvs[1..]) by {
        forall i | 0 <= i < |kvs[1..]| ensures Plain(kvs[1..][i].0) && Plain(kvs[1..][i].1) {
          assert kvs[1..][i] == kvs[i + 1];
        }
      }
      LooseEnds(kvs[1..], colon, comma);
      PlainSeams(comma, Loose(kvs[1..], colon, comma), target);
      ReplaceConcat(comma, Loose(kvs[1..], colon, comma), target, repl);
      ReplaceLoose(kvs[1..], colon, comma, target, repl);
      assert Replace(tail, target, repl) == tail';
    } else {
      assert Replace(tail, target, repl) == tail';
    }
  }

  /** Rewriting a special target in a braced loose list rewrites its frame and separators. */
  lemma ReplaceFramed(kvs: seq<(string, string)>, open: string, colon: string, comma: string,
                      close: string, target: string, repl: string)
    requires kvs != [] && PlainPairs(kvs) && SpecialTarget(target)
    ensures Replace(open + Loose(kvs, colon, comma) + close, target, repl) ==
      Replace(open, target, repl) +
      Loose(kvs, Replace(colon, target, repl), Replace(comma, target, repl)) +
      Replace(close, target, repl)
  {
    var l := Loose(kvs, colon, comma);
    LooseEnds(kvs, colon, comma);
    PlainSeams(open, l, target);
    ReplaceConcat(open, l, target, repl);
    assert (open + l)[|open + l| - 1] == l[|l| - 1];
    PlainSeams(open + l, close, target);
    ReplaceConcat(open + l, close, target, repl);
    ReplaceLoose(kvs, colon, comma, target, repl);
  }

  /** The first five rewrites put quotes around every separator and inside the braces. */
  lemma QuotePairs(kvs: seq<(string, string)>)
    requires kvs != [] && PlainPairs(kvs)
    ensures var s0 := "{" + Loose(kvs, ":", ",") + "}";
      var s1 := Replace(s0, " ", "");
      var s2 := Replace(s1, ":", "':'");
      var s3 := Replace(s2, ",", "','");
      var s4 := Replace(s3, "{", "{'");
      Replace(s4, "}", "'}") == "{'" + Loose(kvs, "':'", "','") + "'}"
  {
    ReplaceFramed(kvs, "{", ":", ",", "}", " ", "");
    ReplaceMiss("{", " ", "", 0); ReplaceMiss(":", " ", "", 0);
    ReplaceMiss(",", " ", "", 0); ReplaceMiss("}", " ", "", 0);
    ReplaceFramed(kvs, "{", ":", ",", "}", ":", "':'");
    ReplaceMiss("{", ":", "':'", 0); ReplaceWhole(":", "':'");
    ReplaceMiss(",", ":", "':'", 0); ReplaceMiss("}", ":", "':'", 0);
    ReplaceFramed(kvs, "{", "':'", ",", "}", ",", "','");
    ReplaceMiss("{", ",", "','", 0); ReplaceMiss("':'", ",", "','", 0);
    ReplaceWhole(",", "','"); ReplaceMiss("}", ",", "','", 0);
    ReplaceFramed(kvs, "{", "':'", "','", "}", "{", "{'");
    ReplaceWhole("{", "{'"); ReplaceMiss("':'", "{", "{'", 0);
    ReplaceMiss("','", "{", "{'", 0); ReplaceMiss("}", "{", "{'", 0);
    ReplaceFramed(kvs, "{'", "':'", "','", "}", "}", "'}");
    ReplaceMiss("{'", "}", "'}", 0); ReplaceMiss("':'", "}", "'}", 0);
    ReplaceMiss("','", "}", "'}", 0); ReplaceWhole("}", "'}");
  }

  /** A quoted list of plain pairs has no bracket, so the four bracket rewrites leave it alone. */
  lemma QuotedPairsHaveNoBrackets(kvs: seq<(string, string)>)
    requires kvs != [] && PlainPairs(kvs)
    ensures var q := "{'" + Loose(kvs, "':'", "','") + "'}";
      Replace(q, "[", "['") == q && Replace(q, "]", "']") == q &&
      Replace(q, "'[", "[") == q && Replace(q, "]'", "]") == q
  {
    var s, e := "{'", "'}";
    ReplaceFramed(kvs, s, "':'", "','", e, "[", "['");
    ReplaceMiss(s, "[", "['", 0); ReplaceMiss("':'", "[", "['", 0);
    ReplaceMiss("','", "[", "['", 0); ReplaceMiss(e, "[", "['", 0);
    ReplaceFramed(kvs, s, "':'", "','", e, "]", "']");
    ReplaceMiss(s, "]", "']", 0); ReplaceMiss("':'", "]", "']", 0);
    ReplaceMiss("','", "]", "']", 0); ReplaceMiss(e, "]", "']", 0);
    ReplaceFramed(kvs, s, "':'", "','", e, "'[", "[");
    ReplaceMiss(s, "'[", "[", 1); ReplaceMiss("':'", "'[", "[", 1);
    ReplaceMiss("','", "'[", "[", 1); ReplaceMiss(e, "'[", "[", 1);
    ReplaceFramed(kvs, s, "':'", "','", e, "]'", "]");
    ReplaceMiss(s, "]'", "]", 0); ReplaceMiss("':'", "]'", "]", 0);
    ReplaceMiss("','", "]'", "]", 0); ReplaceMiss(e, "]'", "]", 0);
  }

  /** In a quoted list the quotes sit inside the braces, so the last two rewrites leave it alone. */
  lemma QuotedPairsKeepBraces(kvs: seq<(string, string)>)
    requires kvs != [] && PlainPairs(kvs)
    ensures var q := "{'" + Loose(kvs, "':'", "','") + "'}";
      Replace(q, "'{", "{") == q && Replace(q, "}'", "}") == q
  {
    var s, e := "{'", "'}";
    ReplaceFramed(kvs, s, "':'", "','", e, "'{", "{");
    assert s[..2] != "'{" && s[1..] == "'";
    ReplaceMiss("'", "'{", "{", 1);
    ReplaceMiss("':'", "'{", "{", 1); ReplaceMiss("','", "'{", "{", 1); ReplaceMiss(e, "'{", "{", 1);
    ReplaceFramed(kvs, s, "':'", "','", e, "}'", "}");
    ReplaceMiss(s, "}'", "}", 0); ReplaceMiss("':'", "}'", "}", 0); ReplaceMiss("','", "}'", "}", 0);
    assert e[..2] != "}'" && e[1..] == "}";
    ReplaceMiss("}", "}'", "}", 1);
  }

  /** `fixJson` of a loose list of plain pairs `k0:v0,k1:v1,…` quotes every key and value:
      `{'k0':'v0','k1':'v1',…}`. */
  lemma FixJsonOfPairs(kvs: seq<(string, string)>)
    requires kvs != [] && PlainPairs(kvs)
    ensures FixJson(Loose(kvs, ":", ",")) == "{'" + Loose(kvs, "':'", "','") + "'}"
  {
    var l := Loose(kvs, ":", ",");
    LooseEnds(kvs, ":", ",");
    assert l[..1] != "{";
    QuotePairs(kvs);
    QuotedPairsHaveNoBrackets(kvs);
    QuotedPairsKeepBraces(kvs);
  }

  lemma ExampleLoose()
    ensures Loose([("a", "1"), ("b", "2")], ":", ",") == "a:1,b:2"
  {
    var kvs := [("a", "1"), ("b", "2")];
    assert kvs[1..] == [("b", "2")];
    assert Loose(kvs[1..], ":", ",") == "b:2";
  }

  lemma ExampleQuoted()
    ensures "{'" + Loose([("a", "1"), ("b", "2")], "':'", "','") + "'}" == "{'a':'1','b':'2'}"
  {
    var kvs := [("a", "1"), ("b", "2")];
    assert kvs[1..] == [("b", "2")];
    assert Loose(kvs[1..], "':'", "','") == "b':'2";
    assert Loose(kvs, "':'", "','") == "a':'1','b':'2";
  }

  /** The loose list `a:1,b:2` becomes `{'a':'1','b':'2'}`. */
  lemma FixJsonExample()
    ensures FixJson("a:1,b:2") == "{'a':'1','b':'2'}"
  {
    var kvs := [("a", "1"), ("b", "2")];
    assert Plain("a") && Plain("1") && Plain("b") && Plain("2");
    FixJsonOfPairs(kvs);
    ExampleLoose();
    ExampleQuoted();
  }

  // ---------------------------------------------------------------------------------------
  // convert

  /** A runtime object: the name of its class, and its text when it is a `String`. */
  datatype Obj = Obj(cls: string, text: Option<string>)

  /** What the JSON library throws. */
  datatype JsonError = JsonError

  /**
    * `convert(json, clazz)`. `assignable(clazz, cls)` is `isAssignableFrom`; `serialize` is
    * `JSON.toJSONString` and `parse` is `parseObject(·, clazz)`. A null input is null, an
    * assignable one is returned as is; otherwise the text is parsed, and parsed once more after
    * `fixJson` when the first attempt throws.
    */
  function Convert(json: Option<Obj>, clazz: string, assignable: (string, string) -> bool,
                   serialize: Obj -> string, parse: string -> Result<Obj, JsonError>)
    : (r: Result<Option<Obj>, JsonError>)
    ensures json.None? ==> r == Ok(None)
    ensures json.Some? && assignable(clazz, json.value.cls) ==> r == Ok(json)
    ensures json.Some? && !assignable(clazz, json.value.cls) ==>
      var text := if json.value.text.Some? then json.value.text.value else serialize(json.value);
      if parse(text).Ok? then r == Ok(Some(parse(text).value))
      else if parse(FixJson(text)).Ok? then r == Ok(Some(parse(FixJson(text)).value))
      else r == Err(parse(FixJson(text)).error)
    ensures r.Err? ==> json.Some? && !assignable(clazz, json.value.cls)
  {
    match json
    case None => Ok(None)
    case Some(o) =>
      if assignable(clazz, o.cls) then Ok(Some(o))
      else
        var text := if o.text.Some? then o.text.value else serialize(o);
        match parse(text)
        case Ok(v) => Ok(Some(v))
        case Err(_) =>
          match parse(FixJson(text))
          case Ok(v) => Ok(Some(v))
          case Err(e) => Err(e)
  }

  /** Converting a converted value again returns it, when every parsed object is assignable. */
  lemma ConvertTwice(json: Option<Obj>, clazz: string, assignable: (string, string) -> bool,
                     serialize: Obj -> string, parse: string -> Result<Obj, JsonError>)
    requires forall s :: parse(s).Ok? ==> assignable(clazz, parse(s).value.cls)
    requires Convert(json, clazz, assignable, serialize, parse).Ok?
    ensures var r := Convert(json, clazz, assignable, serialize, parse).value;
      Convert(r, clazz, assignable, serialize, parse) == Ok(r)
  {
  }
}
