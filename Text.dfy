/** String primitives of the Java and Go standard libraries that the modelled code relies on.
    Strings are `seq<char>`; a Go byte string is read as one char per byte. Case mapping is
    ASCII only (Java's `toLowerCase`/`equalsIgnoreCase` and Go's `strings.ToLower` also map
    non-ASCII letters). */
module Text {
  import opened Wrappers

  // ---------------------------------------------------------------------------------------
  // Character classes

  /** Java `String.trim` removes every char whose code is at most U+0020. */
  predicate IsJavaBlank(c: char) { c <= ' ' }

  /** The one-byte spaces of Go's `strings.TrimSpace` and `strings.Fields` (tab, newline,
      vertical tab, form feed, carriage return, space). Go decodes UTF-8 before testing, so a
      byte of 0x80 or more is never a space on its own. */
  predicate IsGoSpace(c: char) {
    c == ' ' || ('\t' <= c <= '\r')
  }

  predicate IsWordChar(c: char) { !IsGoSpace(c) }

  predicate IsUpper(c: char) { 'A' <= c <= 'Z' }

  // ---------------------------------------------------------------------------------------
  // Trimming

  /** Which chars a trim removes: Java's `trim` or Go's `TrimSpace`. */
  datatype Blanks = JavaBlanks | GoSpaces

  predicate IsBlank(c: char, b: Blanks)
  {
    match b
    case JavaBlanks => IsJavaBlank(c)
    case GoSpaces => IsGoSpace(c)
  }

  /** `s` without its leading blank chars. */
  function TrimLeft(s: string, b: Blanks): string
  {
    if s != [] && IsBlank(s[0], b) then TrimLeft(s[1..], b) else s
  }

  /** `s` without its trailing blank chars. */
  function TrimRight(s: string, b: Blanks): string
  {
    if s != [] && IsBlank(s[|s| - 1], b) then TrimRight(s[..|s| - 1], b) else s
  }

  /** `s` without its leading and trailing blank chars. */
  function Trim(s: string, b: Blanks): string { TrimRight(TrimLeft(s, b), b) }

  lemma {:induction false} TrimLeftCuts(s: string, b: Blanks)
    ensures var t := TrimLeft(s, b);
      |t| <= |s| && t == s[|s| - |t|..] &&
      (t == [] || !IsBlank(t[0], b)) &&
      forall i :: 0 <= i < |s| - |t| ==> IsBlank(s[i], b)
    decreases |s|
  {
    if s != [] && IsBlank(s[0], b) {
      TrimLeftCuts(s[1..], b);
      var t := TrimLeft(s[1..], b);
      assert s[1..][|s| - 1 - |t|..] == s[|s| - |t|..];
      assert forall i :: 1 <= i < |s| - |t| ==> s[i] == s[1..][i - 1];
    }
  }

  lemma {:induction false} TrimRightCuts(s: string, b: Blanks)
    ensures var t := TrimRight(s, b);
      |t| <= |s| && t == s[..|t|] &&
      (t == [] || !IsBlank(t[|t| - 1], b)) &&
      forall i :: |t| <= i < |s| ==> IsBlank(s[i], b)
    decreases |s|
  {
    if s != [] && IsBlank(s[|s| - 1], b) {
      TrimRightCuts(s[..|s| - 1], b);
      var t := TrimRight(s[..|s| - 1], b);
      assert s[..|s| - 1][..|t|] == s[..|t|];
      assert forall i :: |t| <= i < |s| - 1 ==> s[i] == s[..|s| - 1][i];
    }
  }

  /** What a trim keeps: a slice of `s` with non-blank ends. */
  lemma TrimKeepsCore(s: string, b: Blanks)
    ensures var r := Trim(s, b); var lo := |s| - |TrimLeft(s, b)|;
      0 <= lo <= lo + |r| <= |s| && r == s[lo..lo + |r|]
    ensures var r := Trim(s, b); r != [] ==> !IsBlank(r[0], b) && !IsBlank(r[|r| - 1], b)
  {
    var t := TrimLeft(s, b);
    TrimLeftCuts(s, b);
    TrimRightCuts(t, b);
    var r := TrimRight(t, b);
    var lo := |s| - |t|;
    assert r == s[lo..lo + |r|];
    if r != [] {
      assert r[0] == t[0];
    }
  }

  /** The trim is empty only when all of `s` is blank. */
  lemma TrimEmptyIsBlank(s: string, b: Blanks)
    requires Trim(s, b) == []
    ensures forall i :: 0 <= i < |s| ==> IsBlank(s[i], b)
  {
    var t := TrimLeft(s, b);
    TrimLeftCuts(s, b);
    TrimRightCuts(t, b);
    assert t == [];
  }

  /** A string with non-blank ends is its own trim. */
  lemma TrimOfTrimmed(s: string, b: Blanks)
    requires s != [] && !IsBlank(s[0], b) && !IsBlank(s[|s| - 1], b)
    ensures Trim(s, b) == s
  {
    assert TrimLeft(s, b) == s;
  }

  /** Trimming twice is trimming once. */
  lemma TrimIdempotent(s: string, b: Blanks)
    ensures Trim(Trim(s, b), b) == Trim(s, b)
  {
    TrimKeepsCore(s, b);
    if Trim(s, b) != [] {
      TrimOfTrimmed(Trim(s, b), b);
    }
  }

  function JavaTrim(s: string): string { Trim(s, JavaBlanks) }

  function GoTrimSpace(s: string): string { Trim(s, GoSpaces) }

  // ---------------------------------------------------------------------------------------
  // Case mapping (ASCII)

  function LowerChar(c: char): (d: char)
    ensures !IsUpper(d)
    ensures !IsUpper(c) ==> d == c
  {
    if IsUpper(c) then (c as int + 32) as char else c
  }

  function UpperChar(c: char): (d: char)
    ensures !('a' <= d <= 'z')
    ensures !('a' <= c <= 'z') ==> d == c
  {
    if 'a' <= c <= 'z' then (c as int - 32) as char else c
  }

  function ToLower(s: string): (r: string)
    ensures |r| == |s|
    ensures forall i :: 0 <= i < |s| ==> r[i] == LowerChar(s[i])
  {
    seq(|s|, i requires 0 <= i < |s| => LowerChar(s[i]))
  }

  function ToUpper(s: string): (r: string)
    ensures |r| == |s|
    ensures forall i :: 0 <= i < |s| ==> r[i] == UpperChar(s[i])
  {
    seq(|s|, i requires 0 <= i < |s| => UpperChar(s[i]))
  }

  predicate IsLowerCase(s: string) { forall i :: 0 <= i < |s| ==> !IsUpper(s[i]) }

  lemma ToLowerOfLowerCase(s: string)
    requires IsLowerCase(s)
    ensures ToLower(s) == s
  {
  }

  /** Java `equalsIgnoreCase`, restricted to ASCII case mapping. */
  predicate EqualsIgnoreCase(a: string, b: string) { ToLower(a) == ToLower(b) }

  // ---------------------------------------------------------------------------------------
  // Searching

  predicate StartsWith(s: string, p: string) { |p| <= |s| && s[..|p|] == p }

  predicate EndsWith(s: string, p: string) { |p| <= |s| && s[|s| - |p|..] == p }

  predicate OccursAt(s: string, pat: string, k: nat) { k + |pat| <= |s| && s[k..k + |pat|] == pat }

  /** First position at or after `from` where `pat` occurs. */
  function IndexFrom(s: string, pat: string, from: nat): (r: Option<nat>)
    requires from <= |s|
    ensures r.Some? ==> from <= r.value && OccursAt(s, pat, r.value)
    ensures r.Some? ==> forall j :: from <= j < r.value ==> !OccursAt(s, pat, j)
    ensures r.None? ==> forall j :: from <= j <= |s| ==> !OccursAt(s, pat, j)
    decreases |s| - from
  {
    if OccursAt(s, pat, from) then Some(from)
    else if from == |s| then None
    else IndexFrom(s, pat, from + 1)
  }

  /** Go `bytes.Index`: the first occurrence of `pat` in `s`, if any. */
  function IndexOf(s: string, pat: string): (r: Option<nat>)
    ensures r.Some? ==> OccursAt(s, pat, r.value)
    ensures r.Some? ==> forall j :: 0 <= j < r.value ==> !OccursAt(s, pat, j)
    ensures r.None? ==> forall j :: 0 <= j <= |s| ==> !OccursAt(s, pat, j)
  {
    IndexFrom(s, pat, 0)
  }

  /** The first position of `c` in `s`, if any. */
  function CharIndex(s: string, c: char): (r: Option<nat>)
    ensures r.None? <==> c !in s
    ensures r.Some? ==> r.value < |s| && s[r.value] == c && c !in s[..r.value]
  {
    if s == [] then None
    else if s[0] == c then Some(0)
    else match CharIndex(s[1..], c)
      case None => None
      case Some(k) =>
        assert s[..k + 1] == [s[0]] + s[1..][..k];
        Some(k + 1)
  }

  /** The first `c` of `p + [c] + rest` is the one after `p` when `p` lacks `c`. */
  lemma CharIndexAfterFree(p: string, c: char, rest: string)
    requires c !in p
    ensures CharIndex(p + [c] + rest, c) == Some(|p|)
  {
    var s := p + [c] + rest;
    if p == [] {
      assert s[0] == c;
    } else {
      assert s[0] == p[0] && s[1..] == p[1..] + [c] + rest;
      CharIndexAfterFree(p[1..], c, rest);
    }
  }

  lemma CutAround(s: string, j: nat)
    requires j < |s|
    ensures s == s[..j] + [s[j]] + s[j + 1..]
  {
  }

  // ---------------------------------------------------------------------------------------
  // Splitting and joining

  function Join(parts: seq<string>, sep: string): string
  {
    if |parts| == 0 then "" else if |parts| == 1 then parts[0] else parts[0] + sep + Join(parts[1..], sep)
  }

  lemma {:induction false} JoinSnoc(ps: seq<string>, l: string, sep: string)
    requires |ps| >= 1
    ensures Join(ps + [l], sep) == Join(ps, sep) + sep + l
    decreases |ps|
  {
    if |ps| == 1 {
      assert (ps + [l])[1..] == [l];
    } else {
      assert (ps + [l])[1..] == ps[1..] + [l];
      JoinSnoc(ps[1..], l, sep);
    }
  }

  /** Go `strings.Split`/`bytes.Split` with a non-empty separator: cut at every occurrence,
      scanning left to right. */
  function SplitOn(s: string, sep: string): (parts: seq<string>)
    requires |sep| > 0
    ensures |parts| >= 1
    decreases |s|
  {
    match IndexOf(s, sep)
    case None => [s]
    case Some(k) => [s[..k]] + SplitOn(s[k + |sep|..], sep)
  }

  /** The pieces join back to the input, and none of them holds the separator. */
  lemma SplitOnSpec(s: string, sep: string)
    requires |sep| > 0
    ensures Join(SplitOn(s, sep), sep) == s
    ensures forall i :: 0 <= i < |SplitOn(s, sep)| ==> IndexOf(SplitOn(s, sep)[i], sep).None?
  {
    SplitOnJoins(s, sep);
    SplitOnPartsFree(s, sep);
  }

  lemma {:induction false} SplitOnJoins(s: string, sep: string)
    requires |sep| > 0
    ensures Join(SplitOn(s, sep), sep) == s
    decreases |s|
  {
    match IndexOf(s, sep)
    case None =>
    case Some(k) =>
      var rest := s[k + |sep|..];
      SplitOnJoins(rest, sep);
      JoinCons(s[..k], SplitOn(rest, sep), sep);
      CutAt(s, k, k + |sep|);
  }

  lemma JoinCons(p: string, tail: seq<string>, sep: string)
    requires |tail| >= 1
    ensures Join([p] + tail, sep) == p + sep + Join(tail, sep)
  {
    assert ([p] + tail)[1..] == tail;
  }

  lemma CutAt(s: string, i: nat, j: nat)
    requires i <= j <= |s|
    ensures s == s[..i] + s[i..j] + s[j..]
  {
  }

  lemma {:induction false} SplitOnPartsFree(s: string, sep: string)
    requires |sep| > 0
    ensures forall i :: 0 <= i < |SplitOn(s, sep)| ==> IndexOf(SplitOn(s, sep)[i], sep).None?
    decreases |s|
  {
    match IndexOf(s, sep)
    case None =>
    case Some(k) =>
      var rest := s[k + |sep|..];
      SplitOnPartsFree(rest, sep);
      var parts := SplitOn(s, sep);
      var tail := SplitOn(rest, sep);
      assert parts == [s[..k]] + tail;
      NoOccurrenceBeforeFirst(s, sep, k);
      assert forall i :: 1 <= i < |parts| ==> parts[i] == tail[i - 1];
  }

  lemma NoOccurrenceBeforeFirst(s: string, sep: string, k: nat)
    requires |sep| > 0 && IndexOf(s, sep) == Some(k)
    ensures IndexOf(s[..k], sep).None?
  {
    var pre := s[..k];
    forall j | 0 <= j <= |pre| ensures !OccursAt(pre, sep, j) {
      if j + |sep| <= |pre| {
        assert pre[j..j + |sep|] == s[j..j + |sep|];
        assert j < k;
        assert !OccursAt(s, sep, j);
      }
    }
  }

  /** When `p` lacks the separator's first char, the first separator of `p + sep + rest` is
      the one right after `p`. */
  lemma IndexOfFreePrefix(p: string, sep: string, rest: string)
    requires |sep| > 0 && sep[0] !in p
    ensures IndexOf(p + sep + rest, sep) == Some(|p|)
  {
    var s := p + sep + rest;
    assert s[|p|..|p| + |sep|] == sep;
    forall j | 0 <= j < |p| ensures !OccursAt(s, sep, j) {
      if j + |sep| <= |s| {
        assert s[j..j + |sep|][0] == p[j];
      }
    }
    assert OccursAt(s, sep, |p|);
  }

  lemma IndexOfFree(p: string, sep: string)
    requires |sep| > 0 && sep[0] !in p
    ensures IndexOf(p, sep).None?
  {
    forall j | 0 <= j <= |p| ensures !OccursAt(p, sep, j) {
      if j + |sep| <= |p| {
        assert p[j..j + |sep|][0] == p[j];
      }
    }
  }

  /** Splitting undoes joining when no part holds the separator's first char. */
  lemma {:induction false} SplitOfJoin(parts: seq<string>, sep: string)
    requires |parts| >= 1 && |sep| > 0
    requires forall i :: 0 <= i < |parts| ==> sep[0] !in parts[i]
    ensures SplitOn(Join(parts, sep), sep) == parts
    decreases |parts|
  {
    if |parts| == 1 {
      IndexOfFree(parts[0], sep);
    } else {
      var tail := parts[1..];
      assert forall i :: 0 <= i < |tail| ==> tail[i] == parts[i + 1];
      SplitOfJoin(tail, sep);
      SplitStep(parts[0], sep, Join(tail, sep));
      assert parts == [parts[0]] + tail;
    }
  }

  lemma SplitStep(p: string, sep: string, rest: string)
    requires |sep| > 0 && sep[0] !in p
    ensures SplitOn(p + sep + rest, sep) == [p] + SplitOn(rest, sep)
  {
    var s := p + sep + rest;
    IndexOfFreePrefix(p, sep, rest);
    assert s[..|p|] == p;
    assert s[|p| + |sep|..] == rest;
  }

  /** The prefix of `parts` left once every trailing empty string is dropped. */
  function DropTrailingEmpty(parts: seq<string>): (r: seq<string>)
    ensures r <= parts
    ensures r != [] ==> r[|r| - 1] != ""
    ensures forall i :: |r| <= i < |parts| ==> parts[i] == ""
  {
    if parts == [] || parts[|parts| - 1] != "" then parts
    else DropTrailingEmpty(parts[..|parts| - 1])
  }

  /** Java `String.split` with a one-char literal separator: no match yields the whole input,
      otherwise the pieces without trailing empty strings. */
  function JavaSplit(s: string, sep: char): (parts: seq<string>)
    ensures sep !in s ==> parts == [s]
    ensures forall i :: 0 <= i < |parts| ==> sep !in parts[i]
  {
    if sep !in s then [s]
    else
      var all := SplitOn(s, [sep]);
      SplitOnSpec(s, [sep]);
      forall i | 0 <= i < |all| ensures sep !in all[i] {
        if sep in all[i] {
          var k :| 0 <= k < |all[i]| && all[i][k] == sep;
          assert OccursAt(all[i], [sep], k);
        }
      }
      DropTrailingEmpty(all)
  }

  /** Two pieces around one separator split back into the two pieces. */
  lemma JavaSplitPair(a: string, sep: char, b: string)
    requires sep !in a && sep !in b && b != []
    ensures JavaSplit(a + [sep] + b, sep) == [a, b]
  {
    var s := a + [sep] + b;
    assert s[|a|] == sep;
    SplitStep(a, [sep], b);
    IndexOfFree(b, [sep]);
  }

  /** A trailing separator leaves one piece, and a lone separator none. */
  lemma JavaSplitTrailing(a: string, sep: char)
    requires sep !in a
    ensures JavaSplit(a + [sep], sep) == if a == [] then [] else [a]
  {
    var s := a + [sep];
    assert s[|a|] == sep;
    assert s == a + [sep] + [];
    SplitStep(a, [sep], []);
    IndexOfFree([], [sep]);
    assert SplitOn(s, [sep]) == [a, []];
    assert [a, []][..1] == [a];
    assert DropTrailingEmpty([a, []]) == DropTrailingEmpty([a]);
    if a == [] {
      assert [a][..0] == [];
      assert DropTrailingEmpty([a]) == DropTrailingEmpty([]);
    }
  }

  predicate NoSpace(w: string) { forall i :: 0 <= i < |w| ==> !IsGoSpace(w[i]) }

  /** Length of the run of non-space chars that starts `s`. */
  function WordLen(s: string): (k: nat)
    ensures k <= |s| && NoSpace(s[..k])
    ensures k < |s| ==> IsGoSpace(s[k])
  {
    if s == [] || IsGoSpace(s[0]) then 0
    else
      var k := 1 + WordLen(s[1..]);
      assert forall i :: 1 <= i < k ==> s[..k][i] == s[1..][..k - 1][i - 1];
      k
  }

  /** Go `strings.Fields`: the maximal runs of non-space chars, in order. */
  function Fields(s: string): (fs: seq<string>)
    ensures forall i :: 0 <= i < |fs| ==> fs[i] != [] && NoSpace(fs[i])
    decreases |s|
  {
    if s == [] then []
    else if IsGoSpace(s[0]) then Fields(s[1..])
    else
      var w := WordLen(s);
      [s[..w]] + Fields(s[w..])
  }

  lemma {:induction false} WordLenOfWord(w: string, rest: string)
    requires NoSpace(w)
    requires rest == [] || IsGoSpace(rest[0])
    ensures WordLen(w + rest) == |w|
  {
    if w != [] {
      assert (w + rest)[1..] == w[1..] + rest;
      assert NoSpace(w[1..]) by {
        assert forall i :: 0 <= i < |w| - 1 ==> w[1..][i] == w[i + 1];
      }
      WordLenOfWord(w[1..], rest);
    }
  }

  /** A non-empty word followed by a space or the end contributes exactly one field. */
  lemma FieldsCons(w: string, rest: string)
    requires w != [] && NoSpace(w)
    requires rest == [] || IsGoSpace(rest[0])
    ensures Fields(w + rest) == [w] + Fields(rest)
  {
    WordLenOfWord(w, rest);
    var s := w + rest;
    assert s[..|w|] == w && s[|w|..] == rest;
  }

  /** A word and one space in front of the rest contribute exactly that word. */
  lemma FieldsWordSpace(w: string, rest: string)
    requires w != [] && NoSpace(w)
    ensures Fields(w + " " + rest) == [w] + Fields(rest)
  {
    assert w + " " + rest == w + (" " + rest);
    FieldsCons(w, " " + rest);
    FieldsSpacePrefix(" ", rest);
  }

  /** Leading spaces contribute no field. */
  lemma {:induction false} FieldsSpacePrefix(sp: string, s: string)
    requires forall i :: 0 <= i < |sp| ==> IsGoSpace(sp[i])
    ensures Fields(sp + s) == Fields(s)
  {
    if sp == [] {
      assert sp + s == s;
    } else {
      var t := sp + s;
      assert t[0] == sp[0] && IsGoSpace(t[0]);
      assert t[1..] == sp[1..] + s;
      assert Fields(t) == Fields(t[1..]);
      FieldsSpacePrefix(sp[1..], s);
    }
  }

  /** One space in front of a trimmed string is trimmed away again. */
  lemma TrimOfPadded(v: string, b: Blanks)
    requires Trim(v, b) == v
    ensures Trim(" " + v, b) == v
  {
    var s := " " + v;
    assert IsBlank(s[0], b);
    assert s[1..] == v;
    TrimKeepsCore(v, b);
    assert TrimLeft(s, b) == TrimLeft(v, b);
    if v != [] {
      assert TrimLeft(v, b) == v;
      assert TrimRight(v, b) == v;
    }
  }

  // ---------------------------------------------------------------------------------------
  // Replacement

  /** Java `String.replace(target, replacement)` for a non-empty target: every occurrence,
      found left to right without overlap, is replaced. */
  function Replace(s: string, target: string, repl: string): (r: string)
    requires |target| > 0
    decreases |s|
  {
    if |s| < |target| then s
    else if s[..|target|] == target then repl + Replace(s[|target|..], target, repl)
    else [s[0]] + Replace(s[1..], target, repl)
  }

  /** A char that is in neither the input nor the replacement is not in the output. */
  lemma {:induction false} ReplaceKeepsAbsent(s: string, target: string, repl: string, c: char)
    requires |target| > 0
    requires c !in s && c !in repl
    ensures c !in Replace(s, target, repl)
    decreases |s|
  {
    if |s| < |target| {
    } else if s[..|target|] == target {
      assert c !in s[|target|..];
      ReplaceKeepsAbsent(s[|target|..], target, repl, c);
    } else {
      assert c !in s[1..];
      ReplaceKeepsAbsent(s[1..], target, repl, c);
    }
  }

  /** Replacing never removes the first char unless the target starts there, and a
      replacement that starts with that char keeps it. */
  lemma ReplaceKeepsHead(s: string, target: string, repl: string)
    requires |target| > 0 && |s| > 0
    requires target[0] != s[0] || (|repl| > 0 && repl[0] == s[0])
    ensures |Replace(s, target, repl)| > 0 && Replace(s, target, repl)[0] == s[0]
  {
  }

  /** Removing every occurrence of a one-char target leaves none behind. */
  lemma {:induction false} ReplaceRemovesChar(s: string, c: char)
    ensures c !in Replace(s, [c], "")
    decreases |s|
  {
    if |s| < 1 {
    } else if s[..1] == [c] {
      ReplaceRemovesChar(s[1..], c);
    } else {
      ReplaceRemovesChar(s[1..], c);
    }
  }

  /** A target one of whose chars is missing from the input is never found. */
  lemma {:induction false} ReplaceMiss(s: string, target: string, repl: string, k: nat)
    requires k < |target| && target[k] !in s
    ensures Replace(s, target, repl) == s
    decreases |s|
  {
    if |s| >= |target| {
      assert s[..|target|][k] == s[k];
      assert target[k] !in s[1..];
      ReplaceMiss(s[1..], target, repl, k);
    }
  }

  /** The target alone is replaced whole. */
  lemma ReplaceWhole(target: string, repl: string)
    requires |target| > 0
    ensures Replace(target, target, repl) == repl
  {
    assert target[..|target|] == target && target[|target|..] == [];
    assert repl + [] == repl;
  }

  /** No occurrence of a target of one or two chars straddles the seam between `a` and `b`. */
  predicate Seam(a: string, b: string, target: string)
  {
    |target| == 1 ||
    (|target| == 2 && !(a != [] && b != [] && a[|a| - 1] == target[0] && b[0] == target[1]))
  }

  /** Replacing a short target in two strings that meet at a clean seam replaces in each. */
  lemma {:induction false} ReplaceConcat(a: string, b: string, target: string, repl: string)
    requires Seam(a, b, target)
    ensures Replace(a + b, target, repl) == Replace(a, target, repl) + Replace(b, target, repl)
    decreases |a|
  {
    if a == [] {
      assert a + b == b;
    } else if |a| >= |target| {
      ReplaceConcatStep(a, b, target, repl);
    } else if |a + b| >= |target| {
      ReplaceConcatShort(a, b, target, repl);
    }
  }

  /** The step of `ReplaceConcat` when `a` is at least as long as the target. */
  lemma {:induction false} ReplaceConcatStep(a: string, b: string, target: string, repl: string)
    requires Seam(a, b, target) && |a| >= |target|
    ensures Replace(a + b, target, repl) == Replace(a, target, repl) + Replace(b, target, repl)
    decreases |a|, 0
  {
    var n := |target|;
    var s := a + b;
    assert s[..n] == a[..n];
    var cut := if a[..n] == target then n else 1;
    var head := if a[..n] == target then repl else [a[0]];
    assert s[cut..] == a[cut..] + b;
    assert a[cut..] != [] ==> a[cut..][|a[cut..]| - 1] == a[|a| - 1];
    assert Seam(a[cut..], b, target);
    ReplaceConcat(a[cut..], b, target, repl);
    assert Replace(a, target, repl) == head + Replace(a[cut..], target, repl);
    assert Replace(s, target, repl) == head + Replace(a[cut..] + b, target, repl);
    ConcatAssoc(head, Replace(a[cut..], target, repl), Replace(b, target, repl));
  }

  lemma ConcatAssoc(x: string, y: string, z: string)
    ensures x + (y + z) == (x + y) + z
  {
  }

  /** The case of `ReplaceConcat` where `a` is one char shorter than a two-char target. */
  lemma ReplaceConcatShort(a: string, b: string, target: string, repl: string)
    requires Seam(a, b, target) && a != [] && |a| < |target| <= |a + b|
    ensures Replace(a + b, target, repl) == Replace(a, target, repl) + Replace(b, target, repl)
  {
    var s := a + b;
    assert |a| == 1 && |target| == 2 && b != [];
    assert s[..2] == [a[0], b[0]];
    assert s[..2] != target;
    assert s[1..] == b;
    assert Replace(a, target, repl) == a;
    assert Replace(s, target, repl) == [s[0]] + Replace(b, target, repl);
  }

  // ---------------------------------------------------------------------------------------
  // Decimal numbers

  predicate IsDigit(c: char) { '0' <= c <= '9' }

  predicate AllDigits(s: string) { forall i :: 0 <= i < |s| ==> IsDigit(s[i]) }

  function DigitChar(d: nat): (c: char)
    requires d < 10
    ensures IsDigit(c) && c as int - '0' as int == d
  {
    ('0' as int + d) as char
  }

  /** Decimal digits of `n`, most significant first, no leading zero. */
  function NatDecimal(n: nat): (s: string)
    ensures |s| >= 1 && AllDigits(s)
  {
    if n < 10 then [DigitChar(n)] else NatDecimal(n / 10) + [DigitChar(n % 10)]
  }

  /** Go `%d`, `strconv.Itoa` and Java `Integer.toString`. */
  function IntDecimal(n: int): string
  {
    if n < 0 then "-" + NatDecimal(-n) else NatDecimal(n)
  }

  function DigitsValue(s: string): nat
    requires AllDigits(s)
  {
    if s == [] then 0 else DigitsValue(s[..|s| - 1]) * 10 + (s[|s| - 1] as int - '0' as int)
  }

  lemma {:induction false} DigitsValueOfNatDecimal(n: nat)
    ensures DigitsValue(NatDecimal(n)) == n
  {
    if n >= 10 {
      var s := NatDecimal(n);
      assert s[..|s| - 1] == NatDecimal(n / 10);
      DigitsValueOfNatDecimal(n / 10);
    }
  }

  /** A decimal numeral is one field: digits and possibly a leading minus sign. */
  lemma DecimalIsWord(n: int)
    ensures IntDecimal(n) != [] && NoSpace(IntDecimal(n))
    ensures forall i :: 0 <= i < |IntDecimal(n)| ==> IntDecimal(n)[i] == '-' || IsDigit(IntDecimal(n)[i])
  {
    if n < 0 {
      var d := NatDecimal(-n);
      assert forall i :: 1 <= i < |IntDecimal(n)| ==> IntDecimal(n)[i] == d[i - 1];
    }
  }

  /** An optionally signed run of decimal digits (Go `strconv.ParseInt` base 10 and Java
      `Integer.parseInt` before their range checks). */
  function ParseSigned(s: string): (r: Option<int>)
    ensures r.Some? ==> s != []
    ensures s != [] && AllDigits(s) ==> r == Some(DigitsValue(s))
  {
    if |s| > 0 && (s[0] == '+' || s[0] == '-') then
      var d := s[1..];
      if d != [] && AllDigits(d) then
        var v: int := if s[0] == '-' then -(DigitsValue(d) as int) else DigitsValue(d);
        Some(v)
      else None
    else if s != [] && AllDigits(s) then Some(DigitsValue(s))
    else None
  }

  lemma ParseSignedOfDecimal(n: int)
    ensures ParseSigned(IntDecimal(n)) == Some(n)
  {
    if n < 0 {
      ParseSignedOfNegative(NatDecimal(-n), -n);
    } else {
      DigitsValueOfNatDecimal(n);
    }
  }

  /** A minus sign before the digits of `m` parses as `-m`. */
  lemma ParseSignedOfNegative(d: string, m: nat)
    requires d == NatDecimal(m)
    ensures ParseSigned("-" + d) == Some(-(m as int))
  {
    var s := "-" + d;
    assert s[0] == '-' && s[1..] == d;
    DigitsValueOfNatDecimal(m);
  }

  const MinInt32: int := -0x8000_0000
  const MaxInt32: int := 0x7FFF_FFFF
  const MinInt64: int := -0x8000_0000_0000_0000
  const MaxInt64: int := 0x7FFF_FFFF_FFFF_FFFF

  predicate IsInt32(n: int) { MinInt32 <= n <= MaxInt32 }

  predicate IsInt64(n: int) { MinInt64 <= n <= MaxInt64 }

  /** Java's two's-complement `int` arithmetic: the value of `n` modulo 2^32, as a signed int. */
  function Wrap32(n: int): (r: int)
    ensures IsInt32(r)
    ensures IsInt32(n) ==> r == n
    ensures (r - n) % 0x1_0000_0000 == 0
  {
    var m := n % 0x1_0000_0000;
    if m > MaxInt32 then m - 0x1_0000_0000 else m
  }

  /** Java `Integer.valueOf(String)`: `None` stands for `NumberFormatException`. */
  function JavaParseInt(s: string): (r: Option<int>)
    ensures r.Some? ==> IsInt32(r.value)
  {
    match ParseSigned(s)
    case Some(v) => if IsInt32(v) then Some(v) else None
    case None => None
  }

  /** Go `strconv.Atoi` on a 64-bit platform: its value and whether `err` is nil. A syntax
      error yields 0, a value out of range yields the nearest bound. */
  datatype Atoi = Atoi(value: int, ok: bool)

  function GoAtoi(s: string): (r: Atoi)
    ensures IsInt64(r.value)
    ensures r.ok ==> ParseSigned(s) == Some(r.value)
    ensures ParseSigned(s).None? ==> r == Atoi(0, false)
  {
    match ParseSigned(s)
    case None => Atoi(0, false)
    case Some(v) =>
      if v > MaxInt64 then Atoi(MaxInt64, false)
      else if v < MinInt64 then Atoi(MinInt64, false)
      else Atoi(v, true)
  }

  lemma GoAtoiOfDecimal(n: int)
    requires IsInt64(n)
    ensures GoAtoi(IntDecimal(n)) == Atoi(n, true)
  {
    ParseSignedOfDecimal(n);
  }

  lemma JavaParseIntOfDecimal(n: int)
    requires IsInt32(n)
    ensures JavaParseInt(IntDecimal(n)) == Some(n)
  {
    ParseSignedOfDecimal(n);
  }
}
