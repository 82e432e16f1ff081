/** The hand-rolled reader for the line-oriented JSON records of the wire
    protocol and of recordings: field lookup, quote stripping, lenient number
    parsing, top-level splitting of an entity array and bracket matching.
    Strings are sequences of UTF-16 code units, as in Java. */
module RecordingJson {
  import opened Common

  // ---------------------------------------------------------------------------
  // Java string primitives
  // ---------------------------------------------------------------------------

  /** `String.trim` removes every code unit up to and including the space. */
  predicate IsTrimSpace(c: char) { c <= ' ' }

  /** `Character.isWhitespace`: the ASCII controls it accepts and the Unicode
      separators other than the non-breaking ones. */
  predicate IsWhitespace(c: char)
  {
    c == ' ' || '\t' <= c <= '\r' || '\U{001C}' <= c <= '\U{001F}'
    || c == '\U{1680}' || '\U{2000}' <= c <= '\U{2006}' || '\U{2008}' <= c <= '\U{200A}'
    || c == '\U{2028}' || c == '\U{2029}' || c == '\U{205F}' || c == '\U{3000}'
  }

  /** A string that `trim` leaves alone. */
  predicate IsTrimmed(s: string)
  {
    s == [] || (!IsTrimSpace(s[0]) && !IsTrimSpace(s[|s| - 1]))
  }

  function TrimStart(s: string): (r: string)
    ensures |r| <= |s| && r == s[|s| - |r|..]
    ensures forall k :: 0 <= k < |s| - |r| ==> IsTrimSpace(s[k])
    ensures r == [] || !IsTrimSpace(r[0])
    ensures forall c :: c in r ==> c in s
  {
    if s != [] && IsTrimSpace(s[0]) then
      var r := TrimStart(s[1..]);
      assert s[1..][|s| - 1 - |r|..] == s[|s| - |r|..];
      assert forall c :: c in s[1..] ==> c in s;
      r
    else s
  }

  function TrimEnd(s: string): (r: string)
    ensures |r| <= |s| && r == s[..|r|]
    ensures forall k :: |r| <= k < |s| ==> IsTrimSpace(s[k])
    ensures r == [] || !IsTrimSpace(r[|r| - 1])
    ensures forall c :: c in r ==> c in s
  {
    if s != [] && IsTrimSpace(s[|s| - 1]) then
      var r := TrimEnd(s[..|s| - 1]);
      assert s[..|s| - 1][..|r|] == s[..|r|];
      r
    else s
  }

  /** `String.trim` */
  function Trim(s: string): (r: string)
    ensures IsTrimmed(r)
    ensures |r| <= |s|
    ensures IsTrimmed(s) ==> r == s
    ensures forall c :: c in r ==> c in s
  {
    TrimEnd(TrimStart(s))
  }

  /** `pat` occurs in `s` at position `i`. */
  predicate OccursAt(s: string, pat: string, i: int)
  {
    0 <= i && i + |pat| <= |s| && s[i..i + |pat|] == pat
  }

  /** `s.indexOf(pat, from)` for a non-negative `from`: the first occurrence at
      or after `from`, or -1. (For an empty `pat` and `from > |s|` Java answers
      `|s|`; no caller asks that.) */
  function IndexOf(s: string, pat: string, from: nat): (r: int)
    decreases |s| - from
    ensures r == -1 || (from <= r && OccursAt(s, pat, r))
    ensures r >= 0 ==> forall k :: from <= k < r ==> !OccursAt(s, pat, k)
    ensures r == -1 ==> forall k :: from <= k ==> !OccursAt(s, pat, k)
  {
    if from + |pat| > |s| then -1
    else if OccursAt(s, pat, from) then from
    else IndexOf(s, pat, from + 1)
  }

  /** `s.contains(pat)` */
  predicate Contains(s: string, pat: string)
  {
    IndexOf(s, pat, 0) >= 0
  }

  lemma ContainsWitness(s: string, pat: string, i: int)
    requires OccursAt(s, pat, i)
    ensures Contains(s, pat)
  {
  }

  /** `String.split(",")`: a string without a comma is its own single piece;
      otherwise the comma-separated pieces with trailing empty pieces removed. */
  function SplitOnComma(s: string): (r: seq<string>)
    ensures ',' !in s ==> r == [s]
    ensures forall k :: 0 <= k < |r| ==> ',' !in r[k]
    ensures |r| <= |SplitAll(s)| && r == SplitAll(s)[..|r|]
    ensures forall k :: |r| <= k < |SplitAll(s)| ==> SplitAll(s)[k] == ""
  {
    var parts := SplitAll(s);
    if |parts| == 1 then parts else DropTrailingEmpty(parts)
  }

  /** Every comma separates two pieces. */
  function SplitAll(s: string): (r: seq<string>)
    ensures |r| >= 1
    ensures ',' !in s ==> r == [s]
    ensures forall k :: 0 <= k < |r| ==> ',' !in r[k]
  {
    if s == [] then [""]
    else
      var rest := SplitAll(s[1..]);
      if s[0] == ',' then [""] + rest
      else
        assert ',' !in s ==> [s[0]] + s[1..] == s;
        [[s[0]] + rest[0]] + rest[1..]
  }

  /** `n` commas. */
  function Commas(n: nat): (r: string)
    ensures |r| == n && forall k :: 0 <= k < n ==> r[k] == ','
  {
    seq(n, _ => ',')
  }

  /** Joining the comma-separated pieces with commas gives the text back. */
  lemma {:induction false} SplitAllJoin(s: string)
    ensures JoinComma(SplitAll(s)) == s
  {
    if s != [] {
      var rest := SplitAll(s[1..]);
      SplitAllJoin(s[1..]);
      if s[0] == ',' {
        assert ([""] + rest)[1..] == rest;
      } else {
        var r := [[s[0]] + rest[0]] + rest[1..];
        assert r[1..] == rest[1..];
        if |rest| > 1 {
          assert JoinComma(rest) == rest[0] + "," + JoinComma(rest[1..]);
        }
      }
    }
  }

  /** Empty pieces at the end of a comma-join are trailing commas. */
  lemma {:induction false} JoinCommaTrailingEmpty(ps: seq<string>, m: nat)
    requires m <= |ps| && forall k :: m <= k < |ps| ==> ps[k] == ""
    ensures m >= 1 ==> JoinComma(ps) == JoinComma(ps[..m]) + Commas(|ps| - m)
    ensures m == 0 && ps != [] ==> JoinComma(ps) == Commas(|ps| - 1)
    decreases |ps|
  {
    if |ps| > m {
      var init := ps[..|ps| - 1];
      assert ps == init + [""];
      JoinCommaSnoc(init, "");
      JoinCommaTrailingEmpty(init, m);
      assert init[..m] == ps[..m];
      if init == [] {
        assert JoinComma(ps) == "" == Commas(0);
      } else if m >= 1 {
        assert JoinComma(ps) == JoinComma(ps[..m]) + Commas(|init| - m) + ",";
        assert Commas(|init| - m) + "," == Commas(|ps| - m);
      } else {
        assert JoinComma(ps) == Commas(|init| - 1) + ",";
        assert Commas(|init| - 1) + "," == Commas(|ps| - 1);
      }
    } else if m >= 1 {
      assert ps[..m] == ps;
      assert JoinComma(ps) + Commas(0) == JoinComma(ps);
    }
  }

  /** `String.split(",")` loses only trailing commas: the text is the comma-join
      of its pieces followed by nothing but commas. */
  lemma SplitOnCommaJoin(s: string)
    ensures var j := JoinComma(SplitOnComma(s));
            |j| <= |s| && s[..|j|] == j && forall k :: |j| <= k < |s| ==> s[k] == ','
  {
    var parts := SplitAll(s);
    var r := SplitOnComma(s);
    SplitAllJoin(s);
    JoinCommaTrailingEmpty(parts, |r|);
    if |r| >= 1 {
      assert parts[..|r|] == r;
      assert s == JoinComma(r) + Commas(|parts| - |r|);
    } else {
      assert s == Commas(|parts| - 1);
    }
  }

  function DropTrailingEmpty(ps: seq<string>): (r: seq<string>)
    ensures |r| <= |ps| && r == ps[..|r|]
    ensures r == [] || r[|r| - 1] != ""
    ensures forall k :: |r| <= k < |ps| ==> ps[k] == ""
  {
    if ps != [] && ps[|ps| - 1] == "" then DropTrailingEmpty(ps[..|ps| - 1]) else ps
  }

  // ---------------------------------------------------------------------------
  // Bracket nesting ('[' and ']')
  // ---------------------------------------------------------------------------

  function BracketDelta(c: char): int
  {
    if c == '[' then 1 else if c == ']' then -1 else 0
  }

  /** Number of '[' minus number of ']' in `t`. */
  function Nesting(t: string): int
  {
    if t == [] then 0 else Nesting(t[..|t| - 1]) + BracketDelta(t[|t| - 1])
  }

  /** Nesting of the text from `open` through `j`. */
  function NestingThrough(s: string, open: nat, j: nat): int
    requires open <= j < |s|
  {
    Nesting(s[open..j + 1])
  }

  /** Scan on from `k`, where the text from the '[' at `open` up to `k` has
      nesting `depth > 0`, for the position where the nesting drops to zero. */
  function CloseFrom(s: string, open: nat, k: nat, depth: int): (r: int)
    requires open < k <= |s| && depth > 0 && depth == Nesting(s[open..k])
    decreases |s| - k
    ensures r == -1 ==> forall j :: k <= j < |s| ==> NestingThrough(s, open, j) > 0
    ensures r != -1 ==> k <= r < |s| && s[r] == ']' && NestingThrough(s, open, r) == 0
                        && forall j :: k <= j < r ==> NestingThrough(s, open, j) > 0
  {
    if k == |s| then -1
    else
      assert s[open..k + 1] == s[open..k] + [s[k]];
      var d := depth + BracketDelta(s[k]);
      if d == 0 then k else CloseFrom(s, open, k + 1, d)
  }

  /** The position of the ']' that matches the '[' at `open`, or -1 if the
      brackets are still open at the end of `s`. */
  function MatchingClose(s: string, open: nat): (r: int)
    requires open < |s| && s[open] == '['
    ensures r == -1 ==> forall j :: open <= j < |s| ==> NestingThrough(s, open, j) > 0
    ensures r != -1 ==> open < r < |s| && s[r] == ']' && NestingThrough(s, open, r) == 0
                        && forall j :: open <= j < r ==> NestingThrough(s, open, j) > 0
  {
    assert s[open..open + 1] == [s[open]];
    assert Nesting(s[open..open + 1]) == 1 by {
      assert s[open..open + 1][..0] == [];
    }
    CloseFrom(s, open, open + 1, 1)
  }

  // ---------------------------------------------------------------------------
  // RecordingJson.field
  // ---------------------------------------------------------------------------

  function Quoted(key: string): string { "\"" + key + "\"" }

  /** First non-whitespace position at or after `i`. */
  function SkipWhitespace(s: string, i: nat): (e: nat)
    requires i <= |s|
    decreases |s| - i
    ensures i <= e <= |s|
    ensures forall k :: i <= k < e ==> IsWhitespace(s[k])
    ensures e < |s| ==> !IsWhitespace(s[e])
  {
    if i < |s| && IsWhitespace(s[i]) then SkipWhitespace(s, i + 1) else i
  }

  /** Where the value of `key` starts: after the first occurrence of `"key"`,
      the first ':' from there, then whitespace. None when either is missing. */
  function ValueStart(json: string, key: string): (r: Option<nat>)
    ensures r.None? <==> IndexOf(json, Quoted(key), 0) < 0
                         || IndexOf(json, ":", IndexOf(json, Quoted(key), 0)) < 0
    ensures r.Some? ==> r.value <= |json|
    ensures r.Some? ==>
              var i := IndexOf(json, Quoted(key), 0);
              var c := IndexOf(json, ":", i);
              0 <= i <= c < r.value && json[c] == ':'
              && (forall k :: i <= k < c ==> json[k] != ':')
              && (forall k :: c < k < r.value ==> IsWhitespace(json[k]))
              && (r.value < |json| ==> !IsWhitespace(json[r.value]))
  {
    var i := IndexOf(json, Quoted(key), 0);
    if i < 0 then None
    else
      var c := IndexOf(json, ":", i);
      if c < 0 then None
      else
        assert OccursAt(json, ":", c);
        assert json[c..c + 1] == ":";
        assert json[c] == json[c..c + 1][0];
        assert forall k :: i <= k < c ==> json[k] != ':' by {
          forall k | i <= k < c ensures json[k] != ':' {
            assert !OccursAt(json, ":", k);
            assert json[k..k + 1] == [json[k]];
          }
        }
        var e := SkipWhitespace(json, c + 1);
        Some(e)
  }

  /** The end of a non-array value: the first ',' or '}' at or after `e`, or the end. */
  function ScalarEnd(json: string, e: nat): (j: nat)
    requires e <= |json|
    ensures e <= j <= |json|
    ensures forall k :: e <= k < j ==> json[k] != ',' && json[k] != '}'
    ensures j < |json| ==> json[j] == ',' || json[j] == '}'
  {
    var comma := IndexOf(json, ",", e);
    var brace := IndexOf(json, "}", e);
    var j := if comma < 0 then brace else if brace < 0 then comma else if comma < brace then comma else brace;
    OccursAtChar(json, ',');
    OccursAtChar(json, '}');
    if j < 0 then |json| else j
  }

  lemma OccursAtChar(s: string, c: char)
    ensures forall k :: 0 <= k < |s| ==> (OccursAt(s, [c], k) <==> s[k] == c)
  {
    forall k | 0 <= k < |s|
      ensures OccursAt(s, [c], k) <==> s[k] == c
    {
      assert s[k..k + 1] == [s[k]];
    }
  }

  /** An array value: from its '[' through the depth-matched ']', or to the end of
      the text when the bracket is never closed; trimmed. */
  function ArrayValue(json: string, e: nat): (r: string)
    requires e < |json| && json[e] == '['
    ensures r != [] && r[0] == '[' && IsTrimmed(r)
    ensures MatchingClose(json, e) != -1 ==>
              r == json[e..MatchingClose(json, e) + 1] && Nesting(r) == 0
    ensures MatchingClose(json, e) == -1 ==> r == Trim(json[e..])
  {
    var m := MatchingClose(json, e);
    if m == -1 then
      var t := json[e..];
      assert t[0] == '[';
      var u := TrimStart(t);
      assert u == t;
      Trim(t)
    else
      var t := json[e..m + 1];
      assert t[0] == '[' && t[|t| - 1] == ']';
      assert IsTrimmed(t);
      Trim(t)
  }

  /** A scalar value: up to the first ',' or '}', trimmed. */
  function ScalarValue(json: string, e: nat): (r: string)
    requires e <= |json|
    ensures r == Trim(json[e..ScalarEnd(json, e)])
    ensures IsTrimmed(r) && ',' !in r && '}' !in r
  {
    var t := json[e..ScalarEnd(json, e)];
    assert forall c :: c in t ==> c != ',' && c != '}';
    Trim(t)
  }

  /** `RecordingJson.field`: the raw text of the value of `key` in `json`. */
  function Field(json: string, key: string): (r: Option<string>)
    ensures r.None? <==> ValueStart(json, key).None?
    ensures r.Some? ==> IsTrimmed(r.value)
    ensures r.Some? ==>
      var e := ValueStart(json, key).value;
      if e < |json| && json[e] == '[' then r.value == ArrayValue(json, e)
      else r.value == ScalarValue(json, e)
  {
    match ValueStart(json, key)
    case None => None
    case Some(e) =>
      if e < |json| && json[e] == '[' then Some(ArrayValue(json, e))
      else Some(ScalarValue(json, e))
  }

  // ---------------------------------------------------------------------------
  // RecordingJson.stripQuotes and parseDouble
  // ---------------------------------------------------------------------------

  /** `RecordingJson.stripQuotes`. A lone `"` makes Java evaluate `substring(1, 0)`,
      which throws. */
  function StripQuotes(s: Option<string>): (r: Try<Option<string>>)
    ensures s.None? ==> r == Ok(None)
    ensures s.Some? ==>
              var t := Trim(s.value);
              var quoted := |t| >= 1 && t[0] == '"' && t[|t| - 1] == '"';
              (t == "\"" ==> r == Thrown)
              && (r.Ok? ==> r.value.Some?)
              && (quoted && |t| >= 2 ==> r == Ok(Some(t[1..|t| - 1])))
              && (!quoted ==> r == Ok(Some(t)))
  {
    match s
    case None => Ok(None)
    case Some(v) => Unquote(Trim(v))
  }

  /** The quote removal of `stripQuotes` on text already trimmed. */
  function Unquote(t: string): (r: Try<Option<string>>)
    ensures t == "\"" ==> r == Thrown
    ensures r.Ok? ==> r.value.Some?
    ensures |t| >= 2 && t[0] == '"' && t[|t| - 1] == '"' ==> r == Ok(Some(t[1..|t| - 1]))
    ensures !(|t| >= 1 && t[0] == '"' && t[|t| - 1] == '"') ==> r == Ok(Some(t))
  {
    if |t| >= 1 && t[0] == '"' && t[|t| - 1] == '"' then
      if |t| == 1 then Thrown else Ok(Some(t[1..|t| - 1]))
    else Ok(Some(t))
  }

  /** Quoting a string and stripping the quotes gives the string back, whatever it holds. */
  lemma StripQuotesOfQuoted(x: string)
    ensures StripQuotes(Some(Quoted(x))) == Ok(Some(x))
  {
    var q := Quoted(x);
    assert q[0] == '"' && q[|q| - 1] == '"';
    assert Trim(q) == q;
    assert q[1..|q| - 1] == x;
  }

  /** `RecordingJson.parseDouble`. `num` is `Double.parseDouble` (None where it throws
      `NumberFormatException`); every failure reads as 0.0 and nothing escapes. */
  function ParseDouble(s: Option<string>, num: string -> Option<real>): (r: real)
    ensures s.None? ==> r == 0.0
    ensures r != 0.0 ==> exists t :: StripQuotes(s) == Ok(Some(t)) && num(t) == Some(r)
    ensures forall t :: StripQuotes(s) == Ok(Some(t)) && num(t).Some? ==> r == num(t).value
  {
    match StripQuotes(s)
    case Thrown => 0.0
    case Ok(None) => 0.0
    case Ok(Some(t)) => if num(t).Some? then num(t).value else 0.0
  }

  // ---------------------------------------------------------------------------
  // RecordingJson.splitTopLevel
  // ---------------------------------------------------------------------------

  function BraceDelta(c: char): int
  {
    if c == '{' then 1 else if c == '}' then -1 else 0
  }

  /** Number of '{' minus number of '}' in `t`. */
  function BraceNesting(t: string): int
  {
    if t == [] then 0 else BraceDelta(t[0]) + BraceNesting(t[1..])
  }

  /** `t` has no comma at brace depth zero when read from depth `d`. */
  predicate NoTopComma(t: string, d: int)
  {
    t == [] || ((t[0] == ',' ==> d != 0) && NoTopComma(t[1..], d + BraceDelta(t[0])))
  }

  /** The scan of `splitTopLevel` from brace depth `d`: every comma met at depth
      zero closes a piece; the text after the last such comma is the final piece. */
  function RawSplit(s: string, d: int): (r: seq<string>)
    ensures |r| >= 1
  {
    if s == [] then [""]
    else if s[0] == ',' && d == 0 then [""] + RawSplit(s[1..], 0)
    else
      var rest := RawSplit(s[1..], d + BraceDelta(s[0]));
      [[s[0]] + rest[0]] + rest[1..]
  }

  /** The pieces the Java loop collects: the final piece is added only when non-empty. */
  function Pieces(s: string): (r: seq<string>)
  {
    var raw := RawSplit(s, 0);
    if raw[|raw| - 1] == "" then raw[..|raw| - 1] else raw
  }

  function TrimAll(ps: seq<string>): (r: seq<string>)
    ensures |r| == |ps|
    ensures forall k :: 0 <= k < |r| ==> r[k] == Trim(ps[k])
  {
    if ps == [] then [] else [Trim(ps[0])] + TrimAll(ps[1..])
  }

  function KeepNonEmpty(ps: seq<string>): (r: seq<string>)
    ensures |r| <= |ps|
    ensures forall k :: 0 <= k < |r| ==> r[k] != "" && r[k] in ps
    ensures forall p :: p in ps && p != "" ==> p in r
  {
    if ps == [] then []
    else if ps[0] == "" then KeepNonEmpty(ps[1..])
    else [ps[0]] + KeepNonEmpty(ps[1..])
  }

  /** The filter keeps every non-empty piece as often as it occurs, and no empty one. */
  lemma {:induction false} KeepNonEmptyCounts(ps: seq<string>)
    ensures multiset(KeepNonEmpty(ps))[""] == 0
    ensures forall p :: p != "" ==> multiset(KeepNonEmpty(ps))[p] == multiset(ps)[p]
  {
    if ps != [] {
      KeepNonEmptyCounts(ps[1..]);
      assert ps == [ps[0]] + ps[1..];
    }
  }

  /** The filter keeps the order: filtering a concatenation filters each part. */
  lemma {:induction false} KeepNonEmptyConcat(a: seq<string>, b: seq<string>)
    ensures KeepNonEmpty(a + b) == KeepNonEmpty(a) + KeepNonEmpty(b)
  {
    if a != [] {
      assert (a + b)[0] == a[0] && (a + b)[1..] == a[1..] + b;
      KeepNonEmptyConcat(a[1..], b);
    } else {
      assert a + b == b;
    }
  }

  /** `RecordingJson.splitTopLevel`: the trimmed, non-empty pieces between the
      commas at brace depth zero. */
  function SplitTopLevel(arr: string): (r: seq<string>)
    ensures forall k :: 0 <= k < |r| ==> r[k] != "" && IsTrimmed(r[k])
  {
    KeepNonEmpty(TrimAll(Pieces(arr)))
  }

  /** `ps[0] + "," + ps[1] + ... + "," + ps[n-1]` */
  function JoinComma(ps: seq<string>): string
  {
    if ps == [] then "" else if |ps| == 1 then ps[0] else ps[0] + "," + JoinComma(ps[1..])
  }

  /** Appending one piece to a comma-join. */
  lemma {:induction false} JoinCommaSnoc(ps: seq<string>, p: string)
    ensures JoinComma(ps + [p]) == if ps == [] then p else JoinComma(ps) + "," + p
  {
    if |ps| > 1 {
      assert (ps + [p])[1..] == ps[1..] + [p];
      JoinCommaSnoc(ps[1..], p);
    } else if |ps| == 1 {
      assert (ps + [p])[1..] == [p];
    }
  }

  /** A piece that survives splitting unchanged: non-empty, already trimmed,
      brace-balanced and without a comma at its own top level. */
  predicate SplittablePiece(p: string)
  {
    p != "" && IsTrimmed(p) && BraceNesting(p) == 0 && NoTopComma(p, 0)
  }

  /** One step of the scan over a character that does not close a piece. */
  lemma RawSplitCons(c: char, t: string, d: int)
    requires !(c == ',' && d == 0)
    ensures RawSplit([c] + t, d) == [[c] + RawSplit(t, d + BraceDelta(c))[0]] + RawSplit(t, d + BraceDelta(c))[1..]
  {
    assert ([c] + t)[0] == c && ([c] + t)[1..] == t;
  }

  /** Scanning a prefix without a top-level comma extends the first piece. */
  lemma {:induction false} RawSplitPrefix(p: string, q: string, d: int)
    requires NoTopComma(p, d)
    ensures RawSplit(p + q, d) == [p + RawSplit(q, d + BraceNesting(p))[0]] + RawSplit(q, d + BraceNesting(p))[1..]
  {
    if p == [] {
      assert p + q == q;
      var R := RawSplit(q, d);
      assert p + R[0] == R[0];
      assert [R[0]] + R[1..] == R;
    } else {
      var c, p' := p[0], p[1..];
      assert p == [c] + p';
      assert p + q == [c] + (p' + q);
      RawSplitCons(c, p' + q, d);
      RawSplitPrefix(p', q, d + BraceDelta(c));
      assert BraceNesting(p) == BraceDelta(c) + BraceNesting(p');
      var R := RawSplit(q, d + BraceNesting(p));
      assert [c] + (p' + R[0]) == p + R[0];
    }
  }

  /** A splittable piece followed by a comma is split off whole. */
  lemma RawSplitPiece(p: string, rest: string)
    requires SplittablePiece(p)
    ensures RawSplit(p + ("," + rest), 0) == [p] + RawSplit(rest, 0)
  {
    RawSplitPrefix(p, "," + rest, 0);
    assert ("," + rest)[1..] == rest;
    var R := RawSplit("," + rest, 0);
    assert R == [""] + RawSplit(rest, 0);
    assert p + R[0] == p;
  }

  lemma {:induction false} RawSplitOfJoin(ps: seq<string>)
    requires ps != []
    requires forall k :: 0 <= k < |ps| ==> SplittablePiece(ps[k])
    ensures RawSplit(JoinComma(ps), 0) == ps
  {
    var p := ps[0];
    assert SplittablePiece(p);
    if |ps| == 1 {
      RawSplitPrefix(p, "", 0);
      assert p + "" == p;
    } else {
      var rest := JoinComma(ps[1..]);
      assert JoinComma(ps) == p + ("," + rest);
      RawSplitPiece(p, rest);
      RawSplitOfJoin(ps[1..]);
      assert [p] + ps[1..] == ps;
    }
  }

  lemma {:induction false} TrimAllIdentity(ps: seq<string>)
    requires forall k :: 0 <= k < |ps| ==> IsTrimmed(ps[k])
    ensures TrimAll(ps) == ps
  {
  }

  lemma {:induction false} KeepNonEmptyIdentity(ps: seq<string>)
    requires forall k :: 0 <= k < |ps| ==> ps[k] != ""
    ensures KeepNonEmpty(ps) == ps
  {
    if ps != [] {
      KeepNonEmptyIdentity(ps[1..]);
    }
  }

  /** Splitting the comma-join of splittable pieces gives the pieces back. */
  lemma SplitTopLevelOfJoin(ps: seq<string>)
    requires forall k :: 0 <= k < |ps| ==> SplittablePiece(ps[k])
    ensures SplitTopLevel(JoinComma(ps)) == ps
  {
    if ps == [] {
    } else {
      RawSplitOfJoin(ps);
      assert Pieces(JoinComma(ps)) == ps;
      TrimAllIdentity(ps);
      KeepNonEmptyIdentity(ps);
    }
  }

  // ---------------------------------------------------------------------------
  // RecordingJson.extractArray
  // ---------------------------------------------------------------------------

  /** `RecordingJson.extractArray`: the text strictly between the '[' at `startIdx`
      and its depth-matched ']'; "" when `startIdx` is past the end, is not a '[',
      or the bracket is never closed. */
  function ExtractArray(json: string, startIdx: nat): (r: string)
    ensures startIdx >= |json| || json[startIdx] != '[' ==> r == ""
    ensures startIdx < |json| && json[startIdx] == '[' ==>
      var m := MatchingClose(json, startIdx);
      (m == -1 ==> r == "") && (m != -1 ==> r == json[startIdx + 1..m])
  {
    if startIdx >= |json| || json[startIdx] != '[' then ""
    else
      var m := MatchingClose(json, startIdx);
      if m == -1 then "" else json[startIdx + 1..m]
  }

  /** The text between a '[' and its matching ']' is itself bracket-balanced. */
  lemma ExtractArrayBalanced(json: string, startIdx: nat)
    requires startIdx < |json| && json[startIdx] == '['
    requires MatchingClose(json, startIdx) != -1
    ensures Nesting(ExtractArray(json, startIdx)) == 0
  {
    var m := MatchingClose(json, startIdx);
    var inner := json[startIdx + 1..m];
    NestingConcat([json[startIdx]], inner + [json[m]]);
    NestingConcat(inner, [json[m]]);
    assert json[startIdx..m + 1] == [json[startIdx]] + (inner + [json[m]]);
  }

  lemma {:induction false} NestingConcat(a: string, b: string)
    ensures Nesting(a + b) == Nesting(a) + Nesting(b)
    decreases |b|
  {
    if b == [] {
      assert a + b == a;
    } else {
      var b' := b[..|b| - 1];
      assert (a + b)[..|a + b| - 1] == a + b';
      NestingConcat(a, b');
    }
  }
}
