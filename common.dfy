/** Shared vocabulary of the model: optional values, JavaScript string semantics that
    the handlers and pages rely on (truthiness, the `\s` class, `trim`, `.length` in
    UTF-16 code units), a lexicographic order on timestamps, and HTTP responses. */
module Common {

  datatype Option<+T> = None | Some(value: T)

  /** A value taken from a request body, a header or the environment: `None` stands for
      `undefined` or `null`. JavaScript's `!v` is true exactly when `v` is not truthy. */
  predicate Truthy(v: Option<string>) {
    v.Some? && v.value != ""
  }

  /** The ECMAScript WhiteSpace and LineTerminator code points: the regular-expression
      class `\s`, and the characters `String.prototype.trim` removes. */
  predicate IsWhitespace(c: char) {
    InRanges(c as int, WhitespaceRanges)
  }

  /** Those code points as inclusive ranges. */
  const WhitespaceRanges: seq<(int, int)> := [
    (0x09, 0x0D), (0x20, 0x20), (0xA0, 0xA0), (0x1680, 0x1680), (0x2000, 0x200A),
    (0x2028, 0x2029), (0x202F, 0x202F), (0x205F, 0x205F), (0x3000, 0x3000), (0xFEFF, 0xFEFF)]

  predicate InRanges(n: int, ranges: seq<(int, int)>) {
    ranges != [] && (ranges[0].0 <= n <= ranges[0].1 || InRanges(n, ranges[1..]))
  }

  lemma {:induction false} OutsideRanges(n: int, ranges: seq<(int, int)>)
    requires forall i :: 0 <= i < |ranges| ==> n < ranges[i].0 || ranges[i].1 < n
    ensures !InRanges(n, ranges)
  {
    if ranges != [] {
      OutsideRanges(n, ranges[1..]);
    }
  }

  /** The visible ASCII characters are not whitespace. */
  lemma VisibleAsciiNotWhitespace(c: char)
    requires '!' <= c <= '~'
    ensures !IsWhitespace(c)
  {
    OutsideRanges(c as int, WhitespaceRanges);
  }

  predicate AllWhitespace(s: string) {
    forall i :: 0 <= i < |s| ==> IsWhitespace(s[i])
  }

  /** The number of leading characters of `s` in the class `ws`. */
  function LeadingRun(s: string, ws: char -> bool): (n: nat)
    ensures n <= |s|
  {
    if s != [] && ws(s[0]) then 1 + LeadingRun(s[1..], ws) else 0
  }

  /** The leading run is in the class, and the character after it is not. */
  lemma {:induction false} LeadingRunStrips(s: string, ws: char -> bool)
    ensures forall i :: 0 <= i < LeadingRun(s, ws) ==> ws(s[i])
    ensures LeadingRun(s, ws) < |s| ==> !ws(s[LeadingRun(s, ws)])
  {
    if s != [] && ws(s[0]) {
      LeadingRunStrips(s[1..], ws);
      assert forall i :: 1 <= i < |s| ==> s[i] == s[1..][i - 1];
    }
  }

  /** The number of trailing characters of `s` in the class `ws`. */
  function TrailingRun(s: string, ws: char -> bool): (n: nat)
    ensures n <= |s|
  {
    if s != [] && ws(s[|s| - 1]) then 1 + TrailingRun(s[..|s| - 1], ws) else 0
  }

  /** The trailing run is in the class, and the character before it is not. */
  lemma {:induction false} TrailingRunStrips(s: string, ws: char -> bool)
    ensures forall i :: |s| - TrailingRun(s, ws) <= i < |s| ==> ws(s[i])
    ensures TrailingRun(s, ws) < |s| ==> !ws(s[|s| - TrailingRun(s, ws) - 1])
  {
    if s != [] && ws(s[|s| - 1]) {
      TrailingRunStrips(s[..|s| - 1], ws);
      assert forall i :: 0 <= i < |s| - 1 ==> s[i] == s[..|s| - 1][i];
    }
  }

  /** `s` without its leading characters of the class `ws`. */
  function TrimStart(s: string, ws: char -> bool): string {
    s[LeadingRun(s, ws)..]
  }

  /** `s` without its trailing characters of the class `ws`. */
  function TrimEnd(s: string, ws: char -> bool): string {
    s[..|s| - TrailingRun(s, ws)]
  }

  /** `String.prototype.trim`. */
  function Trim(s: string): string {
    TrimEnd(TrimStart(s, IsWhitespace), IsWhitespace)
  }

  /** Trimming removes only surrounding whitespace: the result is the part of the input
      between a whitespace-only prefix and a whitespace-only suffix. */
  lemma TrimShape(s: string)
    ensures var k := LeadingRun(s, IsWhitespace);
      k + |Trim(s)| <= |s| && Trim(s) == s[k..k + |Trim(s)|] &&
      AllWhitespace(s[..k]) && AllWhitespace(s[k + |Trim(s)|..])
  {
    var k := LeadingRun(s, IsWhitespace);
    var t := s[k..];
    var m := TrailingRun(t, IsWhitespace);
    LeadingRunStrips(s, IsWhitespace);
    TrailingRunStrips(t, IsWhitespace);
    assert Trim(s) == s[k..|s| - m];
    WhitespaceBetween(s, 0, k);
    assert forall i :: |s| - m <= i < |s| ==> s[i] == t[i - k];
    WhitespaceBetween(s, |s| - m, |s|);
  }

  /** A run of whitespace characters, taken as a slice, is whitespace only. */
  lemma WhitespaceBetween(s: string, lo: int, hi: int)
    requires 0 <= lo <= hi <= |s| && forall i :: lo <= i < hi ==> IsWhitespace(s[i])
    ensures AllWhitespace(s[lo..hi])
  {
    forall i | 0 <= i < hi - lo ensures IsWhitespace(s[lo..hi][i]) {
      assert s[lo..hi][i] == s[lo + i];
    }
  }

  /** A trimmed text neither starts nor ends with whitespace. */
  lemma TrimEnds(s: string)
    ensures Trim(s) != [] ==> !IsWhitespace(Trim(s)[0]) && !IsWhitespace(Trim(s)[|Trim(s)| - 1])
  {
    var k := LeadingRun(s, IsWhitespace);
    var t := s[k..];
    var m := TrailingRun(t, IsWhitespace);
    LeadingRunStrips(s, IsWhitespace);
    TrailingRunStrips(t, IsWhitespace);
    if Trim(s) != [] {
      assert Trim(s)[0] == s[k];
      assert Trim(s)[|Trim(s)| - 1] == t[|t| - m - 1];
    }
  }

  /** The trimmed text is empty exactly when the input is empty or whitespace only. */
  lemma TrimEmptyIff(s: string)
    ensures Trim(s) == "" <==> AllWhitespace(s)
  {
    var k := LeadingRun(s, IsWhitespace);
    var t := s[k..];
    LeadingRunStrips(s, IsWhitespace);
    TrailingRunStrips(t, IsWhitespace);
    if Trim(s) == "" {
      if k < |s| {
        assert false;
      }
    } else {
      assert Trim(s)[0] == s[k];
    }
  }

  /** Trimming twice is trimming once. */
  lemma TrimIdempotent(s: string)
    ensures Trim(Trim(s)) == Trim(s)
  {
    var r := Trim(s);
    if r != [] {
      TrimEnds(s);
      assert LeadingRun(r, IsWhitespace) == 0;
      assert TrailingRun(r, IsWhitespace) == 0;
    }
  }

  /** Length of `s` in UTF-16 code units, which is what JavaScript's `.length` counts:
      a code point above U+FFFF takes two units. */
  function Utf16Length(s: string): (n: nat)
    ensures |s| <= n <= 2 * |s|
  {
    if s == [] then 0 else (if s[0] as int > 0xFFFF then 2 else 1) + Utf16Length(s[1..])
  }

  /** A string of Basic Multilingual Plane characters has as many UTF-16 units as code points. */
  lemma {:induction false} Utf16LengthBmp(s: string)
    requires forall i :: 0 <= i < |s| ==> s[i] as int <= 0xFFFF
    ensures Utf16Length(s) == |s|
  {
    if s != [] {
      Utf16LengthBmp(s[1..]);
    }
  }

  /** A string of characters outside the Basic Multilingual Plane has twice as many UTF-16
      units as code points. */
  lemma {:induction false} Utf16LengthAstral(s: string)
    requires forall i :: 0 <= i < |s| ==> s[i] as int > 0xFFFF
    ensures Utf16Length(s) == 2 * |s|
  {
    if s != [] {
      Utf16LengthAstral(s[1..]);
    }
  }

  /** Code-unit order of two strings, the order of ISO-8601 timestamps written in one
      format (`YYYY-MM-DDTHH:MM:SS.sssZ`): `a` is not later than `b`. */
  predicate LexLe(a: string, b: string)
    decreases |a|
  {
    if a == [] then true
    else if b == [] then false
    else if a[0] != b[0] then a[0] < b[0]
    else LexLe(a[1..], b[1..])
  }

  /** What an API route answers: an HTTP status code and a JSON body, either
      `{ error: message }` or the route's own success payload. */
  datatype Body<+T> = Error(message: string) | Data(value: T)
  datatype Response<+T> = Response(status: int, body: Body<T>)

  /** The answer every route gives to a request with the wrong HTTP method. */
  function MethodNotAllowed<T>(): Response<T> {
    Response(405, Error("Method not allowed"))
  }

  /** What a store query yields: its error message, or the rows in the order it returns them. */
  datatype Query<+T> = QueryFails(message: string) | Rows(rows: seq<T>)

  /** The first `n` elements of `s` (a query's `.limit(n)`). */
  function Take<T>(s: seq<T>, n: nat): (r: seq<T>)
    ensures |r| <= n && r <= s
    ensures |r| == if |s| <= n then |s| else n
    ensures |s| <= n ==> r == s
  {
    if |s| <= n then s else s[..n]
  }
}
