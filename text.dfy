/**
 * String rules shared by the client and the server: the whitespace trims of
 * JavaScript's `trim()` and Python's `strip()`, case-insensitive matching, joining,
 * and decimal printing and parsing of integers.
 *
 * Lower-casing is ASCII-only: it stands for `toLowerCase()` and for the database's
 * case folding in `icontains`, whose Unicode tables are not part of this model.
 */
module Text {
  import opened Wrappers

  // ---------------------------------------------------------------- whitespace

  /** Whose whitespace a trim removes: JavaScript's `trim()` or Python's `strip()`. */
  datatype Whitespace = JsWhitespace | PyWhitespace

  /** ASCII whitespace: space, tab, line feed, vertical tab, form feed and carriage return
      for both; Python's `str.isspace` also counts the separators U+001C to U+001F. */
  predicate IsSpace(w: Whitespace, c: char) {
    c == ' ' || c == '\t' || c == '\n' || c == '\U{0B}' || c == '\U{0C}' || c == '\r'
    || (w == PyWhitespace && '\U{1C}' <= c <= '\U{1F}')
  }

  /** True when every character of `s` is whitespace, i.e. the trimmed string is the falsy
      `''`. */
  predicate IsBlank(w: Whitespace, s: string) {
    forall i :: 0 <= i < |s| ==> IsSpace(w, s[i])
  }

  /** The length of the leading whitespace of `s`. */
  function LeadingBlanks(w: Whitespace, s: string): (k: nat)
    ensures k <= |s|
    ensures forall i :: 0 <= i < k ==> IsSpace(w, s[i])
    ensures k < |s| ==> !IsSpace(w, s[k])
  {
    if s == [] || !IsSpace(w, s[0]) then 0 else 1 + LeadingBlanks(w, s[1..])
  }

  /** Where the trailing whitespace of `s` begins. */
  function ContentEnd(w: Whitespace, s: string): (k: nat)
    ensures k <= |s|
    ensures forall i :: k <= i < |s| ==> IsSpace(w, s[i])
    ensures k > 0 ==> !IsSpace(w, s[k - 1])
  {
    if s == [] || !IsSpace(w, s[|s| - 1]) then |s| else ContentEnd(w, s[..|s| - 1])
  }

  /** Removes leading and trailing whitespace: it is empty exactly when `s` is blank, and
      otherwise it is the part of `s` between the leading and the trailing whitespace,
      which starts and ends with a non-blank character. */
  function Trim(w: Whitespace, s: string): (r: string)
    ensures r == [] <==> IsBlank(w, s)
    ensures r != [] ==> LeadingBlanks(w, s) < ContentEnd(w, s) && r == s[LeadingBlanks(w, s)..ContentEnd(w, s)]
    ensures r != [] ==> !IsSpace(w, r[0]) && !IsSpace(w, r[|r| - 1])
  {
    var a := LeadingBlanks(w, s);
    var b := ContentEnd(w, s);
    if a < b then
      assert s[a..b][0] == s[a];
      s[a..b]
    else
      []
  }

  // ---------------------------------------------------------------- case

  function LowerChar(c: char): (r: char)
    ensures 'A' <= c <= 'Z' ==> 'a' <= r <= 'z'
    ensures !('A' <= c <= 'Z') ==> r == c
  {
    if 'A' <= c <= 'Z' then (c as int - 'A' as int + 'a' as int) as char else c
  }

  /** ASCII lower-casing, character by character. */
  function Lower(s: string): (r: string)
    ensures |r| == |s|
    ensures forall i :: 0 <= i < |s| ==> r[i] == LowerChar(s[i])
  {
    seq(|s|, i requires 0 <= i < |s| => LowerChar(s[i]))
  }

  // ---------------------------------------------------------------- matching

  /** `s.startsWith(p)`. */
  predicate StartsWith(s: string, p: string) {
    |p| <= |s| && s[..|p|] == p
  }

  /** `s.includes(t)`, Python's `t in s`: `t` occurs in `s` at some offset. */
  predicate Contains(s: string, t: string) {
    exists i | 0 <= i <= |s| :: StartsWith(s[i..], t)
  }

  /** Case-insensitive containment (`icontains`, `a.toLowerCase().includes(b.toLowerCase())`). */
  predicate IContains(s: string, t: string) {
    Contains(Lower(s), Lower(t))
  }

  predicate IStartsWith(s: string, p: string) {
    StartsWith(Lower(s), Lower(p))
  }

  predicate IEquals(a: string, b: string) {
    Lower(a) == Lower(b)
  }

  /** Exact case-insensitive equality implies a prefix match, which implies containment. */
  lemma MatchTiers(s: string, t: string)
    ensures IEquals(s, t) ==> IStartsWith(s, t)
    ensures IStartsWith(s, t) ==> IContains(s, t)
  {
    if IStartsWith(s, t) { assert StartsWith(Lower(s)[0..], Lower(t)); }
  }

  // ---------------------------------------------------------------- joining

  /** `parts.join(sep)`. */
  function Join(parts: seq<string>, sep: string): (r: string)
    ensures parts == [] ==> r == ""
    ensures |parts| == 1 ==> r == parts[0]
    ensures |parts| >= 1 ==> StartsWith(r, parts[0])
  {
    if |parts| == 0 then ""
    else if |parts| == 1 then parts[0]
    else
      var rest := Join(parts[1..], sep);
      assert (parts[0] + sep + rest)[..|parts[0]|] == parts[0];
      parts[0] + sep + rest
  }

  /** `s.split(c)` for a one-character separator: the pieces between the occurrences of
      `c`, so there is always at least one piece. */
  function Split(s: string, c: char): (r: seq<string>)
    ensures |r| >= 1
  {
    if |s| == 0 then [""]
    else
      var tail := Split(s[1..], c);
      if s[0] == c then [""] + tail else [[s[0]] + tail[0]] + tail[1..]
  }

  /** A piece without the separator splits into itself. */
  lemma {:induction false} SplitPlain(p: string, c: char)
    requires c !in p
    ensures Split(p, c) == [p]
  {
    if |p| > 0 {
      assert c !in p[1..];
      SplitPlain(p[1..], c);
      assert [p[0]] + p[1..] == p;
    }
  }

  /** A separator-free piece followed by the separator splits off as the first piece. */
  lemma {:induction false} SplitAfter(p: string, c: char, rest: string)
    requires c !in p
    ensures Split(p + [c] + rest, c) == [p] + Split(rest, c)
  {
    var s := p + [c] + rest;
    if |p| == 0 {
      assert s[0] == c && s[1..] == rest;
    } else {
      assert s[0] == p[0] && s[1..] == p[1..] + [c] + rest;
      assert c !in p[1..];
      SplitAfter(p[1..], c, rest);
      assert [p[0]] + p[1..] == p;
    }
  }

  /** Joining separator-free parts with a one-character separator is undone by splitting
      at it, so the comma-joined filter values keep every value. */
  lemma {:induction false} SplitJoin(parts: seq<string>, c: char)
    requires |parts| >= 1
    requires forall i :: 0 <= i < |parts| ==> c !in parts[i]
    ensures Split(Join(parts, [c]), c) == parts
  {
    if |parts| == 1 {
      SplitPlain(parts[0], c);
    } else {
      SplitJoin(parts[1..], c);
      SplitAfter(parts[0], c, Join(parts[1..], [c]));
      assert [parts[0]] + parts[1..] == parts;
    }
  }

  // ---------------------------------------------------------------- decimal integers

  predicate IsDigit(c: char) {
    '0' <= c <= '9'
  }

  predicate AllDigits(s: string) {
    forall i :: 0 <= i < |s| ==> IsDigit(s[i])
  }

  function DigitChar(d: nat): (c: char)
    requires d < 10
    ensures IsDigit(c) && c as int - '0' as int == d
  {
    ('0' as int + d) as char
  }

  /** The value of a string of decimal digits, most significant first. */
  function DigitsValue(s: string): nat
    requires AllDigits(s)
  {
    if s == [] then 0 else DigitsValue(s[..|s| - 1]) * 10 + (s[|s| - 1] as int - '0' as int)
  }

  /** Decimal digits of a natural number, without leading zeros. */
  function NatToString(n: nat): (r: string)
    ensures |r| >= 1 && AllDigits(r)
    ensures |r| > 1 ==> r[0] != '0'
  {
    if n < 10 then [DigitChar(n)] else NatToString(n / 10) + [DigitChar(n % 10)]
  }

  /** `n.toString()` / Python's `str(n)` for an integer. */
  function IntToString(n: int): (r: string)
    ensures |r| >= 1
    ensures n < 0 <==> r[0] == '-'
  {
    if n < 0 then "-" + NatToString(-n) else NatToString(n)
  }

  /** The text Python's `int(s)` accepts here: a non-empty run of ASCII digits, with an
      optional `-` or `+` before it. */
  predicate IsIntText(s: string) {
    (|s| >= 1 && AllDigits(s)) || (|s| >= 2 && (s[0] == '-' || s[0] == '+') && AllDigits(s[1..]))
  }

  /** Python's `int(s)` on an optionally signed run of ASCII digits; `None` where `int`
      raises `ValueError`. */
  function ParseInt(s: string): (r: Option<int>)
    ensures r.Some? <==> IsIntText(s)
    ensures |s| >= 1 && AllDigits(s) ==> r == Some(DigitsValue(s))
    ensures |s| >= 2 && s[0] == '-' && AllDigits(s[1..]) ==> r == Some(-(DigitsValue(s[1..]) as int))
    ensures |s| >= 2 && s[0] == '+' && AllDigits(s[1..]) ==> r == Some(DigitsValue(s[1..]))
  {
    if |s| >= 2 && s[0] == '-' && AllDigits(s[1..]) then Some(-(DigitsValue(s[1..]) as int))
    else if |s| >= 2 && s[0] == '+' && AllDigits(s[1..]) then Some(DigitsValue(s[1..]))
    else if |s| >= 1 && AllDigits(s) then Some(DigitsValue(s))
    else None
  }

  lemma {:induction false} NatToStringValue(n: nat)
    ensures DigitsValue(NatToString(n)) == n
  {
    if n >= 10 {
      var r := NatToString(n);
      NatToStringValue(n / 10);
      assert r[..|r| - 1] == NatToString(n / 10);
    }
  }

  /** Printing an integer and parsing it back gives the same integer. */
  lemma IntToStringRoundTrip(n: int)
    ensures ParseInt(IntToString(n)) == Some(n)
  {
    if n < 0 {
      NatToStringValue(-n);
      assert IntToString(n)[1..] == NatToString(-n);
    } else {
      NatToStringValue(n);
    }
  }
}
