/**
 * The handful of JavaScript string operations the pipeline relies on:
 * `trim`, `toUpperCase`, `split` on a single character, `split` on runs of
 * line breaks, and the decimal digit strings behind `Number`/`parseInt`.
 */
module Strings {
  import opened Wrappers

  // ---------------------------------------------------------------------------
  // String.prototype.trim
  // ---------------------------------------------------------------------------

  /** The characters `trim` removes: ECMAScript's WhiteSpace and LineTerminator code points. */
  predicate IsJsWhitespace(c: char) {
    c == '\t' || c == '\n' || c == '\U{B}' || c == '\U{C}' || c == '\r' || c == ' '
    || c == '\U{A0}' || c == '\U{1680}' || ('\U{2000}' <= c <= '\U{200A}')
    || c == '\U{2028}' || c == '\U{2029}' || c == '\U{202F}' || c == '\U{205F}'
    || c == '\U{3000}' || c == '\U{FEFF}'
  }

  predicate AllWhitespace(s: string) {
    forall i :: 0 <= i < |s| ==> IsJsWhitespace(s[i])
  }

  /** Neither end of `s` is whitespace. */
  predicate IsTrimmed(s: string) {
    s == [] || (!IsJsWhitespace(s[0]) && !IsJsWhitespace(s[|s| - 1]))
  }

  /** How many whitespace characters `s` starts with. */
  function LeadingWs(s: string): (n: nat)
    ensures n <= |s|
    ensures forall i :: 0 <= i < n ==> IsJsWhitespace(s[i])
    ensures n == |s| || !IsJsWhitespace(s[n])
  {
    if s != [] && IsJsWhitespace(s[0]) then 1 + LeadingWs(s[1..]) else 0
  }

  /** How many whitespace characters `s` ends with. */
  function TrailingWs(s: string): (n: nat)
    ensures n <= |s|
    ensures forall i :: |s| - n <= i < |s| ==> IsJsWhitespace(s[i])
    ensures n == |s| || !IsJsWhitespace(s[|s| - n - 1])
  {
    if s != [] && IsJsWhitespace(s[|s| - 1]) then 1 + TrailingWs(s[..|s| - 1]) else 0
  }

  /** Where the trailing whitespace of `s` starts: never inside its leading whitespace. */
  function TrimEndIndex(s: string): (j: nat)
    ensures LeadingWs(s) <= j <= |s|
    ensures forall k :: j <= k < |s| ==> IsJsWhitespace(s[k])
    ensures j == LeadingWs(s) || !IsJsWhitespace(s[j - 1])
  {
    var i := LeadingWs(s);
    var n := TrailingWs(s[i..]);
    assert forall k :: |s| - n <= k < |s| ==> s[k] == s[i..][k - i];
    |s| - n
  }

  /** `String.prototype.trim`: the slice of `s` between its leading and its trailing whitespace. */
  function Trim(s: string): (r: string)
    ensures IsTrimmed(r)
    ensures |r| <= |s| && r == s[LeadingWs(s)..TrimEndIndex(s)]
  {
    s[LeadingWs(s)..TrimEndIndex(s)]
  }

  /** Only a string made of whitespace trims to nothing. */
  lemma TrimEmpty(s: string)
    ensures Trim(s) == [] <==> AllWhitespace(s)
  {
  }

  /** The trimmed text is determined by the string: any split into whitespace, a trimmed middle
      and whitespace has `Trim` for its middle. */
  lemma TrimCharacterized(pre: string, mid: string, post: string)
    requires AllWhitespace(pre) && AllWhitespace(post) && IsTrimmed(mid)
    ensures Trim(pre + mid + post) == mid
  {
    var s := pre + mid + post;
    if mid == [] {
      assert s == pre + post;
      assert AllWhitespace(s);
      TrimEmpty(s);
    } else {
      LeadingWsOf(pre, mid + post);
      assert s == pre + (mid + post);
      assert s[|pre|..] == mid + post;
      TrailingWsOf(mid, post);
      assert s[|pre|..|s| - |post|] == mid;
    }
  }

  lemma {:induction false} LeadingWsOf(pre: string, rest: string)
    requires AllWhitespace(pre)
    requires rest == [] || !IsJsWhitespace(rest[0])
    ensures LeadingWs(pre + rest) == |pre|
  {
    if pre != [] {
      assert (pre + rest)[1..] == pre[1..] + rest;
      LeadingWsOf(pre[1..], rest);
    } else {
      assert pre + rest == rest;
    }
  }

  lemma {:induction false} TrailingWsOf(rest: string, post: string)
    requires AllWhitespace(post)
    requires rest == [] || !IsJsWhitespace(rest[|rest| - 1])
    ensures TrailingWs(rest + post) == |post|
  {
    if post != [] {
      assert (rest + post)[..|rest + post| - 1] == rest + post[..|post| - 1];
      TrailingWsOf(rest, post[..|post| - 1]);
    } else {
      assert rest + post == rest;
    }
  }

  /** Trimming twice trims no more than trimming once. */
  lemma TrimIdempotent(s: string)
    ensures Trim(Trim(s)) == Trim(s)
  {
    var m := Trim(s);
    assert [] + m + [] == m;
    TrimCharacterized([], m, []);
  }

  // ---------------------------------------------------------------------------
  // String.prototype.toUpperCase (ASCII letters)
  // ---------------------------------------------------------------------------

  predicate IsLowerAscii(c: char) {
    'a' <= c <= 'z'
  }

  function UpperChar(c: char): (u: char)
    ensures !IsLowerAscii(u)
    ensures IsLowerAscii(c) || u == c
  {
    if IsLowerAscii(c) then (c as int - 32) as char else c
  }

  /** `toUpperCase`, letter by letter. */
  function ToUpper(s: string): (r: string)
    ensures |r| == |s|
    ensures forall i :: 0 <= i < |r| ==> !IsLowerAscii(r[i])
    ensures forall i :: 0 <= i < |s| && IsLowerAscii(s[i]) ==> r[i] == (s[i] as int - 32) as char && 'A' <= r[i] <= 'Z'
    ensures forall i :: 0 <= i < |s| && !IsLowerAscii(s[i]) ==> r[i] == s[i]
    ensures IsTrimmed(s) ==> IsTrimmed(r)
  {
    seq(|s|, i requires 0 <= i < |s| => UpperChar(s[i]))
  }

  /** Upper-casing text that has no lower-case letters leaves it as it is. */
  lemma UpperOfUpper(s: string)
    requires forall i :: 0 <= i < |s| ==> !IsLowerAscii(s[i])
    ensures ToUpper(s) == s
  {
  }

  // ---------------------------------------------------------------------------
  // String.prototype.split on one character
  // ---------------------------------------------------------------------------

  function Count(s: string, c: char): nat {
    if s == [] then 0 else (if s[0] == c then 1 else 0) + Count(s[1..], c)
  }

  /** `s.split(sep)`: one more piece than there are separators, and no piece holds a separator. */
  function Split(s: string, sep: char): (r: seq<string>)
    ensures |r| == Count(s, sep) + 1
    ensures forall i :: 0 <= i < |r| ==> sep !in r[i]
  {
    if s == [] then [""]
    else
      var rest := Split(s[1..], sep);
      if s[0] == sep then [""] + rest else [[s[0]] + rest[0]] + rest[1..]
  }

  /** `parts.join(sep)`. */
  function Join(parts: seq<string>, sep: char): string
    requires |parts| >= 1
  {
    if |parts| == 1 then parts[0] else parts[0] + [sep] + Join(parts[1..], sep)
  }

  /** Joining the pieces with the separator gives back the string. */
  lemma {:induction false} JoinSplit(s: string, sep: char)
    ensures Join(Split(s, sep), sep) == s
  {
    if s != [] {
      var rest := Split(s[1..], sep);
      JoinSplit(s[1..], sep);
      if s[0] == sep {
        assert Split(s, sep)[1..] == rest;
      } else {
        var r := Split(s, sep);
        if |rest| == 1 {
          assert r == [[s[0]] + rest[0]];
        } else {
          assert r[1..] == rest[1..];
          assert Join(r, sep) == [s[0]] + rest[0] + [sep] + Join(rest[1..], sep);
        }
      }
    }
  }

  /** A prefix free of separators extends the first piece and leaves the others alone. */
  lemma {:induction false} SplitPrefix(a: string, b: string, sep: char)
    requires sep !in a
    ensures Split(a + b, sep) == [a + Split(b, sep)[0]] + Split(b, sep)[1..]
  {
    if a != [] {
      assert (a + b)[1..] == a[1..] + b;
      SplitPrefix(a[1..], b, sep);
      assert [a[0]] + (a[1..] + Split(b, sep)[0]) == a + Split(b, sep)[0];
    } else {
      assert a + b == b;
      assert Split(b, sep) == [Split(b, sep)[0]] + Split(b, sep)[1..];
      assert "" + Split(b, sep)[0] == Split(b, sep)[0];
    }
  }

  /** Splitting the joined pieces gives back the pieces, when none of them holds the separator. */
  lemma {:induction false} SplitJoin(parts: seq<string>, sep: char)
    requires |parts| >= 1
    requires forall i :: 0 <= i < |parts| ==> sep !in parts[i]
    ensures Split(Join(parts, sep), sep) == parts
  {
    if |parts| == 1 {
      SplitPrefix(parts[0], [], sep);
      assert parts[0] + [] == parts[0];
      assert Split([], sep) == [""];
      assert parts[0] + "" == parts[0];
    } else {
      var tail := Join(parts[1..], sep);
      SplitJoin(parts[1..], sep);
      assert parts[0] + [sep] + tail == parts[0] + ([sep] + tail);
      SplitPrefix(parts[0], [sep] + tail, sep);
      assert ([sep] + tail)[1..] == tail;
      assert Split([sep] + tail, sep) == [""] + Split(tail, sep);
      assert parts[0] + "" == parts[0];
      assert [parts[0]] + parts[1..] == parts;
    }
  }

  /** The first piece is the text before the first separator. */
  lemma {:induction false} SplitFirst(s: string, sep: char, i: nat)
    requires i <= |s| && sep !in s[..i] && (i == |s| || s[i] == sep)
    ensures Split(s, sep)[0] == s[..i]
    ensures i == |s| ==> Split(s, sep) == [s]
  {
    assert s == s[..i] + s[i..];
    SplitPrefix(s[..i], s[i..], sep);
    if i < |s| {
      assert s[i..][0] == sep;
    }
  }

  /** Cutting at the first separator: the text before it, then the pieces of the text after it. */
  lemma SplitAtFirst(s: string, sep: char, i: nat)
    requires i < |s| && s[i] == sep && sep !in s[..i]
    ensures Split(s, sep) == [s[..i]] + Split(s[i + 1..], sep)
  {
    assert s == s[..i] + s[i..];
    SplitPrefix(s[..i], s[i..], sep);
    assert s[i..][1..] == s[i + 1..];
    assert Split(s[i..], sep) == [""] + Split(s[i + 1..], sep);
    assert s[..i] + "" == s[..i];
  }

  // ---------------------------------------------------------------------------
  // String.prototype.split(/[\r\n]+/)
  // ---------------------------------------------------------------------------

  predicate IsLineBreak(c: char) {
    c == '\r' || c == '\n'
  }

  predicate NoLineBreak(s: string) {
    forall i :: 0 <= i < |s| ==> !IsLineBreak(s[i])
  }

  /** `s.split(/[\r\n]+/)`: every maximal run of CR/LF characters separates two pieces. */
  function SplitLineRuns(s: string): (r: seq<string>)
    ensures |r| >= 1
    ensures forall i :: 0 <= i < |r| ==> NoLineBreak(r[i])
  {
    if s == [] then [""]
    else
      var rest := SplitLineRuns(s[1..]);
      if IsLineBreak(s[0]) then
        (if |s| > 1 && IsLineBreak(s[1]) then rest else [""] + rest)
      else [[s[0]] + rest[0]] + rest[1..]
  }

  /** The first piece is empty exactly when the text is empty or starts with a line break. */
  lemma {:induction false} LineRunsFirst(s: string)
    ensures SplitLineRuns(s)[0] == "" <==> (s == [] || IsLineBreak(s[0]))
  {
    if |s| > 1 && IsLineBreak(s[0]) && IsLineBreak(s[1]) {
      LineRunsFirst(s[1..]);
    }
  }

  /** A single piece means there was no line break at all. */
  lemma {:induction false} LineRunsSingle(s: string)
    ensures |SplitLineRuns(s)| == 1 ==> NoLineBreak(s)
  {
    if s != [] {
      LineRunsSingle(s[1..]);
    }
  }

  /** The last piece is empty exactly when the text is empty or ends with a line break. */
  lemma {:induction false} LineRunsLast(s: string)
    ensures var r := SplitLineRuns(s); r[|r| - 1] == "" <==> (s == [] || IsLineBreak(s[|s| - 1]))
  {
    if s != [] {
      var rest := SplitLineRuns(s[1..]);
      LineRunsLast(s[1..]);
      LineRunsSingle(s[1..]);
      if |s| > 1 {
        assert s[1..][|s| - 2] == s[|s| - 1];
      }
    }
  }

  /** Every piece between the first and the last is non-empty: runs of breaks are never split. */
  lemma {:induction false} LineRunsInterior(s: string)
    ensures forall i :: 0 < i < |SplitLineRuns(s)| - 1 ==> SplitLineRuns(s)[i] != ""
  {
    if s != [] {
      var rest := SplitLineRuns(s[1..]);
      LineRunsInterior(s[1..]);
      var r := SplitLineRuns(s);
      if IsLineBreak(s[0]) {
        if !(|s| > 1 && IsLineBreak(s[1])) && |s| > 1 {
          LineRunsFirst(s[1..]);
          assert forall i :: 0 < i < |r| ==> r[i] == rest[i - 1];
        }
      } else {
        assert r == [[s[0]] + rest[0]] + rest[1..];
        forall i | 0 < i < |r| - 1 ensures r[i] != "" {
          assert r[i] == rest[i];
          assert 0 < i < |rest| - 1;
        }
      }
    }
  }

  /** A non-empty text that neither starts nor ends with a line break has no empty piece. */
  lemma LineRunsNonEmpty(s: string)
    requires s != [] && !IsLineBreak(s[0]) && !IsLineBreak(s[|s| - 1])
    ensures forall i :: 0 <= i < |SplitLineRuns(s)| ==> SplitLineRuns(s)[i] != ""
  {
    LineRunsFirst(s);
    LineRunsLast(s);
    LineRunsInterior(s);
  }

  /** Text without line breaks is a single piece. */
  lemma {:induction false} LineRunsOfLine(s: string)
    requires NoLineBreak(s)
    ensures SplitLineRuns(s) == [s]
  {
    if s != [] {
      LineRunsOfLine(s[1..]);
      assert [s[0]] + s[1..] == s;
    }
  }

  /** A line followed by one line break: the line is the first piece, and the pieces of what
      follows come after it. */
  lemma {:induction false} LineRunsCons(a: string, b: string)
    requires NoLineBreak(a) && (b == [] || !IsLineBreak(b[0]))
    ensures SplitLineRuns(a + "\n" + b) == [a] + SplitLineRuns(b)
  {
    var s := a + "\n" + b;
    if a == [] {
      assert s == "\n" + b && s[1..] == b;
    } else {
      assert s[1..] == a[1..] + "\n" + b;
      LineRunsCons(a[1..], b);
      assert [a[0]] + a[1..] == a;
    }
  }

  function Concat(parts: seq<string>): string {
    if parts == [] then [] else parts[0] + Concat(parts[1..])
  }

  function RemoveLineBreaks(s: string): string {
    if s == [] then [] else (if IsLineBreak(s[0]) then [] else [s[0]]) + RemoveLineBreaks(s[1..])
  }

  /** Nothing but the line breaks is lost: the pieces are the text with its breaks cut out. */
  lemma {:induction false} LineRunsContent(s: string)
    ensures Concat(SplitLineRuns(s)) == RemoveLineBreaks(s)
  {
    if s != [] {
      var rest := SplitLineRuns(s[1..]);
      LineRunsContent(s[1..]);
      if IsLineBreak(s[0]) {
        if !(|s| > 1 && IsLineBreak(s[1])) {
          assert Concat([""] + rest) == "" + Concat(rest);
          assert ([""] + rest)[1..] == rest;
        }
      } else {
        var r := SplitLineRuns(s);
        assert r[1..] == rest[1..];
        assert Concat(rest) == rest[0] + Concat(rest[1..]);
      }
    }
  }

  // ---------------------------------------------------------------------------
  // Decimal digit strings
  // ---------------------------------------------------------------------------

  /** `\d` in a JavaScript regular expression without the `u` flag. */
  predicate IsDigit(c: char) {
    '0' <= c <= '9'
  }

  predicate AllDigits(s: string) {
    forall i :: 0 <= i < |s| ==> IsDigit(s[i])
  }

  /** `^\d+$`. */
  predicate IsDigits(s: string) {
    |s| > 0 && AllDigits(s)
  }

  function DigitValue(c: char): (d: nat)
    requires IsDigit(c)
    ensures d < 10
  {
    c as int - '0' as int
  }

  function DigitChar(d: nat): (c: char)
    requires d < 10
    ensures IsDigit(c) && DigitValue(c) == d
  {
    ('0' as int + d) as char
  }

  /** The value of a decimal numeral, as `parseInt(s, 10)` and `Number(s)` read it. */
  function DigitsValue(s: string): nat
    requires AllDigits(s)
  {
    if s == [] then 0 else DigitsValue(s[..|s| - 1]) * 10 + DigitValue(s[|s| - 1])
  }

  /** The decimal numeral of `n` (JavaScript's `n.toString()` for a non-negative integer). */
  function NatToString(n: nat): (r: string)
    ensures IsDigits(r)
    ensures n == 0 <==> r == "0"
    ensures n > 0 ==> r[0] != '0'
  {
    if n < 10 then [DigitChar(n)] else NatToString(n / 10) + [DigitChar(n % 10)]
  }

  /** Reading back a printed number gives the number. */
  lemma {:induction false} DigitsRoundTrip(n: nat)
    ensures DigitsValue(NatToString(n)) == n
  {
    if n >= 10 {
      var s := NatToString(n);
      DigitsRoundTrip(n / 10);
      assert s[..|s| - 1] == NatToString(n / 10);
    }
  }

  /** `Number(s) || 0` for the values this model admits: a decimal numeral reads as its value;
      the empty string (`Number("") == 0`), a missing value and any other text (NaN) give 0. */
  function NumberOrZero(s: Option<string>): (n: nat)
    ensures s.Some? && IsDigits(s.value) ==> n == DigitsValue(s.value)
    ensures s.None? || !IsDigits(s.value) ==> n == 0
  {
    if s.Some? && IsDigits(s.value) then DigitsValue(s.value) else 0
  }

  /** `n.toString()` for an integer: a minus sign before the numeral of a negative number. */
  function IntToString(n: int): (r: string)
    ensures |r| > 0
    ensures n >= 0 ==> IsDigits(r) && DigitsValue(r) == n
    ensures n < 0 ==> r[0] == '-' && IsDigits(r[1..]) && DigitsValue(r[1..]) == -n
    ensures n >= 0 ==> (r == "0" || r[0] != '0')
    ensures n < 0 ==> |r| > 1 && r[1] != '0'
  {
    if n < 0 then
      DigitsRoundTrip(-n);
      assert ("-" + NatToString(-n))[1..] == NatToString(-n);
      "-" + NatToString(-n)
    else
      DigitsRoundTrip(n);
      NatToString(n)
  }
}
