/** The pieces of JavaScript's built-in string behaviour the backend and the
    pages rely on: white space as `\s` and `trim` see it, truthiness of a
    string field, `split` on one character, number-to-text conversion in a
    template literal, and `parseInt` with its radix inference. */
module JsText {
  import opened Wrappers

  /** White space and line terminators in ECMAScript: exactly the characters
      `\s` matches and `String.prototype.trim` removes. */
  predicate IsSpace(c: char) {
    || c == '\t' || c == '\n' || c == '\U{0B}' || c == '\U{0C}' || c == '\r' || c == ' '
    || c == '\U{A0}' || c == '\U{1680}' || ('\U{2000}' <= c <= '\U{200A}')
    || c == '\U{2028}' || c == '\U{2029}' || c == '\U{202F}' || c == '\U{205F}'
    || c == '\U{3000}' || c == '\U{FEFF}'
  }

  /** Every character of `s` is white space (the empty string included). */
  predicate AllSpace(s: string) {
    forall i :: 0 <= i < |s| ==> IsSpace(s[i])
  }

  /** No character of `s` is white space. */
  predicate NoSpace(s: string) {
    forall i :: 0 <= i < |s| ==> !IsSpace(s[i])
  }

  function TrimStart(s: string): (t: string)
    ensures |t| <= |s|
    ensures t == [] || !IsSpace(t[0])
    ensures AllSpace(s[..|s| - |t|])
  {
    if s == [] || !IsSpace(s[0]) then s else TrimStart(s[1..])
  }

  /** What `TrimStart` keeps is a suffix of its input. */
  lemma {:induction false} TrimStartSuffix(s: string)
    ensures TrimStart(s) == s[|s| - |TrimStart(s)|..]
  {
    if s != [] && IsSpace(s[0]) {
      TrimStartSuffix(s[1..]);
    }
  }

  function TrimEnd(s: string): (t: string)
    ensures |t| <= |s| && t == s[..|t|]
    ensures t == [] || !IsSpace(t[|t| - 1])
  {
    if s == [] || !IsSpace(s[|s| - 1]) then s else TrimEnd(s[..|s| - 1])
  }

  /** `String.prototype.trim`: white space removed from both ends. */
  function Trim(s: string): string {
    TrimEnd(TrimStart(s))
  }

  /** `!s.trim()`: the trimmed text is the empty string. */
  predicate IsBlank(s: string) {
    Trim(s) == []
  }

  /** A string is blank exactly when it consists of white space only. */
  lemma {:induction false} BlankIffAllSpace(s: string)
    ensures IsBlank(s) <==> AllSpace(s)
  {
    var t := TrimStart(s);
    TrimStartSuffix(s);
    if AllSpace(s) {
      TrimStartAllSpace(s);
    } else {
      var k :| 0 <= k < |s| && !IsSpace(s[k]);
      assert |s| - |t| <= k;
      assert t != [] && t[k - (|s| - |t|)] == s[k];
      assert TrimEnd(t) != [] by { TrimEndKeepsNonSpace(t, k - (|s| - |t|)); }
    }
  }

  lemma {:induction false} TrimStartAllSpace(s: string)
    requires AllSpace(s)
    ensures TrimStart(s) == []
  {
    if s != [] {
      TrimStartAllSpace(s[1..]);
    }
  }

  lemma {:induction false} TrimEndKeepsNonSpace(t: string, k: nat)
    requires k < |t| && !IsSpace(t[k])
    ensures k < |TrimEnd(t)|
  {
    if !IsSpace(t[|t| - 1]) {
    } else {
      assert k < |t| - 1;
      TrimEndKeepsNonSpace(t[..|t| - 1], k);
    }
  }

  /** JavaScript truthiness of a request field that is a string or absent:
      `undefined`, `null` and `''` are falsy. */
  predicate Truthy(v: Option<string>) {
    v.Some? && v.value != []
  }

  /** `v || null` for a field stored in a nullable column: an absent or
      empty value is stored as NULL. */
  function OrNull(v: Option<string>): (r: Option<string>)
    ensures r.None? <==> !Truthy(v)
    ensures r.Some? ==> r == v
  {
    if Truthy(v) then v else None
  }

  /** `String.prototype.toLowerCase`, on the ASCII letters. */
  function LowerChar(c: char): (d: char)
    ensures 'A' <= c <= 'Z' ==> d != c && 'a' <= d <= 'z'
    ensures !('A' <= c <= 'Z') ==> d == c
  {
    if 'A' <= c <= 'Z' then (c as int - 'A' as int + 'a' as int) as char else c
  }

  function Lower(s: string): (t: string)
    ensures |t| == |s|
    ensures forall i :: 0 <= i < |s| ==> t[i] == LowerChar(s[i])
  {
    seq(|s|, i requires 0 <= i < |s| => LowerChar(s[i]))
  }

  /** Text without capitals is its own lower case. */
  lemma LowerNoCapitals(s: string)
    requires forall i :: 0 <= i < |s| ==> !('A' <= s[i] <= 'Z')
    ensures Lower(s) == s
  {
  }

  // ---- String.prototype.split with a one-character separator ----

  function IndexOf(s: string, c: char): (i: nat)
    requires c in s
    ensures i < |s| && s[i] == c && c !in s[..i]
  {
    if s[0] == c then 0 else 1 + IndexOf(s[1..], c)
  }

  /** `s.split(sep)`: the maximal separator-free pieces, in order; there is
      always at least one, and `''.split(' ')` is `['']`. */
  function Split(s: string, sep: char): (parts: seq<string>)
    ensures |parts| >= 1
    ensures forall i :: 0 <= i < |parts| ==> sep !in parts[i]
    decreases |s|
  {
    if sep !in s then [s]
    else
      var i := IndexOf(s, sep);
      [s[..i]] + Split(s[i + 1..], sep)
  }

  /** `parts.join(sep)`. */
  function Join(parts: seq<string>, sep: string): string {
    if parts == [] then []
    else if |parts| == 1 then parts[0]
    else parts[0] + sep + Join(parts[1..], sep)
  }

  /** Splitting loses nothing: joining the pieces with the separator restores
      the text. */
  lemma {:induction false} JoinSplit(s: string, sep: char)
    ensures Join(Split(s, sep), [sep]) == s
    decreases |s|
  {
    if sep in s {
      var i := IndexOf(s, sep);
      var rest := Split(s[i + 1..], sep);
      JoinSplit(s[i + 1..], sep);
      assert Split(s, sep)[1..] == rest;
      assert Join(Split(s, sep), [sep]) == s[..i] + [sep] + Join(rest, [sep]);
      assert s == s[..i] + [sep] + s[i + 1..];
    }
  }

  /** A word with no separator, the separator, then the rest: the first
      separator is the one after the word. */
  lemma {:induction false} IndexOfAfterWord(w: string, sep: char, x: string)
    requires sep !in w
    ensures sep in w + [sep] + x && IndexOf(w + [sep] + x, sep) == |w|
    decreases |w|
  {
    var s := w + [sep] + x;
    assert s[|w|] == sep;
    if w != [] {
      assert s[1..] == w[1..] + [sep] + x;
      IndexOfAfterWord(w[1..], sep, x);
    }
  }

  /** The first piece of a split ends at the first separator, and the second
      runs from there to the next one. */
  lemma SplitFirstTwo(s: string, sep: char)
    ensures sep !in s ==> Split(s, sep) == [s]
    ensures sep in s ==>
      (&& |Split(s, sep)| >= 2
       && Split(s, sep)[0] == s[..IndexOf(s, sep)]
       && Split(s, sep)[1] == Split(s[IndexOf(s, sep) + 1..], sep)[0])
  {
  }

  // ---- decimal text of numbers ----

  predicate IsDigit(c: char) {
    '0' <= c <= '9'
  }

  predicate AllDigits(s: string) {
    forall i :: 0 <= i < |s| ==> IsDigit(s[i])
  }

  function DigitChar(d: nat): (c: char)
    requires d < 10
    ensures IsDigit(c)
  {
    ('0' as int + d) as char
  }

  /** The digits of `n` in base ten, as `${n}` writes a non-negative integer. */
  function Dec(n: nat): (s: string)
    ensures |s| >= 1 && AllDigits(s)
    ensures n >= 1 ==> s[0] != '0'
  {
    if n < 10 then [DigitChar(n)] else Dec(n / 10) + [DigitChar(n % 10)]
  }

  /** The value of a digit in base 16 or lower, or 16 for any other character. */
  function DigitValue(c: char): (v: nat)
    ensures v <= 16
    ensures IsDigit(c) ==> v == c as int - '0' as int
  {
    if '0' <= c <= '9' then c as int - '0' as int
    else if 'a' <= c <= 'f' then c as int - 'a' as int + 10
    else if 'A' <= c <= 'F' then c as int - 'A' as int + 10
    else 16
  }

  predicate IsRadixDigit(c: char, radix: nat) {
    DigitValue(c) < radix
  }

  /** The value of a run of digits in the given radix. */
  function RadixValue(s: string, radix: nat): nat {
    if s == [] then 0
    else RadixValue(s[..|s| - 1], radix) * radix + DigitValue(s[|s| - 1])
  }

  /** Reading back the decimal text of a number gives the number. */
  lemma {:induction false} DecRoundTrip(n: nat)
    ensures RadixValue(Dec(n), 10) == n
  {
    if n >= 10 {
      DecRoundTrip(n / 10);
      var s := Dec(n);
      assert s[..|s| - 1] == Dec(n / 10);
    }
  }

  /** The longest prefix of `s` made of digits of the radix. */
  function DigitPrefix(s: string, radix: nat): (p: string)
    ensures |p| <= |s| && forall i :: 0 <= i < |p| ==> p[i] == s[i]
    ensures forall i :: 0 <= i < |p| ==> IsRadixDigit(p[i], radix)
    ensures |p| < |s| ==> !IsRadixDigit(s[|p|], radix)
  {
    if s == [] || !IsRadixDigit(s[0], radix) then [] else [s[0]] + DigitPrefix(s[1..], radix)
  }

  /** `parseInt(s)` with no radix: leading white space skipped, an optional
      sign, radix 16 after `0x` or `0X` and 10 otherwise, then the longest run
      of digits; `NaN` (here `None`) when that run is empty. */
  function ParseInt(s: string): Option<int> {
    var t := TrimStart(s);
    var negative := |t| > 0 && t[0] == '-';
    var u := if |t| > 0 && (t[0] == '-' || t[0] == '+') then t[1..] else t;
    var hex := |u| >= 2 && u[0] == '0' && (u[1] == 'x' || u[1] == 'X');
    var radix := if hex then 16 else 10;
    var digits := DigitPrefix(if hex then u[2..] else u, radix);
    if digits == [] then None
    else
      var m: int := RadixValue(digits, radix);
      Some(if negative then -m else m)
  }

  lemma {:induction false} DigitPrefixOfDigits(d: string, rest: string)
    requires AllDigits(d)
    requires rest == [] || !IsDigit(rest[0])
    ensures DigitPrefix(d + rest, 10) == d
    decreases |d|
  {
    if d == [] {
      if rest != [] {
        assert DigitValue(rest[0]) >= 10;
      }
    } else {
      assert (d + rest)[1..] == d[1..] + rest;
      DigitPrefixOfDigits(d[1..], rest);
    }
  }

  /** `parseInt` reads back a number's decimal text, also when other text that
      does not start with a digit follows it (`parseInt('2abc')` is 2); only
      `0x`, `0X` would switch to radix 16. */
  lemma ParseIntDec(n: nat, rest: string)
    requires rest == [] || (!IsDigit(rest[0]) && rest[0] != 'x' && rest[0] != 'X')
    ensures ParseInt(Dec(n) + rest) == Some(n)
  {
    var s := Dec(n) + rest;
    assert s[0] == Dec(n)[0];
    assert TrimStart(s) == s;
    if |Dec(n)| == 1 {
      assert |s| >= 2 ==> s[1] == rest[0];
    } else {
      assert s[1] == Dec(n)[1];
    }
    DigitPrefixOfDigits(Dec(n), rest);
    DecRoundTrip(n);
  }

  /** Text with no digits at all is `NaN` to `parseInt`. */
  lemma ParseIntNoDigits(s: string)
    requires forall i :: 0 <= i < |s| ==> DigitValue(s[i]) >= 10
    ensures ParseInt(s) == None
  {
    var t := TrimStart(s);
    TrimStartSuffix(s);
    var u := if |t| > 0 && (t[0] == '-' || t[0] == '+') then t[1..] else t;
    assert forall i :: 0 <= i < |u| ==> DigitValue(u[i]) >= 10 by {
      forall i | 0 <= i < |u| ensures DigitValue(u[i]) >= 10 {
        assert u[i] == s[|s| - |u| + i];
      }
    }
  }
  // ---- decodeURIComponent ----

  /** The upper-case hexadecimal digit for `d`. */
  function HexChar(d: nat): (c: char)
    requires d < 16
    ensures IsRadixDigit(c, 16) && DigitValue(c) == d
  {
    if d < 10 then DigitChar(d) else ('A' as int + d - 10) as char
  }

  /** Percent-decoding as `decodeURIComponent` does it for ASCII escapes:
      every `%` followed by two hexadecimal digits becomes the character with
      that code, every other character stays, and a `%` without two
      hexadecimal digits after it is a `URIError` (`None`). Escapes above
      `0x7F` are decoded one by one here, not as UTF-8 sequences. */
  function DecodeUriComponent(s: string): (r: Option<string>)
    ensures '%' !in s ==> r == Some(s)
    ensures r.Some? ==> |r.value| <= |s|
    decreases |s|
  {
    if s == [] then Some([])
    else if s[0] != '%' then
      match DecodeUriComponent(s[1..])
      case None => None
      case Some(t) =>
        assert s == [s[0]] + s[1..];
        Some([s[0]] + t)
    else if |s| < 3 || !IsRadixDigit(s[1], 16) || !IsRadixDigit(s[2], 16) then None
    else
      match DecodeUriComponent(s[3..])
      case None => None
      case Some(t) => Some([(DigitValue(s[1]) * 16 + DigitValue(s[2])) as char] + t)
  }

  /** `%XX`, the escape `encodeURIComponent` writes for an ASCII character. */
  function Escape(c: char): (e: string)
    requires c as int < 0x80
  {
    ['%', HexChar(c as int / 16), HexChar(c as int % 16)]
  }

  predicate Ascii(s: string) {
    forall i :: 0 <= i < |s| ==> s[i] as int < 0x80
  }

  /** Every character of the text escaped. */
  function EscapeAll(s: string): (e: string)
    requires Ascii(s)
    ensures |e| == 3 * |s|
  {
    if s == [] then [] else Escape(s[0]) + EscapeAll(s[1..])
  }

  /** An escape in front of a text decodes to its character in front of the
      text's decoding. */
  lemma DecodeEscapeFront(c: char, rest: string)
    requires c as int < 0x80
    ensures DecodeUriComponent(Escape(c) + rest)
         == (match DecodeUriComponent(rest) case None => None case Some(t) => Some([c] + t))
  {
    var e := Escape(c) + rest;
    assert e[3..] == rest;
    assert (DigitValue(e[1]) * 16 + DigitValue(e[2])) as char == c;
  }

  /** Decoding undoes escaping, character by character. */
  lemma {:induction false} DecodeEscapeAll(s: string)
    requires Ascii(s)
    ensures DecodeUriComponent(EscapeAll(s)) == Some(s)
  {
    if s != [] {
      DecodeEscapeAll(s[1..]);
      DecodeEscapeFront(s[0], EscapeAll(s[1..]));
      assert s == [s[0]] + s[1..];
    }
  }
}
