/**
 * The JavaScript string built-ins that the application code relies on:
 * `String.prototype.trim`, `parseInt(_, 10)`, the decimal form of a
 * non-negative integer Number, `split`/`join` with a one-character
 * separator, UTF-16 length and truthiness of an optional string.
 */
module JsText {
  import opened Wrappers

  /** ECMAScript WhiteSpace and LineTerminator code points: what `trim` and `parseInt` skip. */
  predicate IsJsWhiteSpace(c: char) {
    || c == '\t' || c == '\n' || c == '\U{0B}' || c == '\U{0C}' || c == '\r' || c == ' '
    || c == '\U{A0}' || c == '\U{1680}' || ('\U{2000}' <= c <= '\U{200A}')
    || c == '\U{2028}' || c == '\U{2029}' || c == '\U{202F}' || c == '\U{205F}'
    || c == '\U{3000}' || c == '\U{FEFF}'
  }

  /** A JavaScript value that is a string or `undefined` is truthy iff it is a non-empty string. */
  predicate Truthy(v: Option<string>) {
    v.Some? && v.value != ""
  }

  function TrimStart(s: string): (r: string)
    ensures |r| <= |s| && r == s[|s| - |r|..]
    ensures r == [] || !IsJsWhiteSpace(r[0])
  {
    if s != [] && IsJsWhiteSpace(s[0]) then TrimStart(s[1..]) else s
  }

  function TrimEnd(s: string): (r: string)
    ensures |r| <= |s| && r == s[..|r|]
    ensures r == [] || !IsJsWhiteSpace(r[|r| - 1])
  {
    if s != [] && IsJsWhiteSpace(s[|s| - 1]) then TrimEnd(s[..|s| - 1]) else s
  }

  /** `String.prototype.trim`: the longest infix that neither starts nor ends with white space. */
  function Trim(s: string): (r: string)
    ensures |r| <= |s|
    ensures var start := |s| - |TrimStart(s)|; start + |r| <= |s| && r == s[start..start + |r|]
    ensures r == [] || (!IsJsWhiteSpace(r[0]) && !IsJsWhiteSpace(r[|r| - 1]))
  {
    TrimEnd(TrimStart(s))
  }

  /** Trimming twice is trimming once. */
  lemma TrimIdempotent(s: string)
    ensures Trim(Trim(s)) == Trim(s)
  {
    var r := Trim(s);
    assert TrimStart(r) == r;
    assert TrimEnd(r) == r;
  }

  predicate IsDigit(c: char) {
    '0' <= c <= '9'
  }

  function DigitValue(c: char): nat
    requires IsDigit(c)
  {
    c as int - '0' as int
  }

  function DigitChar(d: nat): (c: char)
    requires d < 10
    ensures IsDigit(c) && DigitValue(c) == d
  {
    ('0' as int + d) as char
  }

  /** Length of the longest prefix of decimal digits. */
  function DigitPrefixLength(s: string): (n: nat)
    ensures n <= |s|
    ensures forall i :: 0 <= i < n ==> IsDigit(s[i])
    ensures n == |s| || !IsDigit(s[n])
  {
    if s != [] && IsDigit(s[0]) then 1 + DigitPrefixLength(s[1..]) else 0
  }

  /** The value of a string of decimal digits, most significant first. */
  function DecimalValue(ds: string): nat
    requires forall i :: 0 <= i < |ds| ==> IsDigit(ds[i])
  {
    if ds == [] then 0 else DecimalValue(ds[..|ds| - 1]) * 10 + DigitValue(ds[|ds| - 1])
  }

  /**
   * `parseInt(s, 10)`: skip leading white space, read an optional sign and the longest
   * run of decimal digits; `None` stands for NaN (no digit at all).
   */
  function ParseInt(s: string): Option<int> {
    var t := TrimStart(s);
    var negative := t != [] && t[0] == '-';
    var body := if t != [] && (t[0] == '-' || t[0] == '+') then t[1..] else t;
    var n := DigitPrefixLength(body);
    if n == 0 then None
    else
      var magnitude: int := DecimalValue(body[..n]);
      Some(if negative then -magnitude else magnitude)
  }

  /** The decimal text of a non-negative integer Number (no sign, no leading zero). */
  function DecimalString(n: nat): (r: string)
    ensures r != [] && (forall i :: 0 <= i < |r| ==> IsDigit(r[i]))
    ensures |r| > 1 ==> r[0] != '0'
  {
    if n < 10 then [DigitChar(n)] else DecimalString(n / 10) + [DigitChar(n % 10)]
  }

  lemma {:induction false} DecimalRoundTrip(n: nat)
    ensures DecimalValue(DecimalString(n)) == n
  {
    if n >= 10 {
      var ds := DecimalString(n);
      assert ds[..|ds| - 1] == DecimalString(n / 10);
      DecimalRoundTrip(n / 10);
    }
  }

  /** `parseInt` reads a run of decimal digits, with or without a minus sign, back as its value. */
  lemma ParseIntOfDecimal(ds: string)
    requires ds != [] && forall i :: 0 <= i < |ds| ==> IsDigit(ds[i])
    ensures ParseInt(ds) == Some(DecimalValue(ds))
    ensures ParseInt("-" + ds) == Some(-(DecimalValue(ds) as int))
  {
    ParseIntOfDigits(ds);
    MinusPrefix(ds);
    ParseIntOfNegative(ds, "-" + ds);
  }

  lemma MinusPrefix(ds: string)
    ensures ("-" + ds) != [] && ("-" + ds)[0] == '-' && ("-" + ds)[1..] == ds
  {
  }

  lemma ParseIntOfDigits(ds: string)
    requires ds != [] && forall i :: 0 <= i < |ds| ==> IsDigit(ds[i])
    ensures ParseInt(ds) == Some(DecimalValue(ds))
  {
    NoLeadingSpace(ds);
    assert IsDigit(ds[0]) && ds[0] != '-' && ds[0] != '+';
    AllDigitsPrefix(ds);
  }

  lemma ParseIntOfNegative(ds: string, neg: string)
    requires ds != [] && forall i :: 0 <= i < |ds| ==> IsDigit(ds[i])
    requires neg != [] && neg[0] == '-' && neg[1..] == ds
    ensures ParseInt(neg) == Some(-(DecimalValue(ds) as int))
  {
    NoLeadingSpace(neg);
    AllDigitsPrefix(ds);
    assert ds[..|ds|] == ds;
  }

  /** A text that does not start with white space and has no digit after its optional sign. */
  predicate NoLeadingNumber(t: string) {
    t == [] || (!IsJsWhiteSpace(t[0]) && (if t[0] == '-' || t[0] == '+' then |t| == 1 || !IsDigit(t[1]) else !IsDigit(t[0])))
  }

  /** `parseInt` of a text with no number at its start is NaN. */
  lemma ParseIntNaN(t: string)
    requires NoLeadingNumber(t)
    ensures ParseInt(t).None?
  {
    if t != [] {
      assert TrimStart(t) == t;
      var body := if t[0] == '-' || t[0] == '+' then t[1..] else t;
      assert body == [] || !IsDigit(body[0]);
    }
  }

  lemma NoLeadingSpace(s: string)
    requires s != [] && (IsDigit(s[0]) || s[0] == '-')
    ensures TrimStart(s) == s
  {
  }

  lemma AllDigitsPrefix(ds: string)
    requires forall i :: 0 <= i < |ds| ==> IsDigit(ds[i])
    ensures DigitPrefixLength(ds) == |ds| && ds[..|ds|] == ds
  {
  }

  /** `s.split(sep)` for a one-character separator: the pieces between separators. */
  function Split(s: string, sep: char): (parts: seq<string>)
    ensures |parts| >= 1
    ensures forall i :: 0 <= i < |parts| ==> sep !in parts[i]
  {
    if sep !in s then [s]
    else
      var i := IndexOf(s, sep);
      [s[..i]] + Split(s[i + 1..], sep)
  }

  function IndexOf(s: string, c: char): (i: nat)
    requires c in s
    ensures i < |s| && s[i] == c && c !in s[..i]
  {
    if s[0] == c then 0 else 1 + IndexOf(s[1..], c)
  }

  lemma {:induction false} IndexOfAfter(a: string, c: char, b: string)
    requires c !in a
    ensures c in a + [c] + b && IndexOf(a + [c] + b, c) == |a|
  {
    if a != [] {
      assert (a + [c] + b)[1..] == a[1..] + [c] + b;
      IndexOfAfter(a[1..], c, b);
    }
  }

  /** `parts.join(sep)`. */
  function Join(parts: seq<string>, sep: string): string {
    if parts == [] then ""
    else if |parts| == 1 then parts[0]
    else parts[0] + sep + Join(parts[1..], sep)
  }

  /** Splitting a join on a separator that occurs in no part gives the parts back. */
  lemma {:induction false} SplitJoin(parts: seq<string>, sep: char)
    requires |parts| >= 1
    requires forall i :: 0 <= i < |parts| ==> sep !in parts[i]
    ensures Split(Join(parts, [sep]), sep) == parts
  {
    if |parts| > 1 {
      var rest := Join(parts[1..], [sep]);
      SplitStep(parts[0], sep, rest);
      assert forall i :: 0 <= i < |parts[1..]| ==> sep !in parts[1..][i] by {
        forall i | 0 <= i < |parts[1..]| ensures sep !in parts[1..][i] {
          assert parts[1..][i] == parts[i + 1];
        }
      }
      SplitJoin(parts[1..], sep);
      assert parts == [parts[0]] + parts[1..];
    }
  }

  /** Split stops at the first separator. */
  lemma SplitStep(a: string, c: char, b: string)
    requires c !in a
    ensures Split(a + [c] + b, c) == [a] + Split(b, c)
  {
    var s := a + [c] + b;
    IndexOfAfter(a, c, b);
    assert s[..|a|] == a;
    assert s[|a| + 1..] == b;
  }

  /** s with every `c` replaced by `d`. */
  function ReplaceChar(s: string, c: char, d: char): (r: string)
    ensures |r| == |s|
    ensures forall k :: 0 <= k < |s| ==> r[k] == if s[k] == c then d else s[k]
  {
    seq(|s|, k requires 0 <= k < |s| => if s[k] == c then d else s[k])
  }

  /** `s.split(c).join(d)` replaces every `c` by `d`. */
  lemma {:induction false} JoinSplit(s: string, c: char, d: char)
    ensures Join(Split(s, c), [d]) == ReplaceChar(s, c, d)
    decreases |s|
  {
    if c !in s {
      assert ReplaceChar(s, c, d) == s;
    } else {
      var i := IndexOf(s, c);
      var tail := s[i + 1..];
      JoinSplit(tail, c, d);
      var parts := Split(s, c);
      assert parts == [s[..i]] + Split(tail, c);
      assert parts[1..] == Split(tail, c);
      assert Join(parts, [d]) == s[..i] + [d] + Join(Split(tail, c), [d]);
      ReplaceAround(s, i, c, d);
    }
  }

  lemma ReplaceAround(s: string, i: nat, c: char, d: char)
    requires i < |s| && s[i] == c && c !in s[..i]
    ensures ReplaceChar(s, c, d) == s[..i] + [d] + ReplaceChar(s[i + 1..], c, d)
  {
    var r := s[..i] + [d] + ReplaceChar(s[i + 1..], c, d);
    forall k | 0 <= k < |s| ensures ReplaceChar(s, c, d)[k] == r[k] {
      if k < i {
        assert s[..i][k] == s[k];
      } else if k > i {
        assert s[i + 1..][k - i - 1] == s[k];
      }
    }
  }

  /** A character that is not in s is in none of its pieces. */
  lemma {:induction false} SplitKeepsOut(s: string, sep: char, c: char)
    requires c !in s
    ensures forall i :: 0 <= i < |Split(s, sep)| ==> c !in Split(s, sep)[i]
    decreases |s|
  {
    if sep in s {
      var i := IndexOf(s, sep);
      assert c !in s[..i] by { forall k | 0 <= k < i ensures s[..i][k] != c { assert s[..i][k] == s[k]; } }
      var t := s[i + 1..];
      assert c !in t by { forall k | 0 <= k < |t| ensures t[k] != c { assert t[k] == s[i + 1 + k]; } }
      SplitKeepsOut(s[i + 1..], sep, c);
    }
  }

  /** `s.length`: UTF-16 code units, so characters beyond the Basic Multilingual Plane count twice. */
  function Utf16Length(s: string): (n: nat)
    ensures |s| <= n <= 2 * |s|
  {
    if s == [] then 0 else (if s[0] as int > 0xFFFF then 2 else 1) + Utf16Length(s[1..])
  }
}
