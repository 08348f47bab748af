/**
 * The JavaScript string operations the core relies on, over `seq<char>`:
 * `startsWith`, `indexOf`, `replace` with a string pattern (first occurrence only), a
 * global single-character replace, `join`, ASCII `toLowerCase`, and decimal and
 * hexadecimal renderings of naturals.
 */
module JsString {
  import opened Wrappers

  predicate StartsWith(s: string, prefix: string) {
    |prefix| <= |s| && s[..|prefix|] == prefix
  }

  predicate EndsWith(s: string, suffix: string) {
    |suffix| <= |s| && s[|s| - |suffix|..] == suffix
  }

  /** `pattern` occurs in `s` starting at index k. */
  predicate OccursAt(s: string, pattern: string, k: int) {
    0 <= k && k + |pattern| <= |s| && s[k..k + |pattern|] == pattern
  }

  /** The first occurrence of `pattern` at or after k, or -1. */
  function IndexFrom(s: string, pattern: string, k: nat): (r: int)
    ensures r == -1 <==> forall j :: k <= j ==> !OccursAt(s, pattern, j)
    ensures r != -1 ==> k <= r && OccursAt(s, pattern, r) && forall j :: k <= j < r ==> !OccursAt(s, pattern, j)
    decreases |s| - k
  {
    if k + |pattern| > |s| then -1
    else if s[k..k + |pattern|] == pattern then assert OccursAt(s, pattern, k); k
    else IndexFrom(s, pattern, k + 1)
  }

  /** `s.indexOf(pattern)`. */
  function IndexOf(s: string, pattern: string): (r: int)
    ensures r == -1 <==> forall j :: !OccursAt(s, pattern, j)
    ensures r != -1 ==> OccursAt(s, pattern, r) && forall j :: 0 <= j < r ==> !OccursAt(s, pattern, j)
  {
    IndexFrom(s, pattern, 0)
  }

  /** `s.indexOf(p) === 0` is `s.startsWith(p)`. */
  lemma IndexOfZeroIsPrefix(s: string, pattern: string)
    ensures IndexOf(s, pattern) == 0 <==> StartsWith(s, pattern)
  {
    if StartsWith(s, pattern) {
      assert OccursAt(s, pattern, 0);
    }
  }

  /** `s.replace(pattern, replacement)` with a string pattern: only the first occurrence. */
  function ReplaceFirst(s: string, pattern: string, replacement: string): (r: string)
    ensures IndexOf(s, pattern) == -1 ==> r == s
    ensures IndexOf(s, pattern) != -1 ==>
      var k := IndexOf(s, pattern);
      r == s[..k] + replacement + s[k + |pattern|..]
  {
    var k := IndexOf(s, pattern);
    if k == -1 then s else s[..k] + replacement + s[k + |pattern|..]
  }

  /** Removing a leading occurrence: when `s` starts with the pattern, the rest of `s`. */
  lemma ReplaceFirstPrefix(s: string, pattern: string)
    requires StartsWith(s, pattern)
    ensures ReplaceFirst(s, pattern, "") == s[|pattern|..]
  {
    IndexOfZeroIsPrefix(s, pattern);
  }

  /** `s.replace(/c/g, d)`: every occurrence of one character replaced by another. */
  function ReplaceAllChar(s: string, c: char, d: char): (r: string)
    ensures |r| == |s|
    ensures forall i :: 0 <= i < |s| ==> r[i] == (if s[i] == c then d else s[i])
  {
    if |s| == 0 then "" else [if s[0] == c then d else s[0]] + ReplaceAllChar(s[1..], c, d)
  }

  /** `parts.join(separator)`. */
  function Join(parts: seq<string>, separator: string): string {
    if |parts| == 0 then ""
    else if |parts| == 1 then parts[0]
    else parts[0] + separator + Join(parts[1..], separator)
  }

  /** Joining one more part appends the separator and that part. */
  lemma {:induction false} JoinAppend(parts: seq<string>, last: string, separator: string)
    requires |parts| > 0
    ensures Join(parts + [last], separator) == Join(parts, separator) + separator + last
  {
    if |parts| == 1 {
      assert parts + [last] == [parts[0], last];
    } else {
      assert (parts + [last])[1..] == parts[1..] + [last];
      JoinAppend(parts[1..], last, separator);
    }
  }

  function LowerChar(c: char): (d: char)
    ensures 'A' <= c <= 'Z' ==> 'a' <= d <= 'z'
    ensures !('A' <= c <= 'Z') ==> d == c
  {
    if 'A' <= c <= 'Z' then (c as int + 32) as char else c
  }

  /** `toLowerCase`, on the ASCII letters. */
  function ToLower(s: string): (r: string)
    ensures |r| == |s|
    ensures forall i :: 0 <= i < |s| ==> r[i] == LowerChar(s[i])
  {
    if |s| == 0 then "" else [LowerChar(s[0])] + ToLower(s[1..])
  }

  function DigitChar(d: nat): char
    requires d < 16
  {
    "0123456789abcdef"[d]
  }

  /** The digits of n in the given base, most significant first, with no leading zeros. */
  function Digits(n: nat, base: nat): (r: seq<nat>)
    requires 2 <= base
    ensures forall i :: 0 <= i < |r| ==> r[i] < base
    ensures |r| > 0
    ensures n > 0 ==> r[0] != 0
    ensures n == 0 ==> r == [0]
  {
    if n < base then [n]
    else
      DivideDown(n, base);
      Digits(n / base, base) + [n % base]
  }

  lemma DivideDown(n: nat, base: nat)
    requires 2 <= base <= n
    ensures 1 <= n / base < n && n % base < base && n == n / base * base + n % base
  {
    var q, r := n / base, n % base;
    assert n == q * base + r && 0 <= r < base;
    assert q * base == q * (base - 2) + 2 * q;
    assert q * (base - 2) >= 0;
    assert q == 0 ==> q * base == 0;
  }

  /** The number the digits stand for. */
  function Value(ds: seq<nat>, base: nat): nat {
    if |ds| == 0 then 0 else Value(ds[..|ds| - 1], base) * base + ds[|ds| - 1]
  }

  lemma {:induction false} DigitsValue(n: nat, base: nat)
    requires 2 <= base
    ensures Value(Digits(n, base), base) == n
  {
    if n >= base {
      DivideDown(n, base);
      var ds := Digits(n / base, base) + [n % base];
      assert ds[..|ds| - 1] == Digits(n / base, base);
      DigitsValue(n / base, base);
    }
  }

  function Render(ds: seq<nat>): (s: string)
    requires forall i :: 0 <= i < |ds| ==> ds[i] < 16
    ensures |s| == |ds|
  {
    if |ds| == 0 then "" else Render(ds[..|ds| - 1]) + [DigitChar(ds[|ds| - 1])]
  }

  /** `String(n)` for a natural. */
  function NatToString(n: nat): string {
    Render(Digits(n, 10))
  }

  /** `n.toString(16)`: lowercase hexadecimal. */
  function Hex(n: nat): string {
    Render(Digits(n, 16))
  }

  /** The value of one hexadecimal digit character, if it is one. */
  function HexDigitValue(c: char): Option<nat> {
    if '0' <= c <= '9' then Some(c as int - '0' as int)
    else if 'a' <= c <= 'f' then Some(c as int - 'a' as int + 10)
    else None
  }

  /** Reading lowercase hexadecimal back; None for an empty string or a non-digit. */
  function ParseHex(s: string): Option<nat> {
    if |s| == 0 then None
    else if |s| == 1 then
      match HexDigitValue(s[0])
      case None => None
      case Some(d) => Some(d)
    else
      match ParseHex(s[..|s| - 1])
      case None => None
      case Some(v) =>
        match HexDigitValue(s[|s| - 1])
        case None => None
        case Some(d) => Some(v * 16 + d)
  }

  lemma {:induction false} ParseRender(ds: seq<nat>)
    requires |ds| > 0 && forall i :: 0 <= i < |ds| ==> ds[i] < 16
    ensures ParseHex(Render(ds)) == Some(Value(ds, 16))
  {
    var s := Render(ds);
    var d := ds[|ds| - 1];
    assert HexDigitValue(DigitChar(d)) == Some(d);
    if |ds| > 1 {
      assert s[..|s| - 1] == Render(ds[..|ds| - 1]);
      ParseRender(ds[..|ds| - 1]);
    } else {
      assert ds[..0] == [];
    }
  }

  /** Hexadecimal ids read back to their index, so distinct indices give distinct ids. */
  lemma HexRoundTrip(n: nat)
    ensures ParseHex(Hex(n)) == Some(n)
  {
    ParseRender(Digits(n, 16));
    DigitsValue(n, 16);
  }

  lemma HexInjective(m: nat, n: nat)
    ensures Hex(m) == Hex(n) ==> m == n
  {
    HexRoundTrip(m);
    HexRoundTrip(n);
  }
}
