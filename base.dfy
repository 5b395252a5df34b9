/**
 * Shared vocabulary of the model: bytes, Option/Result, and the JavaScript
 * string operations the TypeScript sources rely on (split, join, trim,
 * toLowerCase, includes, number formatting).
 */
module Base {

  newtype byte = x: int | 0 <= x < 256

  datatype Option<+T> = None | Some(value: T)

  datatype Result<+T, +E> = Ok(value: T) | Err(error: E)

  // ---------------------------------------------------------------------
  // Characters
  // ---------------------------------------------------------------------

  /** ASCII lower-casing: `toLowerCase` on `A`-`Z`; other cased letters are kept as they are. */
  function LowerChar(c: char): char {
    if 'A' <= c <= 'Z' then (c as int + 32) as char else c
  }

  function ToLower(s: string): (r: string)
    ensures |r| == |s|
    ensures forall i :: 0 <= i < |s| ==> r[i] == LowerChar(s[i])
  {
    seq(|s|, i requires 0 <= i < |s| => LowerChar(s[i]))
  }

  /**
   * The characters JavaScript's `String.prototype.trim` removes and `\s`
   * matches: WhiteSpace and LineTerminator of ECMA-262.
   */
  predicate IsJsSpace(c: char) {
    c == ' ' || c == '\t' || c == '\n' || c == '\r' || c == '\U{000B}' || c == '\U{000C}'
    || c == '\U{00A0}' || c == '\U{1680}' || ('\U{2000}' <= c <= '\U{200A}')
    || c == '\U{2028}' || c == '\U{2029}' || c == '\U{202F}' || c == '\U{205F}'
    || c == '\U{3000}' || c == '\U{FEFF}'
  }

  /** `\w` of a non-unicode JavaScript regular expression. */
  predicate IsWordChar(c: char) {
    ('a' <= c <= 'z') || ('A' <= c <= 'Z') || ('0' <= c <= '9') || c == '_'
  }

  /** The line terminators that `.` of a JavaScript regular expression does not match. */
  predicate IsLineTerminator(c: char) {
    c == '\n' || c == '\r' || c == '\U{2028}' || c == '\U{2029}'
  }

  predicate IsDigit(c: char) { '0' <= c <= '9' }

  // ---------------------------------------------------------------------
  // Substrings
  // ---------------------------------------------------------------------

  predicate StartsWith(s: string, p: string) {
    |p| <= |s| && s[..|p|] == p
  }

  predicate EndsWith(s: string, p: string) {
    |p| <= |s| && s[|s| - |p|..] == p
  }

  /** `s.includes(p)`. */
  predicate Contains(s: string, p: string)
    decreases |s|
  {
    StartsWith(s, p) || (s != [] && Contains(s[1..], p))
  }

  lemma {:induction false} ContainsAt(s: string, p: string, i: nat)
    requires i <= |s| && StartsWith(s[i..], p)
    ensures Contains(s, p)
    decreases i
  {
    if i > 0 {
      assert s[1..][i - 1..] == s[i..];
      ContainsAt(s[1..], p, i - 1);
    }
  }

  lemma {:induction false} ContainsWitness(s: string, p: string) returns (i: nat)
    requires Contains(s, p)
    ensures i <= |s| && StartsWith(s[i..], p)
    decreases |s|
  {
    if StartsWith(s, p) {
      i := 0;
    } else {
      var j := ContainsWitness(s[1..], p);
      assert s[1..][j..] == s[j + 1..];
      i := j + 1;
    }
  }

  lemma NotInSuffix(s: string, lo: nat, c: char)
    requires lo <= |s|
    requires forall j :: lo <= j < |s| ==> s[j] != c
    ensures c !in s[lo..]
  {
  }

  /** Index of the last occurrence of `c`, or -1 (`lastIndexOf`). */
  function LastIndexOf(s: string, c: char): (r: int)
    ensures -1 <= r < |s|
    ensures r >= 0 ==> s[r] == c
    ensures forall j :: r < j < |s| ==> s[j] != c
    decreases |s|
  {
    if s == [] then -1
    else if s[|s| - 1] == c then |s| - 1
    else LastIndexOf(s[..|s| - 1], c)
  }

  /** Replaces every occurrence of `a` by `b` (`s.replace(/a/g, b)`). */
  function ReplaceChar(s: string, a: char, b: char): (r: string)
    ensures |r| == |s|
    ensures forall i :: 0 <= i < |s| ==> r[i] == (if s[i] == a then b else s[i])
  {
    seq(|s|, i requires 0 <= i < |s| => if s[i] == a then b else s[i])
  }

  // ---------------------------------------------------------------------
  // split / join
  // ---------------------------------------------------------------------

  /** `s.split(c)`: never empty; `"".split(c) == [""]`. */
  function Split(s: string, c: char): (r: seq<string>)
    ensures |r| >= 1
    decreases |s|
  {
    if s == [] then [""]
    else if s[0] == c then [""] + Split(s[1..], c)
    else var rest := Split(s[1..], c); [[s[0]] + rest[0]] + rest[1..]
  }

  /** `parts.join(sep)`. */
  function Join(parts: seq<string>, sep: string): string
    decreases |parts|
  {
    if parts == [] then ""
    else if |parts| == 1 then parts[0]
    else parts[0] + sep + Join(parts[1..], sep)
  }

  lemma {:induction false} SplitPartsHaveNoSeparator(s: string, c: char)
    ensures forall k :: 0 <= k < |Split(s, c)| ==> c !in Split(s, c)[k]
    decreases |s|
  {
    if s != [] {
      SplitPartsHaveNoSeparator(s[1..], c);
    }
  }

  lemma {:induction false} JoinSplit(s: string, c: char)
    ensures Join(Split(s, c), [c]) == s
    decreases |s|
  {
    if s != [] {
      JoinSplit(s[1..], c);
      var rest := Split(s[1..], c);
      if s[0] == c {
        assert s == [c] + s[1..];
      } else {
        var r := [[s[0]] + rest[0]] + rest[1..];
        assert r[1..] == rest[1..];
        if |rest| == 1 {
          assert s == [s[0]] + s[1..];
        } else {
          assert Join(rest, [c]) == rest[0] + [c] + Join(rest[1..], [c]);
          assert s == [s[0]] + s[1..];
        }
      }
    }
  }

  lemma {:induction false} SplitJoin(parts: seq<string>, c: char)
    requires parts != []
    requires forall k :: 0 <= k < |parts| ==> c !in parts[k]
    ensures Split(Join(parts, [c]), c) == parts
    decreases |parts|
  {
    if |parts| == 1 {
      SplitNoSeparator(parts[0], c);
    } else {
      SplitJoin(parts[1..], c);
      SplitConcat(parts[0], Join(parts[1..], [c]), c);
      SplitNoSeparator(parts[0], c);
      assert parts == [parts[0]] + parts[1..];
    }
  }

  lemma {:induction false} SplitNoSeparator(s: string, c: char)
    requires c !in s
    ensures Split(s, c) == [s]
    decreases |s|
  {
    if s != [] {
      SplitNoSeparator(s[1..], c);
      assert s == [s[0]] + s[1..];
    }
  }

  /** Splitting at a separator concatenates the splits of both sides. */
  lemma {:induction false} SplitConcat(a: string, b: string, c: char)
    requires c !in a
    ensures Split(a + [c] + b, c) == [a] + Split(b, c)
    decreases |a|
  {
    if a == [] {
      assert a + [c] + b == [c] + b;
      assert ([c] + b)[1..] == b;
    } else {
      var s := a + [c] + b;
      assert s[0] == a[0];
      assert s[1..] == a[1..] + [c] + b;
      SplitConcat(a[1..], b, c);
      assert [a[0]] + a[1..] == a;
    }
  }

  lemma SplitThreeParts(a: string, b: string, d: string, c: char)
    requires c !in a && c !in b && c !in d
    ensures Split(a + [c] + b + [c] + d, c) == [a, b, d]
  {
    SplitConcat(b, d, c);
    SplitNoSeparator(d, c);
    assert a + [c] + b + [c] + d == a + [c] + (b + [c] + d);
    SplitConcat(a, b + [c] + d, c);
  }

  lemma SplitFourParts(a: string, b: string, d: string, e: string, c: char)
    requires c !in a && c !in b && c !in d && c !in e
    ensures Split(a + [c] + b + [c] + d + [c] + e, c) == [a, b, d, e]
  {
    var tail := b + [c] + d + [c] + e;
    SplitThreeParts(b, d, e, c);
    assert a + [c] + b + [c] + d + [c] + e == a + [c] + tail;
    SplitConcat(a, tail, c);
    assert [a] + [b, d, e] == [a, b, d, e];
  }

  // ---------------------------------------------------------------------
  // trim
  // ---------------------------------------------------------------------

  function TrimStart(s: string): (r: string)
    ensures |r| <= |s|
    ensures r != [] ==> !IsJsSpace(r[0])
    decreases |s|
  {
    if s != [] && IsJsSpace(s[0]) then TrimStart(s[1..]) else s
  }

  function TrimEnd(s: string): (r: string)
    ensures |r| <= |s|
    ensures r != [] ==> !IsJsSpace(r[|r| - 1])
    decreases |s|
  {
    if s != [] && IsJsSpace(s[|s| - 1]) then TrimEnd(s[..|s| - 1]) else s
  }

  /** `s.trim()`. */
  function Trim(s: string): string {
    TrimEnd(TrimStart(s))
  }

  predicate IsTrimmed(s: string) {
    s == [] || (!IsJsSpace(s[0]) && !IsJsSpace(s[|s| - 1]))
  }

  lemma {:induction false} TrimOfTrimmed(s: string)
    requires IsTrimmed(s)
    ensures Trim(s) == s
  {
  }

  lemma {:induction false} TrimLeadingSpaces(w: string, s: string)
    requires forall k :: 0 <= k < |w| ==> IsJsSpace(w[k])
    requires IsTrimmed(s)
    ensures Trim(w + s) == s
    decreases |w|
  {
    if w != [] {
      assert (w + s)[1..] == w[1..] + s;
      TrimLeadingSpaces(w[1..], s);
    } else {
      assert w + s == s;
    }
  }

  // ---------------------------------------------------------------------
  // Number formatting
  // ---------------------------------------------------------------------

  function DigitChar(d: nat): (c: char)
    requires d < 16
    ensures c != '-' && c != '"'
  {
    if d < 10 then ('0' as int + d) as char else ('a' as int + d - 10) as char
  }

  /** The value of a digit character; `DigitChar` is its inverse on `0..15`. */
  function DigitValue(c: char): nat {
    if '0' <= c <= '9' then c as int - '0' as int
    else if 'a' <= c <= 'f' then c as int - 'a' as int + 10
    else 0
  }

  lemma DigitRoundTrip(d: nat)
    requires d < 16
    ensures DigitValue(DigitChar(d)) == d
  {
  }

  /** Digits of `n` in base `b` (`n.toString(b)` for a non-negative integer). */
  function NatToBase(n: nat, b: nat): (r: string)
    requires 2 <= b <= 16
    ensures r != []
    ensures forall k :: 0 <= k < |r| ==> r[k] != '-' && r[k] != '"'
    decreases n
  {
    if n < b then [DigitChar(n)]
    else
      DivisionShrinks(n, b);
      NatToBase(n / b, b) + [DigitChar(n % b)]
  }

  lemma DivisionShrinks(n: nat, b: nat)
    requires 2 <= b <= n
    ensures n / b < n && n % b < b
  {
  }

  function NatToString(n: nat): string { NatToBase(n, 10) }

  function NatToHex(n: nat): string { NatToBase(n, 16) }

  /** `i.toString()` for an integer. */
  function IntToString(i: int): string {
    if i < 0 then "-" + NatToString(-i) else NatToString(i)
  }

  /** `parseInt(s, b)` of a string of lower-case digits. */
  function BaseValue(s: string, b: nat): nat
    decreases |s|
  {
    if s == [] then 0 else BaseValue(s[..|s| - 1], b) * b + DigitValue(s[|s| - 1])
  }

  /** Reading the digits back gives the number: `parseInt(n.toString(b), b) == n`. */
  lemma {:induction false} BaseRoundTrip(n: nat, b: nat)
    requires 2 <= b <= 16
    ensures BaseValue(NatToBase(n, b), b) == n
    decreases n
  {
    if n < b {
      DigitRoundTrip(n);
      assert NatToBase(n, b)[..0] == [];
    } else {
      var q, d := n / b, n % b;
      LastDigit(n, b);
      ValueOfSnoc(NatToBase(q, b), DigitChar(d), b);
      BaseRoundTrip(q, b);
      DigitRoundTrip(d);
      Euclid(n, b);
    }
  }

  lemma ValueOfSnoc(p: string, c: char, b: nat)
    ensures BaseValue(p + [c], b) == BaseValue(p, b) * b + DigitValue(c)
  {
    assert (p + [c])[..|p|] == p;
  }

  lemma Euclid(n: nat, b: nat)
    requires b > 0
    ensures n / b * b + n % b == n
  {
  }

  /** Different numbers print differently. */
  lemma NatToBaseInjective(m: nat, n: nat, b: nat)
    requires 2 <= b <= 16
    requires NatToBase(m, b) == NatToBase(n, b)
    ensures m == n
  {
    BaseRoundTrip(m, b);
    BaseRoundTrip(n, b);
  }

  /** Past its first digit, a number prints as its quotient followed by its last digit. */
  lemma LastDigit(n: nat, b: nat)
    requires 2 <= b <= n && b <= 16
    ensures var s := NatToBase(n, b);
      n / b < n && n % b < b && |s| >= 1
      && s[..|s| - 1] == NatToBase(n / b, b) && s[|s| - 1] == DigitChar(n % b)
      && s == NatToBase(n / b, b) + [DigitChar(n % b)]
  {
    DivisionShrinks(n, b);
    var s, p := NatToBase(n, b), NatToBase(n / b, b);
    assert s == p + [DigitChar(n % b)];
    assert s[..|s| - 1] == p;
  }

  /** `Math.ceil(a / b)` for integers and a positive divisor. */
  function CeilDiv(a: int, b: int): (r: int)
    requires b > 0
    ensures (r - 1) * b < a <= r * b
  {
    -((-a) / b)
  }
}
