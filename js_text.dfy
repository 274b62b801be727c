/**
 * The JavaScript string and number primitives the dashboard and the resolvers lean on:
 * the `\s` white-space class, `trim`, ASCII `toLowerCase`, `includes`, `replace` of the first
 * occurrence of a literal, decimal printing of integers, `parseInt`, `Math.ceil` of a quotient
 * and the truncating `%` operator.
 */
module JsText {
  import opened Wrappers

  /** JavaScript's `\s` class; `String.prototype.trim` strips exactly these characters. */
  predicate IsSpace(c: char) {
    var n := c as int;
    (9 <= n <= 13) || n == 32 || n == 0xA0 || n == 0x1680 || (0x2000 <= n <= 0x200A)
    || n == 0x2028 || n == 0x2029 || n == 0x202F || n == 0x205F || n == 0x3000 || n == 0xFEFF
  }

  predicate NoSpace(s: string) {
    forall i :: 0 <= i < |s| ==> !IsSpace(s[i])
  }

  predicate Blank(s: string) {
    forall i :: 0 <= i < |s| ==> IsSpace(s[i])
  }

  /** Leading white space removed. */
  function TrimStart(s: string): (r: string)
    ensures |r| <= |s| && r == s[|s| - |r|..]
    ensures r == [] || !IsSpace(r[0])
    ensures forall i :: 0 <= i < |s| - |r| ==> IsSpace(s[i])
    ensures s != [] && IsSpace(s[0]) ==> |r| < |s|
  {
    if s != [] && IsSpace(s[0]) then TrimStart(s[1..]) else s
  }

  /** Trailing white space removed. */
  function TrimEnd(s: string): (r: string)
    ensures |r| <= |s| && r == s[..|r|]
    ensures r == [] || !IsSpace(r[|r| - 1])
    ensures forall i :: |r| <= i < |s| ==> IsSpace(s[i])
  {
    if s != [] && IsSpace(s[|s| - 1]) then TrimEnd(s[..|s| - 1]) else s
  }

  /**
   * `s.trim()`: `s` with a blank prefix and a blank suffix cut off, leaving no white space at
   * either end.
   */
  function Trim(s: string): (r: string)
    ensures exists i, j :: 0 <= i <= j <= |s| && r == s[i..j] && Blank(s[..i]) && Blank(s[j..])
    ensures r == [] || (!IsSpace(r[0]) && !IsSpace(r[|r| - 1]))
  {
    var t := TrimStart(s);
    var r := TrimEnd(t);
    BlankEnds(s, t, r);
    r
  }

  /** A blank prefix cut from `s` to give `t`, then a blank suffix cut from `t` to give `r`. */
  lemma BlankEnds(s: string, t: string, r: string)
    requires |t| <= |s| && t == s[|s| - |t|..]
    requires forall i :: 0 <= i < |s| - |t| ==> IsSpace(s[i])
    requires |r| <= |t| && r == t[..|r|]
    requires forall i :: |r| <= i < |t| ==> IsSpace(t[i])
    ensures exists i, j :: 0 <= i <= j <= |s| && r == s[i..j] && Blank(s[..i]) && Blank(s[j..])
  {
    var i := |s| - |t|;
    assert r == s[i..i + |r|];
    assert Blank(s[..i]);
    var suffix := s[i + |r|..];
    assert Blank(suffix) by {
      forall k | 0 <= k < |suffix| ensures IsSpace(suffix[k]) {
        assert suffix[k] == t[|r| + k];
      }
    }
  }

  lemma TrimEmptyIffBlank(s: string)
    ensures Trim(s) == [] <==> Blank(s)
  {
    var t := TrimStart(s);
    if Trim(s) == [] {
      assert t == [];
    } else {
      var c := Trim(s)[0];
      assert c == t[0] == s[|s| - |t|];
    }
  }

  lemma TrimKeepsCharacters(s: string)
    ensures forall c :: c in Trim(s) ==> c in s
  {
    var i, j :| 0 <= i <= j <= |s| && Trim(s) == s[i..j];
    SliceKeepsCharacters(s, i, j);
  }

  /** Every character of a slice is a character of the whole. */
  lemma SliceKeepsCharacters(s: string, i: nat, j: nat)
    requires i <= j <= |s|
    ensures forall c :: c in s[i..j] ==> c in s
  {
    forall c | c in s[i..j] ensures c in s {
      var k :| 0 <= k < j - i && s[i..j][k] == c;
      assert s[i + k] == c;
    }
  }

  lemma TrimWithoutSpace(s: string)
    requires NoSpace(s)
    ensures Trim(s) == s
  {
    assert TrimStart(s) == s;
  }

  function LowerChar(c: char): (r: char)
    ensures !('A' <= r <= 'Z')
    ensures 'a' <= r <= 'z' ==> 'a' <= c <= 'z' || 'A' <= c <= 'Z'
    ensures !('A' <= c <= 'Z') ==> r == c
  {
    if 'A' <= c <= 'Z' then (c as int + 32) as char else c
  }

  /** `s.toLowerCase()`, on the ASCII letters. */
  function ToLower(s: string): (r: string)
    ensures |r| == |s| && forall i :: 0 <= i < |s| ==> r[i] == LowerChar(s[i])
  {
    seq(|s|, i requires 0 <= i < |s| => LowerChar(s[i]))
  }

  /** `s.includes(sub)`: `sub` occurs somewhere in `s`. */
  function Contains(s: string, sub: string): (r: bool)
    ensures r <==> exists k: nat :: OccursAt(s, sub, k)
  {
    OccursAtPrefix(s, sub, 0);
    if sub <= s then true
    else if s == [] then false
    else
      OccursLater(s, sub);
      Contains(s[1..], sub)
  }

  /** `sub` occurs in `s` at its first position or somewhere in its tail. */
  lemma OccursLater(s: string, sub: string)
    requires s != []
    ensures (exists k: nat :: OccursAt(s, sub, k)) <==> OccursAt(s, sub, 0) || exists k: nat :: OccursAt(s[1..], sub, k)
  {
    forall k: nat | OccursAt(s, sub, k + 1) ensures OccursAt(s[1..], sub, k) {
      assert s[k + 1..k + 1 + |sub|] == s[1..][k..k + |sub|];
    }
    forall k: nat | OccursAt(s[1..], sub, k) ensures OccursAt(s, sub, k + 1) {
      assert s[k + 1..k + 1 + |sub|] == s[1..][k..k + |sub|];
    }
    if exists k: nat :: OccursAt(s, sub, k) {
      var k: nat :| OccursAt(s, sub, k);
      if k > 0 {
        assert OccursAt(s[1..], sub, k - 1);
      }
    }
  }

  /** `s.indexOf(pat)`, None for -1. */
  function IndexOf(s: string, pat: string): (r: Option<nat>)
    ensures r.Some? ==> r.value + |pat| <= |s| && s[r.value..r.value + |pat|] == pat
    ensures r.Some? ==> forall j :: 0 <= j < r.value ==> !(pat <= s[j..])
    ensures r.None? ==> forall j :: 0 <= j <= |s| ==> !(pat <= s[j..])
  {
    if pat <= s then Some(0)
    else if s == [] then None
    else
      match IndexOf(s[1..], pat)
      case None =>
        assert forall j :: 1 <= j <= |s| ==> s[j..] == s[1..][j - 1..];
        None
      case Some(k) =>
        assert forall j :: 1 <= j <= k ==> s[j..] == s[1..][j - 1..];
        Some(k + 1)
  }

  /** Every character of a pattern found in `s` is a character of `s`. */
  lemma FoundPatternCharacter(s: string, pat: string, c: char)
    requires IndexOf(s, pat).Some? && c in pat
    ensures c in s
  {
    var k := IndexOf(s, pat).value;
    var i :| 0 <= i < |pat| && pat[i] == c;
    assert s[k..k + |pat|][i] == s[k + i];
  }

  /** `pat` occurs in `s` at position `k`. */
  predicate OccursAt(s: string, pat: string, k: nat) {
    k + |pat| <= |s| && s[k..k + |pat|] == pat
  }

  /** An occurrence is a prefix of the suffix that starts there. */
  lemma OccursAtPrefix(s: string, pat: string, k: nat)
    requires k <= |s|
    ensures OccursAt(s, pat, k) <==> pat <= s[k..]
  {
    if pat <= s[k..] {
      assert s[k..k + |pat|] == s[k..][..|pat|];
    }
  }

  /** `s.replace(pat, rep)` with a string pattern: only the first occurrence is replaced. */
  function ReplaceFirst(s: string, pat: string, rep: string): (r: string)
    ensures forall k: nat :: OccursAt(s, pat, k) && (forall j: nat :: j < k ==> !OccursAt(s, pat, j)) ==>
      r == s[..k] + rep + s[k + |pat|..]
    ensures (forall k: nat :: !OccursAt(s, pat, k)) ==> r == s
    ensures pat <= s ==> r == rep + s[|pat|..]
    ensures IndexOf(s, pat).None? ==> r == s
  {
    FirstOccurrence(s, pat);
    match IndexOf(s, pat)
    case None => s
    case Some(k) => s[..k] + rep + s[k + |pat|..]
  }

  /** `IndexOf` finds the first occurrence, and `None` means there is none. */
  lemma FirstOccurrence(s: string, pat: string)
    ensures IndexOf(s, pat).Some? ==>
      OccursAt(s, pat, IndexOf(s, pat).value) && forall j: nat :: j < IndexOf(s, pat).value ==> !OccursAt(s, pat, j)
    ensures IndexOf(s, pat).None? ==> forall k: nat :: !OccursAt(s, pat, k)
  {
    forall k: nat | k <= |s| {
      OccursAtPrefix(s, pat, k);
    }
  }

  predicate IsDigit(c: char) {
    '0' <= c <= '9'
  }

  function DigitChar(d: nat): (c: char)
    requires d < 10
    ensures IsDigit(c)
  {
    ('0' as int + d) as char
  }

  /** Decimal digits of `n` with no leading zero, as `String(n)` prints a non-negative integer. */
  function NatToString(n: nat): (r: string)
    ensures |r| >= 1
    ensures forall i :: 0 <= i < |r| ==> IsDigit(r[i])
  {
    if n < 10 then [DigitChar(n)] else NatToString(n / 10) + [DigitChar(n % 10)]
  }

  /** `String(n)` / `${n}` for an integer. */
  function IntToString(n: int): (r: string)
    ensures |r| >= 1 && !IsSpace(r[0])
  {
    if n < 0 then "-" + NatToString(-n) else NatToString(n)
  }

  /** The number `parseInt` yields: NaN, or an integer. */
  datatype ParsedInt = NaN | Num(n: int)

  /** Value of `c` as a digit (36 for a character that is no digit in any radix). */
  function DigitValue(c: char): nat {
    if '0' <= c <= '9' then c as int - '0' as int
    else if 'a' <= c <= 'z' then c as int - 'a' as int + 10
    else if 'A' <= c <= 'Z' then c as int - 'A' as int + 10
    else 36
  }

  /** Length of the longest prefix of `s` made of digits of `radix`. */
  function DigitPrefix(s: string, radix: nat): (k: nat)
    ensures k <= |s|
    ensures forall i :: 0 <= i < k ==> DigitValue(s[i]) < radix
    ensures k < |s| ==> DigitValue(s[k]) >= radix
  {
    if s == [] || DigitValue(s[0]) >= radix then 0 else 1 + DigitPrefix(s[1..], radix)
  }

  /** Value of a digit string, most significant digit first. */
  function DigitsValue(ds: string, radix: nat): nat {
    if ds == [] then 0 else DigitsValue(ds[..|ds| - 1], radix) * radix + DigitValue(ds[|ds| - 1])
  }

  /**
   * `parseInt(s)` with no radix: leading white space skipped, an optional sign, a `0x`/`0X`
   * prefix switching to radix 16, then the longest run of digits; no digit at all gives NaN.
   */
  function ParseInt(s: string): ParsedInt {
    var t := TrimStart(s);
    if t != [] && t[0] == '-' then Negate(ParseUnsigned(t[1..]))
    else if t != [] && t[0] == '+' then ParseUnsigned(t[1..])
    else ParseUnsigned(t)
  }

  function Negate(p: ParsedInt): ParsedInt {
    match p
    case NaN => NaN
    case Num(n) => Num(-n)
  }

  function ParseUnsigned(u: string): ParsedInt {
    if |u| >= 2 && u[0] == '0' && (u[1] == 'x' || u[1] == 'X') then ParseDigits(u[2..], 16)
    else ParseDigits(u, 10)
  }

  function ParseDigits(body: string, radix: nat): ParsedInt {
    var k := DigitPrefix(body, radix);
    if k == 0 then NaN else Num(DigitsValue(body[..k], radix))
  }

  lemma {:induction false} NatToStringValue(n: nat)
    ensures DigitsValue(NatToString(n), 10) == n
  {
    var r := NatToString(n);
    if n >= 10 {
      NatToStringValue(n / 10);
      assert r[..|r| - 1] == NatToString(n / 10);
    }
  }

  lemma DigitsParse(u: string)
    requires |u| >= 1 && forall i :: 0 <= i < |u| ==> IsDigit(u[i])
    ensures ParseUnsigned(u) == Num(DigitsValue(u, 10))
  {
    assert forall i :: 0 <= i < |u| ==> DigitValue(u[i]) < 10;
    assert DigitPrefix(u, 10) == |u|;
    assert u[..|u|] == u;
  }

  /** A string of decimal digits starts with no white space, so `parseInt` reads all of it. */
  lemma ParseIntOfDigits(digits: string)
    requires |digits| >= 1 && forall i :: 0 <= i < |digits| ==> IsDigit(digits[i])
    ensures ParseInt(digits) == Num(DigitsValue(digits, 10))
  {
    DigitsParse(digits);
    assert !IsSpace(digits[0]);
    assert TrimStart(digits) == digits;
  }

  /** The same behind a minus sign. */
  lemma ParseIntOfNegatedDigits(digits: string)
    requires |digits| >= 1 && forall i :: 0 <= i < |digits| ==> IsDigit(digits[i])
    ensures ParseInt("-" + digits) == Num(-(DigitsValue(digits, 10) as int))
  {
    var s := "-" + digits;
    assert s[0] == '-' && s[1..] == digits;
    TrimStartNoSpace(s);
    assert ParseInt(s) == Negate(ParseUnsigned(digits));
    DigitsParse(digits);
  }

  /** Text that does not start with white space has nothing to skip. */
  lemma TrimStartNoSpace(s: string)
    requires s != [] && !IsSpace(s[0])
    ensures TrimStart(s) == s
  {
  }

  /** Printing an integer and parsing it back with `parseInt` gives the integer again. */
  lemma ParseIntOfIntToString(n: int)
    ensures ParseInt(IntToString(n)) == Num(n)
  {
    var m: nat := if n < 0 then -n else n;
    NatToStringValue(m);
    if n < 0 {
      ParseIntOfNegatedDigits(NatToString(m));
    } else {
      ParseIntOfDigits(NatToString(m));
    }
  }

  /** JavaScript's `value || fallback` on a possibly absent string: absent and "" both fall back. */
  function OrString(v: Option<string>, fallback: string): (r: string)
    ensures v.Some? && v.value != "" ==> r == v.value
    ensures (v.None? || v.value == "") ==> r == fallback
  {
    if v.Some? && v.value != "" then v.value else fallback
  }

  /**
   * `x` is what `value || fallback` loads: a present, non-empty value is kept; an absent or
   * empty one gives the fallback.
   */
  predicate LoadedAs(value: Option<string>, fallback: string, x: string) {
    (value.Some? && value.value != "" ==> x == value.value)
    && (value.None? || value.value == "" ==> x == fallback)
  }

  /** `Math.ceil(a / b)` for a positive divisor. */
  function CeilDiv(a: int, b: int): (r: int)
    requires b > 0
    ensures (r - 1) * b < a <= r * b
  {
    var q := (-a) / b;
    assert -a == q * b + (-a) % b;
    -q
  }

  /** JavaScript's integer quotient truncated toward zero, for a positive divisor. */
  function TruncDiv(a: int, b: int): int
    requires b > 0
  {
    if a >= 0 then a / b else -((-a) / b)
  }

  /** JavaScript's `a % b` for a positive divisor: the sign follows the dividend. */
  function JsRemainder(a: int, b: int): (r: int)
    requires b > 0
    ensures a >= 0 ==> 0 <= r < b
    ensures a < 0 ==> -b < r <= 0
    ensures a == TruncDiv(a, b) * b + r
  {
    if a >= 0 then a % b
    else
      var q := (-a) / b;
      var m := (-a) % b;
      assert -a == q * b + m;
      assert (-q) * b == -(q * b);
      -m
  }
}
