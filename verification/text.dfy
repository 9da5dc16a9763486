/** The JavaScript string and number primitives the pages rely on:
    `toLowerCase` (restricted to ASCII letters), `trim`, `includes`,
    `startsWith`, `endsWith`, and `Number.parseInt(key, 10)`. */
module Text {

  // ---------------------------------------------------------------------
  // Case

  predicate IsUpper(c: char) { 'A' <= c <= 'Z' }

  /** `toLowerCase` on one character, for the ASCII letters only. */
  function LowerChar(c: char): (d: char)
    ensures IsUpper(c) ==> d as int == c as int + 32
    ensures !IsUpper(c) ==> d == c
    ensures !IsUpper(d)
  {
    if IsUpper(c) then (c as int + 32) as char else c
  }

  function ToLower(s: string): (r: string)
    ensures |r| == |s|
    ensures forall i :: 0 <= i < |s| ==> r[i] == LowerChar(s[i])
  {
    seq(|s|, i requires 0 <= i < |s| => LowerChar(s[i]))
  }

  /** A lower-cased string has no upper-case letter left, so lower-casing
      it again changes nothing. */
  lemma ToLowerIdempotent(s: string)
    ensures forall i :: 0 <= i < |ToLower(s)| ==> !IsUpper(ToLower(s)[i])
    ensures ToLower(ToLower(s)) == ToLower(s)
  {
  }

  // ---------------------------------------------------------------------
  // White space, as `String.prototype.trim` and `parseInt` see it:
  // the WhiteSpace and LineTerminator productions of ECMAScript.

  predicate IsWhiteSpace(c: char)
  {
    || c == '\t' || c == '\n' || c == '\U{000B}' || c == '\U{000C}' || c == '\r'
    || c == ' ' || c == '\U{00A0}' || c == '\U{1680}'
    || ('\U{2000}' <= c <= '\U{200A}')
    || c == '\U{2028}' || c == '\U{2029}' || c == '\U{202F}' || c == '\U{205F}'
    || c == '\U{3000}' || c == '\U{FEFF}'
  }

  /** Removes leading white space: the result is the suffix of `s` left
      after a run of white space. */
  function TrimStart(s: string): (r: string)
    ensures |r| <= |s| && r == s[|s| - |r|..]
    ensures forall i :: 0 <= i < |s| - |r| ==> IsWhiteSpace(s[i])
    ensures r == [] || !IsWhiteSpace(r[0])
  {
    if |s| > 0 && IsWhiteSpace(s[0]) then TrimStart(s[1..]) else s
  }

  /** Removes trailing white space: the result is the prefix of `s` left
      before a run of white space. */
  function TrimEnd(s: string): (r: string)
    ensures |r| <= |s| && r == s[..|r|]
    ensures forall i :: |r| <= i < |s| ==> IsWhiteSpace(s[i])
    ensures r == [] || !IsWhiteSpace(r[|r| - 1])
  {
    if |s| > 0 && IsWhiteSpace(s[|s| - 1]) then TrimEnd(s[..|s| - 1]) else s
  }

  function Trim(s: string): (r: string)
  {
    TrimEnd(TrimStart(s))
  }

  /** `r` is `s` with only white space cut before index `i` and after
      `r`. */
  predicate Recorte(s: string, r: string, i: int)
  {
    && 0 <= i && i + |r| <= |s| && r == s[i..i + |r|]
    && (forall k :: 0 <= k < i ==> IsWhiteSpace(s[k]))
    && (forall k :: i + |r| <= k < |s| ==> IsWhiteSpace(s[k]))
  }

  /** Cutting leading white space off `s` to get `t`, then trailing white
      space off `t` to get `r`, cuts `s` to `r`. */
  lemma CutTwice(s: string, t: string, r: string)
    requires |t| <= |s| && t == s[|s| - |t|..]
    requires forall k :: 0 <= k < |s| - |t| ==> IsWhiteSpace(s[k])
    requires |r| <= |t| && r == t[..|r|]
    requires forall k :: |r| <= k < |t| ==> IsWhiteSpace(t[k])
    ensures Recorte(s, r, |s| - |t|)
  {
    var i := |s| - |t|;
    assert r == s[i..i + |r|];
    forall k | i + |r| <= k < |s|
      ensures IsWhiteSpace(s[k])
    {
      assert s[k] == t[k - i];
    }
  }

  /** `trim` cuts `s` into white space, the result, white space. */
  lemma TrimIsSlice(s: string)
    ensures Recorte(s, Trim(s), |s| - |TrimStart(s)|)
  {
    CutTwice(s, TrimStart(s), Trim(s));
  }

  /** The result of `trim` neither starts nor ends with white space. */
  lemma TrimEdges(s: string)
    ensures var r := Trim(s); r == [] || (!IsWhiteSpace(r[0]) && !IsWhiteSpace(r[|r| - 1]))
  {
    EdgesOfCut(TrimStart(s), Trim(s));
  }

  /** A prefix of `t` keeps `t`'s first character. */
  lemma EdgesOfCut(t: string, r: string)
    requires |r| <= |t| && r == t[..|r|]
    requires t == [] || !IsWhiteSpace(t[0])
    requires r == [] || !IsWhiteSpace(r[|r| - 1])
    ensures r == [] || (!IsWhiteSpace(r[0]) && !IsWhiteSpace(r[|r| - 1]))
  {
    if r != [] {
      assert r[0] == t[0];
    }
  }

  /** Trimming twice is trimming once. */
  lemma TrimIdempotent(s: string)
    ensures Trim(Trim(s)) == Trim(s)
  {
    var r := Trim(s);
    TrimEdges(s);
    assert TrimStart(r) == r;
    assert TrimEnd(r) == r;
  }

  /** Lower-casing keeps white space and never produces it. */
  lemma LowerWhiteSpace(c: char)
    ensures IsWhiteSpace(LowerChar(c)) == IsWhiteSpace(c)
  {
  }

  /** Lower-casing does not touch white space, so it commutes with `trim`. */
  lemma {:induction false} TrimStartLower(s: string)
    ensures TrimStart(ToLower(s)) == ToLower(TrimStart(s))
    decreases |s|
  {
    var l := ToLower(s);
    if |s| > 0 {
      LowerWhiteSpace(s[0]);
      assert l[0] == LowerChar(s[0]);
    }
    if |s| > 0 && IsWhiteSpace(s[0]) {
      assert l[1..] == ToLower(s[1..]);
      TrimStartLower(s[1..]);
    }
  }

  /** Lower-casing commutes with taking a prefix. */
  lemma ToLowerTake(s: string, n: int)
    requires 0 <= n <= |s|
    ensures ToLower(s)[..n] == ToLower(s[..n])
  {
  }

  lemma {:induction false} TrimEndLower(s: string)
    ensures TrimEnd(ToLower(s)) == ToLower(TrimEnd(s))
    decreases |s|
  {
    var l := ToLower(s);
    if |s| > 0 {
      LowerWhiteSpace(s[|s| - 1]);
      assert l[|s| - 1] == LowerChar(s[|s| - 1]);
    }
    if |s| > 0 && IsWhiteSpace(s[|s| - 1]) {
      ToLowerTake(s, |s| - 1);
      TrimEndLower(s[..|s| - 1]);
    }
  }

  lemma TrimLower(s: string)
    ensures Trim(ToLower(s)) == ToLower(Trim(s))
  {
    TrimStartLower(s);
    TrimEndLower(TrimStart(s));
  }

  // ---------------------------------------------------------------------
  // Substrings

  predicate StartsWith(s: string, prefix: string)
  {
    |prefix| <= |s| && s[..|prefix|] == prefix
  }

  predicate EndsWith(s: string, suffix: string)
  {
    |suffix| <= |s| && s[|s| - |suffix|..] == suffix
  }

  /** `sub` occurs in `s` starting at index `i`. */
  predicate OccursAt(s: string, sub: string, i: int)
  {
    0 <= i && i + |sub| <= |s| && s[i..i + |sub|] == sub
  }

  /** `String.prototype.includes`, scanning left to right. */
  function Contains(s: string, sub: string): (b: bool)
    decreases |s|
  {
    StartsWith(s, sub) || (|s| > 0 && Contains(s[1..], sub))
  }

  /** An occurrence at index `i` is found by the scan. */
  lemma {:induction false} OccursContains(s: string, sub: string, i: int)
    requires OccursAt(s, sub, i)
    ensures Contains(s, sub)
    decreases |s|
  {
    if i == 0 {
      assert StartsWith(s, sub);
    } else {
      assert s[1..][i - 1..i - 1 + |sub|] == s[i..i + |sub|];
      OccursContains(s[1..], sub, i - 1);
    }
  }

  /** When the scan succeeds, it has found an occurrence at some index. */
  lemma {:induction false} ContainsOccurs(s: string, sub: string) returns (i: int)
    requires Contains(s, sub)
    ensures OccursAt(s, sub, i)
    decreases |s|
  {
    if StartsWith(s, sub) {
      i := 0;
    } else {
      var j := ContainsOccurs(s[1..], sub);
      assert s[1..][j..j + |sub|] == s[j + 1..j + 1 + |sub|];
      i := j + 1;
    }
  }

  /** The scan finds `sub` exactly when `sub` occurs at some index. */
  lemma ContainsIffOccurs(s: string, sub: string)
    ensures Contains(s, sub) <==> exists i :: OccursAt(s, sub, i)
  {
    if exists i :: OccursAt(s, sub, i) {
      var i :| OccursAt(s, sub, i);
      OccursContains(s, sub, i);
    }
    if Contains(s, sub) {
      var i := ContainsOccurs(s, sub);
    }
  }

  /** A string in which the first two characters of `sub` never appear
      side by side does not include `sub`. */
  lemma NoContienePar(s: string, sub: string)
    requires |sub| >= 2
    requires forall j :: 0 <= j < |s| - 1 ==> s[j] != sub[0] || s[j + 1] != sub[1]
    ensures !Contains(s, sub)
  {
    forall i
      ensures !OccursAt(s, sub, i)
    {
      if 0 <= i && i + |sub| <= |s| {
        assert s[i..i + |sub|][0] == s[i] && s[i..i + |sub|][1] == s[i + 1];
      }
    }
    ContainsIffOccurs(s, sub);
  }

  /** Every string includes the empty string. */
  lemma ContainsEmpty(s: string)
    ensures Contains(s, "")
  {
    assert StartsWith(s, "");
  }

  // ---------------------------------------------------------------------
  // Numbers: `Number.parseInt(key, 10)`

  /** A JavaScript number as `parseInt` can produce it: an integer or NaN.
      Negative zero is the integer 0, which `===` cannot tell apart. */
  datatype Num = Int(value: int) | NaN

  /** JavaScript's `===` on numbers: NaN equals nothing, not even itself. */
  predicate StrictEquals(a: Num, b: Num)
  {
    a.Int? && b.Int? && a.value == b.value
  }

  predicate IsDigit(c: char) { '0' <= c <= '9' }

  function DigitValue(c: char): (d: nat)
    requires IsDigit(c)
    ensures d < 10
  {
    c as int - '0' as int
  }

  /** The length of the longest prefix of `s` made of decimal digits. */
  function DigitRun(s: string): (n: nat)
    ensures n <= |s|
    ensures forall i :: 0 <= i < n ==> IsDigit(s[i])
    ensures n == |s| || !IsDigit(s[n])
  {
    if |s| > 0 && IsDigit(s[0]) then 1 + DigitRun(s[1..]) else 0
  }

  /** The value of a string of decimal digits, most significant first. */
  function DigitsValue(ds: string): nat
    requires forall i :: 0 <= i < |ds| ==> IsDigit(ds[i])
  {
    if |ds| == 0 then 0 else DigitsValue(ds[..|ds| - 1]) * 10 + DigitValue(ds[|ds| - 1])
  }

  /** Drops one leading sign character, if there is one. */
  function Unsigned(t: string): string
  {
    if |t| > 0 && (t[0] == '-' || t[0] == '+') then t[1..] else t
  }

  /** `parseInt(s, 10)`: skip leading white space, take an optional sign,
      then the longest run of decimal digits; no digits gives NaN.
      Trailing characters after the digits are ignored. */
  function ParseInt(s: string): (r: Num)
    ensures r.Int? <==> |Unsigned(TrimStart(s))| > 0 && IsDigit(Unsigned(TrimStart(s))[0])
  {
    ParseSigned(TrimStart(s))
  }

  /** `parseInt` once the leading white space is gone. */
  function ParseSigned(t: string): (r: Num)
    ensures r.Int? <==> |Unsigned(t)| > 0 && IsDigit(Unsigned(t)[0])
  {
    var negative := |t| > 0 && t[0] == '-';
    var u := Unsigned(t);
    var n := DigitRun(u);
    if n == 0 then NaN
    else
      var magnitude: int := DigitsValue(u[..n]);
      Int(if negative then -magnitude else magnitude)
  }

  /** The decimal numeral of a natural number, without leading zeros. */
  function Decimal(n: nat): (s: string)
    ensures |s| > 0
    ensures forall i :: 0 <= i < |s| ==> IsDigit(s[i])
  {
    var d := ['0' + (n % 10) as char];
    if n < 10 then d else Decimal(n / 10) + d
  }

  lemma {:induction false} DecimalValue(n: nat)
    ensures DigitsValue(Decimal(n)) == n
  {
    var s := Decimal(n);
    if n >= 10 {
      DecimalValue(n / 10);
      assert s[..|s| - 1] == Decimal(n / 10);
    }
  }

  lemma TrimStartDigits(s: string)
    requires |s| > 0 && IsDigit(s[0])
    ensures TrimStart(s) == s
  {
    assert !IsWhiteSpace(s[0]);
  }

  /** A string made only of digits parses to its decimal value. */
  lemma ParseIntDigits(s: string)
    requires |s| > 0
    requires forall i :: 0 <= i < |s| ==> IsDigit(s[i])
    ensures ParseInt(s) == Int(DigitsValue(s))
  {
    TrimStartDigits(s);
    ParseSignedDigits(s);
  }

  lemma ParseSignedDigits(s: string)
    requires |s| > 0
    requires forall i :: 0 <= i < |s| ==> IsDigit(s[i])
    ensures ParseSigned(s) == Int(DigitsValue(s))
  {
    assert s[0] != '-' && s[0] != '+' by { assert IsDigit(s[0]); }
    assert Unsigned(s) == s;
    DigitRunAll(s);
    assert s[..DigitRun(s)] == s;
  }

  /** Parsing the numeral of `n` gives `n` back. */
  lemma ParseIntDecimal(n: nat)
    ensures ParseInt(Decimal(n)) == Int(n)
  {
    ParseIntDigits(Decimal(n));
    DecimalValue(n);
  }

  lemma {:induction false} DigitRunAll(s: string)
    requires forall i :: 0 <= i < |s| ==> IsDigit(s[i])
    ensures DigitRun(s) == |s|
  {
    if |s| > 0 {
      DigitRunAll(s[1..]);
    }
  }

  /** Two different numerals can parse to the same number: distinct answer
      keys do not guarantee distinct answer ids. */
  lemma ParseIntLeadingZero()
    ensures "1" != "01" && ParseInt("1") == ParseInt("01") == Int(1)
  {
    assert "01"[0] == '0';
    ParseIntDecimal(1);
    assert Decimal(1) == "1";
    ParseIntDigits("01");
    DigitsZeroOne();
  }

  lemma DigitsZeroOne()
    ensures DigitsValue("01") == 1
  {
    var s := "01";
    assert s[..1] == "0";
    assert s[..1][..0] == [];
  }

}
