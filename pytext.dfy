/** The parts of Python's string and integer semantics the modelled code relies
    on: `str.strip()`, slicing with negative indices, `int(s, base)`, `str(n)`,
    `format(n, 'x')`, `str.zfill` and `str.lower()` on ASCII letters. */
module PyText {
  import opened Wrappers

  /** The code points Python's `str.isspace()` accepts; `str.strip()` and
      `int()` remove them from both ends. */
  predicate IsStrSpace(c: char) {
    var n := c as int;
    (9 <= n <= 13) || (28 <= n <= 32) || n == 0x85 || n == 0xA0 || n == 0x1680
    || (0x2000 <= n <= 0x200A) || n == 0x2028 || n == 0x2029 || n == 0x202F
    || n == 0x205F || n == 0x3000
  }

  /** The bytes `bytes.strip()` removes: ASCII space, tab, LF, VT, FF, CR. */
  predicate IsByteSpace(b: int) {
    b == 32 || (9 <= b <= 13)
  }

  /** Drops the leading elements that satisfy `drop`. */
  function TrimLeft<T>(s: seq<T>, drop: T -> bool): (r: seq<T>)
    ensures |r| <= |s| && r == s[|s| - |r|..]
    ensures forall i :: 0 <= i < |s| - |r| ==> drop(s[i])
    ensures r == [] || !drop(r[0])
  {
    if |s| > 0 && drop(s[0]) then TrimLeft(s[1..], drop) else s
  }

  /** Drops the trailing elements that satisfy `drop`. */
  function TrimRight<T>(s: seq<T>, drop: T -> bool): (r: seq<T>)
    ensures |r| <= |s| && r == s[..|r|]
    ensures forall i :: |r| <= i < |s| ==> drop(s[i])
    ensures r == [] || !drop(r[|r| - 1])
  {
    if |s| > 0 && drop(s[|s| - 1]) then TrimRight(s[..|s| - 1], drop) else s
  }

  /** Python's `strip()`: both ends. */
  function Strip<T>(s: seq<T>, drop: T -> bool): seq<T> {
    TrimRight(TrimLeft(s, drop), drop)
  }

  function StripStr(s: string): string {
    Strip(s, IsStrSpace)
  }

  lemma StripKeepsUnpadded<T>(s: seq<T>, drop: T -> bool)
    requires |s| > 0 && !drop(s[0]) && !drop(s[|s| - 1])
    ensures Strip(s, drop) == s
  {
  }

  /** A Python slice index normalised against a sequence of length n. */
  function SliceIndex(i: int, n: nat): (k: nat)
    ensures k <= n
    ensures 0 <= i <= n ==> k == i
    ensures i < 0 && 0 <= n + i ==> k == n + i
    ensures n + i < 0 ==> k == 0
    ensures i > n ==> k == n
  {
    if i < 0 then (if i + n < 0 then 0 else i + n) else if i > n then n else i
  }

  /** Python's `s[i:j]` with step 1: negative indices count from the end and
      bounds are clamped, so it never fails. */
  function Slice<T>(s: seq<T>, i: int, j: int): seq<T> {
    var a := SliceIndex(i, |s|);
    var b := SliceIndex(j, |s|);
    if a <= b then s[a..b] else []
  }

  lemma SliceInRange<T>(s: seq<T>, i: int, j: int)
    requires 0 <= i <= j <= |s|
    ensures Slice(s, i, j) == s[i..j] && |Slice(s, i, j)| == j - i
  {
  }

  // ---------------------------------------------------------------- digits

  /** The value of `c` as a digit of `base` (2..16), case-insensitive. */
  function DigitOf(c: char, base: nat): (d: Option<nat>)
    ensures d.Some? ==> d.value < base
  {
    var v :=
      if '0' <= c <= '9' then c as int - '0' as int
      else if 'a' <= c <= 'f' then c as int - 'a' as int + 10
      else if 'A' <= c <= 'F' then c as int - 'A' as int + 10
      else -1;
    if 0 <= v < base then Some(v) else None
  }

  /** Lower-case digit character for 0..15, as `format(n, 'x')` writes them. */
  function DigitChar(d: nat): char
    requires d < 16
  {
    if d < 10 then ('0' as int + d) as char else ('a' as int + d - 10) as char
  }

  lemma DigitCharRoundTrip(d: nat, base: nat)
    requires d < base <= 16
    ensures DigitOf(DigitChar(d), base) == Some(d)
  {
  }

  /** A run of digits of `base` where each underscore sits between two digits
      (or, after a `0x` prefix, before the first digit), as Python's `int()`
      accepts it. */
  predicate GoodDigitRun(s: string, base: nat, leadingUnderscore: bool) {
    && |s| > 0
    && s[|s| - 1] != '_'
    && (leadingUnderscore || s[0] != '_')
    && (forall i :: 0 <= i < |s| ==> s[i] == '_' || DigitOf(s[i], base).Some?)
    && (forall i :: 0 <= i < |s| - 1 ==> !(s[i] == '_' && s[i + 1] == '_'))
  }

  /** The digit values of a run, underscores left out. */
  function RunDigits(s: string, base: nat): seq<nat> {
    if s == [] then []
    else
      (match DigitOf(s[0], base)
       case Some(d) => [d]
       case None => [])
      + RunDigits(s[1..], base)
  }

  /** The value of digits written most significant first. */
  function DigitsValue(ds: seq<nat>, base: nat): nat {
    if ds == [] then 0 else DigitsValue(ds[..|ds| - 1], base) * base + ds[|ds| - 1]
  }

  /** Python's `int(s, base)` for base 10 and 16: surrounding white space,
      an optional sign, for base 16 an optional `0x`/`0X` prefix, and digits
      with single underscores between them. `None` is the ValueError. */
  function ParseInt(s: string, base: nat): Option<int>
    requires base == 10 || base == 16
  {
    ParseSigned(StripStr(s), base)
  }

  /** `int()` on text whose surrounding white space is already removed. */
  function ParseSigned(t: string, base: nat): Option<int>
    requires base == 10 || base == 16
  {
    var negative := |t| > 0 && t[0] == '-';
    var unsigned := if |t| > 0 && (t[0] == '-' || t[0] == '+') then t[1..] else t;
    var prefixed := base == 16 && |unsigned| >= 2 && unsigned[0] == '0'
                    && (unsigned[1] == 'x' || unsigned[1] == 'X');
    var body := if prefixed then unsigned[2..] else unsigned;
    if GoodDigitRun(body, base, prefixed) then
      var v: int := DigitsValue(RunDigits(body, base), base);
      Some(if negative then -v else v)
    else None
  }

  // ------------------------------------------------------------ formatting

  /** The digits of n in `base`, most significant first, with no leading zero. */
  function NatDigits(n: nat, base: nat): (ds: seq<nat>)
    requires base >= 2
    ensures |ds| > 0 && forall i :: 0 <= i < |ds| ==> ds[i] < base
    decreases n
  {
    if n < base then [n]
    else
      assert n / base < n;
      NatDigits(n / base, base) + [n % base]
  }

  function DigitChars(ds: seq<nat>): (s: string)
    requires forall i :: 0 <= i < |ds| ==> ds[i] < 16
    ensures |s| == |ds|
  {
    if ds == [] then [] else [DigitChar(ds[0])] + DigitChars(ds[1..])
  }

  /** `str(n)` and `format(n, 'x')` for a non-negative n. */
  function NatToString(n: nat, base: nat): string
    requires base == 10 || base == 16
  {
    DigitChars(NatDigits(n, base))
  }

  /** Python's `str(x)` for an int. */
  function IntToString(x: int): string {
    if x < 0 then "-" + NatToString(-x, 10) else NatToString(x, 10)
  }

  /** Python's `format(x, 'x')`. */
  function HexString(x: int): string {
    if x < 0 then "-" + NatToString(-x, 16) else NatToString(x, 16)
  }

  /** Python's `s.zfill(width)`: zeros inserted after a leading sign. */
  function ZFill(s: string, width: nat): (r: string)
    ensures |r| == if |s| >= width then |s| else width
  {
    if |s| >= width then s
    else if |s| > 0 && (s[0] == '-' || s[0] == '+') then [s[0]] + seq(width - |s|, _ => '0') + s[1..]
    else seq(width - |s|, _ => '0') + s
  }

  /** Python's `s.split(sep)` for a one-character separator: never empty,
      and empty parts are kept. */
  function Split(s: string, sep: char): (r: seq<string>)
    ensures |r| > 0
  {
    if s == [] then [""]
    else
      var rest := Split(s[1..], sep);
      if s[0] == sep then [""] + rest else [[s[0]] + rest[0]] + rest[1..]
  }

  /** `sep.join(parts)`. */
  function Join(parts: seq<string>, sep: char): string
    requires |parts| > 0
  {
    if |parts| == 1 then parts[0] else parts[0] + [sep] + Join(parts[1..], sep)
  }

  lemma {:induction false} SplitNoSep(p: string, sep: char)
    requires sep !in p
    ensures Split(p, sep) == [p]
  {
    if p != [] {
      SplitNoSep(p[1..], sep);
      assert [p[0]] + p[1..] == p;
    }
  }

  lemma {:induction false} SplitAfterPart(p: string, sep: char, rest: string)
    requires sep !in p
    ensures Split(p + [sep] + rest, sep) == [p] + Split(rest, sep)
  {
    if p == [] {
      assert p + [sep] + rest == [sep] + rest;
      assert (p + [sep] + rest)[1..] == rest;
    } else {
      var s := p + [sep] + rest;
      assert s[1..] == p[1..] + [sep] + rest;
      SplitAfterPart(p[1..], sep, rest);
      assert [p[0]] + p[1..] == p;
    }
  }

  /** Splitting a joined list of parts without the separator gives the
      parts back. */
  lemma {:induction false} SplitJoin(parts: seq<string>, sep: char)
    requires |parts| > 0
    requires forall k :: 0 <= k < |parts| ==> sep !in parts[k]
    ensures Split(Join(parts, sep), sep) == parts
  {
    if |parts| == 1 {
      SplitNoSep(parts[0], sep);
    } else {
      SplitJoin(parts[1..], sep);
      SplitAfterPart(parts[0], sep, Join(parts[1..], sep));
    }
  }

  /** `s.rsplit(sep, 1)[-1]` for a one-character separator: the text after
      the last separator, or all of `s` when it has none. */
  function AfterLast(s: string, sep: char): (r: string)
    ensures |r| <= |s| && r == s[|s| - |r|..]
    ensures sep !in r
    ensures |r| < |s| ==> s[|s| - |r| - 1] == sep
  {
    if s == [] then []
    else if s[|s| - 1] == sep then []
    else
      var r := AfterLast(s[..|s| - 1], sep);
      assert s[..|s| - 1][|s| - 1 - |r|..] + [s[|s| - 1]] == s[|s| - 1 - |r|..];
      r + [s[|s| - 1]]
  }

  /** `s.rsplit(sep, 1)[0]` for a one-character separator: the text before
      the last separator, or all of `s` when it has none. */
  function BeforeLast(s: string, sep: char): (r: string)
    ensures sep in s ==> s == r + [sep] + AfterLast(s, sep)
    ensures sep !in s ==> r == s && AfterLast(s, sep) == s
  {
    var tail := AfterLast(s, sep);
    if |tail| == |s| then s
    else
      assert s == s[..|s| - |tail| - 1] + [sep] + tail;
      s[..|s| - |tail| - 1]
  }

  /** `str.lower()` on ASCII letters; other characters are kept. */
  function LowerAscii(s: string): (r: string)
    ensures |r| == |s|
    ensures forall i :: 0 <= i < |s| ==>
      r[i] == (if 'A' <= s[i] <= 'Z' then (s[i] as int + 32) as char else s[i])
  {
    if s == [] then [] else
      [if 'A' <= s[0] <= 'Z' then (s[0] as int + 32) as char else s[0]] + LowerAscii(s[1..])
  }

  /** Text without upper-case letters is its own lower case. */
  lemma LowerAsciiKeepsLower(s: string)
    requires forall i :: 0 <= i < |s| ==> !('A' <= s[i] <= 'Z')
    ensures LowerAscii(s) == s
  {
    var r := LowerAscii(s);
    assert forall i :: 0 <= i < |s| ==> r[i] == s[i];
  }

  // ------------------------------------------------------------ round trips

  lemma {:induction false} DigitsValueOfNatDigits(n: nat, base: nat)
    requires base >= 2
    ensures DigitsValue(NatDigits(n, base), base) == n
    decreases n
  {
    if n < base {
      DigitsValueSnoc([], n, base);
    } else {
      var q, r := n / base, n % base;
      DivMod(n, base);
      DivLess(n, base);
      DigitsValueSnoc(NatDigits(q, base), r, base);
      DigitsValueOfNatDigits(q, base);
    }
  }

  lemma DigitsValueSnoc(ds: seq<nat>, d: nat, base: nat)
    ensures DigitsValue(ds + [d], base) == DigitsValue(ds, base) * base + d
  {
    assert (ds + [d])[..|ds|] == ds;
  }

  lemma DivLess(n: nat, base: nat)
    requires base >= 2 && n >= 1
    ensures n / base < n
  {
  }

  lemma DivMod(n: nat, base: nat)
    requires base > 0
    ensures (n / base) * base + n % base == n
  {
  }

  lemma {:induction false} DigitsValueLeadingZero(ds: seq<nat>, base: nat)
    ensures DigitsValue([0] + ds, base) == DigitsValue(ds, base)
    decreases |ds|
  {
    if ds != [] {
      var zs := [0] + ds;
      assert zs[..|zs| - 1] == [0] + ds[..|ds| - 1];
      DigitsValueLeadingZero(ds[..|ds| - 1], base);
    }
  }

  lemma {:induction false} RunDigitsOfDigitChars(ds: seq<nat>, base: nat)
    requires base <= 16
    requires forall i :: 0 <= i < |ds| ==> ds[i] < base
    ensures RunDigits(DigitChars(ds), base) == ds
    ensures forall i :: 0 <= i < |ds| ==> DigitOf(DigitChars(ds)[i], base).Some?
    decreases |ds|
  {
    if ds != [] {
      DigitCharRoundTrip(ds[0], base);
      var s := DigitChars(ds);
      assert s[1..] == DigitChars(ds[1..]);
      RunDigitsOfDigitChars(ds[1..], base);
      forall i | 0 <= i < |ds| ensures DigitOf(s[i], base).Some? {
        if i > 0 { assert s[i] == DigitChars(ds[1..])[i - 1]; }
      }
    }
  }

  lemma NatToStringShape(n: nat, base: nat)
    requires base == 10 || base == 16
    ensures var s := NatToString(n, base);
      GoodDigitRun(s, base, false) && IsDigitText(s)
      && DigitsValue(RunDigits(s, base), base) == n
  {
    var ds := NatDigits(n, base);
    RunDigitsOfDigitChars(ds, base);
    DigitsValueOfNatDigits(n, base);
    var s := DigitChars(ds);
    forall i | 0 <= i < |s| ensures s[i] != '_' && ('0' <= s[i] <= '9' || 'a' <= s[i] <= 'f') {
      DigitCharsAt(ds, i);
    }
  }

  lemma {:induction false} DigitCharsAt(ds: seq<nat>, i: nat)
    requires forall k :: 0 <= k < |ds| ==> ds[k] < 16
    requires i < |ds|
    ensures DigitChars(ds)[i] == DigitChar(ds[i])
    decreases |ds|
  {
    if i > 0 { DigitCharsAt(ds[1..], i - 1); }
  }

  /** Lower-case hexadecimal or decimal digit characters only. */
  predicate IsDigitText(s: string) {
    forall i :: 0 <= i < |s| ==> '0' <= s[i] <= '9' || 'a' <= s[i] <= 'f'
  }

  lemma UnsignedDigitsParse(s: string, base: nat)
    requires base == 10 || base == 16
    requires GoodDigitRun(s, base, false) && IsDigitText(s)
    ensures ParseSigned(s, base) == Some(DigitsValue(RunDigits(s, base), base))
  {
    assert s[0] != '-' && s[0] != '+';
    if |s| >= 2 {
      assert s[1] != 'x' && s[1] != 'X';
    }
  }

  lemma StripDigitText(s: string)
    requires |s| > 0 && IsDigitText(s[1..]) && (s[0] == '-' || '0' <= s[0] <= '9' || 'a' <= s[0] <= 'f')
    ensures StripStr(s) == s
  {
    assert !IsStrSpace(s[0]);
    if |s| > 1 { assert !IsStrSpace(s[|s| - 1]) by { assert s[|s| - 1] == s[1..][|s| - 2]; } }
    StripKeepsUnpadded(s, IsStrSpace);
  }

  /** `str(x)` is not empty and neither starts nor ends with white space. */
  lemma IntToStringEnds(x: int)
    ensures var s := IntToString(x);
      |s| > 0 && !IsStrSpace(s[0]) && !IsStrSpace(s[|s| - 1])
  {
    var n: nat := if x < 0 then -x else x;
    var digits := NatToString(n, 10);
    NatToStringShape(n, 10);
    assert |digits| > 0 && !IsStrSpace(digits[|digits| - 1]) && !IsStrSpace(digits[0]);
    if x < 0 {
      assert IntToString(x) == "-" + digits;
      assert IntToString(x)[|IntToString(x)| - 1] == digits[|digits| - 1];
    }
  }

  /** `int(str(x)) == x` for every int. */
  lemma ParseIntToString(x: int)
    ensures ParseInt(IntToString(x), 10) == Some(x)
  {
    if x < 0 {
      ParseNegIntToString(x);
    } else {
      ParsePosIntToString(x);
    }
  }

  lemma ParseNegIntToString(x: int)
    requires x < 0
    ensures ParseInt(IntToString(x), 10) == Some(x)
  {
    IntToStringCases(x);
    ParseNegativeToString(x);
  }

  lemma ParsePosIntToString(x: int)
    requires x >= 0
    ensures ParseInt(IntToString(x), 10) == Some(x)
  {
    IntToStringCases(x);
    ParseNatToString(x);
  }

  lemma IntToStringCases(x: int)
    ensures x < 0 ==> IntToString(x) == "-" + NatToString(-x, 10)
    ensures x >= 0 ==> IntToString(x) == NatToString(x, 10)
  {
  }

  lemma ParseNatToString(n: nat)
    ensures ParseInt(NatToString(n, 10), 10) == Some(n)
  {
    NatToStringShape(n, 10);
    ParseDigitText(NatToString(n, 10), 10);
  }

  /** `int()` of text without surrounding white space. */
  lemma ParseStripped(t: string, base: nat)
    requires base == 10 || base == 16
    requires StripStr(t) == t
    ensures ParseInt(t, base) == ParseSigned(t, base)
  {
  }

  lemma ParseNegativeToString(x: int)
    requires x < 0
    ensures ParseInt("-" + NatToString(-x, 10), 10) == Some(x)
  {
    var t := "-" + NatToString(-x, 10);
    assert |t| >= 2 && t[0] == '-' && t[1..] == NatToString(-x, 10);
    ParseNegativeText(t, x);
  }

  /** `int()` of a minus sign followed by `str(-x)`. */
  lemma ParseNegativeText(t: string, x: int)
    requires x < 0 && |t| >= 2 && t[0] == '-' && t[1..] == NatToString(-x, 10)
    ensures ParseInt(t, 10) == Some(x)
  {
    var n: nat := -x;
    var digits := t[1..];
    assert ParseSigned(t, 10) == Some(x) by {
      NatToStringShape(n, 10);
      assert digits[0] != '-' && digits[0] != '+' && digits[0] != '_';
      if |digits| >= 2 {
        assert digits[1] != 'x' && digits[1] != 'X';
      }
    }
    assert StripStr(t) == t by {
      NatToStringShape(n, 10);
      StripDigitText(t);
    }
    ParseStripped(t, 10);
  }

  /** Prefixing one zero keeps a digit run well formed and its value. */
  lemma LeadingZeroRun(digits: string, base: nat)
    requires 2 <= base <= 16
    requires GoodDigitRun(digits, base, false) && IsDigitText(digits)
    ensures var s := "0" + digits;
      GoodDigitRun(s, base, false) && IsDigitText(s)
      && DigitsValue(RunDigits(s, base), base) == DigitsValue(RunDigits(digits, base), base)
  {
    var s := "0" + digits;
    assert s[1..] == digits;
    assert RunDigits(s, base) == [0] + RunDigits(digits, base);
    DigitsValueLeadingZero(RunDigits(digits, base), base);
    forall i | 0 <= i < |s| - 1 ensures !(s[i] == '_' && s[i + 1] == '_') {
      assert s[i] == '0' || s[i] == digits[i - 1];
    }
    forall i | 0 <= i < |s| ensures '0' <= s[i] <= '9' || 'a' <= s[i] <= 'f' {
      if i > 0 { assert s[i] == digits[i - 1]; }
    }
    forall i | 0 <= i < |s| ensures s[i] == '_' || DigitOf(s[i], base).Some? {
      if i > 0 { assert s[i] == digits[i - 1]; }
    }
  }

  /** `int()` reads a plain run of digit characters as its value. */
  lemma ParseDigitText(s: string, base: nat)
    requires base == 10 || base == 16
    requires GoodDigitRun(s, base, false) && IsDigitText(s)
    ensures ParseInt(s, base) == Some(DigitsValue(RunDigits(s, base), base))
  {
    assert ParseSigned(s, base) == Some(DigitsValue(RunDigits(s, base), base)) by {
      UnsignedDigitsParse(s, base);
    }
    assert StripStr(s) == s by {
      assert IsDigitText(s[1..]) by {
        forall i | 0 <= i < |s| - 1 ensures '0' <= s[1..][i] <= '9' || 'a' <= s[1..][i] <= 'f' {
          assert s[1..][i] == s[i + 1];
        }
      }
      StripDigitText(s);
    }
    ParseStripped(s, base);
  }

  /** `int(format(x, 'x').zfill(2), 16) == x` for every x >= 0. */
  lemma ParseHexZFill(x: nat)
    ensures ParseInt(ZFill(HexString(x), 2), 16) == Some(x)
  {
    var digits := NatToString(x, 16);
    NatToStringShape(x, 16);
    if |digits| < 2 {
      assert ZFill(digits, 2) == "0" + digits;
      LeadingZeroRun(digits, 16);
      ParseDigitText("0" + digits, 16);
    } else {
      assert ZFill(digits, 2) == digits;
      ParseDigitText(digits, 16);
    }
  }
}
