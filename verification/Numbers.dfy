/** Printing and parsing numbers: fmt_num (user/libc/stdio.c:42-57) and strtol
    (user/libc/stdlib.c:143-198), on 32-bit long. Strings hold no NUL. */
module Numbers {
  import opened Machine

  const LONG_MAX: int := 0x7FFF_FFFF
  const LONG_MIN: int := -0x8000_0000

  function DigVal(c: char): nat
  {
    if '0' <= c <= '9' then (c - '0') as int
    else if 'a' <= c <= 'z' then (c - 'a') as int + 10
    else if 'A' <= c <= 'Z' then (c - 'A') as int + 10
    else 99
  }

  /** Neither white space, nor a sign, nor the x of a prefix. */
  predicate PlainChar(c: char)
  {
    c != '-' && c != '+' && c != ' ' && !('\t' <= c <= '\r') && c != 'x' && c != 'X'
  }

  /** Digit d as fmt_num prints it. */
  function Digit(d: nat, caps: bool): (c: char)
    requires d < 16
    ensures DigVal(c) == d && PlainChar(c)
  {
    if d < 10 then '0' + d as char else if caps then 'A' + (d - 10) as char else 'a' + (d - 10) as char
  }

  /** What a run of digits is worth. */
  function Value(ds: string, base: nat): nat
  {
    if ds == "" then 0 else Value(ds[..|ds| - 1], base) * base + DigVal(ds[|ds| - 1])
  }

  /** The digits of v, most significant first. */
  function Digits(v: nat, base: nat, caps: bool): (s: string)
    requires 2 <= base <= 16
    ensures s != ""
    decreases v
  {
    if v < base then [Digit(v, caps)] else Digits(v / base, base, caps) + [Digit(v % base, caps)]
  }

  ghost predicate AllDigits(s: string, base: nat)
  {
    forall i :: 0 <= i < |s| ==> DigVal(s[i]) < base && PlainChar(s[i])
  }

  lemma DivMod(v: nat, base: nat)
    requires base > 0
    ensures v == v / base * base + v % base && v % base < base
  {}

  /** Printing digits and reading them back. */
  lemma {:induction false} DigitsValue(v: nat, base: nat, caps: bool)
    requires 2 <= base <= 16
    ensures Value(Digits(v, base, caps), base) == v && AllDigits(Digits(v, base, caps), base)
    ensures v > 0 ==> DigVal(Digits(v, base, caps)[0]) != 0
    decreases v
  {
    hide DigVal, PlainChar, Digit;
    var s := Digits(v, base, caps);
    if v < base {
      assert Value(s[..0], base) == 0;
    } else {
      Quotient(v, base);
      DigitsValue(v / base, base, caps);
      DivMod(v, base);
      assert s[..|s| - 1] == Digits(v / base, base, caps);
    }
  }

  lemma Quotient(v: nat, base: nat)
    requires base >= 2 && v >= base
    ensures 0 < v / base < v
  {
    DivMod(v, base);
    MulMono(2, base, v / base);
  }

  // ------------------------------------------------------------------------- fmt_num

  function Pow8(n: nat): nat { if n == 0 then 1 else 8 * Pow8(n - 1) }

  lemma {:induction false} Pow8Bound(n: nat)
    requires n >= 11
    ensures Pow8(n) >= 0x1_0000_0000
  {
    if n == 11 {
      assert Pow8(3) == 512 && Pow8(6) == 262144;
      assert Pow8(9) == 512 * Pow8(6);
    } else {
      Pow8Bound(n - 1);
    }
  }

  function Pow10(n: nat): nat { if n == 0 then 1 else 10 * Pow10(n - 1) }

  /** Numbers below 10^n have at most n digits in base 10 and up. */
  lemma {:induction false} DigitsWithin(v: nat, base: nat, caps: bool, n: nat)
    requires 10 <= base <= 16 && v < Pow10(n) && n > 0
    ensures |Digits(v, base, caps)| <= n
    decreases n
  {
    if v >= base {
      assert Pow10(1) == 10;
      Tenth(v, base, Pow10(n - 1));
      DigitsWithin(v / base, base, caps, n - 1);
    }
  }

  lemma Tenth(v: nat, base: nat, p: nat)
    requires base >= 10 && v < 10 * p
    ensures v / base < p
  {
    DivMod(v, base);
    MulMono(10, base, v / base);
  }

  lemma DigitsFit(v: nat, base: nat, caps: bool)
    requires 10 <= base <= 16 && v < 0x1_0000_0000
    ensures |Digits(v, base, caps)| <= 10
  {
    assert Pow10(3) == 1000 && Pow10(6) == 1000000;
    assert Pow10(10) == 10000 * Pow10(6);
    DigitsWithin(v, base, caps, 10);
  }

  lemma Smaller(v: nat, base: nat, p: nat)
    requires base >= 8
    ensures v / base * (8 * p) <= v * p
  {
    DivMod(v, base);
    var q := v / base;
    MulMono(8, base, q);
    MulMono(q * 8, v, p);
    assert q * (8 * p) == (q * 8) * p;
  }

  lemma FewDigits(v: nat, n: nat, v0: nat)
    requires v > 0 && v * Pow8(n) <= v0 < 0x1_0000_0000
    ensures n < 11
  {
    Product(v, Pow8(n));
    if n >= 11 { Pow8Bound(n); }
  }

  function Quot(v: nat, base: nat): nat
    requires base > 0
  {
    v / base
  }

  function Rem(v: nat, base: nat): nat
    requires base > 0
  {
    v % base
  }

  /** n digits, `low`, have been split off v0 and v is left. */
  ghost predicate SplitOff(v0: nat, base: nat, caps: bool, v: nat, n: nat, low: string)
    requires 2 <= base <= 16
  {
    && |low| == n && v * Pow8(n) <= v0
    && Digits(v0, base, caps) == (if v == 0 && n > 0 then "" else Digits(v, base, caps)) + low
  }

  lemma SplitOne(v0: nat, base: nat, caps: bool, v: nat, n: nat, low: string)
    requires 8 <= base <= 16 && v0 < 0x1_0000_0000 && SplitOff(v0, base, caps, v, n, low) && (v > 0 || n == 0)
    ensures Rem(v, base) < 16 && SplitOff(v0, base, caps, Quot(v, base), n + 1, [Digit(Rem(v, base), caps)] + low)
    ensures Quot(v, base) > 0 ==> n + 1 < 11 && Quot(v, base) < v
  {
    hide Digits, Digit;
    Unfold(v, base, caps);
    Smaller(v, base, Pow8(n));
    if v / base > 0 { FewDigits(v / base, n + 1, v0); }
  }

  /** Render v; the scratch buffer of 11 characters is always enough. */
  method FmtNum(v0: nat, base: nat, caps: bool) returns (s: string)
    requires v0 < 0x1_0000_0000 && 8 <= base <= 16
    ensures s == Digits(v0, base, caps) && |s| <= 11
  {
    hide SplitOff, Digits, Digit, Quot, Rem;
    var rev := new char[11];
    var v: nat, n: nat := v0, 0;
    ghost var low: string := "";   // digits produced so far, in order
    Whole(v0, base, caps);
    while true
      invariant n < 11 && |low| == n && (v > 0 || n == 0) && SplitOff(v0, base, caps, v, n, low)
      invariant forall i :: 0 <= i < n ==> rev[i] == low[n - 1 - i]
      decreases v
    {
      SplitOne(v0, base, caps, v, n, low);
      var c := Digit(Rem(v, base), caps);
      low := [c] + low;
      rev[n] := c;
      n := n + 1;
      v := Quot(v, base);
      if v == 0 { break; }
    }
    s := Reversed(rev, n);
    assert s == low;
    AllSplit(v0, base, caps, n, low);
  }

  lemma Whole(v0: nat, base: nat, caps: bool)
    requires 2 <= base <= 16
    ensures SplitOff(v0, base, caps, v0, 0, "")
  {
    assert Pow8(0) == 1;
  }

  lemma AllSplit(v0: nat, base: nat, caps: bool, n: nat, low: string)
    requires 2 <= base <= 16 && n > 0 && SplitOff(v0, base, caps, 0, n, low)
    ensures low == Digits(v0, base, caps)
  {}

  method Reversed(rev: array<char>, n: nat) returns (s: string)
    requires n <= rev.Length
    ensures |s| == n && forall j :: 0 <= j < n ==> s[j] == rev[n - 1 - j]
  {
    s := "";
    for i := 0 to n
      invariant |s| == i && forall j :: 0 <= j < i ==> s[j] == rev[n - 1 - j]
    {
      s := s + [rev[n - 1 - i]];
    }
  }

  lemma Product(v: nat, p: nat)
    requires v > 0
    ensures v * p >= p
  {
    assert (v - 1) * p >= 0;
  }

  lemma Unfold(v: nat, base: nat, caps: bool)
    requires 2 <= base <= 16
    ensures v % base < 16 && Digits(v, base, caps) ==
              (if v / base == 0 then [] else Digits(v / base, base, caps)) + [Digit(v % base, caps)]
    ensures v > 0 ==> v / base < v
  {
    DivMod(v, base);
    if v >= base { Quotient(v, base); } else { SmallQuotient(v, base); }
  }

  lemma SmallQuotient(v: nat, base: nat)
    requires v < base
    ensures v / base == 0 && v % base == v
  {}

  // -------------------------------------------------------------------------- strtol

  /** Character i of a NUL-terminated string. */
  function Ch(s: string, i: nat): char { if i < |s| then s[i] else '\0' }

  predicate IsSpace(c: char) { c == ' ' || '\t' <= c <= '\r' }

  /** First position from i on that is not white space. */
  function SkipSpaces(s: string, i: nat): (j: nat)
    requires i <= |s|
    ensures i <= j <= |s|
    decreases |s| - i
  {
    if i < |s| && IsSpace(s[i]) then SkipSpaces(s, i + 1) else i
  }

  /** First position from i on that is not a digit of the base. */
  function RunEnd(s: string, i: nat, base: nat): (j: nat)
    requires i <= |s|
    ensures i <= j <= |s|
    decreases |s| - i
  {
    if i < |s| && DigVal(s[i]) < base then RunEnd(s, i + 1, base) else i
  }

  /** The nearest long: what the C standard asks for out of range. */
  function Clamp(neg: bool, v: nat): int
  {
    if neg then (if 0 - v < LONG_MIN then LONG_MIN else 0 - v) else if v > LONG_MAX then LONG_MAX else v
  }

  predicate HexPrefix(s: string, i: nat) { Ch(s, i) == '0' && Ch(s, i + 1) in {'x', 'X'} && DigVal(Ch(s, i + 2)) < 16 }

  /** Where the number starts: past white space and a sign. */
  function Signed(s: string): nat
  {
    var i := SkipSpaces(s, 0);
    if Ch(s, i) in {'+', '-'} then i + 1 else i
  }

  function Negative(s: string): bool { Ch(s, SkipSpaces(s, 0)) == '-' }

  /** The base as digits are compared with it: below 0 it admits none, like 0. */
  function Radix(base: int): nat { if base < 0 then 0 else base }

  function Base(s: string, base: int): nat
  {
    if base in {0, 16} && HexPrefix(s, Signed(s)) then 16
    else if base == 0 then (if Ch(s, Signed(s)) == '0' then 8 else 10)
    else Radix(base)
  }

  function Start(s: string, base: int): (i: nat)
    ensures i <= |s|
  {
    if base in {0, 16} && HexPrefix(s, Signed(s)) then Signed(s) + 2 else Signed(s)
  }

  /** The digits read, in the base they are read in. */
  function DigitRun(s: string, base: int): string
  {
    s[Start(s, base)..RunEnd(s, Start(s, base), Base(s, base))]
  }

  lemma ValueMore(ds: string, c: char, base: nat)
    ensures Value(ds + [c], base) == Value(ds, base) * base + DigVal(c)
  {
    assert (ds + [c])[..|ds|] == ds;
  }

  /** The overflow test of the accumulator is exact. */
  lemma CutTest(acc: nat, d: nat, base: nat, cut: nat)
    requires d <= cut && base > 0
    ensures acc > (cut - d) / base <==> acc * base + d > cut
  {
    DivMod(cut - d, base);
    var q := (cut - d) / base;
    if acc > q { MulMono(q + 1, acc, base); } else { MulMono(acc, q, base); }
  }

  lemma Grows(v: nat, base: nat, d: nat)
    requires base > 0
    ensures v * base + d >= v
  {
    assert v * (base - 1) >= 0;
  }

  /** The accumulator after the digits ds: their value, or known to be past the limit. */
  ghost predicate Accumulated(ds: string, base: nat, cut: nat, acc: nat, over: bool)
  {
    acc <= cut && if over then Value(ds, base) > cut else Value(ds, base) == acc
  }

  lemma Accumulate(ds: string, c: char, base: nat, cut: nat, acc: nat, over: bool)
    requires Accumulated(ds, base, cut, acc, over) && DigVal(c) < base <= 99 <= cut
    ensures var full := acc > (cut - DigVal(c)) / base;
      Accumulated(ds + [c], base, cut, if full then acc else acc * base + DigVal(c), over || full)
  {
    ValueMore(ds, c, base);
    CutTest(acc, DigVal(c), base, cut);
    Grows(Value(ds, base), base, DigVal(c));
    Grows(acc, base, DigVal(c));
  }

  /** Digits into an unsigned accumulator that never passes the limit for this sign. */
  method Digitize(s: string, start: nat, base: int, cut: nat) returns (p: nat, acc: nat, over: bool)
    requires start <= |s| && base <= 99 <= cut
    ensures p == RunEnd(s, start, Radix(base)) && Accumulated(s[start..p], Radix(base), cut, acc, over)
  {
    hide Value, Accumulated, DigVal;
    p, acc, over := start, 0, false;
    Zeroed(Radix(base), cut);
    assert s[start..start] == "";
    while DigVal(Ch(s, p)) < base
      invariant start <= p <= |s| && RunEnd(s, start, Radix(base)) == RunEnd(s, p, Radix(base))
      invariant Accumulated(s[start..p], Radix(base), cut, acc, over)
      decreases |s| - p
    {
      NotNul(s, p, base);
      var d := DigVal(s[p]);
      Accumulate(s[start..p], s[p], base, cut, acc, over);
      assert s[start..p + 1] == s[start..p] + [s[p]];
      if acc > (cut - d) / base {
        over := true;
      } else {
        acc := acc * base + d;
      }
      p := p + 1;
    }
  }

  lemma Zeroed(base: nat, cut: nat)
    ensures Accumulated("", base, cut, 0, false)
  {}

  lemma NotNul(s: string, p: nat, base: nat)
    requires DigVal(Ch(s, p)) < base <= 99
    ensures p < |s|
  {}

  /** Past white space and a sign. */
  method ReadSign(s: string) returns (neg: bool, p: nat)
    ensures neg == Negative(s) && p == Signed(s) && p <= |s|
  {
    p := 0;
    while IsSpace(Ch(s, p))
      invariant p <= |s| && SkipSpaces(s, 0) == SkipSpaces(s, p)
      decreases |s| - p
    {
      p := p + 1;
    }
    neg := false;
    if Ch(s, p) == '+' || Ch(s, p) == '-' {
      neg := Ch(s, p) == '-';
      p := p + 1;
    }
  }

  method ReadPrefix(s: string, p0: nat, base0: int) returns (base: int, p: nat)
    requires p0 == Signed(s)
    ensures Radix(base) == Base(s, base0) && p == Start(s, base0) && (base0 <= 99 ==> base <= 99)
  {
    hide DigVal, Signed;
    p, base := p0, base0;
    if (base == 0 || base == 16) && Ch(s, p) == '0' && (Ch(s, p + 1) == 'x' || Ch(s, p + 1) == 'X')
       && DigVal(Ch(s, p + 2)) < 16 {
      base := 16;
      p := p + 2;
    } else if base == 0 {
      base := if Ch(s, p) == '0' then 8 else 10;
    }
  }

  /** The number a string stands for: the value of its digit run, clamped to long. */
  function Parsed(s: string, base0: int): int
  {
    Clamp(Negative(s), Value(DigitRun(s, base0), Base(s, base0)))
  }

  /** Where it ends; 0 without digits. */
  function ParsedEnd(s: string, base0: int): nat
  {
    if DigitRun(s, base0) == "" then 0 else Start(s, base0) + |DigitRun(s, base0)|
  }

  /** strtol: the value of the digit run, clamped to long, and where it ends. A base of 100
      or more would take the end of the string for a digit. */
  method Strtol(s: string, base0: int) returns (r: int, end: nat)
    requires base0 <= 99
    ensures r == Parsed(s, base0) && end == ParsedEnd(s, base0)
  {
    hide Value, DigVal, RunEnd, Base, Start, Negative, Signed;
    var neg, p := ReadSign(s);
    var base;
    base, p := ReadPrefix(s, p, base0);
    var cut := if neg then LONG_MAX + 1 else LONG_MAX;
    var q, acc, over := Digitize(s, p, base, cut);
    end := if q > p then q else 0;
    if over { return if neg then LONG_MIN else LONG_MAX, end; }
    if neg { return if acc > LONG_MAX then LONG_MIN else 0 - acc, end; }
    r := acc;
  }

  // ---------------------------------------------------------------------- round trips

  /** What %d prints. */
  function Decimal(v: int): string { if v < 0 then "-" + Digits(0 - v, 10, false) else Digits(v, 10, false) }

  lemma {:induction false} RunToEnd(s: string, i: nat, base: nat)
    requires i <= |s| && forall j :: i <= j < |s| ==> DigVal(s[j]) < base
    ensures RunEnd(s, i, base) == |s|
    decreases |s| - i
  {
    if i < |s| { RunToEnd(s, i + 1, base); }
  }

  lemma NoSpaces(s: string)
    requires s != "" && !IsSpace(s[0])
    ensures SkipSpaces(s, 0) == 0
  {}

  lemma NoPrefix(s: string, i: nat)
    requires i + 1 < |s| ==> PlainChar(s[i + 1])
    ensures !HexPrefix(s, i)
  {}

  /** A sign and digits of the base read back as just that. */
  lemma SignAndDigits(minus: bool, ds: string, base: nat)
    requires ds != "" && 2 <= base <= 36 && AllDigits(ds, base)
    ensures var s := (if minus then "-" else "") + ds;
      Negative(s) == minus && Base(s, base) == base && DigitRun(s, base) == ds && Start(s, base) + |ds| == |s|
  {
    hide DigVal, SkipSpaces, HexPrefix, RunEnd;
    var s := (if minus then "-" else "") + ds;
    var i := if minus then 1 else 0;
    assert forall j :: i <= j < |s| ==> s[j] == ds[j - i];
    NoSpaces(s);
    NoPrefix(s, i);
    RunToEnd(s, i, base);
    assert s[i..|s|] == ds;
  }

  /** Reading what %d printed gives the number back, for every 32-bit value. */
  lemma DecimalRoundTrip(v: int)
    requires LONG_MIN <= v <= LONG_MAX
    ensures Parsed(Decimal(v), 10) == v && ParsedEnd(Decimal(v), 10) == |Decimal(v)|
  {
    hide Value, DigVal, DigitRun, Negative, Base, Start;
    var n := if v < 0 then 0 - v else v;
    DigitsValue(n, 10, false);
    SignAndDigits(v < 0, Digits(n, 10, false), 10);
    assert "" + Digits(n, 10, false) == Digits(n, 10, false);
  }

  /** Reading what %x or %X printed gives the number back, clamped to the largest long. */
  lemma HexRoundTrip(v: nat, caps: bool)
    requires v < 0x1_0000_0000
    ensures Parsed(Digits(v, 16, caps), 16) == if v <= LONG_MAX then v else LONG_MAX
    ensures ParsedEnd(Digits(v, 16, caps), 16) == |Digits(v, 16, caps)|
  {
    hide Value, DigVal, DigitRun, Negative, Base, Start;
    DigitsValue(v, 16, caps);
    SignAndDigits(false, Digits(v, 16, caps), 16);
    assert "" + Digits(v, 16, caps) == Digits(v, 16, caps);
  }
}
