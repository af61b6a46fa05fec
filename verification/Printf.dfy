/** Formatted output (user/libc/stdio.c:12-220): one formatter over two kinds of
    sink. Strings hold no NUL; arguments of the wrong type read as 0 or "". */
module Printf {
  import opened Numbers

  const PEND: nat := 128

  // --------------------------------------------------------------------- the sinks

  /** Where bytes go: a buffer of fixed capacity, or a descriptor by way of a small batch. */
  class Sink {
    const toFd: bool
    const buf: array<char>   // its length is the capacity, terminator included
    const pend: array<char>
    var npend: nat
    var total: nat
    var written: string      // what write() was given so far
    ghost var out: string    // everything emitted

    ghost predicate Valid()
      reads this, buf, pend
    {
      && pend.Length == PEND && npend < PEND && buf != pend && total == |out|
      && (toFd ==> written + pend[..npend] == out)
      && (!toFd ==> written == "" && forall i :: 0 <= i < total && i + 1 < buf.Length ==> buf[i] == out[i])
    }

    constructor (toFd: bool, buf: array<char>)
      ensures Valid() && out == "" && total == 0 && this.toFd == toFd && this.buf == buf && fresh(pend)
    {
      this.toFd, this.buf := toFd, buf;
      pend := new char[PEND];
      npend, total, written, out := 0, 0, "", "";
    }

    method Flush()
      requires pend.Length == PEND && npend <= PEND
      modifies `npend, `written
      ensures npend == 0 && written == old(written) + pend[..old(npend)]
    {
      if npend > 0 {
        written := written + pend[..npend];
        npend := 0;
      }
    }

    method Emit(c: char)
      requires Valid()
      modifies `npend, `total, `written, `out, buf, pend
      ensures Valid() && out == old(out) + [c]
    {
      if toFd {
        ghost var was := pend[..npend];
        pend[npend] := c;
        npend := npend + 1;
        assert pend[..npend] == was + [c];
        assert written + pend[..npend] == out + [c];
        if npend == PEND { Flush(); }
      } else if total + 1 < buf.Length {
        buf[total] := c;
      }
      total := total + 1;
      out := out + [c];
    }

    method EmitAll(s: string)
      requires Valid()
      modifies `npend, `total, `written, `out, buf, pend
      ensures Valid() && out == old(out) + s
    {
      for i := 0 to |s|
        invariant Valid() && out == old(out) + s[..i]
      {
        Emit(s[i]);
      }
    }

    method Repeat(c: char, n: nat)
      requires Valid()
      modifies `npend, `total, `written, `out, buf, pend
      ensures Valid() && out == old(out) + Rep(c, n)
    {
      for i := 0 to n
        invariant Valid() && out == old(out) + Rep(c, i)
      {
        Emit(c);
      }
    }
  }

  function Rep(c: char, n: nat): string { if n == 0 then "" else Rep(c, n - 1) + [c] }

  // -------------------------------------------------------------- what a format means

  datatype Arg = Int(v: int) | Str(s: string) | Null

  function AsUnsigned(v: int): nat { v % 0x1_0000_0000 }

  function AsSigned(v: int): int { var u := AsUnsigned(v); if u > LONG_MAX then u - 0x1_0000_0000 else u }

  function NextInt(args: seq<Arg>): int { if args != [] && args[0].Int? then AsSigned(args[0].v) else 0 }

  function NextStr(args: seq<Arg>): string
  {
    if args == [] || args[0].Int? then "" else if args[0].Null? then "(null)" else args[0].s
  }

  function After(args: seq<Arg>): seq<Arg> { if args == [] then [] else args[1..] }

  /** Flags, width and precision of one directive; a negative precision means none. */
  datatype Field = Field(left: bool, zero: bool, width: nat, prec: int)

  /** First position from i on that holds neither a nor b. */
  function SkipBoth(f: string, i: nat, a: char, b: char): (j: nat)
    requires i <= |f|
    ensures i <= j <= |f|
    decreases |f| - i
  {
    if i < |f| && (f[i] == a || f[i] == b) then SkipBoth(f, i + 1, a, b) else i
  }

  function SkipNumber(f: string, i: nat): (j: nat)
    requires i <= |f|
    ensures i <= j <= |f|
    decreases |f| - i
  {
    if i < |f| && '0' <= f[i] <= '9' then SkipNumber(f, i + 1) else i
  }

  /** A number written out, or taken from the arguments for a star: value, next position, arguments left. */
  function Amount(f: string, i: nat, args: seq<Arg>): (r: (int, nat, seq<Arg>))
    requires i <= |f|
    ensures i <= r.1 <= |f|
  {
    if Ch(f, i) == '*' then (NextInt(args), i + 1, After(args))
    else (Value(f[i..SkipNumber(f, i)], 10), SkipNumber(f, i), args)
  }

  function Precision(f: string, i: nat, args: seq<Arg>): (r: (int, nat, seq<Arg>))
    requires i <= |f|
    ensures i <= r.1 <= |f|
  {
    if Ch(f, i) == '.' then Amount(f, i + 1, args) else (-1, i, args)
  }

  function Abs(x: int): nat { if x < 0 then 0 - x else x }

  /** The directive whose flags start at i: field, position of its conversion, arguments left. */
  function Directive(f: string, i: nat, args: seq<Arg>): (r: (Field, nat, seq<Arg>))
    requires i <= |f|
    ensures i <= r.1 <= |f|
  {
    var a := SkipBoth(f, i, '-', '0');
    var w := Amount(f, a, args);
    var p := Precision(f, w.1, w.2);
    (Field('-' in f[i..a] || w.0 < 0, '0' in f[i..a], Abs(w.0), p.0), SkipBoth(f, p.1, 'l', 'h'), p.2)
  }

  /** The text of one conversion before padding. */
  datatype Body = Body(minus: bool, text: string, numeric: bool)

  predicate Known(c: char) { c in {'d', 'i', 'u', 'x', 'X', 'p', 'c', 's'} }

  function Take(s: string, prec: int): string { if 0 <= prec < |s| then s[..prec] else s }

  function Convert(c: char, prec: int, args: seq<Arg>): Body
    requires Known(c)
  {
    var v := NextInt(args);
    match c
    case 'u' => Body(false, Digits(AsUnsigned(v), 10, false), true)
    case 'x' => Body(false, Digits(AsUnsigned(v), 16, false), true)
    case 'X' => Body(false, Digits(AsUnsigned(v), 16, true), true)
    case 'p' => Body(false, "0x" + Digits(AsUnsigned(v), 16, false), true)
    case 'c' => Body(false, [(v % 256) as char], false)
    case 's' => Body(false, Take(NextStr(args), prec), false)
    case _ => Body(v < 0, Digits(Abs(v), 10, false), true)
  }

  function Zeros(d: Field, b: Body): nat
  {
    var n := |b.text| + (if b.minus then 1 else 0);
    if b.numeric && d.prec > |b.text| then d.prec - |b.text|
    else if b.numeric && d.zero && !d.left && d.prec < 0 && d.width > n then d.width - n
    else 0
  }

  function Core(d: Field, b: Body): string { (if b.minus then "-" else "") + Rep('0', Zeros(d, b)) + b.text }

  /** The text padded to its field. */
  function Padded(d: Field, b: Body): string
  {
    var core := Core(d, b);
    var pad := Rep(' ', if d.width > |core| then d.width - |core| else 0);
    if d.left then core + pad else pad + core
  }

  /** Everything a format prints from position i on. */
  function Render(f: string, i: nat, args: seq<Arg>): string
    requires i <= |f|
    decreases |f| - i
  {
    if i == |f| then ""
    else if f[i] != '%' then [f[i]] + Render(f, i + 1, args)
    else
      var (d, j, rest) := Directive(f, i + 1, args);
      if j == |f| then "%"
      else if Known(f[j]) then Padded(d, Convert(f[j], d.prec, rest)) + Render(f, j + 1, After(rest))
      else if f[j] == '%' then "%" + Render(f, j + 1, rest)
      else "%" + [f[j]] + Render(f, j + 1, rest)
  }

  lemma {:induction false} RepLength(c: char, n: nat)
    ensures |Rep(c, n)| == n
  {
    if n > 0 { RepLength(c, n - 1); }
  }

  /** A field is as wide as asked, or as its text needs; a number keeps its digits at the end
      of a right-aligned field. */
  lemma FieldWidth(d: Field, b: Body)
    ensures |Padded(d, b)| == if d.width > |Core(d, b)| then d.width else |Core(d, b)|
    ensures b.numeric && d.prec >= 0 ==>
              |Core(d, b)| == (if b.minus then 1 else 0) + if d.prec > |b.text| then d.prec else |b.text|
    ensures !d.left ==> b.text <= Padded(d, b)[|Padded(d, b)| - |b.text|..]
  {
    RepLength(' ', if d.width > |Core(d, b)| then d.width - |Core(d, b)| else 0);
    RepLength('0', Zeros(d, b));
  }

  /** A directive of a bare conversion letter prints the conversion's text. */
  lemma Bare(c: char, args: seq<Arg>)
    requires Known(c) && c != 's' && c != 'c'
    ensures Render(['%', c], 0, args) == Core(Field(false, false, 0, -1), Convert(c, -1, args))
    ensures Zeros(Field(false, false, 0, -1), Convert(c, -1, args)) == 0
  {
    hide Convert;
    var f := ['%', c];
    assert SkipBoth(f, 1, '-', '0') == 1 && SkipNumber(f, 1) == 1 && SkipBoth(f, 1, 'l', 'h') == 1;
    assert f[1..1] == "" && Value("", 10) == 0;
    var d := Field(false, false, 0, -1);
    assert Directive(f, 1, args) == (d, 1, args);
    var b := Convert(c, -1, args);
    assert Rep(' ', 0) == "" && Padded(d, b) == Core(d, b);
    assert Render(f, 2, After(args)) == "";
  }

  lemma SignedSame(v: int)
    requires LONG_MIN <= v <= LONG_MAX
    ensures AsSigned(v) == v
  {}

  lemma UnsignedSame(v: nat)
    requires v < 0x1_0000_0000
    ensures AsUnsigned(AsSigned(v)) == v
  {}

  /** A bare %d prints the decimal numeral. */
  lemma PlainDecimal(v: int)
    requires LONG_MIN <= v <= LONG_MAX
    ensures Render("%d", 0, [Int(v)]) == Decimal(v)
  {
    hide Render, Digits, AsSigned;
    Bare('d', [Int(v)]);
    SignedSame(v);
    assert "%d" == ['%', 'd'] && Rep('0', 0) == "";
  }

  /** A bare %x or %X prints the hexadecimal numeral. */
  lemma PlainHex(v: nat, caps: bool)
    requires v < 0x1_0000_0000
    ensures Render(HexFormat(caps), 0, [Int(v)]) == Digits(v, 16, caps)
  {
    hide Render, Digits, AsSigned, AsUnsigned;
    Bare(if caps then 'X' else 'x', [Int(v)]);
    UnsignedSame(v);
    assert Rep('0', 0) == "";
  }

  function HexFormat(caps: bool): string { if caps then ['%', 'X'] else ['%', 'x'] }

  // ------------------------------------------------------------------- the formatter

  /** Decimal digits from position i on. */
  method ReadNumber(f: string, i0: nat) returns (n: nat, i: nat)
    requires i0 <= |f|
    ensures i == SkipNumber(f, i0) && n == Value(f[i0..i], 10)
  {
    hide Value;
    n, i := 0, i0;
    NoDigits(f, i0);
    while '0' <= Ch(f, i) <= '9'
      invariant i0 <= i <= |f| && SkipNumber(f, i0) == SkipNumber(f, i) && n == Value(f[i0..i], 10)
      decreases |f| - i
    {
      OneDigit(f, i0, i);
      n := n * 10 + (f[i] - '0') as int;
      i := i + 1;
    }
  }

  lemma NoDigits(f: string, i: nat)
    requires i <= |f|
    ensures Value(f[i..i], 10) == 0
  {}

  lemma OneDigit(f: string, i0: nat, i: nat)
    requires i0 <= i < |f| && '0' <= f[i] <= '9'
    ensures Value(f[i0..i + 1], 10) == Value(f[i0..i], 10) * 10 + (f[i] - '0') as int
  {
    hide Value;
    ValueMore(f[i0..i], f[i], 10);
    assert f[i0..i + 1] == f[i0..i] + [f[i]];
  }

  method ReadAmount(f: string, i0: nat, args: seq<Arg>) returns (n: int, i: nat, rest: seq<Arg>)
    requires i0 <= |f|
    ensures (n, i, rest) == Amount(f, i0, args)
  {
    if Ch(f, i0) == '*' {
      n, i, rest := NextInt(args), i0 + 1, After(args);
    } else {
      n, i := ReadNumber(f, i0);
      rest := args;
    }
  }

  method ReadFlags(f: string, i0: nat) returns (left: bool, zero: bool, i: nat)
    requires i0 <= |f|
    ensures i == SkipBoth(f, i0, '-', '0') && left == ('-' in f[i0..i]) && zero == ('0' in f[i0..i])
  {
    left, zero, i := false, false, i0;
    while true
      invariant i0 <= i <= |f| && SkipBoth(f, i0, '-', '0') == SkipBoth(f, i, '-', '0')
      invariant left == ('-' in f[i0..i]) && zero == ('0' in f[i0..i])
      decreases |f| - i
    {
      if i < |f| { assert f[i0..i + 1] == f[i0..i] + [f[i]]; }
      if Ch(f, i) == '-' {
        left := true;
      } else if Ch(f, i) == '0' {
        zero := true;
      } else {
        break;
      }
      i := i + 1;
    }
  }

  method ReadDirective(f: string, i0: nat, args: seq<Arg>) returns (d: Field, i: nat, rest: seq<Arg>)
    requires i0 <= |f|
    ensures (d, i, rest) == Directive(f, i0, args)
  {
    hide Value, Amount;
    var left, zero;
    left, zero, i := ReadFlags(f, i0);
    var width: int;
    width, i, rest := ReadAmount(f, i, args);
    if width < 0 {
      left := true;
      width := 0 - width;
    }
    var prec := -1;
    if Ch(f, i) == '.' {
      i := i + 1;
      prec, i, rest := ReadAmount(f, i, rest);
    }
    d := Field(left, zero, width, prec);
    ghost var j := i;
    while Ch(f, i) == 'l' || Ch(f, i) == 'h'
      invariant j <= i <= |f| && SkipBoth(f, j, 'l', 'h') == SkipBoth(f, i, 'l', 'h')
      decreases |f| - i
    {
      i := i + 1;
    }
  }

  /** The digits or characters of one conversion. */
  method MakeBody(c: char, prec: int, args: seq<Arg>) returns (b: Body)
    requires Known(c)
    ensures b == Convert(c, prec, args)
  {
    hide Digits;
    var v := NextInt(args);
    match c
    case 'u' => var t := FmtNum(AsUnsigned(v), 10, false); b := Body(false, t, true);
    case 'x' => var t := FmtNum(AsUnsigned(v), 16, false); b := Body(false, t, true);
    case 'X' => var t := FmtNum(AsUnsigned(v), 16, true); b := Body(false, t, true);
    case 'p' => var t := FmtNum(AsUnsigned(v), 16, false); b := Body(false, "0x" + t, true);
    case 'c' => b := Body(false, [(v % 256) as char], false);
    case 's' =>
      var s := NextStr(args);
      var len := 0;
      while len < |s| && (prec < 0 || len < prec)
        invariant len <= |s| && (prec >= 0 ==> len <= prec)
      {
        len := len + 1;
      }
      b := Body(false, s[..len], false);
    case _ =>
      var t := FmtNum(Abs(v), 10, false);
      b := Body(v < 0, t, true);
  }

  /** Print one conversion in its field. */
  method EmitField(o: Sink, d: Field, b: Body)
    requires o.Valid()
    modifies o`npend, o`total, o`written, o`out, o.buf, o.pend
    ensures o.Valid() && o.out == old(o.out) + Padded(d, b)
  {
    hide Core, Sink.Valid;
    var zeros := CountZeros(d, b);
    var body := (if b.minus then 1 else 0) + zeros + |b.text|;
    CoreLength(d, b);
    var pad := if d.width > body then d.width - body else 0;
    if !d.left { o.Repeat(' ', pad); }
    EmitCore(o, d, b, zeros);
    if d.left { o.Repeat(' ', pad); }
  }

  lemma CoreLength(d: Field, b: Body)
    ensures |Core(d, b)| == (if b.minus then 1 else 0) + Zeros(d, b) + |b.text|
  {
    RepLength('0', Zeros(d, b));
  }

  method CountZeros(d: Field, b: Body) returns (zeros: nat)
    ensures zeros == Zeros(d, b)
  {
    var len, sign := |b.text|, if b.minus then 1 else 0;
    zeros := 0;
    if b.numeric && d.prec > len {
      zeros := d.prec - len;
    } else if b.numeric && d.zero && !d.left && d.prec < 0 && d.width > len + sign {
      zeros := d.width - len - sign;
    }
  }

  method EmitCore(o: Sink, d: Field, b: Body, zeros: nat)
    requires o.Valid() && zeros == Zeros(d, b)
    modifies o`npend, o`total, o`written, o`out, o.buf, o.pend
    ensures o.Valid() && o.out == old(o.out) + Core(d, b)
  {
    hide Sink.Valid, Zeros, Rep;
    if b.minus { o.Emit('-'); }
    o.Repeat('0', zeros);
    o.EmitAll(b.text);
  }

  /** Walk the format and push bytes at the sink: the same bytes whatever the sink. */
  method Format(o: Sink, f: string, args0: seq<Arg>)
    requires o.Valid()
    modifies o`npend, o`total, o`written, o`out, o.buf, o.pend
    ensures o.Valid() && o.out == old(o.out) + Render(f, 0, args0)
  {
    hide Render, Sink.Valid;
    var i, args := 0, args0;
    ghost var printed: string := "";
    while i < |f|
      invariant i <= |f| && o.Valid() && o.out == old(o.out) + printed
      invariant Render(f, 0, args0) == printed + Render(f, i, args)
      decreases |f| - i
    {
      ghost var text;
      i, args, text := Step(o, f, i, args);
      printed := printed + text;
    }
    AtEnd(f, args);
  }

  lemma AtEnd(f: string, args: seq<Arg>)
    ensures Render(f, |f|, args) == ""
  {}

  /** One character or one directive. */
  method Step(o: Sink, f: string, i0: nat, args0: seq<Arg>) returns (i: nat, args: seq<Arg>, ghost text: string)
    requires o.Valid() && i0 < |f|
    modifies o`npend, o`total, o`written, o`out, o.buf, o.pend
    ensures o.Valid() && i0 < i <= |f| && o.out == old(o.out) + text
    ensures Render(f, i0, args0) == text + Render(f, i, args)
  {
    hide Directive, Padded, Convert, Sink.Valid;
    if f[i0] != '%' {
      o.Emit(f[i0]);
      return i0 + 1, args0, [f[i0]];
    }
    var d, j, rest := ReadDirective(f, i0 + 1, args0);
    i, args := j + 1, rest;
    if j == |f| {
      o.Emit('%');
      return j, rest, "%";
    }
    if Known(f[j]) {
      var b := MakeBody(f[j], d.prec, rest);
      EmitField(o, d, b);
      text := Padded(d, b);
      args := After(rest);
    } else {
      o.Emit('%');
      text := "%";
      if f[j] != '%' {
        o.Emit(f[j]);
        text := "%" + [f[j]];
      }
    }
  }

  // --------------------------------------------------------------------- entry points

  /** vsnprintf: the count is of the whole text, the buffer holds the part that fits, terminated. */
  method Vsnprintf(buf: array<char>, f: string, args: seq<Arg>) returns (n: nat)
    modifies buf
    ensures n == |Render(f, 0, args)|
    ensures buf.Length > 0 ==>
              var k := if n < buf.Length then n else buf.Length - 1;
              buf[..k] == Render(f, 0, args)[..k] && buf[k] == '\0'
  {
    hide Render;
    var o := new Sink(false, buf);
    Format(o, f, args);
    if buf.Length > 0 {
      buf[if o.total < buf.Length then o.total else buf.Length - 1] := '\0';
    }
    n := o.total;
  }

  /** vdprintf: the descriptor gets the whole text, however it was batched. */
  method Vdprintf(f: string, args: seq<Arg>) returns (n: nat, written: string)
    ensures written == Render(f, 0, args) && n == |written|
  {
    hide Render;
    var none := new char[0];
    var o := new Sink(true, none);
    Format(o, f, args);
    o.Flush();
    n, written := o.total, o.written;
  }

  /** Printing a number with %d into a buffer and reading it back with strtol gives the
      number, for every 32-bit value, to the end of the text. */
  method DecimalThere(buf: array<char>, v: int) returns (r: int, n: nat, end: nat)
    requires buf.Length >= 12 && LONG_MIN <= v <= LONG_MAX
    modifies buf
    ensures r == v && end == n < buf.Length
  {
    hide Render, Parsed, ParsedEnd, Decimal;
    PlainDecimal(v);
    DecimalRoundTrip(v);
    DecimalFits(v);
    n := Vsnprintf(buf, "%d", [Int(v)]);
    assert buf[..n] == Decimal(v);
    r, end := Strtol(buf[..n], 10);
  }

  /** Likewise with %x or %X, up to the largest long; larger values read as it. */
  method HexThere(buf: array<char>, v: nat, caps: bool) returns (r: int, n: nat, end: nat)
    requires buf.Length >= 12 && v < 0x1_0000_0000
    modifies buf
    ensures r == (if v <= LONG_MAX then v else LONG_MAX) && end == n < buf.Length
  {
    hide Render, Parsed, ParsedEnd, Digits, HexFormat;
    PlainHex(v, caps);
    HexRoundTrip(v, caps);
    DigitsFit(v, 16, caps);
    n := Vsnprintf(buf, HexFormat(caps), [Int(v)]);
    assert buf[..n] == Digits(v, 16, caps);
    r, end := Strtol(buf[..n], 16);
  }

  lemma DecimalFits(v: int)
    requires LONG_MIN <= v <= LONG_MAX
    ensures |Decimal(v)| <= 11
  {
    DigitsFit(if v < 0 then 0 - v else v, 10, false);
  }
}
