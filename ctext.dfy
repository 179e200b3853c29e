/** The C library behaviour the trace parser leans on: the <ctype.h> classes it
    tests, reads through the cursor (the mapped buffer is followed by the zero
    fill of its last page), NUL-terminated views of a byte range, the integer
    widths it stores into, and atoi/atol/atoll/atof as digit-prefix functions. */
module CText {

  datatype Option<T> = None | Some(value: T)

  // ---------------------------------------------------------------- ctype.h

  /** isblank */
  predicate IsBlank(c: char) { c == ' ' || c == '\t' }

  /** isspace: blank, newline, vertical tab, form feed, carriage return */
  predicate IsSpace(c: char) { c == ' ' || 9 <= c as int <= 13 }

  /** isdigit */
  predicate IsDigit(c: char) { '0' <= c <= '9' }

  predicate AllDigits(s: string) { forall k | 0 <= k < |s| :: IsDigit(s[k]) }

  predicate NoSpace(s: string) { forall k | 0 <= k < |s| :: !IsSpace(s[k]) }

  /** Digits are never NUL. */
  lemma DigitsNulFree(s: string)
    requires AllDigits(s)
    ensures '\0' !in s
  {
    forall i | 0 <= i < |s| ensures s[i] != '\0' { assert IsDigit(s[i]); }
  }

  // ------------------------------------------------------- buffer and slices

  /** The byte under a cursor. Cursors are C pointers into the mapping, given
      as offsets from its start; positions at or past the end of the mapping
      read the zero fill of its last page. */
  function At(buf: string, i: int): char {
    if 0 <= i < |buf| then buf[i] else '\0'
  }

  /** A cursor clamped to the buffer [0, |buf|]. */
  function Clamp(buf: string, i: int): (c: nat)
    ensures c <= |buf|
    ensures 0 <= i <= |buf| ==> c == i
  {
    if i < 0 then 0 else if i < |buf| then i else |buf|
  }

  /** The bytes of [start, stop), with both ends clamped to the buffer. */
  function Slice(buf: string, start: int, stop: int): (s: string)
    ensures |s| <= |buf|
    ensures 0 <= start <= stop <= |buf| ==> s == buf[start..stop]
  {
    var a := Clamp(buf, start);
    var b := Clamp(buf, stop);
    if a <= b then buf[a..b] else []
  }

  /** The C string that starts at the first byte of s: everything before the
      first NUL. */
  function CStr(s: string): (r: string)
    ensures |r| <= |s|
  {
    if s == [] || s[0] == '\0' then [] else [s[0]] + CStr(s[1..])
  }

  /** The C string is the longest NUL-free prefix. */
  lemma {:induction false} CStrSpec(s: string)
    ensures CStr(s) == s[..|CStr(s)|]
    ensures '\0' !in CStr(s)
    ensures |CStr(s)| < |s| ==> s[|CStr(s)|] == '\0'
  {
    if s != [] && s[0] != '\0' {
      CStrSpec(s[1..]);
    }
  }

  /** The C string the parser sees for a field whose end was overwritten with
      NUL: the bytes of [start, stop) up to the first NUL among them. */
  function Field(buf: string, start: int, stop: int): string {
    CStr(Slice(buf, start, stop))
  }

  lemma {:induction false} CStrOfNulFree(s: string)
    requires '\0' !in s
    ensures CStr(s) == s
  {
    if s != [] {
      CStrOfNulFree(s[1..]);
    }
  }

  // ----------------------------------------------------------- integer widths

  const TWO_8: nat := 0x100
  const TWO_16: nat := 0x1_0000
  const TWO_31: nat := 0x8000_0000
  const TWO_32: nat := 0x1_0000_0000
  const TWO_63: nat := 0x8000_0000_0000_0000
  const TWO_64: nat := 0x1_0000_0000_0000_0000

  /** Conversion to uint8_t, uint16_t, uint32_t, uint64_t: reduction modulo 2^n. */
  function U8(x: int): (r: nat) ensures r < TWO_8 { x % 0x100 }
  function U16(x: int): (r: nat) ensures r < TWO_16 { x % 0x1_0000 }
  function U32(x: int): (r: nat) ensures r < TWO_32 { x % 0x1_0000_0000 }
  function U64(x: int): (r: nat) ensures r < TWO_64 { x % 0x1_0000_0000_0000_0000 }

  /** A value that fits the width is kept by the conversion. */
  lemma UnsignedSmall(x: int)
    requires 0 <= x
    ensures x < TWO_8 ==> U8(x) == x
    ensures x < TWO_64 ==> U64(x) == x
  {
  }

  /** Conversion to int32_t as GCC does it: the low 32 bits, read as two's
      complement. */
  function I32(x: int): (r: int)
    ensures -(TWO_31 as int) <= r < TWO_31
  {
    var u := x % 0x1_0000_0000;
    if u < 0x8000_0000 then u else u - 0x1_0000_0000
  }

  /** A value that fits int32_t is kept by the conversion. */
  lemma I32Small(x: int)
    requires 0 <= x < TWO_31
    ensures I32(x) == x
  {
  }

  // ---------------------------------------------------------- decimal digits

  /** The value of a decimal digit (0 for any other byte). */
  function DigitValue(c: char): nat { if IsDigit(c) then (c as int - '0' as int) as nat else 0 }

  function DigitChar(d: nat): (c: char)
    requires d < 10
    ensures IsDigit(c) && DigitValue(c) == d
  {
    (d + '0' as int) as char
  }

  /** The number a run of decimal digits denotes. */
  function DigitsValue(ds: string): nat {
    if ds == [] then 0 else DigitsValue(ds[..|ds| - 1]) * 10 + DigitValue(ds[|ds| - 1])
  }

  /** std::to_string of an unsigned value: its shortest decimal spelling. */
  function Dec(n: nat): (s: string)
    ensures |s| > 0
  {
    if n < 10 then [DigitChar(n)] else Dec(n / 10) + [DigitChar(n % 10)]
  }

  /** The spelling is all digits, NUL-free, and a single digit exactly for
      the numbers below ten. */
  lemma {:induction false} DecSpec(n: nat)
    ensures AllDigits(Dec(n)) && '\0' !in Dec(n)
    ensures n >= 10 <==> |Dec(n)| > 1
  {
    if n >= 10 {
      DecSpec(n / 10);
    }
    DigitsNulFree(Dec(n));
  }

  /** std::to_string of a signed value. */
  function IntToString(i: int): string {
    if i < 0 then "-" + Dec(-i) else Dec(i)
  }

  /** Reading back what to_string wrote gives the number again. */
  lemma {:induction false} DecRoundTrip(n: nat)
    ensures DigitsValue(Dec(n)) == n
  {
    if n >= 10 {
      DecRoundTrip(n / 10);
      var s := Dec(n);
      assert s[..|s| - 1] == Dec(n / 10);
    }
  }

  /** to_string is injective: different numbers are spelled differently. */
  lemma DecInjective(m: nat, n: nat)
    requires Dec(m) == Dec(n)
    ensures m == n
  {
    DecRoundTrip(m);
    DecRoundTrip(n);
  }

  /** The longest prefix of s made of decimal digits. */
  function LeadingDigits(s: string): (ds: string)
    ensures |ds| <= |s|
  {
    if s == [] || !IsDigit(s[0]) then [] else [s[0]] + LeadingDigits(s[1..])
  }

  /** The leading digits are the longest all-digit prefix. */
  lemma {:induction false} LeadingDigitsSpec(s: string)
    ensures AllDigits(LeadingDigits(s))
    ensures LeadingDigits(s) == s[..|LeadingDigits(s)|]
    ensures |LeadingDigits(s)| < |s| ==> !IsDigit(s[|LeadingDigits(s)|])
  {
    if s != [] && IsDigit(s[0]) {
      LeadingDigitsSpec(s[1..]);
    }
  }

  lemma {:induction false} LeadingDigitsOf(ds: string, rest: string)
    requires AllDigits(ds)
    requires rest == [] || !IsDigit(rest[0])
    ensures LeadingDigits(ds + rest) == ds
  {
    if ds != [] {
      assert (ds + rest)[1..] == ds[1..] + rest;
      LeadingDigitsOf(ds[1..], rest);
    }
  }

  /** Leading white space, as strtol and strtod skip it. */
  function SkipSpace(s: string): (t: string)
    ensures |t| <= |s|
  {
    if s != [] && IsSpace(s[0]) then SkipSpace(s[1..]) else s
  }

  // ------------------------------------------------------ numeric conversion

  const LONG_MAX: int := TWO_63 as int - 1
  const LONG_MIN: int := -(TWO_63 as int)

  /** strtol(s, NULL, 10) on a 64-bit target: optional white space and sign,
      then the decimal digits; the value saturates at LONG_MIN / LONG_MAX. */
  function StrToL(s: string): (v: int)
    ensures LONG_MIN <= v <= LONG_MAX
  {
    var t := SkipSpace(s);
    var signed := t != [] && (t[0] == '-' || t[0] == '+');
    var u := if signed then t[1..] else t;
    var n: int := DigitsValue(LeadingDigits(u));
    if signed && t[0] == '-' then (if n > TWO_63 then LONG_MIN else -n)
    else (if n > LONG_MAX then LONG_MAX else n)
  }

  /** atol and atoll are strtol; atoi is (int) strtol. */
  function Atol(s: string): int { StrToL(s) }
  function Atoi(s: string): int { I32(StrToL(s)) }

  /** A field that starts with a run of digits reads as the number the run
      denotes (saturated at LONG_MAX). */
  lemma StrToLOfDigits(ds: string, rest: string)
    requires ds != [] && AllDigits(ds)
    requires rest == [] || !IsDigit(rest[0])
    ensures StrToL(ds + rest) == if DigitsValue(ds) > LONG_MAX then LONG_MAX else DigitsValue(ds)
  {
    assert IsDigit((ds + rest)[0]);
    LeadingDigitsOf(ds, rest);
  }

  /** strtol reads back the decimal spelling of a value up to LONG_MAX. */
  lemma StrToLOfDec(n: nat)
    requires n <= LONG_MAX
    ensures StrToL(Dec(n)) == n
  {
    DecSpec(n);
    DecRoundTrip(n);
    StrToLOfDigits(Dec(n), []);
    assert Dec(n) + [] == Dec(n);
  }

  function Pow10(k: nat): (p: nat) ensures p >= 1 { if k == 0 then 1 else 10 * Pow10(k - 1) }

  /** atof, restricted to the plain decimal form [space][sign]digits[.digits]:
      the exact value of that prefix. Exponents, hexadecimal, inf and nan are
      not recognised, and no rounding to double is applied. */
  function Atof(s: string): real {
    var t := SkipSpace(s);
    var signed := t != [] && (t[0] == '-' || t[0] == '+');
    var mag := Magnitude(if signed then t[1..] else t);
    if signed && t[0] == '-' then -mag else mag
  }

  /** The unsigned part atof reads: the whole digits and, after a point, the
      fraction digits. */
  function Magnitude(u: string): real {
    var whole := LeadingDigits(u);
    var rest := u[|whole|..];
    var frac := if rest != [] && rest[0] == '.' then LeadingDigits(rest[1..]) else [];
    DigitsValue(whole) as real + DigitsValue(frac) as real / Pow10(|frac|) as real
  }

  /** A nonnegative number as a "%f"-style conversion writes it: the whole
      part, then, when there are fraction digits, a point and those digits. */
  datatype Decimal = Decimal(whole: nat, frac: string)
  {
    predicate Valid() { AllDigits(frac) }

    function Text(): string { if frac == [] then Dec(whole) else Dec(whole) + "." + frac }

    function Value(): (v: real)
      ensures v >= whole as real
    {
      whole as real + DigitsValue(frac) as real / Pow10(|frac|) as real
    }
  }

  /** The spelling starts with a digit and holds only digits and the point. */
  lemma DecimalTextSpec(d: Decimal)
    requires d.Valid()
    ensures d.Text() != [] && IsDigit(d.Text()[0])
    ensures forall k | 0 <= k < |d.Text()| :: IsDigit(d.Text()[k]) || d.Text()[k] == '.'
  {
    DecSpec(d.whole);
    var t := d.Text();
    forall k | 0 <= k < |t| ensures IsDigit(t[k]) || t[k] == '.' {
      if k < |Dec(d.whole)| {
        assert t[k] == Dec(d.whole)[k];
      } else if k > |Dec(d.whole)| {
        assert t[k] == d.frac[k - |Dec(d.whole)| - 1];
      }
    }
  }

  /** The written spelling, ended by a byte that is neither a digit nor a
      point, reads back as the number's value. */
  lemma MagnitudeOfDecimal(d: Decimal, rest: string)
    requires d.Valid()
    requires rest != [] && !IsDigit(rest[0]) && rest[0] != '.'
    ensures Magnitude(d.Text() + rest) == d.Value()
  {
    var ws := Dec(d.whole);
    DecSpec(d.whole);
    DecRoundTrip(d.whole);
    if d.frac == [] {
      MagnitudeOfDigits(ws, rest);
    } else {
      var r := "." + (d.frac + rest);
      assert d.Text() + rest == ws + r;
      LeadingDigitsOf(ws, r);
      assert (ws + r)[|ws|..] == r;
      assert r[1..] == d.frac + rest;
      LeadingDigitsOf(d.frac, rest);
    }
  }

  /** A run of digits ended by a byte that is neither a digit nor a point
      reads as the run's value. */
  lemma MagnitudeOfDigits(ds: string, rest: string)
    requires AllDigits(ds)
    requires rest != [] && !IsDigit(rest[0]) && rest[0] != '.'
    ensures Magnitude(ds + rest) == DigitsValue(ds) as real
  {
    LeadingDigitsOf(ds, rest);
    assert (ds + rest)[|ds|..] == rest;
  }
}
