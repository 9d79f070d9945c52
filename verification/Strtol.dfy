/** strtol (main.c:555-708) on 32-bit longs. */
module Strtol {
  import opened CStrings
  import opened Numerals

  const LONG_MAX: int := 0x7FFF_FFFF
  const LONG_MIN: int := -0x8000_0000

  /** What a call does to errno. */
  datatype Errno = Unchanged | EINVAL | ERANGE

  /** A pointer to a NUL-terminated string. */
  datatype Text = Null | To(s: CString)

  predicate IsSpace(c: char) {
    c as int == 12 || c == '\n' || c == '\r' || c == '\t' || c as int == 11 || c == ' '
  }

  /** The code's digit values: letters start at 16. */
  function Digit(c: char): (d: int)
    ensures 0 <= d <= 256
  {
    if '0' <= c <= '9' then c as int - '0' as int
    else if 'A' <= c <= 'Z' then c as int - 'A' as int + 16
    else if 'a' <= c <= 'z' then c as int - 'a' as int + 16
    else 256
  }

  // ----- Numbers -----

  /** The digits below base that start at index i, up to the first character that is not one. */
  function Digits(s: string, i: nat, base: int): (ds: seq<int>)
    requires 2 <= base <= 36 && i <= |s|
    ensures i + |ds| <= |s| && forall k :: 0 <= k < |ds| ==> 0 <= ds[k] < base
    decreases |s| - i
  {
    if i < |s| && Digit(s[i]) < base then [Digit(s[i])] + Digits(s, i + 1, base) else []
  }

  /** They are the longest run of digits at i. */
  lemma {:induction false} DigitsMaximal(s: string, i: nat, base: int)
    requires 2 <= base <= 36 && i <= |s|
    ensures var ds := Digits(s, i, base);
      && (forall k :: 0 <= k < |ds| ==> ds[k] == Digit(s[i + k]))
      && Digit(Char(s, i + |ds|)) >= base
    decreases |s| - i
  {
    if i < |s| && Digit(s[i]) < base {
      DigitsMaximal(s, i + 1, base);
    }
  }

  /** v put into the range of a long. */
  function Clamp(v: int): int {
    if v < LONG_MIN then LONG_MIN else if v > LONG_MAX then LONG_MAX else v
  }

  /** The accumulator of the loop after the digits ds: minus their value, held at LONG_MIN. */
  predicate Accumulates(ds: seq<int>, base: int, res: int, overflow: bool) {
    && res == (if Value(ds, base) > -LONG_MIN then LONG_MIN else -Value(ds, base))
    && (overflow <==> Value(ds, base) > -LONG_MIN)
  }

  /** One turn of the loop. */
  function Accumulated(res: int, overflow: bool, base: int, d: int): (int, bool)
    requires base > 0
  {
    if res < -(-LONG_MIN / base) then (LONG_MIN, true)
    else if res * base < LONG_MIN + d then (LONG_MIN, true)
    else (res * base - d, overflow)
  }

  lemma AccumulateMore(ds: seq<int>, base: int, res: int, overflow: bool, d: int)
    requires 2 <= base <= 36 && 0 <= d < base && (forall k :: 0 <= k < |ds| ==> 0 <= ds[k])
    requires Accumulates(ds, base, res, overflow)
    ensures LONG_MIN <= res <= 0
    ensures res >= -(-LONG_MIN / base) ==> LONG_MIN <= res * base <= 0
    ensures var r := Accumulated(res, overflow, base, d);
      LONG_MIN <= r.0 <= 0 && Accumulates(ds + [d], base, r.0, r.1)
  {
    ValueNonNegative(ds, base);
    var v := Value(ds, base);
    assert (ds + [d])[..|ds|] == ds;
    assert Value(ds + [d], base) == v * base + d;
    AccumulateValue(v, base, res, d);
  }

  lemma AccumulateValue(v: int, base: int, res: int, d: int)
    requires 2 <= base <= 36 && 0 <= d < base && v >= 0
    requires res == if v > -LONG_MIN then LONG_MIN else -v
    ensures res < -(-LONG_MIN / base) <==> v * base > -LONG_MIN
    ensures v > -LONG_MIN ==> v * base > -LONG_MIN
    ensures v * base <= -LONG_MIN ==> res * base == -(v * base)
  {
    QuotientBound(-LONG_MIN, base, v);
    if v > -LONG_MIN {
      ProductOrder(v, 1, base);
    }
  }

  lemma QuotientBound(n: int, base: int, v: int)
    requires n >= 0 && base >= 2 && v >= 0
    ensures v <= n / base <==> v * base <= n
  {
    QuotientRange(n, base, n / base);
    if v <= n / base {
      ProductOrder(base, v, n / base);
    } else {
      ProductOrder(base, n / base + 1, v);
    }
  }

  lemma QuotientRange(n: int, base: int, q: int)
    requires base > 0 && q == n / base
    ensures q * base <= n < (q + 1) * base
  {
  }

  // ----- Where the number starts -----

  /** The first index from i on that does not hold white space. */
  function SkipSpace(s: string, i: nat): (p: nat)
    requires i <= |s|
    ensures i <= p <= |s| && (forall k :: i <= k < p ==> IsSpace(s[k])) && (p < |s| ==> !IsSpace(s[p]))
    decreases |s| - i
  {
    if i < |s| && IsSpace(s[i]) then SkipSpace(s, i + 1) else i
  }

  /** Nothing to parse, or the index of the number, its base and its sign. */
  datatype Start = Nothing | Number(ptr: nat, base: int, sign: int)

  /** Base detection at index p, where something is left to parse. */
  function Detect(s: string, p: nat, base0: int, sign: int): (r: Start)
    requires p < |s| && (base0 == 0 || 2 <= base0 <= 36)
    ensures r.Number? && 2 <= r.base <= 36 && r.ptr <= |s| && r.sign == sign
  {
    var hex := (base0 == 0 || base0 == 16) && s[p] == '0' && Char(s, p + 1) == 'x' && Digit(Char(s, p + 2)) < 16;
    var base := if hex then 16 else if base0 != 0 then base0 else if s[p] == '0' then 8 else 10;
    var ptr :=
      if base == 16 then
        if s[p] == '0' && (Char(s, p + 1) == 'x' || Char(s, p + 1) == 'X') && Digit(Char(s, p + 2)) < 16 then p + 2
        else if Digit(s[p]) <= 16 then p
        else 0
      else if Digit(s[p]) < base then p
      else 0;
    Number(ptr, base, sign)
  }

  /** White space, then a plus sign, then a minus sign, each optional, then the number. */
  function Begin(s: string, base0: int): (r: Start)
    ensures r.Number? ==> 2 <= r.base <= 36 && r.ptr <= |s| && (r.sign == 1 || r.sign == -1)
  {
    if base0 == 1 || base0 < 0 || base0 > 36 then Nothing
    else
      var p0 := SkipSpace(s, 0);
      var p1 := if Char(s, p0) == '+' then p0 + 1 else p0;
      var p := if Char(s, p1) == '-' then p1 + 1 else p1;
      if p0 == |s| || p == |s| then Nothing
      else Detect(s, p, base0, if Char(s, p1) == '-' then -1 else 1)
  }

  /** What a call returns: the value, the index *endptr is left at, and errno. */
  datatype Parsed = Parsed(value: int, end: nat, errno: Errno)

  /** The digits at ptr read as a number: their signed positional value held to the range of a long, and
      errno is ERANGE exactly when that changes it. */
  function Read(s: string, ptr: nat, base: int, sign: int): Parsed
    requires 2 <= base <= 36 && ptr <= |s|
  {
    var ds := Digits(s, ptr, base);
    var v := sign * Value(ds, base);
    var end := ptr + |ds|;
    Parsed(Clamp(v), end, if end == 0 then EINVAL else if Clamp(v) != v then ERANGE else Unchanged)
  }

  function Parse(s: string, base0: int): Parsed {
    match Begin(s, base0)
    case Nothing => Parsed(0, 0, EINVAL)
    case Number(ptr, base, sign) => Read(s, ptr, base, sign)
  }

  lemma NothingAccumulated(base: int)
    ensures Accumulates([], base, 0, false)
  {
  }

  // ----- The code -----

  lemma DigitsStep(s: string, ptr: nat, base: int, done: seq<int>)
    requires 2 <= base <= 36 && ptr <= |s| && Digit(Char(s, ptr)) < base
    ensures ptr < |s| && 0 <= Digit(Char(s, ptr))
    ensures done + Digits(s, ptr, base) == done + [Digit(Char(s, ptr))] + Digits(s, ptr + 1, base)
  {
  }

  lemma DigitsStop(s: string, ptr: nat, base: int, done: seq<int>)
    requires 2 <= base <= 36 && ptr <= |s| && Digit(Char(s, ptr)) >= base
    ensures done + Digits(s, ptr, base) == done
  {
  }

  /** The loop that reads digits, accumulating negatively. */
  method ReadDigits(s: string, ptr0: nat, base: int) returns (ptr: nat, res: int, overflow: bool)
    requires 2 <= base <= 36 && ptr0 <= |s|
    ensures ptr == ptr0 + |Digits(s, ptr0, base)|
    ensures LONG_MIN <= res <= 0 && Accumulates(Digits(s, ptr0, base), base, res, overflow)
  {
    hide Value, Accumulates, Digits, Digit;
    ptr, res, overflow := ptr0, 0, false;
    NothingAccumulated(base);
    var min := -(-LONG_MIN / base);
    ghost var done := [];
    assert done + Digits(s, ptr0, base) == Digits(s, ptr0, base);
    while Digit(Char(s, ptr)) < base
      invariant ptr <= |s| && LONG_MIN <= res <= 0 && ptr == ptr0 + |done|
      invariant forall k :: 0 <= k < |done| ==> 0 <= done[k] < base
      invariant Digits(s, ptr0, base) == done + Digits(s, ptr, base)
      invariant Accumulates(done, base, res, overflow)
      decreases |s| - ptr
    {
      var d := Digit(Char(s, ptr));
      DigitsStep(s, ptr, base, done);
      AccumulateMore(done, base, res, overflow, d);
      if res < min {
        res := LONG_MIN;
        overflow := true;
      } else {
        res := res * base;
        assert LONG_MIN <= res <= LONG_MAX;
        if res < LONG_MIN + d {
          res := LONG_MIN;
          overflow := true;
        } else {
          res := res - d;
        }
      }
      done := done + [d];
      ptr := ptr + 1;
    }
    DigitsStop(s, ptr, base, done);
  }

  /** The prefix and base detection. */
  method DetectBase(s: string, p: nat, base0: int, ghost sign: int) returns (ptr: nat, base: int)
    requires p < |s| && (base0 == 0 || 2 <= base0 <= 36)
    ensures Number(ptr, base, sign) == Detect(s, p, base0, sign)
  {
    base, ptr := base0, 0;
    if base == 0 || base == 16 {
      if s[p] == '0' && Char(s, p + 1) == 'x' && Digit(Char(s, p + 2)) < 16 {
        ptr := p + 2;
        base := 16;
      }
    }
    if base == 0 && s[p] == '0' {
      ptr := p + 1;
      base := 8;
    }
    if base == 0 {
      base := 10;
    }
    if base == 16 {
      if s[p] == '0' {
        if Char(s, p + 1) == 'x' || Char(s, p + 1) == 'X' {
          ptr := if Digit(Char(s, p + 2)) < 16 then p + 2 else p;
        } else {
          ptr := p;
        }
      } else if Digit(s[p]) <= 16 {
        ptr := p;
      }
    } else if Digit(s[p]) < base {
      ptr := p;
    }
  }

  /** The accumulator, with its sign put right, is the clamped value. */
  lemma SignedResult(ds: seq<int>, base: int, res: int, overflow: bool, sign: int)
    requires 2 <= base && (forall k :: 0 <= k < |ds| ==> 0 <= ds[k]) && (sign == 1 || sign == -1)
    requires Accumulates(ds, base, res, overflow)
    ensures var v := sign * Value(ds, base);
      if sign == 1 then
        && (res == LONG_MIN ==> Clamp(v) == LONG_MAX && Clamp(v) != v)
        && (res != LONG_MIN ==> Clamp(v) == -res && Clamp(v) == v && !overflow)
      else
        Clamp(v) == res && (overflow <==> Clamp(v) != v)
    ensures ds == [] ==> res == 0 && !overflow
  {
    ValueNonNegative(ds, base);
  }

  /** strtol. */
  method StrToL(nptr: Text, base0: int) returns (value: int, end: nat, errno: Errno)
    ensures nptr.Null? ==> value == 0 && end == 0 && errno == EINVAL
    ensures nptr.To? ==> Parse(nptr.s, base0) == Parsed(value, end, errno)
    ensures LONG_MIN <= value <= LONG_MAX
  {
    hide Value, Detect, Accumulates, Clamp, Digits, Digit, IsSpace;
    if nptr.Null? || base0 == 1 || base0 < 0 || base0 > 36 {
      return 0, 0, EINVAL;
    }
    var s := nptr.s;
    var p := 0;
    while Char(s, p) != '\0' && IsSpace(Char(s, p))
      invariant p <= |s| && SkipSpace(s, 0) == SkipSpace(s, p)
      decreases |s| - p
    {
      p := p + 1;
    }
    if Char(s, p) == '\0' {
      return 0, 0, EINVAL;
    }
    var sign := 1;
    if Char(s, p) == '+' {
      p := p + 1;
    }
    if Char(s, p) == '-' {
      p := p + 1;
      sign := -1;
    }
    if Char(s, p) == '\0' {
      return 0, 0, EINVAL;
    }
    var ptr, base := DetectBase(s, p, base0, sign);
    assert Begin(s, base0) == Number(ptr, base, sign);
    var res, overflow;
    end, res, overflow := ReadDigits(s, ptr, base);
    SignedResult(Digits(s, ptr, base), base, res, overflow, sign);
    errno := if overflow then ERANGE else Unchanged;
    if end == 0 {
      errno := EINVAL;
    }
    if sign == 1 {
      if res == LONG_MIN {
        errno := ERANGE;
        value := LONG_MAX;
      } else {
        value := -res;
      }
    } else {
      value := res;
    }
  }

  /** A decimal character, or a letter of either case counted from 16, has the value d. */
  predicate Counts(c: char, d: int) {
    || ('0' <= c <= '9' && d == c as int - '0' as int)
    || ('A' <= c <= 'Z' && d == c as int - 'A' as int + 16)
    || ('a' <= c <= 'z' && d == c as int - 'a' as int + 16)
  }

  /** It counts for nothing below the base. */
  predicate NoDigit(c: char, base: int) {
    && !('0' <= c <= '9' && c as int - '0' as int < base)
    && !('A' <= c <= 'Z' && c as int - 'A' as int + 16 < base)
    && !('a' <= c <= 'z' && c as int - 'a' as int + 16 < base)
  }

  /** The digits in full: each counts as said and is below the base, and the first character that does not
      count for something below the base ends them. */
  lemma DigitsAre(s: string, i: nat, base: int)
    requires 2 <= base <= 36 && i <= |s|
    ensures var ds := Digits(s, i, base);
      && (forall k :: 0 <= k < |ds| ==> Counts(s[i + k], ds[k]) && ds[k] < base)
      && (i + |ds| < |s| ==> NoDigit(s[i + |ds|], base))
  {
    hide Digits, Digit, Counts, NoDigit;
    DigitsMaximal(s, i, base);
    var ds := Digits(s, i, base);
    forall k | 0 <= k < |ds|
      ensures Counts(s[i + k], ds[k])
    {
      DigitIs(s[i + k], ds[k]);
    }
    DigitOver(Char(s, i + |ds|), base);
  }

  lemma DigitIs(c: char, d: int)
    requires Digit(c) == d < 256
    ensures Counts(c, d)
  {
  }

  lemma DigitOver(c: char, base: int)
    requires Digit(c) >= base
    ensures NoDigit(c, base)
  {
  }

  /** In base 16 an 'a' after a sign is taken for a number, but has no digits; a 'b' is not. */
  lemma LeadingLetter()
    ensures Parse("-a", 16) == Parsed(0, 1, Unchanged) && Parse("-b", 16) == Parsed(0, 0, EINVAL)
  {
    assert SkipSpace("-a", 0) == 0 && SkipSpace("-b", 0) == 0;
    assert Begin("-a", 16) == Number(1, 16, -1) && Begin("-b", 16) == Number(0, 16, -1);
    assert Digits("-a", 1, 16) == [] && Digits("-b", 0, 16) == [];
  }

  /** Up to base 16 only decimal characters are digits, since letters count from 16; so the value is that
      of the standard for the bases up to 10, and no hexadecimal letter is ever read. */
  lemma DecimalCharactersOnly(s: string, i: nat, base: int, k: nat)
    requires 2 <= base <= 16 && i <= |s| && k < |Digits(s, i, base)|
    ensures '0' <= s[i + k] <= '9' && Digits(s, i, base)[k] == s[i + k] as int - '0' as int
  {
    DigitsMaximal(s, i, base);
    assert Digits(s, i, base)[k] == Digit(s[i + k]) && Digits(s, i, base)[k] < base;
  }

  lemma HexLettersUnread(c: char)
    requires 'a' <= c <= 'f' || 'A' <= c <= 'F'
    ensures Parse("0x" + [c], 16) == Parsed(0, 1, Unchanged)
  {
    var s := "0x" + [c];
    assert SkipSpace(s, 0) == 0;
    assert Begin(s, 16) == Number(0, 16, 1);
    assert Digits(s, 1, 16) == [];
    assert Digits(s, 0, 16) == [0];
    assert [0][..0] == [];
    assert Value([0], 16) == 0;
  }
}
