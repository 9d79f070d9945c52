/** strtol as section 7.20.1.4 of ISO/IEC 9899:1999 has it, and exactly when the code of main.c:582-708
    agrees: white space, one optional sign, an optional 0x in base 16, and digits of which the letters count
    from 10.  EINVAL for no number at all is what both report. */
module Standard {
  import opened CStrings
  import opened Numerals
  import opened Strtol

  // ----- The standard -----

  /** White space in the "C" locale: section 7.4.1.10. */
  predicate StdSpace(c: char) {
    c in {' ', '\n', '\r', '\t', '\U{0B}', '\U{0C}'}
  }

  /** The first index from i on that does not hold white space. */
  function StdSkip(s: string, i: nat): (p: nat)
    requires i <= |s|
    ensures i <= p <= |s|
    decreases |s| - i
  {
    if i == |s| || !StdSpace(s[i]) then i else StdSkip(s, i + 1)
  }

  /** v held to the range of a long of 32 bits. */
  function StdClamp(v: int): int {
    if v > 0x7FFF_FFFF then 0x7FFF_FFFF else if v < -0x8000_0000 then -0x8000_0000 else v
  }

  function StdDigit(c: char): (d: int)
    ensures 0 <= d <= Digit(c)
  {
    if '0' <= c <= '9' then c as int - '0' as int
    else if 'A' <= c <= 'Z' then c as int - 'A' as int + 10
    else if 'a' <= c <= 'z' then c as int - 'a' as int + 10
    else 256
  }

  /** The digits from index i on. */
  function StdDigits(s: string, i: nat, base: int): (ds: seq<int>)
    requires 2 <= base <= 36 && i <= |s|
    ensures i + |ds| <= |s|
    decreases |s| - i
  {
    if i < |s| && StdDigit(s[i]) < base then [StdDigit(s[i])] + StdDigits(s, i + 1, base) else []
  }

  /** Where the digits start if there is no 0x: after white space and at most one sign. */
  function AfterSign(s: string): (q: nat)
    ensures q <= |s|
  {
    var p := StdSkip(s, 0);
    if Char(s, p) == '+' || Char(s, p) == '-' then p + 1 else p
  }

  function SignOf(s: string): (sign: int)
    ensures sign == 1 || sign == -1
  {
    if Char(s, StdSkip(s, 0)) == '-' then -1 else 1
  }

  predicate HasPrefix(s: string, q: nat, base0: int) {
    && (base0 == 0 || base0 == 16)
    && Char(s, q) == '0' && (Char(s, q + 1) == 'x' || Char(s, q + 1) == 'X') && StdDigit(Char(s, q + 2)) < 16
  }

  function StdBase(s: string, q: nat, base0: int): (base: int)
    requires base0 == 0 || 2 <= base0 <= 36
    ensures 2 <= base <= 36
  {
    if base0 != 0 then base0 else if HasPrefix(s, q, base0) then 16 else if Char(s, q) == '0' then 8 else 10
  }

  function StdStart(s: string, q: nat, base0: int): (ptr: nat)
    requires q <= |s|
    ensures q <= ptr <= |s|
  {
    if HasPrefix(s, q, base0) then q + 2 else q
  }

  /** The digits at ptr as a number, or no number at all. */
  function StdRead(s: string, ptr: nat, base: int, sign: int): Parsed
    requires 2 <= base <= 36 && ptr <= |s|
  {
    var ds := StdDigits(s, ptr, base);
    var v := sign * Value(ds, base);
    if ds == [] then Parsed(0, 0, EINVAL)
    else Parsed(StdClamp(v), ptr + |ds|, if StdClamp(v) != v then ERANGE else Unchanged)
  }

  function StdParse(s: string, base0: int): Parsed
    requires base0 == 0 || 2 <= base0 <= 36
  {
    var q := AfterSign(s);
    StdRead(s, StdStart(s, q, base0), StdBase(s, q, base0), SignOf(s))
  }

  // ----- When the code agrees -----

  /** A plus sign and then a minus sign, of which the standard takes only one. */
  predicate TwoSigns(s: string) {
    var p := StdSkip(s, 0);
    Char(s, p) == '+' && Char(s, p + 1) == '-'
  }

  /** The code finds a number that starts with c: in base 16 it also takes an 'a' for one, of no digits. */
  predicate Taken(c: char, base0: int) {
    Digit(c) < if base0 == 0 then 10 else if base0 == 16 then 17 else base0
  }

  /** The digits hold no letter; or the code reads all of them, and the number is too large anyway. */
  predicate Plain(s: string, ptr: nat, base: int, sign: int)
    requires 2 <= base <= 36 && ptr <= |s|
  {
    var ds := StdDigits(s, ptr, base);
    var v := sign * Value(ds, base);
    || (forall k :: ptr <= k < ptr + |ds| ==> '0' <= s[k] <= '9')
    || ((forall k :: ptr <= k < ptr + |ds| ==> Digit(s[k]) < base) && StdClamp(v) != v)
  }

  predicate Conforms(s: string, base0: int)
    requires base0 == 0 || 2 <= base0 <= 36
  {
    var q := AfterSign(s);
    if TwoSigns(s) then !Taken(Char(s, q + 1), base0)
    else
      && (base0 == 0 && HasPrefix(s, q, base0) ==> Char(s, q + 1) == 'x')
      && Plain(s, StdStart(s, q, base0), StdBase(s, q, base0), SignOf(s))
  }

  // ----- White space and range -----

  /** isspace is true of that white space and of nothing else. */
  lemma {:induction false} SkipsAlike(s: string, i: nat)
    requires i <= |s|
    ensures SkipSpace(s, i) == StdSkip(s, i)
    decreases |s| - i
  {
    if i < |s| {
      assert IsSpace(s[i]) <==> StdSpace(s[i]);
      SkipsAlike(s, i + 1);
    }
  }

  lemma ClampsAlike(v: int)
    ensures Clamp(v) == StdClamp(v)
  {
  }

  // ----- Digits -----

  lemma {:induction false} StdDigitsAre(s: string, i: nat, base: int)
    requires 2 <= base <= 36 && i <= |s|
    ensures var ds := StdDigits(s, i, base);
      && (forall k :: i <= k < i + |ds| ==> ds[k - i] == StdDigit(s[k]) < base)
      && StdDigit(Char(s, i + |ds|)) >= base
    decreases |s| - i
  {
    if i < |s| && StdDigit(s[i]) < base {
      StdDigitsAre(s, i + 1, base);
      var ds, rest := StdDigits(s, i, base), StdDigits(s, i + 1, base);
      forall k | i <= k < i + |ds|
        ensures ds[k - i] == StdDigit(s[k]) < base
      {
        assert k > i ==> ds[k - i] == rest[k - (i + 1)];
      }
    }
  }

  /** The code's digits are some of the standard's, all of them exactly when each is a digit for it, and
      none is smaller. */
  lemma {:induction false} FewerDigits(s: string, i: nat, base: int)
    requires 2 <= base <= 36 && i <= |s|
    ensures var a, b := Digits(s, i, base), StdDigits(s, i, base);
      && |a| <= |b|
      && (|a| == |b| <==> forall k :: i <= k < i + |b| ==> Digit(s[k]) < base)
      && (forall k :: 0 <= k < |a| ==> b[k] <= a[k])
      && (|a| == |b| ==> (a == b <==> forall k :: i <= k < i + |b| ==> '0' <= s[k] <= '9'))
    decreases |s| - i
  {
    if i < |s| && Digit(s[i]) < base {
      FewerDigits(s, i + 1, base);
      var a, b := Digits(s, i, base), StdDigits(s, i, base);
      assert a == [a[0]] + a[1..] && b == [b[0]] + b[1..];
      assert a[1..] == Digits(s, i + 1, base) && b[1..] == StdDigits(s, i + 1, base);
    }
  }

  // ----- Numbers -----

  /** A larger number is reported like v exactly when v is out of range already. */
  lemma ClampSame(v: int, w: int, sign: int)
    requires 0 <= v <= w && (sign == 1 || sign == -1)
    ensures (Clamp(sign * v) == Clamp(sign * w) && (Clamp(sign * v) == sign * v <==> Clamp(sign * w) == sign * w))
      <==> (v == w || Clamp(sign * v) != sign * v)
  {
  }

  /** What the code reads where the standard reads digits. */
  lemma ReadAgrees(s: string, ptr: nat, base: int, sign: int)
    requires 2 <= base <= 36 && ptr <= |s| && StdDigits(s, ptr, base) != [] && (sign == 1 || sign == -1)
    ensures Read(s, ptr, base, sign) == StdRead(s, ptr, base, sign) <==> Plain(s, ptr, base, sign)
  {
    hide Clamp, StdClamp, Value, Digits, StdDigits, Digit;
    var a, b := Digits(s, ptr, base), StdDigits(s, ptr, base);
    ClampsAlike(sign * Value(a, base));
    ClampsAlike(sign * Value(b, base));
    FewerDigits(s, ptr, base);
    DecimalsRead(s, ptr, base);
    if |a| == |b| {
      StdNonNegative(s, ptr, base);
      ValueNonNegative(b, base);
      ValueOrder(b, a, base);
      ClampSame(Value(b, base), Value(a, base), sign);
    }
  }

  lemma StdNonNegative(s: string, i: nat, base: int)
    requires 2 <= base <= 36 && i <= |s|
    ensures forall k :: 0 <= k < |StdDigits(s, i, base)| ==> 0 <= StdDigits(s, i, base)[k]
  {
    StdDigitsAre(s, i, base);
    var ds := StdDigits(s, i, base);
    forall k | 0 <= k < |ds|
      ensures 0 <= ds[k]
    {
      assert ds[i + k - i] == StdDigit(s[i + k]);
    }
  }

  lemma DecimalsRead(s: string, i: nat, base: int)
    requires 2 <= base <= 36 && i <= |s|
    ensures forall k :: i <= k < i + |StdDigits(s, i, base)| && '0' <= s[k] <= '9' ==> Digit(s[k]) < base
  {
    StdDigitsAre(s, i, base);
  }

  // ----- Starts -----

  /** Where the code starts when there is no 0x. */
  lemma DetectPlain(s: string, q: nat, base0: int, sign: int)
    requires q < |s| && (base0 == 0 || 2 <= base0 <= 36) && !HasPrefix(s, q, base0)
    ensures Detect(s, q, base0, sign) == Number(if Taken(s[q], base0) then q else 0, StdBase(s, q, base0), sign)
  {
  }

  /** And when there is one: past it if a decimal digit follows and, in base 0, if it is a small x. */
  lemma DetectPrefix(s: string, q: nat, base0: int, sign: int)
    requires q < |s| && HasPrefix(s, q, base0)
    ensures q + 2 < |s|
    ensures Detect(s, q, base0, sign) ==
      if Digit(s[q + 2]) < 16 && (base0 == 16 || s[q + 1] == 'x') then Number(q + 2, 16, sign)
      else Number(q, if base0 == 0 then 8 else 16, sign)
  {
  }

  /** Only the 0 of a prefix is read. */
  lemma PrefixZero(s: string, q: nat, base: int, sign: int)
    requires q + 2 < |s| && s[q] == '0' && (s[q + 1] == 'x' || s[q + 1] == 'X') && (base == 8 || base == 16)
    ensures Read(s, q, base, sign).end == q + 1
  {
    assert Digits(s, q + 1, base) == [];
  }

  /** Nothing is read at the start of the string when what follows white space and signs is not taken. */
  lemma NothingRead(s: string, q: nat, base: int, sign: int)
    requires 2 <= base <= 36 && q < |s| && (q == 0 ==> Digit(s[0]) >= base)
    requires q > 0 ==> IsSpace(s[0]) || s[0] == '+' || s[0] == '-'
    ensures Read(s, 0, base, sign) == Parsed(0, 0, EINVAL)
  {
    assert Digits(s, 0, base) == [];
  }

  lemma StartOf(s: string, base0: int)
    requires base0 == 0 || 2 <= base0 <= 36
    ensures var q := AfterSign(s);
      && (q > 0 ==> IsSpace(s[0]) || s[0] == '+' || s[0] == '-')
      && (!TwoSigns(s) ==> Begin(s, base0) == if q == |s| then Nothing else Detect(s, q, base0, SignOf(s)))
      && (TwoSigns(s) ==> q < |s| && s[q] == '-')
      && (TwoSigns(s) ==> Begin(s, base0) == if q + 1 == |s| then Nothing else Detect(s, q + 1, base0, -1))
  {
    hide Detect, SkipSpace, StdSkip, IsSpace;
    SkipsAlike(s, 0);
    SpaceFirst(s);
  }

  lemma SpaceFirst(s: string)
    ensures SkipSpace(s, 0) > 0 ==> IsSpace(s[0])
  {
  }

  // ----- The condition -----

  lemma TwoSignsAgree(s: string, base0: int)
    requires (base0 == 0 || 2 <= base0 <= 36) && TwoSigns(s)
    ensures Parse(s, base0) == StdParse(s, base0) <==> Conforms(s, base0)
  {
    hide Value, Clamp, StdClamp, SkipSpace, StdSkip;
    StartOf(s, base0);
    var q := AfterSign(s);
    assert StdDigits(s, q, StdBase(s, q, base0)) == [];
    if q + 1 < |s| {
      SecondSign(s, q, base0);
    }
  }

  /** After two signs the code finds a number, or reports none, as it takes the character or not. */
  lemma SecondSign(s: string, q: nat, base0: int)
    requires (base0 == 0 || 2 <= base0 <= 36) && q + 1 < |s| && (IsSpace(s[0]) || s[0] == '+' || s[0] == '-')
    ensures var n := Detect(s, q + 1, base0, -1);
      Read(s, n.ptr, n.base, -1) == Parsed(0, 0, EINVAL) <==> !Taken(s[q + 1], base0)
  {
    hide Value, Clamp, StdClamp;
    if HasPrefix(s, q + 1, base0) {
      DetectPrefix(s, q + 1, base0, -1);
    } else {
      DetectPlain(s, q + 1, base0, -1);
      if !Taken(s[q + 1], base0) {
        NothingRead(s, q + 1, StdBase(s, q + 1, base0), -1);
      }
    }
  }

  lemma OneSignAgree(s: string, base0: int)
    requires (base0 == 0 || 2 <= base0 <= 36) && !TwoSigns(s) && AfterSign(s) < |s|
    ensures Parse(s, base0) == StdParse(s, base0) <==> Conforms(s, base0)
  {
    hide Value, Clamp, StdClamp, SkipSpace, StdSkip, Begin, Detect, Plain, Read, StdRead;
    StartOf(s, base0);
    var q, sign := AfterSign(s), SignOf(s);
    if HasPrefix(s, q, base0) {
      DetectPrefix(s, q, base0, sign);
      PrefixAgree(s, q, base0, sign);
    } else {
      DetectPlain(s, q, base0, sign);
      DigitsAgree(s, q, base0, sign);
    }
  }

  /** With a prefix. */
  lemma PrefixAgree(s: string, q: nat, base0: int, sign: int)
    requires q + 2 < |s| && HasPrefix(s, q, base0) && (sign == 1 || sign == -1)
    ensures if Digit(s[q + 2]) < 16 then Read(s, q + 2, 16, sign) == StdRead(s, q + 2, 16, sign)
      <==> Plain(s, q + 2, 16, sign)
      else !Plain(s, q + 2, 16, sign)
    ensures Read(s, q, if base0 == 0 then 8 else 16, sign) != StdRead(s, q + 2, 16, sign)
  {
    hide Value, Clamp, StdClamp;
    PrefixZero(s, q, if base0 == 0 then 8 else 16, sign);
    FewerDigits(s, q + 2, 16);
    if Digit(s[q + 2]) < 16 {
      ReadAgrees(s, q + 2, 16, sign);
    }
  }

  /** Without one. */
  lemma DigitsAgree(s: string, q: nat, base0: int, sign: int)
    requires (base0 == 0 || 2 <= base0 <= 36) && q < |s| && !HasPrefix(s, q, base0) && (sign == 1 || sign == -1)
    requires q > 0 ==> IsSpace(s[0]) || s[0] == '+' || s[0] == '-'
    ensures var base, ptr := StdBase(s, q, base0), if Taken(s[q], base0) then q else 0;
      Read(s, ptr, base, sign) == StdRead(s, q, base, sign) <==> Plain(s, q, base, sign)
  {
    hide Value, Clamp, StdClamp;
    var base := StdBase(s, q, base0);
    if Taken(s[q], base0) {
      ReadAgrees(s, q, base, sign);
    } else {
      NothingRead(s, q, base, sign);
    }
  }

  /** The code does what the standard says if and only if there are not two signs before a number, a 0X is
      not used to choose the base, and no letter is among the digits, unless the number is out of range
      either way. */
  lemma StandardExactly(s: string, base0: int)
    requires base0 == 0 || 2 <= base0 <= 36
    ensures Parse(s, base0) == StdParse(s, base0) <==> Conforms(s, base0)
  {
    if TwoSigns(s) {
      TwoSignsAgree(s, base0);
    } else if AfterSign(s) < |s| {
      OneSignAgree(s, base0);
    } else {
      hide SkipSpace, StdSkip, Value;
      StartOf(s, base0);
    }
  }

  /** In the bases up to 10 the second sign is all there is to it. */
  lemma UpToTen(s: string, base0: int)
    requires 2 <= base0 <= 10
    ensures Parse(s, base0) == StdParse(s, base0)
      <==> !(TwoSigns(s) && Digit(Char(s, AfterSign(s) + 1)) < base0)
  {
    hide Parse, StdParse, SkipSpace, StdSkip, Value, Clamp, StdClamp;
    StandardExactly(s, base0);
    StdDigitsAre(s, AfterSign(s), base0);
  }

  /** The standard finds no number in "+-5"; the code reads -5. */
  lemma PlusMinus()
    ensures Parse("+-5", 10) == Parsed(-5, 3, Unchanged) && StdParse("+-5", 10) == Parsed(0, 0, EINVAL)
  {
    assert SkipSpace("+-5", 0) == StdSkip("+-5", 0) == 0;
    assert Begin("+-5", 10) == Number(2, 10, -1);
    assert Digits("+-5", 2, 10) == [5];
    assert [5][..0] == [] && Value([5], 10) == 5;
  }

  /** In base 0 a capital X does not choose base 16, and only the 0 is read. */
  lemma CapitalPrefix()
    ensures Parse("0X1", 0) == Parsed(0, 1, Unchanged) && StdParse("0X1", 0) == Parsed(1, 3, Unchanged)
  {
    hide Value, SkipSpace, StdSkip, Digits, StdDigits;
    OneDigits();
    PrefixDigits();
  }

  lemma PrefixDigits()
    ensures SkipSpace("0X1", 0) == StdSkip("0X1", 0) == 0
    ensures Digits("0X1", 0, 8) == [0] && StdDigits("0X1", 2, 16) == [1]
  {
    assert Digits("0X1", 1, 8) == [] && StdDigits("0X1", 3, 16) == [];
  }

  lemma OneDigits()
    ensures Value([0], 8) == 0 && Value([1], 16) == 1
  {
    assert [0][..0] == [] && [1][..0] == [];
  }
}
