/** Numbers printed by sprint_int (printf.c:100-173) and read back by strtol (main.c:582-708). */
module RoundTrip {
  import opened CStrings
  import F = Format
  import P = Printf
  import opened Numerals
  import opened Strtol
  import S = Standard

  predicate Decimal(s: string) {
    forall k :: 0 <= k < |s| ==> '0' <= s[k] <= '9'
  }

  function DigitsOf(s: string): (ds: seq<int>)
    ensures |ds| == |s| && forall k :: 0 <= k < |s| ==> ds[k] == Digit(s[k])
  {
    seq(|s|, k requires 0 <= k < |s| => Digit(s[k]))
  }

  // ----- The digits of a number -----

  lemma {:induction false} NatTextDecimal(n: nat, upper: bool)
    ensures Decimal(P.NatText(n, 10, upper))
    decreases n
  {
    if n > 0 {
      NatTextDecimal(n / 10, upper);
      DigitCharDecimal(n % 10, upper);
    }
  }

  lemma DigitCharDecimal(d: int, upper: bool)
    requires 0 <= d < 10
    ensures '0' <= P.DigitChar(d, upper) <= '9'
  {
  }

  /** strtol takes the printed digits for what they denote. */
  lemma DigitTextValue(n: nat, upper: bool)
    ensures var t := P.DigitText(n, 10, upper); t != "" && Decimal(t) && Value(DigitsOf(t), 10) == n
  {
    NatTextDecimal(n, upper);
    P.DigitsDenote(n, 10, upper);
    var t := P.NatText(n, 10, upper);
    assert DigitsOf(t) == P.DigitValues(t);
    assert DigitsOf("0") == [0] && Value([], 10) == 0 && [0][..0] == [];
  }

  // ----- Reading -----

  /** A text made of white space, an optional sign, digits, and something that is no digit. */
  lemma ReadsBack(space: string, sign: string, digits: string, tail: string)
    requires forall k :: 0 <= k < |space| ==> S.StdSpace(space[k])
    requires sign == "" || sign == "-" || sign == "+"
    requires digits != "" && Decimal(digits)
    requires tail != "" ==> !('0' <= tail[0] <= '9')
    ensures
      var v := (if sign == "-" then -1 else 1) * Value(DigitsOf(digits), 10);
      Parse(space + sign + digits + tail, 10)
        == Parsed(Clamp(v), |space + sign + digits|, if Clamp(v) != v then ERANGE else Unchanged)
  {
    hide Value, Clamp, Digits, Digit, IsSpace, SkipSpace, Begin, DigitsOf, Decimal;
    var s := space + sign + digits + tail;
    var ptr := |space + sign|;
    NumberBegins(space, sign, digits, tail);
    DigitsFound(s, ptr, digits);
  }

  lemma NumberBegins(space: string, sign: string, digits: string, tail: string)
    requires forall k :: 0 <= k < |space| ==> S.StdSpace(space[k])
    requires sign == "" || sign == "-" || sign == "+"
    requires digits != "" && Decimal(digits)
    requires tail != "" ==> !('0' <= tail[0] <= '9')
    ensures var s, ptr := space + sign + digits + tail, |space + sign|;
      && Begin(s, 10) == Number(ptr, 10, if sign == "-" then -1 else 1)
      && ptr + |digits| <= |s| && s[ptr..ptr + |digits|] == digits && Digit(Char(s, ptr + |digits|)) >= 10
  {
    hide Digits, DigitsOf, SkipSpace, IsSpace, Digit;
    TextParts(space, sign, digits, tail);
    BlanksSkipped(space + sign + digits + tail, |space|);
    DecimalDigit(digits[0]);
    DecimalDigit(if tail == "" then '\0' else tail[0]);
  }

  lemma DecimalDigit(c: char)
    ensures '0' <= c <= '9' ==> Digit(c) == c as int - '0' as int
    ensures !('0' <= c <= '9') ==> Digit(c) >= 10
  {
  }

  lemma BlanksSkipped(s: string, k: nat)
    requires k < |s| && (forall j :: 0 <= j < k ==> S.StdSpace(s[j]))
    requires s[k] == '-' || s[k] == '+' || '0' <= s[k] <= '9'
    ensures SkipSpace(s, 0) == k
  {
    hide SkipSpace;
    SpaceSkipped(s, k);
  }

  lemma TextParts(space: string, sign: string, digits: string, tail: string)
    requires |sign| <= 1 && digits != ""
    ensures var s, ptr := space + sign + digits + tail, |space| + |sign|;
      && |space + sign| == ptr && |s| == ptr + |digits| + |tail|
      && (forall k :: 0 <= k < |space| ==> s[k] == space[k]) && (sign != "" ==> s[|space|] == sign[0])
      && s[ptr..ptr + |digits|] == digits && s[ptr] == digits[0] && (tail != "" ==> s[ptr + |digits|] == tail[0])
  {
  }

  lemma SpaceSkipped(s: string, k: nat)
    requires k < |s| && (forall j :: 0 <= j < k ==> IsSpace(s[j])) && !IsSpace(s[k])
    ensures SkipSpace(s, 0) == k
  {
    assert SkipSpace(s, 0) <= k ==> SkipSpace(s, 0) == k;
  }

  lemma {:induction false} DigitsLength(s: string, ptr: nat, n: nat)
    requires ptr + n <= |s| && (forall k :: ptr <= k < ptr + n ==> Digit(s[k]) < 10)
    requires Digit(Char(s, ptr + n)) >= 10
    ensures |Digits(s, ptr, 10)| == n
    decreases n
  {
    if n > 0 {
      assert Digit(s[ptr]) < 10;
      DigitsLength(s, ptr + 1, n - 1);
    }
  }

  lemma DigitsFound(s: string, ptr: nat, digits: string)
    requires ptr + |digits| <= |s| && s[ptr..ptr + |digits|] == digits && Decimal(digits)
    requires Digit(Char(s, ptr + |digits|)) >= 10
    ensures Digits(s, ptr, 10) == DigitsOf(digits)
  {
    DigitsMaximal(s, ptr, 10);
    forall k | ptr <= k < ptr + |digits|
      ensures Digit(s[k]) < 10
    {
      assert s[k] == digits[k - ptr];
    }
    DigitsLength(s, ptr, |digits|);
    forall k | 0 <= k < |digits|
      ensures Digits(s, ptr, 10)[k] == Digit(digits[k])
    {
      assert s[ptr + k] == digits[k];
    }
  }

  /** A sign followed by a blank is read as no number at all. */
  lemma BlankAfterSign(s: string)
    requires |s| >= 2 && (s[0] == '-' || s[0] == '+') && s[1] == ' '
    ensures Parse(s, 10) == Parsed(0, 0, EINVAL)
  {
    SpaceSkipped(s, 0);
  }

  // ----- Printing, then reading -----

  /** A sign is printed that is not a blank. */
  predicate Signed(num: P.Word64, flags: P.Flags) {
    P.Negative(num, flags) || (flags.plus && !flags.space)
  }

  function Decimals(num: P.Word64, flags: P.Flags): string {
    P.DigitText(P.Magnitude(num, flags), 10, flags.upper)
  }

  /** No blank is printed between a sign and the digits: padding is made of zeros, or there is no sign, or
      there is no padding before the digits. */
  predicate Unbroken(num: P.Word64, width: int, precision: int, flags: P.Flags) {
    || flags.zeropad
    || !Signed(num, flags)
    || (precision <= |Decimals(num, flags)| && (flags.left || width <= 1 + |Decimals(num, flags)|))
  }

  /** The parts of a printed number. */
  lemma Shape(num: P.Word64, width: int, precision: int, flags: P.Flags)
    returns (space: string, sign: string, zeros: string, tail: string)
    requires !flags.alternate && Unbroken(num, width, precision, flags)
    ensures sign == if P.Negative(num, flags) then "-" else if Signed(num, flags) then "+" else ""
    ensures forall k :: 0 <= k < |space| ==> space[k] == ' '
    ensures forall k :: 0 <= k < |zeros| ==> zeros[k] == '0'
    ensures forall k :: 0 <= k < |tail| ==> tail[k] == ' '
    ensures P.Render(num, 10, width, precision, flags) == space + sign + (zeros + Decimals(num, flags)) + tail
    ensures |space + sign + (zeros + Decimals(num, flags))| == P.Reach(num, 10, width, precision, flags)
  {
    hide P.DigitText, P.Negative, P.Magnitude, P.Render, P.Reach, P.Repeat, Decimals;
    var digits := Decimals(num, flags);
    var front := P.SignText(num, flags);
    assert front + P.Prefix(flags) == front;
    var room := width - |front| - P.Max(precision, |digits|);
    var fill := P.Repeat(P.Pad(flags), P.Max(precision, |digits|) - |digits|);
    var pad := (if flags.left then "" else P.Repeat(P.Pad(flags), room)) + fill;
    tail := if flags.left then P.Repeat(' ', room) else "";
    RenderParts(num, width, precision, flags);
    ReachParts(num, width, precision, flags);
    sign := if Signed(num, flags) then front else "";
    if flags.zeropad {
      space, zeros := if Signed(num, flags) then "" else front, pad;
    } else if Signed(num, flags) {
      space, zeros := "", "";
    } else {
      space, zeros := front + pad, "";
    }
    assert front + pad == space + sign + zeros;
    Regroup(front, pad, space, sign, zeros, digits);
  }

  lemma Regroup(front: string, pad: string, space: string, sign: string, zeros: string, digits: string)
    requires front + pad == space + sign + zeros
    ensures front + pad + digits == space + sign + (zeros + digits)
    ensures |space + sign + (zeros + digits)| == |front| + |pad| + |digits|
  {
    assert space + sign + zeros + digits == space + sign + (zeros + digits);
    assert |front + pad| == |front| + |pad|;
  }

  lemma RenderParts(num: P.Word64, width: int, precision: int, flags: P.Flags)
    ensures
      var front := P.SignText(num, flags) + P.Prefix(flags);
      var filled := P.Max(precision, |Decimals(num, flags)|);
      var room := width - |front| - filled;
      P.Render(num, 10, width, precision, flags)
        == front
           + ((if flags.left then "" else P.Repeat(P.Pad(flags), room))
              + P.Repeat(P.Pad(flags), filled - |Decimals(num, flags)|))
           + Decimals(num, flags) + (if flags.left then P.Repeat(' ', room) else "")
  {
    hide P.DigitText, P.Negative, P.Magnitude, P.SignText, P.Prefix, P.Pad, P.Repeat, P.Max, P.Reach;
  }

  lemma ReachParts(num: P.Word64, width: int, precision: int, flags: P.Flags)
    ensures
      var front := P.SignText(num, flags) + P.Prefix(flags);
      var filled := P.Max(precision, |Decimals(num, flags)|);
      var room := width - |front| - filled;
      P.Reach(num, 10, width, precision, flags) == |front| + filled + (if flags.left || room < 0 then 0 else room)
  {
    hide P.DigitText, P.Negative, P.Magnitude, P.SignText, P.Prefix, P.Pad, P.Render;
  }

  lemma ValueOfPadded(zeros: string, n: nat, upper: bool)
    requires forall k :: 0 <= k < |zeros| ==> zeros[k] == '0'
    ensures var t := zeros + P.DigitText(n, 10, upper); t != "" && Decimal(t) && Value(DigitsOf(t), 10) == n
  {
    hide Value, P.DigitText;
    DigitTextValue(n, upper);
    var digits := P.DigitText(n, 10, upper);
    ValueZeros(DigitsOf(zeros), DigitsOf(digits), 10);
    assert DigitsOf(zeros + digits) == DigitsOf(zeros) + DigitsOf(digits);
  }

  /** The 64-bit number that a 32-bit one is widened to. */
  function Widened(n: int): P.Word64
    requires LONG_MIN <= n <= LONG_MAX
  {
    F.Extend(n, 4, true)
  }

  lemma WidenedValue(n: int, flags: P.Flags)
    requires LONG_MIN <= n <= LONG_MAX && flags.sign
    ensures P.Negative(Widened(n), flags) <==> n < 0
    ensures P.Magnitude(Widened(n), flags) == if n < 0 then -n else n
  {
  }

  /** The round trip: strtol gets back every printed 32-bit number and stops just after its last digit,
      exactly when there is no prefix and no blank separates a sign from the digits. */
  lemma PrintThenParse(n: int, width: int, precision: int, flags: P.Flags)
    requires LONG_MIN <= n <= LONG_MAX && flags.sign
    ensures Parse(P.Render(Widened(n), 10, width, precision, flags), 10)
        == Parsed(n, P.Reach(Widened(n), 10, width, precision, flags), Unchanged)
      <==> !flags.alternate && Unbroken(Widened(n), width, precision, flags)
  {
    hide P.Render, P.Reach, P.DigitText, P.Negative, P.Magnitude, P.SignText, Widened, Parse, Value, Unbroken;
    var num := Widened(n);
    WidenedValue(n, flags);
    if flags.alternate {
      PrefixShape(num, width, precision, flags);
      PrefixUnread(P.Render(num, 10, width, precision, flags), |P.SignText(num, flags)|);
    } else if Unbroken(num, width, precision, flags) {
      var space, sign, zeros, tail := Shape(num, width, precision, flags);
      ValueOfPadded(zeros, P.Magnitude(num, flags), flags.upper);
      ReadsBack(space, sign, zeros + Decimals(num, flags), tail);
    } else {
      BrokenShape(num, width, precision, flags);
      BlankAfterSign(P.Render(num, 10, width, precision, flags));
    }
  }

  lemma PrefixShape(num: P.Word64, width: int, precision: int, flags: P.Flags)
    requires flags.alternate
    ensures var s, k := P.Render(num, 10, width, precision, flags), |P.SignText(num, flags)|;
      k + 3 <= |s| && s[k] == '0' && s[k + 1] == 'x' && k <= 1 && (k == 1 ==> s[0] == ' ' || s[0] == '-' || s[0] == '+')
    ensures P.Reach(num, 10, width, precision, flags) >= |P.SignText(num, flags)| + 3
  {
    hide P.DigitText, P.Negative, P.Magnitude, P.Repeat;
    DigitTextValue(P.Magnitude(num, flags), flags.upper);
  }

  /** In base 10 only the 0 of a 0x is read. */
  lemma PrefixUnread(s: string, k: nat)
    requires k + 3 <= |s| && s[k] == '0' && s[k + 1] == 'x' && k <= 1
    requires k == 1 ==> s[0] == ' ' || s[0] == '-' || s[0] == '+'
    ensures Parse(s, 10).end == k + 1
  {
    hide Value, Clamp;
    SpaceSkipped(s, if k == 1 && s[0] == ' ' then 1 else 0);
    DigitsLength(s, k, 1);
  }

  lemma BrokenShape(num: P.Word64, width: int, precision: int, flags: P.Flags)
    requires !flags.alternate && !Unbroken(num, width, precision, flags)
    ensures var s := P.Render(num, 10, width, precision, flags);
      |s| >= 2 && (s[0] == '-' || s[0] == '+') && s[1] == ' '
    ensures P.Reach(num, 10, width, precision, flags) > 0
  {
    hide P.DigitText, P.Negative, P.Magnitude;
  }

  predicate Unterminated(s: string) {
    forall k :: 0 <= k < |s| ==> s[k] != '\0'
  }

  lemma Unterminateds(a: string, b: string)
    requires Unterminated(a) && Unterminated(b)
    ensures Unterminated(a + b)
  {
  }

  /** What is printed holds no terminator, so that strtol is given all of it. */
  lemma PrintedIsText(num: P.Word64, width: int, precision: int, flags: P.Flags)
    ensures Unterminated(P.Render(num, 10, width, precision, flags))
  {
    hide P.Render, P.DigitText, P.Magnitude, P.Negative, P.Repeat, Unterminated, Decimals;
    RenderParts(num, width, precision, flags);
    var front := P.SignText(num, flags) + P.Prefix(flags);
    var digits := Decimals(num, flags);
    var filled := P.Max(precision, |digits|);
    var room := width - |front| - filled;
    PiecesUnterminated(num, flags, room, filled - |digits|);
    var left := if flags.left then "" else P.Repeat(P.Pad(flags), room);
    var pad := P.Repeat(P.Pad(flags), filled - |digits|);
    Unterminateds(left, pad);
    Unterminateds(front, left + pad);
    Unterminateds(front + (left + pad), digits);
    Unterminateds(front + (left + pad) + digits, if flags.left then P.Repeat(' ', room) else "");
  }

  lemma PiecesUnterminated(num: P.Word64, flags: P.Flags, room: int, fill: int)
    ensures Unterminated("") && Unterminated(Decimals(num, flags))
    ensures Unterminated(P.SignText(num, flags) + P.Prefix(flags))
    ensures Unterminated(P.Repeat(P.Pad(flags), room)) && Unterminated(P.Repeat(P.Pad(flags), fill))
    ensures Unterminated(P.Repeat(' ', room))
  {
    hide P.DigitText, P.Magnitude, P.Negative;
    DigitTextValue(P.Magnitude(num, flags), flags.upper);
  }

  // ----- Through the buffer -----

  /** The string that a buffer holds: its characters up to the first terminator. */
  function TextIn(b: seq<char>): (s: CString)
    ensures |s| <= |b| && s == b[..|s|] && (|s| < |b| ==> b[|s|] == '\0')
  {
    if b == [] || b[0] == '\0' then "" else [b[0]] + TextIn(b[1..])
  }

  lemma {:induction false} TextInIs(b: seq<char>, text: string)
    requires |text| < |b| && b[..|text|] == text && b[|text|] == '\0' && Unterminated(text)
    ensures TextIn(b) == text
  {
    if text != "" {
      assert b[0] == text[0] && b[1..][..|text| - 1] == text[1..];
      TextInIs(b[1..], text[1..]);
    }
  }

  /** A number printed into a buffer with room for it, when the counter for the width fits an int, with
      the terminator that vsnprintf adds, and read from there. */
  method PrintAndRead(buf: array<char>, n: int, width: int, precision: int, flags: P.Flags)
    returns (value: int, end: nat, errno: Errno)
    requires LONG_MIN <= n <= LONG_MAX && flags.sign
    requires |P.Render(Widened(n), 10, width, precision, flags)| < buf.Length
    requires P.WidthFits(Widened(n), 10, width, precision, flags)
    modifies buf
    ensures (value == n && end == P.Reach(Widened(n), 10, width, precision, flags) && errno == Unchanged)
      <==> !flags.alternate && Unbroken(Widened(n), width, precision, flags)
  {
    hide P.Render, P.Reach, P.WidthFits, Widened, Parse, Unbroken;
    ghost var text := P.Render(Widened(n), 10, width, precision, flags);
    ghost var b0 := buf[..];
    F.ReachFits(Widened(n), 10, width, precision, flags);
    var r := P.SprintInt(buf, 0, buf.Length, Widened(n), 10, width, precision, flags);
    var pos := P.BufAdd(buf, r.pos, buf.Length, '\0', b0, 0, text);
    PrintedIsText(Widened(n), width, precision, flags);
    PlacedText(b0, buf[..], text);
    PrintThenParse(n, width, precision, flags);
    value, end, errno := StrToL(To(TextIn(buf[..])), 10);
  }

  lemma PlacedText(b0: seq<char>, b: seq<char>, text: string)
    requires P.Placed(b0, b, 0, |b|, text + ['\0']) && |text| < |b| && Unterminated(text)
    ensures TextIn(b) == text
  {
    assert b[..|text|] == text;
    TextInIs(b, text);
  }
}
