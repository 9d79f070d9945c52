/** Number printing (printf.c:57-173). */
module Printf {
  import opened Numerals

  const INT_MAX: int := 0x7FFF_FFFF
  const INT_MIN: int := -0x8000_0000

  const RANGE64: int := 0x1_0000_0000_0000_0000

  type Word64 = w: int | 0 <= w < 0x1_0000_0000_0000_0000

  datatype Flags = Flags(plus: bool, left: bool, alternate: bool, space: bool, zeropad: bool, sign: bool, upper: bool)

  // ----- The text of a number -----

  function DigitChar(d: int, upper: bool): char
    requires 0 <= d < 16
  {
    if upper then "0123456789ABCDEF"[d] else "0123456789abcdef"[d]
  }

  /** The digits of n without leading zeros; none for 0. */
  function NatText(n: nat, base: int, upper: bool): string
    requires 2 <= base <= 16
    decreases n
  {
    if n == 0 then "" else NatText(n / base, base, upper) + [DigitChar(n % base, upper)]
  }

  function DigitText(n: nat, base: int, upper: bool): (t: string)
    requires 2 <= base <= 16
  {
    if n == 0 then "0" else NatText(n, base, upper)
  }

  /** The value of a digit character. */
  function DigitValue(c: char): int {
    if '0' <= c <= '9' then c as int - '0' as int
    else if 'a' <= c <= 'f' then c as int - 'a' as int + 10
    else if 'A' <= c <= 'F' then c as int - 'A' as int + 10
    else -1
  }

  function DigitValues(text: string): (ds: seq<int>)
    ensures |ds| == |text| && forall k :: 0 <= k < |text| ==> ds[k] == DigitValue(text[k])
  {
    seq(|text|, k requires 0 <= k < |text| => DigitValue(text[k]))
  }

  lemma DigitCharValue(d: int, upper: bool)
    requires 0 <= d < 16
    ensures DigitValue(DigitChar(d, upper)) == d && (d > 0 ==> DigitChar(d, upper) != '0')
    ensures if upper then !('a' <= DigitChar(d, upper) <= 'f') else !('A' <= DigitChar(d, upper) <= 'F')
  {
  }

  lemma ValueMore(front: string, c: char, base: int)
    ensures Value(DigitValues(front + [c]), base) == Value(DigitValues(front), base) * base + DigitValue(c)
  {
    assert DigitValues(front + [c])[..|front|] == DigitValues(front);
  }

  lemma ValueNothing(base: int)
    ensures Value(DigitValues(""), base) == 0
  {
  }

  /** The digits of n denote n, and none of them is a leading zero. */
  lemma {:induction false} DigitsDenote(n: nat, base: int, upper: bool)
    requires 2 <= base <= 16
    ensures Value(DigitValues(NatText(n, base, upper)), base) == n
    ensures n > 0 ==> NatText(n, base, upper) != "" && NatText(n, base, upper)[0] != '0'
    decreases n
  {
    hide DigitChar, DigitValue, Value;
    if n > 0 {
      var front := NatText(n / base, base, upper);
      QuotientLess(n, base);
      DigitsDenote(n / base, base, upper);
      DigitCharValue(n % base, upper);
      ValueMore(front, DigitChar(n % base, upper), base);
    } else {
      ValueNothing(base);
    }
  }

  lemma QuotientLess(n: nat, base: int)
    requires n > 0 && base >= 2
    ensures 0 <= n / base < n && 0 <= n % base < base && n == n / base * base + n % base
    ensures n / base == 0 ==> n % base > 0
  {
    ProductOrder(n / base, 2, base);
  }

  function Repeat(c: char, n: int): (t: string)
    ensures |t| == (if n > 0 then n else 0) && forall i :: 0 <= i < |t| ==> t[i] == c
    decreases if n > 0 then n else 0
  {
    if n <= 0 then "" else Repeat(c, n - 1) + [c]
  }

  /** The number is printed with a minus sign. */
  predicate Negative(num: Word64, flags: Flags) {
    flags.sign && num >= RANGE64 / 2
  }

  /** The magnitude that is printed. */
  function Magnitude(num: Word64, flags: Flags): (m: nat)
    ensures m < RANGE64
  {
    if Negative(num, flags) then RANGE64 - num else num
  }

  function SignText(num: Word64, flags: Flags): (t: string)
    ensures |t| <= 1
  {
    if Negative(num, flags) then "-" else if flags.plus then (if flags.space then " " else "+") else ""
  }

  function Prefix(flags: Flags): string {
    if flags.alternate then "0x" else ""
  }

  function Pad(flags: Flags): char {
    if flags.zeropad then '0' else ' '
  }

  function Max(a: int, b: int): int {
    if a < b then b else a
  }

  function Min(a: int, b: int): int {
    if a < b then a else b
  }

  /** Padding, digits and padding, as the four loops write them with the given width left. */
  function Field(digits: string, width: int, filled: int, pad: char, left: bool): string {
    (if left then "" else Repeat(pad, width - filled))
      + Repeat(pad, filled - |digits|)
      + digits
      + (if left then Repeat(' ', width - filled) else "")
  }

  /** Everything sprint_int puts out: sign, prefix, padding to the width, padding to the precision,
      digits, and padding after them when left aligned. */
  function Render(num: Word64, base: int, width: int, precision: int, flags: Flags): string
    requires base == 10 || base == 16
  {
    var digits := DigitText(Magnitude(num, flags), base, flags.upper);
    var front := SignText(num, flags) + Prefix(flags);
    front + Field(digits, width - |front|, Max(precision, |digits|), Pad(flags), flags.left)
  }

  /** How many characters there are up to the last digit. */
  function Reach(num: Word64, base: int, width: int, precision: int, flags: Flags): (n: nat)
    requires base == 10 || base == 16
  {
    var digits := DigitText(Magnitude(num, flags), base, flags.upper);
    var filled := |SignText(num, flags)| + |Prefix(flags)| + Max(precision, |digits|);
    if flags.left then filled else Max(width, filled)
  }

  /** The length law: the width, or what the sign, the prefix, the precision and the digits need. */
  lemma RenderLength(num: Word64, base: int, width: int, precision: int, flags: Flags)
    requires base == 10 || base == 16
    ensures var digits := DigitText(Magnitude(num, flags), base, flags.upper);
      |Render(num, base, width, precision, flags)|
        == Max(width, |SignText(num, flags)| + |Prefix(flags)| + Max(precision, |digits|))
  {
  }

  /** The counter for the width as the loop at printf.c:170 finds it.  Without left alignment the loop at
      printf.c:153 takes it down to the number of characters that follow, and one below; then every one of
      them, up to the last digit, takes it down by one. */
  function WidthLeft(width: int, filled: int, left: bool): int {
    (if left then width else Min(width, filled) - 1) - filled
  }

  /** The counter for the width does not leave the range of an int. */
  predicate WidthFits(num: Word64, base: int, width: int, precision: int, flags: Flags)
    requires base == 10 || base == 16
  {
    var digits := DigitText(Magnitude(num, flags), base, flags.upper);
    WidthLeft(width - |SignText(num, flags)| - |Prefix(flags)|, Max(precision, |digits|), flags.left) >= INT_MIN
  }

  /** It leaves it only when there is more text than an int can count. */
  lemma WidthFitsText(num: Word64, base: int, width: nat, precision: int, flags: Flags)
    requires base == 10 || base == 16
    ensures !WidthFits(num, base, width, precision, flags) ==>
      |Render(num, base, width, precision, flags)| > INT_MAX
  {
    hide Render, DigitText, Magnitude, SignText, Prefix;
    RenderLength(num, base, width, precision, flags);
  }

  function Pow(base: nat, n: nat): nat {
    if n == 0 then 1 else base * Pow(base, n - 1)
  }

  /** A number below base^n has at most n digits. */
  lemma {:induction false} NatTextLength(n: nat, base: int, upper: bool, k: nat)
    requires 2 <= base <= 16 && n < Pow(base, k)
    ensures |NatText(n, base, upper)| <= k
    decreases k
  {
    if n > 0 {
      DivBelow(n, base, k);
      NatTextLength(n / base, base, upper, k - 1);
    }
  }

  lemma DivBelow(n: nat, base: int, k: nat)
    requires 2 <= base && 0 < n < Pow(base, k)
    ensures k > 0 && n / base < Pow(base, k - 1) && n / base < n
  {
    if k > 0 {
      ProductOrder(base, n / base, Pow(base, k - 1));
      ProductOrder(n / base, 2, base);
    }
  }

  lemma TwentyDigits(base: int)
    requires base == 10 || base == 16
    ensures RANGE64 <= Pow(base, 20)
  {
    assert Pow(10, 5) == 100000;
    PowAdd(10, 5, 5);
    PowAdd(10, 10, 10);
    assert Pow(16, 4) == 65536;
    PowAdd(16, 4, 4);
    PowAdd(16, 8, 8);
    PowAdd(16, 16, 4);
  }

  lemma {:induction false} PowAdd(base: nat, a: nat, b: nat)
    ensures Pow(base, a + b) == Pow(base, a) * Pow(base, b)
  {
    if a > 0 {
      PowAdd(base, a - 1, b);
      ProductGroups(base, Pow(base, a - 1), Pow(base, b));
    }
  }

  lemma ProductGroups(a: int, b: int, c: int)
    ensures a * (b * c) == a * b * c
  {
  }

  // ----- Writing through a buffer pointer -----

  /** The buffer after text was written from index pos on, as far as end. */
  ghost predicate Placed(b: seq<char>, b': seq<char>, pos: int, end: int, text: string) {
    |b'| == |b| && end <= |b| && 0 <= pos &&
    forall j :: 0 <= j < |b| ==> b'[j] == if pos <= j < end && j < pos + |text| then text[j - pos] else b[j]
  }

  /** buf_add. */
  method BufAdd(buf: array<char>, pos: nat, end: nat, c: char, ghost b0: seq<char>, ghost pos0: nat,
                ghost text: string) returns (pos': nat)
    requires Placed(b0, buf[..], pos0, end, text) && pos == pos0 + |text|
    modifies buf
    ensures Placed(b0, buf[..], pos0, end, text + [c]) && pos' == pos + 1 == pos0 + |text + [c]|
    ensures pos < end ==> pos < buf.Length && buf[..] == old(buf[..])[pos := c]
    ensures pos >= end ==> buf[..] == old(buf[..])
  {
    if pos < end {
      buf[pos] := c;
    }
    pos' := pos + 1;
  }

  // ----- The loops of sprint_int -----

  /** The digits of num, least significant first, in a buffer of 20 characters. */
  method MakeDigits(num0: Word64, base: int, upper: bool) returns (tmp: array<char>, len: nat)
    requires base == 10 || base == 16
    ensures fresh(tmp) && tmp.Length == 20 && 0 < len <= 20 && Reversed(tmp[..len]) == DigitText(num0, base, upper)
  {
    hide *;
    tmp := new char[20];
    len := 0;
    var num: int := num0;
    if num == 0 {
      tmp[0] := '0';
      len := 1;
      assert tmp[..1] == ['0'];
    }
    DigitsBegin(num0, base, upper);
    while num > 0
      invariant 0 <= num && len <= 20 && fresh(tmp) && tmp.Length == 20
      invariant num < Pow(base, 20 - len)
      invariant num0 == 0 ==> num == 0 && tmp[..len] == "0"
      invariant num0 > 0 ==> NatText(num0, base, upper) == NatText(num, base, upper) + Reversed(tmp[..len])
    {
      DivBelow(num, base, 20 - len);
      ghost var done := tmp[..len];
      var c := DigitChar(num % base, upper);
      tmp[len] := c;
      assert tmp[..len + 1] == done + [c];
      NatTextLast(num, base, upper);
      if num0 > 0 {
        DigitsMore(NatText(num0, base, upper), NatText(num / base, base, upper), c, done);
      }
      len := len + 1;
      num := num / base;
    }
    DigitsEnd(num0, base, upper, tmp[..len]);
  }

  lemma DigitsBegin(num0: Word64, base: int, upper: bool)
    requires base == 10 || base == 16
    ensures num0 < Pow(base, 20) && (num0 == 0 ==> num0 < Pow(base, 19))
    ensures NatText(num0, base, upper) == NatText(num0, base, upper) + Reversed("")
  {
    TwentyDigits(base);
    PowPositive(base, 19);
    assert NatText(num0, base, upper) == NatText(num0, base, upper) + "";
  }

  lemma DigitsMore(all: string, front: string, c: char, done: string)
    requires all == front + [c] + Reversed(done)
    ensures all == front + Reversed(done + [c])
  {
    hide Reversed;
    ReversedMore(done, c);
    Regrouped(front, [c], Reversed(done));
  }

  lemma NatTextLast(n: nat, base: int, upper: bool)
    requires 2 <= base <= 16 && n > 0
    ensures NatText(n, base, upper) == NatText(n / base, base, upper) + [DigitChar(n % base, upper)]
  {
  }

  lemma Regrouped(a: string, b: string, c: string)
    ensures a + b + c == a + (b + c)
  {
  }

  lemma DigitsEnd(num0: nat, base: int, upper: bool, done: string)
    requires 2 <= base <= 16
    requires num0 == 0 ==> done == "0"
    requires num0 > 0 ==> NatText(num0, base, upper) == NatText(0, base, upper) + Reversed(done)
    ensures Reversed(done) == DigitText(num0, base, upper) && |done| > 0
  {
    assert "" + Reversed(done) == Reversed(done);
  }

  function Reversed(s: string): (r: string)
    ensures |r| == |s|
  {
    if s == "" then "" else [s[|s| - 1]] + Reversed(s[..|s| - 1])
  }

  lemma ReversedMore(s: string, c: char)
    ensures Reversed(s + [c]) == [c] + Reversed(s)
  {
    assert (s + [c])[..|s|] == s;
  }

  lemma PowPositive(base: nat, n: nat)
    requires base > 0
    ensures Pow(base, n) > 0
  {
  }

  /** while (precision < width--) buf_add(c) */
  method PadToWidth(buf: array<char>, pos0: nat, end: nat, c: char, precision: int, width0: int,
                    ghost b0: seq<char>, ghost start: nat, ghost text: string) returns (pos: nat, width: int)
    requires Placed(b0, buf[..], start, end, text) && pos0 == start + |text|
    modifies buf
    ensures Placed(b0, buf[..], start, end, text + Repeat(c, width0 - precision))
    ensures pos == start + |text + Repeat(c, width0 - precision)|
    ensures width == (if width0 < precision then width0 else precision) - 1
  {
    pos, width := pos0, width0;
    ghost var n := 0;
    assert text + Repeat(c, 0) == text;
    while precision < width
      invariant 0 <= n && width == width0 - n && (precision < width0 ==> precision <= width)
      invariant precision >= width0 ==> n == 0
      invariant Placed(b0, buf[..], start, end, text + Repeat(c, n)) && pos == start + |text + Repeat(c, n)|
    {
      pos := BufAdd(buf, pos, end, c, b0, start, text + Repeat(c, n));
      assert text + Repeat(c, n) + [c] == text + Repeat(c, n + 1);
      n := n + 1;
      width := width - 1;
    }
    assert precision >= width0 ==> Repeat(c, width0 - precision) == Repeat(c, 0);
    width := width - 1;
  }

  /** while (len < precision--) { buf_add(c); --width; } */
  method PadToPrecision(buf: array<char>, pos0: nat, end: nat, c: char, len: int, precision0: int, width0: int,
                        ghost b0: seq<char>, ghost start: nat, ghost text: string) returns (pos: nat, width: int)
    requires Placed(b0, buf[..], start, end, text) && pos0 == start + |text| && len <= precision0
    modifies buf
    ensures Placed(b0, buf[..], start, end, text + Repeat(c, precision0 - len))
    ensures pos == start + |text + Repeat(c, precision0 - len)|
    ensures width == width0 - (precision0 - len)
  {
    pos, width := pos0, width0;
    var precision := precision0;
    ghost var n := 0;
    assert text + Repeat(c, 0) == text;
    while len < precision
      invariant 0 <= n && precision == precision0 - n && len <= precision && width == width0 - n
      invariant Placed(b0, buf[..], start, end, text + Repeat(c, n)) && pos == start + |text + Repeat(c, n)|
    {
      pos := BufAdd(buf, pos, end, c, b0, start, text + Repeat(c, n));
      assert text + Repeat(c, n) + [c] == text + Repeat(c, n + 1);
      n := n + 1;
      precision, width := precision - 1, width - 1;
    }
  }

  /** The loop while (len > 0) buf_add(x--) after some turns.  buf_add names its argument only in the
      branch that stores it, so len goes down only while there is room. */
  function DrainLoop(pos: nat, len: nat, end: nat, turns: nat): (nat, nat)
    decreases turns
  {
    if turns == 0 || len == 0 then (pos, len)
    else DrainLoop(pos + 1, if pos < end then len - 1 else len, end, turns - 1)
  }

  /** The loop ends exactly when all of the characters fit, and then it has advanced by their number. */
  lemma DrainEnds(pos: nat, len: nat, end: nat)
    ensures (exists turns: nat :: DrainLoop(pos, len, end, turns).1 == 0) <==> len == 0 || pos + len <= end
    ensures len == 0 || pos + len <= end ==> DrainLoop(pos, len, end, len) == (pos + len, 0)
  {
    forall turns: nat | DrainLoop(pos, len, end, turns).1 == 0
      ensures len == 0 || pos + len <= end
    {
      DrainOver(pos, len, end, turns);
    }
    if len == 0 || pos + len <= end {
      DrainAll(pos, len, end);
    }
  }

  lemma {:induction false} DrainOver(pos: nat, len: nat, end: nat, turns: nat)
    requires DrainLoop(pos, len, end, turns).1 == 0
    ensures len == 0 || pos + len <= end
    decreases turns
  {
    if turns > 0 && len > 0 {
      DrainOver(pos + 1, if pos < end then len - 1 else len, end, turns - 1);
    }
  }

  lemma {:induction false} DrainAll(pos: nat, len: nat, end: nat)
    requires len == 0 || pos + len <= end
    ensures DrainLoop(pos, len, end, len) == (pos + len, 0)
    decreases len
  {
    if len > 0 {
      DrainAll(pos + 1, len - 1, end);
    }
  }

  /** while (len > 0) { buf_add(tmp[--len]); --width; }, which comes to an end unless the digits reach end. */
  method PutDigits(buf: array<char>, pos0: nat, end: nat, tmp: array<char>, len0: nat, width0: int,
                   ghost b0: seq<char>, ghost start: nat, ghost text: string) returns (ends: bool, pos: nat, width: int)
    requires Placed(b0, buf[..], start, end, text) && pos0 == start + |text| && 0 < len0 <= tmp.Length && tmp != buf
    modifies buf
    ensures ends <==> pos0 + len0 <= end
    ensures ends <==> exists turns: nat :: DrainLoop(pos0, len0, end, turns).1 == 0
    ensures ends ==> Placed(b0, buf[..], start, end, text + Reversed(tmp[..len0]))
    ensures ends ==> pos == start + |text + Reversed(tmp[..len0])| && width == width0 - len0
  {
    hide Placed, DrainLoop;
    DrainEnds(pos0, len0, end);
    pos, width := pos0, width0;
    var len := len0;
    ghost var digits := tmp[..len0];
    ghost var out := text;
    assert digits[..len] == digits;
    while len > 0
      invariant 0 <= len <= len0 <= tmp.Length && digits == tmp[..len0]
      invariant width == width0 - (len0 - len) && pos + len == pos0 + len0 && (len == 0 ==> pos <= end)
      invariant out + Reversed(digits[..len]) == text + Reversed(digits)
      invariant Placed(b0, buf[..], start, end, out) && pos == start + |out|
    {
      if pos >= end {
        // len is not decremented any more
        return false, pos, width;
      }
      ghost var tail := digits[..len];
      len := len - 1;
      assert tail[..len] == digits[..len] && tail[len] == digits[len] == tmp[len];
      pos := BufAdd(buf, pos, end, tmp[len], b0, start, out);
      assert out + ([digits[len]] + Reversed(digits[..len])) == out + [digits[len]] + Reversed(digits[..len]);
      out := out + [tmp[len]];
      width := width - 1;
    }
    assert digits[..0] == "" && out + "" == out;
    ends := true;
  }

  /** The sign, if any. */
  method PutSign(buf: array<char>, pos0: nat, end: nat, num: Word64, flags: Flags, ghost b0: seq<char>)
    returns (pos: nat)
    requires Placed(b0, buf[..], pos0, end, "")
    modifies buf
    ensures Placed(b0, buf[..], pos0, end, SignText(num, flags)) && pos == pos0 + |SignText(num, flags)|
  {
    hide Placed;
    pos := pos0;
    if flags.sign && num >= RANGE64 / 2 {
      pos := BufAdd(buf, pos, end, '-', b0, pos0, "");
    } else if flags.plus {
      pos := BufAdd(buf, pos, end, if flags.space then ' ' else '+', b0, pos0, "");
    }
    assert ['-'] == "-" && [' '] == " " && ['+'] == "+";
    assert "" + "-" == "-" && "" + " " == " " && "" + "+" == "+";
  }

  /** The 0x prefix, if any. */
  method PutPrefix(buf: array<char>, pos0: nat, end: nat, flags: Flags, ghost b0: seq<char>, ghost start: nat,
                   ghost text: string)
    returns (pos: nat)
    requires Placed(b0, buf[..], start, end, text) && pos0 == start + |text|
    modifies buf
    ensures Placed(b0, buf[..], start, end, text + Prefix(flags)) && pos == pos0 + |Prefix(flags)|
  {
    hide Placed;
    pos := pos0;
    if flags.alternate {
      pos := BufAdd(buf, pos, end, '0', b0, start, text);
      pos := BufAdd(buf, pos, end, 'x', b0, start, text + ['0']);
      assert text + ['0'] + ['x'] == text + "0x";
    } else {
      assert text + "" == text;
    }
  }

  lemma NothingPlaced(b: seq<char>, pos: nat, end: nat)
    requires end <= |b|
    ensures Placed(b, b, pos, end, "")
  {
  }

  lemma SignCases(num: Word64, flags: Flags)
    ensures Negative(num, flags) <==> flags.sign && num >= 0x8000_0000_0000_0000
    ensures Magnitude(num, flags) == if Negative(num, flags) then 0x1_0000_0000_0000_0000 - num else num
    ensures |SignText(num, flags)| == if Negative(num, flags) || flags.plus then 1 else 0
    ensures |Prefix(flags)| == if flags.alternate then 2 else 0
    ensures Pad(flags) == if flags.zeropad then '0' else ' '
  {
  }

  /** The pieces the loops write make up the field. */
  lemma FieldPieces(front: string, digits: string, width: int, filled: int, pad: char, left: bool, rest: int)
    requires if left then rest == width - filled else rest <= 0
    ensures
      (if left then front else front + Repeat(pad, width - filled))
        + Repeat(pad, filled - |digits|) + digits + Repeat(' ', rest)
        == front + Field(digits, width, filled, pad, left)
  {
  }

  lemma WidthFitsIs(num: Word64, base: int, width: int, precision: int, flags: Flags)
    requires base == 10 || base == 16
    ensures
      var len := |DigitText(Magnitude(num, flags), base, flags.upper)|;
      var filled := if precision < len then len else precision;
      var left := WidthLeft(width - |SignText(num, flags)| - |Prefix(flags)|, filled, flags.left);
      WidthFits(num, base, width, precision, flags) <==> left >= -0x8000_0000
  {
    hide SignText, Prefix, DigitText, Magnitude, WidthLeft;
  }

  lemma FieldOfRender(num: Word64, base: int, width: int, precision: int, flags: Flags)
    requires base == 10 || base == 16
    ensures
      var len := |DigitText(Magnitude(num, flags), base, flags.upper)|;
      var filled := if precision < len then len else precision;
      var field := width - |SignText(num, flags)| - |Prefix(flags)|;
      && Render(num, base, width, precision, flags) == SignText(num, flags) + Prefix(flags)
          + Field(DigitText(Magnitude(num, flags), base, flags.upper), field, filled,
                  if flags.zeropad then '0' else ' ', flags.left)
      && Reach(num, base, width, precision, flags) == |SignText(num, flags) + Prefix(flags)|
          + filled + (if !flags.left && field > filled then field - filled else 0)
  {
    hide SignText, Prefix, DigitText, Magnitude, Field;
  }

  lemma WidthLeftIs(width: int, filled: int, left: bool)
    ensures WidthLeft(width, filled, left)
      == (if left then width else (if width < filled then width else filled) - 1) - filled
  {
  }

  /** The padding and digit loops, and the counter for the width as the last of them finds it. */
  method PutField(buf: array<char>, pos0: nat, end: nat, tmp: array<char>, len: nat, width0: int, precision: int,
                  flags: Flags,
                  ghost b0: seq<char>, ghost start: nat, ghost front: string)
    returns (ends: bool, pos: nat, last: int)
    requires Placed(b0, buf[..], start, end, front) && pos0 == start + |front|
    requires 0 < len <= tmp.Length && tmp != buf && len <= precision
    modifies buf
    ensures ends <==> pos0 + precision + (if !flags.left && width0 > precision then width0 - precision else 0) <= end
    ensures ends ==>
      var text := front + Field(Reversed(tmp[..len]), width0, precision, if flags.zeropad then '0' else ' ',
                                flags.left);
      Placed(b0, buf[..], start, end, text) && pos == start + |text|
    ensures ends ==> last == WidthLeft(width0, precision, flags.left)
  {
    hide *;
    WidthLeftIs(width0, precision, flags.left);
    last := 0;
    ghost var digits := Reversed(tmp[..len]);
    var width := width0;
    ghost var pad := if flags.zeropad then '0' else ' ';
    ghost var text := front;
    pos := pos0;
    if !flags.left {
      pos, width := PadToWidth(buf, pos, end, if flags.zeropad then '0' else ' ', precision, width, b0, start, text);
      text := text + Repeat(pad, width0 - precision);
    }
    pos, width := PadToPrecision(buf, pos, end, if flags.zeropad then '0' else ' ', len, precision, width, b0, start,
                                 text);
    text := text + Repeat(pad, precision - len);
    ends, pos, width := PutDigits(buf, pos, end, tmp, len, width, b0, start, text);
    if ends {
      text := text + digits;
      ghost var rest := width;
      last := width;
      pos, width := PadToWidth(buf, pos, end, ' ', 0, width, b0, start, text);
      FieldPieces(front, digits, width0, precision, pad, flags.left, rest);
    }
  }

  /** What sprint_int returns, or that it does not, or that the counter for the width overflows. */
  datatype Printed = NullPointer | To(pos: nat) | Never | Overflow

  /** sprint_int.  It returns NULL for a base other than 10 and 16.  Else, as long as the last digit comes
      before end and the counter for the width fits an int, it writes what lies before end and advances by
      the length of the whole text; and when the last digit does not come before end, the loop over the
      digits never ends. */
  method SprintInt(buf: array<char>, pos0: nat, end: nat, num: Word64, base: int, width0: int, precision0: int,
                   flags: Flags)
    returns (r: Printed)
    requires end <= buf.Length
    modifies buf
    ensures r.NullPointer? <==> base != 10 && base != 16
    ensures r.NullPointer? ==> buf[..] == old(buf[..])
    ensures base == 10 || base == 16 ==>
      && (r.Never? <==> pos0 + Reach(num, base, width0, precision0, flags) > end)
      && (!r.Never? ==> (r.To? <==> WidthFits(num, base, width0, precision0, flags)))
      && (r.To? ==>
        var text := Render(num, base, width0, precision0, flags);
        r.pos == pos0 + |text| && Placed(old(buf[..]), buf[..], pos0, end, text))
  {
    hide *;
    if base != 10 && base != 16 {
      return NullPointer;
    }
    ghost var b0 := buf[..];
    NothingPlaced(b0, pos0, end);
    SignCases(num, flags);
    var negative := flags.sign && num >= 0x8000_0000_0000_0000;
    var magnitude: Word64 := if negative then 0x1_0000_0000_0000_0000 - num else num;
    var tmp, len := MakeDigits(magnitude, base, flags.upper);
    var precision := if precision0 < len then len else precision0;
    var width := width0;
    if negative || flags.plus {
      width := width - 1;
    }
    if flags.alternate {
      width := width - 2;
    }
    var pos := PutSign(buf, pos0, end, num, flags, b0);
    ghost var sign := SignText(num, flags);
    pos := PutPrefix(buf, pos, end, flags, b0, pos0, sign);
    var ends, last;
    ends, pos, last := PutField(buf, pos, end, tmp, len, width, precision, flags, b0, pos0, sign + Prefix(flags));
    FieldOfRender(num, base, width0, precision0, flags);
    WidthFitsIs(num, base, width0, precision0, flags);
    r := if !ends then Never else if last < -0x8000_0000 then Overflow else To(pos);
  }
}
