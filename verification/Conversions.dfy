/** What a format means, conversion by conversion, in terms of the characters it is written with
    (printf.c:196-335): which text each conversion stands for, and which arguments it takes. */
module Conversions {
  import opened CStrings
  import opened Numerals
  import opened Printf
  import opened Format

  // ----- Conversions as they are written: %[flags][width][.precision][length]type -----

  /** A width or a precision: left out, taken from the arguments, or written in digits. */
  datatype Size = Absent | Star | Digits(ds: string)

  datatype Written = Written(flags: string, width: Size, precision: Size, modifier: string, letter: char)

  function SizeText(s: Size): string {
    match s
    case Absent => ""
    case Star => "*"
    case Digits(ds) => ds
  }

  function PointText(s: Size): string {
    if s.Absent? then "" else "." + SizeText(s)
  }

  function Text(w: Written): (t: string)
    ensures |t| > 0 && t[0] == '%'
  {
    "%" + (w.flags + (SizeText(w.width) + (PointText(w.precision) + (w.modifier + [w.letter]))))
  }

  predicate AllDigits(ds: string) {
    forall k :: 0 <= k < |ds| ==> '0' <= ds[k] <= '9'
  }

  predicate Proper(w: Written) {
    && (forall k :: 0 <= k < |w.flags| ==> w.flags[k] in {'+', '-', '#', ' ', '0'})
    && (w.width.Digits? ==> w.width.ds != "" && w.width.ds[0] != '0' && AllDigits(w.width.ds))
    && (w.precision.Digits? ==> AllDigits(w.precision.ds))
    && w.modifier in {"", "hh", "h", "l", "ll", "z", "t"}
    && !('0' <= w.letter <= '9') && w.letter !in {'+', '-', '#', ' ', '*', '.', 'h', 'l', 'z', 't'}
  }

  /** t stands in the format at index i. */
  ghost predicate Stands(fmt: string, i: nat, t: string) {
    i + |t| <= |fmt| && fmt[i..i + |t|] == t
  }

  /** The sizes can be had: an int argument for a '*', and no more than an int in digits. */
  predicate HasSize(s: Size, args: seq<Arg>) {
    && (s.Star? ==> args != [] && args[0].IntArg?)
    && (s.Digits? ==> Value(DigitValues(s.ds), 10) <= 0x7FFF_FFFF)
  }

  function SizeValue(s: Size, absent: int, args: seq<Arg>): int
    requires HasSize(s, args)
  {
    match s
    case Absent => absent
    case Star => if args[0].i < 0 then 0 else args[0].i
    case Digits(ds) => Value(DigitValues(ds), 10)
  }

  function SizeRest(s: Size, args: seq<Arg>): seq<Arg>
    requires HasSize(s, args)
  {
    if s.Star? then args[1..] else args
  }

  predicate HasSizes(w: Written, args: seq<Arg>) {
    HasSize(w.width, args) && HasSize(w.precision, SizeRest(w.width, args))
  }

  function WidthOf(w: Written, args: seq<Arg>): int
    requires HasSizes(w, args)
  {
    SizeValue(w.width, 0, args)
  }

  /** The precision, or absent if there is none. */
  function LeastOf(w: Written, args: seq<Arg>, absent: int): int
    requires HasSizes(w, args)
  {
    SizeValue(w.precision, absent, SizeRest(w.width, args))
  }

  /** The arguments from the one to be converted on. */
  function RestOf(w: Written, args: seq<Arg>): seq<Arg>
    requires HasSizes(w, args)
  {
    SizeRest(w.precision, SizeRest(w.width, args))
  }

  /** The size of the argument in bytes. */
  function BytesOf(modifier: string): nat {
    if modifier == "hh" then 1 else if modifier == "h" then 2 else if modifier == "ll" then 8 else 4
  }

  function FlagsIn(t: string): Flags {
    Flags('+' in t, '-' in t, '#' in t, ' ' in t, '0' in t, false, false)
  }

  lemma FlagsInAre(t: string)
    ensures var f := FlagsIn(t);
      && f.plus == ('+' in t) && f.left == ('-' in t) && f.alternate == ('#' in t) && f.space == (' ' in t)
      && f.zeropad == ('0' in t) && !f.sign && !f.upper
  {
  }

  // ----- The parser reads what is written -----

  lemma StandsParts(fmt: string, i: nat, a: string, b: string)
    requires Stands(fmt, i, a + b)
    ensures Stands(fmt, i, a) && Stands(fmt, i + |a|, b)
  {
    assert fmt[i..i + |a|] == (a + b)[..|a|];
    assert fmt[i + |a|..i + |a| + |b|] == (a + b)[|a|..];
  }

  lemma StandsAt(fmt: string, i: nat, t: string, k: nat)
    requires Stands(fmt, i, t) && k < |t|
    ensures Char(fmt, i + k) == t[k] == fmt[i + k]
  {
    assert fmt[i..i + |t|][k] == fmt[i + k];
  }

  /** The flags with those of t set. */
  function Marked(t: string, flags: Flags): Flags {
    flags.(plus := flags.plus || '+' in t, left := flags.left || '-' in t, alternate := flags.alternate || '#' in t,
           space := flags.space || ' ' in t, zeropad := flags.zeropad || '0' in t)
  }

  lemma MarkedFirst(t: string, flags: Flags)
    requires t != "" && t[0] in {'+', '-', '#', ' ', '0'}
    ensures IsFlag(t[0]) && Marked(t, flags) == Marked(t[1..], WithFlag(flags, t[0]))
  {
    InRest(t, '+');
    InRest(t, '-');
    InRest(t, '#');
    InRest(t, ' ');
    InRest(t, '0');
  }

  lemma InRest(t: string, c: char)
    requires t != ""
    ensures c in t <==> c == t[0] || c in t[1..]
  {
    assert t == [t[0]] + t[1..];
  }

  lemma {:induction false} FlagsRead(fmt: string, i: nat, t: string, flags: Flags)
    requires Stands(fmt, i, t) && forall k :: 0 <= k < |t| ==> t[k] in {'+', '-', '#', ' ', '0'}
    requires Char(fmt, i + |t|) !in {'+', '-', '#', ' ', '0'}
    ensures ScanFlags(fmt, i, flags) == (Marked(t, flags), i + |t|)
    decreases |t|
  {
    hide Marked, WithFlag;
    if t == "" {
      NothingMarked(flags);
    } else {
      StandsAt(fmt, i, t, 0);
      assert t == [t[0]] + t[1..];
      StandsParts(fmt, i, [t[0]], t[1..]);
      MarkedFirst(t, flags);
      FlagsRead(fmt, i + 1, t[1..], WithFlag(flags, t[0]));
    }
  }

  lemma NothingMarked(flags: Flags)
    ensures Marked("", flags) == flags
  {
  }

  lemma {:induction false} NumberRead(fmt: string, i: nat, ds: string, k: nat)
    requires Stands(fmt, i, ds) && k <= |ds| && AllDigits(ds) && !('0' <= Char(fmt, i + |ds|) <= '9')
    requires Value(DigitValues(ds[..k]), 10) >= 0
    ensures ScanNumber(fmt, i + k, Value(DigitValues(ds[..k]), 10)) == (Value(DigitValues(ds), 10), i + |ds|)
    decreases |ds| - k
  {
    hide Value, DigitValues;
    if k < |ds| {
      StandsAt(fmt, i, ds, k);
      assert ds[..k + 1] == ds[..k] + [ds[k]];
      ValueMore(ds[..k], ds[k], 10);
      NumberRead(fmt, i, ds, k + 1);
    } else {
      assert ds[..k] == ds;
    }
  }

  lemma SizeRead(fmt: string, i: nat, s: Size, args: seq<Arg>)
    requires Stands(fmt, i, SizeText(s)) && (s.Digits? ==> AllDigits(s.ds))
    requires s.Absent? ==> Char(fmt, i) != '*'
    requires s.Digits? && s.ds == "" ==> Char(fmt, i) != '*'
    requires !s.Star? ==> !('0' <= Char(fmt, i + |SizeText(s)|) <= '9')
    ensures var a := AmountAt(fmt, i, args);
      if HasSize(s, args) then
        a.Amount? && a.value == SizeValue(s, 0, args) && a.next == i + |SizeText(s)| && a.args == SizeRest(s, args)
      else a == NoAmount
  {
    hide Value, DigitValues;
    ValueNothing(10);
    match s
    case Absent =>
    case Star => StandsAt(fmt, i, "*", 0);
    case Digits(ds) =>
      assert ds[..0] == "";
      NumberRead(fmt, i, ds, 0);
      if ds != "" {
        StandsAt(fmt, i, ds, 0);
      }
  }

  lemma ModifierRead(fmt: string, i: nat, modifier: string)
    requires modifier in {"", "hh", "h", "l", "ll", "z", "t"}
    requires Stands(fmt, i, modifier) && Char(fmt, i + |modifier|) !in {'h', 'l', 'z', 't'}
    ensures LengthAt(fmt, i) == (BytesOf(modifier), i + |modifier|)
  {
    if modifier != "" {
      StandsAt(fmt, i, modifier, 0);
      if |modifier| == 2 {
        StandsAt(fmt, i, modifier, 1);
      }
    }
  }

  /** Where the parts of a conversion start, and what comes after each. */
  lemma PartsStand(fmt: string, i: nat, w: Written) returns (j: nat, k: nat, l: nat, n: nat)
    requires Proper(w) && Stands(fmt, i, Text(w))
    ensures j == i + 1 + |w.flags| && k == j + |SizeText(w.width)| && l == k + |PointText(w.precision)|
    ensures n == l + |w.modifier| && n + 1 == i + |Text(w)| <= |fmt|
    ensures Stands(fmt, i + 1, w.flags) && Stands(fmt, j, SizeText(w.width)) && Stands(fmt, k, PointText(w.precision))
    ensures Stands(fmt, l, w.modifier) && Char(fmt, n) == fmt[n] == w.letter
    ensures Follow(w, Char(fmt, j), Char(fmt, k), Char(fmt, l), Char(fmt, n))
  {
    hide Stands, Text, Proper, Follow;
    j := i + 1 + |w.flags|;
    k := j + |SizeText(w.width)|;
    l := k + |PointText(w.precision)|;
    n := l + |w.modifier|;
    TextParts(fmt, i, w);
    StandsAt(fmt, n, [w.letter], 0);
    if w.modifier != "" {
      StandsAt(fmt, l, w.modifier, 0);
    }
    if !w.precision.Absent? {
      StandsAt(fmt, k, PointText(w.precision), 0);
    }
    if !w.width.Absent? {
      WidthNotEmpty(w);
      StandsAt(fmt, j, SizeText(w.width), 0);
    }
    Following(w, Char(fmt, j), Char(fmt, k), Char(fmt, l));
  }

  lemma WidthNotEmpty(w: Written)
    requires Proper(w) && !w.width.Absent?
    ensures SizeText(w.width) != ""
  {
  }

  /** What tells each part from the next: the characters after the flags, the width, the precision and the
      modifier. */
  ghost predicate Follow(w: Written, afterFlags: char, afterWidth: char, afterPoint: char, letter: char) {
    && afterFlags !in {'+', '-', '#', ' ', '0'}
    && (w.width.Absent? ==> afterFlags != '*')
    && !('0' <= afterWidth <= '9') && (w.precision.Absent? ==> afterWidth != '.')
    && !('0' <= afterPoint <= '9') && afterPoint != '*'
    && letter !in {'h', 'l', 'z', 't'}
  }

  lemma Following(w: Written, afterFlags: char, afterWidth: char, afterPoint: char)
    requires Proper(w)
    requires afterPoint == if w.modifier == "" then w.letter else w.modifier[0]
    requires afterWidth == if w.precision.Absent? then afterPoint else '.'
    requires if w.width.Absent? then afterFlags == afterWidth
             else SizeText(w.width) != "" && afterFlags == SizeText(w.width)[0]
    ensures Follow(w, afterFlags, afterWidth, afterPoint, w.letter)
  {
    if w.modifier != "" {
      assert w.modifier[0] == 'h' || w.modifier[0] == 'l' || w.modifier[0] == 'z' || w.modifier[0] == 't';
    }
  }

  lemma SizesInDigits(w: Written)
    requires Proper(w)
    ensures w.width.Digits? ==> w.width.ds != "" && AllDigits(w.width.ds)
    ensures w.precision.Digits? ==> AllDigits(w.precision.ds)
  {
  }

  lemma TextParts(fmt: string, i: nat, w: Written)
    requires Stands(fmt, i, Text(w))
    ensures var j := i + 1 + |w.flags|;
      var k := j + |SizeText(w.width)|;
      var l := k + |PointText(w.precision)|;
      && Stands(fmt, i, "%") && Stands(fmt, i + 1, w.flags) && Stands(fmt, j, SizeText(w.width))
      && Stands(fmt, k, PointText(w.precision)) && Stands(fmt, l, w.modifier)
      && Stands(fmt, l + |w.modifier|, [w.letter]) && l + |w.modifier| + 1 == i + |Text(w)| <= |fmt|
  {
    hide SizeText, PointText;
    var d := w.modifier + [w.letter];
    var c := PointText(w.precision) + d;
    var b := SizeText(w.width) + c;
    var a := w.flags + b;
    StandsParts(fmt, i, "%", a);
    StandsParts(fmt, i + 1, w.flags, b);
    StandsParts(fmt, i + 1 + |w.flags|, SizeText(w.width), c);
    StandsParts(fmt, i + 1 + |w.flags| + |SizeText(w.width)|, PointText(w.precision), d);
    StandsParts(fmt, i + 1 + |w.flags| + |SizeText(w.width)| + |PointText(w.precision)|, w.modifier, [w.letter]);
  }

  lemma FlagsWritten(fmt: string, i: nat, w: Written)
    requires Proper(w) && Stands(fmt, i, Text(w))
    ensures i + 1 <= |fmt| && fmt[i] == '%'
    ensures ScanFlags(fmt, i + 1, NO_FLAGS) == (Marked(w.flags, NO_FLAGS), i + 1 + |w.flags|)
  {
    hide Stands, Text, ScanFlags, Marked, SizeText, PointText, Proper;
    TextParts(fmt, i, w);
    StandsAt(fmt, i, "%", 0);
    var j, k, l, n := PartsStand(fmt, i, w);
    FlagsInText(w);
    FlagsRead(fmt, i + 1, w.flags, NO_FLAGS);
  }

  lemma FlagsInText(w: Written)
    requires Proper(w)
    ensures forall k :: 0 <= k < |w.flags| ==> w.flags[k] in {'+', '-', '#', ' ', '0'}
  {
  }

  lemma WidthWritten(fmt: string, i: nat, w: Written, args: seq<Arg>)
    requires Proper(w) && Stands(fmt, i, Text(w))
    ensures var j := i + 1 + |w.flags|;
      j <= |fmt| &&
      var a := AmountAt(fmt, j, args);
      if HasSize(w.width, args) then
        && a.Amount? && a.value == SizeValue(w.width, 0, args) && a.next == j + |SizeText(w.width)|
        && a.args == SizeRest(w.width, args)
      else a == NoAmount
  {
    hide Stands, Text, AmountAt, HasSize, Proper, AllDigits;
    var j, k, l, n := PartsStand(fmt, i, w);
    SizesInDigits(w);
    SizeRead(fmt, j, w.width, args);
  }

  lemma PrecisionWritten(fmt: string, i: nat, w: Written, args: seq<Arg>)
    requires Proper(w) && Stands(fmt, i, Text(w))
    ensures var k := i + 1 + |w.flags| + |SizeText(w.width)|;
      k <= |fmt| &&
      if w.precision.Absent? then Char(fmt, k) != '.'
      else
        && Char(fmt, k) == '.' && k + 1 <= |fmt|
        && var a := AmountAt(fmt, k + 1, args);
           if HasSize(w.precision, args) then
             && a.Amount? && a.value == SizeValue(w.precision, 0, args) && a.next == k + 1 + |SizeText(w.precision)|
             && a.args == SizeRest(w.precision, args)
           else a == NoAmount
  {
    hide Stands, Text, AmountAt, HasSize, Proper, AllDigits, SizeText, SizeValue, SizeRest;
    var j, k, l, n := PartsStand(fmt, i, w);
    if !w.precision.Absent? {
      SizesInDigits(w);
      PointRead(fmt, k, w.precision);
      EmptySize(fmt, k + 1, l, w.precision);
      SizeRead(fmt, k + 1, w.precision, args);
    }
  }

  lemma PointRead(fmt: string, k: nat, s: Size)
    requires Stands(fmt, k, PointText(s)) && !s.Absent?
    ensures Char(fmt, k) == '.' && k + 1 <= |fmt| && Stands(fmt, k + 1, SizeText(s))
    ensures |PointText(s)| == 1 + |SizeText(s)|
  {
    hide Stands;
    StandsParts(fmt, k, ".", SizeText(s));
    StandsAt(fmt, k, ".", 0);
    StandsWithin(fmt, k, ".");
  }

  lemma StandsWithin(fmt: string, i: nat, t: string)
    requires Stands(fmt, i, t)
    ensures i + |t| <= |fmt|
  {
  }

  lemma EmptySize(fmt: string, k: nat, l: nat, s: Size)
    requires l == k + |SizeText(s)|
    ensures s.Digits? && s.ds == "" ==> k == l
  {
  }

  lemma LetterWritten(fmt: string, i: nat, w: Written)
    requires Proper(w) && Stands(fmt, i, Text(w))
    ensures var l := i + 1 + |w.flags| + |SizeText(w.width)| + |PointText(w.precision)|;
      && l + |w.modifier| < |fmt| && LengthAt(fmt, l) == (BytesOf(w.modifier), l + |w.modifier|)
      && l + |w.modifier| + 1 == i + |Text(w)| && fmt[l + |w.modifier|] == w.letter
  {
    hide Stands, Text, LengthAt, BytesOf;
    var j, k, l, n := PartsStand(fmt, i, w);
    ModifierRead(fmt, l, w.modifier);
  }

  /** The parser gives back the parts that were written. */
  lemma ParseWritten(fmt: string, i: nat, w: Written, args: seq<Arg>)
    requires Proper(w) && Stands(fmt, i, Text(w))
    ensures i + 1 <= |fmt| && fmt[i] == '%'
    ensures var d := Parse(fmt, i + 1, args);
      if !HasSizes(w, args) then d == Malformed
      else
        && d.Directive?
        && d.flags == FlagsIn(w.flags)
        && d.width == WidthOf(w, args) && d.precision == LeastOf(w, args, -1) && d.length == BytesOf(w.modifier)
        && d.letter == w.letter && d.next == i + |Text(w)| && d.args == RestOf(w, args)
  {
    hide Stands, Text, Proper, ScanFlags, AmountAt, LengthAt, BytesOf, HasSize, HasSizes, SizeValue, SizeRest, WidthOf,
      LeastOf, RestOf, SizeText;
    FlagsWritten(fmt, i, w);
    WidthWritten(fmt, i, w, args);
    if HasSize(w.width, args) {
      PrecisionWritten(fmt, i, w, SizeRest(w.width, args));
    }
    LetterWritten(fmt, i, w);
    SizesOf(w, args);
  }

  lemma SizesOf(w: Written, args: seq<Arg>)
    ensures HasSizes(w, args) <==>
      HasSize(w.width, args) && (w.precision.Absent? || HasSize(w.precision, SizeRest(w.width, args)))
    ensures HasSizes(w, args) ==>
      && WidthOf(w, args) == SizeValue(w.width, 0, args)
      && LeastOf(w, args, -1) == (if w.precision.Absent? then -1
                                  else SizeValue(w.precision, 0, SizeRest(w.width, args)))
      && RestOf(w, args) == (if w.precision.Absent? then SizeRest(w.width, args)
                             else SizeRest(w.precision, SizeRest(w.width, args)))
  {
    hide Value, DigitValues;
  }

  // ----- The text of a number -----

  /** A number as it is printed: sign, prefix, padding, digits, and padding after them. */
  datatype Parts = Parts(sign: string, prefix: string, fill: string, digits: string, blanks: string)

  function Room(n: int): nat {
    if n > 0 then n else 0
  }

  /** The digits denote n, without a leading zero; letters are upper or lower case. */
  ghost predicate Denote(digits: string, n: nat, base: int, upper: bool) {
    && digits != "" && Value(DigitValues(digits), base) == n && (digits[0] == '0' ==> digits == "0")
    && forall k :: 0 <= k < |digits| ==>
      || '0' <= digits[k] <= '9'
      || (base == 16 && if upper then 'A' <= digits[k] <= 'F' else 'a' <= digits[k] <= 'f')
  }

  /** Before the digits there is padding, of zeros or blanks, until they are least wide, and, unless they are
      to be on the left, until all of it is width wide; if they are, blanks follow them. */
  ghost predicate Padded(p: Parts, zeros: bool, left: bool, width: int, least: int) {
    var body := |p.sign| + |p.prefix| + |p.digits| + Room(least - |p.digits|);
    && |p.fill| == Room(least - |p.digits|) + (if left then 0 else Room(width - body))
    && |p.blanks| == (if left then Room(width - body) else 0)
    && (forall k :: 0 <= k < |p.fill| ==> p.fill[k] == if zeros then '0' else ' ')
    && (forall k :: 0 <= k < |p.blanks| ==> p.blanks[k] == ' ')
  }

  function Joined(p: Parts): string {
    p.sign + p.prefix + p.fill + p.digits + p.blanks
  }

  lemma {:induction false} NatTextCase(n: nat, base: int, upper: bool)
    requires base == 10 || base == 16
    ensures forall k :: 0 <= k < |NatText(n, base, upper)| ==>
      var c := NatText(n, base, upper)[k];
      '0' <= c <= '9' || (base == 16 && if upper then 'A' <= c <= 'F' else 'a' <= c <= 'f')
    decreases n
  {
    hide DigitChar;
    if n > 0 {
      QuotientLess(n, base);
      NatTextCase(n / base, base, upper);
      DigitCase(n % base, base, upper);
    }
  }

  lemma DigitCase(d: int, base: int, upper: bool)
    requires base == 10 || base == 16
    requires 0 <= d < base
    ensures var c := DigitChar(d, upper);
      '0' <= c <= '9' || (base == 16 && if upper then 'A' <= c <= 'F' else 'a' <= c <= 'f')
  {
  }

  lemma DigitTextDenotes(n: nat, base: int, upper: bool)
    requires base == 10 || base == 16
    ensures Denote(DigitText(n, base, upper), n, base, upper)
  {
    hide NatText, Value;
    if n == 0 {
      assert DigitValues("0") == [0];
      ZeroValue(base);
    } else {
      DigitsDenote(n, base, upper);
      NatTextCase(n, base, upper);
    }
  }

  lemma ZeroValue(base: int)
    ensures Value([0], base) == 0
  {
    assert [0][..0] == [];
  }

  lemma FrontIs(num: Word64, flags: Flags)
    ensures var negative := flags.sign && num >= 0x8000_0000_0000_0000;
      && SignText(num, flags)
        == (if negative then "-" else if !flags.plus then "" else if flags.space then " " else "+")
      && Magnitude(num, flags) == if negative then 0x1_0000_0000_0000_0000 - num else num
    ensures Prefix(flags) == if flags.alternate then "0x" else ""
  {
  }

  /** What sprint_int puts out, and how much of it comes before the digits' end. */
  lemma RenderParts(num: Word64, base: int, width: int, precision: int, flags: Flags) returns (p: Parts)
    requires base == 10 || base == 16
    ensures Render(num, base, width, precision, flags) == Joined(p)
    ensures Reach(num, base, width, precision, flags) == |p.sign| + |p.prefix| + |p.fill| + |p.digits|
    ensures var negative := flags.sign && num >= 0x8000_0000_0000_0000;
      && p.sign == (if negative then "-" else if !flags.plus then "" else if flags.space then " " else "+")
      && Denote(p.digits, if negative then 0x1_0000_0000_0000_0000 - num else num, base, flags.upper)
    ensures p.prefix == if flags.alternate then "0x" else ""
    ensures Padded(p, flags.zeropad, flags.left, width, precision)
  {
    hide *;
    p := RenderJoined(num, base, width, precision, flags);
    DigitTextDenotes(Magnitude(num, flags), base, flags.upper);
    FrontIs(num, flags);
  }

  lemma RenderJoined(num: Word64, base: int, width: int, precision: int, flags: Flags) returns (p: Parts)
    requires base == 10 || base == 16
    ensures Render(num, base, width, precision, flags) == Joined(p)
    ensures Reach(num, base, width, precision, flags) == |p.sign| + |p.prefix| + |p.fill| + |p.digits|
    ensures p.sign == SignText(num, flags) && p.prefix == Prefix(flags)
    ensures p.digits == DigitText(Magnitude(num, flags), base, flags.upper)
    ensures Padded(p, flags.zeropad, flags.left, width, precision)
  {
    hide Render, Reach, Field, DigitText, Magnitude, SignText, Prefix, Padded, Joined, Repeat;
    var digits := DigitText(Magnitude(num, flags), base, flags.upper);
    var sign, prefix := SignText(num, flags), Prefix(flags);
    var filled := if precision < |digits| then |digits| else precision;
    var pad := if flags.zeropad then '0' else ' ';
    FieldOfRender(num, base, width, precision, flags);
    p := FieldParts(sign, prefix, digits, width - |sign| - |prefix|, filled, pad, flags.left);
    FieldPadded(p, flags.zeropad, flags.left, width, precision, filled);
  }

  lemma FieldParts(sign: string, prefix: string, digits: string, width: int, filled: int, pad: char, left: bool)
    returns (p: Parts)
    ensures sign + prefix + Field(digits, width, filled, pad, left) == Joined(p)
    ensures p.sign == sign && p.prefix == prefix && p.digits == digits
    ensures p.fill == (if left then "" else Repeat(pad, width - filled)) + Repeat(pad, filled - |digits|)
    ensures p.blanks == if left then Repeat(' ', width - filled) else ""
  {
    hide Repeat;
    var before := if left then "" else Repeat(pad, width - filled);
    var zeros := Repeat(pad, filled - |digits|);
    var blanks := if left then Repeat(' ', width - filled) else "";
    p := Parts(sign, prefix, before + zeros, digits, blanks);
    FiveJoined(sign + prefix, before, zeros, digits, blanks);
  }

  lemma FiveJoined(a: string, b: string, c: string, d: string, e: string)
    ensures a + (b + c + d + e) == a + (b + c) + d + e
  {
  }

  lemma FieldPadded(p: Parts, zeros: bool, left: bool, width: int, least: int, filled: int)
    requires filled == if least < |p.digits| then |p.digits| else least
    requires var room := width - |p.sign| - |p.prefix| - filled;
      && p.fill == (if left then "" else Repeat(if zeros then '0' else ' ', room))
          + Repeat(if zeros then '0' else ' ', filled - |p.digits|)
      && p.blanks == if left then Repeat(' ', room) else ""
    ensures Padded(p, zeros, left, width, least)
  {
    hide Repeat;
  }

  // ----- The value of an argument -----

  /** The next argument has the type that the modifier asks for. */
  predicate HasInteger(w: Written, args: seq<Arg>)
    requires HasSizes(w, args)
  {
    var rest := RestOf(w, args);
    rest != [] && if w.modifier == "ll" then rest[0].LongArg? else rest[0].IntArg?
  }

  function Integer(w: Written, args: seq<Arg>): int
    requires HasSizes(w, args) && HasInteger(w, args)
  {
    if w.modifier == "ll" then RestOf(w, args)[0].n else RestOf(w, args)[0].i
  }

  /** How many values the modifier's bytes can hold. */
  function Values(w: Written): (n: int)
    ensures n > 0
  {
    PowPositive(256, BytesOf(w.modifier));
    Pow(256, BytesOf(w.modifier))
  }

  lemma ValuesAre(w: Written)
    ensures Values(w) ==
      match BytesOf(w.modifier)
      case 1 => 0x100
      case 2 => 0x1_0000
      case 8 => 0x1_0000_0000_0000_0000
      case _ => 0x1_0000_0000
  {
    assert Pow(256, 1) == 256 && Pow(256, 2) == 0x1_0000;
    PowAdd(256, 2, 2);
    PowAdd(256, 4, 4);
  }

  /** An extended argument, as a signed and as an unsigned number. */
  lemma Extended(raw: int, w: Written, flags: Flags) returns (v: int)
    requires IsLength(BytesOf(w.modifier))
    ensures var num := Extend(raw, BytesOf(w.modifier), flags.sign);
      && v % Values(w) == raw % Values(w) && (v < 0 <==> Negative(num, flags))
      && Magnitude(num, flags) == (if v < 0 then -v else v)
      && if flags.sign then -Values(w) <= 2 * v < Values(w) else 0 <= v < Values(w)
  {
    hide Values;
    ValuesAre(w);
    var num := Extend(raw, BytesOf(w.modifier), flags.sign);
    v := if Negative(num, flags) then num - RANGE64 else num;
    Residue(raw, Values(w), v);
  }

  lemma Residue(raw: int, modulus: int, v: int)
    requires modulus in {0x100, 0x1_0000, 0x1_0000_0000, 0x1_0000_0000_0000_0000}
    requires v == raw % modulus || v == raw % modulus - modulus
    ensures v % modulus == raw % modulus
  {
    if modulus == 0x100 {
      assert v % 0x100 == raw % 0x100;
    } else if modulus == 0x1_0000 {
      assert v % 0x1_0000 == raw % 0x1_0000;
    } else if modulus == 0x1_0000_0000 {
      assert v % 0x1_0000_0000 == raw % 0x1_0000_0000;
    } else {
      assert v % 0x1_0000_0000_0000_0000 == raw % 0x1_0000_0000_0000_0000;
    }
  }

  // ----- What each conversion means -----

  /** The format from index i on stands for text, followed by what the rest of it stands for when that many
      arguments more are taken. */
  ghost predicate Adds(fmt: string, i: nat, w: Written, args: seq<Arg>, text: string, taken: nat) {
    && i + |Text(w)| <= |fmt| && HasSizes(w, args) && taken <= |RestOf(w, args)|
    && var f := Full(fmt, i + |Text(w)|, RestOf(w, args)[taken..]);
       Full(fmt, i, args) == if f.Done? then Done(text + f.text, f.args) else f
  }

  /** A character that begins no conversion stands for itself, and the end for nothing. */
  lemma LiteralMeans(fmt: string, i: nat, args: seq<Arg>)
    requires i <= |fmt|
    ensures i == |fmt| ==> Full(fmt, i, args) == Done("", args)
    ensures i < |fmt| && fmt[i] != '%' ==>
      var f := Full(fmt, i + 1, args);
      Full(fmt, i, args) == if f.Done? then Done([fmt[i]] + f.text, f.args) else f
  {
  }

  lemma FullWritten(fmt: string, i: nat, w: Written, args: seq<Arg>) returns (d: Directive)
    requires Proper(w) && Stands(fmt, i, Text(w)) && HasSizes(w, args)
    ensures i + |Text(w)| <= |fmt| && d.Directive? && IsLength(d.length)
    ensures d.flags == FlagsIn(w.flags)
    ensures d.width == WidthOf(w, args) && d.precision == LeastOf(w, args, -1) && d.length == BytesOf(w.modifier)
    ensures d.letter == w.letter && d.args == RestOf(w, args)
    ensures ConversionText(d).Stop? ==> Full(fmt, i, args) == Undefined
    ensures ConversionText(d).Go? ==>
      Full(fmt, i, args) == Before(ConversionText(d).text, Full(fmt, i + |Text(w)|, ConversionText(d).args))
  {
    hide Parse, ConversionText, Proper, Stands, Text, HasSizes, WidthOf, LeastOf, RestOf, BytesOf;
    ParseWritten(fmt, i, w, args);
    d := Parse(fmt, i + 1, args);
    NextIs(fmt, i, args);
  }

  lemma NextIs(fmt: string, i: nat, args: seq<Arg>)
    requires i < |fmt| && fmt[i] == '%' && Parse(fmt, i + 1, args).Directive?
    ensures var d := Parse(fmt, i + 1, args);
      && d.next <= |fmt| && IsLength(d.length)
      && Full(fmt, i, args) == match ConversionText(d)
         case Stop(o) => o
         case Go(_, rest, text) => Before(text, Full(fmt, d.next, rest))
    ensures ConversionText(Parse(fmt, i + 1, args)).Stop? ==> Full(fmt, i, args) == Undefined
  {
    hide Parse, ConversionText;
  }

  /** The least width when it is not given: 8 for p, none for the others. */
  function LeastDigits(w: Written, args: seq<Arg>): int
    requires HasSizes(w, args)
  {
    LeastOf(w, args, if w.letter == 'p' then 8 else 0)
  }

  lemma LeastIs(w: Written, args: seq<Arg>)
    requires Proper(w) && HasSizes(w, args)
    ensures LeastDigits(w, args) ==
      if LeastOf(w, args, -1) == -1 then (if w.letter == 'p' then 8 else 0) else LeastOf(w, args, -1)
  {
    if w.precision.Digits? {
      DigitsNonNegative(w.precision.ds);
    }
  }

  lemma DigitsNonNegative(ds: string)
    ensures AllDigits(ds) ==> Value(DigitValues(ds), 10) >= 0
  {
    if AllDigits(ds) {
      ValueNonNegative(DigitValues(ds), 10);
    }
  }

  predicate Hexadecimal(w: Written) {
    w.letter in {'x', 'X', 'p'}
  }

  /** d, i, u, x, X and p: the argument's bytes as a number, signed for d and i, in base 10 or 16. */
  lemma IntegerMeans(fmt: string, i: nat, w: Written, args: seq<Arg>) returns (v: int, p: Parts)
    requires Proper(w) && Stands(fmt, i, Text(w)) && HasSizes(w, args) && HasInteger(w, args)
    requires w.letter in {'d', 'i', 'u', 'x', 'X', 'p'}
    ensures Adds(fmt, i, w, args, Joined(p), 1)
    ensures v % Values(w) == Integer(w, args) % Values(w)
    ensures if w.letter in {'d', 'i'} then -Values(w) <= 2 * v < Values(w) else 0 <= v < Values(w)
    ensures Denote(p.digits, if v < 0 then -v else v, if Hexadecimal(w) then 16 else 10, w.letter != 'x')
    ensures p.sign == if v < 0 then "-"
                      else if '+' !in w.flags then ""
                      else if ' ' in w.flags && !Hexadecimal(w) then " " else "+"
    ensures p.prefix == if '#' in w.flags || w.letter == 'p' then "0x" else ""
    ensures Padded(p, Hexadecimal(w) || '0' in w.flags, '-' in w.flags, WidthOf(w, args), LeastDigits(w, args))
  {
    hide *;
    var d := FullWritten(fmt, i, w, args);
    FlagsInAre(w.flags);
    LettersAre(w, d.flags, d.precision);
    IntegerText(w, args, d);
    TakesOne(fmt, i, w, args, NumberText(d));
    LeastIs(w, args);
    var num, flags := NumberArg(d.args, d.length, IsSigned(d.letter)), FlagsOf(d.flags, d.letter);
    v := Extended(Integer(w, args), w, flags);
    NumberTextIs(d);
    p := RenderParts(num, BaseOf(d.letter), d.width, PrecisionOf(d.precision, d.letter), flags);
    SignCases(num, flags);
    DecimalCase(p.digits, Magnitude(num, flags), BaseOf(d.letter), flags.upper, w.letter != 'x');
  }

  lemma LettersAre(w: Written, f: Flags, n: int)
    ensures Hexadecimal(w) <==> w.letter == 'x' || w.letter == 'X' || w.letter == 'p'
    ensures w.letter in {'d', 'i', 'u', 'x', 'X', 'p'} <==> IsNumeric(w.letter)
    ensures w.letter in {'d', 'i'} <==> IsSigned(w.letter)
    ensures IsSigned(w.letter) ==> !Hexadecimal(w)
    ensures BaseOf(w.letter) == if Hexadecimal(w) then 16 else 10
    ensures IsNumeric(w.letter) && !f.sign && !f.upper ==>
      var f' := FlagsOf(f, w.letter);
      && f'.sign == IsSigned(w.letter) && f'.alternate == (f.alternate || w.letter == 'p') && f'.plus == f.plus
      && f'.upper == (Hexadecimal(w) && w.letter != 'x') && f'.space == (f.space && !Hexadecimal(w))
      && f'.zeropad == (f.zeropad || Hexadecimal(w)) && f'.left == f.left
    ensures PrecisionOf(n, w.letter) == if n == -1 then (if w.letter == 'p' then 8 else 0) else n
  {
  }

  lemma IntegerText(w: Written, args: seq<Arg>, d: Directive)
    requires HasSizes(w, args) && HasInteger(w, args)
    requires d.Directive? && d.args == RestOf(w, args) && IsNumeric(d.letter)
    requires Proper(w) && d.length == BytesOf(w.modifier)
    ensures IsLength(d.length) && HasNumber(d.args, d.length) && RestOf(w, args) != []
    ensures ConversionText(d) == Go(d.next, RestOf(w, args)[1..], NumberText(d))
    ensures NumberArg(d.args, d.length, IsSigned(d.letter))
      == Extend(Integer(w, args), BytesOf(w.modifier), IsSigned(d.letter))
  {
    hide HasSizes, RestOf, NumberText, Extend;
  }

  lemma TakesOne(fmt: string, i: nat, w: Written, args: seq<Arg>, text: string)
    requires i + |Text(w)| <= |fmt| && HasSizes(w, args) && RestOf(w, args) != []
    requires Full(fmt, i, args) == Before(text, Full(fmt, i + |Text(w)|, RestOf(w, args)[1..]))
    ensures Adds(fmt, i, w, args, text, 1)
  {
    hide Full, Text, HasSizes, RestOf;
  }

  lemma NumberTextIs(d: Directive)
    requires d.Directive? && HasNumber(d.args, d.length) && IsLength(d.length)
    ensures NumberText(d) == Render(NumberArg(d.args, d.length, IsSigned(d.letter)), BaseOf(d.letter), d.width,
                                    PrecisionOf(d.precision, d.letter), FlagsOf(d.flags, d.letter))
  {
  }

  lemma DecimalCase(digits: string, n: nat, base: int, upper: bool, upper': bool)
    requires Denote(digits, n, base, upper) && (base == 16 ==> upper == upper')
    ensures Denote(digits, n, base, upper')
  {
    hide Value, DigitValues;
  }

  /** c: the character whose code the argument has modulo 256. */
  lemma CharMeans(fmt: string, i: nat, w: Written, args: seq<Arg>) returns (c: char)
    requires Proper(w) && Stands(fmt, i, Text(w)) && HasSizes(w, args) && w.letter == 'c'
    requires RestOf(w, args) != [] && RestOf(w, args)[0].IntArg?
    ensures Adds(fmt, i, w, args, [c], 1) && c as int < 256 && (RestOf(w, args)[0].i - c as int) % 256 == 0
  {
    hide Proper, Stands, Text, HasSizes, RestOf, WidthOf, LeastOf, BytesOf, Full, Adds;
    var d := FullWritten(fmt, i, w, args);
    c := CharOf(d.args[0].i);
    TakesOne(fmt, i, w, args, [c]);
  }

  /** s: the string, or as much of it as the precision allows. */
  lemma StringMeans(fmt: string, i: nat, w: Written, args: seq<Arg>) returns (text: string)
    requires Proper(w) && Stands(fmt, i, Text(w)) && HasSizes(w, args) && w.letter == 's'
    requires RestOf(w, args) != [] && RestOf(w, args)[0].StrArg?
    ensures Adds(fmt, i, w, args, text, 1) && text <= RestOf(w, args)[0].s
    ensures var length, most := |RestOf(w, args)[0].s|, LeastOf(w, args, -1);
      |text| == if w.precision.Absent? || length <= most then length else most
  {
    hide Proper, Stands, Text, HasSizes, RestOf, WidthOf, BytesOf, Full, Adds, SizeRest, Value, DigitValues;
    var d := FullWritten(fmt, i, w, args);
    PrecisionSign(w, args);
    text := StringText(d.args[0].s, d.precision);
    TakesOne(fmt, i, w, args, text);
  }

  lemma PrecisionSign(w: Written, args: seq<Arg>)
    requires Proper(w) && HasSizes(w, args)
    ensures if w.precision.Absent? then LeastOf(w, args, -1) == -1 else LeastOf(w, args, -1) >= 0
  {
    if w.precision.Digits? {
      DigitsNonNegative(w.precision.ds);
    }
  }

  /** A second '%' stands for one. */
  lemma PercentMeans(fmt: string, i: nat, w: Written, args: seq<Arg>)
    requires Proper(w) && Stands(fmt, i, Text(w)) && HasSizes(w, args) && w.letter == '%'
    ensures Adds(fmt, i, w, args, "%", 0)
  {
    hide Proper, Stands, Text, HasSizes, RestOf, WidthOf, LeastOf, BytesOf, Full;
    var d := FullWritten(fmt, i, w, args);
    assert RestOf(w, args)[0..] == RestOf(w, args);
  }

  /** No other letter stands for a text, nor does one without its arguments. */
  lemma NothingMeant(fmt: string, i: nat, w: Written, args: seq<Arg>)
    requires Proper(w) && Stands(fmt, i, Text(w))
    requires
      || !HasSizes(w, args)
      || (w.letter in {'d', 'i', 'u', 'x', 'X', 'p'} && !HasInteger(w, args))
      || (w.letter == 'c' && (RestOf(w, args) == [] || !RestOf(w, args)[0].IntArg?))
      || (w.letter == 's' && (RestOf(w, args) == [] || !RestOf(w, args)[0].StrArg?))
      || w.letter !in {'d', 'i', 'u', 'x', 'X', 'p', 'c', 's', '%'}
    ensures Full(fmt, i, args) == Undefined
  {
    hide Stands, Text, HasSizes, RestOf, WidthOf, LeastOf, Parse, NumberText;
    ParseWritten(fmt, i, w, args);
    if HasSizes(w, args) {
      var d := FullWritten(fmt, i, w, args);
      LettersAre(w, d.flags, d.precision);
    }
  }

  /** A conversion with an unknown letter in a run: the nearest '%' up to the character after the letter is
      copied, and the format goes on after it; but past the end of the buffer it goes on at that '%', and if
      nothing was taken from the arguments either, forever. */
  lemma UnknownMeans(fmt: string, i: nat, w: Written, args: seq<Arg>, pos: nat, end: nat, limit: nat)
    requires Proper(w) && Stands(fmt, i, Text(w)) && HasSizes(w, args) && pos < limit
    requires w.letter !in {'d', 'i', 'u', 'x', 'X', 'p', 'c', 's', '%'}
    ensures i < i + |Text(w)| <= |fmt| && fmt[i] == '%' && forall k :: i < k < i + |Text(w)| ==> fmt[k] != '%'
    ensures var next, rest := i + |Text(w)|, RestOf(w, args);
      var j := if Char(fmt, next) == '%' then next else i;
      Run(fmt, i, args, pos, end, limit) ==
        if pos < end then Before("%", Run(fmt, j + 1, rest, pos + 1, end, limit))
        else if j > i || |rest| < |args| then Before("%", Run(fmt, j, rest, pos + 1, end, limit))
        else Diverges
  {
    hide Stands, Text, HasSizes, RestOf, WidthOf, LeastOf, Parse, Run, NumberText, NumberReach;
    ParseWritten(fmt, i, w, args);
    RunConversion(fmt, i, args, pos, end, limit);
    LettersAre(w, NO_FLAGS, -1);
  }
}
