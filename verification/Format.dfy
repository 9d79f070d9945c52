/** vsnprintf (printf.c:175-340). */
module Format {
  import opened CStrings
  import opened Printf

  type Int32 = v: int | -0x8000_0000 <= v < 0x8000_0000

  /** An argument of the variable argument list. */
  datatype Arg = IntArg(i: Int32) | LongArg(n: Word64) | StrArg(s: CString)

  // ----- Parsing a conversion: %[flags][width][.precision][length]type -----

  ghost predicate NoPercent(fmt: string, i: nat, j: nat) {
    i <= j <= |fmt| && forall k :: i <= k < j ==> fmt[k] != '%'
  }

  const NO_FLAGS := Flags(false, false, false, false, false, false, false)

  predicate IsFlag(c: char) {
    c == '+' || c == '-' || c == '#' || c == ' ' || c == '0'
  }

  function WithFlag(flags: Flags, c: char): Flags
    requires IsFlag(c)
  {
    if c == '+' then flags.(plus := true)
    else if c == '-' then flags.(left := true)
    else if c == '#' then flags.(alternate := true)
    else if c == ' ' then flags.(space := true)
    else flags.(zeropad := true)
  }

  function ScanFlags(fmt: string, i: nat, flags: Flags): (r: (Flags, nat))
    requires i <= |fmt|
    ensures NoPercent(fmt, i, r.1)
    decreases |fmt| - i
  {
    if i < |fmt| && IsFlag(fmt[i]) then ScanFlags(fmt, i + 1, WithFlag(flags, fmt[i])) else (flags, i)
  }

  predicate IsDigit(c: char) {
    '0' <= c <= '9'
  }

  /** atoi: the number at index i after v was read, and where it ends. */
  function ScanNumber(fmt: string, i: nat, v: nat): (r: (nat, nat))
    requires i <= |fmt|
    ensures NoPercent(fmt, i, r.1)
    decreases |fmt| - i
  {
    if i < |fmt| && IsDigit(fmt[i]) then ScanNumber(fmt, i + 1, v * 10 + (fmt[i] as int - '0' as int)) else (v, i)
  }

  /** A width or a precision; none when the argument for a '*' is missing or is not an int, or when the
      number does not fit an int, so that atoi overflows. */
  datatype Amount = Amount(value: nat, next: nat, args: seq<Arg>) | NoAmount

  function AmountAt(fmt: string, i: nat, args: seq<Arg>): (r: Amount)
    requires i <= |fmt|
    ensures r.Amount? ==> NoPercent(fmt, i, r.next) && |r.args| <= |args|
  {
    if Char(fmt, i) == '*' then
      if args == [] || !args[0].IntArg? then NoAmount
      else Amount(Max(args[0].i, 0), i + 1, args[1..])
    else
      var n := ScanNumber(fmt, i, 0);
      if n.0 > INT_MAX then NoAmount else Amount(n.0, n.1, args)
  }

  predicate IsLength(n: int) {
    n == 1 || n == 2 || n == 4 || n == 8
  }

  /** The size of the argument in bytes. */
  function LengthAt(fmt: string, i: nat): (r: (int, nat))
    requires i <= |fmt|
    ensures NoPercent(fmt, i, r.1) && IsLength(r.0)
  {
    match Char(fmt, i)
    case 'h' => if Char(fmt, i + 1) == 'h' then (1, i + 2) else (2, i + 1)
    case 'l' => if Char(fmt, i + 1) == 'l' then (8, i + 2) else (4, i + 1)
    case 'z' => (4, i + 1)
    case 't' => (4, i + 1)
    case _ => (4, i)
  }

  /** A conversion up to its letter, and the arguments left after its '*'s; precision -1 stands for none. */
  datatype Directive =
    | Directive(flags: Flags, width: nat, precision: int, length: int, letter: char, next: nat, args: seq<Arg>)
    | Malformed

  /** The conversion whose '%' stands before index i. */
  function Parse(fmt: string, i: nat, args: seq<Arg>): (d: Directive)
    requires i <= |fmt|
    ensures d.Directive? ==>
      && i < d.next <= |fmt| && NoPercent(fmt, i, d.next - 1) && d.letter == fmt[d.next - 1]
      && -1 <= d.precision && IsLength(d.length) && |d.args| <= |args|
  {
    var f := ScanFlags(fmt, i, NO_FLAGS);
    match AmountAt(fmt, f.1, args)
    case NoAmount => Malformed
    case Amount(width, j, rest) =>
      if Char(fmt, j) != '.' then ParseType(fmt, i, f.0, width, -1, j, rest)
      else
        match AmountAt(fmt, j + 1, rest)
        case NoAmount => Malformed
        case Amount(precision, k, rest') => ParseType(fmt, i, f.0, width, precision, k, rest')
  }

  function ParseType(fmt: string, ghost i: nat, flags: Flags, width: nat, precision: int, j: nat,
                     args: seq<Arg>): (d: Directive)
    requires NoPercent(fmt, i, j) && -1 <= precision
    ensures d.Directive? ==>
      && i < d.next <= |fmt| && NoPercent(fmt, i, d.next - 1) && d.letter == fmt[d.next - 1]
      && d.precision == precision && IsLength(d.length) && d.args == args
  {
    var l := LengthAt(fmt, j);
    if l.1 == |fmt| then Malformed
    else Directive(flags, width, precision, l.0, fmt[l.1], l.1 + 1, args)
  }

  // ----- What a conversion prints -----

  predicate IsSigned(c: char) {
    c == 'd' || c == 'i'
  }

  predicate IsHex(c: char) {
    c == 'x' || c == 'X' || c == 'p'
  }

  predicate IsNumeric(c: char) {
    IsSigned(c) || c == 'u' || IsHex(c)
  }

  function BaseOf(c: char): (base: int)
    ensures base == 10 || base == 16
  {
    if IsHex(c) then 16 else 10
  }

  function FlagsOf(flags: Flags, c: char): Flags {
    if IsSigned(c) then flags.(sign := true)
    else if c == 'u' then flags
    else flags.(alternate := flags.alternate || c == 'p', upper := flags.upper || c != 'x', space := false,
                zeropad := true)
  }

  function PrecisionOf(precision: int, c: char): int {
    if precision != -1 then precision else if c == 'p' then 8 else 0
  }

  /** The low bytes of an argument as a 64-bit number, sign- or zero-extended. */
  function Extend(v: int, length: int, signed: bool): (w: Word64)
    requires IsLength(length)
  {
    var modulus :=
      if length == 1 then 0x100
      else if length == 2 then 0x1_0000
      else if length == 4 then 0x1_0000_0000
      else RANGE64;
    var low := v % modulus;
    if signed && low >= modulus / 2 then low - modulus + RANGE64 else low
  }

  /** The first argument has the type that the length asks for. */
  predicate HasNumber(args: seq<Arg>, length: int) {
    args != [] && (if length == 8 then args[0].LongArg? else args[0].IntArg?)
  }

  function NumberArg(args: seq<Arg>, length: int, signed: bool): Word64
    requires HasNumber(args, length) && IsLength(length)
  {
    Extend(if length == 8 then args[0].n else args[0].i, length, signed)
  }

  function NumberText(d: Directive): string
    requires d.Directive? && HasNumber(d.args, d.length) && IsLength(d.length)
  {
    Render(NumberArg(d.args, d.length, IsSigned(d.letter)), BaseOf(d.letter), d.width,
           PrecisionOf(d.precision, d.letter),
           FlagsOf(d.flags, d.letter))
  }

  /** How many of its characters there are up to the last digit. */
  function NumberReach(d: Directive): nat
    requires d.Directive? && HasNumber(d.args, d.length) && IsLength(d.length)
  {
    Reach(NumberArg(d.args, d.length, IsSigned(d.letter)), BaseOf(d.letter), d.width,
          PrecisionOf(d.precision, d.letter),
          FlagsOf(d.flags, d.letter))
  }

  function CharOf(v: int): char {
    (v % 256) as char
  }

  function StringText(s: string, precision: int): string {
    if 0 <= precision < |s| then s[..precision] else s
  }

  // ----- The text of a format, without a buffer -----

  /** The text put out and the arguments left; or a loop that never ends; or more characters than can be
      counted; or a call outside the contract: an argument that is missing or of another type, a number in
      the format that overflows an int, or a format that ends in a conversion. */
  datatype Outcome = Done(text: string, args: seq<Arg>) | Diverges | TooLong | Undefined

  datatype Turn = Go(i: nat, args: seq<Arg>, text: string) | Stop(outcome: Outcome)

  /** What a known conversion adds to the text. */
  function ConversionText(d: Directive): (t: Turn)
    requires d.Directive? && IsLength(d.length)
    ensures if t.Go? then t.i == d.next else t.outcome == Undefined
  {
    if IsNumeric(d.letter) then
      if HasNumber(d.args, d.length) then Go(d.next, d.args[1..], NumberText(d)) else Stop(Undefined)
    else if d.letter == 'c' then
      if d.args != [] && d.args[0].IntArg? then Go(d.next, d.args[1..], [CharOf(d.args[0].i)]) else Stop(Undefined)
    else if d.letter == 's' then
      if d.args == [] || !d.args[0].StrArg? then Stop(Undefined)
      else Go(d.next, d.args[1..], StringText(d.args[0].s, d.precision))
    else if d.letter == '%' then Go(d.next, d.args, "%")
    else Stop(Undefined)
  }

  /** The text of the format from index i on, for known and complete conversions. */
  function Full(fmt: string, i: nat, args: seq<Arg>): (o: Outcome)
    requires i <= |fmt|
    decreases |fmt| - i
  {
    if i == |fmt| then Done("", args)
    else if fmt[i] != '%' then Before([fmt[i]], Full(fmt, i + 1, args))
    else
      match Parse(fmt, i + 1, args)
      case Malformed => Undefined
      case Directive(_, _, _, _, _, next, _) =>
        match ConversionText(Parse(fmt, i + 1, args))
        case Stop(o) => o
        case Go(j, rest, text) => Before(text, Full(fmt, next, rest))
  }

  function Before(text: string, o: Outcome): Outcome {
    if o.Done? then Done(text + o.text, o.args) else o
  }

  // ----- What the code does, with a buffer of end characters -----

  /** The code's turn for the conversion at index i when pos characters were put out before it.  A '?'
      stands for a character past the buffer that is counted but never looked at. */
  function Converted(fmt: string, i: nat, args: seq<Arg>, d: Directive, pos: nat, end: nat): (t: Turn)
    requires d.Directive? && i < d.next <= |fmt| && IsLength(d.length)
    requires |d.args| <= |args|
    ensures t.Stop? ==> !t.outcome.Done?
    ensures t.Go? ==> t.i <= |fmt| && (t.i > i || (t.i == i && |t.args| < |args|))
  {
    if IsNumeric(d.letter) then
      if !HasNumber(d.args, d.length) then Stop(Undefined)
      else if pos + NumberReach(d) > end then Stop(Diverges)
      else Go(d.next, d.args[1..], NumberText(d))
    else if d.letter == 'c' then
      if pos >= end then Go(d.next, d.args, "?")
      else if d.args != [] && d.args[0].IntArg? then Go(d.next, d.args[1..], [CharOf(d.args[0].i)])
      else Stop(Undefined)
    else if d.letter == 's' then
      if d.args == [] || !d.args[0].StrArg? then Stop(Undefined)
      else
        var text := StringText(d.args[0].s, d.precision);
        if text == "" || pos + |text| <= end then Go(d.next, d.args[1..], text)
        else if d.precision == -1 then Stop(Diverges)
        else Go(d.next, d.args[1..], text + Repeat('?', d.precision - |text|))
    else if d.letter == '%' then Go(d.next, d.args, "%")
    else
      var back := if Char(fmt, d.next) == '%' then d.next else i;
      if pos < end then Go(back + 1, d.args, "%")
      else if back == d.next then Go(back, d.args, "%")
      else if |d.args| < |args| then Go(i, d.args, "%")
      else Stop(Diverges)
  }

  /** A turn that may not take the count above limit. */
  function Bounded(t: Turn, pos: nat, limit: nat): (t': Turn) {
    if t.Go? && pos + |t.text| > limit then Stop(TooLong) else t
  }

  /** What vsnprintf puts out from index i of the format on, when at most limit characters can be counted. */
  function Run(fmt: string, i: nat, args: seq<Arg>, pos: nat, end: nat, limit: nat): (o: Outcome)
    requires i <= |fmt|
    decreases |fmt| - i, |args|
  {
    if i == |fmt| then Done("", args)
    else if fmt[i] != '%' then
      if pos + 1 > limit then TooLong else Before([fmt[i]], Run(fmt, i + 1, args, pos + 1, end, limit))
    else
      var d := Parse(fmt, i + 1, args);
      if d.Malformed? then Undefined
      else
        match Bounded(Converted(fmt, i, args, d, pos, end), pos, limit)
        case Stop(o) => o
        case Go(j, rest, text) => Before(text, Run(fmt, j, rest, pos + |text|, end, limit))
  }

  /** A conversion in a run, and what the parser says of it. */
  lemma RunConversion(fmt: string, i: nat, args: seq<Arg>, pos: nat, end: nat, limit: nat)
    requires i < |fmt| && fmt[i] == '%'
    ensures var d := Parse(fmt, i + 1, args);
      if d.Malformed? then Run(fmt, i, args, pos, end, limit) == Undefined
      else
        && i + 1 < d.next <= |fmt| && IsLength(d.length) && |d.args| <= |args|
        && NoPercent(fmt, i + 1, d.next - 1) && d.letter == fmt[d.next - 1] && -1 <= d.precision
        && match Bounded(Converted(fmt, i, args, d, pos, end), pos, limit)
           case Stop(o) => !o.Done? && Run(fmt, i, args, pos, end, limit) == o
           case Go(j, rest, text) =>
             && j <= |fmt| && (j > i || (j == i && |rest| < |args|)) && pos + |text| <= limit
             && Run(fmt, i, args, pos, end, limit) == Before(text, Run(fmt, j, rest, pos + |text|, end, limit))
  {
    hide Parse, Converted;
  }

  lemma RunLiteral(fmt: string, i: nat, args: seq<Arg>, pos: nat, end: nat, limit: nat)
    requires i < |fmt| && fmt[i] != '%'
    ensures Run(fmt, i, args, pos, end, limit)
      == if pos + 1 > limit then TooLong else Before([fmt[i]], Run(fmt, i + 1, args, pos + 1, end, limit))
  {
  }

  // ----- When they agree -----

  /** The size a conversion at pos needs: its digits, its character or its string must fit, but padding
      need not, nor the characters of a string that its precision covers. */
  function NeededBy(d: Directive, pos: nat): nat
    requires d.Directive? && IsLength(d.length) && ConversionText(d).Go?
  {
    if IsNumeric(d.letter) then pos + NumberReach(d)
    else if d.letter == 'c' then pos + 1
    else if d.letter == 's' then
      var text := StringText(d.args[0].s, d.precision);
      if text == "" || 0 <= d.precision <= |d.args[0].s| then 0 else pos + |text|
    else 0
  }

  /** The size that the format from index i on needs. */
  function Needed(fmt: string, i: nat, args: seq<Arg>, pos: nat): nat
    requires i <= |fmt|
    decreases |fmt| - i
  {
    if i == |fmt| then 0
    else if fmt[i] != '%' then Needed(fmt, i + 1, args, pos + 1)
    else
      var d := Parse(fmt, i + 1, args);
      if d.Malformed? || ConversionText(d).Stop? then 0
      else Max(NeededBy(d, pos), Needed(fmt, d.next, ConversionText(d).args, pos + |ConversionText(d).text|))
  }

  /** A literal character of a format with a full text. */
  lemma FullLiteral(fmt: string, i: nat, args: seq<Arg>, pos: nat)
    requires i < |fmt| && fmt[i] != '%' && Full(fmt, i, args).Done?
    ensures Full(fmt, i + 1, args).Done? && Full(fmt, i, args) == Before([fmt[i]], Full(fmt, i + 1, args))
    ensures |Full(fmt, i, args).text| == 1 + |Full(fmt, i + 1, args).text|
    ensures Needed(fmt, i, args, pos) == Needed(fmt, i + 1, args, pos + 1)
  {
  }

  /** A conversion of a format with a full text. */
  lemma FullConversion(fmt: string, i: nat, args: seq<Arg>, pos: nat) returns (d: Directive, c: Turn)
    requires i < |fmt| && fmt[i] == '%' && Full(fmt, i, args).Done?
    ensures d == Parse(fmt, i + 1, args) && d.Directive? && i < d.next <= |fmt| && IsLength(d.length)
    ensures |d.args| <= |args| && -1 <= d.precision
    ensures c == ConversionText(d) && c.Go? && c.i == d.next
    ensures Full(fmt, d.next, c.args).Done? && Full(fmt, i, args) == Before(c.text, Full(fmt, d.next, c.args))
    ensures |Full(fmt, i, args).text| == |c.text| + |Full(fmt, d.next, c.args).text|
    ensures Needed(fmt, i, args, pos)
      == var n, m := NeededBy(d, pos), Needed(fmt, d.next, c.args, pos + |c.text|); if n < m then m else n
  {
    hide ConversionText, NeededBy, Parse;
    d := Parse(fmt, i + 1, args);
    c := ConversionText(d);
  }

  lemma TurnLaw(fmt: string, i: nat, args: seq<Arg>, d: Directive, pos: nat, end: nat)
    requires d.Directive? && i < d.next <= |fmt| && IsLength(d.length)
    requires |d.args| <= |args| && -1 <= d.precision && ConversionText(d).Go?
    ensures Converted(fmt, i, args, d, pos, end) == ConversionText(d) <==> NeededBy(d, pos) <= end
    ensures var t := Converted(fmt, i, args, d, pos, end);
      || t == Stop(Diverges)
      || (t.Go? && t.i == d.next && t.args == ConversionText(d).args && |t.text| >= |ConversionText(d).text|
          && (|t.text| == |ConversionText(d).text| ==> t == ConversionText(d)))
      || (t.Go? && t.i == d.next && |t.args| > |ConversionText(d).args|)
  {
    hide NumberText, NumberReach;
    if d.letter == 's' {
      assert StringText(d.args[0].s, d.precision) + "" == StringText(d.args[0].s, d.precision);
    }
  }

  /** The law: from any index and position on, the code puts out the text of the format, and gives every
      conversion its own argument, exactly when the buffer has the size that the format needs and the text
      can be counted. */
  lemma {:induction false} RunIsFull(fmt: string, i: nat, args: seq<Arg>, pos: nat, end: nat, limit: nat)
    requires i <= |fmt| && pos <= limit && Full(fmt, i, args).Done?
    ensures Run(fmt, i, args, pos, end, limit) == Full(fmt, i, args)
      <==> Needed(fmt, i, args, pos) <= end && pos + |Full(fmt, i, args).text| <= limit
    decreases |fmt| - i
  {
    hide *;
    if i == |fmt| {
      AtEnd(fmt, args, pos, end, limit);
    } else if fmt[i] != '%' {
      FullLiteral(fmt, i, args, pos);
      RunLiteral(fmt, i, args, pos, end, limit);
      if pos + 1 <= limit {
        RunIsFull(fmt, i + 1, args, pos + 1, end, limit);
        BeforeSame([fmt[i]], Run(fmt, i + 1, args, pos + 1, end, limit), Full(fmt, i + 1, args));
      }
    } else {
      var d, c := FullConversion(fmt, i, args, pos);
      RunConversion(fmt, i, args, pos, end, limit);
      TurnLaw(fmt, i, args, d, pos, end);
      var t := Converted(fmt, i, args, d, pos, end);
      BoundedCases(t, pos, limit);
      if t == c && pos + |c.text| <= limit {
        RunIsFull(fmt, d.next, c.args, pos + |c.text|, end, limit);
        BeforeSame(c.text, Run(fmt, d.next, c.args, pos + |c.text|, end, limit), Full(fmt, d.next, c.args));
      } else if t.Go? && t != c && pos + |t.text| <= limit {
        BeforeParts(t.text, Run(fmt, t.i, t.args, pos + |t.text|, end, limit));
        BeforeParts(c.text, Full(fmt, d.next, c.args));
        if |t.args| > |c.args| {
          Behind(fmt, d.next, t.args, c.args, pos + |t.text|, end, limit);
        } else {
          Ahead(fmt, d.next, c.args, pos + |t.text|, end, limit);
        }
      }
    }
  }

  lemma AtEnd(fmt: string, args: seq<Arg>, pos: nat, end: nat, limit: nat)
    ensures Run(fmt, |fmt|, args, pos, end, limit) == Full(fmt, |fmt|, args) == Done("", args)
    ensures Needed(fmt, |fmt|, args, pos) == 0
  {
  }

  lemma BoundedCases(t: Turn, pos: nat, limit: nat)
    ensures Bounded(t, pos, limit) == if t.Go? && pos + |t.text| > limit then Stop(TooLong) else t
  {
  }

  lemma BeforeParts(text: string, o: Outcome)
    ensures if o.Done? then Before(text, o).Done? && |Before(text, o).text| == |text| + |o.text|
                            && Before(text, o).args == o.args
            else Before(text, o) == o
  {
  }

  lemma BeforeSame(text: string, a: Outcome, b: Outcome)
    ensures Before(text, a) == Before(text, b) <==> a == b
  {
    if a.Done? && b.Done? && text + a.text == text + b.text {
      assert a.text == (text + a.text)[|text|..];
      assert b.text == (text + b.text)[|text|..];
    }
  }

  /** Two argument lists: the same conversion, and as many arguments taken by its '*'s. */
  lemma ParseSame(fmt: string, i: nat, a: seq<Arg>, b: seq<Arg>)
    requires i <= |fmt| && Parse(fmt, i, a).Directive? && Parse(fmt, i, b).Directive?
    ensures Parse(fmt, i, a).next == Parse(fmt, i, b).next && Parse(fmt, i, a).letter == Parse(fmt, i, b).letter
    ensures |a| - |Parse(fmt, i, a).args| == |b| - |Parse(fmt, i, b).args|
  {
    hide ScanFlags, AmountAt, LengthAt;
    var j := ScanFlags(fmt, i, NO_FLAGS).1;
    AmountSame(fmt, j, a, b);
    var x, y := AmountAt(fmt, j, a), AmountAt(fmt, j, b);
    if Char(fmt, x.next) == '.' {
      AmountSame(fmt, x.next + 1, x.args, y.args);
    }
  }

  lemma AmountSame(fmt: string, i: nat, a: seq<Arg>, b: seq<Arg>)
    requires i <= |fmt| && AmountAt(fmt, i, a).Amount? && AmountAt(fmt, i, b).Amount?
    ensures var x, y := AmountAt(fmt, i, a), AmountAt(fmt, i, b);
      x.next == y.next && |a| - |x.args| == |b| - |y.args|
  {
    hide ScanNumber;
  }

  lemma BehindTurn(fmt: string, i: nat, a: seq<Arg>, da: Directive, db: Directive, pos: nat, end: nat)
    requires da.Directive? && i < da.next <= |fmt| && IsLength(da.length) && |da.args| <= |a|
    requires db.Directive? && IsLength(db.length) && da.letter == db.letter && da.next == db.next
    requires |da.args| > |db.args| && ConversionText(db).Go?
    ensures var t := Converted(fmt, i, a, da, pos, end);
      t.Go? ==> t.i == db.next && |t.args| > |ConversionText(db).args|
  {
    hide NumberText, NumberReach, StringText;
  }

  /** Once a conversion has left an argument behind, there are arguments too many at the end. */
  lemma {:induction false} Behind(fmt: string, i: nat, a: seq<Arg>, b: seq<Arg>, pos: nat, end: nat, limit: nat)
    requires i <= |fmt| && |a| > |b| && Full(fmt, i, b).Done?
    ensures var r := Run(fmt, i, a, pos, end, limit);
      r.Done? ==> |r.args| > |Full(fmt, i, b).args|
    decreases |fmt| - i
  {
    hide Converted, ConversionText, Parse;
    if i < |fmt| {
      if fmt[i] != '%' {
        if pos + 1 <= limit {
          Behind(fmt, i + 1, a, b, pos + 1, end, limit);
        }
      } else {
        var da := Parse(fmt, i + 1, a);
        var db := Parse(fmt, i + 1, b);
        if da.Directive? {
          ParseSame(fmt, i + 1, a, b);
          BehindTurn(fmt, i, a, da, db, pos, end);
          var t := Converted(fmt, i, a, da, pos, end);
          if t.Go? && pos + |t.text| <= limit {
            Behind(fmt, db.next, t.args, ConversionText(db).args, pos + |t.text|, end, limit);
          }
        }
      }
    }
  }

  /** Given the right arguments, no less than the text of the format is counted. */
  lemma {:induction false} Ahead(fmt: string, i: nat, args: seq<Arg>, pos: nat, end: nat, limit: nat)
    requires i <= |fmt| && Full(fmt, i, args).Done?
    ensures var r := Run(fmt, i, args, pos, end, limit);
      r.Done? ==> |r.args| > |Full(fmt, i, args).args| || |r.text| >= |Full(fmt, i, args).text|
    decreases |fmt| - i
  {
    hide Converted, ConversionText, NeededBy, Parse;
    if i < |fmt| {
      if fmt[i] != '%' {
        if pos + 1 <= limit {
          Ahead(fmt, i + 1, args, pos + 1, end, limit);
        }
      } else {
        var d := Parse(fmt, i + 1, args);
        TurnLaw(fmt, i, args, d, pos, end);
        var t := Converted(fmt, i, args, d, pos, end);
        if t.Go? && pos + |t.text| <= limit {
          if |t.args| > |ConversionText(d).args| {
            Behind(fmt, d.next, t.args, ConversionText(d).args, pos + |t.text|, end, limit);
          } else {
            Ahead(fmt, d.next, t.args, pos + |t.text|, end, limit);
          }
        }
      }
    }
  }

  // ----- Consequences -----

  /** A buffer that holds the whole text is always large enough. */
  lemma {:induction false} TextFits(fmt: string, i: nat, args: seq<Arg>, pos: nat)
    requires i <= |fmt| && Full(fmt, i, args).Done?
    ensures Needed(fmt, i, args, pos) <= pos + |Full(fmt, i, args).text|
    decreases |fmt| - i
  {
    hide ConversionText, NeededBy, Parse;
    if i < |fmt| {
      if fmt[i] != '%' {
        TextFits(fmt, i + 1, args, pos + 1);
      } else {
        var d := Parse(fmt, i + 1, args);
        var c := ConversionText(d);
        TurnFits(d, pos);
        TextFits(fmt, d.next, c.args, pos + |c.text|);
      }
    }
  }

  lemma TurnFits(d: Directive, pos: nat)
    requires d.Directive? && IsLength(d.length) && ConversionText(d).Go?
    ensures NeededBy(d, pos) <= pos + |ConversionText(d).text|
  {
    hide Extend, NumberArg, FlagsOf, BaseOf, PrecisionOf, Render, Reach;
    if IsNumeric(d.letter) {
      ReachFits(NumberArg(d.args, d.length, IsSigned(d.letter)), BaseOf(d.letter), d.width,
                PrecisionOf(d.precision, d.letter),
                FlagsOf(d.flags, d.letter));
    }
  }

  lemma ReachFits(num: Word64, base: int, width: int, precision: int, flags: Flags)
    requires base == 10 || base == 16
    ensures 0 < Reach(num, base, width, precision, flags) <= |Render(num, base, width, precision, flags)|
  {
    hide Render;
    RenderLength(num, base, width, precision, flags);
  }

  /** Asking for the length with an empty buffer, which the standard allows, never returns. */
  lemma LengthQueryHangs(n: Int32, limit: nat)
    ensures Full("%d", 0, [IntArg(n)]).Done?
    ensures Run("%d", 0, [IntArg(n)], 0, 0, limit) == Diverges
  {
    hide Extend, Render, Reach;
    var args := [IntArg(n)];
    var d := Parse("%d", 1, args);
    assert ScanFlags("%d", 1, NO_FLAGS) == (NO_FLAGS, 1);
    assert ScanNumber("%d", 1, 0) == (0, 1);
    assert d == Directive(NO_FLAGS, 0, -1, 4, 'd', 2, args);
    ReachFits(NumberArg(args, 4, true), 10, 0, 0, FlagsOf(NO_FLAGS, 'd'));
    assert Full("%d", 2, []) == Done("", []);
    assert ConversionText(d) == Go(2, [], NumberText(d));
  }
}
