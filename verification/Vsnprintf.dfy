/** The code of vsnprintf (printf.c:57-64, 175-340), proved against the runs of module Format. */
module Vsnprintf {
  import opened CStrings
  import opened Printf
  import opened Format
  import opened Truncation

  // ----- Reading a conversion -----

  /** The loop over the flag characters. */
  method ReadFlags(fmt: CString, i0: nat) returns (flags: Flags, i: nat)
    requires i0 <= |fmt|
    ensures (flags, i) == ScanFlags(fmt, i0, NO_FLAGS)
  {
    flags, i := NO_FLAGS, i0;
    while true
      invariant i <= |fmt| && ScanFlags(fmt, i0, NO_FLAGS) == ScanFlags(fmt, i, flags)
      decreases |fmt| - i
    {
      match Char(fmt, i) {
        case '+' => flags := flags.(plus := true);
        case '-' => flags := flags.(left := true);
        case '#' => flags := flags.(alternate := true);
        case ' ' => flags := flags.(space := true);
        case '0' => flags := flags.(zeropad := true);
        case _ => return;
      }
      i := i + 1;
    }
  }

  /** atoi, whose result is of use only when it fits an int: else the int overflows on the way. */
  method ReadNumber(fmt: CString, i0: nat) returns (v: nat, i: nat)
    requires i0 <= |fmt|
    ensures (v, i) == ScanNumber(fmt, i0, 0)
  {
    v, i := 0, i0;
    while IsDigit(Char(fmt, i))
      invariant i <= |fmt| && ScanNumber(fmt, i0, 0) == ScanNumber(fmt, i, v)
      decreases |fmt| - i
    {
      v := v * 10 + (Char(fmt, i) as int - '0' as int);
      i := i + 1;
    }
  }

  /** A width or a precision: the next argument for a '*', else a number, which is 0 when there are no
      digits. */
  method ReadAmount(fmt: CString, i: nat, args: seq<Arg>) returns (r: Amount)
    requires i <= |fmt|
    ensures r == AmountAt(fmt, i, args)
  {
    if Char(fmt, i) == '*' {
      if args == [] || !args[0].IntArg? {
        return NoAmount;
      }
      var value: int := args[0].i;
      if value < 0 {
        value := 0;
      }
      r := Amount(value, i + 1, args[1..]);
    } else {
      var v, j := ReadNumber(fmt, i);
      if v > INT_MAX {
        return NoAmount;
      }
      r := Amount(v, j, args);
    }
  }

  method ReadLength(fmt: CString, i0: nat) returns (length: int, i: nat)
    requires i0 <= |fmt|
    ensures (length, i) == LengthAt(fmt, i0)
  {
    length, i := 4, i0;
    match Char(fmt, i)
    case 'h' =>
      i := i + 1;
      if Char(fmt, i) == 'h' {
        i := i + 1;
        length := 1;
      } else {
        length := 2;
      }
    case 'l' =>
      i := i + 1;
      if Char(fmt, i) == 'l' {
        i := i + 1;
        length := 8;
      }
    case 'z' => i := i + 1;
    case 't' => i := i + 1;
    case _ =>
  }

  lemma NoWidth(fmt: string, i: nat, args: seq<Arg>)
    requires i <= |fmt| && Char(fmt, i) != '*' && !IsDigit(Char(fmt, i))
    ensures AmountAt(fmt, i, args) == Amount(0, i, args)
  {
  }

  /** Everything up to the conversion letter. */
  method ReadDirective(fmt: CString, i0: nat, args0: seq<Arg>) returns (d: Directive)
    requires i0 <= |fmt|
    ensures d == Parse(fmt, i0, args0)
  {
    hide ScanFlags, AmountAt, LengthAt;
    var flags, i := ReadFlags(fmt, i0);
    var width := Amount(0, i, args0);
    if Char(fmt, i) == '*' || IsDigit(Char(fmt, i)) {
      width := ReadAmount(fmt, i, args0);
    } else {
      NoWidth(fmt, i, args0);
    }
    if width.NoAmount? {
      return Malformed;
    }
    var precision: int := -1;
    var args := width.args;
    i := width.next;
    if Char(fmt, i) == '.' {
      var p := ReadAmount(fmt, i + 1, args);
      if p.NoAmount? {
        return Malformed;
      }
      precision, i, args := p.value, p.next, p.args;
    }
    var length;
    length, i := ReadLength(fmt, i);
    if Char(fmt, i) == '\0' {
      return Malformed;
    }
    d := Directive(flags, width.value, precision, length, Char(fmt, i), i + 1, args);
  }

  // ----- Carrying a conversion out -----

  /** How the code goes on: from index i with the arguments left and the position reached, or not at all. */
  datatype Progress = Continue(i: nat, args: seq<Arg>, pos: nat) | Halt(outcome: Outcome)

  /** The code went on as the turn says, and the buffer holds what was put out, as far as it goes. */
  ghost predicate Follows(r: Progress, t: Turn, b0: seq<char>, b: seq<char>, end: nat, out: string) {
    match t
    case Stop(o) => r == Halt(o)
    case Go(j, rest, text) => r == Continue(j, rest, |out| + |text|) && Placed(b0, b, 0, end, out + text)
  }

  lemma PlacedMore(b0: seq<char>, b1: seq<char>, b2: seq<char>, end: nat, out: string, text: string)
    requires Placed(b0, b1, 0, end, out) && Placed(b1, b2, |out|, end, text)
    ensures Placed(b0, b2, 0, end, out + text)
  {
  }

  /** What the letter of a number sets. */
  method SetFormat(d: Directive) returns (flags: Flags, base: int, precision: int)
    requires d.Directive? && IsNumeric(d.letter)
    ensures flags == FlagsOf(d.flags, d.letter) && base == BaseOf(d.letter)
    ensures precision == PrecisionOf(d.precision, d.letter)
  {
    flags, base, precision := d.flags, 10, d.precision;
    if d.letter == 'd' || d.letter == 'i' {
      flags := flags.(sign := true);
    }
    if d.letter == 'p' {
      flags := flags.(alternate := true);
      precision := if precision == -1 then 8 else precision;
    }
    if d.letter == 'p' || d.letter == 'X' {
      flags := flags.(upper := true);
    }
    if d.letter == 'p' || d.letter == 'X' || d.letter == 'x' {
      base := 16;
      flags := flags.(space := false, zeropad := true);
    }
    if precision == -1 {
      precision := 0;
    }
  }

  lemma NumberIs(d: Directive, num: Word64, base: int, precision: int, flags: Flags)
    requires d.Directive? && IsLength(d.length) && HasNumber(d.args, d.length)
    requires flags == FlagsOf(d.flags, d.letter) && base == BaseOf(d.letter)
    requires precision == PrecisionOf(d.precision, d.letter)
    requires num == NumberArg(d.args, d.length, d.letter == 'd' || d.letter == 'i')
    ensures NumberText(d) == Render(num, base, d.width, precision, flags)
    ensures NumberReach(d) == Reach(num, base, d.width, precision, flags)
    ensures |NumberText(d)| <= 0x7FFF_FFFF ==> WidthFits(num, base, d.width, precision, flags)
  {
    hide Render, Reach, FlagsOf, BaseOf, PrecisionOf, NumberArg, WidthFits;
    WidthFitsText(num, base, d.width, precision, flags);
  }

  /** d, i, u, x, X and p.  The counter for the width overflows only when there is more text than an int
      can count. */
  method PutNumber(buf: array<char>, pos: nat, end: nat, limit: nat, d: Directive, ghost t: Turn, ghost b0: seq<char>,
                   ghost out: string)
    returns (r: Progress)
    requires end <= buf.Length && Placed(b0, buf[..], 0, end, out) && pos == |out|
    requires d.Directive? && IsLength(d.length) && IsNumeric(d.letter)
    requires t == (if !HasNumber(d.args, d.length) then Stop(Undefined)
                   else if pos + NumberReach(d) > end then Stop(Diverges)
                   else Go(d.next, d.args[1..], NumberText(d)))
    requires limit <= 0x7FFF_FFFF
    modifies buf
    ensures Follows(r, Bounded(t, pos, limit), b0, buf[..], end, out)
  {
    hide Reach, Render, WidthFits, Placed, NumberText, NumberReach, NumberArg, FlagsOf, BaseOf, PrecisionOf;
    if !HasNumber(d.args, d.length) {
      return Halt(Undefined);
    }
    var flags, base, precision := SetFormat(d);
    var num := NumberArg(d.args, d.length, d.letter == 'd' || d.letter == 'i');
    NumberIs(d, num, base, precision, flags);
    ghost var b1 := buf[..];
    var p := SprintInt(buf, pos, end, num, base, d.width, precision, flags);
    if p.To? {
      PlacedMore(b0, b1, buf[..], end, out, NumberText(d));
      r := if p.pos > limit then Halt(TooLong) else Continue(d.next, d.args[1..], p.pos);
    } else {
      r := Halt(if p.Overflow? then TooLong else Diverges);
    }
  }

  /** c, which takes its argument only when there is room for it. */
  method PutChar(buf: array<char>, pos: nat, end: nat, d: Directive, ghost t: Turn, ghost b0: seq<char>,
                 ghost out: string)
    returns (r: Progress)
    requires end <= buf.Length && Placed(b0, buf[..], 0, end, out) && pos == |out|
    requires d.Directive? && IsLength(d.length)
    requires t == (if pos >= end then Go(d.next, d.args, "?")
                   else if d.args != [] && d.args[0].IntArg? then Go(d.next, d.args[1..], [CharOf(d.args[0].i)])
                   else Stop(Undefined))
    modifies buf
    ensures Follows(r, t, b0, buf[..], end, out)
  {
    var args := d.args;
    if pos < end {
      if args == [] || !args[0].IntArg? {
        return Halt(Undefined);
      }
      buf[pos] := CharOf(args[0].i);
      args := args[1..];
    }
    r := Continue(d.next, args, pos + 1);
  }

  /** s without a precision. */
  method PutString(buf: array<char>, pos0: nat, end: nat, s: CString, ghost b0: seq<char>, ghost out: string)
    returns (ends: bool, pos: nat)
    requires end <= buf.Length && Placed(b0, buf[..], 0, end, out) && pos0 == |out|
    modifies buf
    ensures ends <==> s == "" || pos0 + |s| <= end
    ensures ends <==> exists turns: nat :: DrainLoop(pos0, |s|, end, turns).1 == 0
    ensures ends ==> pos == pos0 + |s| && Placed(b0, buf[..], 0, end, out + s)
  {
    hide DrainLoop;
    DrainEnds(pos0, |s|, end);
    pos := pos0;
    var k := 0;
    while Char(s, k) != '\0'
      invariant k <= |s| && pos == pos0 + k && (k > 0 ==> pos <= end)
      invariant Placed(b0, buf[..], 0, end, out + s[..k])
      decreases |s| - k
    {
      if pos >= end {
        // s is not advanced any more
        return false, pos;
      }
      buf[pos] := Char(s, k);
      k := k + 1;
      pos := pos + 1;
    }
    assert s[..k] == s;
    ends := true;
  }

  /** s with a precision. */
  method PutPart(buf: array<char>, pos0: nat, end: nat, s: CString, precision0: nat, ghost b0: seq<char>,
                 ghost out: string) returns (pos: nat)
    requires end <= buf.Length && Placed(b0, buf[..], 0, end, out) && pos0 == |out|
    modifies buf
    ensures
      var text := StringText(s, precision0);
      var more := if text == "" || pos0 + |text| <= end then text else text + Repeat('?', precision0 - |text|);
      pos == pos0 + |more| && Placed(b0, buf[..], 0, end, out + more)
  {
    pos := pos0;
    var k, precision := 0, precision0;
    while precision > 0 && Char(s, k) != '\0'
      invariant 0 <= precision && k <= |s| && k <= precision0 - precision && pos == pos0 + (precision0 - precision)
      invariant k < precision0 - precision ==> k < |s| && pos0 + k >= end
      invariant k == 0 || pos0 + k <= end
      invariant Placed(b0, buf[..], 0, end, out + s[..k])
      decreases precision
    {
      precision := precision - 1;
      if pos < end {
        buf[pos] := Char(s, k);
        k := k + 1;
      }
      pos := pos + 1;
    }
    PartEnd(buf[..], b0, end, s, k, precision0, precision, out);
  }

  lemma PartEnd(b: seq<char>, b0: seq<char>, end: nat, s: CString, k: nat, precision0: nat, precision: nat, out: string)
    requires precision <= precision0 && k <= |s| && k <= precision0 - precision && (precision == 0 || k == |s|)
    requires k < precision0 - precision ==> k < |s| && |out| + k >= end
    requires k == 0 || |out| + k <= end
    requires Placed(b0, b, 0, end, out + s[..k])
    ensures
      var text := StringText(s, precision0);
      var more := if text == "" || |out| + |text| <= end then text else text + Repeat('?', precision0 - |text|);
      |more| == precision0 - precision && Placed(b0, b, 0, end, out + more)
  {
    var text := StringText(s, precision0);
    assert s[..k] == text[..k];
  }

  /** An unknown letter: the format is rewound to the nearest '%', which is copied. */
  method PutUnknown(buf: array<char>, pos: nat, end: nat, fmt: CString, i: nat, args: seq<Arg>, d: Directive,
                    ghost b0: seq<char>, ghost out: string)
    returns (r: Progress)
    requires end <= buf.Length && Placed(b0, buf[..], 0, end, out) && pos == |out|
    requires d.Directive? && i < |fmt| && fmt[i] == '%' && i + 1 < d.next <= |fmt| && IsLength(d.length)
    requires |d.args| <= |args|
    requires NoPercent(fmt, i + 1, d.next - 1) && d.letter == fmt[d.next - 1]
    requires !IsNumeric(d.letter) && d.letter != 'c' && d.letter != 's' && d.letter != '%'
    modifies buf
    ensures Follows(r, Converted(fmt, i, args, d, pos, end), b0, buf[..], end, out)
  {
    var j := d.next;
    while Char(fmt, j) != '%'
      invariant i <= j <= d.next && forall k :: j < k <= d.next ==> Char(fmt, k) != '%'
      decreases j
    {
      j := j - 1;
    }
    assert j == if Char(fmt, d.next) == '%' then d.next else i;
    if pos < end {
      buf[pos] := '%';
      r := Continue(j + 1, d.args, pos + 1);
    } else if j == d.next || |d.args| < |args| {
      // the format is not advanced past the '%'
      r := Continue(j, d.args, pos + 1);
    } else {
      r := Halt(Diverges);
    }
  }

  lemma WholeString(s: string)
    ensures StringText(s, -1) == s
  {
  }

  /** One conversion. */
  method Convert(buf: array<char>, pos: nat, end: nat, limit: nat, fmt: CString, i: nat, args: seq<Arg>, d: Directive,
                 ghost b0: seq<char>, ghost out: string)
    returns (r: Progress)
    requires end <= buf.Length && Placed(b0, buf[..], 0, end, out) && pos == |out|
    requires d.Directive? && i < |fmt| && fmt[i] == '%' && i + 1 < d.next <= |fmt| && IsLength(d.length)
    requires |d.args| <= |args|
    requires NoPercent(fmt, i + 1, d.next - 1) && d.letter == fmt[d.next - 1] && -1 <= d.precision
    requires limit <= 0x7FFF_FFFF
    modifies buf
    ensures Follows(r, Bounded(Converted(fmt, i, args, d, pos, end), pos, limit), b0, buf[..], end, out)
  {
    hide NumberText, NumberReach, HasNumber, StringText, CharOf, IsLength, Repeat, Placed;
    ghost var t := Converted(fmt, i, args, d, pos, end);
    if d.letter == 'd' || d.letter == 'i' || d.letter == 'u' || d.letter == 'x' || d.letter == 'X' || d.letter == 'p' {
      r := PutNumber(buf, pos, end, limit, d, t, b0, out);
    } else if d.letter == 'c' {
      r := PutChar(buf, pos, end, d, t, b0, out);
    } else if d.letter == 's' {
      if d.args == [] || !d.args[0].StrArg? {
        return Halt(Undefined);
      }
      var s := d.args[0].s;
      if d.precision == -1 {
        var ends, pos' := PutString(buf, pos, end, s, b0, out);
        r := if ends then Continue(d.next, d.args[1..], pos') else Halt(Diverges);
        WholeString(s);
      } else {
        var pos' := PutPart(buf, pos, end, s, d.precision, b0, out);
        r := Continue(d.next, d.args[1..], pos');
      }
    } else if d.letter == '%' {
      var pos' := BufAdd(buf, pos, end, '%', b0, 0, out);
      r := Continue(d.next, d.args, pos');
    } else {
      r := PutUnknown(buf, pos, end, fmt, i, args, d, b0, out);
    }
    if r.Continue? && r.pos > limit {
      r := Halt(TooLong);
    }
  }

  // ----- The whole call -----

  lemma BeforeBefore(a: string, b: string, o: Outcome)
    ensures Before(a, Before(b, o)) == Before(a + b, o) && Before("", o) == o
  {
    if o.Done? {
      assert a + (b + o.text) == a + b + o.text && "" + o.text == o.text;
    }
  }

  lemma RunOver(fmt: string, args: seq<Arg>, pos: nat, end: nat, limit: nat)
    ensures Run(fmt, |fmt|, args, pos, end, limit) == Done("", args)
  {
  }

  /** What vsnprintf returns: a ssize_t; nothing ever; or nothing that can be relied on, because there is
      too much text or the call is outside the contract. */
  datatype Returned = Length(n: Int32) | NoReturn | Overlong | Misuse

  /** How many characters can be counted from a buffer at address start on: the result is a ssize_t, and
      no address is larger than 2^32 - 1. */
  function CountLimit(start: nat): (limit: int)
    ensures limit == if start <= 0x8000_0000 then 0x7FFF_FFFF else 0xFFFF_FFFF - start
  {
    Min(INT_MAX, 0xFFFF_FFFF - start)
  }

  /** The buffer after a call: the first characters of the text and a terminator, within size, and
      nothing else changed. */
  ghost predicate Written(b0: seq<char>, b: seq<char>, size: nat, text: string) {
    |b| == |b0| && size <= |b| &&
    forall j :: 0 <= j < |b| ==>
      b[j] == if j >= size || j > |text| then (if j == size - 1 then '\0' else b0[j])
              else if j < |text| && j < size - 1 then text[j] else '\0'
  }

  /** The terminator after the text, and the one at the end of the buffer. */
  method Terminate(buf: array<char>, pos0: nat, size: nat, ghost b0: seq<char>, ghost out: string) returns (pos: nat)
    requires size <= buf.Length && Placed(b0, buf[..], 0, size, out) && pos0 == |out|
    modifies buf
    ensures Written(b0, buf[..], size, out) && pos == |out| + 1
  {
    pos := BufAdd(buf, pos0, size, '\0', b0, 0, out);
    if size > 0 {
      buf[size - 1] := '\0';
    }
  }

  lemma WrittenSame(b0: seq<char>, b: seq<char>, size: nat, text': string, text: string)
    requires Written(b0, b, size, text') && Alike(text', text, 0, size)
    ensures Written(b0, b, size, text)
  {
  }

  /** The string in the buffer is the text, or the first size - 1 characters of it. */
  lemma WrittenIs(b0: seq<char>, b: seq<char>, size: nat, text: string)
    requires Written(b0, b, size, text)
    ensures |b| == |b0| && forall j :: size <= j < |b| ==> b[j] == b0[j]
    ensures size > 0 ==>
      var n := if |text| < size then |text| else size - 1;
      n < |b| && b[..n] == text[..n] && b[n] == '\0'
  {
  }

  /** The body of vsnprintf, as its run says, when at most limit characters can be counted. */
  method PutFormat(buf: array<char>, limit: nat, size: nat, fmt: CString, args0: seq<Arg>) returns (r: Returned)
    requires size <= buf.Length && limit <= 0x7FFF_FFFF
    modifies buf
    ensures match Run(fmt, 0, args0, 0, size, limit)
      case Done(text, _) => r.Length? && r.n == |text| && Written(old(buf[..]), buf[..], size, text)
      case Diverges => r == NoReturn
      case TooLong => r == Overlong
      case Undefined => r == Misuse
  {
    hide *;
    var i, args, pos := 0, args0, 0;
    ghost var b0 := buf[..];
    ghost var out := "";
    NothingPlaced(b0, 0, size);
    BeforeBefore("", "", Run(fmt, 0, args, 0, size, limit));
    while i < |fmt|
      invariant i <= |fmt| && pos == |out| <= limit && Placed(b0, buf[..], 0, size, out)
      invariant Before(out, Run(fmt, i, args, pos, size, limit)) == Run(fmt, 0, args0, 0, size, limit)
      decreases |fmt| - i, |args|
    {
      BeforeStop(out, Run(fmt, i, args, pos, size, limit));
      if fmt[i] != '%' {
        RunLiteral(fmt, i, args, pos, size, limit);
        if pos + 1 > limit {
          return Overlong;
        }
        BeforeBefore(out, [fmt[i]], Run(fmt, i + 1, args, pos + 1, size, limit));
        pos := BufAdd(buf, pos, size, fmt[i], b0, 0, out);
        out := out + [fmt[i]];
        i := i + 1;
      } else {
        RunConversion(fmt, i, args, pos, size, limit);
        var d := ReadDirective(fmt, i + 1, args);
        if d.Malformed? {
          return Misuse;
        }
        ghost var t := Bounded(Converted(fmt, i, args, d, pos, size), pos, limit);
        var p := Convert(buf, pos, size, limit, fmt, i, args, d, b0, out);
        FollowsCases(p, t, b0, buf[..], size, out);
        if p.Halt? {
          return if p.outcome.Diverges? then NoReturn else if p.outcome.TooLong? then Overlong else Misuse;
        }
        BeforeBefore(out, t.text, Run(fmt, t.i, t.args, pos + |t.text|, size, limit));
        i, args, pos := p.i, p.args, p.pos;
        out := out + t.text;
      }
    }
    RunOver(fmt, args, pos, size, limit);
    BeforeDone(out, args);
    pos := Terminate(buf, pos, size, b0, out);
    r := Length(pos - 1);
  }

  /** vsnprintf, with a buffer at address start.  Beyond what its run says: for a complete format of known
      conversions, it returns the length of the full text exactly when the buffer has the size needed and
      the text can be counted, and then it leaves the full text in the buffer, as far as it fits, with a
      terminator. */
  method VSNPrintf(buf: array<char>, start: nat, size: nat, fmt: CString, args0: seq<Arg>) returns (r: Returned)
    requires size <= buf.Length && start + size <= 0xFFFF_FFFF
    modifies buf
    ensures match Run(fmt, 0, args0, 0, size, CountLimit(start))
      case Done(text, _) => r.Length? && r.n == |text| && Written(old(buf[..]), buf[..], size, text)
      case Diverges => r == NoReturn
      case TooLong => r == Overlong
      case Undefined => r == Misuse
    ensures r.Length? ==> forall j :: size <= j < buf.Length ==> buf[j] == old(buf[j])
    ensures Full(fmt, 0, args0).Done? ==>
      var text := Full(fmt, 0, args0).text;
      && (r.Length? && r.n == |text| <==> Need(fmt, 0, args0, 0) <= size && |text| <= CountLimit(start))
      && (r.Length? && r.n == |text| ==> Written(old(buf[..]), buf[..], size, text))
      && (r.Length? && r.n == |text| && size > 0 ==>
            var n := if |text| < size then |text| else size - 1;
            buf[..n] == text[..n] && buf[n] == '\0')
  {
    hide *;
    ghost var b0, o := buf[..], Run(fmt, 0, args0, 0, size, CountLimit(start));
    r := PutFormat(buf, CountLimit(start), size, fmt, args0);
    if Full(fmt, 0, args0).Done? {
      LengthLaw(fmt, 0, args0, 0, size, CountLimit(start));
      if o.Done? && |o.text| == |Full(fmt, 0, args0).text| {
        WrittenSame(b0, buf[..], size, o.text, Full(fmt, 0, args0).text);
        WrittenIs(b0, buf[..], size, Full(fmt, 0, args0).text);
      }
    }
    if o.Done? {
      WrittenIs(b0, buf[..], size, o.text);
    }
  }

  lemma FollowsCases(r: Progress, t: Turn, b0: seq<char>, b: seq<char>, end: nat, out: string)
    requires Follows(r, t, b0, b, end, out)
    ensures r.Halt? ==> t == Stop(r.outcome)
    ensures r.Continue? ==> t.Go? && r == Continue(t.i, t.args, |out| + |t.text|) && Placed(b0, b, 0, end, out + t.text)
  {
  }

  lemma BeforeStop(out: string, o: Outcome)
    ensures !o.Done? ==> Before(out, o) == o
  {
  }

  lemma BeforeDone(out: string, args: seq<Arg>)
    ensures Before(out, Done("", args)) == Done(out, args)
  {
  }
}
