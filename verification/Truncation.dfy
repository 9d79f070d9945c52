/** When vsnprintf keeps the promise of printf.c:180-182: it returns the length of the full text, and the
    buffer holds as much of it as fits.  Only what the caller sees is compared: a `%c` that finds no room
    keeps the promise, unless its argument is still wanted. */
module Truncation {
  import opened CStrings
  import opened Printf
  import opened Format

  /** Some conversion from index i on takes a string (or, with numbers, a number). */
  predicate Wants(fmt: string, i: nat, args: seq<Arg>, numbers: bool)
    requires i <= |fmt|
    decreases |fmt| - i
  {
    if i == |fmt| then false
    else if fmt[i] != '%' then Wants(fmt, i + 1, args, numbers)
    else
      var d := Parse(fmt, i + 1, args);
      if d.Malformed? || ConversionText(d).Stop? then false
      else d.letter == 's' || (numbers && IsNumeric(d.letter)) || Wants(fmt, d.next, ConversionText(d).args, numbers)
  }

  /** The size that conversion d at pos must find: a `%c` only when a `%s` follows, which would be given
      the wrong argument. */
  function NeedBy(fmt: string, d: Directive, pos: nat): nat
    requires d.Directive? && IsLength(d.length) && ConversionText(d).Go? && d.next <= |fmt|
  {
    if d.letter != 'c' then NeededBy(d, pos)
    else if Wants(fmt, d.next, ConversionText(d).args, false) then pos + 1
    else 0
  }

  /** The size that the format from index i on must find, when pos characters stand before its text. */
  function Need(fmt: string, i: nat, args: seq<Arg>, pos: nat): nat
    requires i <= |fmt|
    decreases |fmt| - i
  {
    if i == |fmt| then 0
    else if fmt[i] != '%' then Need(fmt, i + 1, args, pos + 1)
    else
      var d := Parse(fmt, i + 1, args);
      if d.Malformed? || ConversionText(d).Stop? then 0
      else Max(NeedBy(fmt, d, pos), Need(fmt, d.next, ConversionText(d).args, pos + |ConversionText(d).text|))
  }

  // ----- After a %c that found no room -----

  predicate Ints(args: seq<Arg>) {
    forall k :: 0 <= k < |args| ==> args[k].IntArg?
  }

  /** With ints in front of its arguments, a conversion's '*'s take from them. */
  lemma AmountShift(fmt: string, i: nat, ints: seq<Arg>, args: seq<Arg>) returns (ints': seq<Arg>)
    requires i <= |fmt| && ints != [] && Ints(ints) && AmountAt(fmt, i, args).Amount?
    ensures var a, b := AmountAt(fmt, i, args), AmountAt(fmt, i, ints + args);
      b.Amount? && b.next == a.next && b.args == ints' + a.args && ints' != [] && Ints(ints')
  {
    if Char(fmt, i) == '*' {
      ints' := ints[1..] + [args[0]];
      assert (ints + args)[1..] == ints' + args[1..];
    } else {
      ints' := ints;
    }
  }

  lemma ParseShift(fmt: string, i: nat, ints: seq<Arg>, args: seq<Arg>) returns (ints': seq<Arg>)
    requires i <= |fmt| && ints != [] && Ints(ints) && Parse(fmt, i, args).Directive?
    ensures var d, d' := Parse(fmt, i, args), Parse(fmt, i, ints + args);
      && d'.Directive? && d'.next == d.next && d'.letter == d.letter && d'.length == d.length
      && d'.args == ints' + d.args && ints' != [] && Ints(ints')
  {
    hide ScanFlags, AmountAt, LengthAt, Ints;
    var j := ScanFlags(fmt, i, NO_FLAGS).1;
    ints' := AmountShift(fmt, j, ints, args);
    var a := AmountAt(fmt, j, args);
    if Char(fmt, a.next) == '.' {
      ints' := AmountShift(fmt, a.next + 1, ints', a.args);
    }
  }

  /** A conversion that finds ints in front of its arguments and no room: a `%c` adds one more, and a
      number or a string is the end. */
  lemma ShiftedTurn(fmt: string, i: nat, args: seq<Arg>, d: Directive, d': Directive, ints: seq<Arg>, pos: nat,
                    end: nat)
    returns (ints': seq<Arg>)
    requires d.Directive? && IsLength(d.length) && ConversionText(d).Go? && i < d.next <= |fmt|
    requires d'.Directive? && d'.next == d.next && d'.letter == d.letter && d'.length == d.length && |d'.args| <= |args|
    requires ints != [] && Ints(ints) && d'.args == ints + d.args && pos >= end
    ensures var t, c := Converted(fmt, i, args, d', pos, end), ConversionText(d);
      if d.letter == 's' || IsNumeric(d.letter) then t.Stop?
      else t.Go? && t.i == d.next && |t.text| == |c.text| == 1 && t.args == ints' + c.args && ints' != [] && Ints(ints')
  {
    hide NumberText, NumberReach, NumberArg, StringText;
    ints' := ints;
    if IsNumeric(d.letter) {
      if HasNumber(d'.args, d'.length) {
        NumberReaches(d');
      }
    } else if d.letter == 'c' {
      ints' := ints + [d.args[0]];
      assert d'.args == ints' + d.args[1..];
    }
  }

  lemma NumberReaches(d: Directive)
    requires d.Directive? && HasNumber(d.args, d.length) && IsLength(d.length)
    ensures NumberReach(d) > 0
  {
    hide Render, Reach, NumberArg, FlagsOf, BaseOf, PrecisionOf;
    ReachFits(NumberArg(d.args, d.length, IsSigned(d.letter)), BaseOf(d.letter), d.width,
              PrecisionOf(d.precision, d.letter),
              FlagsOf(d.flags, d.letter));
  }

  /** Past the end and behind with its arguments, the run returns exactly when nothing but literal text
      and `%c` follows and this can be counted, and then it has counted all of it. */
  lemma {:induction false} Shifted(fmt: string, i: nat, ints: seq<Arg>, args: seq<Arg>, pos: nat, end: nat,
                                   limit: nat)
    requires i <= |fmt| && ints != [] && Ints(ints) && end <= pos <= limit && Full(fmt, i, args).Done?
    ensures Run(fmt, i, ints + args, pos, end, limit).Done?
      <==> !Wants(fmt, i, args, true) && pos + |Full(fmt, i, args).text| <= limit
    ensures Run(fmt, i, ints + args, pos, end, limit).Done? ==>
      |Run(fmt, i, ints + args, pos, end, limit).text| == |Full(fmt, i, args).text|
    decreases |fmt| - i
  {
    hide *;
    if i == |fmt| {
      AtEnd(fmt, ints + args, pos, end, limit);
      AtEnd(fmt, args, pos, end, limit);
      WantsStep(fmt, i, args, true);
    } else if fmt[i] != '%' {
      FullLiteral(fmt, i, args, pos);
      RunLiteral(fmt, i, ints + args, pos, end, limit);
      WantsStep(fmt, i, args, true);
      if pos + 1 <= limit {
        Shifted(fmt, i + 1, ints, args, pos + 1, end, limit);
        BeforeParts([fmt[i]], Run(fmt, i + 1, ints + args, pos + 1, end, limit));
      }
    } else {
      var d, c := FullConversion(fmt, i, args, pos);
      var ints1 := ParseShift(fmt, i + 1, ints, args);
      var d' := Parse(fmt, i + 1, ints + args);
      RunConversion(fmt, i, ints + args, pos, end, limit);
      WantsStep(fmt, i, args, true);
      var ints2 := ShiftedTurn(fmt, i, ints + args, d, d', ints1, pos, end);
      var t := Converted(fmt, i, ints + args, d', pos, end);
      BoundedCases(t, pos, limit);
      if t.Go? && pos + |t.text| <= limit {
        Shifted(fmt, d.next, ints2, c.args, pos + |c.text|, end, limit);
        BeforeParts(t.text, Run(fmt, t.i, t.args, pos + |t.text|, end, limit));
      }
    }
  }

  lemma WantsStep(fmt: string, i: nat, args: seq<Arg>, numbers: bool)
    requires i <= |fmt|
    ensures i == |fmt| ==> !Wants(fmt, i, args, numbers)
    ensures i < |fmt| && fmt[i] != '%' ==> Wants(fmt, i, args, numbers) == Wants(fmt, i + 1, args, numbers)
    ensures i < |fmt| && fmt[i] == '%' ==>
      var d := Parse(fmt, i + 1, args);
      d.Directive? && ConversionText(d).Go? ==>
        var rest := Wants(fmt, d.next, ConversionText(d).args, numbers);
        Wants(fmt, i, args, numbers) == (d.letter == 's' || (numbers && IsNumeric(d.letter)) || rest)
  {
    hide Parse, ConversionText;
  }

  /** Past the end, what follows needs more room exactly when a number or a string with a need follows. */
  lemma {:induction false} NeedPast(fmt: string, i: nat, args: seq<Arg>, pos: nat, end: nat)
    requires i <= |fmt| && pos >= end && Full(fmt, i, args).Done? && !Wants(fmt, i, args, false)
    ensures Need(fmt, i, args, pos) <= end <==> !Wants(fmt, i, args, true)
    decreases |fmt| - i
  {
    hide ConversionText, Parse, NumberReach;
    if i < |fmt| {
      if fmt[i] != '%' {
        NeedPast(fmt, i + 1, args, pos + 1, end);
      } else {
        var d := Parse(fmt, i + 1, args);
        var c := ConversionText(d);
        NeedsRoom(d, pos);
        NeedPast(fmt, d.next, c.args, pos + |c.text|, end);
      }
    }
  }

  lemma NeedsRoom(d: Directive, pos: nat)
    requires d.Directive? && IsLength(d.length) && ConversionText(d).Go?
    ensures IsNumeric(d.letter) ==> NeededBy(d, pos) > pos
    ensures d.letter == '%' ==> NeededBy(d, pos) == 0
    ensures IsNumeric(d.letter) || d.letter == 's' || d.letter == 'c' || d.letter == '%'
  {
    hide NumberText, NumberReach;
    if IsNumeric(d.letter) {
      NumberReaches(d);
    }
  }

  // ----- The law -----

  /** As long, and the same below index end of the buffer, for texts that start at pos. */
  ghost predicate Alike(text': string, text: string, pos: nat, end: nat) {
    |text'| == |text| && forall j :: 0 <= j < |text| && pos + j < end ==> text'[j] == text[j]
  }

  lemma AlikeAfter(front: string, text': string, text: string, pos: nat, end: nat)
    requires Alike(text', text, pos + |front|, end)
    ensures Alike(front + text', front + text, pos, end)
  {
  }

  /** The turns of a conversion given its own arguments: its text; or one argument left behind by a `%c`
      past the end; or a string counted too long; or none at all. */
  lemma TurnCases(fmt: string, i: nat, args: seq<Arg>, d: Directive, pos: nat, end: nat)
    requires d.Directive? && i < d.next <= |fmt| && IsLength(d.length)
    requires |d.args| <= |args| && -1 <= d.precision && ConversionText(d).Go?
    ensures var t, c := Converted(fmt, i, args, d, pos, end), ConversionText(d);
      if NeededBy(d, pos) <= end then t == c
      else if d.letter == 'c' then
        && t == Go(d.next, d.args, "?") && pos >= end && |c.text| == 1
        && d.args == [d.args[0]] + c.args && Ints([d.args[0]])
      else t == Stop(Diverges) || (t.Go? && t.i == d.next && t.args == c.args && |t.text| > |c.text|)
  {
    TurnLaw(fmt, i, args, d, pos, end);
    hide NumberText, NumberReach;
  }

  /** Given its own arguments, a run that returns counts no less than the full text. */
  lemma {:induction false} AtLeast(fmt: string, i: nat, args: seq<Arg>, pos: nat, end: nat, limit: nat)
    requires i <= |fmt| && Full(fmt, i, args).Done?
    ensures var r := Run(fmt, i, args, pos, end, limit);
      r.Done? ==> |r.text| >= |Full(fmt, i, args).text|
    decreases |fmt| - i
  {
    hide *;
    if i == |fmt| {
      AtEnd(fmt, args, pos, end, limit);
    } else if fmt[i] != '%' {
      FullLiteral(fmt, i, args, pos);
      RunLiteral(fmt, i, args, pos, end, limit);
      if pos + 1 <= limit {
        AtLeast(fmt, i + 1, args, pos + 1, end, limit);
        BeforeParts([fmt[i]], Run(fmt, i + 1, args, pos + 1, end, limit));
      }
    } else {
      var d, c := FullConversion(fmt, i, args, pos);
      RunConversion(fmt, i, args, pos, end, limit);
      TurnCases(fmt, i, args, d, pos, end);
      var t := Converted(fmt, i, args, d, pos, end);
      BoundedCases(t, pos, limit);
      if t.Go? && pos + |t.text| <= limit {
        if NeededBy(d, pos) > end && d.letter == 'c' {
          Shifted(fmt, d.next, [d.args[0]], c.args, pos + 1, end, limit);
        } else {
          AtLeast(fmt, d.next, c.args, pos + |t.text|, end, limit);
        }
        BeforeParts(t.text, Run(fmt, t.i, t.args, pos + |t.text|, end, limit));
      }
    }
  }

  /** The law: the run counts the length of the full text exactly when the buffer has the size needed and
      the text can be counted, and then it puts out the full text as far as there is room. */
  lemma {:induction false} LengthLaw(fmt: string, i: nat, args: seq<Arg>, pos: nat, end: nat, limit: nat)
    requires i <= |fmt| && pos <= limit && Full(fmt, i, args).Done?
    ensures var r, f := Run(fmt, i, args, pos, end, limit), Full(fmt, i, args);
      && (r.Done? && |r.text| == |f.text| <==> Need(fmt, i, args, pos) <= end && pos + |f.text| <= limit)
      && (r.Done? && |r.text| == |f.text| ==> Alike(r.text, f.text, pos, end))
    decreases |fmt| - i
  {
    hide *;
    if i == |fmt| {
      AtEnd(fmt, args, pos, end, limit);
      AlikeNothing(fmt, args, pos, end);
    } else if fmt[i] != '%' {
      FullLiteral(fmt, i, args, pos);
      RunLiteral(fmt, i, args, pos, end, limit);
      NeedLiteral(fmt, i, args, pos);
      if pos + 1 <= limit {
        LengthLaw(fmt, i + 1, args, pos + 1, end, limit);
        LawAfter([fmt[i]], Run(fmt, i + 1, args, pos + 1, end, limit), Full(fmt, i + 1, args), pos, end);
      }
    } else {
      var d, c := FullConversion(fmt, i, args, pos);
      RunConversion(fmt, i, args, pos, end, limit);
      NeedConversion(fmt, i, args, pos);
      TurnCases(fmt, i, args, d, pos, end);
      var t := Converted(fmt, i, args, d, pos, end);
      BoundedCases(t, pos, limit);
      if t.Go? && pos + |t.text| <= limit {
        if NeededBy(d, pos) <= end {
          LengthLaw(fmt, d.next, c.args, pos + |c.text|, end, limit);
          LawAfter(c.text, Run(fmt, d.next, c.args, pos + |c.text|, end, limit), Full(fmt, d.next, c.args), pos, end);
        } else if d.letter == 'c' {
          CharPast(fmt, d.next, d.args[0], c.args, c.text, pos, end, limit);
        } else {
          AtLeast(fmt, d.next, c.args, pos + |t.text|, end, limit);
          BeforeParts(t.text, Run(fmt, d.next, c.args, pos + |t.text|, end, limit));
        }
      }
    }
  }

  lemma AlikeNothing(fmt: string, args: seq<Arg>, pos: nat, end: nat)
    ensures Alike("", "", pos, end) && Need(fmt, |fmt|, args, pos) == 0
  {
  }

  lemma NeedLiteral(fmt: string, i: nat, args: seq<Arg>, pos: nat)
    requires i < |fmt| && fmt[i] != '%'
    ensures Need(fmt, i, args, pos) == Need(fmt, i + 1, args, pos + 1)
  {
  }

  lemma NeedConversion(fmt: string, i: nat, args: seq<Arg>, pos: nat)
    requires i < |fmt| && fmt[i] == '%' && Parse(fmt, i + 1, args).Directive?
    ensures var d := Parse(fmt, i + 1, args);
      ConversionText(d).Go? ==>
        var c := ConversionText(d);
        var n, m := NeedBy(fmt, d, pos), Need(fmt, d.next, c.args, pos + |c.text|);
        && Need(fmt, i, args, pos) == (if n < m then m else n)
        && (d.letter != 'c' ==> n == NeededBy(d, pos))
        && (d.letter == 'c' ==> n == (if Wants(fmt, d.next, c.args, false) then pos + 1 else 0))
        && (d.letter == 'c' ==> NeededBy(d, pos) == pos + 1)
  {
    hide Parse, Wants;
  }

  lemma LawAfter(front: string, r: Outcome, f: Outcome, pos: nat, end: nat)
    requires f.Done?
    requires r.Done? && |r.text| == |f.text| ==> Alike(r.text, f.text, pos + |front|, end)
    ensures var r', f' := Before(front, r), Before(front, f);
      && (r'.Done? && |r'.text| == |f'.text| <==> r.Done? && |r.text| == |f.text|)
      && (r'.Done? && |r'.text| == |f'.text| ==> Alike(r'.text, f'.text, pos, end))
  {
    hide Alike;
    if r.Done? && |r.text| == |f.text| {
      AlikeAfter(front, r.text, f.text, pos, end);
    }
  }

  /** A `%c` past the end keeps the law exactly when no string and no number follows. */
  lemma CharPast(fmt: string, i: nat, arg: Arg, args: seq<Arg>, text: string, pos: nat, end: nat, limit: nat)
    requires i <= |fmt| && Ints([arg]) && |text| == 1 && end <= pos < limit && Full(fmt, i, args).Done?
    ensures var r, f := Before("?", Run(fmt, i, [arg] + args, pos + 1, end, limit)), Before(text, Full(fmt, i, args));
      var need := if Wants(fmt, i, args, false) then pos + 1 else 0;
      && (r.Done? && |r.text| == |f.text|
          <==> need <= end && Need(fmt, i, args, pos + 1) <= end && pos + |f.text| <= limit)
      && (r.Done? && |r.text| == |f.text| ==> Alike(r.text, f.text, pos, end))
  {
    hide Run, Full, Need, Wants, Ints;
    Shifted(fmt, i, [arg], args, pos + 1, end, limit);
    if Wants(fmt, i, args, false) {
      StringIsWanted(fmt, i, args);
    } else {
      NeedPast(fmt, i, args, pos + 1, end);
    }
  }

  lemma {:induction false} StringIsWanted(fmt: string, i: nat, args: seq<Arg>)
    requires i <= |fmt| && Wants(fmt, i, args, false)
    ensures Wants(fmt, i, args, true)
    decreases |fmt| - i
  {
    hide ConversionText, Parse;
    if fmt[i] != '%' {
      StringIsWanted(fmt, i + 1, args);
    } else {
      var d := Parse(fmt, i + 1, args);
      if d.letter != 's' {
        StringIsWanted(fmt, d.next, ConversionText(d).args);
      }
    }
  }

  /** The number 5 in a width of 2^31 - 1, and two more characters. */
  const LONG_FORMAT := "%-2147483647dab"

  /** Size 10 is enough for all that Need asks for here; but the text has 2^31 + 1 characters, more than a
      ssize_t can tell. */
  lemma LengthOverflows(limit: nat)
    requires limit <= INT_MAX
    ensures var args := [IntArg(5)];
      && Full(LONG_FORMAT, 0, args).Done? && |Full(LONG_FORMAT, 0, args).text| == 0x8000_0001
      && Need(LONG_FORMAT, 0, args, 0) == 1 && Run(LONG_FORMAT, 0, args, 0, 10, limit) == TooLong
  {
    hide Parse, ConversionText, Converted, NumberReach;
    var args := [IntArg(5)];
    var text := LongNumber();
    LongTail(limit);
  }

  lemma LongNumber() returns (text: string)
    ensures |text| == 0x7FFF_FFFF
    ensures var args, d := [IntArg(5)], Parse(LONG_FORMAT, 1, [IntArg(5)]);
      && d.Directive? && d.next == 13 && IsLength(d.length) && d.letter == 'd' && d.args == args
      && ConversionText(d) == Converted(LONG_FORMAT, 0, args, d, 0, 10) == Go(13, [], text)
      && NumberReach(d) == 1
  {
    hide ScanFlags, ScanNumber, Extend, Render, Reach;
    var d := Parse(LONG_FORMAT, 1, [IntArg(5)]);
    LargestWidth();
    assert d == Directive(NO_FLAGS.(left := true), INT_MAX, -1, 4, 'd', 13, [IntArg(5)]);
    FiveLeft(NO_FLAGS.(left := true, sign := true));
    text := NumberText(d);
  }

  lemma LongTail(limit: nat)
    requires limit <= INT_MAX
    ensures Full(LONG_FORMAT, 13, []) == Done("ab", [])
    ensures Need(LONG_FORMAT, 13, [], INT_MAX) == 0
    ensures limit == INT_MAX ==> Run(LONG_FORMAT, 13, [], INT_MAX, 10, limit) == TooLong
  {
    hide Parse, ConversionText, Converted;
    assert Full(LONG_FORMAT, 15, []) == Done("", []) && Need(LONG_FORMAT, 15, [], INT_MAX + 2) == 0;
    assert Full(LONG_FORMAT, 14, []) == Done("b", []) && Need(LONG_FORMAT, 14, [], INT_MAX + 1) == 0;
  }

  lemma LargestWidth()
    ensures ScanFlags(LONG_FORMAT, 1, NO_FLAGS) == (NO_FLAGS.(left := true), 2)
    ensures ScanNumber(LONG_FORMAT, 2, 0) == (INT_MAX, 12)
  {
    assert ScanNumber(LONG_FORMAT, 12, INT_MAX) == (INT_MAX, 12);
    assert ScanNumber(LONG_FORMAT, 10, 21474836) == (INT_MAX, 12);
    assert ScanNumber(LONG_FORMAT, 8, 214748) == (INT_MAX, 12);
    assert ScanNumber(LONG_FORMAT, 6, 2147) == (INT_MAX, 12);
    assert ScanNumber(LONG_FORMAT, 4, 21) == (INT_MAX, 12);
  }

  lemma FiveLeft(flags: Flags)
    requires flags == NO_FLAGS.(left := true, sign := true)
    ensures Extend(5, 4, true) == 5
    ensures |Render(5, 10, INT_MAX, 0, flags)| == INT_MAX && Reach(5, 10, INT_MAX, 0, flags) == 1
  {
    hide Render;
    assert NatText(0, 10, false) == "";
    RenderLength(5, 10, INT_MAX, 0, flags);
  }

  /** The size of the whole text is always enough. */
  lemma {:induction false} NeedWithin(fmt: string, i: nat, args: seq<Arg>, pos: nat)
    requires i <= |fmt|
    ensures Need(fmt, i, args, pos) <= Needed(fmt, i, args, pos)
    decreases |fmt| - i
  {
    hide ConversionText, NeededBy, Parse, Wants;
    if i < |fmt| {
      if fmt[i] != '%' {
        NeedWithin(fmt, i + 1, args, pos + 1);
      } else {
        var d := Parse(fmt, i + 1, args);
        if d.Directive? && ConversionText(d).Go? {
          NeedConversion(fmt, i, args, pos);
          NeedWithin(fmt, d.next, ConversionText(d).args, pos + |ConversionText(d).text|);
        }
      }
    }
  }
}
