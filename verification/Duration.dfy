/** Durations as text: the printer and the parser, whose arithmetic is on 32 bits. */
module Duration {

  const WORD := 0x1_0000_0000
  const MINUTE := 60
  const HOUR := 3600
  const DAY := 86400

  predicate IsDigit(c: char) {
    '0' <= c <= '9'
  }

  function DigitChar(d: nat): (c: char)
    requires d < 10
    ensures IsDigit(c) && c as int - '0' as int == d
  {
    ('0' as int + d) as char
  }

  /** A number in decimal. */
  function Digits(n: nat): (r: string)
    ensures r != []
  {
    if n < 10 then [DigitChar(n)] else Digits(n / 10) + [DigitChar(n % 10)]
  }

  /** A part of the text: a number and its unit, or nothing. */
  function Part(shown: bool, n: nat, unit: string): string {
    if shown then Digits(n) + unit else []
  }

  /** Days, hours, minutes and seconds, leaving out zeros but never everything. */
  function TextOf(days: nat, hours: nat, minutes: nat, secs: nat, short: bool, hoursOnly: bool): string {
    Part(days > 0, days, if short then "d" else " Day(s) ")
    + Part(hours > 0 || hoursOnly, hours, if short then "h" else " Hour(s) ")
    + Part(!hoursOnly && minutes > 0, minutes, if short then "m" else " Minute(s) ")
    + Part(!hoursOnly && (secs > 0 || (days == 0 && hours == 0 && minutes == 0)), secs, if short then "s" else " Second(s).")
  }

  function TimeString(t: nat, short: bool, hoursOnly: bool): string {
    TextOf(t / DAY, t % DAY / HOUR, t % HOUR / MINUTE, t % MINUTE, short, hoursOnly)
  }

  method SecsToTimeString(t: nat, short: bool, hoursOnly: bool) returns (text: string)
    ensures text == TimeString(t, short, hoursOnly)
  {
    hide Digits;
    var secs, minutes, hours, days := t % MINUTE, t % HOUR / MINUTE, t % DAY / HOUR, t / DAY;
    text := [];
    if days > 0 {
      text := text + (Digits(days) + if short then "d" else " Day(s) ");
    }
    assert text == Part(days > 0, days, if short then "d" else " Day(s) ");
    ghost var first := text;
    if hours > 0 || hoursOnly {
      text := text + (Digits(hours) + if short then "h" else " Hour(s) ");
    }
    assert text == first + Part(hours > 0 || hoursOnly, hours, if short then "h" else " Hour(s) ");
    ghost var second := text;
    if !hoursOnly && minutes > 0 {
      text := text + (Digits(minutes) + if short then "m" else " Minute(s) ");
    }
    assert text == second + Part(!hoursOnly && minutes > 0, minutes, if short then "m" else " Minute(s) ");
    ghost var third := text;
    if !hoursOnly && (secs > 0 || (days == 0 && hours == 0 && minutes == 0)) {
      text := text + (Digits(secs) + if short then "s" else " Second(s).");
    }
    assert text == third + Part(!hoursOnly && (secs > 0 || (days == 0 && hours == 0 && minutes == 0)), secs,
                                if short then "s" else " Second(s).");
  }

  /** Seconds per unit; 0 for a character that is no unit. */
  function Multiplier(c: char): nat {
    if c == 'd' then DAY else if c == 'h' then HOUR else if c == 'm' then MINUTE else if c == 's' then 1 else 0
  }

  /** The rest of a text, read with some seconds already found and a number under way. */
  function Parse(text: string, secs: nat, buffer: nat): nat
    decreases |text|
  {
    if text == [] then secs
    else if IsDigit(text[0]) then
      Parse(text[1..], secs, (buffer * 10 % WORD + (text[0] as int - '0' as int)) % WORD)
    else if Multiplier(text[0]) == 0 then 0
    else Parse(text[1..], (secs + buffer * Multiplier(text[0]) % WORD) % WORD, 0)
  }

  method TimeStringToSecs(text: string) returns (secs: nat)
    ensures secs == Parse(text, 0, 0)
  {
    secs := 0;
    var buffer, i := 0, 0;
    assert text[0..] == text;
    while i < |text|
      invariant 0 <= i <= |text| && buffer >= 0
      invariant Parse(text[i..], secs, buffer) == Parse(text, 0, 0)
    {
      assert text[i..][1..] == text[i + 1..];
      if IsDigit(text[i]) {
        buffer := buffer * 10 % WORD;
        buffer := (buffer + (text[i] as int - '0' as int)) % WORD;
      } else {
        var multiplier := Multiplier(text[i]);
        if multiplier == 0 {
          return 0;
        }
        buffer := buffer * multiplier % WORD;
        secs := (secs + buffer) % WORD;
        buffer := 0;
      }
      i := i + 1;
    }
    assert text[i..] == [];
  }

  // ---------------------------------------------------------------- 32-bit arithmetic

  lemma DropMultiples(a: int, q: int)
    ensures (a + WORD * q) % WORD == a % WORD
  {
  }

  lemma ModTimes(x: nat, m: nat)
    ensures (x % WORD) * m % WORD == x * m % WORD
  {
    var q, r := x / WORD, x % WORD;
    Expand(q, r, m);
    DropMultiples(r * m, q * m);
  }

  lemma Expand(q: nat, r: nat, m: nat)
    ensures (WORD * q + r) * m == r * m + WORD * (q * m)
  {
  }

  lemma NextDigit(n: nat)
    ensures (n / 10 % WORD * 10 % WORD + n % 10) % WORD == n % WORD
  {
    var x := n / 10;
    ModTimes(x, 10);
    var y := x * 10;
    assert n == y + n % 10;
    DropMultiples(y % WORD + n % 10, y / WORD);
  }

  // ---------------------------------------------------------------- reading back

  lemma ParseDigit(c: char, rest: string, secs: nat, buffer: nat)
    requires IsDigit(c)
    ensures Parse([c] + rest, secs, buffer) == Parse(rest, secs, (buffer * 10 % WORD + (c as int - '0' as int)) % WORD)
  {
    assert ([c] + rest)[0] == c && ([c] + rest)[1..] == rest;
  }

  lemma {:induction false} ParseDigits(n: nat, rest: string, secs: nat)
    ensures Parse(Digits(n) + rest, secs, 0) == Parse(rest, secs, n % WORD)
    decreases n
  {
    hide Parse;
    var c := DigitChar(n % 10);
    if n < 10 {
      ParseDigit(c, rest, secs, 0);
    } else {
      ParseDigit(c, rest, secs, n / 10 % WORD);
      assert Digits(n) + rest == Digits(n / 10) + ([c] + rest);
      ParseDigits(n / 10, [c] + rest, secs);
      NextDigit(n);
    }
  }

  /** A part adds its seconds; a part left out is zero. */
  lemma ParsePart(shown: bool, n: nat, unit: char, rest: string, secs: nat)
    requires secs < WORD && Multiplier(unit) > 0 && (shown || n == 0)
    ensures Parse(Part(shown, n, [unit]) + rest, secs, 0) == Parse(rest, (secs + n * Multiplier(unit)) % WORD, 0)
  {
    hide Parse, Digits, Multiplier;
    if shown {
      assert Part(shown, n, [unit]) + rest == Digits(n) + ([unit] + rest);
      ParseDigits(n, [unit] + rest, secs);
      ParseUnit(unit, rest, secs, n);
    } else {
      assert Part(shown, n, [unit]) + rest == rest;
    }
  }

  lemma ParseUnit(unit: char, rest: string, secs: nat, n: nat)
    requires Multiplier(unit) > 0
    ensures Parse([unit] + rest, secs, n % WORD) == Parse(rest, (secs + n * Multiplier(unit)) % WORD, 0)
  {
    var m := Multiplier(unit);
    assert ([unit] + rest)[0] == unit && ([unit] + rest)[1..] == rest;
    ModTimes(n, m);
    var x := n * m;
    DropMultiples(secs + x % WORD, x / WORD);
  }

  /** A character that is neither a digit nor a unit makes the whole text parse to 0. */
  lemma {:induction false} BadFormat(text: string, k: nat, secs: nat, buffer: nat)
    requires k < |text| && !('0' <= text[k] <= '9') && text[k] !in {'d', 'h', 'm', 's'}
    ensures Parse(text, secs, buffer) == 0
    decreases |text|
  {
    if k > 0 && (IsDigit(text[0]) || Multiplier(text[0]) != 0) {
      var next := if IsDigit(text[0]) then (buffer * 10 % WORD + (text[0] as int - '0' as int)) % WORD else 0;
      var found := if IsDigit(text[0]) then secs else (secs + buffer * Multiplier(text[0]) % WORD) % WORD;
      BadFormat(text[1..], k - 1, found, next);
    }
  }

  /** A number without a unit at the end counts for nothing. */
  lemma UnitMissing(n: nat, secs: nat)
    ensures Parse(Digits(n), secs, 0) == secs
  {
    ParseDigits(n, [], secs);
    assert Digits(n) + [] == Digits(n);
  }

  lemma AddUp(a: nat, b: nat)
    ensures (a % WORD + b) % WORD == (a + b) % WORD
  {
    DropMultiples(a % WORD + b, a / WORD);
  }

  /** Days and hours are read first, whatever follows. */
  lemma ParseDaysHours(days: nat, hours: nat, hoursOnly: bool, rest: string)
    ensures Parse(Part(days > 0, days, "d") + (Part(hours > 0 || hoursOnly, hours, "h") + rest), 0, 0)
            == Parse(rest, (days * DAY + hours * HOUR) % WORD, 0)
  {
    hide Parse, Part;
    ParsePart(days > 0, days, 'd', Part(hours > 0 || hoursOnly, hours, "h") + rest, 0);
    ParsePart(hours > 0 || hoursOnly, hours, 'h', rest, days * DAY % WORD);
    AddUp(days * DAY, hours * HOUR);
  }

  /** Then minutes and seconds. */
  lemma ParseMinutesSecs(minutes: nat, secs: nat, showLast: bool, found: nat)
    requires showLast || secs == 0
    ensures Parse(Part(minutes > 0, minutes, "m") + (Part(showLast, secs, "s") + []), found % WORD, 0)
            == (found + minutes * MINUTE + secs) % WORD
  {
    hide Parse, Part;
    var next := found + minutes * MINUTE;
    ParsePart(minutes > 0, minutes, 'm', Part(showLast, secs, "s") + [], found % WORD);
    AddUp(found, minutes * MINUTE);
    ParsePart(showLast, secs, 's', [], next % WORD);
    AddUp(next, secs);
    ParseNothing((next + secs) % WORD);
  }

  lemma ShortTextReadsBack(days: nat, hours: nat, minutes: nat, secs: nat, hoursOnly: bool)
    ensures Parse(TextOf(days, hours, minutes, secs, true, hoursOnly), 0, 0) ==
            (days * DAY + hours * HOUR + if hoursOnly then 0 else minutes * MINUTE + secs) % WORD
  {
    hide Parse, Part;
    var showLast := !hoursOnly && (secs > 0 || (days == 0 && hours == 0 && minutes == 0));
    var third, last := Part(!hoursOnly && minutes > 0, minutes, "m"), Part(showLast, secs, "s");
    var rest := third + (last + []);
    assert TextOf(days, hours, minutes, secs, true, hoursOnly)
        == Part(days > 0, days, "d") + (Part(hours > 0 || hoursOnly, hours, "h") + rest);
    ParseDaysHours(days, hours, hoursOnly, rest);
    if hoursOnly {
      Unshown(minutes, secs);
      assert rest == [];
      ParseNothing((days * DAY + hours * HOUR) % WORD);
    } else {
      ParseMinutesSecs(minutes, secs, showLast, days * DAY + hours * HOUR);
    }
  }

  lemma Unshown(minutes: nat, secs: nat)
    ensures Part(false, minutes, "m") == [] && Part(false, secs, "s") == []
  {
  }

  /** The short text of a duration reads back as the duration, on 32 bits; with hours only, as whole hours. */
  lemma ShortReadsBack(t: nat, hoursOnly: bool)
    ensures Parse(TimeString(t, true, hoursOnly), 0, 0) == (if hoursOnly then t - t % HOUR else t) % WORD
  {
    hide Parse, TextOf;
    ShortTextReadsBack(t / DAY, t % DAY / HOUR, t % HOUR / MINUTE, t % MINUTE, hoursOnly);
    Recompose(t);
  }

  lemma ParseNothing(secs: nat)
    ensures Parse([], secs, 0) == secs
  {
  }

  lemma Recompose(t: nat)
    ensures t == t / DAY * DAY + t % DAY / HOUR * HOUR + t % HOUR / MINUTE * MINUTE + t % MINUTE
    ensures t - t % HOUR == t / DAY * DAY + t % DAY / HOUR * HOUR
  {
    Nested(t, HOUR, 24);
    Nested(t, MINUTE, 60);
  }

  /** Dividing a remainder by a divisor of the modulus leaves the same remainder. */
  lemma Nested(t: nat, d: nat, k: nat)
    requires (d == HOUR && k == 24) || (d == MINUTE && k == 60)
    ensures t % (d * k) % d == t % d
  {
  }

  /** The long text never reads back: the blank after its first number is a bad format. */
  lemma LongIsRefused(t: nat, hoursOnly: bool)
    ensures Parse(TimeString(t, false, hoursOnly), 0, 0) == 0
  {
    hide Parse;
    LongTextIsRefused(t / DAY, t % DAY / HOUR, t % HOUR / MINUTE, t % MINUTE, hoursOnly);
  }

  /** The first part shown begins with a number and a blank. */
  lemma LongTextIsRefused(days: nat, hours: nat, minutes: nat, secs: nat, hoursOnly: bool)
    ensures Parse(TextOf(days, hours, minutes, secs, false, hoursOnly), 0, 0) == 0
  {
    hide Parse, Part;
    var showLast := !hoursOnly && (secs > 0 || (days == 0 && hours == 0 && minutes == 0));
    var first, second := Part(days > 0, days, " Day(s) "), Part(hours > 0 || hoursOnly, hours, " Hour(s) ");
    var third, last := Part(!hoursOnly && minutes > 0, minutes, " Minute(s) "), Part(showLast, secs, " Second(s).");
    assert TextOf(days, hours, minutes, secs, false, hoursOnly) == first + (second + (third + (last + [])));
    BlankIsRefused(days > 0, days, " Day(s) ", second + (third + (last + [])));
    BlankIsRefused(hours > 0 || hoursOnly, hours, " Hour(s) ", third + (last + []));
    BlankIsRefused(!hoursOnly && minutes > 0, minutes, " Minute(s) ", last + []);
    BlankIsRefused(showLast, secs, " Second(s).", []);
  }

  lemma BlankIsRefused(shown: bool, n: nat, unit: string, rest: string)
    requires unit != [] && unit[0] == ' '
    ensures shown ==> Parse(Part(shown, n, unit) + rest, 0, 0) == 0
    ensures !shown ==> Part(shown, n, unit) + rest == rest
  {
    hide Digits;
    if shown {
      assert Part(shown, n, unit) + rest == Digits(n) + (unit + rest);
      assert (unit + rest)[0] == ' ';
      ParseDigits(n, unit + rest, 0);
    }
  }

  // ---------------------------------------------------------------- the long text read by its labels

  /** Which label a text starts with: its length and the seconds it stands for; 0 and 0 for none. */
  function Label(text: string): (nat, nat) {
    if " Day(s) " <= text then (8, 86400)
    else if " Hour(s) " <= text then (9, 3600)
    else if " Minute(s) " <= text then (11, 60)
    else if " Second(s)." <= text then (11, 1)
    else (0, 0)
  }

  /** A text of numbers and labels read as a reader would; `n` is the number under way. */
  function ReadLong(text: string, secs: nat, n: nat): nat
    decreases |text|
  {
    if text == [] then secs
    else if IsDigit(text[0]) then ReadLong(text[1..], secs, 10 * n + (text[0] as int - '0' as int))
    else
      var (length, unit) := Label(text);
      if length == 0 then 0 else ReadLong(text[length..], secs + n * unit, 0)
  }

  lemma ReadDigit(c: char, rest: string, secs: nat, n: nat)
    requires IsDigit(c)
    ensures ReadLong([c] + rest, secs, n) == ReadLong(rest, secs, 10 * n + (c as int - '0' as int))
  {
    hide Label;
    assert ([c] + rest)[0] == c && ([c] + rest)[1..] == rest;
  }

  lemma {:induction false} ReadDigits(n: nat, rest: string, secs: nat)
    ensures ReadLong(Digits(n) + rest, secs, 0) == ReadLong(rest, secs, n)
    decreases n
  {
    hide ReadLong;
    var c := DigitChar(n % 10);
    if n < 10 {
      ReadDigit(c, rest, secs, 0);
    } else {
      ReadDigit(c, rest, secs, n / 10);
      assert Digits(n) + rest == Digits(n / 10) + ([c] + rest);
      ReadDigits(n / 10, [c] + rest, secs);
    }
  }

  lemma LabelOf(unit: string, rest: string)
    requires unit in {" Day(s) ", " Hour(s) ", " Minute(s) ", " Second(s)."}
    ensures Label(unit + rest) == Label(unit) && Label(unit).0 == |unit|
  {
    var text := unit + rest;
    assert unit == text[..|unit|];
    assert text[1] == unit[1];
  }

  lemma ReadLabel(unit: string, rest: string, secs: nat, n: nat)
    requires Label(unit + rest) == Label(unit) && Label(unit).0 == |unit| > 0 && !IsDigit(unit[0])
    ensures ReadLong(unit + rest, secs, n) == ReadLong(rest, secs + n * Label(unit).1, 0)
  {
    hide Label;
    assert (unit + rest)[0] == unit[0] && (unit + rest)[|unit|..] == rest;
  }

  lemma ReadPart(shown: bool, n: nat, unit: string, rest: string, secs: nat)
    requires unit in {" Day(s) ", " Hour(s) ", " Minute(s) ", " Second(s)."} && (shown || n == 0)
    ensures ReadLong(Part(shown, n, unit) + rest, secs, 0) == ReadLong(rest, secs + n * Label(unit).1, 0)
  {
    hide ReadLong, Digits, Label;
    if shown {
      assert Part(shown, n, unit) + rest == Digits(n) + (unit + rest);
      ReadDigits(n, unit + rest, secs);
      LabelOf(unit, rest);
      ReadLabel(unit, rest, secs, n);
    } else {
      assert Part(shown, n, unit) + rest == rest;
    }
  }

  lemma Labels()
    ensures Label(" Day(s) ").1 == 86400 && Label(" Hour(s) ").1 == 3600
    ensures Label(" Minute(s) ").1 == 60 && Label(" Second(s).").1 == 1
  {
    assert " Day(s) "[1] == 'D' && " Hour(s) "[1] == 'H' && " Minute(s) "[1] == 'M' && " Second(s)."[1] == 'S';
  }

  lemma ReadNothing(secs: nat)
    ensures ReadLong([], secs, 0) == secs
  {
  }

  lemma LongTextReads(days: nat, hours: nat, minutes: nat, secs: nat, hoursOnly: bool)
    ensures ReadLong(TextOf(days, hours, minutes, secs, false, hoursOnly), 0, 0) ==
            days * 86400 + hours * 3600 + if hoursOnly then 0 else minutes * 60 + secs
  {
    hide ReadLong, Part, Label;
    var showLast := !hoursOnly && (secs > 0 || (days == 0 && hours == 0 && minutes == 0));
    var first, second := Part(days > 0, days, " Day(s) "), Part(hours > 0 || hoursOnly, hours, " Hour(s) ");
    var third, last := Part(!hoursOnly && minutes > 0, minutes, " Minute(s) "), Part(showLast, secs, " Second(s).");
    assert TextOf(days, hours, minutes, secs, false, hoursOnly) == first + (second + (third + (last + [])));
    Labels();
    var found := days * 86400 + hours * 3600;
    ReadPart(days > 0, days, " Day(s) ", second + (third + (last + [])), 0);
    ReadPart(hours > 0 || hoursOnly, hours, " Hour(s) ", third + (last + []), days * 86400);
    if hoursOnly {
      NotShown(minutes, secs);
      assert third + (last + []) == [];
      ReadNothing(found);
    } else {
      ReadPart(minutes > 0, minutes, " Minute(s) ", last + [], found);
      ReadPart(showLast, secs, " Second(s).", [], found + minutes * 60);
      ReadNothing(found + minutes * 60 + secs);
    }
  }

  lemma NotShown(minutes: nat, secs: nat)
    ensures Part(false, minutes, " Minute(s) ") == [] && Part(false, secs, " Second(s).") == []
  {
  }

  /** The long text of a duration, read by its labels, is the duration; with hours only, its whole hours. */
  lemma LongReadsByLabels(t: nat, hoursOnly: bool)
    ensures ReadLong(TimeString(t, false, hoursOnly), 0, 0) == if hoursOnly then t - t % HOUR else t
  {
    hide ReadLong, TextOf;
    LongTextReads(t / DAY, t % DAY / HOUR, t % HOUR / MINUTE, t % MINUTE, hoursOnly);
    Recompose(t);
  }

  lemma {:induction false} OnlyDigits(n: nat)
    ensures forall c | c in Digits(n) :: IsDigit(c)
    decreases n
  {
    if n >= 10 {
      OnlyDigits(n / 10);
    }
  }

  lemma UnitsIn(shown: bool, n: nat, unit: char, c: char)
    requires !IsDigit(unit) && !IsDigit(c)
    ensures c in Part(shown, n, [unit]) <==> shown && c == unit
  {
    hide Digits;
    OnlyDigits(n);
    if shown {
      assert Part(shown, n, [unit]) == Digits(n) + [unit];
    }
  }

  /** A unit is in the short text exactly if its part is shown. */
  lemma UnitShown(days: nat, hours: nat, minutes: nat, secs: nat, hoursOnly: bool, c: char)
    requires !IsDigit(c)
    ensures c in TextOf(days, hours, minutes, secs, true, hoursOnly) <==>
            || (days > 0 && c == 'd')
            || ((hours > 0 || hoursOnly) && c == 'h')
            || (!hoursOnly && minutes > 0 && c == 'm')
            || (!hoursOnly && (secs > 0 || (days == 0 && hours == 0 && minutes == 0)) && c == 's')
  {
    hide Part;
    var showLast := !hoursOnly && (secs > 0 || (days == 0 && hours == 0 && minutes == 0));
    UnitsIn(days > 0, days, 'd', c);
    UnitsIn(hours > 0 || hoursOnly, hours, 'h', c);
    UnitsIn(!hoursOnly && minutes > 0, minutes, 'm', c);
    UnitsIn(showLast, secs, 's', c);
    assert "d" == ['d'] && "h" == ['h'] && "m" == ['m'] && "s" == ['s'];
  }

  /** The parts shown are the non-zero ones, and the seconds if all are zero; with hours only, days and hours. */
  lemma PartsShown(t: nat, hoursOnly: bool)
    ensures var text := TimeString(t, true, hoursOnly);
            && ('d' in text <==> t >= 86400)
            && ('h' in text <==> hoursOnly || t % 86400 >= 3600)
            && ('m' in text <==> !hoursOnly && t % 3600 >= 60)
            && ('s' in text <==> !hoursOnly && (t % 60 != 0 || t == 0))
  {
    hide TextOf;
    AllZero(t);
    UnitShown(t / DAY, t % DAY / HOUR, t % HOUR / MINUTE, t % MINUTE, hoursOnly, 'd');
    UnitShown(t / DAY, t % DAY / HOUR, t % HOUR / MINUTE, t % MINUTE, hoursOnly, 'h');
    UnitShown(t / DAY, t % DAY / HOUR, t % HOUR / MINUTE, t % MINUTE, hoursOnly, 'm');
    UnitShown(t / DAY, t % DAY / HOUR, t % HOUR / MINUTE, t % MINUTE, hoursOnly, 's');
  }

  lemma AllZero(t: nat)
    ensures t / DAY == 0 && t % DAY / HOUR == 0 && t % HOUR / MINUTE == 0 && t % MINUTE == 0 <==> t == 0
    ensures t / DAY > 0 <==> t >= 86400
    ensures t % DAY / HOUR > 0 <==> t % 86400 >= 3600
    ensures t % HOUR / MINUTE > 0 <==> t % 3600 >= 60
  {
    Recompose(t);
  }
}
