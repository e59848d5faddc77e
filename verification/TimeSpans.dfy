/** Durations as text: two printers with a different number of trailing zeros, and one parser. */
module TimeSpans {
  import opened Decimals
  import opened Texts
  import opened Wrappers

  // A printed duration has its days in front of the clock and its milliseconds behind it, both
  // only when there are any; the parser scales the milliseconds differently with and without
  // days, which is where round trips fail.

  const COLON := {':'}
  const DOT := {'.'}
  const MILLIS_IN_DAY := 86_400_000

  /** What the parser gives: an exception, the not-a-number value, or milliseconds. */
  datatype Parsed = Invalid | NotANumber | Millis(value: real)

  // ---------------------------------------------------------------------------------
  // Text

  function LeftPad(s: string, width: nat): string
    decreases if |s| < width then width - |s| else 0
  {
    if |s| >= width then s else LeftPad("0" + s, width)
  }

  function PadEnd(s: string, width: nat): string
    decreases if |s| < width then width - |s| else 0
  {
    if |s| >= width then s else PadEnd(s + "0", width)
  }

  function DigitPrefix(s: string): nat
    ensures DigitPrefix(s) <= |s| && AllDigits(s[..DigitPrefix(s)])
  {
    if s == "" || !IsDigit(s[0]) then 0
    else
      var n := DigitPrefix(s[1..]);
      assert s[..n + 1] == [s[0]] + s[1..][..n];
      n + 1
  }

  predicate IsBlank(c: char) {
    c == ' ' || c == '\t' || c == '\n' || c == '\r'
  }

  /** The integer a text starts with: blanks, a sign, and as many digits as there are. */
  function ParseInt(s: string): Option<int> {
    if s != "" && IsBlank(s[0]) then ParseInt(s[1..])
    else if s != "" && (s[0] == '-' || s[0] == '+') then
      match ParseDigits(s[1..])
      case None => None
      case Some(n) => Some(if s[0] == '-' then -n else n)
    else ParseDigits(s)
  }

  function ParseDigits(s: string): Option<int> {
    var n := DigitPrefix(s);
    if n == 0 then None else Some(ValueOf(s[..n]))
  }

  // ---------------------------------------------------------------------------------
  // The parser

  /** The text starts with digits and a dot. */
  predicate HasDays(text: string)
    ensures HasDays(text) ==> '.' in text
  {
    var n := DigitPrefix(text);
    0 < n < |text| && text[n] == '.'
  }

  /** Somewhere in the text a digit follows a dot. */
  predicate HasMillis(text: string)
    ensures HasMillis(text) ==> '.' in text
  {
    |text| > 1 && ((text[0] == '.' && IsDigit(text[1])) || HasMillis(text[1..]))
  }

  function Plus(a: Parsed, b: Option<real>): Parsed {
    if a.Millis? && b.Some? then Millis(a.value + b.value)
    else if a.Invalid? then Invalid
    else NotANumber
  }

  function ParseMiddlePart(input: string): Parsed {
    var tokens := Split(input, COLON);
    if |tokens| != 3 then Invalid
    else
      var hours, minutes, seconds := ParseInt(tokens[0]), ParseInt(tokens[1]), ParseInt(tokens[2]);
      if hours.None? || minutes.None? || seconds.None? then NotANumber
      else Millis(((seconds.value + minutes.value * 60 + hours.value * 3600) * 1000) as real)
  }

  /** An integer of the text in units of so many per millisecond. */
  function Scaled(n: Option<int>, factor: real): Option<real> {
    if n.Some? then Some(n.value as real * factor) else None
  }

  function TimeSpanToDuration(text: string): Parsed {
    var tokens := Split(text, DOT);
    if HasDays(text) then
      var days := Scaled(ParseInt(tokens[0]), MILLIS_IN_DAY as real);
      var millis := if HasMillis(text) && |tokens| > 2 && tokens[2] != "" then ParseInt(tokens[2]) else Some(0);
      Plus(Plus(ParseMiddlePart(tokens[1]), Scaled(millis, 1.0)), days)
    else if HasMillis(text) then
      Plus(ParseMiddlePart(tokens[0]), Scaled(ParseInt(PadEnd(tokens[1], 7)), 1.0 / 10000.0))
    else ParseMiddlePart(text)
  }

  // ---------------------------------------------------------------------------------
  // The printers

  function Clock(hours: nat, minutes: nat, seconds: nat): string {
    LeftPad(Decimal(hours), 2) + ":" + LeftPad(Decimal(minutes), 2) + ":" + LeftPad(Decimal(seconds), 2)
  }

  function Fraction(millis: nat, zeros: string): string {
    LeftPad(Decimal(millis), 3) + zeros
  }

  /** The text of a whole number of milliseconds; the printers differ in the zeros they add. */
  function TimeSpan(duration: nat, zeros: string): string {
    var seconds := duration / 1000;
    var days, millis := duration / MILLIS_IN_DAY, duration % 1000;
    (if days != 0 then Decimal(days) + "." else "")
    + Clock(seconds / 3600 % 24, seconds / 60 % 60, seconds % 60)
    + (if millis != 0 then "." + Fraction(millis, zeros) else "")
  }

  /** Taking remainders off a running value reads the same digits as dividing the whole. */
  lemma {:induction false} RunningRemainder(duration: nat, seconds: nat, minutes: nat, hours: nat, days: nat)
    requires seconds == (duration - duration % 1000) / 1000
    requires minutes == (seconds - seconds % 60) / 60 && hours == (minutes - minutes % 60) / 60
    requires days == (hours - hours % 24) / 24
    ensures seconds == duration / 1000 && minutes == duration / 1000 / 60
    ensures hours == duration / 1000 / 3600 && days == duration / MILLIS_IN_DAY
  {
  }

  lemma {:induction false} Regroup(before: string, hours: string, minutes: string, seconds: string)
    ensures before + (hours + ":") + (minutes + ":") + seconds
         == before + (hours + ":" + minutes + ":" + seconds)
  {
  }

  method DurationToTimeSpan(duration: nat) returns (text: string)
    ensures text == TimeSpan(duration, "0000")
  {
    var time := duration;
    var millis := time % 1000;
    time := time - millis;
    time := time / 1000;
    ghost var inSeconds := time;
    var seconds := time % 60;
    time := time - seconds;
    time := time / 60;
    ghost var inMinutes := time;
    var minutes := time % 60;
    time := time - minutes;
    time := time / 60;
    ghost var inHours := time;
    var hours := time % 24;
    time := time - hours;
    time := time / 24;
    var days := time;
    RunningRemainder(duration, inSeconds, inMinutes, inHours, days);
    text := WriteSpan(days, hours, minutes, seconds, millis, "0000");
  }

  method MillisToTimeSpan(value: nat) returns (text: string)
    ensures text == TimeSpan(value, "000")
  {
    var time := value;
    var millis := time % 1000;
    time := (time - millis) / 1000;
    ghost var inSeconds := time;
    var seconds := time % 60;
    time := (time - seconds) / 60;
    ghost var inMinutes := time;
    var minutes := time % 60;
    time := (time - minutes) / 60;
    ghost var inHours := time;
    var hours := time % 24;
    time := (time - hours) / 24;
    var days := time;
    RunningRemainder(value, inSeconds, inMinutes, inHours, days);
    text := WriteSpan(days, hours, minutes, seconds, millis, "000");
  }

  /** The part that appends to the text, the same in both printers up to the zeros. */
  method WriteSpan(days: nat, hours: nat, minutes: nat, seconds: nat, millis: nat, zeros: string)
    returns (text: string)
    ensures text == (if days != 0 then Decimal(days) + "." else "") + Clock(hours, minutes, seconds)
      + (if millis != 0 then "." + Fraction(millis, zeros) else "")
  {
    text := if days != 0 then Decimal(days) + "." else "";
    ghost var before := text;
    var h, m, s := LeftPad(Decimal(hours), 2), LeftPad(Decimal(minutes), 2), LeftPad(Decimal(seconds), 2);
    text := text + (h + ":");
    text := text + (m + ":");
    text := text + s;
    Regroup(before, h, m, s);
    if millis != 0 {
      text := text + ("." + Fraction(millis, zeros));
    } else {
      assert text == text + "";
    }
  }

  // ---------------------------------------------------------------------------------
  // Digits

  lemma {:induction false} ValueOfLeadingZero(s: string)
    requires AllDigits(s)
    ensures AllDigits("0" + s) && ValueOf("0" + s) == ValueOf(s)
  {
    var z := "0" + s;
    assert forall i | 0 < i < |z| :: z[i] == s[i - 1];
    if s == "" {
      assert z[..0] == "";
    } else {
      ValueOfLeadingZero(s[..|s| - 1]);
      assert z[..|z| - 1] == "0" + s[..|s| - 1];
    }
  }

  lemma {:induction false} ValueOfPadded(s: string, width: nat)
    requires AllDigits(s)
    ensures AllDigits(LeftPad(s, width)) && ValueOf(LeftPad(s, width)) == ValueOf(s)
    ensures |LeftPad(s, width)| == if |s| >= width then |s| else width
    decreases if |s| < width then width - |s| else 0
  {
    if |s| < width {
      ValueOfLeadingZero(s);
      ValueOfPadded("0" + s, width);
    }
  }

  lemma {:induction false} ValueOfTrailingZero(s: string)
    requires AllDigits(s)
    ensures AllDigits(s + "0") && ValueOf(s + "0") == 10 * ValueOf(s)
  {
    assert (s + "0")[..|s|] == s;
  }

  /** The value with so many zeros written behind it. */
  function Shifted(n: nat, value: nat): nat {
    if n == 0 then value else 10 * Shifted(n - 1, value)
  }

  function Zeros(n: nat): (zeros: string)
    ensures |zeros| == n && AllDigits(zeros)
  {
    if n == 0 then "" else Zeros(n - 1) + "0"
  }

  lemma {:induction false} ValueOfZeros(s: string, n: nat)
    requires AllDigits(s)
    ensures AllDigits(s + Zeros(n)) && ValueOf(s + Zeros(n)) == Shifted(n, ValueOf(s))
  {
    if n == 0 {
      assert s + Zeros(0) == s;
    } else {
      var fewer := s + Zeros(n - 1);
      ValueOfZeros(s, n - 1);
      assert s + Zeros(n) == fewer + "0";
      ValueOfTrailingZero(fewer);
    }
  }

  lemma {:induction false} PadEndAddsZeros(s: string, k: nat, n: nat)
    requires k <= n
    ensures PadEnd(s + Zeros(k), |s| + n) == s + Zeros(n)
    decreases n - k
  {
    if k < n {
      PadEndAddsZeros(s, k + 1, n);
      assert s + Zeros(k) + "0" == s + Zeros(k + 1);
    }
  }

  lemma {:induction false} DigitsNoMoreThan(n: nat, width: nat)
    requires width > 0 && n < Shifted(width, 1)
    ensures |Decimal(n)| <= width
  {
    assert Shifted(1, 1) == 10 * Shifted(0, 1);
    if n >= 10 {
      assert Shifted(width, 1) == 10 * Shifted(width - 1, 1);
      assert n / 10 < Shifted(width - 1, 1);
      DigitsNoMoreThan(n / 10, width - 1);
    }
  }

  lemma {:induction false} DigitPrefixStops(a: string, b: string)
    requires AllDigits(a) && (b == "" || !IsDigit(b[0]))
    ensures DigitPrefix(a + b) == |a|
  {
    var s := a + b;
    if a == "" {
      assert s == b;
    } else {
      DigitPrefixStops(a[1..], b);
      assert s[1..] == a[1..] + b;
    }
  }

  lemma {:induction false} ParseAllDigits(s: string)
    requires AllDigits(s) && s != ""
    ensures ParseInt(s) == Some(ValueOf(s))
  {
    DigitPrefixStops(s, "");
    assert s + "" == s && s[..|s|] == s;
    assert IsDigit(s[0]);
  }

  predicate AllBlank(s: string) {
    forall i | 0 <= i < |s| :: IsBlank(s[i])
  }

  lemma {:induction false} ParseDigitsReads(s: string) returns (digits: string, rest: string)
    ensures s == digits + rest && AllDigits(digits) && (rest == "" || !IsDigit(rest[0]))
    ensures ParseDigits(s) == if digits == "" then None else Some(ValueOf(digits))
  {
    digits, rest := s[..DigitPrefix(s)], s[DigitPrefix(s)..];
    DigitPrefixEnds(s);
  }

  /** Any text is blanks, a sign or none, digits, and a rest that no digit starts; the number is
      that of the digits under the sign, and there is none without digits. */
  lemma {:induction false} ParseIntReads(s: string) returns (blanks: string, sign: string, digits: string, rest: string)
    ensures s == blanks + (sign + (digits + rest))
    ensures AllBlank(blanks) && sign in {"", "-", "+"} && AllDigits(digits) && (rest == "" || !IsDigit(rest[0]))
    ensures sign == "" && digits == "" ==> rest == "" || !(IsBlank(rest[0]) || rest[0] == '-' || rest[0] == '+')
    ensures ParseInt(s) == if digits == "" then None else Some(ValueOf(digits) * if sign == "-" then -1 else 1)
  {
    if s != "" && IsBlank(s[0]) {
      blanks, sign, digits, rest := ParseIntReads(s[1..]);
      assert s == [s[0]] + s[1..];
      blanks := [s[0]] + blanks;
    } else if s != "" && (s[0] == '-' || s[0] == '+') {
      blanks, sign := "", [s[0]];
      digits, rest := ParseDigitsReads(s[1..]);
      assert s == "" + (sign + s[1..]);
    } else {
      blanks, sign := "", "";
      digits, rest := ParseDigitsReads(s);
      assert s == "" + ("" + s);
    }
  }

  lemma {:induction false} DigitPrefixEnds(s: string)
    ensures DigitPrefix(s) < |s| ==> !IsDigit(s[DigitPrefix(s)])
  {
    if s != "" && IsDigit(s[0]) {
      DigitPrefixEnds(s[1..]);
    }
  }

  // ---------------------------------------------------------------------------------
  // Pieces

  lemma {:induction false} DigitsOnly(s: string, c: char)
    requires AllDigits(s) && !IsDigit(c)
    ensures FreeOf(s, {c})
  {
  }

  predicate TwoDigits(s: string) {
    |s| == 2 && AllDigits(s)
  }

  lemma {:induction false} ClockPart(n: nat) returns (s: string)
    requires n < 60
    ensures s == LeftPad(Decimal(n), 2) && TwoDigits(s) && ValueOf(s) == n && ParseInt(s) == Some(n)
  {
    s := LeftPad(Decimal(n), 2);
    ValueOfDecimal(n);
    assert Shifted(2, 1) == 10 * Shifted(1, 1) && Shifted(1, 1) == 10 * Shifted(0, 1);
    DigitsNoMoreThan(n, 2);
    ValueOfPadded(Decimal(n), 2);
    ParseAllDigits(s);
  }

  lemma {:induction false} ClockSplits(h: string, m: string, s: string)
    requires TwoDigits(h) && TwoDigits(m) && TwoDigits(s)
    ensures Split(h + ":" + m + ":" + s, COLON) == [h, m, s]
  {
    DigitsOnly(h, ':');
    DigitsOnly(m, ':');
    DigitsOnly(s, ':');
    assert h + ":" + m + ":" + s == h + [':'] + (m + [':'] + s);
    SplitFirst(h, ':', m + [':'] + s, COLON);
    SplitFirst(m, ':', s, COLON);
    SplitOne(s, COLON);
    assert [h] + ([m] + [s]) == [h, m, s];
  }

  /** What the parser's tests see in the middle part. */
  predicate ClockShape(clock: string) {
    |clock| == 8 && FreeOf(clock, DOT) && IsDigit(clock[0]) && IsDigit(clock[1]) && clock[2] == ':'
  }

  /** The middle part of a printed duration is read back. */
  lemma {:induction false} ClockIsRead(hours: nat, minutes: nat, seconds: nat)
    requires hours < 24 && minutes < 60 && seconds < 60
    ensures ClockShape(Clock(hours, minutes, seconds))
    ensures ParseMiddlePart(Clock(hours, minutes, seconds))
         == Millis(((seconds + minutes * 60 + hours * 3600) * 1000) as real)
  {
    var h := ClockPart(hours);
    var m := ClockPart(minutes);
    var s := ClockPart(seconds);
    ClockSplits(h, m, s);
  }

  // ---------------------------------------------------------------------------------
  // The round trip

  lemma {:induction false} NoDotNoMillis(text: string)
    requires FreeOf(text, DOT)
    ensures !HasMillis(text)
  {
  }

  lemma {:induction false} DotDigitFound(a: string, b: string)
    requires b != "" && IsDigit(b[0])
    ensures HasMillis(a + "." + b)
  {
    var s := a + "." + b;
    if a != "" {
      assert s[1..] == a[1..] + "." + b;
      DotDigitFound(a[1..], b);
    } else {
      assert s[0] == '.' && s[1] == b[0];
    }
  }

  lemma {:induction false} StartsWithClock(clock: string, rest: string)
    requires ClockShape(clock)
    ensures !HasDays(clock + rest)
  {
    var text := clock + rest;
    DigitPrefixStops(text[..2], text[2..]);
    assert text == text[..2] + text[2..];
  }

  lemma {:induction false} StartsWithDays(days: string, rest: string)
    requires AllDigits(days) && days != ""
    ensures HasDays(days + "." + rest)
  {
    DigitPrefixStops(days, "." + rest);
    assert days + "." + rest == days + ("." + rest);
  }

  /** The fraction of at most seven digits: its first three are the milliseconds. */
  lemma {:induction false} FractionIsRead(millis: nat, k: nat)
    requires millis < 1000 && k <= 4
    ensures var f := Fraction(millis, Zeros(k));
      && f != "" && AllDigits(f)
      && ParseInt(f) == Some(Shifted(k, millis)) && ParseInt(PadEnd(f, 7)) == Some(10000 * millis)
  {
    var padded := LeftPad(Decimal(millis), 3);
    ValueOfDecimal(millis);
    assert Shifted(3, 1) == 1000 by {
      assert Shifted(2, 1) == 10 * Shifted(1, 1) && Shifted(1, 1) == 10 * Shifted(0, 1);
    }
    DigitsNoMoreThan(millis, 3);
    ValueOfPadded(Decimal(millis), 3);
    ValueOfZeros(padded, k);
    ParseAllDigits(padded + Zeros(k));
    PadEndAddsZeros(padded, k, 4);
    ValueOfZeros(padded, 4);
    ParseAllDigits(padded + Zeros(4));
    assert Shifted(4, millis) == 10000 * millis by {
      assert Shifted(2, millis) == 10 * Shifted(1, millis) && Shifted(1, millis) == 10 * Shifted(0, millis);
    }
  }

  lemma {:induction false} ReadClock(clock: string)
    requires ClockShape(clock)
    ensures TimeSpanToDuration(clock) == ParseMiddlePart(clock)
  {
    StartsWithClock(clock, "");
    assert clock + "" == clock;
    NoDotNoMillis(clock);
  }

  lemma {:induction false} ReadFraction(clock: string, millis: nat, k: nat)
    requires ClockShape(clock) && millis < 1000 && k <= 4
    ensures TimeSpanToDuration(clock + ("." + Fraction(millis, Zeros(k))))
         == Plus(ParseMiddlePart(clock), Some(millis as real))
  {
    var f := Fraction(millis, Zeros(k));
    var text := clock + ("." + f);
    assert text == clock + "." + f == clock + ['.'] + f;
    FractionIsRead(millis, k);
    StartsWithClock(clock, "." + f);
    DotDigitFound(clock, f);
    SplitFirst(clock, '.', f, DOT);
    DigitsOnly(f, '.');
    SplitOne(f, DOT);
    assert Split(text, DOT) == [clock, f];
    assert (10000 * millis) as real * (1.0 / 10000.0) == millis as real;
  }

  lemma {:induction false} DaysText(d: string, clock: string)
    requires AllDigits(d) && d != "" && ClockShape(clock)
    ensures var text := d + "." + clock;
      HasDays(text) && Split(text, DOT) == [d, clock]
  {
    StartsWithDays(d, clock);
    DigitsOnly(d, '.');
    assert d + "." + clock == d + ['.'] + clock;
    SplitFirst(d, '.', clock, DOT);
    SplitOne(clock, DOT);
    assert [d] + [clock] == [d, clock];
  }

  lemma {:induction false} ReadDays(days: nat, clock: string)
    requires ClockShape(clock)
    ensures TimeSpanToDuration(Decimal(days) + "." + clock)
         == Plus(Plus(ParseMiddlePart(clock), Some(0.0)), Some(days as real * 86_400_000.0))
  {
    DaysAreRead(days);
    DaysText(Decimal(days), clock);
  }

  lemma {:induction false} DaysAndFractionText(d: string, clock: string, f: string)
    requires AllDigits(d) && d != "" && ClockShape(clock) && AllDigits(f) && f != ""
    ensures var text := d + "." + clock + ("." + f);
      HasDays(text) && HasMillis(text) && Split(text, DOT) == [d, clock, f]
  {
    var text := d + "." + clock + ("." + f);
    StartsWithDays(d, clock + ("." + f));
    DotDigitFound(d + "." + clock, f);
    assert text == d + "." + (clock + ("." + f)) && text == (d + "." + clock) + "." + f;
    assert text == d + ['.'] + (clock + ['.'] + f);
    DigitsOnly(d, '.');
    DigitsOnly(f, '.');
    SplitFirst(d, '.', clock + ['.'] + f, DOT);
    SplitFirst(clock, '.', f, DOT);
    SplitOne(f, DOT);
    assert [d] + ([clock] + [f]) == [d, clock, f];
  }

  lemma {:induction false} DaysAreRead(days: nat)
    ensures var d := Decimal(days);
      d != "" && AllDigits(d) && FreeOf(d, DOT) && ParseInt(d) == Some(days)
  {
    ValueOfDecimal(days);
    DecimalIsDigits(days);
    ParseAllDigits(Decimal(days));
    DigitsOnly(Decimal(days), '.');
  }

  lemma {:induction false} ReadDaysAndFraction(days: nat, clock: string, millis: nat, k: nat)
    requires ClockShape(clock) && millis < 1000 && k <= 4
    ensures TimeSpanToDuration(Decimal(days) + "." + clock + ("." + Fraction(millis, Zeros(k))))
         == Plus(Plus(ParseMiddlePart(clock), Some(Shifted(k, millis) as real)),
                 Some(days as real * 86_400_000.0))
  {
    DaysAreRead(days);
    FractionIsRead(millis, k);
    DaysAndFractionText(Decimal(days), clock, Fraction(millis, Zeros(k)));
  }

  lemma {:induction false} AsReals(clock: int, millis: int, days: int)
    ensures clock as real + millis as real == (clock + millis) as real
    ensures clock as real + millis as real + days as real * 86_400_000.0
         == (clock + millis + days * 86_400_000) as real
  {
  }

  lemma {:induction false} WithoutRemainder(n: nat)
    ensures n == n / 1000 * 1000 + n % 1000 && (n - n % 1000) / 1000 == n / 1000
    ensures n == n / 60 * 60 + n % 60 && (n - n % 60) / 60 == n / 60
    ensures n == n / 24 * 24 + n % 24 && (n - n % 24) / 24 == n / 24
  {
  }

  lemma {:induction false} PartsAddUp(duration: nat)
    ensures var seconds := duration / 1000;
      (seconds % 60 + seconds / 60 % 60 * 60 + seconds / 3600 % 24 * 3600) * 1000 + duration % 1000
      + duration / MILLIS_IN_DAY * MILLIS_IN_DAY == duration
  {
    var seconds := duration / 1000;
    var minutes := seconds / 60;
    var hours := minutes / 60;
    WithoutRemainder(duration);
    WithoutRemainder(seconds);
    WithoutRemainder(minutes);
    WithoutRemainder(hours);
    RunningRemainder(duration, seconds, minutes, hours, hours / 24);
  }

  /** How far off a duration comes back: with days and a fraction together the digits of the
      fraction are read without scaling. */
  function Excess(duration: nat, k: nat): int {
    var millis := duration % 1000;
    if duration >= MILLIS_IN_DAY && millis != 0 then Shifted(k, millis) - millis else 0
  }

  lemma {:induction false} UnderADayIsRead(duration: nat, k: nat)
    requires k <= 4 && duration < MILLIS_IN_DAY
    ensures TimeSpanToDuration(TimeSpan(duration, Zeros(k))) == Millis(duration as real)
  {
    var seconds, millis := duration / 1000, duration % 1000;
    var h, m, s := seconds / 3600 % 24, seconds / 60 % 60, seconds % 60;
    var clock := Clock(h, m, s);
    ClockIsRead(h, m, s);
    PartsAddUp(duration);
    AsReals((s + m * 60 + h * 3600) * 1000, millis, 0);
    if millis == 0 {
      assert TimeSpan(duration, Zeros(k)) == clock;
      ReadClock(clock);
    } else {
      assert TimeSpan(duration, Zeros(k)) == clock + ("." + Fraction(millis, Zeros(k)));
      ReadFraction(clock, millis, k);
    }
  }

  lemma {:induction false} ADayOrMoreIsRead(duration: nat, k: nat)
    requires k <= 4 && duration >= MILLIS_IN_DAY
    ensures TimeSpanToDuration(TimeSpan(duration, Zeros(k))) == Millis((duration + Excess(duration, k)) as real)
  {
    var seconds := duration / 1000;
    var days, millis := duration / MILLIS_IN_DAY, duration % 1000;
    var h, m, s := seconds / 3600 % 24, seconds / 60 % 60, seconds % 60;
    var clock := Clock(h, m, s);
    ClockIsRead(h, m, s);
    PartsAddUp(duration);
    var middle := (s + m * 60 + h * 3600) * 1000;
    if millis == 0 {
      assert TimeSpan(duration, Zeros(k)) == Decimal(days) + "." + clock;
      AsReals(middle, 0, days);
      ReadDays(days, clock);
    } else {
      assert TimeSpan(duration, Zeros(k)) == Decimal(days) + "." + clock + ("." + Fraction(millis, Zeros(k)));
      AsReals(middle, Shifted(k, millis), days);
      ReadDaysAndFraction(days, clock, millis, k);
    }
  }

  lemma {:induction false} PrintedIsRead(duration: nat, k: nat)
    requires k <= 4
    ensures TimeSpanToDuration(TimeSpan(duration, Zeros(k))) == Millis((duration + Excess(duration, k)) as real)
  {
    if duration < MILLIS_IN_DAY {
      UnderADayIsRead(duration, k);
    } else {
      ADayOrMoreIsRead(duration, k);
    }
  }

  /** Reading what durationToTimeSpan printed gives the duration back, and 9999 times its
      millisecond part more when it has both days and milliseconds. */
  lemma {:induction false} DurationRoundTrip(duration: nat)
    ensures var read := TimeSpanToDuration(TimeSpan(duration, "0000"));
      && read == Millis((duration + if duration >= MILLIS_IN_DAY then 9999 * (duration % 1000) else 0) as real)
      && (read == Millis(duration as real) <==> duration < MILLIS_IN_DAY || duration % 1000 == 0)
  {
    PrintedIsRead(duration, 4);
    var millis := duration % 1000;
    assert Zeros(4) == "0000" by { assert Zeros(2) == "00" && Zeros(3) == "000"; }
    assert Shifted(4, millis) == 10000 * millis by {
      assert Shifted(2, millis) == 10 * Shifted(1, millis) && Shifted(1, millis) == 10 * Shifted(0, millis);
    }
  }

  /** The same for millisToTimeSpan, which prints one zero less: 999 times. */
  lemma {:induction false} MillisRoundTrip(duration: nat)
    ensures var read := TimeSpanToDuration(TimeSpan(duration, "000"));
      && read == Millis((duration + if duration >= MILLIS_IN_DAY then 999 * (duration % 1000) else 0) as real)
      && (read == Millis(duration as real) <==> duration < MILLIS_IN_DAY || duration % 1000 == 0)
  {
    PrintedIsRead(duration, 3);
    var millis := duration % 1000;
    assert Zeros(3) == "000" by { assert Zeros(2) == "00"; }
    assert Shifted(3, millis) == 1000 * millis by {
      assert Shifted(2, millis) == 10 * Shifted(1, millis) && Shifted(1, millis) == 10 * Shifted(0, millis);
    }
  }

  // ---------------------------------------------------------------------------------
  // Any text

  lemma {:induction false} HasDaysExactlyWhen(text: string)
    ensures HasDays(text) <==> exists n :: 0 < n < |text| && AllDigits(text[..n]) && text[n] == '.'
  {
    if n :| 0 < n < |text| && AllDigits(text[..n]) && text[n] == '.' {
      DigitPrefixStops(text[..n], text[n..]);
      assert text == text[..n] + text[n..];
    }
  }

  lemma {:induction false} HasMillisExactlyWhen(text: string)
    ensures HasMillis(text) <==> exists i :: 0 <= i < |text| - 1 && text[i] == '.' && IsDigit(text[i + 1])
  {
    if |text| > 1 {
      HasMillisExactlyWhen(text[1..]);
      if HasMillis(text) && !(text[0] == '.' && IsDigit(text[1])) {
        var i :| 0 <= i < |text[1..]| - 1 && text[1..][i] == '.' && IsDigit(text[1..][i + 1]);
        assert text[i + 1] == '.' && IsDigit(text[i + 2]);
      }
      if i :| 0 <= i < |text| - 1 && text[i] == '.' && IsDigit(text[i + 1]) {
        if i > 0 {
          assert text[1..][i - 1] == '.' && IsDigit(text[1..][i]);
        }
      }
    }
  }

  /** The part of a text that is read as a clock. */
  function ClockOf(text: string): string {
    if HasDays(text) then Split(text, DOT)[1] else if HasMillis(text) then Split(text, DOT)[0] else text
  }

  /** A text is refused exactly when its clock does not have three parts. */
  lemma {:induction false} RefusedExactlyWhen(text: string)
    ensures TimeSpanToDuration(text).Invalid? <==> |Split(ClockOf(text), COLON)| != 3
  {
  }

  /** Days and a clock with nothing but a dot behind it have no milliseconds. */
  lemma {:induction false} EmptyFractionIsZero(days: string, clock: string)
    requires days != "" && AllDigits(days) && FreeOf(clock, DOT)
    ensures TimeSpanToDuration(days + "." + clock + ".")
         == Plus(ParseMiddlePart(clock), Some((ValueOf(days) * MILLIS_IN_DAY) as real))
  {
    var text, rest := days + "." + clock + ".", clock + ".";
    DigitsOnly(days, '.');
    assert text == days + "." + rest && rest == clock + ['.'] + "";
    StartsWithDays(days, rest);
    SplitFirst(days, '.', rest, DOT);
    SplitFirst(clock, '.', "", DOT);
    assert Split(text, DOT) == [days] + ([clock] + [""]) == [days, clock, ""];
    ParseAllDigits(days);
  }
}
