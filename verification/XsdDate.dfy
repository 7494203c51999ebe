/** `valid_xsd_date`: the lexical check of `xsd:date` and the Gregorian dates it accepts
    (XML Schema Part 2, sections 3.2.7.1, 3.2.7.3 and 3.2.9). */
module XsdDate {
  import opened Wrappers
  import opened Decimal

  // ----- the regular expression

  /** The four groups of the date pattern. */
  datatype Groups = Groups(year: string, month: string, day: string, zone: string)

  predicate YearDigits(digits: string) {
    AllDigits(digits) && |digits| >= 4 && (|digits| > 4 ==> digits[0] != '0')
  }

  predicate TwoDigits(s: string) {
    |s| == 2 && AllDigits(s)
  }

  predicate IsOffset(s: string) {
    |s| == 6 && (s[0] == '+' || s[0] == '-') && TwoDigits(s[1..3]) && s[3] == ':' && TwoDigits(s[4..6])
  }

  predicate ZonePattern(s: string) {
    s == "" || s == "Z" || IsOffset(s)
  }

  /** `str.removeprefix("-")`. */
  function WithoutSign(year: string): string {
    if |year| > 0 && year[0] == '-' then year[1..] else year
  }

  /** `s` matches the pattern with these groups. */
  predicate Matches(s: string, g: Groups) {
    && s == g.year + "-" + g.month + "-" + g.day + g.zone
    && YearDigits(WithoutSign(g.year)) && TwoDigits(g.month) && TwoDigits(g.day) && ZonePattern(g.zone)
  }

  function DigitRun(s: string, from: nat): (to: nat)
    requires from <= |s|
    ensures from <= to <= |s| && AllDigits(s[from..to]) && (to < |s| ==> !IsDigit(s[to]))
    decreases |s| - from
  {
    if from < |s| && IsDigit(s[from]) then
      var to := DigitRun(s, from + 1);
      assert s[from..to] == [s[from]] + s[from + 1..to];
      to
    else from
  }

  /** The match of `_DATE_RE.fullmatch`. */
  function FullMatch(s: string): Option<Groups> {
    var from := if |s| > 0 && s[0] == '-' then 1 else 0;
    var to := DigitRun(s, from);
    if |s| < to + 6 then None
    else
      var g := Groups(s[..to], s[to + 1..to + 3], s[to + 4..to + 6], s[to + 6..]);
      if Matches(s, g) then Some(g) else None
  }

  /** Where the year of a match ends. */
  lemma YearEnds(s: string, g: Groups)
    requires Matches(s, g)
    ensures DigitRun(s, if |s| > 0 && s[0] == '-' then 1 else 0) == |g.year|
  {
    var from := if |s| > 0 && s[0] == '-' then 1 else 0;
    YearInside(s, g);
    RunStops(s, from, |g.year|);
  }

  lemma RunStops(s: string, from: nat, k: nat)
    requires from <= k < |s| && !IsDigit(s[k]) && forall i | from <= i < k :: IsDigit(s[i])
    ensures DigitRun(s, from) == k
  {
    var to := DigitRun(s, from);
    assert forall i | from <= i < to :: s[i] == s[from..to][i - from];
  }

  lemma YearInside(s: string, g: Groups)
    requires Matches(s, g)
    ensures var from := if |s| > 0 && s[0] == '-' then 1 else 0;
            && from < |g.year| < |s| && s[|g.year|] == '-'
            && (forall i | from <= i < |g.year| :: IsDigit(s[i]))
  {
  }

  lemma GroupsAt(s: string, g: Groups)
    requires Matches(s, g)
    ensures var to := |g.year|;
            |s| >= to + 6 && s[..to] == g.year && s[to + 1..to + 3] == g.month && s[to + 4..to + 6] == g.day
              && s[to + 6..] == g.zone
  {
  }

  /** The pattern matches in at most one way, and the match is found. */
  lemma FullMatchIsTheMatch(s: string, g: Groups)
    ensures FullMatch(s) == Some(g) <==> Matches(s, g)
  {
    if Matches(s, g) {
      YearEnds(s, g);
      GroupsAt(s, g);
    }
  }

  // ----- the check

  const MONTH_LENGTHS: seq<nat> := [31, 28, 31, 30, 31, 30, 31, 31, 30, 31, 30, 31]

  function MonthLength(leap: bool, month: nat): nat
    requires 1 <= month <= 12
  {
    if month == 2 && leap then 29 else MONTH_LENGTHS[month - 1]
  }

  predicate ZoneInRange(zone: string)
    requires ZonePattern(zone)
  {
    zone != "" && zone != "Z" ==>
      var hours, minutes := Value(zone[1..3]), Value(zone[4..6]);
      minutes <= 59 && hours <= 14 && (hours == 14 ==> minutes == 0)
  }

  /** The source's leap test, which reads the last four digits of the year. */
  predicate LeapByLastFour(digits: string)
    requires YearDigits(digits)
  {
    var yearMod400 := Value(digits[|digits| - 4..]) % 400;
    yearMod400 % 4 == 0 && (yearMod400 % 100 != 0 || yearMod400 == 0)
  }

  predicate ValidXsdDate(s: string) {
    var matched := FullMatch(s);
    && matched.Some?
    && var digits := WithoutSign(matched.value.year);
       var month, day := Value(matched.value.month), Value(matched.value.day);
       && (exists i :: 0 <= i < |digits| && digits[i] != '0')
       && 1 <= month <= 12 && day >= 1
       && day <= MonthLength(LeapByLastFour(digits), month)
       && ZoneInRange(matched.value.zone)
  }

  // ----- the dates that strings denote

  datatype Zone = Unzoned | Zulu | Offset(behind: bool, hours: nat, minutes: nat)

  datatype Date = Date(negative: bool, year: nat, month: nat, day: nat, zone: Zone)

  predicate IsLeapYear(year: int) {
    year % 4 == 0 && (year % 100 != 0 || year % 400 == 0)
  }

  predicate IsDayOf(d: Date, leap: bool) {
    d.year > 0 && 1 <= d.month <= 12 && 1 <= d.day <= MonthLength(leap, d.month) && OffsetInRange(d.zone)
  }

  /** An offset of at most 840 minutes either way. */
  predicate OffsetInRange(zone: Zone) {
    zone.Offset? ==> zone.minutes < 60 && 60 * zone.hours + zone.minutes <= 840
  }

  /** A date with leap years by the Gregorian rule on the year number without its sign. */
  predicate IsDate(d: Date) {
    IsDayOf(d, IsLeapYear(d.year))
  }

  /** The year in the proleptic Gregorian calendar: without a year zero, -1 is the year before 1. */
  function CalendarYear(d: Date): int {
    if d.negative then 1 - d.year else d.year
  }

  /** A day of the proleptic Gregorian calendar. */
  predicate IsGregorian(d: Date) {
    IsDayOf(d, IsLeapYear(CalendarYear(d)))
  }

  /** 29 February of a negative year that is a leap year with or without its sign. */
  predicate IsDisputedDay(d: Date) {
    && d.negative && d.year > 0 && d.month == 2 && d.day == 29 && OffsetInRange(d.zone)
    && (IsLeapYear(d.year) || IsLeapYear(1 - d.year))
  }

  /** The fields fit the notation. */
  predicate Printable(d: Date) {
    && d.year > 0 && d.month < 100 && d.day < 100
    && (d.zone.Offset? ==> d.zone.hours < 100 && d.zone.minutes < 100)
  }

  function Two(n: nat): string
    requires n < 100
  {
    [DigitChar(n / 10), DigitChar(n % 10)]
  }

  function Zeros(n: nat): (s: string)
    ensures |s| == n && AllDigits(s) && forall i :: 0 <= i < n ==> s[i] == '0'
  {
    seq(n, _ => '0')
  }

  /** At least four digits, padded with zeros. */
  function PrintYear(year: nat): string {
    var digits := ToDigits(year);
    if |digits| < 4 then Zeros(4 - |digits|) + digits else digits
  }

  function PrintZone(zone: Zone): string
    requires zone.Offset? ==> zone.hours < 100 && zone.minutes < 100
  {
    match zone
    case Unzoned => ""
    case Zulu => "Z"
    case Offset(behind, hours, minutes) => (if behind then "-" else "+") + Two(hours) + ":" + Two(minutes)
  }

  function Signed(negative: bool, digits: string): string {
    (if negative then "-" else "") + digits
  }

  function Print(d: Date): string
    requires Printable(d)
  {
    Signed(d.negative, PrintYear(d.year)) + "-" + Two(d.month) + "-" + Two(d.day) + PrintZone(d.zone)
  }

  function ParseZone(zone: string): Zone
    requires ZonePattern(zone)
  {
    if zone == "" then Unzoned
    else if zone == "Z" then Zulu
    else Offset(zone[0] == '-', Value(zone[1..3]), Value(zone[4..6]))
  }

  function ParseGroups(g: Groups): Date
    requires YearDigits(WithoutSign(g.year)) && TwoDigits(g.month) && TwoDigits(g.day) && ZonePattern(g.zone)
  {
    Date(|g.year| > 0 && g.year[0] == '-', Value(WithoutSign(g.year)), Value(g.month), Value(g.day), ParseZone(g.zone))
  }

  function Parse(s: string): Option<Date> {
    var matched := FullMatch(s);
    if matched.None? || !ValidXsdDate(s) then None else Some(ParseGroups(matched.value))
  }

  // ----- digits

  lemma TwoRoundTrip(s: string)
    requires TwoDigits(s)
    ensures Value(s) < 100 && Two(Value(s)) == s
  {
    assert s[..1][..0] == "" && s[..1] == [s[0]];
    assert Value(s) == 10 * DigitValue(s[0]) + DigitValue(s[1]) by {
      assert Value(s[..1]) == DigitValue(s[0]);
    }
    assert s == [s[0], s[1]];
  }

  lemma ValueOfTwo(n: nat)
    requires n < 100
    ensures TwoDigits(Two(n)) && Value(Two(n)) == n
  {
    var s := Two(n);
    assert s[..1][..0] == "" && s[..1] == [s[0]];
    assert Value(s[..1]) == n / 10;
  }

  lemma {:induction false} ValueOfZeros(n: nat)
    ensures Value(Zeros(n)) == 0
    decreases n
  {
    if n > 0 {
      ValueOfZeros(n - 1);
      assert Zeros(n)[..n - 1] == Zeros(n - 1);
      assert DigitValue('0') == 0;
    }
  }

  lemma ValueOfPadded(n: nat, digits: string)
    requires AllDigits(digits)
    ensures AllDigits(Zeros(n) + digits) && Value(Zeros(n) + digits) == Value(digits)
  {
    ValueConcat(Zeros(n), digits);
    ValueOfZeros(n);
    assert 0 * Pow10(|digits|) == 0;
  }

  /** Leading zeros, then nothing or a positive number without leading zeros. */
  lemma {:induction false} LeadingZeros(digits: string) returns (n: nat, rest: string)
    requires AllDigits(digits)
    ensures digits == Zeros(n) + rest && AllDigits(rest) && (rest == "" || IsPositiveDecimal(rest))
    decreases |digits|
  {
    if digits == "" || digits[0] != '0' {
      n, rest := 0, digits;
    } else {
      n, rest := LeadingZeros(digits[1..]);
      assert digits == ['0'] + digits[1..];
      assert Zeros(n + 1) == ['0'] + Zeros(n);
      n := n + 1;
    }
  }

  lemma YearRoundTrip(digits: string)
    requires YearDigits(digits) && Value(digits) > 0
    ensures PrintYear(Value(digits)) == digits
  {
    var n, rest := LeadingZeros(digits);
    ValueOfPadded(n, rest);
    assert Value("") == 0;
    assert Value(rest) > 0;
    ToDigitsOfValue(rest);
  }

  lemma ValueOfYear(year: nat)
    requires year > 0
    ensures YearDigits(PrintYear(year)) && Value(PrintYear(year)) == year
  {
    ValueOfToDigits(year);
    if |ToDigits(year)| < 4 {
      ValueOfPadded(4 - |ToDigits(year)|, ToDigits(year));
    }
  }

  lemma ZeroYear(digits: string)
    requires AllDigits(digits)
    ensures Value(digits) > 0 <==> exists i :: 0 <= i < |digits| && digits[i] != '0'
  {
  }

  /** The last four digits decide leap years of any length: 10000 is a multiple of 400. */
  lemma LastFourDecideLeap(digits: string)
    requires YearDigits(digits)
    ensures LeapByLastFour(digits) <==> IsLeapYear(Value(digits))
  {
    var high, low := digits[..|digits| - 4], digits[|digits| - 4..];
    assert digits == high + low;
    ValueConcat(high, low);
    assert Pow10(4) == 10000 by {
      assert Pow10(0) == 1 && Pow10(1) == 10 && Pow10(2) == 100 && Pow10(3) == 1000;
    }
    Mod400(Value(high), Value(low));
  }

  lemma Mod400(high: nat, low: nat)
    ensures var m := low % 400;
            (m % 4 == 0 && (m % 100 != 0 || m == 0)) <==> IsLeapYear(high * 10000 + low)
  {
    var m, k := low % 400, 25 * high + low / 400;
    assert high * 10000 + low == 400 * k + m;
    ModBy400(k, m);
  }

  lemma ModBy400(k: nat, m: nat)
    requires m < 400
    ensures (400 * k + m) % 400 == m && (400 * k + m) % 100 == m % 100 && (400 * k + m) % 4 == m % 4
  {
    var n := 400 * k + m;
    Quotient(n, 400, k, m);
    Quotient(n, 100, 4 * k + m / 100, m % 100);
    Quotient(n, 4, 100 * k + m / 4, m % 4);
  }

  lemma Quotient(n: nat, d: nat, q: nat, r: nat)
    requires d in {4, 100, 400} && r < d && n == d * q + r
    ensures n % d == r
  {
    if d == 4 {
      assert n % 4 == r;
    } else if d == 100 {
      assert n % 100 == r;
    } else {
      assert n % 400 == r;
    }
  }

  // ----- the theorems

  lemma ZoneRoundTrip(zone: string)
    requires ZonePattern(zone)
    ensures var z := ParseZone(zone);
            && (ZoneInRange(zone) <==> OffsetInRange(z))
            && (z.Offset? ==> z.hours < 100 && z.minutes < 100)
            && PrintZone(z) == zone
  {
    if zone != "" && zone != "Z" {
      TwoRoundTrip(zone[1..3]);
      TwoRoundTrip(zone[4..6]);
      assert zone == [zone[0]] + zone[1..3] + [zone[3]] + zone[4..6];
    }
  }

  lemma ZoneOfPrint(z: Zone)
    requires z.Offset? ==> z.hours < 100 && z.minutes < 100
    ensures ZonePattern(PrintZone(z)) && ParseZone(PrintZone(z)) == z
  {
    if z.Offset? {
      ValueOfTwo(z.hours);
      ValueOfTwo(z.minutes);
      var s := PrintZone(z);
      assert s[1..3] == Two(z.hours) && s[4..6] == Two(z.minutes);
    }
  }

  lemma AcceptedIsDate(s: string, g: Groups)
    requires Matches(s, g)
    ensures ValidXsdDate(s) <==> IsDate(ParseGroups(g))
  {
    FullMatchIsTheMatch(s, g);
    ZeroYear(WithoutSign(g.year));
    LastFourDecideLeap(WithoutSign(g.year));
    ZoneRoundTrip(g.zone);
  }

  lemma PrintsBack(s: string, g: Groups)
    requires Matches(s, g) && IsDate(ParseGroups(g))
    ensures Print(ParseGroups(g)) == s
  {
    var digits := WithoutSign(g.year);
    YearRoundTrip(digits);
    TwoRoundTrip(g.month);
    TwoRoundTrip(g.day);
    ZoneRoundTrip(g.zone);
    assert g.year == Signed(ParseGroups(g).negative, digits);
  }

  /** Accepted strings denote dates and are printed back as they were. */
  lemma AcceptedDenotes(s: string, g: Groups)
    requires Matches(s, g)
    ensures ValidXsdDate(s) <==> IsDate(ParseGroups(g))
    ensures ValidXsdDate(s) ==> Print(ParseGroups(g)) == s
  {
    AcceptedIsDate(s, g);
    if ValidXsdDate(s) {
      PrintsBack(s, g);
    }
  }

  lemma SignedYear(negative: bool, digits: string)
    requires YearDigits(digits)
    ensures WithoutSign(Signed(negative, digits)) == digits
    ensures |Signed(negative, digits)| > 0 && (Signed(negative, digits)[0] == '-' <==> negative)
  {
  }

  function GroupsOf(d: Date): Groups
    requires Printable(d)
  {
    Groups(Signed(d.negative, PrintYear(d.year)), Two(d.month), Two(d.day), PrintZone(d.zone))
  }

  lemma PrintMatches(d: Date)
    requires Printable(d)
    ensures Matches(Print(d), GroupsOf(d)) && ParseGroups(GroupsOf(d)) == d
  {
    ValueOfYear(d.year);
    SignedYear(d.negative, PrintYear(d.year));
    ValueOfTwo(d.month);
    ValueOfTwo(d.day);
    ZoneOfPrint(d.zone);
  }

  /** A string is accepted exactly when it is the notation of a date. */
  lemma ValidIffDenotesDate(s: string)
    ensures ValidXsdDate(s) <==> exists d :: IsDate(d) && Print(d) == s
  {
    if ValidXsdDate(s) {
      var g := FullMatch(s).value;
      FullMatchIsTheMatch(s, g);
      AcceptedDenotes(s, g);
    }
    if d :| IsDate(d) && Print(d) == s {
      PrintMatches(d);
      AcceptedDenotes(s, GroupsOf(d));
    }
  }

  lemma NeighboursNotBothLeap(year: nat)
    requires IsLeapYear(year)
    ensures !IsLeapYear(1 - year)
  {
  }

  lemma DisputedExactly(d: Date)
    ensures (IsDate(d) <==> IsGregorian(d)) <==> !IsDisputedDay(d)
  {
    if d.negative && IsLeapYear(d.year) {
      NeighboursNotBothLeap(d.year);
    }
  }

  lemma AcceptedExactly(d: Date)
    requires Printable(d)
    ensures ValidXsdDate(Print(d)) <==> IsDate(d)
  {
    PrintMatches(d);
    AcceptedDenotes(Print(d), GroupsOf(d));
  }

  /** Thirty days have April, June, September and November, February has 28 or 29, all others 31. */
  lemma DaysOfMonths(d: Date, leap: bool)
    ensures IsDayOf(d, leap)
       <==> && d.year > 0 && d.day >= 1 && OffsetInRange(d.zone)
            && (|| (d.month in {1, 3, 5, 7, 8, 10, 12} && d.day <= 31)
                || (d.month in {4, 6, 9, 11} && d.day <= 30)
                || (d.month == 2 && d.day <= if leap then 29 else 28))
  {
  }

  /** The sign is left out of the leap year rule, and this is what it costs: the notation of a
      date is accepted exactly if the date is a day of the proleptic Gregorian calendar, except for
      29 February of the negative years that are leap years either with or without their sign. */
  lemma GregorianExactly(d: Date)
    requires Printable(d)
    ensures (ValidXsdDate(Print(d)) <==> IsGregorian(d)) <==> !IsDisputedDay(d)
  {
    AcceptedExactly(d);
    DisputedExactly(d);
  }

  /** Both kinds of error: a disputed day is accepted exactly when it is not a day of the calendar,
      as 29 February of the year -4, and rejected exactly when it is one, as that of the year -1. */
  lemma DisputedDaysMisjudged(d: Date)
    requires IsDisputedDay(d)
    ensures Printable(d)
    ensures ValidXsdDate(Print(d)) <==> IsLeapYear(d.year)
    ensures IsGregorian(d) <==> !IsLeapYear(d.year)
    ensures IsDisputedDay(d.(year := 4)) && IsLeapYear(4) && IsDisputedDay(d.(year := 1)) && !IsLeapYear(1)
  {
    AcceptedExactly(d);
    DisputedExactly(d);
  }

  /** Printing and parsing are inverse to each other. */
  lemma RoundTrip(s: string, d: Date)
    requires IsDate(d)
    ensures Parse(s) == Some(d) <==> Print(d) == s
  {
    PrintMatches(d);
    FullMatchIsTheMatch(Print(d), GroupsOf(d));
    AcceptedDenotes(Print(d), GroupsOf(d));
    if Parse(s) == Some(d) {
      var h := FullMatch(s).value;
      FullMatchIsTheMatch(s, h);
      AcceptedDenotes(s, h);
    }
  }
}
