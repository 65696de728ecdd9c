/** The months a billing report can be asked for, and the one it shows by default. */
module BillingWindow {
  import opened Prelude
  import opened Calendar
  import opened Decimals

  /** How many months before the current one are still accepted. */
  const MONTHS_BACK := 17

  /** The months that four digits can write. */
  predicate Writable(month: int) {
    0 <= month < 120000
  }

  function Digit(n: int): char
    requires 0 <= n < 10
  {
    '0' + n as char
  }

  function Value(c: char): (n: int)
    requires IsDigit(c)
    ensures 0 <= n < 10
  {
    c as int - '0' as int
  }

  /** A number below 10 to the `width`, padded with zeros. */
  function Padded(n: nat, width: nat): string {
    if width == 0 then "" else Padded(n / 10, width - 1) + [Digit(n % 10)]
  }

  /** Year and month as in 2006-01. */
  function Format(month: int): string
    requires Writable(month)
  {
    Padded(month / 12, 4) + "-" + Padded(month % 12 + 1, 2)
  }

  /** Four digits, a hyphen, and 01 to 12. */
  predicate MatchesPattern(s: string) {
    && |s| == 7 && IsDigit(s[0]) && IsDigit(s[1]) && IsDigit(s[2]) && IsDigit(s[3]) && s[4] == '-'
    && ((s[5] == '0' && '1' <= s[6] <= '9') || (s[5] == '1' && '0' <= s[6] <= '2'))
  }

  function Parse(s: string): int
    requires MatchesPattern(s)
  {
    12 * ParseDigits(s[..4]) + ParseDigits(s[5..]) - 1
  }

  /** Whether the cycle is in the window, both ends compared as dates. */
  predicate ValidCycle(s: string, now: Date) {
    && MatchesPattern(s)
    && var month, current := DaysBefore(Parse(s)), Date(now.month, 1);
       var oldest := AddMonths(current, -MONTHS_BACK);
       DayNumber(oldest.month, oldest.day) <= month <= DayNumber(current.month, current.day)
  }

  function DefaultCycle(now: Date): string
    requires Writable(AddMonths(now, -1).month)
  {
    Format(AddMonths(now, -1).month)
  }

  // ----- Writing and reading months -----

  function Power(width: nat): nat {
    if width == 0 then 1 else 10 * Power(width - 1)
  }

  lemma {:induction false} NumberOfPadded(n: nat, width: nat)
    requires n < Power(width)
    ensures |Padded(n, width)| == width && AllDigits(Padded(n, width))
    ensures ParseDigits(Padded(n, width)) == n
  {
    if width > 0 {
      NumberOfPadded(n / 10, width - 1);
      var init := Padded(n / 10, width - 1);
      assert (init + [Digit(n % 10)])[..|init|] == init;
    }
  }

  lemma {:induction false} PaddedOfNumber(digits: string)
    requires AllDigits(digits)
    ensures ParseDigits(digits) < Power(|digits|) && Padded(ParseDigits(digits), |digits|) == digits
  {
    if digits != "" {
      var init, last := digits[..|digits| - 1], digits[|digits| - 1];
      PaddedOfNumber(init);
      assert digits == init + [last];
      var n, v := ParseDigits(init), Value(last);
      assert (10 * n + v) / 10 == n && (10 * n + v) % 10 == v;
      assert Digit(v) == last;
    }
  }

  lemma Powers()
    ensures Power(2) == 100 && Power(4) == 10000
  {
    assert Power(1) == 10 && Power(3) == 1000;
  }

  lemma TwoDigitMonths(s: string)
    requires |s| == 2 && IsDigit(s[0]) && IsDigit(s[1])
    ensures ParseDigits(s) == 10 * Value(s[0]) + Value(s[1])
  {
    assert s[..1][..0] == "";
    assert ParseDigits(s[..1]) == Value(s[0]);
  }

  lemma ParseOfFormat(month: int)
    requires Writable(month)
    ensures MatchesPattern(Format(month)) && Parse(Format(month)) == month
  {
    var y, m, s := month / 12, month % 12 + 1, Format(month);
    Powers();
    NumberOfPadded(y, 4);
    NumberOfPadded(m, 2);
    assert s[..4] == Padded(y, 4) && s[5..] == Padded(m, 2) && s[4] == '-';
    assert forall i :: 0 <= i < 4 ==> s[i] == Padded(y, 4)[i];
    assert s[5] == Padded(m, 2)[0] && s[6] == Padded(m, 2)[1];
    TwoDigitMonths(Padded(m, 2));
  }

  lemma FormatOfParse(s: string)
    requires MatchesPattern(s)
    ensures Writable(Parse(s)) && Format(Parse(s)) == s
  {
    Powers();
    PaddedOfNumber(s[..4]);
    PaddedOfNumber(s[5..]);
    TwoDigitMonths(s[5..]);
    var y, m := ParseDigits(s[..4]), ParseDigits(s[5..]);
    assert 1 <= m <= 12 && Parse(s) / 12 == y && Parse(s) % 12 == m - 1;
    assert s == s[..4] + "-" + s[5..];
  }

  // ----- The window -----

  lemma FirstsStay(month: int, months: int)
    ensures AddMonths(Date(month, 1), months) == Date(month + months, 1)
  {
    DateOfDayNumber(Date(month + months, 1));
  }

  lemma OrderOfFirsts(a: int, b: int)
    ensures DaysBefore(a) <= DaysBefore(b) <==> a <= b
  {
    if a < b {
      MonthsAscend(a, b);
    } else if b < a {
      MonthsAscend(b, a);
    }
  }

  /** On every date, exactly the current month and the seventeen before it are accepted. */
  lemma WindowIsExact(s: string, now: Date)
    ensures ValidCycle(s, now) <==>
      exists month :: now.month - MONTHS_BACK <= month <= now.month && Writable(month) && s == Format(month)
  {
    FirstsStay(now.month, -MONTHS_BACK);
    if MatchesPattern(s) {
      FormatOfParse(s);
      OrderOfFirsts(Parse(s), now.month);
      OrderOfFirsts(now.month - MONTHS_BACK, Parse(s));
    }
    if month :| now.month - MONTHS_BACK <= month <= now.month && Writable(month) && s == Format(month) {
      ParseOfFormat(month);
    }
  }

  /** The cycles of the window, newest first. */
  function Window(now: Date): (w: seq<string>)
    requires MONTHS_BACK <= now.month < 120000
    ensures |w| == MONTHS_BACK + 1 && forall i :: 0 <= i < |w| ==> w[i] == Format(now.month - i)
  {
    seq(MONTHS_BACK + 1, i requires 0 <= i <= MONTHS_BACK => Format(now.month - i))
  }

  lemma FormatIsInjective(a: int, b: int)
    requires Writable(a) && Writable(b) && Format(a) == Format(b)
    ensures a == b
  {
    ParseOfFormat(a);
    ParseOfFormat(b);
  }

  lemma WindowIsDistinct(now: Date)
    requires MONTHS_BACK <= now.month < 120000
    ensures Distinct(Window(now))
  {
    var w := Window(now);
    forall i, j | 0 <= i < j < |w| ensures w[i] != w[j] {
      MonthsDiffer(now.month - i, now.month - j);
    }
  }

  lemma MonthsDiffer(a: int, b: int)
    requires Writable(a) && Writable(b) && a != b
    ensures Format(a) != Format(b)
  {
    if Format(a) == Format(b) {
      FormatIsInjective(a, b);
    }
  }

  lemma InWindow(s: string, now: Date, month: int)
    requires MONTHS_BACK <= now.month < 120000
    requires now.month - MONTHS_BACK <= month <= now.month && s == Format(month)
    ensures s in Window(now)
  {
    assert Window(now)[now.month - month] == s;
  }

  lemma FromWindow(s: string, now: Date) returns (month: int)
    requires MONTHS_BACK <= now.month < 120000 && s in Window(now)
    ensures now.month - MONTHS_BACK <= month <= now.month && s == Format(month)
  {
    var i :| 0 <= i < |Window(now)| && Window(now)[i] == s;
    month := now.month - i;
  }

  /** Eighteen different cycles are accepted, the consecutive months that end at the current one. */
  lemma EighteenCycles(now: Date, s: string)
    requires MONTHS_BACK <= now.month < 120000
    ensures |Window(now)| == 18 && Distinct(Window(now))
    ensures ValidCycle(s, now) <==> s in Window(now)
  {
    WindowIsDistinct(now);
    WindowIsExact(s, now);
    if ValidCycle(s, now) {
      var month :| now.month - MONTHS_BACK <= month <= now.month && Writable(month) && s == Format(month);
      InWindow(s, now, month);
    }
    if s in Window(now) {
      var month := FromWindow(s, now);
    }
  }

  // ----- The default -----

  /** Stepping back one month lands in the previous month if it is long enough, else in this one. */
  lemma OneMonthBack(now: Date)
    requires IsDate(now)
    ensures AddMonths(now, -1) ==
      if now.day <= MonthLength(now.month - 1) then Date(now.month - 1, now.day)
      else Date(now.month, now.day - MonthLength(now.month - 1))
  {
    if now.day <= MonthLength(now.month - 1) {
      DateOfDayNumber(Date(now.month - 1, now.day));
    } else {
      DaysBeforeNext(now.month - 1);
      DateOfDayNumber(Date(now.month, now.day - MonthLength(now.month - 1)));
    }
  }

  /** The default cycle is always accepted. */
  lemma DefaultIsAccepted(now: Date)
    requires IsDate(now) && 1 <= now.month < 120000
    ensures Writable(AddMonths(now, -1).month) && ValidCycle(DefaultCycle(now), now)
  {
    OneMonthBack(now);
    WindowIsExact(DefaultCycle(now), now);
  }

  /** It is the previous month exactly when that month has today's day, and otherwise the current one. */
  lemma DefaultIsPreviousMonthIff(now: Date)
    requires IsDate(now) && 1 <= now.month < 120000
    ensures Writable(AddMonths(now, -1).month)
    ensures DefaultCycle(now) == Format(now.month - 1) <==> now.day <= MonthLength(now.month - 1)
    ensures DefaultCycle(now) == Format(now.month) <==> now.day > MonthLength(now.month - 1)
  {
    OneMonthBack(now);
    ParseOfFormat(now.month - 1);
    ParseOfFormat(now.month);
  }

  /** Every fourth year, but of the full centuries only every fourth. */
  predicate HasLeapDay(year: int) {
    if year % 100 == 0 then year / 100 % 4 == 0 else year % 4 == 0
  }

  lemma LeapYears(year: int)
    ensures IsLeap(year) <==> HasLeapDay(year)
  {
    FourHundreds(year);
    FullCenturies(year);
  }

  lemma FourHundreds(year: int)
    ensures year % 400 == 100 * (year / 100 % 4) + year % 100
  {
    var century, rest := year / 100, year % 100;
    var cycle := century / 4;
    assert year == 400 * cycle + (100 * (century % 4) + rest);
  }

  lemma FullCenturies(year: int)
    ensures year % 100 == 0 ==> year % 4 == 0
  {
    assert year == 4 * (25 * (year / 100)) + year % 100;
  }

  /** The dates on which the default is the current month, spelt out. */
  predicate ShowsTheCurrentMonth(now: Date) {
    var m := now.month % 12 + 1;
    || (now.day == 31 && (m == 5 || m == 7 || m == 10 || m == 12))
    || (m == 3 && now.day > 28 && !(now.day == 29 && HasLeapDay(now.month / 12)))
  }

  lemma LengthOfPreviousMonth(month: int)
    ensures MonthLength(month - 1) == match month % 12
      case 2 => (if IsLeap(month / 12) then 29 else 28)
      case 4 => 30
      case 6 => 30
      case 9 => 30
      case 11 => 30
      case _ => 31
  {
    if month % 12 > 0 {
      assert (month - 1) % 12 == month % 12 - 1 && (month - 1) / 12 == month / 12;
    } else {
      assert (month - 1) % 12 == 11;
    }
  }

  lemma WhenTheDefaultIsTheCurrentMonth(now: Date)
    requires IsDate(now) && 1 <= now.month < 120000
    ensures Writable(AddMonths(now, -1).month)
    ensures DefaultCycle(now) == Format(now.month) <==> ShowsTheCurrentMonth(now)
  {
    DefaultIsPreviousMonthIff(now);
    LengthOfPreviousMonth(now.month);
    LeapYears(now.month / 12);
  }
}
