/**
 * The service calculator: the next due date and odometer reading after a
 * service, the whole days left until a due date, and the four-tier due
 * status.  The wall clock is not read: "now" is an explicit `Instant`.
 */
module ServiceCalculator {
  import opened Wrappers
  import opened Calendar
  import opened Text
  import opened DateFormat

  /** Days between one service and the next. */
  const ServiceIntervalDays := 365
  /** Kilometres between one service and the next. */
  const ServiceIntervalKm := 10000
  /** Status thresholds of "due soon". */
  const DueSoonDays := 7
  const DueSoonKm := 500

  const MicrosPerDay := 86_400_000_000
  type MicrosOfDay = u: int | 0 <= u < MicrosPerDay

  /**
   * A local date-time as `datetime.today()` returns it: the day number of
   * its date and the microseconds elapsed since that day's midnight.
   */
  datatype Instant = Instant(day: int, micros: MicrosOfDay)

  datatype DateFault = Unparseable | OutOfRange

  /**
   * `next_service_date`: the date 365 days after `last`.  `Unparseable` is
   * the `ValueError` of `strptime`, `OutOfRange` the `OverflowError` of a
   * result past 9999-12-31.
   */
  function NextServiceDate(last: string): (r: Result<string, DateFault>)
    ensures ParseDate(last).None? <==> r == Failure(Unparseable)
    ensures r == Failure(OutOfRange) <==>
              ParseDate(last).Some? && DayNumber(ParseDate(last).value) + ServiceIntervalDays > MaxDayNumber
    ensures r.Success? ==>
              && ParseDate(r.value).Some?
              && DayNumber(ParseDate(r.value).value) == DayNumber(ParseDate(last).value) + ServiceIntervalDays
              && FormatDate(ParseDate(r.value).value) == r.value
  {
    match ParseDate(last)
    case None => Failure(Unparseable)
    case Some(d) =>
      var next := AddDays(d, ServiceIntervalDays);
      InRangeByDayNumber(next);
      if !InDatetimeRange(next) then
        Failure(OutOfRange)
      else
        ParseFormat(next);
        Success(FormatDate(next))
  }

  /** `next_service_km`: no bound and no sign check, negative readings included. */
  function NextServiceKm(lastKm: int): (r: int)
    ensures r - lastKm == ServiceIntervalKm
  {
    lastKm + ServiceIntervalKm
  }

  /**
   * `days_remaining`: `(t - now).days` where `t` is midnight of the target
   * date, i.e. the floor of the exact difference in days.  `None` is the
   * `ValueError` of an unparseable target.
   */
  function DaysRemaining(target: string, now: Instant): (r: Option<int>)
    ensures r.Some? <==> ParseDate(target).Some?
  {
    match ParseDate(target)
    case None => None
    case Some(t) => Some(((DayNumber(t) - now.day) * MicrosPerDay - now.micros) / MicrosPerDay)
  }

  /**
   * The floor in whole days: the calendar difference at midnight, one less
   * at any later moment of the day.
   */
  lemma DaysRemainingByCalendar(target: string, now: Instant)
    requires ParseDate(target).Some?
    ensures var diff := DayNumber(ParseDate(target).value) - now.day;
            DaysRemaining(target, now) == Some(if now.micros == 0 then diff else diff - 1)
  {
    var diff := DayNumber(ParseDate(target).value) - now.day;
    var x := diff * MicrosPerDay - now.micros;
    if now.micros == 0 {
      assert x == diff * MicrosPerDay + 0;
    } else {
      assert x == (diff - 1) * MicrosPerDay + (MicrosPerDay - now.micros);
      assert 0 <= MicrosPerDay - now.micros < MicrosPerDay;
    }
  }

  /** A target date before today always gives a negative count. */
  lemma DaysRemainingNegativeInPast(target: string, now: Instant)
    requires ParseDate(target).Some?
    requires DayNumber(ParseDate(target).value) < now.day
    ensures DaysRemaining(target, now).value < 0
  {
    DaysRemainingByCalendar(target, now);
  }

  /** The due status, in order of precedence. */
  datatype Status =
    | Overdue
    | DueToday
    | DueSoon(daysLeft: int, kmLeft: int)
    | Fine(daysLeft: int, kmLeft: int)

  /**
   * The if/elif chain of `status_message`: overdue beats due today beats due
   * soon beats fine, and each tier is the disjunction of its day test and
   * its kilometre test.
   */
  function Classify(daysLeft: int, kmLeft: int): (r: Status)
    ensures r == Overdue <==> daysLeft < 0 || kmLeft < 0
    ensures r == DueToday <==> daysLeft >= 0 && kmLeft >= 0 && (daysLeft == 0 || kmLeft == 0)
    ensures r.DueSoon? <==> daysLeft > 0 && kmLeft > 0 && (daysLeft <= DueSoonDays || kmLeft <= DueSoonKm)
    ensures r.Fine? <==> daysLeft > DueSoonDays && kmLeft > DueSoonKm
    ensures r.DueSoon? || r.Fine? ==> r.daysLeft == daysLeft && r.kmLeft == kmLeft
  {
    if daysLeft < 0 || kmLeft < 0 then Overdue
    else if daysLeft == 0 || kmLeft == 0 then DueToday
    else if daysLeft <= DueSoonDays || kmLeft <= DueSoonKm then DueSoon(daysLeft, kmLeft)
    else Fine(daysLeft, kmLeft)
  }

  /** How urgent a status is: 3 for overdue down to 0 for fine. */
  function Urgency(s: Status): nat {
    match s
    case Overdue => 3
    case DueToday => 2
    case DueSoon(_, _) => 1
    case Fine(_, _) => 0
  }

  /** Fewer days or fewer kilometres left never makes the status less urgent. */
  lemma ClassifyMonotone(d1: int, k1: int, d2: int, k2: int)
    requires d2 <= d1 && k2 <= k1
    ensures Urgency(Classify(d2, k2)) >= Urgency(Classify(d1, k1))
  {
  }

  /**
   * `status_message(date_due, km_due, current_km)` at the instant `now`;
   * `None` is the `ValueError` of an unparseable due date.
   */
  function StatusMessage(dateDue: string, kmDue: int, currentKm: int, now: Instant): (r: Option<Status>)
    ensures r.Some? <==> ParseDate(dateDue).Some?
    ensures r.Some? ==> r.value == Classify(DaysRemaining(dateDue, now).value, kmDue - currentKm)
  {
    match DaysRemaining(dateDue, now)
    case None => None
    case Some(daysLeft) => Some(Classify(daysLeft, kmDue - currentKm))
  }

  /** After midnight of the due date itself the status is already overdue. */
  lemma OverdueOnDueDate(dateDue: string, kmDue: int, currentKm: int, now: Instant)
    requires ParseDate(dateDue).Some? && DayNumber(ParseDate(dateDue).value) == now.day
    requires now.micros > 0
    ensures StatusMessage(dateDue, kmDue, currentKm, now) == Some(Overdue)
  {
    DaysRemainingByCalendar(dateDue, now);
  }

  /**
   * After midnight of the day before the due date the status is "due today"
   * whenever kilometres are not overdue.
   */
  lemma DueTodayTheDayBefore(dateDue: string, kmDue: int, currentKm: int, now: Instant)
    requires ParseDate(dateDue).Some? && DayNumber(ParseDate(dateDue).value) == now.day + 1
    requires now.micros > 0 && kmDue >= currentKm
    ensures StatusMessage(dateDue, kmDue, currentKm, now) == Some(DueToday)
  {
    DaysRemainingByCalendar(dateDue, now);
  }

  /**
   * The first sample vehicle on 2025-10-20: 12 days and 1000 km left at
   * midnight, 11 days once the day has begun; fine either way.
   */
  lemma SampleStatusOnOctober20(now: Instant)
    requires now.day == DayNumber(Date(2025, 10, 20))
    ensures StatusMessage("2025-11-01", 22000, 21000, now) == Some(Fine(if now.micros == 0 then 12 else 11, 1000))
  {
    var due := Date(2025, 11, 1);
    assert FormatDate(due) == "2025-11-01";
    ParseFormat(due);
    DaysRemainingByCalendar("2025-11-01", now);
  }

  /** The boundary cases of the classification. */
  lemma ClassifyVectors()
    ensures Classify(-1, 999999) == Overdue
    ensures Classify(999999, -1) == Overdue
    ensures Classify(0, 999999) == DueToday
    ensures Classify(999999, 0) == DueToday
    ensures Classify(7, 9999) == DueSoon(7, 9999)
    ensures Classify(8, 9999) == Fine(8, 9999)
    ensures Classify(8, 500) == DueSoon(8, 500)
    ensures Classify(8, 501) == Fine(8, 501)
  {
  }

  /** 2024-02-29 is followed 365 days later by 2025-02-28: there is no 2025-02-29. */
  lemma NextServiceDateAcrossLeapDay()
    ensures NextServiceDate("2024-02-29") == Success("2025-02-28")
  {
    NextServiceDateExample("2024-02-29", "2025-02-28", Date(2024, 2, 29), Date(2025, 2, 28));
  }

  /** 2023-03-01 is followed 365 days later by 2024-02-29, since 2024 is a leap year. */
  lemma NextServiceDateOntoLeapDay()
    ensures NextServiceDate("2023-03-01") == Success("2024-02-29")
  {
    NextServiceDateExample("2023-03-01", "2024-02-29", Date(2023, 3, 1), Date(2024, 2, 29));
  }

  /** The due date of the first sample record. */
  lemma NextServiceDateSampleNovember()
    ensures NextServiceDate("2024-11-01") == Success("2025-11-01")
  {
    NextServiceDateExample("2024-11-01", "2025-11-01", Date(2024, 11, 1), Date(2025, 11, 1));
  }

  /** The due date of the second sample record. */
  lemma NextServiceDateSampleJune()
    ensures NextServiceDate("2024-06-15") == Success("2025-06-15")
  {
    NextServiceDateExample("2024-06-15", "2025-06-15", Date(2024, 6, 15), Date(2025, 6, 15));
  }

  /** February 29 of a common year is refused. */
  lemma NextServiceDateRejectsCommonYearLeapDay()
    ensures NextServiceDate("2023-02-29") == Failure(Unparseable)
  {
    assert PadDigits(2023, 4) + "-" + PadDigits(2, 2) + "-" + PadDigits(29, 2) == "2023-02-29";
    ParseDateRejects(2023, 2, 29);
  }

  /** A service in 9999 after January would fall due past 9999-12-31. */
  lemma NextServiceDateOverflows()
    ensures NextServiceDate("9999-06-01") == Failure(OutOfRange)
  {
    var big := Date(9999, 6, 1);
    assert FormatDate(big) == "9999-06-01";
    ParseFormat(big);
    assert ParseDate("9999-06-01") == Some(big);
    assert DayNumber(big) + ServiceIntervalDays > MaxDayNumber;
  }

  /**
   * A worked example: `next` is written for the day 365 days after the day
   * `last` is written for, so it is the next service date after `last`.
   */
  lemma NextServiceDateExample(last: string, next: string, l: Date, n: Date)
    requires InDatetimeRange(l) && InDatetimeRange(n)
    requires FormatDate(l) == last && FormatDate(n) == next
    requires DayNumber(n) == DayNumber(l) + ServiceIntervalDays
    ensures NextServiceDate(last) == Success(next)
  {
    ParseFormat(l);
    var r := NextServiceDate(last);
    assert r.Success? by {
      InRangeByDayNumber(n);
    }
    ParseFormat(n);
    DayNumberInjective(ParseDate(r.value).value, n);
    FormatParse(r.value);
  }
}
