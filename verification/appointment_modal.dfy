/**
 * The booking form: its fields and error map, validation, field updates,
 * submission, the dentist list shown in the form, and the calendar's rule for
 * which days cannot be picked.
 */
module AppointmentModal {

  import opened Wrappers
  import opened Text
  import opened Seqs
  import DataService

  /** A calendar day; the picker hands out days at local midnight. */
  datatype Day = Day(year: int, month: int, day: int)

  /** A moment: a calendar day and the milliseconds elapsed since its midnight. */
  datatype Instant = Instant(date: Day, millisOfDay: nat)

  /** Chronological order of calendar days (lexicographic on year, month, day). */
  predicate Before(a: Day, b: Day)
  {
    a.year < b.year || (a.year == b.year && (a.month < b.month || (a.month == b.month && a.day < b.day)))
  }

  /** Day of the week, 0 for Sunday through 6 for Saturday (the Gregorian calendar, as `getDay()`). */
  function Weekday(d: Day): (w: int)
    ensures 0 <= w < 7
  {
    WeekdaySum(d) % 7
  }

  /** The weekday formula before the final `% 7`; January and February count with the previous year. */
  function WeekdaySum(d: Day): int
  {
    var y := if d.month < 3 then d.year - 1 else d.year;
    YearPart(y) + MonthOffset(d.month) + d.day
  }

  /** The year's share of the weekday formula: the year plus its count of leap days. */
  function YearPart(y: int): int
  {
    y + y / 4 - y / 100 + y / 400
  }

  /** The month's share of the weekday formula (January's for a month out of range). */
  function MonthOffset(m: int): int
  {
    var offsets := [0, 3, 2, 5, 0, 3, 5, 1, 4, 6, 2, 4];
    if 1 <= m <= 12 then offsets[m - 1] else 0
  }

  /** Leap years of the Gregorian calendar. */
  predicate IsLeapYear(y: int)
  {
    y % 4 == 0 && (y % 100 != 0 || y % 400 == 0)
  }

  function DaysInMonth(y: int, m: int): (n: int)
    requires 1 <= m <= 12
    ensures 28 <= n <= 31
    ensures n == 29 <==> m == 2 && IsLeapYear(y)
  {
    if m == 2 then (if IsLeapYear(y) then 29 else 28)
    else if m == 4 || m == 6 || m == 9 || m == 11 then 30
    else 31
  }

  /** A day that exists in the calendar. */
  predicate ValidDay(d: Day)
  {
    1 <= d.month <= 12 && 1 <= d.day <= DaysInMonth(d.year, d.month)
  }

  /** The day after `d`, rolling over the end of a month and of a year. */
  function NextDay(d: Day): (n: Day)
    requires ValidDay(d)
    ensures ValidDay(n) && Before(d, n)
    ensures forall e :: ValidDay(e) && Before(d, e) ==> !Before(e, n)
  {
    if d.day < DaysInMonth(d.year, d.month) then Day(d.year, d.month, d.day + 1)
    else if d.month < 12 then Day(d.year, d.month + 1, 1)
    else Day(d.year + 1, 1, 1)
  }

  /** The day `n` days after `d`. */
  function Advance(d: Day, n: nat): (e: Day)
    requires ValidDay(d)
    ensures ValidDay(e)
    decreases n
  {
    if n == 0 then d else Advance(NextDay(d), n - 1)
  }

  /** Consecutive days have consecutive weekdays, across month and year ends and leap days. */
  lemma WeekdayNext(d: Day)
    requires ValidDay(d)
    ensures Weekday(NextDay(d)) == (Weekday(d) + 1) % 7
  {
    var k;
    if d.day < DaysInMonth(d.year, d.month) {
      k := 0;
    } else if d.month == 2 {
      k := EndOfFebruary(d);
    } else if d.month == 12 {
      k := -5;
    } else {
      k := EndOfMonth(d);
    }
    ShiftBySevens(WeekdaySum(d), k);
  }

  lemma EndOfFebruary(d: Day) returns (k: int)
    requires ValidDay(d) && d.month == 2 && d.day == DaysInMonth(d.year, 2)
    ensures WeekdaySum(NextDay(d)) == WeekdaySum(d) + 1 + 7 * k
  {
    LeapStep(d.year);
    k := -4;
  }

  lemma EndOfMonth(d: Day) returns (k: int)
    requires ValidDay(d) && d.month != 2 && d.month < 12 && d.day == DaysInMonth(d.year, d.month)
    ensures WeekdaySum(NextDay(d)) == WeekdaySum(d) + 1 + 7 * k
  {
    k := MonthStep(d.year, d.month);
  }

  lemma ShiftBySevens(a: int, k: int)
    ensures (a + 1 + 7 * k) % 7 == (a % 7 + 1) % 7
  {
  }

  /** Within a year, the month offsets differ by the month lengths modulo 7 (February aside). */
  lemma MonthStep(y: int, m: int) returns (k: int)
    requires 1 <= m < 12 && m != 2
    ensures MonthOffset(m + 1) == MonthOffset(m) + DaysInMonth(y, m) + 7 * k
  {
    k := (MonthOffset(m + 1) - MonthOffset(m) - DaysInMonth(y, m)) / 7;
    assert (MonthOffset(m + 1) - MonthOffset(m) - DaysInMonth(y, m)) % 7 == 0 by {
      if m == 1 {} else if m == 3 {} else if m == 4 {} else if m == 5 {} else if m == 6 {}
      else if m == 7 {} else if m == 8 {} else if m == 9 {} else if m == 10 {} else {}
    }
  }

  /** From the last day of February to 1 March the year part grows by one, or by two in a leap year. */
  lemma LeapStep(y: int)
    ensures YearPart(y) - YearPart(y - 1) == if IsLeapYear(y) then 2 else 1
  {
    DivStep4(y);
    DivStep100(y);
    DivStep400(y);
  }

  lemma DivStep4(y: int)
    ensures y / 4 - (y - 1) / 4 == if y % 4 == 0 then 1 else 0
  {
    var q := (y - 1) / 4;
    if (y - 1) % 4 == 3 { assert y == (q + 1) * 4; } else { assert y == q * 4 + ((y - 1) % 4 + 1); }
  }

  lemma DivStep100(y: int)
    ensures y / 100 - (y - 1) / 100 == if y % 100 == 0 then 1 else 0
    ensures y % 100 == 0 ==> y % 4 == 0
  {
    var q := (y - 1) / 100;
    if (y - 1) % 100 == 99 { assert y == (q + 1) * 100 == (q * 25 + 25) * 4; } else { assert y == q * 100 + ((y - 1) % 100 + 1); }
  }

  lemma DivStep400(y: int)
    ensures y / 400 - (y - 1) / 400 == if y % 400 == 0 then 1 else 0
    ensures y % 400 == 0 ==> y % 100 == 0
  {
    var q := (y - 1) / 400;
    if (y - 1) % 400 == 399 { assert y == (q + 1) * 400 == (q * 4 + 4) * 100; } else { assert y == q * 400 + ((y - 1) % 400 + 1); }
  }

  lemma ModSum(a: int, b: int)
    ensures (a % 7 + b) % 7 == (a + b) % 7
  {
    var q := a / 7;
    assert a == 7 * q + a % 7;
    assert a + b == (a % 7 + b) + 7 * q;
  }

  /** `n` days later the weekday has moved on by `n` modulo 7. */
  lemma {:induction false} WeekdayAdvance(d: Day, n: nat)
    requires ValidDay(d)
    ensures Weekday(Advance(d, n)) == (Weekday(d) + n) % 7
    decreases n
  {
    if n > 0 {
      WeekdayNext(d);
      WeekdayAdvance(NextDay(d), n - 1);
      ModSum(Weekday(d) + 1, n - 1);
    }
  }

  /** The epoch of `Date`: 1 January 1970 was a Thursday. */
  lemma UnixEpochThursday()
    ensures Weekday(Day(1970, 1, 1)) == 4
  {
  }

  datatype AppointmentDetails = AppointmentDetails(
    name: string, email: string, phone: string, date: Option<Day>,
    time: string, dentist: string, reason: string)

  /** The form as it is first shown and after a successful submission. */
  const EmptyDetails := AppointmentDetails("", "", "", None, "", "", "")

  datatype Field = NameField | EmailField | PhoneField | DateField | TimeField | DentistField | ReasonField

  /** A value handed to the change handler: text for the text fields, a day (or none) for the date. */
  datatype FieldValue = TextValue(text: string) | DateValue(date: Option<Day>)

  predicate FitsField(field: Field, value: FieldValue)
  {
    value.DateValue? <==> field == DateField
  }

  /** The details with one field replaced. */
  function WithField(d: AppointmentDetails, field: Field, value: FieldValue): (r: AppointmentDetails)
    requires FitsField(field, value)
    ensures Get(r, field) == value
    ensures forall f :: f != field ==> Get(r, f) == Get(d, f)
  {
    match field
    case NameField => d.(name := value.text)
    case EmailField => d.(email := value.text)
    case PhoneField => d.(phone := value.text)
    case DateField => d.(date := value.date)
    case TimeField => d.(time := value.text)
    case DentistField => d.(dentist := value.text)
    case ReasonField => d.(reason := value.text)
  }

  function Get(d: AppointmentDetails, field: Field): FieldValue
  {
    match field
    case NameField => TextValue(d.name)
    case EmailField => TextValue(d.email)
    case PhoneField => TextValue(d.phone)
    case DateField => DateValue(d.date)
    case TimeField => TextValue(d.time)
    case DentistField => TextValue(d.dentist)
    case ReasonField => TextValue(d.reason)
  }

  // ---------------------------------------------------------------------
  // Validation

  /** Nothing but white space; `!s.trim()` holds exactly then (see `ValidIffComplete`). */
  predicate IsBlank(s: string)
  {
    forall i :: 0 <= i < |s| ==> IsSpace(s[i])
  }

  /**
   * The unanchored test `\S+@\S+\.\S+`: somewhere in `s` a non-space
   * character is followed by `@`, then one or more non-space characters,
   * then `.` and a non-space character.
   */
  predicate LooksLikeEmail(s: string)
  {
    exists at :: 0 <= at < |s| && EmailAt(s, at)
  }

  /** The `@` of a match is at index `at`. */
  predicate EmailAt(s: string, at: nat)
  {
    0 < at < |s| && s[at] == '@' && !IsSpace(s[at - 1]) && HasDotAfter(s, at)
  }

  predicate HasDotAfter(s: string, at: nat)
    requires at < |s|
  {
    exists dot :: at < dot < |s| && DotAt(s, at, dot)
  }

  /**
   * The `.` of a match is at index `dot`: at least one character lies between
   * the `@` and it, none of them a space, and a non-space character follows it.
   */
  predicate DotAt(s: string, at: nat, dot: nat)
  {
    at + 1 < dot < |s| - 1 && s[dot] == '.' && !IsSpace(s[dot + 1])
      && forall k :: at < k < dot ==> !IsSpace(s[k])
  }

  lemma EmailExamples()
    ensures LooksLikeEmail("a@b.com")
    ensures !LooksLikeEmail("a@b")
    ensures !LooksLikeEmail("a @b.c")
  {
    assert EmailAt("a@b.com", 1) by {
      assert DotAt("a@b.com", 1, 3);
    }
  }

  const NameRequired := "Name is required"
  const EmailRequired := "Email is required"
  const EmailInvalid := "Please enter a valid email"
  const PhoneRequired := "Phone number is required"
  const DateRequired := "Please select a date"
  const TimeRequired := "Please select a time"
  const DentistRequired := "Please select a dentist"
  const ReasonRequired := "Please select a reason"

  /** What `validateForm` reports for the given details: each field's error, if it has one. */
  function ValidationErrors(d: AppointmentDetails): (errs: map<Field, string>)
    ensures NameField in errs <==> IsBlank(d.name)
    ensures PhoneField in errs <==> IsBlank(d.phone)
    ensures DateField in errs <==> d.date.None?
    ensures TimeField in errs <==> d.time == ""
    ensures DentistField in errs <==> d.dentist == ""
    ensures ReasonField in errs <==> d.reason == ""
    ensures EmailField in errs <==> IsBlank(d.email) || !LooksLikeEmail(d.email)
    ensures EmailField in errs ==> errs[EmailField] == if IsBlank(d.email) then EmailRequired else EmailInvalid
    ensures forall f :: f in errs ==> errs[f] != ""
  {
    map f | f in AllFields && FieldError(d, f).Some? :: FieldError(d, f).value
  }

  const AllFields: set<Field> := {NameField, EmailField, PhoneField, DateField, TimeField, DentistField, ReasonField}

  /** The error of one field, or none. */
  function FieldError(d: AppointmentDetails, f: Field): Option<string>
  {
    match f
    case NameField => if IsBlank(d.name) then Some(NameRequired) else None
    case EmailField =>
      if IsBlank(d.email) then Some(EmailRequired)
      else if !LooksLikeEmail(d.email) then Some(EmailInvalid)
      else None
    case PhoneField => if IsBlank(d.phone) then Some(PhoneRequired) else None
    case DateField => if d.date.None? then Some(DateRequired) else None
    case TimeField => if d.time == "" then Some(TimeRequired) else None
    case DentistField => if d.dentist == "" then Some(DentistRequired) else None
    case ReasonField => if d.reason == "" then Some(ReasonRequired) else None
  }

  /** `m` holds exactly the errors of the fields in `fields`, and nothing else. */
  predicate AgreesOn(d: AppointmentDetails, m: map<Field, string>, fields: set<Field>)
  {
    forall f :: (f in m <==> f in fields && FieldError(d, f).Some?) && (f in m ==> m[f] == FieldError(d, f).value)
  }

  /** A map that agrees with every field's error is the validation result. */
  lemma ErrorsOfAllFields(d: AppointmentDetails, m: map<Field, string>)
    requires AgreesOn(d, m, AllFields)
    ensures m == ValidationErrors(d)
  {
    var v := ValidationErrors(d);
    forall f ensures f in m <==> f in v {
      EveryField(f);
    }
  }

  lemma EveryField(f: Field)
    ensures f in AllFields
  {
    match f
    case NameField =>
    case EmailField =>
    case PhoneField =>
    case DateField =>
    case TimeField =>
    case DentistField =>
    case ReasonField =>
  }

  /** Recording field `f`'s error (when it has one) extends the agreement to `f`. */
  lemma AgreesAfter(d: AppointmentDetails, m: map<Field, string>, m': map<Field, string>, fields: set<Field>, f: Field)
    requires AgreesOn(d, m, fields) && f !in fields
    requires m' == CheckField(d, m, f)
    ensures AgreesOn(d, m', fields + {f})
  {
  }

  /** One check of `validateForm`: `m` with field `f`'s error added when the field fails its check. */
  function CheckField(d: AppointmentDetails, m: map<Field, string>, f: Field): map<Field, string>
  {
    if FieldError(d, f).Some? then m[f := FieldError(d, f).value] else m
  }

  /** Checking the fields one after the other, in the form's order, gives the validation result. */
  lemma FieldByFieldErrors(d: AppointmentDetails)
    ensures CheckField(d, CheckField(d, CheckField(d, CheckField(d, CheckField(d, CheckField(d, CheckField(d, map[],
      NameField), EmailField), PhoneField), DateField), TimeField), DentistField), ReasonField)
      == ValidationErrors(d)
  {
    var m0: map<Field, string> := map[];
    var m1 := CheckField(d, m0, NameField);
    AgreesAfter(d, m0, m1, {}, NameField);
    var m2 := CheckField(d, m1, EmailField);
    AgreesAfter(d, m1, m2, {NameField}, EmailField);
    var m3 := CheckField(d, m2, PhoneField);
    AgreesAfter(d, m2, m3, {NameField, EmailField}, PhoneField);
    var m4 := CheckField(d, m3, DateField);
    AgreesAfter(d, m3, m4, {NameField, EmailField, PhoneField}, DateField);
    var m5 := CheckField(d, m4, TimeField);
    AgreesAfter(d, m4, m5, {NameField, EmailField, PhoneField, DateField}, TimeField);
    var m6 := CheckField(d, m5, DentistField);
    AgreesAfter(d, m5, m6, {NameField, EmailField, PhoneField, DateField, TimeField}, DentistField);
    var m7 := CheckField(d, m6, ReasonField);
    AgreesAfter(d, m6, m7, AllFields - {ReasonField}, ReasonField);
    assert AllFields - {ReasonField} + {ReasonField} == AllFields;
    ErrorsOfAllFields(d, m7);
  }

  /** The source's own conditions for a bookable form, with `trim` and the email pattern. */
  predicate Complete(d: AppointmentDetails)
  {
    && Trim(d.name) != "" && Trim(d.phone) != "" && Trim(d.email) != ""
    && LooksLikeEmail(d.email)
    && d.date.Some? && d.time != "" && d.dentist != "" && d.reason != ""
  }

  /** Validation passes exactly for complete forms. */
  lemma ValidIffComplete(d: AppointmentDetails)
    ensures ValidationErrors(d) == map[] <==> Complete(d)
  {
    TrimEmptyIff(d.name);
    TrimEmptyIff(d.phone);
    TrimEmptyIff(d.email);
    var errs := ValidationErrors(d);
    if errs == map[] {
      assert NameField !in errs && PhoneField !in errs && EmailField !in errs;
    } else {
      var f :| f in errs;
      assert f in AllFields;
    }
  }

  // ---------------------------------------------------------------------
  // The form's state

  class BookingForm {
    var details: AppointmentDetails
    var errors: map<Field, string>

    /** Every recorded error has a message. */
    ghost predicate Valid()
      reads this
    {
      forall f :: f in errors ==> errors[f] != ""
    }

    constructor ()
      ensures Valid()
      ensures details == EmptyDetails && errors == map[]
    {
      details := EmptyDetails;
      errors := map[];
    }

    /** `handleChange`: updates one field and clears that field's error only. */
    method HandleChange(field: Field, value: FieldValue)
      requires Valid() && FitsField(field, value)
      modifies this
      ensures Valid()
      ensures details == WithField(old(details), field, value)
      ensures errors == old(errors) - {field}
    {
      details := WithField(details, field, value);
      if field in errors && errors[field] != "" {
        var newErrors := errors;
        newErrors := newErrors - {field};
        errors := newErrors;
      }
    }

    /** `validateForm`: fills a fresh error map field by field and stores it. */
    method ValidateForm() returns (ok: bool)
      modifies this
      ensures Valid()
      ensures details == old(details)
      ensures errors == ValidationErrors(details)
      ensures ok <==> errors == map[]
    {
      var d := details;
      var newErrors: map<Field, string> := map[];
      newErrors := CheckField(d, newErrors, NameField);
      newErrors := CheckField(d, newErrors, EmailField);
      newErrors := CheckField(d, newErrors, PhoneField);
      newErrors := CheckField(d, newErrors, DateField);
      newErrors := CheckField(d, newErrors, TimeField);
      newErrors := CheckField(d, newErrors, DentistField);
      newErrors := CheckField(d, newErrors, ReasonField);
      FieldByFieldErrors(d);
      errors := newErrors;
      ok := newErrors == map[];
    }

    /**
     * `handleSubmit`: on a valid form the details are handed to the scheduler
     * (returned here) and the form is cleared; otherwise only the errors change.
     */
    method HandleSubmit() returns (scheduled: Option<AppointmentDetails>)
      modifies this
      ensures Valid()
      ensures errors == ValidationErrors(old(details))
      ensures scheduled == if errors == map[] then Some(old(details)) else None
      ensures details == if errors == map[] then EmptyDetails else old(details)
    {
      var ok := ValidateForm();
      if ok {
        scheduled := Some(details);
        details := EmptyDetails;
      } else {
        scheduled := None;
      }
    }
  }

  // ---------------------------------------------------------------------
  // Dentist list

  /** The dentists offered in the form when the doctor table cannot be read. */
  const FallbackDentists: seq<string> := ["Dr. Sarah Johnson", "Dr. Michael Chen", "Dr. Emily Rodriguez", "Dr. James Wilson"]

  /**
   * One display name per doctor with duplicates removed, each name at the
   * place of its first occurrence; the fixed list when the table could not be read.
   */
  function Dentists(doctors: Option<seq<DataService.Doctor>>): (r: seq<string>)
    ensures doctors.None? ==> r == FallbackDentists
    ensures doctors.Some? ==> Distinct(r)
    ensures doctors.Some? ==> forall x :: x in r <==> exists i :: 0 <= i < |doctors.value| && x == DataService.DisplayName(doctors.value[i])
  {
    match doctors
    case None => FallbackDentists
    case Some(table) =>
      var names := Map(table, DataService.DisplayName);
      Dedup(names)
  }

  /** The list keeps the order in which each name first appears in the table. */
  lemma DentistsInFirstOccurrenceOrder(table: seq<DataService.Doctor>)
    ensures var names := Map(table, DataService.DisplayName);
      forall i, j :: 0 <= i < j < |Dentists(Some(table))| ==>
        FirstIndex(names, Dentists(Some(table))[i]) < FirstIndex(names, Dentists(Some(table))[j])
  {
    DedupFirstOccurrenceOrder(Map(table, DataService.DisplayName));
  }

  // ---------------------------------------------------------------------
  // Calendar

  const ClosedDays: seq<Day> := [Day(2025, 4, 12), Day(2025, 4, 13)]
  const ClosedFrom := Day(2025, 4, 20)
  const ClosedTo := Day(2025, 4, 25)

  /**
   * The `disabled` predicate of the date picker for a day (at its midnight):
   * it is in the past, a weekend, one of the closed days, or inside the closed
   * range, both ends included.
   */
  predicate IsDisabled(date: Day, now: Instant)
    ensures !IsDisabled(date, now) ==>
      && !Before(date, now.date)
      && 1 <= Weekday(date) <= 5
      && !(date.year == 2025 && date.month == 4 && (date.day == 12 || date.day == 13 || 20 <= date.day <= 25))
  {
    || Before(date, now.date) || (date == now.date && now.millisOfDay > 0)
    || Weekday(date) == 0 || Weekday(date) == 6
    || date in ClosedDays
    || (!Before(date, ClosedFrom) && !Before(ClosedTo, date))
  }

  /** The two listed closed days are a Saturday and a Sunday, so listing them changes nothing. */
  lemma ClosedDaysAreWeekend(date: Day, now: Instant)
    ensures Weekday(Day(2025, 4, 12)) == 6 && Weekday(Day(2025, 4, 13)) == 0
    ensures IsDisabled(date, now) <==>
      || Before(date, now.date) || (date == now.date && now.millisOfDay > 0)
      || Weekday(date) == 0 || Weekday(date) == 6
      || (!Before(date, ClosedFrom) && !Before(ClosedTo, date))
  {
  }

  /** The closed range is exactly the days 20 to 25 of April 2025. */
  lemma ClosedRange(date: Day)
    ensures (!Before(date, ClosedFrom) && !Before(ClosedTo, date)) <==> date.year == 2025 && date.month == 4 && 20 <= date.day <= 25
  {
  }

  /** Today is disabled unless it is exactly midnight; every later weekday outside the closures is open. */
  lemma TodayAndFuture(date: Day, now: Instant)
    ensures date == now.date && now.millisOfDay > 0 ==> IsDisabled(date, now)
    ensures Before(now.date, date) && Weekday(date) != 0 && Weekday(date) != 6
      && date !in ClosedDays && (Before(date, ClosedFrom) || Before(ClosedTo, date))
      ==> !IsDisabled(date, now)
  {
  }
}
