/** The `BookingCreate` request model of src/models/hotel_model.py: its field
    constraints and the `check_dates` validator on `check_out`. */
module BookingModel {
  import opened Wrappers
  import opened Text
  import opened Calendar
  import opened Builtins

  datatype BookingCreate = BookingCreate(checkIn: string, checkOut: string, price: real, currency: string)

  /** Why `check_dates` rejects a check-out value. */
  datatype DateProblem =
    | CheckInUnparseable
    | CheckOutUnparseable
    | CheckOutNotAfterCheckIn

  /** One validation error of the model, in field order. */
  datatype Violation =
    | CheckOutInvalid(problem: DateProblem)
    | PriceNotPositive
    | CurrencyLengthNotThree

  /** `check_dates`: both values must read as `%Y-%m-%d` dates and check-out must
      fall strictly after check-in; the accepted check-out text is returned as given. */
  function CheckDates(checkIn: string, checkOut: string): (r: Result<string, DateProblem>)
    ensures r.Success? <==>
      && ParseYmd(checkIn).Some? && ParseYmd(checkOut).Some?
      && Before(ParseYmd(checkIn).value, ParseYmd(checkOut).value)
    ensures r.Success? ==> r.value == checkOut
    ensures ParseYmd(checkIn).None? ==> r == Failure(CheckInUnparseable)
    ensures ParseYmd(checkIn).Some? && ParseYmd(checkOut).None? ==> r == Failure(CheckOutUnparseable)
    ensures && ParseYmd(checkIn).Some? && ParseYmd(checkOut).Some?
            && !Before(ParseYmd(checkIn).value, ParseYmd(checkOut).value)
            ==> r == Failure(CheckOutNotAfterCheckIn)
  {
    match ParseYmd(checkIn)
    case None => Failure(CheckInUnparseable)
    case Some(start) =>
      match ParseYmd(checkOut)
      case None => Failure(CheckOutUnparseable)
      case Some(end) => if NotAfter(end, start) then Failure(CheckOutNotAfterCheckIn) else Success(checkOut)
  }

  /** A stay of zero nights is refused: equal dates never pass. */
  lemma SameDayRejected(s: string)
    ensures CheckDates(s, s).Failure?
  {
  }

  /** Accepted date pairs are never accepted the other way round. */
  lemma CheckDatesIsAsymmetric(a: string, b: string)
    ensures CheckDates(a, b).Success? ==> CheckDates(b, a).Failure?
  {
  }

  /** A one-night stay written in ISO form is accepted for every date but the last. */
  lemma OneNightAccepted(d: CalendarDate)
    requires d != LastDate
    ensures CheckDates(IsoFormat(d), IsoFormat(NextDay(d).value)) == Success(IsoFormat(NextDay(d).value))
  {
    ParseIsoFormat(d);
    ParseIsoFormat(NextDay(d).value);
  }

  /** `%Y-%m-%d` accepts one-digit month and day fields. */
  lemma ShortFieldsAccepted()
    ensures ParseYmd("2025-1-5") == Some(Date(2025, 1, 5))
  {
    YearTexts();
    FieldTexts();
    assert "2025-1-5" == "2025" + "-" + "1" + "-" + "5";
    ParseOfFields("2025", "1", "5");
  }

  /** February 29th 2024 exists. */
  lemma LeapDayAccepted()
    ensures ParseYmd("2024-02-29") == Some(Date(2024, 2, 29))
  {
    YearTexts();
    FieldTexts();
    assert "2024-02-29" == "2024" + "-" + "02" + "-" + "29";
    assert IsLeapYear(2024) && DaysInMonth(2024, 2) == 29;
    ParseOfFields("2024", "02", "29");
  }

  /** February 29th 2023 does not. */
  lemma NonLeapDayRefused()
    ensures ParseYmd("2023-02-29").None?
  {
    YearTexts();
    FieldTexts();
    assert "2023-02-29" == "2023" + "-" + "02" + "-" + "29";
    assert !IsLeapYear(2023) && DaysInMonth(2023, 2) == 28;
    ParseOfFields("2023", "02", "29");
  }

  /** Year 0 is refused. */
  lemma YearZeroRefused()
    ensures ParseYmd("0000-01-01").None?
  {
    YearTexts();
    FieldTexts();
    assert "0000-01-01" == "0000" + "-" + "01" + "-" + "01";
    ParseOfFields("0000", "01", "01");
  }

  /** Month 13 is refused. */
  lemma MonthThirteenRefused()
    ensures ParseYmd("2025-13-01").None?
  {
    assert !IsMonthText("13");
    assert "2025-13-01"[5..] == "13-01";
    assert IndexOf("13-01", '-') == Some(2);
  }

  /** The year texts of the examples, read as `%Y` reads them. */
  lemma YearTexts()
    ensures |"2025"| == 4 && AllDigits("2025") && DigitsValue("2025") == 2025
    ensures |"2024"| == 4 && AllDigits("2024") && DigitsValue("2024") == 2024
    ensures |"2023"| == 4 && AllDigits("2023") && DigitsValue("2023") == 2023
    ensures |"0000"| == 4 && AllDigits("0000") && DigitsValue("0000") == 0
  {
    FourDigits("2025");
    FourDigits("2024");
    FourDigits("2023");
    FourDigits("0000");
  }

  /** The month and day texts of the examples, read as `%m` and `%d` read them. */
  lemma FieldTexts()
    ensures IsMonthText("1") && IsDayText("5") && FieldValue("1") == 1 && FieldValue("5") == 5
    ensures IsMonthText("02") && IsMonthText("11") && IsMonthText("01")
    ensures IsDayText("29") && IsDayText("15") && IsDayText("20") && IsDayText("01")
    ensures FieldValue("02") == 2 && FieldValue("11") == 11 && FieldValue("01") == 1
    ensures FieldValue("29") == 29 && FieldValue("15") == 15 && FieldValue("20") == 20
  {
    OneDigit("1");
    OneDigit("5");
    TwoDigits("02");
    TwoDigits("11");
    TwoDigits("01");
    TwoDigits("29");
    TwoDigits("15");
    TwoDigits("20");
  }

  /** Pydantic's validation of the whole model: every violated constraint is
      reported, in field order; a valid request comes back unchanged. */
  function ValidateBooking(b: BookingCreate): (r: Result<BookingCreate, seq<Violation>>)
    ensures r.Success? <==> CheckDates(b.checkIn, b.checkOut).Success? && b.price > 0.0 && |b.currency| == 3
    ensures r.Success? ==> r.value == b
    ensures r.Failure? ==> 0 < |r.error|
    ensures r.Failure? ==> (PriceNotPositive in r.error <==> b.price <= 0.0)
    ensures r.Failure? ==> (CurrencyLengthNotThree in r.error <==> |b.currency| != 3)
    ensures r.Failure? ==> forall p :: CheckOutInvalid(p) in r.error <==> CheckDates(b.checkIn, b.checkOut) == Failure(p)
  {
    var dates := CheckDates(b.checkIn, b.checkOut);
    var violations :=
      (if dates.Failure? then [CheckOutInvalid(dates.error)] else [])
      + (if b.price <= 0.0 then [PriceNotPositive] else [])
      + (if |b.currency| != 3 then [CurrencyLengthNotThree] else []);
    if violations == [] then Success(b) else Failure(violations)
  }

  /** How building the model from request fields fails: a validation error listing
      the violations, or an exception that escapes the validator. */
  datatype Rejection = Invalid(violations: seq<Violation>) | Raised(error: Exception)

  /** Building the model from the request fields, where `checkIn` is None when the
      field is missing or failed its own `str` validation. The validator at line 12
      reads `values["check_in"]` unguarded, and only ValueError, TypeError and
      AssertionError become validation errors, so a missing check-in ends the call
      with KeyError before price and currency are looked at. */
  function ValidateRequest(checkIn: Option<string>, checkOut: string, price: real, currency: string)
    : (r: Result<BookingCreate, Rejection>)
    ensures checkIn.None? ==> r == Failure(Raised(KeyError("check_in")))
    ensures checkIn.Some? ==> var b := BookingCreate(checkIn.value, checkOut, price, currency);
      && (r.Success? <==> CheckDates(b.checkIn, b.checkOut).Success? && price > 0.0 && |currency| == 3)
      && (r.Success? ==> r.value == b)
      && (r.Failure? ==> r.error.Invalid? && r.error.violations == ValidateBooking(b).error)
  {
    match checkIn
    case None => Failure(Raised(KeyError("check_in")))
    case Some(text) =>
      var b := BookingCreate(text, checkOut, price, currency);
      match ValidateBooking(b)
      case Success(v) => Success(v)
      case Failure(violations) => Failure(Invalid(violations))
  }

  lemma ParseCheckInExample()
    ensures ParseYmd("2025-11-15") == Some(Date(2025, 11, 15))
  {
    YearTexts();
    FieldTexts();
    assert "2025-11-15" == "2025" + "-" + "11" + "-" + "15";
    ParseOfFields("2025", "11", "15");
  }

  lemma ParseCheckOutExample()
    ensures ParseYmd("2025-11-20") == Some(Date(2025, 11, 20))
  {
    YearTexts();
    FieldTexts();
    assert "2025-11-20" == "2025" + "-" + "11" + "-" + "20";
    ParseOfFields("2025", "11", "20");
  }

  /** The documented example request passes. */
  lemma ExampleBookingAccepted()
    ensures ValidateBooking(BookingCreate("2025-11-15", "2025-11-20", 500.0, "CAD")).Success?
  {
    ParseCheckInExample();
    ParseCheckOutExample();
  }

  /** A request whose check-out is its check-in, with a valid price and currency, fails
      on check-out alone: the dates are equal, or check-in does not parse. */
  lemma SameDayBookingRefused(b: BookingCreate)
    requires b.checkIn == b.checkOut && b.price > 0.0 && |b.currency| == 3
    ensures ValidateBooking(b)
         == Failure([CheckOutInvalid(if ParseYmd(b.checkIn).Some? then CheckOutNotAfterCheckIn else CheckInUnparseable)])
  {
    var only: seq<Violation> := [CheckOutInvalid(CheckDates(b.checkIn, b.checkOut).error)];
    assert only + [] + [] == only;
  }
}
