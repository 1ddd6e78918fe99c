/** `extract_hotel_search_params` of src/services/nlp_service.py after the model has
    answered: the reply (None when it is not valid JSON) is read as a dict, the stay
    dates are normalized, ordered and written back as ISO strings, and the remaining
    search parameters get defaults. `today` and the date parser are parameters. */
module NlpService {
  import opened Wrappers
  import opened Json
  import opened Builtins
  import opened Calendar
  import opened DateNormalization

  datatype Stay = Stay(checkIn: CalendarDate, checkOut: CalendarDate)

  /** The date a value normalizes to, with no fallback. */
  function Requested(repr: Json -> string, parse: string -> Option<CalendarDate>, today: CalendarDate,
                     f: Dict, key: string, userInput: string): Option<CalendarDate>
  {
    NormalizeDate(repr, parse, today, Or(Get(f, key, JNull), JString(userInput)), None)
  }

  /** Line 70: the reply's check_in_date, or else the user's text, normalized; today when neither reads as a date. */
  function CheckIn(repr: Json -> string, parse: string -> Option<CalendarDate>, today: CalendarDate,
                   f: Dict, userInput: string): (r: CalendarDate)
    ensures NotAfter(today, r)
    ensures var q := Requested(repr, parse, today, f, "check_in_date", userInput);
      r == if q.Some? then q.value else today
  {
    var v := NormalizeDate(repr, parse, today, Or(Get(f, "check_in_date", JNull), JString(userInput)), Some(today));
    NormalizedNeverPast(repr, parse, today, Or(Get(f, "check_in_date", JNull), JString(userInput)), Some(today));
    v.value
  }

  /** Lines 70-75: the check-out is the requested one when it falls after check-in, and
      otherwise the day after check-in; computing that day raises OverflowError when
      check-in is the last representable date. */
  function StayDates(repr: Json -> string, parse: string -> Option<CalendarDate>, today: CalendarDate,
                     f: Dict, userInput: string): (r: Result<Stay, Exception>)
    ensures r.Failure? <==> CheckIn(repr, parse, today, f, userInput) == LastDate
    ensures r.Failure? ==> r.error.OverflowError?
    ensures r.Success? ==> r.value.checkIn == CheckIn(repr, parse, today, f, userInput)
    ensures r.Success? ==> NotAfter(today, r.value.checkIn) && Before(r.value.checkIn, r.value.checkOut)
    ensures r.Success? ==>
      var q := Requested(repr, parse, today, f, "check_out_date", userInput);
      r.value.checkOut == if q.Some? && Before(r.value.checkIn, q.value) then q.value else NextDay(r.value.checkIn).value
  {
    var checkIn := CheckIn(repr, parse, today, f, userInput);
    var dayAfter :- NextDay(checkIn);
    var requested := NormalizeDate(repr, parse, today, Or(Get(f, "check_out_date", JNull), JString(userInput)), Some(dayAfter));
    var checkOut := if NotAfter(requested.value, checkIn) then dayAfter else requested.value;
    Success(Stay(checkIn, checkOut))
  }


  predicate IsDefaultedKey(k: string) {
    k == "adults" || k == "children" || k == "currency" || k == "gl" || k == "hl"
  }

  /** Lines 82-86: each defaulted key keeps its value or takes its default. */
  function WithDefaults(f: Dict): (r: Dict)
    ensures Lookup(r, "adults") == Some(Get(f, "adults", JInt(2)))
    ensures Lookup(r, "children") == Some(Get(f, "children", JInt(0)))
    ensures Lookup(r, "currency") == Some(Get(f, "currency", JString("CAD")))
    ensures Lookup(r, "gl") == Some(Get(f, "gl", JString("us")))
    ensures Lookup(r, "hl") == Some(Get(f, "hl", JString("en")))
    ensures forall k :: !IsDefaultedKey(k) ==> Lookup(r, k) == Lookup(f, k)
  {
    var a := SetDefault(f, "adults", JInt(2));
    var b := SetDefault(a, "children", JInt(0));
    var c := SetDefault(b, "currency", JString("CAD"));
    var d := SetDefault(c, "gl", JString("us"));
    var e := SetDefault(d, "hl", JString("en"));
    assert Lookup(b, "adults") == Lookup(a, "adults");
    assert Lookup(c, "adults") == Lookup(a, "adults") && Lookup(c, "children") == Lookup(b, "children");
    assert Lookup(d, "adults") == Lookup(a, "adults") && Lookup(d, "children") == Lookup(b, "children");
    assert Lookup(d, "currency") == Lookup(c, "currency");
    assert Lookup(e, "adults") == Lookup(a, "adults") && Lookup(e, "children") == Lookup(b, "children");
    assert Lookup(e, "currency") == Lookup(c, "currency") && Lookup(e, "gl") == Lookup(d, "gl");
    assert Lookup(b, "currency") == Lookup(f, "currency") && Lookup(c, "gl") == Lookup(f, "gl");
    assert Lookup(d, "hl") == Lookup(f, "hl");
    e
  }

  /** The keys the function writes; every other key of the reply is passed through. */
  predicate IsWrittenKey(k: string) {
    k == "check_in_date" || k == "check_out_date" || IsDefaultedKey(k)
  }

  /** Lines 78-86: the stay's dates written as the given strings, the defaults filled in,
      and every other key of the reply passed through. */
  function SearchParams(f: Dict, checkIn: string, checkOut: string): (r: Dict)
    ensures Lookup(r, "check_in_date") == Some(JString(checkIn))
    ensures Lookup(r, "check_out_date") == Some(JString(checkOut))
    ensures Lookup(r, "adults") == Some(Get(f, "adults", JInt(2)))
    ensures Lookup(r, "children") == Some(Get(f, "children", JInt(0)))
    ensures Lookup(r, "currency") == Some(Get(f, "currency", JString("CAD")))
    ensures Lookup(r, "gl") == Some(Get(f, "gl", JString("us")))
    ensures Lookup(r, "hl") == Some(Get(f, "hl", JString("en")))
    ensures forall k :: !IsWrittenKey(k) ==> Lookup(r, k) == Lookup(f, k)
  {
    DatesAreWritten(f, checkIn, checkOut);
    DefaultsAreFilled(f, checkIn, checkOut);
    OtherKeysPassThrough(f, checkIn, checkOut);
    WithDefaults(WriteStay(f, checkIn, checkOut))
  }

  lemma DatesAreWritten(f: Dict, checkIn: string, checkOut: string)
    ensures Lookup(WithDefaults(WriteStay(f, checkIn, checkOut)), "check_in_date") == Some(JString(checkIn))
    ensures Lookup(WithDefaults(WriteStay(f, checkIn, checkOut)), "check_out_date") == Some(JString(checkOut))
  {
    var w := WriteStay(f, checkIn, checkOut);
    assert !IsDefaultedKey("check_in_date") && !IsDefaultedKey("check_out_date");
  }

  lemma DefaultsAreFilled(f: Dict, checkIn: string, checkOut: string)
    ensures var r := WithDefaults(WriteStay(f, checkIn, checkOut));
      && Lookup(r, "adults") == Some(Get(f, "adults", JInt(2)))
      && Lookup(r, "children") == Some(Get(f, "children", JInt(0)))
      && Lookup(r, "currency") == Some(Get(f, "currency", JString("CAD")))
      && Lookup(r, "gl") == Some(Get(f, "gl", JString("us")))
      && Lookup(r, "hl") == Some(Get(f, "hl", JString("en")))
  {
  }

  lemma OtherKeysPassThrough(f: Dict, checkIn: string, checkOut: string)
    ensures forall k :: !IsWrittenKey(k) ==> Lookup(WithDefaults(WriteStay(f, checkIn, checkOut)), k) == Lookup(f, k)
  {
  }

  /** Lines 46-88, from the decoded reply on: OverflowError when today is the last
      representable date, AttributeError when the reply is not a dict, OverflowError
      when check-in is the last date; otherwise the search parameters of the stay. */
  function ExtractHotelSearchParams(repr: Json -> string, parse: string -> Option<CalendarDate>, today: CalendarDate,
                                    reply: Option<Json>, userInput: string): (r: Result<Dict, Exception>)
    ensures today == LastDate ==> r.Failure? && r.error.OverflowError?
    ensures today != LastDate && !DecodedOrEmpty(reply).JObject? ==> r.Failure? && r.error.AttributeError?
    ensures today != LastDate && DecodedOrEmpty(reply).JObject? ==>
      var stay := StayDates(repr, parse, today, DecodedOrEmpty(reply).fields, userInput);
      && (r.Success? <==> stay.Success?)
      && (r.Success? ==>
            r.value == SearchParams(DecodedOrEmpty(reply).fields, IsoFormat(stay.value.checkIn), IsoFormat(stay.value.checkOut)))
  {
    FromData(repr, parse, today, DecodedOrEmpty(reply), userInput)
  }

  /** Lines 52-88: the work done on `data` once the reply is decoded. */
  function FromData(repr: Json -> string, parse: string -> Option<CalendarDate>, today: CalendarDate,
                    data: Json, userInput: string): (r: Result<Dict, Exception>)
    ensures today == LastDate ==> r.Failure? && r.error.OverflowError?
    ensures today != LastDate && !data.JObject? ==> r.Failure? && r.error.AttributeError?
    ensures today != LastDate && data.JObject? ==>
      var stay := StayDates(repr, parse, today, data.fields, userInput);
      && (r.Success? <==> stay.Success?)
      && (r.Success? ==> r.value == SearchParams(data.fields, IsoFormat(stay.value.checkIn), IsoFormat(stay.value.checkOut)))
  {
    var tomorrow :- NextDay(today);
    var f :- AsDict(data);
    var stay :- StayDates(repr, parse, today, f, userInput);
    Success(SearchParams(f, IsoFormat(stay.checkIn), IsoFormat(stay.checkOut)))
  }

  /** The dates written back read as `%Y-%m-%d` dates: check-in is not before today
      and check-out is strictly after check-in. */
  lemma WrittenDatesAreOrdered(repr: Json -> string, parse: string -> Option<CalendarDate>, today: CalendarDate,
                               reply: Option<Json>, userInput: string)
    ensures var res := ExtractHotelSearchParams(repr, parse, today, reply, userInput);
      res.Success? ==>
      var r := res.value;
      && Lookup(r, "check_in_date").Some? && Lookup(r, "check_in_date").value.JString?
      && Lookup(r, "check_out_date").Some? && Lookup(r, "check_out_date").value.JString?
      && var checkIn := ParseYmd(Lookup(r, "check_in_date").value.s);
      && var checkOut := ParseYmd(Lookup(r, "check_out_date").value.s);
      && checkIn.Some? && checkOut.Some?
      && NotAfter(today, checkIn.value) && Before(checkIn.value, checkOut.value)
  {
    if ExtractHotelSearchParams(repr, parse, today, reply, userInput).Success? {
      var stay := StayDates(repr, parse, today, DecodedOrEmpty(reply).fields, userInput).value;
      ParseIsoFormat(stay.checkIn);
      ParseIsoFormat(stay.checkOut);
    }
  }

  /** A reply that is not valid JSON is treated exactly like the reply `{}`. */
  lemma UnreadableReplyIsEmptyDict(repr: Json -> string, parse: string -> Option<CalendarDate>, today: CalendarDate,
                                   userInput: string)
    ensures ExtractHotelSearchParams(repr, parse, today, None, userInput)
         == ExtractHotelSearchParams(repr, parse, today, Some(JObject(EmptyDict)), userInput)
  {
    assert DecodedOrEmpty(None) == DecodedOrEmpty(Some(JObject(EmptyDict)));
  }

  /** With nothing from the reply, check-in comes from the user's own text: that
      text's date (raised to today when it is past), or today. */
  lemma EmptyReplyUsesUserText(repr: Json -> string, parse: string -> Option<CalendarDate>, today: CalendarDate,
                               userInput: string)
    ensures CheckIn(repr, parse, today, EmptyDict, userInput)
         == if userInput != "" && parse(userInput).Some? then ClampToToday(parse(userInput).value, today) else today
  {
    assert Or(Get(EmptyDict, "check_in_date", JNull), JString(userInput)) == JString(userInput);
  }
}
