/** `extract_hotel_search_params` of src/services/nlp_hotel_service.py after the
    model has answered: like the variant in nlp_service.py, but a date the reply does
    not give stays None, so comparing the two dates raises; adults and children are
    copied without a default. `today` and the date parser are parameters. */
module NlpHotelService {
  import opened Wrappers
  import opened Json
  import opened Builtins
  import opened Calendar
  import opened DateNormalization

  /** Line 93 and line 94: a reply date normalized with no fallback. A missing, falsy
      or unparseable value gives None; a parsed date is moved up to today when it is
      in the past. */
  function ReplyDate(repr: Json -> string, parse: string -> Option<CalendarDate>, today: CalendarDate,
                     f: Dict, key: string): (r: Option<CalendarDate>)
    ensures var v := Get(f, key, JNull);
      r == if Truthy(v) && parse(Str(repr, v)).Some? then Some(ClampToToday(parse(Str(repr, v)).value, today))
           else None
    ensures r.Some? ==> NotAfter(today, r.value)
    ensures !Truthy(Get(f, key, JNull)) ==> r.None?
  {
    NormalizedNeverPast(repr, parse, today, Get(f, key, JNull), None);
    NormalizeDate(repr, parse, today, Get(f, key, JNull), None)
  }

  predicate IsCopiedKey(k: string) {
    k == "adults" || k == "children" || k == "currency" || k == "gl" || k == "hl"
  }

  /** Lines 108-112: adults and children are copied and become null when absent;
      currency, gl and hl default to "CAD", "us" and "en". */
  function WithDefaults(f: Dict): (r: Dict)
    ensures Lookup(r, "adults") == Some(Get(f, "adults", JNull))
    ensures Lookup(r, "children") == Some(Get(f, "children", JNull))
    ensures Lookup(r, "currency") == Some(Get(f, "currency", JString("CAD")))
    ensures Lookup(r, "gl") == Some(Get(f, "gl", JString("us")))
    ensures Lookup(r, "hl") == Some(Get(f, "hl", JString("en")))
    ensures forall k :: !IsCopiedKey(k) ==> Lookup(r, k) == Lookup(f, k)
  {
    var a := SetDefault(f, "adults", JNull);
    var b := SetDefault(a, "children", JNull);
    var c := SetDefault(b, "currency", JString("CAD"));
    var d := SetDefault(c, "gl", JString("us"));
    SetDefault(d, "hl", JString("en"))
  }

  predicate IsWrittenKey(k: string) {
    k == "check_in_date" || k == "check_out_date" || IsCopiedKey(k)
  }

  /** Lines 104-112: the dates written as the given strings, the copies and
      defaults filled in, every other key of the reply passed through. */
  function SearchParams(f: Dict, checkIn: string, checkOut: string): (r: Dict)
    ensures Lookup(r, "check_in_date") == Some(JString(checkIn))
    ensures Lookup(r, "check_out_date") == Some(JString(checkOut))
    ensures Lookup(r, "adults") == Some(Get(f, "adults", JNull))
    ensures Lookup(r, "children") == Some(Get(f, "children", JNull))
    ensures Lookup(r, "currency") == Some(Get(f, "currency", JString("CAD")))
    ensures Lookup(r, "gl") == Some(Get(f, "gl", JString("us")))
    ensures Lookup(r, "hl") == Some(Get(f, "hl", JString("en")))
    ensures forall k :: !IsWrittenKey(k) ==> Lookup(r, k) == Lookup(f, k)
  {
    DatesAreWritten(f, checkIn, checkOut);
    DefaultsAreFilled(f, checkIn, checkOut);
    OtherKeysPassThrough(f, checkIn, checkOut);
    WithDefaults(WriteStay(f, checkIn, checkOut))
  }

  lemma DatesAreWritten(f: Dict, checkIn: string, checkOut: string)
    ensures Lookup(WithDefaults(WriteStay(f, checkIn, checkOut)), "check_in_date") == Some(JString(checkIn))
    ensures Lookup(WithDefaults(WriteStay(f, checkIn, checkOut)), "check_out_date") == Some(JString(checkOut))
  {
    var w := WriteStay(f, checkIn, checkOut);
    assert !IsCopiedKey("check_in_date") && !IsCopiedKey("check_out_date");
  }

  lemma DefaultsAreFilled(f: Dict, checkIn: string, checkOut: string)
    ensures var r := WithDefaults(WriteStay(f, checkIn, checkOut));
      && Lookup(r, "adults") == Some(Get(f, "adults", JNull))
      && Lookup(r, "children") == Some(Get(f, "children", JNull))
      && Lookup(r, "currency") == Some(Get(f, "currency", JString("CAD")))
      && Lookup(r, "gl") == Some(Get(f, "gl", JString("us")))
      && Lookup(r, "hl") == Some(Get(f, "hl", JString("en")))
  {
  }

  lemma OtherKeysPassThrough(f: Dict, checkIn: string, checkOut: string)
    ensures forall k :: !IsWrittenKey(k) ==> Lookup(WithDefaults(WriteStay(f, checkIn, checkOut)), k) == Lookup(f, k)
  {
  }

  /** Lines 71-114, from the decoded reply on. A reply that is not a dict raises
      AttributeError; a date that did not normalize is None, and comparing it raises
      TypeError; a check-out not after check-in becomes the next day, which raises
      OverflowError past the last representable date. */
  function ExtractHotelSearchParams(repr: Json -> string, parse: string -> Option<CalendarDate>, today: CalendarDate,
                                    reply: Option<Json>): (r: Result<Dict, Exception>)
    ensures !DecodedOrEmpty(reply).JObject? ==> r.Failure? && r.error.AttributeError?
    ensures DecodedOrEmpty(reply).JObject? ==>
      var f := DecodedOrEmpty(reply).fields;
      var checkIn := ReplyDate(repr, parse, today, f, "check_in_date");
      var checkOut := ReplyDate(repr, parse, today, f, "check_out_date");
      && (checkIn.None? || checkOut.None? ==> r.Failure? && r.error.TypeError?)
      && (checkIn.Some? && checkOut.Some? && Before(checkIn.value, checkOut.value) ==>
            r == Success(SearchParams(f, IsoFormat(checkIn.value), IsoFormat(checkOut.value))))
      && (checkIn.Some? && checkOut.Some? && NotAfter(checkOut.value, checkIn.value) ==>
            r == if checkIn.value == LastDate then Failure(OverflowError("date value out of range"))
                 else Success(SearchParams(f, IsoFormat(checkIn.value), IsoFormat(NextDay(checkIn.value).value))))
  {
    var f :- AsDict(DecodedOrEmpty(reply));
    var checkIn := ReplyDate(repr, parse, today, f, "check_in_date");
    var checkOut := ReplyDate(repr, parse, today, f, "check_out_date");
    if checkIn.None? || checkOut.None? then
      Failure(TypeError("'<=' not supported between instances of 'NoneType' and 'datetime.date'"))
    else
      var out :- if NotAfter(checkOut.value, checkIn.value) then NextDay(checkIn.value) else Success(checkOut.value);
      Success(SearchParams(f, IsoFormat(checkIn.value), IsoFormat(out)))
  }

  /** When the call succeeds, the dates written back read as `%Y-%m-%d` dates with
      check-in not before today and check-out strictly after it. */
  lemma WrittenDatesAreOrdered(repr: Json -> string, parse: string -> Option<CalendarDate>, today: CalendarDate,
                               reply: Option<Json>)
    ensures var res := ExtractHotelSearchParams(repr, parse, today, reply);
      res.Success? ==>
      var r := res.value;
      && Lookup(r, "check_in_date").Some? && Lookup(r, "check_in_date").value.JString?
      && Lookup(r, "check_out_date").Some? && Lookup(r, "check_out_date").value.JString?
      && var checkIn := ParseYmd(Lookup(r, "check_in_date").value.s);
      && var checkOut := ParseYmd(Lookup(r, "check_out_date").value.s);
      && checkIn.Some? && checkOut.Some?
      && NotAfter(today, checkIn.value) && Before(checkIn.value, checkOut.value)
  {
    if ExtractHotelSearchParams(repr, parse, today, reply).Success? {
      var f := DecodedOrEmpty(reply).fields;
      var checkIn := ReplyDate(repr, parse, today, f, "check_in_date").value;
      var checkOut := ReplyDate(repr, parse, today, f, "check_out_date").value;
      var out := if NotAfter(checkOut, checkIn) then NextDay(checkIn).value else checkOut;
      ParseIsoFormat(checkIn);
      ParseIsoFormat(out);
    }
  }

  /** A reply that is not valid JSON is read as `{}`, which gives no dates, so the
      call always fails with TypeError. */
  lemma UnreadableReplyAlwaysFails(repr: Json -> string, parse: string -> Option<CalendarDate>, today: CalendarDate)
    ensures var r := ExtractHotelSearchParams(repr, parse, today, None);
      r.Failure? && r.error.TypeError?
  {
    assert ReplyDate(repr, parse, today, EmptyDict, "check_in_date").None?;
  }
}
