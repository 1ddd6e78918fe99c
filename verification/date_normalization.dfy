/** The `normalize_date` helper that src/services/nlp_service.py and
    src/services/nlp_hotel_service.py each define inside their extraction function:
    a falsy value gives the fallback, otherwise its text goes to `dateparser.parse`;
    a parsed date before today becomes today. */
module DateNormalization {
  import opened Wrappers
  import opened Json
  import opened Builtins
  import opened Calendar

  /** `parse` stands for `dateparser.parse` (with the current time as its relative
      base) reduced to the date of the datetime it returns, None where it finds none. */
  function NormalizeDate(repr: Json -> string, parse: string -> Option<CalendarDate>, today: CalendarDate,
                         value: Json, fallback: Option<CalendarDate>): (r: Option<CalendarDate>)
    ensures !Truthy(value) || parse(Str(repr, value)).None? ==> r == fallback
    ensures Truthy(value) && parse(Str(repr, value)).Some? ==>
      var p := parse(Str(repr, value)).value;
      && r.Some? && NotAfter(today, r.value)
      && (NotAfter(today, p) ==> r.value == p)
      && (Before(p, today) ==> r.value == today)
  {
    if !Truthy(value) then fallback
    else
      match parse(Str(repr, value))
      case Some(p) => Some(ClampToToday(p, today))
      case None => fallback
  }

  /** With a fallback that is absent or not in the past, no normalized date is in the past. */
  lemma NormalizedNeverPast(repr: Json -> string, parse: string -> Option<CalendarDate>, today: CalendarDate,
                            value: Json, fallback: Option<CalendarDate>)
    requires fallback.Some? ==> NotAfter(today, fallback.value)
    ensures var r := NormalizeDate(repr, parse, today, value, fallback);
      r.Some? ==> NotAfter(today, r.value)
  {
  }

  /** `data["check_in_date"] = ...; data["check_out_date"] = ...`: both services write
      the normalized dates back over the reply's own values. */
  function WriteStay(f: Dict, checkIn: string, checkOut: string): (r: Dict)
    ensures Lookup(r, "check_in_date") == Some(JString(checkIn))
    ensures Lookup(r, "check_out_date") == Some(JString(checkOut))
    ensures forall k :: k != "check_in_date" && k != "check_out_date" ==> Lookup(r, k) == Lookup(f, k)
  {
    Put(Put(f, "check_in_date", JString(checkIn)), "check_out_date", JString(checkOut))
  }
}
