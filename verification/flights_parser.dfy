/** The handling of the model's replies in src/utils/flights_parser.py once they are
    decoded: the flight-search normalisation, the flight-info fallback and the
    booking-id lookup. A reply is `None` when its text is not valid JSON. */
module FlightsParser {
  import opened Wrappers
  import opened Text
  import opened Json
  import opened Builtins

  /** The dict `normalize_flight_input` hands to `FlightsListSearchRequest`. */
  datatype FlightSearch = FlightSearch(
    departureAirport: string,
    arrivalAirport: string,
    departureDate: string,
    cabinClass: Json,
    currency: string,
    adults: int,
    children: int,
    infants: int,
    airline: Json)

  /** `reply.get(camel, raw.get(snake, default))`: the reply's camelCase key wins,
      then the caller's snake_case key, then the default. */
  function Pick(reply: Dict, raw: Dict, camel: string, snake: string, default: Json): (r: Json)
    ensures HasKey(reply, camel) ==> Lookup(reply, camel) == Some(r)
    ensures !HasKey(reply, camel) && HasKey(raw, snake) ==> Lookup(raw, snake) == Some(r)
    ensures !HasKey(reply, camel) && !HasKey(raw, snake) ==> r == default
  {
    Get(reply, camel, Get(raw, snake, default))
  }

  /** `v.upper()`: strings are upper-cased, anything else has no such method. */
  function UpperOf(v: Json): (r: Result<string, Exception>)
    ensures r.Success? <==> v.JString?
    ensures r.Success? ==> |r.value| == |v.s| && forall k :: 0 <= k < |v.s| ==> r.value[k] == UpperChar(v.s[k])
    ensures r.Failure? ==> r.error.AttributeError?
  {
    if v.JString? then Success(Upper(v.s)) else Failure(AttributeError("object has no attribute 'upper'"))
  }

  /** `v.replace(" ", "-")`: every space becomes a dash and nothing else changes. */
  function DashDate(v: Json): (r: Result<string, Exception>)
    ensures r.Success? <==> v.JString?
    ensures r.Success? ==> |r.value| == |v.s|
    ensures r.Success? ==> forall k :: 0 <= k < |v.s| ==> r.value[k] == if v.s[k] == ' ' then '-' else v.s[k]
    ensures r.Success? ==> ' ' !in r.value
    ensures r.Failure? ==> r.error.AttributeError?
  {
    if v.JString? then
      ReplaceChar(v.s, ' ', '-');
      Success(ReplaceAll(v.s, " ", "-"))
    else Failure(AttributeError("object has no attribute 'replace'"))
  }

  /** Lines 53-69: the fields evaluated in the order the dict display lists them, the
      first exception raised ending the call. A reply that does not decode is `{}`; a
      decoded reply that is not a dict has no `.get`. */
  function NormalizeFlightInput(raw: Dict, reply: Option<Json>): (r: Result<FlightSearch, Exception>)
    ensures !DecodedOrEmpty(reply).JObject? ==> r.Failure? && r.error.AttributeError?
    ensures DecodedOrEmpty(reply).JObject? ==> var f := DecodedOrEmpty(reply).fields;
      r.Success? <==>
        && Pick(f, raw, "departureAirport", "departure_airport", JString("")).JString?
        && Pick(f, raw, "arrivalAirport", "arrival_airport", JString("")).JString?
        && Pick(f, raw, "departureDate", "departure_date", JString("")).JString?
        && Pick(f, raw, "currency", "currency", JString("CAD")).JString?
        && ToInt(Pick(f, raw, "adults", "adults", JInt(1))).Success?
        && ToInt(Pick(f, raw, "children", "children", JInt(0))).Success?
        && ToInt(Pick(f, raw, "infants", "infants", JInt(0))).Success?
    ensures r.Success? ==> DecodedOrEmpty(reply).JObject?
    ensures r.Success? ==> var f := DecodedOrEmpty(reply).fields;
      && r.value.departureAirport == Upper(Pick(f, raw, "departureAirport", "departure_airport", JString("")).s)
      && r.value.arrivalAirport == Upper(Pick(f, raw, "arrivalAirport", "arrival_airport", JString("")).s)
      && r.value.departureDate == ReplaceAll(Pick(f, raw, "departureDate", "departure_date", JString("")).s, " ", "-")
      && r.value.currency == Upper(Pick(f, raw, "currency", "currency", JString("CAD")).s)
      && r.value.cabinClass == Pick(f, raw, "cabinClass", "cabin_class", JString("Economy"))
      && r.value.airline == Pick(f, raw, "airline", "airline", JString(""))
      && ToInt(Pick(f, raw, "adults", "adults", JInt(1))) == Success(r.value.adults)
      && ToInt(Pick(f, raw, "children", "children", JInt(0))) == Success(r.value.children)
      && ToInt(Pick(f, raw, "infants", "infants", JInt(0))) == Success(r.value.infants)
    ensures r.Success? ==> ' ' !in r.value.departureDate
    ensures r.Success? ==>
      && (forall k :: 0 <= k < |r.value.departureAirport| ==> !IsAsciiLower(r.value.departureAirport[k]))
      && (forall k :: 0 <= k < |r.value.arrivalAirport| ==> !IsAsciiLower(r.value.arrivalAirport[k]))
      && (forall k :: 0 <= k < |r.value.currency| ==> !IsAsciiLower(r.value.currency[k]))
  {
    var f :- AsDict(DecodedOrEmpty(reply));
    var departureAirport :- UpperOf(Pick(f, raw, "departureAirport", "departure_airport", JString("")));
    var arrivalAirport :- UpperOf(Pick(f, raw, "arrivalAirport", "arrival_airport", JString("")));
    var departureDate :- DashDate(Pick(f, raw, "departureDate", "departure_date", JString("")));
    var cabinClass := Pick(f, raw, "cabinClass", "cabin_class", JString("Economy"));
    var currency :- UpperOf(Pick(f, raw, "currency", "currency", JString("CAD")));
    var adults :- ToInt(Pick(f, raw, "adults", "adults", JInt(1)));
    var children :- ToInt(Pick(f, raw, "children", "children", JInt(0)));
    var infants :- ToInt(Pick(f, raw, "infants", "infants", JInt(0)));
    var airline := Pick(f, raw, "airline", "airline", JString(""));
    Success(FlightSearch(departureAirport, arrivalAirport, departureDate, cabinClass, currency,
                         adults, children, infants, airline))
  }

  /** With no usable reply and no caller fields, every field takes its default. */
  lemma DefaultsWhenNothingIsGiven()
    ensures NormalizeFlightInput(EmptyDict, None)
         == Success(FlightSearch("", "", "", JString("Economy"), "CAD", 1, 0, 0, JString("")))
  {
    var r := NormalizeFlightInput(EmptyDict, None).value;
    assert |r.currency| == 3 && r.currency[0] == 'C' && r.currency[1] == 'A' && r.currency[2] == 'D';
    assert r.currency == "CAD";
  }

  /** An unreadable reply is the reply `{}`: every field comes from the caller or the default. */
  lemma UnreadableReplyUsesCallerFields(raw: Dict)
    ensures NormalizeFlightInput(raw, None) == NormalizeFlightInput(raw, Some(JObject(EmptyDict)))
  {
    assert DecodedOrEmpty(None) == DecodedOrEmpty(Some(JObject(EmptyDict)));
  }

  /** A number of travellers the reply gives as a string of digits is read as that number. */
  lemma ReplyAdultsAsText(raw: Dict, reply: Dict, n: nat)
    requires Lookup(reply, "adults") == Some(JString(IntToString(n)))
    requires NormalizeFlightInput(raw, Some(JObject(reply))).Success?
    ensures NormalizeFlightInput(raw, Some(JObject(reply))).value.adults == n
  {
    ParseIntToString(n);
  }

  /** The caller's fields for a search: its values under their snake_case names. */
  function AsRawFields(s: FlightSearch): (r: Dict)
    ensures Lookup(r, "departure_airport") == Some(JString(s.departureAirport))
    ensures Lookup(r, "arrival_airport") == Some(JString(s.arrivalAirport))
    ensures Lookup(r, "departure_date") == Some(JString(s.departureDate))
    ensures Lookup(r, "cabin_class") == Some(s.cabinClass)
    ensures Lookup(r, "currency") == Some(JString(s.currency))
    ensures Lookup(r, "adults") == Some(JInt(s.adults))
    ensures Lookup(r, "children") == Some(JInt(s.children))
    ensures Lookup(r, "infants") == Some(JInt(s.infants))
    ensures Lookup(r, "airline") == Some(s.airline)
  {
    Dict(["departure_airport", "arrival_airport", "departure_date", "cabin_class", "currency",
          "adults", "children", "infants", "airline"],
         map["departure_airport" := JString(s.departureAirport), "arrival_airport" := JString(s.arrivalAirport),
             "departure_date" := JString(s.departureDate), "cabin_class" := s.cabinClass,
             "currency" := JString(s.currency), "adults" := JInt(s.adults), "children" := JInt(s.children),
             "infants" := JInt(s.infants), "airline" := s.airline])
  }

  /** Upper-casing twice is upper-casing once. */
  lemma UpperIdempotent(s: string)
    ensures Upper(Upper(s)) == Upper(s)
  {
    assert forall k :: 0 <= k < |s| ==> UpperChar(UpperChar(s[k])) == UpperChar(s[k]);
  }

  /** A text with no spaces is left alone by the space-to-dash replacement. */
  lemma DashesWithoutSpaces(s: string)
    requires ' ' !in s
    ensures ReplaceAll(s, " ", "-") == s
  {
    ReplaceChar(s, ' ', '-');
  }

  /** A search whose texts are already upper-cased and dashed is its own normalisation
      when given as the caller's fields with an unreadable reply. */
  lemma NormalSearchIsKept(s: FlightSearch)
    requires Upper(s.departureAirport) == s.departureAirport && Upper(s.arrivalAirport) == s.arrivalAirport
    requires Upper(s.currency) == s.currency && ' ' !in s.departureDate
    ensures NormalizeFlightInput(AsRawFields(s), None) == Success(s)
  {
    var raw := AsRawFields(s);
    assert Pick(EmptyDict, raw, "departureAirport", "departure_airport", JString("")) == JString(s.departureAirport);
    assert Pick(EmptyDict, raw, "arrivalAirport", "arrival_airport", JString("")) == JString(s.arrivalAirport);
    assert Pick(EmptyDict, raw, "departureDate", "departure_date", JString("")) == JString(s.departureDate);
    assert Pick(EmptyDict, raw, "currency", "currency", JString("CAD")) == JString(s.currency);
    assert Pick(EmptyDict, raw, "adults", "adults", JInt(1)) == JInt(s.adults);
    assert Pick(EmptyDict, raw, "children", "children", JInt(0)) == JInt(s.children);
    assert Pick(EmptyDict, raw, "infants", "infants", JInt(0)) == JInt(s.infants);
    DashesWithoutSpaces(s.departureDate);
  }

  /** Normalising is idempotent: feeding a normalised search back as the caller's
      fields, with an unreadable reply, gives the same search. */
  lemma NormalizeIsIdempotent(raw: Dict, reply: Option<Json>)
    requires NormalizeFlightInput(raw, reply).Success?
    ensures var s := NormalizeFlightInput(raw, reply).value;
      NormalizeFlightInput(AsRawFields(s), None) == Success(s)
  {
    var s := NormalizeFlightInput(raw, reply).value;
    var f := DecodedOrEmpty(reply).fields;
    UpperIdempotent(Pick(f, raw, "departureAirport", "departure_airport", JString("")).s);
    UpperIdempotent(Pick(f, raw, "arrivalAirport", "arrival_airport", JString("")).s);
    UpperIdempotent(Pick(f, raw, "currency", "currency", JString("CAD")).s);
    NormalSearchIsKept(s);
  }

  // ---------------------------------------------------------------------------
  // parse_query_flight_info

  /** The fields `FlightInfoRequest` is built from. */
  datatype FlightInfo = FlightInfo(flightNumber: string, airline: Json, departureDate: Json)

  /** Lines 120-124: the dict used when the reply is not valid JSON. */
  const FlightInfoFallback: Dict :=
    Dict(["airline", "flight_number", "departure_date"],
         map["airline" := JString(""), "flight_number" := JString(""), "departure_date" := JString("")])

  /** Lines 116-129: the flight number as `str()` renders it, the other two fields as
      given, each "" when missing. */
  function ParseQueryFlightInfo(repr: Json -> string, reply: Option<Json>): (r: Result<FlightInfo, Exception>)
    ensures reply.Some? && !reply.value.JObject? ==> r.Failure? && r.error.AttributeError?
    ensures reply.Some? && reply.value.JObject? ==> r.Success?
    ensures reply.Some? && reply.value.JObject? ==> var f := reply.value.fields;
      && r.value.flightNumber == Str(repr, Get(f, "flight_number", JString("")))
      && (HasKey(f, "airline") ==> Lookup(f, "airline") == Some(r.value.airline))
      && (!HasKey(f, "airline") ==> r.value.airline == JString(""))
      && (HasKey(f, "departure_date") ==> Lookup(f, "departure_date") == Some(r.value.departureDate))
      && (!HasKey(f, "departure_date") ==> r.value.departureDate == JString(""))
  {
    var data := if reply.Some? then reply.value else JObject(FlightInfoFallback);
    var f :- AsDict(data);
    Success(FlightInfo(Str(repr, Get(f, "flight_number", JString(""))),
                       Get(f, "airline", JString("")),
                       Get(f, "departure_date", JString(""))))
  }

  /** An unreadable reply gives an empty flight number, airline and departure date. */
  lemma UnreadableReplyGivesEmptyFields(repr: Json -> string)
    ensures ParseQueryFlightInfo(repr, None) == Success(FlightInfo("", JString(""), JString("")))
  {
    assert Get(FlightInfoFallback, "flight_number", JString("")) == JString("");
  }

  /** A flight number the reply gives as an integer comes back as text that `int()`
      reads as the same number. */
  lemma IntegerFlightNumberRoundTrips(repr: Json -> string, f: Dict, n: int)
    requires Lookup(f, "flight_number") == Some(JInt(n))
    ensures var r := ParseQueryFlightInfo(repr, Some(JObject(f)));
      r.Success? && ToInt(JString(r.value.flightNumber)) == Success(n)
  {
    IntOfStr(repr, n);
  }

  // ---------------------------------------------------------------------------
  // parse_query_booking_id

  /** Lines 166-172: the reply's `booking_id`, "" when it is missing or the reply is
      not valid JSON. Only the decoding error is caught, so a reply that decodes to
      something other than a dict raises AttributeError. */
  function ParseQueryBookingId(reply: Option<Json>): (r: Result<Json, Exception>)
    ensures r.Success? <==> reply.None? || reply.value.JObject?
    ensures reply.None? ==> r.value == JString("")
    ensures reply.Some? && reply.value.JObject? ==>
      r.value == if HasKey(reply.value.fields, "booking_id") then Lookup(reply.value.fields, "booking_id").value
                 else JString("")
    ensures r.Failure? ==> r.error.AttributeError?
  {
    match reply
    case None => Success(JString(""))
    case Some(data) =>
      var f :- AsDict(data);
      Success(Get(f, "booking_id", JString("")))
  }

  /** A reply that is not valid JSON gives the same booking id as an empty dict. */
  lemma UnreadableReplyGivesEmptyBookingId()
    ensures ParseQueryBookingId(None) == ParseQueryBookingId(Some(JObject(EmptyDict)))
    ensures ParseQueryBookingId(None) == Success(JString(""))
  {
  }
}
