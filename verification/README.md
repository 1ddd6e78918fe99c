# TravelBuddy core in Dafny

TravelBuddy is a travel-planning back end. Almost everything it does goes through a
language model, a hotel or flight API, or MongoDB. This project models the deterministic
code around those calls and proves properties of it:

- **Itinerary repair** (`ai_service.py`). Markdown fences are stripped from the model's
  reply. `validate_response_str` then turns the parsed reply into a list of day entries.
  Each entry holds `day` and `activities`, or the call raises.
- **Reply normalisers.** `normalize_flight_input`, `parse_query_flight_info` and
  `parse_query_booking_id` are in `flights_parser.py`. The two `extract_hotel_search_params`
  functions are in `nlp_service.py` and `nlp_hotel_service.py`. Each follows a fallback
  chain: reply key, then caller key, then default. It upper-cases, dashes, clamps and
  orders dates, and fills defaults.
- **Rule-based extraction** (`vacation_extractor.py`, `rule_extract`). The traveller-count
  regular expressions are written as a scanner. The scanner is proved to agree with a
  declarative reading of `(\d+)\s+word`.
- **Bookings.** The `BookingCreate` validator checks `%Y-%m-%d` parsing, a strict
  check-out > check-in, price and currency. `search_hotels` drops None parameters.
  `create_booking_for_user` builds the booking document, including its
  `HTL-xxxxxxxx` confirmation number.
- **User registry** (`user_service.py`). Sign-up rejects duplicates; login checks
  credentials.

The model is written in Python's own terms:

- JSON values are a datatype. Dicts keep their insertion order.
- A raised exception is the `Failure` side of a `Result`.
- `str()`, `int()`, `.get`, `in`, `strip`, `upper` and `replace` are written out.
- Dates are `(year, month, day)` records in 1..9999 with Python's ordering.
  - Parsing follows `strptime` with `%Y-%m-%d`; printing follows `isoformat`.
  - `date + timedelta(days=1)` raises OverflowError after 9999-12-31.

Some inputs are parameters:

- `today`, the clock readings and the UUID drawn by `uuid4()`.
- `dateparser.parse`, as a partial function from text to a date.
- The matches of the city and date regular expressions.
- Python's rendering of floats and containers (`repr`).
- The password hash, password verifier and token signer.

Modules, one per file: `Wrappers`, `Text`, `Json`, `Builtins` and `Calendar` hold the
Python built-ins. `ItineraryRepair`, `BookingModel`, `DateNormalization`, `NlpService`,
`NlpHotelService`, `FlightsParser`, `VacationExtractor`, `HotelService` and `UserService`
each follow one source file.

Where the code and its documentation differ, the model follows the code:

- **Day numbers.** `validate_response_str` does not renumber days. An entry that has a
  `day` keeps it, even if it repeats or leaves gaps (`ItineraryRepair.DaysAreNotRenumbered`).
- **Missing keys.** A reply missing `destination`, `duration`, `number_of_travelers` or
  `budget` is not repaired. The fallback `locals()[key]` finds no such local variable,
  so the call raises KeyError (`ItineraryRepair.RepairFailsOnMissingKeys`).
- **Missing hotel dates.** In `nlp_hotel_service.py` a missing or unreadable date is
  None, so the comparison at line 100 raises TypeError. That service never defaults the
  dates (`NlpHotelService.UnreadableReplyAlwaysFails`).
- **Date representation.** Dates are year/month/day records rather than day numbers.
  The `%Y-%m-%d` texts and ISO strings the code reads and writes can then be modelled
  character by character.

## Model

| member | source | states |
|---|---|---|
| ItineraryRepair.StripFences | src/services/ai_service.py:49-50 | After removing "```json" and then "```", no "```" remains, and text without a backtick is unchanged |
| ItineraryRepair.NoFenceLeft | src/services/ai_service.py:50 | Removing every "```" left to right never joins backticks into a new "```" |
| ItineraryRepair.FencedReplyIsUnwrapped | src/services/ai_service.py:49-51 | For backtick-free texts a, b, c, stripping a + "```json" + b + "```" + c gives a + b + c, except that a c starting "json" loses those four letters |
| ItineraryRepair.RemoveFenceKeepsHead | src/services/ai_service.py:50 | Fence removal keeps the first character of a text that does not start with a backtick |
| ItineraryRepair.EnsureReplyKeys | src/services/ai_service.py:60-69 | For a dict reply, a missing itinerary becomes [] and any other missing checked key raises KeyError naming it; present keys are untouched |
| ItineraryRepair.DayEntry | src/services/ai_service.py:71 | A fresh entry holds exactly the given day number and activities |
| ItineraryRepair.FixEntry | src/services/ai_service.py:76-84 | A non-dict entry at position i becomes {day: i, activities: [str(entry)]}; a dict keeps its day, activities and other keys, gains day i or [] only where missing, and a complete entry is unchanged |
| ItineraryRepair.FixEntries | src/services/ai_service.py:74-86 | The repaired list has the input's length and every element holds day and activities |
| ItineraryRepair.FixEntriesKeepsDayEntries | src/services/ai_service.py:78-85 | A list of complete entries is left as it is |
| ItineraryRepair.ValidateResponse | src/services/ai_service.py:59-88 | Every element of a successful result is a dict with day and activities |
| ItineraryRepair.RepairOfCompleteReply | src/services/ai_service.py:64-88 | A dict with all required keys is repaired by walking its itinerary entries from position 1 |
| ItineraryRepair.RepairFailsOnMissingKeys | src/services/ai_service.py:64-69 | The repair succeeds exactly for dicts holding destination, duration, number_of_travelers and budget; otherwise a dict gets KeyError for the first missing key |
| ItineraryRepair.MissingItineraryIsEmpty | src/services/ai_service.py:66-67 | A reply without itinerary repairs to [] |
| ItineraryRepair.NonListItineraryIsWrapped | src/services/ai_service.py:70-71 | A non-list itinerary v gives exactly [{day: 1, activities: [str(v)]}] |
| ItineraryRepair.ListItineraryIsRepairedInPlace | src/services/ai_service.py:74-86 | A list itinerary keeps length and order; the entry at position i is repaired alone with fallback day i |
| ItineraryRepair.RepairIsIdempotent | src/services/ai_service.py:74-88 | Repairing an already repaired itinerary gives it back unchanged |
| ItineraryRepair.DaysAreNotRenumbered | src/services/ai_service.py:78-84 | Complete entries keep their day numbers whatever their position |
| ItineraryRepair.RomeKeepsDaySeven | src/services/ai_service.py:78-86 | Two entries both marked day 7 come back as day 7 twice |
| BookingModel.CheckDates | src/models/hotel_model.py:10-16 | Accepts exactly when both texts parse as `%Y-%m-%d` dates and check-out is strictly later; returns the check-out text unchanged; names which date failed to parse, and refuses a parsed check-out that is not strictly later as "check_out must be after check_in" |
| BookingModel.SameDayRejected | src/models/hotel_model.py:14-15 | Equal dates are refused |
| BookingModel.CheckDatesIsAsymmetric | src/models/hotel_model.py:14 | A pair accepted one way is refused the other way |
| BookingModel.OneNightAccepted | src/models/hotel_model.py:12-16 | A date and its successor, both in ISO form, are accepted |
| BookingModel.ShortFieldsAccepted | src/models/hotel_model.py:12 | "2025-1-5" parses: one-digit month and day are allowed |
| BookingModel.LeapDayAccepted | src/models/hotel_model.py:12 | "2024-02-29" parses |
| BookingModel.NonLeapDayRefused | src/models/hotel_model.py:12 | "2023-02-29" does not parse |
| BookingModel.YearZeroRefused | src/models/hotel_model.py:12 | "0000-01-01" does not parse |
| BookingModel.MonthThirteenRefused | src/models/hotel_model.py:12 | "2025-13-01" does not parse |
| BookingModel.ValidateBooking | src/models/hotel_model.py:4-16 | Valid exactly when the dates check out, price > 0 and the currency has length 3; each violation is reported; a valid request is returned unchanged |
| BookingModel.ValidateRequest | src/models/hotel_model.py:4-16 | A missing or invalid check-in raises KeyError("check_in") from the validator; otherwise the outcome of the field validation, with the violations as a validation error |
| BookingModel.ExampleBookingAccepted | src/models/hotel_model.py:5-8 | The documented example request is valid |
| BookingModel.SameDayBookingRefused | src/models/hotel_model.py:10-16 | A request whose check-out equals its check-in, with a valid price and currency, fails on check-out alone: not after check-in, or check-in unparseable |
| Calendar.ParseYmd | src/models/hotel_model.py:12-13 | A text parses exactly when it is four year digits, a dash, a `%m` text, a dash and a `%d` text with nothing left over, naming a real date, and the result is that date; anything else, such as trailing characters, is refused |
| Calendar.ParseIsoFormat | src/services/nlp_service.py:78-79 | `isoformat` output reads back as the same date under `%Y-%m-%d` |
| Calendar.ParseOfFields | src/models/hotel_model.py:12-13 | Year digits, a month text and a day text joined by dashes parse to the date they name when it exists |
| Calendar.LeapDayParses | src/models/hotel_model.py:12-13 | February 29 parses exactly in leap years |
| Calendar.IsoFormatShape | src/services/nlp_service.py:78-79 | An ISO date is four digits, dash, two digits, dash, two digits |
| Calendar.ZeroPad | src/services/nlp_service.py:78-79 | Padding gives exactly width digits that read back as the number |
| Calendar.MonthTextRoundTrip | src/services/nlp_service.py:78 | A padded month is a text `%m` accepts, and it reads back as that month |
| Calendar.DayTextRoundTrip | src/services/nlp_service.py:78 | A padded day is a text `%d` accepts, and it reads back as that day |
| Calendar.NextDay | src/services/nlp_service.py:71-75 | The next date is strictly later with no date in between; OverflowError exactly at 9999-12-31 |
| Calendar.ClampToToday | src/services/nlp_service.py:64-65 | The result is never before today and is the date itself when that is not past |
| Calendar.BeforeIsStrictTotalOrder | src/services/nlp_service.py:74 | Date comparison is irreflexive, transitive and total |
| DateNormalization.NormalizeDate | src/services/nlp_service.py:55-67 | A falsy or unparseable value gives the fallback; a parsed date is raised to today when past |
| DateNormalization.NormalizedNeverPast | src/services/nlp_service.py:63-66 | With a fallback not in the past, no normalized date is in the past |
| DateNormalization.WriteStay | src/services/nlp_service.py:78-79 | Both date keys hold the written strings and every other key is untouched |
| NlpService.CheckIn | src/services/nlp_service.py:70 | Check-in is the reply's or the user's date, clamped to today, or today itself |
| NlpService.StayDates | src/services/nlp_service.py:70-75 | Check-out is after check-in: the requested one when later, otherwise the next day; OverflowError exactly when check-in is the last date |
| NlpService.WithDefaults | src/services/nlp_service.py:82-86 | adults, children, currency, gl and hl keep their values or default to 2, 0, "CAD", "us", "en"; other keys are untouched |
| NlpService.SearchParams | src/services/nlp_service.py:78-86 | The dates are written, the defaults filled, and other reply keys pass through |
| NlpService.ExtractHotelSearchParams | src/services/nlp_service.py:46-88 | Overflow when today is the last date; AttributeError for a non-dict reply; otherwise the search parameters of the normalized stay |
| NlpService.FromData | src/services/nlp_service.py:52-88 | The same outcome stated for the decoded reply |
| NlpService.WrittenDatesAreOrdered | src/services/nlp_service.py:70-79 | On success, the written dates parse back, check-in is not before today and check-out is after check-in |
| NlpService.UnreadableReplyIsEmptyDict | src/services/nlp_service.py:46-49 | A reply that is not JSON behaves exactly like `{}` (via Json.DecodedOrEmpty) |
| NlpService.EmptyReplyUsesUserText | src/services/nlp_service.py:70 | With nothing from the reply, check-in comes from the user's text or is today |
| NlpHotelService.ReplyDate | src/services/nlp_hotel_service.py:79-94 | A missing, falsy or unparseable date is None; a parsed date is that date moved up to today when it is past |
| NlpHotelService.WithDefaults | src/services/nlp_hotel_service.py:108-112 | adults and children are copied, null when absent; currency, gl, hl default to "CAD", "us", "en" |
| NlpHotelService.SearchParams | src/services/nlp_hotel_service.py:104-112 | The dates are written, the copies and defaults filled, and other reply keys pass through |
| NlpHotelService.ExtractHotelSearchParams | src/services/nlp_hotel_service.py:71-114 | AttributeError for a non-dict reply; TypeError when either date is None; a later check-out is kept; otherwise the next day, or OverflowError at the last date |
| NlpHotelService.WrittenDatesAreOrdered | src/services/nlp_hotel_service.py:88-90 | On success, the written dates parse back, check-in is not before today and check-out is after check-in |
| NlpHotelService.UnreadableReplyAlwaysFails | src/services/nlp_hotel_service.py:71-74 | A reply that is not JSON always ends in TypeError |
| FlightsParser.Pick | src/utils/flights_parser.py:60-68 | The reply's camelCase key wins, then the caller's snake_case key, then the default |
| FlightsParser.UpperOf | src/utils/flights_parser.py:60-61 | A string is upper-cased character by character; anything else raises AttributeError |
| FlightsParser.DashDate | src/utils/flights_parser.py:62 | Every space becomes a dash and nothing else changes; no space remains |
| FlightsParser.NormalizeFlightInput | src/utils/flights_parser.py:53-69 | A non-dict reply raises AttributeError; a dict reply succeeds exactly when the picked airports, date and currency are strings and the three counts convert with `int()`; then the airports and currency are the upper-cased picks, the date is the pick with spaces made dashes, the counts are `int()` of their picks, and cabin class and airline are the picks themselves |
| FlightsParser.DefaultsWhenNothingIsGiven | src/utils/flights_parser.py:59-69 | With no reply and no caller fields, every field takes its default |
| FlightsParser.UnreadableReplyUsesCallerFields | src/utils/flights_parser.py:53-57 | A reply that is not JSON behaves exactly like `{}` (via Json.DecodedOrEmpty) |
| FlightsParser.ReplyAdultsAsText | src/utils/flights_parser.py:65 | A traveller count given as a digit string is read as that number |
| FlightsParser.UpperIdempotent | src/utils/flights_parser.py:60 | Upper-casing twice is upper-casing once |
| FlightsParser.DashesWithoutSpaces | src/utils/flights_parser.py:62 | A text without spaces is unchanged by the dash replacement |
| FlightsParser.NormalSearchIsKept | src/utils/flights_parser.py:59-69 | An already normal search, given as caller fields, normalizes to itself |
| FlightsParser.NormalizeIsIdempotent | src/utils/flights_parser.py:59-69 | Normalizing a normalized search again changes nothing |
| FlightsParser.ParseQueryFlightInfo | src/utils/flights_parser.py:116-129 | A dict reply gives str() of the flight number and the airline and date as given, each "" when missing; a non-dict reply raises AttributeError |
| FlightsParser.UnreadableReplyGivesEmptyFields | src/utils/flights_parser.py:118-124 | A reply that is not JSON gives three empty fields |
| FlightsParser.IntegerFlightNumberRoundTrips | src/utils/flights_parser.py:126 | An integer flight number comes back as text that `int()` reads as the same number |
| FlightsParser.ParseQueryBookingId | src/utils/flights_parser.py:166-172 | The reply's booking_id, or "" when it is missing or the reply is not JSON; a non-dict reply raises AttributeError |
| FlightsParser.UnreadableReplyGivesEmptyBookingId | src/utils/flights_parser.py:166-172 | A reply that is not JSON gives the same booking id as `{}`, the empty text |
| VacationExtractor.MatchAtIsRegexMatch | src/utils/vacation_extractor.py:32-38 | The scanner matches exactly where `(\d+)\s+word` matches, and every match captures the whole digit run |
| VacationExtractor.FirstMatch | src/utils/vacation_extractor.py:32-38 | A found position is a match |
| VacationExtractor.FirstMatchIsLeftmost | src/utils/vacation_extractor.py:32-38 | No earlier position matches, and with nothing found no position matches |
| VacationExtractor.CountIsLeftmostMatch | src/utils/vacation_extractor.py:32-38 | A count exists exactly when the expression matches, and it is the value of the leftmost match's group |
| VacationExtractor.CountNeedsWord | src/utils/vacation_extractor.py:36-38 | A text without the word gets no count |
| VacationExtractor.Dedup | src/utils/vacation_extractor.py:19 | Same elements as the input, each once |
| VacationExtractor.ExtractedCities | src/utils/vacation_extractor.py:17-19 | Exactly the stripped captures, each once, none with surrounding whitespace |
| VacationExtractor.StrippedCaptures | src/utils/vacation_extractor.py:19 | The stripped list holds exactly the strip of each capture |
| VacationExtractor.ParsedDates | src/utils/vacation_extractor.py:24-28 | At most one date per capture, all of them when every capture parses, and each parsed capture's date is present |
| VacationExtractor.ParsedDatesComeFromCaptures | src/utils/vacation_extractor.py:25-28 | Every listed date is the parse of some capture |
| VacationExtractor.IsoDates | src/utils/vacation_extractor.py:28 | Each string is the date's ISO form and reads back as the same date |
| VacationExtractor.ParsedPositions | src/utils/vacation_extractor.py:25-28 | The positions of exactly the captures the parser reads, each once, in increasing order |
| VacationExtractor.ParsedDatesInCaptureOrder | src/utils/vacation_extractor.py:24-28 | The k-th parsed date is the parse of the k-th parsed capture |
| VacationExtractor.ExtractedDates | src/utils/vacation_extractor.py:22-29 | One string per capture that parses and none for the others, in capture order: each is the ISO form of its capture's date and reads back as it |
| VacationExtractor.RuleExtract | src/utils/vacation_extractor.py:12-40 | cities and dates are present exactly when their expression matched; adults and children are the leftmost counts |
| VacationExtractor.OneChildIsNotCounted | src/utils/vacation_extractor.py:36-38 | A text never writing "children", such as "1 child", gets no children count |
| VacationExtractor.AdultsFromLeftmostMatch | src/utils/vacation_extractor.py:32-34 | The adult count exists exactly when digits, whitespace and "adult" occur in order, and it is the leftmost such number |
| HotelService.DropNulls | src/services/hotel_service.py:34 | No None value remains, every other value is kept, and the surviving keys are exactly those with non-None values |
| HotelService.DropNullsOfNullFree | src/services/hotel_service.py:34 | A dict without None values is unchanged |
| HotelService.DropNullsIsIdempotent | src/services/hotel_service.py:34 | Filtering twice equals filtering once |
| HotelService.SearchParams | src/services/hotel_service.py:22-34 | Each non-None argument is sent under its name, a None one is absent, and nothing else is sent |
| HotelService.AllGivenAreSentInOrder | src/services/hotel_service.py:22-34 | With every argument given, all eight names are sent in display order |
| HotelService.UuidString | src/services/hotel_service.py:56 | 36 characters with dashes at 8, 13, 18 and 23, each field in hexadecimal at its place |
| HotelService.ConfirmationNumber | src/services/hotel_service.py:56 | "HTL-" then 8 hex digits reading back as the UUID's time_low; length 12 |
| HotelService.ConfirmationNumbersCollideOnTimeLow | src/services/hotel_service.py:56 | Two UUIDs give the same confirmation number exactly when their time_low fields are equal |
| HotelService.GuestName | src/services/hotel_service.py:47 | With both names non-blank: the first without leading and the last without trailing whitespace, joined by one space; a blank name drops out with the space and the other is stripped; never whitespace at either end |
| HotelService.NoNamesGiveEmptyGuestName | src/services/hotel_service.py:47 | A user with neither name gets "" |
| HotelService.TwoNamesAreJoined | src/services/hotel_service.py:47 | Two trimmed names are joined by one space |
| HotelService.FirstNameAlone | src/services/hotel_service.py:47 | A lone first name comes back without the trailing space |
| HotelService.LastNameAlone | src/services/hotel_service.py:47 | A lone last name comes back stripped, without the leading space |
| HotelService.CreateBookingForUser | src/services/hotel_service.py:44-59 | KeyError exactly when the user has no _id; otherwise user_id is str(_id), fields are copied by .get (None when absent), status is CONFIRMED and the confirmation number comes from the UUID |
| UserService.CreateUser | src/services/user_service.py:11-15 | A known address gets "User already exists" and the store is unchanged; a new one gets the hashed password and names, other records are untouched, and keying by address is kept |
| UserService.GetUser | src/services/user_service.py:17-18 | The stored record for the address, or None |
| UserService.LoginUser | src/services/user_service.py:20-25 | A token for the address exactly when it is on file and the password verifies; otherwise "Invalid credentials" |
| UserService.SignUpThenLogIn | src/services/user_service.py:11-25 | After signing up, the same password logs in when the verifier accepts the hash |
| UserService.WrongPasswordIsRefused | src/services/user_service.py:14-23 | After signing up, a password the verifier rejects gets "Invalid credentials" |
| UserService.FirstSignUpWins | src/services/user_service.py:12-14 | A second sign-up for an address, made after the first one finished, changes nothing |
| UserService.SignUpLeavesOthersAlone | src/services/user_service.py:14-23 | A sign-up does not change another address's login outcome |
| UserService.SignUps | src/services/user_service.py:11-15 | Any sequence of sign-ups keeps every record filed under its own address and keeps every earlier address |
| UserService.EarliestRequestIsKept | src/services/user_service.py:12-14 | After any sequence of sign-ups run one at a time, a new address holds the hash of its earliest request |
| UserService.KeptOnceFiled | src/services/user_service.py:12-13 | A record on file is never replaced by later sign-ups |
| Builtins.ToInt | src/utils/flights_parser.py:65-67 | An int is kept; a string succeeds exactly when it is an integer literal and gives its value; None, lists and dicts raise TypeError |
| Builtins.FloatToIntTruncates | src/utils/flights_parser.py:65-67 | `int()` of a float rounds toward zero |
| Builtins.IntOfStr | src/utils/flights_parser.py:126 | `int(str(i)) == i` |
| Text.Strip | src/services/hotel_service.py:47 | The result is the middle of the input with whitespace only around it, and neither end is whitespace |
| Text.StripIsUnique | src/services/hotel_service.py:47 | Any stretch with only whitespace around it and none at its ends is the stripped text |
| Text.StripJoin | src/services/hotel_service.py:47 | `(x + " " + y).strip()` is lstrip(x), a space and rstrip(y) when both hold a non-space character, and the other part stripped when one is blank |
| Text.Upper | src/utils/flights_parser.py:60-64 | Same length, each character upper-cased, no lower-case letter left |
| Text.Hex | src/services/hotel_service.py:56 | Exactly width lower-case hex digits that read back as the number |
| Json.Put | src/services/ai_service.py:67 | The key holds the new value, other keys are unchanged, and a new key goes last |
| Json.SetDefault | src/services/nlp_service.py:82-86 | A present key keeps its value and an absent one takes the default |

## Left out

- Calls to the language model, the hotel and flight APIs and MongoDB are not modelled.
  Their results are parameters: the reply, or None when it is not valid JSON.
- `datetime.today()`, `datetime.now()` and `uuid.uuid4()` are parameters.
- `dateparser.parse` is an uninterpreted partial function to a date. Its time of day and
  its relative base are not modelled.
- Python's rendering of floats, lists and dicts by `str()` is a parameter (`repr`). JSON
  floats are exact decimals, with no binary rounding or infinities.
- Text.Upper: upper-casing maps only the ASCII letters a-z; Python's Unicode case
  mapping of other letters is not modelled.
- Digits are the ASCII digits 0-9; the other Unicode decimal digits that `\d`, `%Y`
  and `int()` accept are not modelled. Whitespace is Python's full `str.isspace` set.
- BookingModel.ValidateRequest: check_out, price and currency are taken as values
  already of their field types. Pydantic's coercions, and a missing check_out, which
  skips the validator, are not modelled.
- `int()` of text has no limit on the number of digits.
- UserService.CreateUser: sign-ups are modelled one at a time. The duplicate check
  (`find_one`) and the insert (`insert_one`) are separate calls, the sign-up route runs
  requests side by side in a threadpool, and the collection has no unique index on
  `email`. So two sign-ups for one address arriving together can both insert, and later
  lookups may return either document. The map keyed by address cannot hold that state.
  FirstSignUpWins, SignUps, EarliestRequestIsKept and KeptOnceFiled hold only for sign-ups
  that run in sequence.
- Building the pydantic models `FlightsListSearchRequest` and `FlightInfoRequest` from
  the normalized fields is not modelled; their type coercions are left out.
- VacationExtractor.RuleExtract: `list(set(...))` in Python has hash order. The model
  lists first occurrences in order, and its contract states only the set of cities and
  that there are no duplicates.
- VacationExtractor.RuleExtract: the city and date regular expressions are not modelled.
  Their matches are parameters. The `s?` after "adult" does not change where or what
  the expression matches, so the word is "adult".
- HotelService.CreateBookingForUser: the `_id` the database assigns after the insert at
  lines 61-63 is not modelled. The user's `_id` is a JSON value rendered by `str()`.
  The clock readings are passed in already formatted.
- UserService.CreateUser: the hash is a pure function of the password, so the fresh
  random salt Argon2 draws on every call is not modelled.
- Argon2 hashing and verification and JWT signing are opaque function parameters.
  `get_current_user` is not modelled. A stored user always has a password, so the
  KeyError `user['password']` would raise for a document without one is not modelled.
- `search_hotels` is modelled only up to its parameters; the request and its error
  handling are not modelled. `get_bookings_by_user_id` is a database query and is left out.
- The trip service and trip router are stubs or commented out. `trip_model.py`,
  `destination_service.py`, `parser.py`, the routers, settings and scripts are not part
  of this model.
