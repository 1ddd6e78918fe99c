/** The pure parts of src/services/hotel_service.py: the None-filter applied to the
    hotel search parameters before the request is sent, and the booking document that
    `create_booking_for_user` builds. The UUID drawn by `uuid.uuid4()` and the two
    clock readings are parameters; the HTTP request and the database write are not
    modelled. */
module HotelService {
  import opened Wrappers
  import opened Text
  import opened Json
  import opened Builtins

  // ---------------------------------------------------------------------------
  // search_hotels: dropping the None parameters

  /** The keys of `ks`, in order, whose value is not None. */
  function NonNullKeys(ks: seq<string>, entries: map<string, Json>): (r: seq<string>)
    requires forall k :: k in ks ==> k in entries
    ensures forall k :: k in r <==> k in ks && entries[k] != JNull
    decreases |ks|
  {
    if ks == [] then []
    else
      var rest := NonNullKeys(ks[1..], entries);
      if entries[ks[0]] != JNull then [ks[0]] + rest else rest
  }

  predicate Distinct(ks: seq<string>) {
    forall i, j :: 0 <= i < j < |ks| ==> ks[i] != ks[j]
  }

  /** Filtering a list of distinct keys keeps them distinct. */
  lemma {:induction false} NonNullKeysDistinct(ks: seq<string>, entries: map<string, Json>)
    requires forall k :: k in ks ==> k in entries
    requires Distinct(ks)
    ensures Distinct(NonNullKeys(ks, entries))
    decreases |ks|
  {
    if ks != [] {
      NonNullKeysDistinct(ks[1..], entries);
      assert ks[0] !in ks[1..];
    }
  }

  /** When no key's value is None the filter keeps the whole list. */
  lemma {:induction false} NonNullKeysOfNullFree(ks: seq<string>, entries: map<string, Json>)
    requires forall k :: k in ks ==> k in entries && entries[k] != JNull
    ensures NonNullKeys(ks, entries) == ks
    decreases |ks|
  {
    if ks != [] {
      NonNullKeysOfNullFree(ks[1..], entries);
    }
  }

  /** Line 34, `{k: v for k, v in params.items() if v is not None}`: the keys whose
      value is None are gone, every other key keeps its value, and the survivors keep
      their order. */
  function DropNulls(d: Dict): (r: Dict)
    requires WellFormed(d)
    ensures WellFormed(r)
    ensures forall k :: Lookup(r, k) == if Lookup(d, k) == Some(JNull) then None else Lookup(d, k)
    ensures forall k :: k in Keys(r) <==> k in Keys(d) && Lookup(d, k) != Some(JNull)
  {
    NonNullKeysDistinct(d.order, d.entries);
    Dict(NonNullKeys(d.order, d.entries), map k | k in d.entries && d.entries[k] != JNull :: d.entries[k])
  }

  /** A dict without None values passes the filter unchanged. */
  lemma DropNullsOfNullFree(d: Dict)
    requires WellFormed(d)
    requires forall k :: Lookup(d, k) != Some(JNull)
    ensures DropNulls(d) == d
  {
    forall k | k in d.order ensures k in d.entries && d.entries[k] != JNull {
      assert Lookup(d, k) == Some(d.entries[k]);
    }
    NonNullKeysOfNullFree(d.order, d.entries);
    var r := DropNulls(d);
    forall k | k in d.entries ensures k in r.entries && r.entries[k] == d.entries[k] {
      assert Lookup(d, k) == Some(d.entries[k]);
    }
    assert r.entries == d.entries;
  }

  /** The filtered dict holds no None value. */
  lemma DropNullsLeavesNoNull(d: Dict)
    requires WellFormed(d)
    ensures forall k :: Lookup(DropNulls(d), k) != Some(JNull)
  {
  }

  /** Filtering twice filters nothing more. */
  lemma DropNullsIsIdempotent(d: Dict)
    requires WellFormed(d)
    ensures DropNulls(DropNulls(d)) == DropNulls(d)
  {
    DropNullsOfNullFree(DropNulls(d));
  }

  /** The names of the search parameters, in the order the display at lines 22-31 lists them. */
  const SearchKeys: seq<string> := ["q", "check_in_date", "check_out_date", "adults", "children", "currency", "gl", "hl"]

  predicate IsSearchKey(k: string) {
    k in SearchKeys
  }

  /** The argument that the display at lines 22-31 stores under the name `k`. */
  function Argument(k: string, q: Json, checkIn: Json, checkOut: Json, adults: Json, children: Json,
                    currency: Json, gl: Json, hl: Json): Json
  {
    if k == "q" then q
    else if k == "check_in_date" then checkIn
    else if k == "check_out_date" then checkOut
    else if k == "adults" then adults
    else if k == "children" then children
    else if k == "currency" then currency
    else if k == "gl" then gl
    else hl
  }

  /** Lines 22-31: the parameter dict before filtering. */
  function RawSearchParams(q: Json, checkIn: Json, checkOut: Json, adults: Json, children: Json,
                           currency: Json, gl: Json, hl: Json): Dict
  {
    Dict(SearchKeys, map k | k in SearchKeys :: Argument(k, q, checkIn, checkOut, adults, children, currency, gl, hl))
  }

  /** The value a search parameter is sent with: absent when it is None. */
  function Sent(v: Json): Option<Json> {
    if v == JNull then None else Some(v)
  }

  /** Lines 22-34: each argument that is not None is sent under its own name, a None
      argument is not sent at all, and nothing else is sent. */
  function SearchParams(q: Json, checkIn: Json, checkOut: Json, adults: Json, children: Json,
                        currency: Json, gl: Json, hl: Json): (r: Dict)
    ensures forall k :: Lookup(r, k)
                        == if IsSearchKey(k) then Sent(Argument(k, q, checkIn, checkOut, adults, children, currency, gl, hl))
                           else None
  {
    var d := RawSearchParams(q, checkIn, checkOut, adults, children, currency, gl, hl);
    RawLookups(q, checkIn, checkOut, adults, children, currency, gl, hl);
    RawKeys(q, checkIn, checkOut, adults, children, currency, gl, hl);
    RawIsWellFormed(q, checkIn, checkOut, adults, children, currency, gl, hl);
    DropNulls(d)
  }

  /** Each name of the display holds its argument. */
  lemma RawLookups(q: Json, checkIn: Json, checkOut: Json, adults: Json, children: Json,
                   currency: Json, gl: Json, hl: Json)
    ensures forall k :: IsSearchKey(k) ==>
      Lookup(RawSearchParams(q, checkIn, checkOut, adults, children, currency, gl, hl), k)
        == Some(Argument(k, q, checkIn, checkOut, adults, children, currency, gl, hl))
  {
  }

  /** The display lists eight distinct names. */
  lemma RawIsWellFormed(q: Json, checkIn: Json, checkOut: Json, adults: Json, children: Json,
                        currency: Json, gl: Json, hl: Json)
    ensures WellFormed(RawSearchParams(q, checkIn, checkOut, adults, children, currency, gl, hl))
  {
    SearchKeysDistinct();
  }

  /** Names of different lengths differ; the two pairs of equal length differ in a letter. */
  lemma SearchKeysDistinct()
    ensures Distinct(SearchKeys)
  {
    var ls := seq(|SearchKeys|, i requires 0 <= i < |SearchKeys| => |SearchKeys[i]|);
    assert ls == [1, 13, 14, 6, 8, 8, 2, 2];
    assert SearchKeys[4][1] != SearchKeys[5][1] && SearchKeys[6][0] != SearchKeys[7][0];
    forall i, j | 0 <= i < j < |SearchKeys| ensures SearchKeys[i] != SearchKeys[j] {
      if ls[i] == ls[j] {
        assert (i, j) == (4, 5) || (i, j) == (6, 7);
      }
    }
  }

  /** No name outside the display is present. */
  lemma RawKeys(q: Json, checkIn: Json, checkOut: Json, adults: Json, children: Json,
                currency: Json, gl: Json, hl: Json)
    ensures forall k :: HasKey(RawSearchParams(q, checkIn, checkOut, adults, children, currency, gl, hl), k)
                        ==> IsSearchKey(k)
  {
  }

  /** When every argument is given, all eight are sent in the order of the display. */
  lemma AllGivenAreSentInOrder(q: Json, checkIn: Json, checkOut: Json, adults: Json, children: Json,
                               currency: Json, gl: Json, hl: Json)
    requires q != JNull && checkIn != JNull && checkOut != JNull && adults != JNull
    requires children != JNull && currency != JNull && gl != JNull && hl != JNull
    ensures Keys(SearchParams(q, checkIn, checkOut, adults, children, currency, gl, hl))
         == ["q", "check_in_date", "check_out_date", "adults", "children", "currency", "gl", "hl"]
  {
    var d := RawSearchParams(q, checkIn, checkOut, adults, children, currency, gl, hl);
    RawIsWellFormed(q, checkIn, checkOut, adults, children, currency, gl, hl);
    assert forall k :: Lookup(d, k) != Some(JNull);
    DropNullsOfNullFree(d);
  }

  // ---------------------------------------------------------------------------
  // UUIDs (section 3 of RFC 4122)

  /** The five fields of a UUID, in the order its string form writes them. */
  datatype Uuid = Uuid(timeLow: nat, timeMid: nat, timeHiAndVersion: nat, clockSeq: nat, node: nat)

  /** Each field fits its width: 8, 4, 4, 4 and 12 hexadecimal digits. */
  predicate FieldsFit(u: Uuid) {
    && u.timeLow < Pow16(8) && u.timeMid < Pow16(4) && u.timeHiAndVersion < Pow16(4)
    && u.clockSeq < Pow16(4) && u.node < Pow16(12)
  }

  /** A random UUID as `uuid.uuid4()` draws it: version 4 and the RFC 4122 variant;
      the other 122 bits are the random part. */
  predicate IsRandomUuid(u: Uuid) {
    FieldsFit(u) && u.timeHiAndVersion / 4096 == 4 && u.clockSeq / 16384 == 2
  }

  type RandomUuid = u: Uuid | IsRandomUuid(u) witness Uuid(0, 0, 0x4000, 0x8000, 0)

  /** Two strings joined by a dash. */
  function Dashed(a: string, b: string): (r: string)
    ensures |r| == |a| + 1 + |b|
    ensures r[..|a|] == a && r[|a|] == '-' && r[|a| + 1..] == b
  {
    var r := a + "-" + b;
    assert r[..|a|] == a;
    assert r[|a| + 1..] == b;
    r
  }

  /** Five fields of 8, 4, 4, 4 and 12 characters joined by dashes. */
  function JoinFields(f1: string, f2: string, f3: string, f4: string, f5: string): (r: string)
    requires |f1| == 8 && |f2| == 4 && |f3| == 4 && |f4| == 4 && |f5| == 12
    ensures |r| == 36
    ensures r[8] == '-' && r[13] == '-' && r[18] == '-' && r[23] == '-'
    ensures r[..8] == f1 && r[9..13] == f2 && r[14..18] == f3 && r[19..23] == f4 && r[24..] == f5
  {
    var e := Dashed(f4, f5);
    var c := Dashed(f3, e);
    var b := Dashed(f2, c);
    var r := Dashed(f1, b);
    assert r[9..] == b;
    assert r[9..13] == b[..4];
    assert r[14..] == c;
    assert r[14..18] == c[..4];
    assert r[19..] == e;
    assert r[19..23] == e[..4];
    assert r[24..] == e[5..];
    r
  }

  /** Python's `str(u)`: the five fields in lower-case hexadecimal separated by dashes. */
  function UuidString(u: Uuid): (r: string)
    requires FieldsFit(u)
    ensures |r| == 36
    ensures r[8] == '-' && r[13] == '-' && r[18] == '-' && r[23] == '-'
    ensures r[..8] == Hex(u.timeLow, 8)
    ensures r[9..13] == Hex(u.timeMid, 4)
    ensures r[14..18] == Hex(u.timeHiAndVersion, 4)
    ensures r[19..23] == Hex(u.clockSeq, 4)
    ensures r[24..] == Hex(u.node, 12)
  {
    JoinFields(Hex(u.timeLow, 8), Hex(u.timeMid, 4), Hex(u.timeHiAndVersion, 4), Hex(u.clockSeq, 4), Hex(u.node, 12))
  }

  /** Line 56: "HTL-" and the first eight characters of the UUID's string form. */
  function ConfirmationNumber(u: Uuid): (r: string)
    requires FieldsFit(u)
    ensures |r| == 12
    ensures r[..4] == "HTL-"
    ensures forall k :: 4 <= k < 12 ==> IsHexDigit(r[k])
    ensures HexValue(r[4..]) == u.timeLow
  {
    var r := "HTL-" + UuidString(u)[..8];
    assert r[4..] == Hex(u.timeLow, 8);
    r
  }

  /** Two random UUIDs give the same confirmation number exactly when their
      `time_low` fields are equal: only 32 of the 122 random bits reach it. */
  lemma ConfirmationNumbersCollideOnTimeLow(u: RandomUuid, v: RandomUuid)
    ensures ConfirmationNumber(u) == ConfirmationNumber(v) <==> u.timeLow == v.timeLow
  {
    if ConfirmationNumber(u) == ConfirmationNumber(v) {
      assert ConfirmationNumber(u)[4..] == ConfirmationNumber(v)[4..];
    }
  }

  // ---------------------------------------------------------------------------
  // create_booking_for_user

  /** The booking document of lines 45-59. */
  datatype Booking = Booking(
    userId: string,
    guestName: string,
    email: Json,
    phone: Json,
    hotelName: Json,
    checkIn: Json,
    checkOut: Json,
    price: Json,
    currency: Json,
    status: string,
    confirmationNumber: string,
    createdAt: string,
    updatedAt: string)

  /** The text the f-string at line 47 renders for each name: `''` when it is missing. */
  function FirstName(repr: Json -> string, user: Dict): string {
    Str(repr, Get(user, "first_name", JString("")))
  }

  function LastName(repr: Json -> string, user: Dict): string {
    Str(repr, Get(user, "last_name", JString("")))
  }

  /** Line 47: the two names joined by a space and stripped. When both hold a
      non-space character the guest name is the first name without its leading
      whitespace, one space, and the last name without its trailing whitespace;
      a blank name drops out together with the space. */
  function GuestName(repr: Json -> string, user: Dict): (r: string)
    ensures var first, last := FirstName(repr, user), LastName(repr, user);
      r == if AllSpace(first) then Strip(last)
           else if AllSpace(last) then Strip(first)
           else LStrip(first) + " " + RStrip(last)
    ensures r == [] || (!IsSpace(r[0]) && !IsSpace(r[|r| - 1]))
  {
    StripJoin(FirstName(repr, user), LastName(repr, user));
    Strip(FirstName(repr, user) + " " + LastName(repr, user))
  }

  /** A name that neither starts nor ends with whitespace. */
  predicate IsTrimmedName(s: string) {
    s != [] && !IsSpace(s[0]) && !IsSpace(s[|s| - 1])
  }

  /** A user with neither name gets the empty guest name. */
  lemma NoNamesGiveEmptyGuestName(repr: Json -> string, user: Dict)
    requires !HasKey(user, "first_name") && !HasKey(user, "last_name")
    ensures GuestName(repr, user) == ""
  {
    assert AllSpace("" + " " + "");
    StripAllSpace("" + " " + "");
  }

  /** Two trimmed names are joined by one space. */
  lemma TwoNamesAreJoined(repr: Json -> string, user: Dict, first: string, last: string)
    requires Lookup(user, "first_name") == Some(JString(first))
    requires Lookup(user, "last_name") == Some(JString(last))
    requires IsTrimmedName(first) && IsTrimmedName(last)
    ensures GuestName(repr, user) == first + " " + last
  {
    var s := first + " " + last;
    assert s[0] == first[0] && s[|s| - 1] == last[|last| - 1];
    StripUnpadded(s);
  }

  /** A user with only a first name gets that name, without the trailing space. */
  lemma FirstNameAlone(repr: Json -> string, user: Dict, first: string)
    requires Lookup(user, "first_name") == Some(JString(first))
    requires !HasKey(user, "last_name")
    requires IsTrimmedName(first)
    ensures GuestName(repr, user) == first
  {
    var s := first + " " + "";
    assert s == first + [' '];
    StripOneTrailingSpace(first);
  }

  /** A user with only a last name gets that name, without the leading space. */
  lemma LastNameAlone(repr: Json -> string, user: Dict, last: string)
    requires !HasKey(user, "first_name")
    requires Lookup(user, "last_name") == Some(JString(last))
    ensures GuestName(repr, user) == Strip(last)
  {
    assert AllSpace(FirstName(repr, user));
  }

  /** A trimmed name followed by one space strips back to the name. */
  lemma StripOneTrailingSpace(first: string)
    requires IsTrimmedName(first)
    ensures Strip(first + [' ']) == first
  {
    var s := first + [' '];
    assert s[0] == first[0];
    assert LeadingSpaces(s) == 0;
    assert s[0..] == s;
    assert s[..|s| - 1] == first;
    assert TrailingSpaces(first) == 0;
    assert TrailingSpaces(s) == 1;
  }

  /** `v` is what `d.get(k)` gives: the stored value, or None when `k` is absent. */
  predicate CopiedFrom(d: Dict, k: string, v: Json) {
    if HasKey(d, k) then v == d.entries[k] else v == JNull
  }

  /** Lines 44-59, before the insert: KeyError when the user has no `_id`; otherwise
      the booking for that user, with the contact and booking fields copied by
      `.get` (None when absent), status CONFIRMED and the confirmation number drawn
      from the UUID. */
  function CreateBookingForUser(repr: Json -> string, user: Dict, bookingData: Dict, id: RandomUuid,
                                createdAt: string, updatedAt: string): (r: Result<Booking, Exception>)
    ensures r.Failure? <==> !HasKey(user, "_id")
    ensures r.Failure? ==> r.error == KeyError("_id")
    ensures r.Success? ==> r.value.userId == Str(repr, user.entries["_id"])
    ensures r.Success? ==> r.value.guestName == GuestName(repr, user)
    ensures r.Success? ==> CopiedFrom(user, "email", r.value.email) && CopiedFrom(user, "phone", r.value.phone)
    ensures r.Success? ==>
      && CopiedFrom(bookingData, "hotel_name", r.value.hotelName)
      && CopiedFrom(bookingData, "check_in", r.value.checkIn)
      && CopiedFrom(bookingData, "check_out", r.value.checkOut)
      && CopiedFrom(bookingData, "price", r.value.price)
      && CopiedFrom(bookingData, "currency", r.value.currency)
    ensures r.Success? ==> r.value.status == "CONFIRMED"
    ensures r.Success? ==> r.value.confirmationNumber == ConfirmationNumber(id)
    ensures r.Success? ==> r.value.createdAt == createdAt && r.value.updatedAt == updatedAt
  {
    if !HasKey(user, "_id") then Failure(KeyError("_id"))
    else
      Success(Booking(
        userId := Str(repr, user.entries["_id"]),
        guestName := GuestName(repr, user),
        email := Get(user, "email", JNull),
        phone := Get(user, "phone", JNull),
        hotelName := Get(bookingData, "hotel_name", JNull),
        checkIn := Get(bookingData, "check_in", JNull),
        checkOut := Get(bookingData, "check_out", JNull),
        price := Get(bookingData, "price", JNull),
        currency := Get(bookingData, "currency", JNull),
        status := "CONFIRMED",
        confirmationNumber := ConfirmationNumber(id),
        createdAt := createdAt,
        updatedAt := updatedAt))
  }
}
