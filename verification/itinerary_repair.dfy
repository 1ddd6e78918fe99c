/** The deterministic part of itinerary generation (src/services/ai_service.py):
    the code-fence stripping applied to the model's reply text before it is parsed,
    and `validate_response_str`, which coerces the parsed reply into a list of day
    entries. */
module ItineraryRepair {
  import opened Wrappers
  import opened Text
  import opened Json
  import opened Builtins

  // ---------------------------------------------------------------------------
  // Fence stripping

  const Fence := "```"
  const JsonFence := "```json"

  /** `reply.replace("```json", "").replace("```", "")`. */
  function StripFences(reply: string): (r: string)
    ensures !Occurs(Fence, r)
    ensures '`' !in reply ==> r == reply
  {
    var once := ReplaceAll(reply, JsonFence, "");
    NoFenceLeft(once);
    if '`' !in reply then
      AbsentFirstChar(JsonFence, reply);
      ReplaceAbsent(reply, JsonFence, "");
      AbsentFirstChar(Fence, reply);
      ReplaceAbsent(reply, Fence, "");
      ReplaceAll(once, Fence, "")
    else
      ReplaceAll(once, Fence, "")
  }

  /** Removing a non-empty text that does not start with a backtick keeps its first character. */
  lemma RemoveFenceKeepsHead(u: string)
    requires 0 < |u| && u[0] != '`'
    ensures 0 < |ReplaceAll(u, Fence, "")| && ReplaceAll(u, Fence, "")[0] == u[0]
  {
  }

  /** Removing every "```" leaves none behind: the leftmost-first scan never joins
      two backtick runs into a new triple. */
  lemma {:induction false} NoFenceLeft(s: string)
    ensures !Occurs(Fence, ReplaceAll(s, Fence, ""))
    decreases |s|
  {
    var r := ReplaceAll(s, Fence, "");
    if |s| < 3 {
      assert r == s;
    } else if s[..3] == Fence {
      NoFenceLeft(s[3..]);
      assert r == ReplaceAll(s[3..], Fence, "");
    } else {
      var t := s[1..];
      var rt := ReplaceAll(t, Fence, "");
      NoFenceLeft(t);
      assert r == [s[0]] + rt;
      assert r[1..] == rt;
      if 3 <= |r| {
        assert r[0] == s[0] && r[1] == rt[0] && r[2] == rt[1];
        if s[0] == '`' {
          AfterLoneTick(s);
        }
        assert r[..3] != Fence;
      }
    }
  }

  /** A backtick that does not open a fence is not followed, once the fences of the
      rest are removed, by two more backticks. */
  lemma AfterLoneTick(s: string)
    requires 3 <= |s| && s[..3] != Fence && s[0] == '`'
    ensures var rt := ReplaceAll(s[1..], Fence, ""); !(2 <= |rt| && rt[0] == '`' && rt[1] == '`')
  {
    var t := s[1..];
    var rt := ReplaceAll(t, Fence, "");
    if t[0] != '`' {
      RemoveFenceKeepsHead(t);
    } else {
      assert s[..3] == [s[0], s[1], s[2]];
      assert t[1] != '`';
      if 3 <= |t| {
        assert t[..3] != Fence;
        assert rt == [t[0]] + ReplaceAll(t[1..], Fence, "");
        RemoveFenceKeepsHead(t[1..]);
      } else {
        assert rt == t;
      }
    }
  }

  /** The scan passes over a text without backticks untouched and goes on with the rest. */
  lemma {:induction false} SkipsPlainText(x: string, y: string, pat: string)
    requires 0 < |pat| && pat[0] == '`' && '`' !in x
    ensures ReplaceAll(x + y, pat, "") == x + ReplaceAll(y, pat, "")
    decreases |x|
  {
    if x == [] {
      assert x + y == y;
    } else {
      var s := x + y;
      assert s[0] == x[0] && s[1..] == x[1..] + y;
      assert x[0] in x;
      SkipsPlainText(x[1..], y, pat);
      assert x == [x[0]] + x[1..];
      if |pat| <= |s| {
        assert s[..|pat|][0] != pat[0];
        assert ReplaceAll(s, pat, "") == [s[0]] + ReplaceAll(s[1..], pat, "");
      } else {
        assert ReplaceAll(s[1..], pat, "") == s[1..];
      }
    }
  }

  /** A closing fence followed by text that does not start "json" is not a "```json" fence. */
  lemma ClosingFenceKept(c: string)
    requires '`' !in c && !(|c| >= 4 && c[..4] == "json")
    ensures ReplaceAll(Fence + c, JsonFence, "") == Fence + c
  {
    AbsentFirstChar(JsonFence, c);
    ReplaceAbsent(c, JsonFence, "");
    if c != [] {
      assert c[0] in c;
    }
    TickNotFence("`" + c, c);
    TickNotFence("``" + c, "`" + c);
    var s1 := Fence + c;
    assert s1[1..] == "``" + c;
    if 7 <= |s1| {
      assert s1[3..7] == c[..4];
      assert s1[..7] != JsonFence by { assert JsonFence[3..7] == "json"; }
    }
    assert ReplaceAll(s1, JsonFence, "") == [s1[0]] + ReplaceAll(s1[1..], JsonFence, "");
  }

  /** One backtick that does not open "```json" is kept and the scan moves on. */
  lemma TickNotFence(s: string, rest: string)
    requires 1 <= |s| && s[0] == '`' && s[1..] == rest
    requires |s| < 7 || s[1] != '`' || s[2] != '`'
    requires ReplaceAll(rest, JsonFence, "") == rest
    ensures ReplaceAll(s, JsonFence, "") == s
  {
    if 7 <= |s| {
      assert s[..7] != JsonFence by {
        assert s[..7][1] == s[1] && s[..7][2] == s[2];
      }
    }
    assert s == [s[0]] + rest;
  }

  /** What follows a closing fence once both passes are done: the text itself, or
      the text without a leading "json", which the first pass takes as part of a
      "```json" fence. */
  function AfterClosingFence(c: string): string {
    if |c| >= 4 && c[..4] == "json" then c[4..] else c
  }

  /** The reply shape the prompt asks for: text, a "```json" fence, the JSON, a closing
      "```" fence, text. Both fences are removed and the texts around them are kept,
      except that a trailing text starting "json" loses those four letters, since the
      closing fence and it spell "```json" again. */
  lemma FencedReplyIsUnwrapped(a: string, b: string, c: string)
    requires '`' !in a && '`' !in b && '`' !in c
    ensures StripFences(a + JsonFence + b + Fence + c) == a + b + AfterClosingFence(c)
  {
    var reply := a + JsonFence + b + Fence + c;
    FirstPass(a, b, c);
    assert reply == a + (JsonFence + (b + (Fence + c)));
    NoTickInJoin(a, b);
    NoTickInTail(c);
    SecondPass(a + b, c);
    assert '`' in reply by { assert reply[|a|] == '`'; }
  }

  /** The second pass removes a closing fence the first pass left and keeps the texts
      on either side. */
  lemma SecondPass(x: string, c: string)
    requires '`' !in x && '`' !in c
    ensures ReplaceAll(x + FirstPassTail(c), Fence, "") == x + AfterClosingFence(c)
  {
    var tail := AfterClosingFence(c);
    NoTickInTail(c);
    AbsentFirstChar(Fence, tail);
    ReplaceAbsent(tail, Fence, "");
    if |c| >= 4 && c[..4] == "json" {
      NoTickInJoin(x, tail);
      AbsentFirstChar(Fence, x + tail);
      ReplaceAbsent(x + tail, Fence, "");
    } else {
      SkipsPlainText(x, Fence + tail, Fence);
      LeadingPattern(Fence, tail);
    }
  }

  lemma NoTickInJoin(a: string, b: string)
    requires '`' !in a && '`' !in b
    ensures '`' !in a + b
  {
  }

  lemma NoTickInTail(c: string)
    requires '`' !in c
    ensures '`' !in AfterClosingFence(c)
  {
    var t := AfterClosingFence(c);
    forall k | 0 <= k < |t| ensures t[k] != '`' {
      assert t[k] == c[k + |c| - |t|];
      assert c[k + |c| - |t|] in c;
    }
  }

  /** Text that starts with the pattern: the pattern is dropped and the scan goes on after it. */
  lemma LeadingPattern(pat: string, x: string)
    requires 0 < |pat|
    ensures ReplaceAll(pat + x, pat, "") == ReplaceAll(x, pat, "")
  {
    var s := pat + x;
    assert s[..|pat|] == pat && s[|pat|..] == x;
  }

  /** What the first pass leaves of a closing fence and the text after it: both, or
      neither part of a "```json" they spell together. */
  function FirstPassTail(c: string): string {
    if |c| >= 4 && c[..4] == "json" then c[4..] else Fence + c
  }

  /** The first pass removes the opening fence and, when the closing fence and the
      text after it spell "```json", that too. */
  lemma FirstPass(a: string, b: string, c: string)
    requires '`' !in a && '`' !in b && '`' !in c
    ensures ReplaceAll(a + (JsonFence + (b + (Fence + c))), JsonFence, "") == (a + b) + FirstPassTail(c)
  {
    var rest := Fence + c;
    var x := ReplaceAll(rest, JsonFence, "");
    ClosingFence(c);
    SkipsPlainText(b, rest, JsonFence);
    assert ReplaceAll(b + rest, JsonFence, "") == b + x;
    LeadingPattern(JsonFence, b + rest);
    assert ReplaceAll(JsonFence + (b + rest), JsonFence, "") == b + x;
    SkipsPlainText(a, JsonFence + (b + rest), JsonFence);
    assert a + (b + x) == (a + b) + x;
  }

  /** The first pass over a closing fence and the text after it. */
  lemma ClosingFence(c: string)
    requires '`' !in c
    ensures ReplaceAll(Fence + c, JsonFence, "") == FirstPassTail(c)
  {
    if |c| >= 4 && c[..4] == "json" {
      var t := c[4..];
      assert Fence + c == JsonFence + t;
      LeadingPattern(JsonFence, t);
      NoTickInTail(c);
      AbsentFirstChar(JsonFence, t);
      ReplaceAbsent(t, JsonFence, "");
    } else {
      ClosingFenceKept(c);
    }
  }

  // ---------------------------------------------------------------------------
  // validate_response_str

  /** The keys the reply object is checked for, in the order they are checked. */
  const ReplyKeys: seq<string> := ["destination", "duration", "number_of_travelers", "budget", "itinerary"]

  /** The checked keys whose absence raises: looking up their fallback in the
      function's local variables finds nothing, so a KeyError escapes. */
  const RequiredKeys: seq<string> := ["destination", "duration", "number_of_travelers", "budget"]

  predicate HasRequiredKeys(f: Dict) {
    forall k :: k in RequiredKeys ==> HasKey(f, k)
  }

  /** The loop over the checked keys: a missing `itinerary` is set to [], any other
      missing key raises KeyError; `in` and item assignment raise TypeError on a reply
      that is not a dict. */
  function EnsureReplyKeys(data: Json, keys: seq<string>): (r: Result<Json, Exception>)
    ensures data.JObject? ==>
      (r.Success? <==> forall k :: k in keys && k != "itinerary" ==> HasKey(data.fields, k))
    ensures data.JObject? && r.Success? ==>
      r.value == if "itinerary" in keys && !HasKey(data.fields, "itinerary")
                 then JObject(Put(data.fields, "itinerary", JArray([])))
                 else data
    ensures data.JObject? && r.Failure? ==>
      r.error.KeyError? && r.error.key in keys && r.error.key != "itinerary" && !HasKey(data.fields, r.error.key)
    ensures !data.JObject? && r.Success? ==> r.value == data
    decreases |keys|
  {
    if keys == [] then Success(data)
    else
      var present :- In(keys[0], data);
      if present then EnsureReplyKeys(data, keys[1..])
      else if keys[0] == "itinerary" then
        var updated :- SetItem(data, "itinerary", JArray([]));
        assert data.JObject? ==> forall k :: k != "itinerary" ==> (HasKey(updated.fields, k) <==> HasKey(data.fields, k));
        EnsureReplyKeys(updated, keys[1..])
      else Failure(KeyError(keys[0]))
  }

  /** A fresh day entry `{"day": day, "activities": activities}`. */
  function DayEntry(day: int, activities: seq<Json>): (r: Json)
    ensures r.JObject? && Lookup(r.fields, "day") == Some(JInt(day))
    ensures Lookup(r.fields, "activities") == Some(JArray(activities))
  {
    JObject(Put(Put(EmptyDict, "day", JInt(day)), "activities", JArray(activities)))
  }

  /** A well-formed entry: a dict holding both `day` and `activities`. */
  predicate IsDayEntry(e: Json) {
    e.JObject? && HasKey(e.fields, "day") && HasKey(e.fields, "activities")
  }

  /** The repair of the entry at 1-based position `i`. */
  function FixEntry(repr: Json -> string, i: nat, entry: Json): (r: Json)
    ensures IsDayEntry(r)
    ensures !entry.JObject? ==> r == DayEntry(i, [JString(Str(repr, entry))])
    ensures entry.JObject? ==>
      Lookup(r.fields, "day") == if HasKey(entry.fields, "day") then Lookup(entry.fields, "day") else Some(JInt(i))
    ensures entry.JObject? ==>
      Lookup(r.fields, "activities") ==
        if HasKey(entry.fields, "activities") then Lookup(entry.fields, "activities") else Some(JArray([]))
    ensures entry.JObject? ==>
      forall k :: k != "day" && k != "activities" ==> Lookup(r.fields, k) == Lookup(entry.fields, k)
    ensures IsDayEntry(entry) ==> r == entry
  {
    if !entry.JObject? then DayEntry(i, [JString(Str(repr, entry))])
    else
      var withDay := if HasKey(entry.fields, "day") then entry.fields else Put(entry.fields, "day", JInt(i));
      var withBoth :=
        if HasKey(withDay, "activities") then withDay else Put(withDay, "activities", JArray([]));
      JObject(withBoth)
  }

  /** The loop over the itinerary list, numbering entries from `start`. */
  function FixEntries(repr: Json -> string, entries: seq<Json>, start: nat): (r: seq<Json>)
    ensures |r| == |entries|
    ensures forall k :: 0 <= k < |entries| ==> IsDayEntry(r[k])
    ensures forall k :: 0 <= k < |entries| ==> r[k] == FixEntry(repr, start + k, entries[k])
  {
    seq(|entries|, k requires 0 <= k < |entries| => FixEntry(repr, start + k, entries[k]))
  }

  /** An itinerary whose entries are all well formed is left as it is. */
  lemma FixEntriesKeepsDayEntries(repr: Json -> string, entries: seq<Json>, start: nat)
    requires forall k :: 0 <= k < |entries| ==> IsDayEntry(entries[k])
    ensures FixEntries(repr, entries, start) == entries
  {
    var r := FixEntries(repr, entries, start);
    forall k | 0 <= k < |entries|
      ensures r[k] == entries[k]
    {
      assert r[k] == FixEntry(repr, start + k, entries[k]);
    }
  }

  /** The list the repair loop walks over for a reply that passed the key checks:
      [] for a missing itinerary, the list itself, or a non-list value wrapped as day 1. */
  function ItineraryEntries(repr: Json -> string, f: Dict): seq<Json> {
    match Lookup(f, "itinerary")
    case None => []
    case Some(JArray(entries)) => entries
    case Some(v) => [DayEntry(1, [JString(Str(repr, v))])]
  }

  /** `validate_response_str(data)`: the repaired itinerary, or the exception it raises.
      `repr` stands for Python's rendering of floats, lists and dicts by `str()`. */
  function ValidateResponse(repr: Json -> string, data: Json): (r: Result<seq<Json>, Exception>)
    ensures r.Success? ==> forall k :: 0 <= k < |r.value| ==> IsDayEntry(r.value[k])
  {
    var checked :- EnsureReplyKeys(data, ReplyKeys);
    var itinerary :- GetItem(checked, "itinerary");
    var entries := if itinerary.JArray? then itinerary.items else [DayEntry(1, [JString(Str(repr, itinerary))])];
    Success(FixEntries(repr, entries, 1))
  }

  /** A dict reply that has every required key is repaired by walking its itinerary entries. */
  lemma RepairOfCompleteReply(repr: Json -> string, data: Json)
    requires data.JObject? && HasRequiredKeys(data.fields)
    ensures ValidateResponse(repr, data) == Success(FixEntries(repr, ItineraryEntries(repr, data.fields), 1))
  {
    var f := data.fields;
    assert forall k :: k in ReplyKeys && k != "itinerary" ==> k in RequiredKeys;
    var checked := EnsureReplyKeys(data, ReplyKeys);
    var it := Get(f, "itinerary", JArray([]));
    assert checked.Success? && checked.value.JObject?;
    assert Lookup(checked.value.fields, "itinerary") == Some(it);
    assert GetItem(checked.value, "itinerary") == Success(it);
    assert ItineraryEntries(repr, f) == if it.JArray? then it.items else [DayEntry(1, [JString(Str(repr, it))])];
  }

  /** The reply is repaired exactly when it is a dict holding destination, duration,
      number_of_travelers and budget; a dict lacking one raises KeyError naming it. */
  lemma RepairFailsOnMissingKeys(repr: Json -> string, data: Json)
    ensures ValidateResponse(repr, data).Success? <==> data.JObject? && HasRequiredKeys(data.fields)
    ensures data.JObject? && ValidateResponse(repr, data).Failure? ==>
      var e := ValidateResponse(repr, data).error;
      e.KeyError? && e.key in RequiredKeys && !HasKey(data.fields, e.key)
  {
    if data.JObject? && HasRequiredKeys(data.fields) {
      RepairOfCompleteReply(repr, data);
    } else if data.JObject? {
      var k :| k in RequiredKeys && !HasKey(data.fields, k);
      assert k in ReplyKeys && k != "itinerary";
      assert forall k :: k in ReplyKeys && k != "itinerary" ==> k in RequiredKeys;
    } else {
      var checked := EnsureReplyKeys(data, ReplyKeys);
      assert checked.Success? ==> checked.value == data;
    }
  }

  /** A reply without an itinerary repairs to the empty list. */
  lemma MissingItineraryIsEmpty(repr: Json -> string, data: Json)
    requires data.JObject? && HasRequiredKeys(data.fields) && !HasKey(data.fields, "itinerary")
    ensures ValidateResponse(repr, data) == Success([])
  {
    RepairOfCompleteReply(repr, data);
  }

  /** An itinerary that is not a list becomes a single day 1 whose one activity is its text. */
  lemma NonListItineraryIsWrapped(repr: Json -> string, data: Json, v: Json)
    requires data.JObject? && HasRequiredKeys(data.fields)
    requires Lookup(data.fields, "itinerary") == Some(v) && !v.JArray?
    ensures ValidateResponse(repr, data) == Success([DayEntry(1, [JString(Str(repr, v))])])
  {
    RepairOfCompleteReply(repr, data);
    var e := DayEntry(1, [JString(Str(repr, v))]);
    assert ItineraryEntries(repr, data.fields) == [e];
    FixEntriesKeepsDayEntries(repr, [e], 1);
  }

  /** A list itinerary keeps its length and order; the entry at 1-based position i
      is repaired on its own with i as its fallback day number. */
  lemma ListItineraryIsRepairedInPlace(repr: Json -> string, data: Json, entries: seq<Json>)
    requires data.JObject? && HasRequiredKeys(data.fields)
    requires Lookup(data.fields, "itinerary") == Some(JArray(entries))
    ensures var r := ValidateResponse(repr, data);
      && r.Success? && |r.value| == |entries|
      && forall k :: 0 <= k < |entries| ==> r.value[k] == FixEntry(repr, k + 1, entries[k])
  {
    RepairOfCompleteReply(repr, data);
    assert ItineraryEntries(repr, data.fields) == entries;
    FixEntriesAt(repr, entries);
  }

  lemma FixEntriesAt(repr: Json -> string, entries: seq<Json>)
    ensures forall k :: 0 <= k < |entries| ==> FixEntries(repr, entries, 1)[k] == FixEntry(repr, k + 1, entries[k])
  {
  }

  /** Repairing an already repaired itinerary gives it back unchanged. */
  lemma RepairIsIdempotent(repr: Json -> string, data: Json, fixed: Dict)
    requires ValidateResponse(repr, data).Success?
    requires HasRequiredKeys(fixed) && Lookup(fixed, "itinerary") == Some(JArray(ValidateResponse(repr, data).value))
    ensures ValidateResponse(repr, JObject(fixed)) == ValidateResponse(repr, data)
  {
    var once := ValidateResponse(repr, data).value;
    RepairOfCompleteReply(repr, JObject(fixed));
    assert ItineraryEntries(repr, fixed) == once;
    FixEntriesKeepsDayEntries(repr, once, 1);
  }

  /** Entries that already carry a day number keep it, whatever their position:
      the repair never renumbers, so the result can have gaps and repeats. */
  lemma DaysAreNotRenumbered(repr: Json -> string, data: Json, entries: seq<Json>)
    requires data.JObject? && HasRequiredKeys(data.fields)
    requires Lookup(data.fields, "itinerary") == Some(JArray(entries))
    requires forall k :: 0 <= k < |entries| ==> IsDayEntry(entries[k])
    ensures ValidateResponse(repr, data) == Success(entries)
  {
    RepairOfCompleteReply(repr, data);
    FixEntriesKeepsDayEntries(repr, entries, 1);
  }

  /** A reply about Rome, for a given budget, whose two days both claim to be day 7. */
  function RomeReply(budget: int): Json {
    var days := JArray([DayEntry(7, []), DayEntry(7, [])]);
    JObject(Dict(["destination", "duration", "number_of_travelers", "budget", "itinerary"],
                 map["destination" := JString("Rome"), "duration" := JInt(2), "number_of_travelers" := JInt(2),
                     "budget" := JInt(budget), "itinerary" := days]))
  }

  /** The Rome reply has the four required keys and the two day-7 entries. */
  lemma RomeReplyShape(budget: int)
    ensures RomeReply(budget).JObject? && HasRequiredKeys(RomeReply(budget).fields)
    ensures Lookup(RomeReply(budget).fields, "itinerary") == Some(JArray([DayEntry(7, []), DayEntry(7, [])]))
  {
  }

  /** The Rome reply comes back with day 7 twice, not renumbered to days 1 and 2. */
  lemma RomeKeepsDaySeven(repr: Json -> string, budget: int)
    ensures ValidateResponse(repr, RomeReply(budget)) == Success([DayEntry(7, []), DayEntry(7, [])])
  {
    var e := DayEntry(7, []);
    var data := RomeReply(budget);
    RomeReplyShape(budget);
    assert IsDayEntry(e);
    assert forall k :: 0 <= k < |[e, e]| ==> IsDayEntry([e, e][k]);
    DaysAreNotRenumbered(repr, data, [e, e]);
  }
}
