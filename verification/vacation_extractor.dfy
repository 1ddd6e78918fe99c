/** `rule_extract` of src/utils/vacation_extractor.py: the rule-based first pass over
    a traveller's request. The traveller counts come from the regular expressions
    `(\d+)\s+adults?` and `(\d+)\s+children`, searched for by a scanner below; the
    city and date regular expressions are left abstract, and their captures are
    parameters, as is the date parser. */
module VacationExtractor {
  import opened Wrappers
  import opened Text
  import opened Calendar

  /** The dict `rule_extract` returns: each key is present only when its rule fired,
      and there are no other keys. */
  datatype Extracted = Extracted(
    cities: Option<seq<string>>,
    dates: Option<seq<string>>,
    adults: Option<nat>,
    children: Option<nat>)

  // ---------------------------------------------------------------------------
  // Traveller counts

  /** The end of the run of digits starting at `i`. */
  function DigitRunEnd(s: string, i: nat): (j: nat)
    requires i <= |s|
    ensures i <= j <= |s|
    ensures forall k :: i <= k < j ==> IsDigit(s[k])
    ensures j < |s| ==> !IsDigit(s[j])
    decreases |s| - i
  {
    if i < |s| && IsDigit(s[i]) then DigitRunEnd(s, i + 1) else i
  }

  /** The end of the run of whitespace starting at `i`. */
  function SpaceRunEnd(s: string, i: nat): (j: nat)
    requires i <= |s|
    ensures i <= j <= |s|
    ensures forall k :: i <= k < j ==> IsSpace(s[k])
    ensures j < |s| ==> !IsSpace(s[j])
    decreases |s| - i
  {
    if i < |s| && IsSpace(s[i]) then SpaceRunEnd(s, i + 1) else i
  }

  /** The regular expression `(\d+)\s+word` matches at `i` with the group `s[i..j]`
      and the whitespace `s[j..k]`: any split, as the matcher may backtrack. */
  ghost predicate RegexMatch(s: string, word: string, i: int, j: int, k: int) {
    && 0 <= i < j < k && k + |word| <= |s|
    && AllDigits(s[i..j]) && AllSpace(s[j..k]) && s[k..k + |word|] == word
  }

  /** The scanner's test at `i`: the whole digit run, then the whole whitespace run,
      then the word. */
  predicate MatchAt(s: string, word: string, i: nat)
    requires i <= |s|
  {
    var j := DigitRunEnd(s, i);
    var k := SpaceRunEnd(s, j);
    i < j < k && k + |word| <= |s| && s[k..k + |word|] == word
  }

  /** A word that starts with neither a digit nor whitespace. */
  predicate IsCountWord(word: string) {
    0 < |word| && !IsDigit(word[0]) && !IsSpace(word[0])
  }

  /** The scanner matches exactly where the regular expression does, and every match
      of the expression at `i` captures the whole digit run: no backtracking split
      can give a different group. */
  lemma MatchAtIsRegexMatch(s: string, word: string, i: nat)
    requires i <= |s| && IsCountWord(word)
    ensures MatchAt(s, word, i) <==> exists j, k :: RegexMatch(s, word, i, j, k)
    ensures forall j, k :: RegexMatch(s, word, i, j, k) ==> j == DigitRunEnd(s, i)
  {
    var j0 := DigitRunEnd(s, i);
    var k0 := SpaceRunEnd(s, j0);
    if MatchAt(s, word, i) {
      assert AllDigits(s[i..j0]) by {
        forall m | 0 <= m < j0 - i ensures IsDigit(s[i..j0][m]) {
          assert s[i..j0][m] == s[i + m];
        }
      }
      assert AllSpace(s[j0..k0]) by {
        forall m | 0 <= m < k0 - j0 ensures IsSpace(s[j0..k0][m]) {
          assert s[j0..k0][m] == s[j0 + m];
        }
      }
      assert RegexMatch(s, word, i, j0, k0);
    }
    forall j, k | RegexMatch(s, word, i, j, k)
      ensures j == j0 && k == SpaceRunEnd(s, j) && MatchAt(s, word, i)
    {
      RegexMatchRuns(s, word, i, j, k);
    }
  }

  /** A match of the expression ends its group where the digits end and its
      whitespace where the word begins. */
  lemma RegexMatchRuns(s: string, word: string, i: nat, j: nat, k: nat)
    requires IsCountWord(word) && RegexMatch(s, word, i, j, k)
    ensures j == DigitRunEnd(s, i) && k == SpaceRunEnd(s, j)
  {
    assert forall m :: i <= m < j ==> IsDigit(s[m]) by {
      forall m | i <= m < j ensures IsDigit(s[m]) {
        assert s[i..j][m - i] == s[m];
      }
    }
    assert forall m :: j <= m < k ==> IsSpace(s[m]) by {
      forall m | j <= m < k ensures IsSpace(s[m]) {
        assert s[j..k][m - j] == s[m];
      }
    }
    assert s[k] == word[0] by {
      assert s[k..k + |word|][0] == s[k];
    }
    var e := DigitRunEnd(s, i);
    assert IsSpace(s[j]) && !IsDigit(s[j]);
    assert e == j;
    var f := SpaceRunEnd(s, j);
    assert !IsSpace(s[k]);
    assert f == k;
  }

  /** Whether the scanner matches at each position of the text, end included. */
  function MatchPositions(s: string, word: string): (r: seq<bool>)
    ensures |r| == |s| + 1
    ensures forall q :: 0 <= q <= |s| ==> r[q] == MatchAt(s, word, q)
  {
    seq(|s| + 1, q requires 0 <= q <= |s| => MatchAt(s, word, q))
  }

  /** The first position at or after `p` whose flag is set. */
  function FirstTrue(bs: seq<bool>, p: nat): (r: Option<nat>)
    requires p <= |bs|
    ensures r.Some? ==> p <= r.value < |bs| && bs[r.value]
    decreases |bs| - p
  {
    if p == |bs| then None
    else if bs[p] then Some(p)
    else FirstTrue(bs, p + 1)
  }

  /** No flag between `p` and the position found is set; with none found, no flag
      from `p` on is set. */
  lemma {:induction false} FirstTrueIsLeftmost(bs: seq<bool>, p: nat)
    requires p <= |bs|
    ensures var r := FirstTrue(bs, p);
      && (r.Some? ==> forall q :: p <= q < r.value ==> !bs[q])
      && (r.None? ==> forall q :: p <= q < |bs| ==> !bs[q])
    decreases |bs| - p
  {
    if p < |bs| && !bs[p] {
      FirstTrueIsLeftmost(bs, p + 1);
    }
  }

  /** `re.search`: the leftmost position where the scanner matches. */
  function FirstMatch(s: string, word: string): (r: Option<nat>)
    ensures r.Some? ==> r.value < |s| && MatchAt(s, word, r.value)
  {
    FirstTrue(MatchPositions(s, word), 0)
  }

  /** No position before the one found matches; with none found, none matches. */
  lemma FirstMatchIsLeftmost(s: string, word: string)
    ensures var r := FirstMatch(s, word);
      && (r.Some? ==> forall q :: 0 <= q < r.value ==> !MatchAt(s, word, q))
      && (r.None? ==> forall q :: 0 <= q <= |s| ==> !MatchAt(s, word, q))
  {
    var bs := MatchPositions(s, word);
    FirstTrueIsLeftmost(bs, 0);
    var r := FirstMatch(s, word);
    forall q | 0 <= q <= |s| && (r.None? || q < r.value)
      ensures !MatchAt(s, word, q)
    {
      assert !bs[q];
    }
  }

  /** `int(m.group(1))` of `re.search(r"(\d+)\s+word", s)`, or None without a match. */
  function Count(s: string, word: string): Option<nat> {
    match FirstMatch(s, word)
    case None => None
    case Some(i) => Some(DigitsValue(s[i..DigitRunEnd(s, i)]))
  }

  /** The count is present exactly when the expression matches somewhere, and it is
      the value of the group of the leftmost match. */
  lemma CountIsLeftmostMatch(s: string, word: string)
    requires IsCountWord(word)
    ensures Count(s, word).Some? <==> exists i, j, k :: RegexMatch(s, word, i, j, k)
    ensures Count(s, word).Some? ==> exists i, j, k ::
      && RegexMatch(s, word, i, j, k) && Count(s, word).value == DigitsValue(s[i..j])
      && forall i', j', k' :: RegexMatch(s, word, i', j', k') ==> i <= i'
  {
    var first := FirstMatch(s, word);
    FirstMatchIsLeftmost(s, word);
    forall i, j, k | RegexMatch(s, word, i, j, k)
      ensures first.Some? && first.value <= i
    {
      MatchAtIsRegexMatch(s, word, i);
    }
    if first.Some? {
      var i := first.value;
      MatchAtIsRegexMatch(s, word, i);
      var j, k :| RegexMatch(s, word, i, j, k);
      assert Count(s, word).value == DigitsValue(s[i..j]);
    }
  }

  /** A match contains its word, so a text without the word yields no count. */
  lemma CountNeedsWord(s: string, word: string)
    requires IsCountWord(word) && !Occurs(word, s)
    ensures Count(s, word).None?
  {
    var first := FirstMatch(s, word);
    if first.Some? {
      var i := first.value;
      var k := SpaceRunEnd(s, DigitRunEnd(s, i));
      OccursAt(word, s, k);
      assert false;
    }
  }

  /** A pattern found at position `k` occurs in the text. */
  lemma {:induction false} OccursAt(pat: string, s: string, k: nat)
    requires k + |pat| <= |s| && s[k..k + |pat|] == pat
    ensures Occurs(pat, s)
    decreases k
  {
    if k > 0 {
      assert s[1..][k - 1..k - 1 + |pat|] == s[k..k + |pat|];
      OccursAt(pat, s[1..], k - 1);
    } else {
      assert s[..|pat|] == pat;
    }
  }

  // ---------------------------------------------------------------------------
  // Cities and dates

  /** `list(set(xs))` with one element order fixed: first occurrences, in order. */
  function Dedup(xs: seq<string>): (r: seq<string>)
    ensures forall x :: x in r <==> x in xs
    ensures forall i, j :: 0 <= i < j < |r| ==> r[i] != r[j]
    decreases |xs|
  {
    if xs == [] then []
    else
      var front := xs[..|xs| - 1];
      var last := xs[|xs| - 1];
      assert xs == front + [last];
      var r := Dedup(front);
      if last in r then r else r + [last]
  }

  /** The `.strip()` of each city capture. */
  function StripAll(ms: seq<string>): (r: seq<string>)
    ensures |r| == |ms|
    ensures forall k :: 0 <= k < |ms| ==> r[k] == Strip(ms[k])
  {
    seq(|ms|, k requires 0 <= k < |ms| => Strip(ms[k]))
  }

  /** Lines 24-28: the dates of the captures the parser reads, in capture order. */
  function ParsedDates(parse: string -> Option<CalendarDate>, ms: seq<string>): (r: seq<CalendarDate>)
    ensures |r| <= |ms|
    ensures (forall k :: 0 <= k < |ms| ==> parse(ms[k]).Some?) ==> |r| == |ms|
    ensures forall k :: 0 <= k < |ms| && parse(ms[k]).Some? ==> parse(ms[k]).value in r
    decreases |ms|
  {
    if ms == [] then []
    else
      var rest := ParsedDates(parse, ms[1..]);
      assert forall k :: 1 <= k < |ms| ==> ms[k] == ms[1..][k - 1];
      match parse(ms[0])
      case None => rest
      case Some(d) => [d] + rest
  }

  /** The positions of the captures the parser reads, in increasing order: every such
      position once, and no other. */
  function ParsedPositions(parse: string -> Option<CalendarDate>, ms: seq<string>): (r: seq<nat>)
    ensures OnlyParsed(parse, ms, r) && Increasing(r) && AllParsed(parse, ms, r)
    decreases |ms|
  {
    if ms == [] then []
    else
      var rest := ParsedPositions(parse, ms[1..]);
      var head: seq<nat> := if parse(ms[0]).Some? then [0] else [];
      ShiftKeepsOnlyParsed(parse, ms, head, rest);
      ShiftKeepsIncreasing(head, rest);
      ShiftKeepsAllParsed(parse, ms, head, rest);
      head + Shift(rest)
  }

  /** Every position in `r` is that of a capture the parser reads. */
  predicate OnlyParsed(parse: string -> Option<CalendarDate>, ms: seq<string>, r: seq<nat>) {
    forall k :: 0 <= k < |r| ==> r[k] < |ms| && parse(ms[r[k]]).Some?
  }

  predicate Increasing(r: seq<nat>) {
    forall i, j :: 0 <= i < j < |r| ==> r[i] < r[j]
  }

  /** Every capture the parser reads has its position in `r`. */
  predicate AllParsed(parse: string -> Option<CalendarDate>, ms: seq<string>, r: seq<nat>) {
    forall j :: 0 <= j < |ms| && parse(ms[j]).Some? ==> j in r
  }

  /** Each position one further on. */
  function Shift(ps: seq<nat>): (r: seq<nat>)
    ensures |r| == |ps| && forall k :: 0 <= k < |ps| ==> r[k] == ps[k] + 1
  {
    seq(|ps|, k requires 0 <= k < |ps| => ps[k] + 1)
  }

  lemma ShiftKeepsOnlyParsed(parse: string -> Option<CalendarDate>, ms: seq<string>, head: seq<nat>, rest: seq<nat>)
    requires ms != [] && OnlyParsed(parse, ms[1..], rest)
    requires head == if parse(ms[0]).Some? then [0] else []
    ensures OnlyParsed(parse, ms, head + Shift(rest))
  {
    var sh := Shift(rest);
    var r := head + sh;
    forall k | 0 <= k < |r| ensures r[k] < |ms| && parse(ms[r[k]]).Some? {
      if k >= |head| {
        assert r[k] == sh[k - |head|] == rest[k - |head|] + 1;
        assert ms[1..][rest[k - |head|]] == ms[r[k]];
      }
    }
  }

  lemma ShiftKeepsIncreasing(head: seq<nat>, rest: seq<nat>)
    requires Increasing(rest)
    requires head == [] || head == [0]
    ensures Increasing(head + Shift(rest))
  {
    var sh := Shift(rest);
    var r := head + sh;
    forall i, j | 0 <= i < j < |r| ensures r[i] < r[j] {
      if i >= |head| {
        assert r[i] == sh[i - |head|] && r[j] == sh[j - |head|];
      } else {
        assert r[j] == sh[j - |head|];
      }
    }
  }

  lemma ShiftKeepsAllParsed(parse: string -> Option<CalendarDate>, ms: seq<string>, head: seq<nat>, rest: seq<nat>)
    requires ms != [] && AllParsed(parse, ms[1..], rest)
    requires head == if parse(ms[0]).Some? then [0] else []
    ensures AllParsed(parse, ms, head + Shift(rest))
  {
    var sh := Shift(rest);
    var r := head + sh;
    forall j | 0 <= j < |ms| && parse(ms[j]).Some? ensures j in r {
      if j == 0 {
        assert r[0] == 0;
      } else {
        assert ms[1..][j - 1] == ms[j];
        assert j - 1 in rest;
        var k :| 0 <= k < |rest| && rest[k] == j - 1;
        assert r[|head| + k] == j;
      }
    }
  }

  /** The parsed dates are the dates of the parsed captures, in capture order. */
  lemma {:induction false} ParsedDatesInCaptureOrder(parse: string -> Option<CalendarDate>, ms: seq<string>)
    ensures DatesAtPositions(parse, ms, ParsedDates(parse, ms), ParsedPositions(parse, ms))
    decreases |ms|
  {
    if ms != [] {
      var rds, rps := ParsedDates(parse, ms[1..]), ParsedPositions(parse, ms[1..]);
      ParsedDatesInCaptureOrder(parse, ms[1..]);
      ShiftKeepsDates(parse, ms, rds, rps);
      var ds, ps := ParsedDates(parse, ms), ParsedPositions(parse, ms);
      if parse(ms[0]).Some? {
        assert ds == [parse(ms[0]).value] + rds && ps == [0] + Shift(rps);
        HeadKeepsDates(parse, ms, rds, Shift(rps));
      } else {
        assert ds == rds && ps == Shift(rps);
      }
    }
  }

  /** The k-th date is the parse of the capture at the k-th position. */
  predicate DatesAtPositions(parse: string -> Option<CalendarDate>, ms: seq<string>, ds: seq<CalendarDate>, ps: seq<nat>) {
    |ds| == |ps| && forall k :: 0 <= k < |ds| ==> ps[k] < |ms| && Some(ds[k]) == parse(ms[ps[k]])
  }

  lemma ShiftKeepsDates(parse: string -> Option<CalendarDate>, ms: seq<string>, ds: seq<CalendarDate>, ps: seq<nat>)
    requires ms != [] && DatesAtPositions(parse, ms[1..], ds, ps)
    ensures DatesAtPositions(parse, ms, ds, Shift(ps))
  {
    forall k | 0 <= k < |ds| ensures Shift(ps)[k] < |ms| && Some(ds[k]) == parse(ms[Shift(ps)[k]]) {
      assert ms[1..][ps[k]] == ms[ps[k] + 1];
    }
  }

  lemma HeadKeepsDates(parse: string -> Option<CalendarDate>, ms: seq<string>, ds: seq<CalendarDate>, ps: seq<nat>)
    requires ms != [] && parse(ms[0]).Some? && DatesAtPositions(parse, ms, ds, ps)
    ensures DatesAtPositions(parse, ms, [parse(ms[0]).value] + ds, [0] + ps)
  {
    var ds', ps' := [parse(ms[0]).value] + ds, [0] + ps;
    forall k | 0 <= k < |ds'| ensures ps'[k] < |ms| && Some(ds'[k]) == parse(ms[ps'[k]]) {
      if 0 < k {
        assert ds'[k] == ds[k - 1] && ps'[k] == ps[k - 1];
      }
    }
  }

  /** Every listed date is the date of a capture the parser read. */
  lemma {:induction false} ParsedDatesComeFromCaptures(parse: string -> Option<CalendarDate>, ms: seq<string>)
    ensures forall d :: d in ParsedDates(parse, ms) ==> exists k :: 0 <= k < |ms| && parse(ms[k]) == Some(d)
    decreases |ms|
  {
    if ms != [] {
      ParsedDatesComeFromCaptures(parse, ms[1..]);
      forall d | d in ParsedDates(parse, ms)
        ensures exists k :: 0 <= k < |ms| && parse(ms[k]) == Some(d)
      {
        if parse(ms[0]) != Some(d) {
          assert d in ParsedDates(parse, ms[1..]);
          var k :| 0 <= k < |ms[1..]| && parse(ms[1..][k]) == Some(d);
          assert ms[1..][k] == ms[k + 1];
        }
      }
    }
  }

  /** `dt.date().isoformat()` of each date; each string reads back as its date. */
  function IsoDates(ds: seq<CalendarDate>): (r: seq<string>)
    ensures |r| == |ds|
    ensures forall k :: 0 <= k < |ds| ==> r[k] == IsoFormat(ds[k])
    ensures forall k :: 0 <= k < |ds| ==> ParseYmd(r[k]) == Some(ds[k])
  {
    var r := seq(|ds|, k requires 0 <= k < |ds| => IsoFormat(ds[k]));
    forall k | 0 <= k < |ds|
      ensures ParseYmd(r[k]) == Some(ds[k])
    {
      ParseIsoFormat(ds[k]);
    }
    r
  }

  // ---------------------------------------------------------------------------
  // rule_extract

  /** Lines 17-19: the stripped city captures, each once. */
  function ExtractedCities(cityMatches: seq<string>): (r: seq<string>)
    ensures forall c :: c in r <==> exists k :: 0 <= k < |cityMatches| && c == Strip(cityMatches[k])
    ensures forall i, j :: 0 <= i < j < |r| ==> r[i] != r[j]
    ensures forall c :: c in r ==> c == [] || (!IsSpace(c[0]) && !IsSpace(c[|c| - 1]))
  {
    StrippedCaptures(cityMatches);
    Dedup(StripAll(cityMatches))
  }

  /** The stripped captures are the `strip()` of some capture, and so carry no
      surrounding whitespace. */
  lemma StrippedCaptures(ms: seq<string>)
    ensures forall c :: c in StripAll(ms) <==> exists k :: 0 <= k < |ms| && c == Strip(ms[k])
    ensures forall c :: c in StripAll(ms) ==> c == [] || (!IsSpace(c[0]) && !IsSpace(c[|c| - 1]))
  {
    var stripped := StripAll(ms);
    forall c | c in stripped
      ensures exists k :: 0 <= k < |ms| && c == Strip(ms[k])
    {
      var k :| 0 <= k < |stripped| && stripped[k] == c;
      assert c == Strip(ms[k]);
    }
    forall c | exists k :: 0 <= k < |ms| && c == Strip(ms[k])
      ensures c in stripped
    {
      var k :| 0 <= k < |ms| && c == Strip(ms[k]);
      assert stripped[k] == c;
    }
    StrippedAreTrimmed(ms);
  }

  lemma StrippedAreTrimmed(ms: seq<string>)
    ensures forall c :: c in StripAll(ms) ==> c == [] || (!IsSpace(c[0]) && !IsSpace(c[|c| - 1]))
  {
    var stripped := StripAll(ms);
    forall c | c in stripped
      ensures c == [] || (!IsSpace(c[0]) && !IsSpace(c[|c| - 1]))
    {
      var k :| 0 <= k < |stripped| && stripped[k] == c;
      assert c == Strip(ms[k]);
    }
  }

  /** Lines 24-29: the ISO strings of the dates the parser reads, in capture order. */
  function ExtractedDates(parse: string -> Option<CalendarDate>, dateMatches: seq<string>): (r: seq<string>)
    ensures var ps := ParsedPositions(parse, dateMatches);
      && |r| == |ps|
      && forall k :: 0 <= k < |r| ==> r[k] == IsoFormat(parse(dateMatches[ps[k]]).value)
    ensures var ps := ParsedPositions(parse, dateMatches);
      forall k :: 0 <= k < |r| ==> ParseYmd(r[k]) == parse(dateMatches[ps[k]])
  {
    var ds := ParsedDates(parse, dateMatches);
    ParsedDatesInCaptureOrder(parse, dateMatches);
    IsoDates(ds)
  }

  /** Lines 12-40. `cityMatches` and `dateMatches` are the captures of the city and
      date expressions in `text`; `parse` stands for `dateparser.parse` followed by
      `.date()`. Each key is present exactly when its rule fired. */
  function RuleExtract(text: string, cityMatches: seq<string>, dateMatches: seq<string>,
                       parse: string -> Option<CalendarDate>): (r: Extracted)
    ensures r.cities.Some? <==> cityMatches != []
    ensures r.cities.Some? ==> r.cities.value == ExtractedCities(cityMatches)
    ensures r.dates.Some? <==> dateMatches != []
    ensures r.dates.Some? ==> r.dates.value == ExtractedDates(parse, dateMatches)
    ensures r.adults == Count(text, "adult")
    ensures r.children == Count(text, "children")
  {
    var cities := if cityMatches != [] then Some(ExtractedCities(cityMatches)) else None;
    var dates := if dateMatches != [] then Some(ExtractedDates(parse, dateMatches)) else None;
    Extracted(cities, dates, Count(text, "adult"), Count(text, "children"))
  }

  /** A request that never writes "children" — "1 child", say — gets no children count. */
  lemma OneChildIsNotCounted(text: string, cityMatches: seq<string>, dateMatches: seq<string>,
                             parse: string -> Option<CalendarDate>)
    requires !Occurs("children", text)
    ensures RuleExtract(text, cityMatches, dateMatches, parse).children.None?
  {
    CountNeedsWord(text, "children");
  }

  /** The adult count is present exactly when a digit run, whitespace and "adult"
      appear in that order, and it is the number of the leftmost such run. */
  lemma AdultsFromLeftmostMatch(text: string, cityMatches: seq<string>, dateMatches: seq<string>,
                                parse: string -> Option<CalendarDate>)
    ensures var a := RuleExtract(text, cityMatches, dateMatches, parse).adults;
      && (a.Some? <==> exists i, j, k :: RegexMatch(text, "adult", i, j, k))
      && (a.Some? ==> exists i, j, k ::
            && RegexMatch(text, "adult", i, j, k) && a.value == DigitsValue(text[i..j])
            && forall i', j', k' :: RegexMatch(text, "adult", i', j', k') ==> i <= i')
  {
    CountIsLeftmostMatch(text, "adult");
  }
}
