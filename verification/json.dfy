/** Parsed JSON values, with the value kinds of section 3 of RFC 8259, as Python's
    `json.loads` hands them to the services: objects become dicts (which remember the
    order their keys were first inserted in), arrays become lists, integral numbers
    become ints and the other numbers floats. */
module Json {
  import opened Wrappers

  /** A float is the exact decimal `mantissa * 10^exponent` written in the reply. */
  datatype Json =
    | JNull
    | JBool(b: bool)
    | JInt(i: int)
    | JFloat(mantissa: int, exponent: int)
    | JString(s: string)
    | JArray(items: seq<Json>)
    | JObject(fields: Dict)

  /** A Python dict: the value of each key, and the keys in insertion order. */
  datatype Dict = Dict(order: seq<string>, entries: map<string, Json>)

  /** The order lists each key of the dict exactly once. */
  predicate WellFormed(d: Dict) {
    && (forall i, j :: 0 <= i < j < |d.order| ==> d.order[i] != d.order[j])
    && (forall k :: k in d.order ==> k in d.entries)
    && (forall k :: k in d.entries ==> k in d.order)
  }

  const EmptyDict: Dict := Dict([], map[])

  /** Python's `list(d.keys())`. */
  function Keys(d: Dict): seq<string> {
    d.order
  }

  /** The value stored under `k`, or None when the dict has no such key. */
  function Lookup(d: Dict, k: string): Option<Json> {
    if k in d.entries then Some(d.entries[k]) else None
  }

  /** Python's `k in d`. */
  predicate HasKey(d: Dict, k: string) {
    k in d.entries
  }

  /** Python's `d.get(k, default)`. */
  function Get(d: Dict, k: string, default: Json): Json {
    if k in d.entries then d.entries[k] else default
  }

  /** Python's `d[k] = v`: the key then holds `v` and every other key keeps its
      value; an existing key keeps its place, a new key is appended to the order. */
  function Put(d: Dict, k: string, v: Json): (r: Dict)
    ensures Lookup(r, k) == Some(v)
    ensures forall k' :: k' != k ==> Lookup(r, k') == Lookup(d, k')
    ensures HasKey(d, k) ==> Keys(r) == Keys(d)
    ensures !HasKey(d, k) ==> Keys(r) == Keys(d) + [k]
    ensures WellFormed(d) ==> WellFormed(r)
  {
    Dict(if k in d.entries then d.order else d.order + [k], d.entries[k := v])
  }

  /** Storing the value a key already holds leaves the dict unchanged. */
  lemma PutSame(d: Dict, k: string, v: Json)
    requires Lookup(d, k) == Some(v)
    ensures Put(d, k, v) == d
  {
    assert d.entries[k := v] == d.entries;
  }

  /** Python's `d[k] = d.get(k, default)`: a present key keeps its value, an
      absent one is appended with `default`. */
  function SetDefault(d: Dict, k: string, default: Json): (r: Dict)
    ensures Lookup(r, k) == Some(Get(d, k, default))
    ensures forall k' :: k' != k ==> Lookup(r, k') == Lookup(d, k')
  {
    Put(d, k, Get(d, k, default))
  }

  /** A dict display `{k1: v1, k2: v2, ...}`: the entries are stored left to right,
      so a repeated key keeps its first place and takes its last value. */
  function FromPairs(ps: seq<(string, Json)>): (r: Dict)
    ensures WellFormed(r)
    ensures forall i :: 0 <= i < |ps| ==> HasKey(r, ps[i].0)
    ensures forall k :: HasKey(r, k) ==> exists i :: 0 <= i < |ps| && ps[i].0 == k
    decreases |ps|
  {
    if ps == [] then EmptyDict
    else
      var front := FromPairs(ps[..|ps| - 1]);
      var r := Put(front, ps[|ps| - 1].0, ps[|ps| - 1].1);
      assert forall i :: 0 <= i < |ps| - 1 ==> ps[..|ps| - 1][i] == ps[i];
      forall k | HasKey(r, k)
        ensures exists i :: 0 <= i < |ps| && ps[i].0 == k
      {
        if k != ps[|ps| - 1].0 {
          var front := ps[..|ps| - 1];
          assert HasKey(FromPairs(front), k);
          var i :| 0 <= i < |front| && front[i].0 == k;
          assert ps[i].0 == k;
        }
      }
      r
  }

  /** The value a dict display gives a key that it lists once is the value written next to it. */
  lemma {:induction false} FromPairsValue(ps: seq<(string, Json)>, i: nat)
    requires i < |ps|
    requires forall j :: 0 <= j < |ps| && j != i ==> ps[j].0 != ps[i].0
    ensures Lookup(FromPairs(ps), ps[i].0) == Some(ps[i].1)
    decreases |ps|
  {
    if i < |ps| - 1 {
      var front := ps[..|ps| - 1];
      FromPairsValue(front, i);
    }
  }

  /** `json.loads(reply)` with a decoding failure (None) replaced by `{}`. */
  function DecodedOrEmpty(reply: Option<Json>): (r: Json)
    ensures reply.None? ==> r == JObject(EmptyDict)
    ensures reply.Some? ==> r == reply.value
  {
    if reply.Some? then reply.value else JObject(EmptyDict)
  }
}
