/**
 * JSON values as the request handlers see them once Flask has parsed a
 * request body, and the dictionary operations the handlers apply to them.
 *
 * A JSON object reaches the handlers as a Python dict; it is modelled as a
 * sequence of (key, value) pairs in the dict's iteration order, with no key
 * repeated.
 */
module Json {

  datatype Option<T> = None | Some(value: T)

  /** A parsed JSON value. Floats are kept as their literal text: nothing in
      the service computes with them. */
  datatype JsonValue =
    | JNull
    | JBool(b: bool)
    | JInt(i: int)
    | JFloat(literal: string)
    | JString(s: string)
    | JArray(elements: seq<JsonValue>)
    | JObject(members: seq<(string, JsonValue)>)

  predicate DistinctKeys(p: seq<(string, JsonValue)>) {
    forall i, j :: 0 <= i < j < |p| ==> p[i].0 != p[j].0
  }

  /** A Python dict of JSON values, in iteration order. */
  type Payload = p: seq<(string, JsonValue)> | DistinctKeys(p) witness []

  /** The keys of a dict, in iteration order. */
  function Keys(p: seq<(string, JsonValue)>): (ks: seq<string>)
    ensures |ks| == |p|
    ensures forall i :: 0 <= i < |p| ==> ks[i] == p[i].0
  {
    if p == [] then [] else [p[0].0] + Keys(p[1..])
  }

  /** The keys of a dict, as a set. */
  function KeySet(p: seq<(string, JsonValue)>): set<string> {
    set i | 0 <= i < |p| :: p[i].0
  }

  /** A dict has as many keys as entries. */
  lemma {:induction false} KeyCount(p: Payload)
    ensures |KeySet(p)| == |p|
  {
    if p != [] {
      var q: seq<(string, JsonValue)> := p[1..];
      assert DistinctKeys(q) by {
        forall a, b | 0 <= a < b < |q| ensures q[a].0 != q[b].0 {
          assert q[a] == p[a + 1] && q[b] == p[b + 1];
        }
      }
      KeyCount(q);
      assert KeySet(p) == {p[0].0} + KeySet(q) by {
        forall k | k in KeySet(p) ensures k in {p[0].0} + KeySet(q) {
          var i :| 0 <= i < |p| && p[i].0 == k;
          if i > 0 { assert q[i - 1] == p[i]; }
        }
        forall k | k in KeySet(q) ensures k in KeySet(p) {
          var i :| 0 <= i < |q| && q[i].0 == k;
          assert p[i + 1] == q[i];
        }
      }
      assert p[0].0 !in KeySet(q) by {
        forall i | 0 <= i < |q| ensures q[i].0 != p[0].0 {
          assert q[i] == p[i + 1];
        }
      }
    }
  }

  /** `d.get(k)` without a default, except that an absent key is `None`
      rather than Python's `None`, so that it stays apart from a JSON null. */
  function Find(p: seq<(string, JsonValue)>, k: string): (r: Option<JsonValue>)
    ensures r.None? <==> forall i :: 0 <= i < |p| ==> p[i].0 != k
    ensures r.Some? ==> exists i :: 0 <= i < |p| && p[i] == (k, r.value)
  {
    if p == [] then None
    else if p[0].0 == k then Some(p[0].1)
    else Find(p[1..], k)
  }

  /** In a dict each key has one value, so the pair found is the value stored. */
  lemma {:induction false} FindAt(p: Payload, i: nat)
    requires i < |p|
    ensures Find(p, p[i].0) == Some(p[i].1)
  {
    if i > 0 {
      var q: seq<(string, JsonValue)> := p[1..];
      assert DistinctKeys(q) by {
        forall a, b | 0 <= a < b < |q| ensures q[a].0 != q[b].0 {
          assert q[a] == p[a + 1] && q[b] == p[b + 1];
        }
      }
      assert p[0].0 != p[i].0;
      assert q[i - 1] == p[i];
      FindAt(q, i - 1);
    }
  }

  /** `del d[k]` on a copy of the dict: the pairs keep their order. */
  function Without(p: Payload, k: string): (r: Payload)
    ensures forall key :: Find(r, key) == if key == k then None else Find(p, key)
    ensures forall i :: 0 <= i < |r| ==> r[i] in p
    decreases |p|
  {
    if p == [] then []
    else
      var rest := Without(p[1..], k);
      if p[0].0 == k then rest
      else
        assert forall i :: 0 <= i < |rest| ==> rest[i] in p[1..] && rest[i].0 != p[0].0;
        [p[0]] + rest
  }

  /** Looking a key up in two dicts laid end to end finds it in the first one
      that has it. */
  lemma {:induction false} FindAppend(p: seq<(string, JsonValue)>, q: seq<(string, JsonValue)>, key: string)
    ensures Find(p + q, key) == if Find(p, key).Some? then Find(p, key) else Find(q, key)
  {
    if p != [] {
      assert (p + q)[0] == p[0] && (p + q)[1..] == p[1..] + q;
      FindAppend(p[1..], q, key);
    } else {
      assert p + q == q;
    }
  }

  /** Overwrites the value of every pair whose key is `k`. */
  function Overwrite(p: seq<(string, JsonValue)>, k: string, v: JsonValue): (r: seq<(string, JsonValue)>)
    ensures |r| == |p|
    ensures forall i :: 0 <= i < |p| ==> r[i].0 == p[i].0
    ensures forall key :: Find(r, key) == if key == k && Find(p, k).Some? then Some(v) else Find(p, key)
  {
    if p == [] then []
    else [if p[0].0 == k then (k, v) else p[0]] + Overwrite(p[1..], k, v)
  }

  /** `d[k] = v`: an existing key keeps its place, a new key goes last. */
  function Put(p: Payload, k: string, v: JsonValue): (r: Payload)
    ensures forall key :: Find(r, key) == if key == k then Some(v) else Find(p, key)
    ensures Find(p, k).None? ==> r == p + [(k, v)]
  {
    if Find(p, k).None? then
      assert forall key :: Find(p + [(k, v)], key) == if key == k then Some(v) else Find(p, key) by {
        forall key { FindAppend(p, [(k, v)], key); }
      }
      p + [(k, v)]
    else
      Overwrite(p, k, v)
  }

  /** The needle occurs in the haystack starting at offset `at`. */
  predicate OccursAt(hay: string, needle: string, at: int) {
    0 <= at && at + |needle| <= |hay| && hay[at..at + |needle|] == needle
  }

  /** SQL `LIKE '%' + needle + '%'` read as plain substring containment:
      true exactly when the needle occurs at some offset. */
  predicate Contains(hay: string, needle: string): (r: bool)
    ensures r <==> exists at :: OccursAt(hay, needle, at)
  {
    if needle <= hay then
      assert OccursAt(hay, needle, 0);
      true
    else if hay == [] then false
    else
      var rest := Contains(hay[1..], needle);
      assert !OccursAt(hay, needle, 0) by {
        if |needle| <= |hay| { assert hay[0..|needle|] == needle ==> needle <= hay; }
      }
      assert forall at :: OccursAt(hay, needle, at) ==> at > 0 && OccursAt(hay[1..], needle, at - 1) by {
        forall at | OccursAt(hay, needle, at) ensures at > 0 && OccursAt(hay[1..], needle, at - 1) {
          assert hay[1..][at - 1..at - 1 + |needle|] == hay[at..at + |needle|];
        }
      }
      assert forall at :: OccursAt(hay[1..], needle, at) ==> OccursAt(hay, needle, at + 1) by {
        forall at | OccursAt(hay[1..], needle, at) ensures OccursAt(hay, needle, at + 1) {
          assert hay[1..][at..at + |needle|] == hay[at + 1..at + 1 + |needle|];
        }
      }
      rest
  }

  /** A needle found at offset `at` of the haystack is contained in it. */
  lemma ContainsAt(hay: string, needle: string, at: nat)
    requires at + |needle| <= |hay| && hay[at..at + |needle|] == needle
    ensures Contains(hay, needle)
  {
    assert OccursAt(hay, needle, at);
  }

  /** Text around a haystack keeps every needle it contains. */
  lemma ContainsExtend(before: string, hay: string, after: string, needle: string)
    requires Contains(hay, needle)
    ensures Contains(before + hay + after, needle)
  {
    var at :| OccursAt(hay, needle, at);
    var big := before + hay + after;
    assert big[|before| + at..|before| + at + |needle|] == hay[at..at + |needle|];
    ContainsAt(big, needle, |before| + at);
  }

  /** A string contains each of its infixes. */
  lemma ContainsInfix(before: string, needle: string, after: string)
    ensures Contains(before + needle + after, needle)
  {
    var hay := before + needle + after;
    assert hay[|before|..|before| + |needle|] == needle;
    ContainsAt(hay, needle, |before|);
  }

  /** Two JSON values of the same kind, as Python's `type` tells them apart. */
  predicate SameKind(v: JsonValue, w: JsonValue) {
    && v.JNull? == w.JNull? && v.JBool? == w.JBool? && v.JInt? == w.JInt?
    && v.JFloat? == w.JFloat? && v.JString? == w.JString? && v.JArray? == w.JArray?
  }

  /** The name Python prints for the type of a parsed JSON value: the class
      of the value, quoted as `repr` of a type shows it. */
  function PythonTypeName(v: JsonValue): (r: string)
    ensures |r| > 10 && r[..8] == "<class '" && r[|r| - 2..] == "'>"
  {
    match v
    case JNull => "<class 'NoneType'>"
    case JBool(_) => "<class 'bool'>"
    case JInt(_) => "<class 'int'>"
    case JFloat(_) => "<class 'float'>"
    case JString(_) => "<class 'str'>"
    case JArray(_) => "<class 'list'>"
    case JObject(_) => "<class 'dict'>"
  }

  /** The printed type names tell exactly the kinds of value apart. */
  lemma TypeNameTellsKinds(v: JsonValue, w: JsonValue)
    ensures PythonTypeName(v) == PythonTypeName(w) <==> SameKind(v, w)
  {
    if !SameKind(v, w) {
      var a, b := PythonTypeName(v), PythonTypeName(w);
      assert a[8..] != b[8..];
    }
  }

  function DigitChar(d: nat): char
    requires d < 10
  {
    "0123456789"[d]
  }

  /** The number a string of decimal digits spells, most significant first. */
  function DigitsValue(s: string): nat
    requires forall i :: 0 <= i < |s| ==> '0' <= s[i] <= '9'
  {
    if s == [] then 0 else 10 * DigitsValue(s[..|s| - 1]) + (s[|s| - 1] as int - '0' as int)
  }

  /** `str(n)` for a non-negative integer: the digits of `n` with no leading
      zero. */
  function Decimal(n: nat): (s: string)
    ensures |s| > 0
    ensures forall i :: 0 <= i < |s| ==> '0' <= s[i] <= '9'
    ensures DigitsValue(s) == n
    ensures s[0] == '0' ==> s == "0"
  {
    if n < 10 then [DigitChar(n)]
    else
      var s := Decimal(n / 10) + [DigitChar(n % 10)];
      assert s[..|s| - 1] == Decimal(n / 10);
      s
  }
}
