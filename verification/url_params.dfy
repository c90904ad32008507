/** `getUrlParams` of assets/all-products.js: the query string's (key, value)
    entries collected into an object whose repeated keys hold a list of values. */
module UrlParams {
  import opened Entries

  /** A key's entry in the result: a plain string after its first occurrence, a list
      from its second on. */
  datatype ParamValue = Single(value: string) | Multi(values: seq<string>)

  /** The values an entry holds, in order. */
  function Listed(v: ParamValue): seq<string>
  {
    match v
    case Single(x) => [x]
    case Multi(xs) => xs
  }

  /** JavaScript truthiness of an entry: an array always, a string when non-empty. */
  predicate Truthy(v: ParamValue)
  {
    v.Multi? || v.value != ""
  }

  /** One step of the loop as the source writes it: an existing entry is extended only
      when it is truthy, so an empty string already stored is overwritten. */
  function AddAsWritten(params: map<string, ParamValue>, key: string, value: string): map<string, ParamValue>
  {
    if key in params && Truthy(params[key]) then
      params[key := Multi(Listed(params[key]) + [value])]
    else
      params[key := Single(value)]
  }

  /** How many values the loop as written loses from the front of `vs`: the leading
      run of empty strings, except that the last value is always kept. */
  function LeadingEmpties(vs: seq<string>): (n: nat)
    requires vs != []
    ensures n < |vs|
    ensures forall i :: 0 <= i < n ==> vs[i] == ""
    ensures n < |vs| - 1 ==> vs[n] != ""
  {
    if |vs| == 1 || vs[0] != "" then 0 else 1 + LeadingEmpties(vs[1..])
  }

  /** The three properties of `LeadingEmpties` single out one number. */
  lemma LeadingEmptiesUnique(vs: seq<string>, m: nat)
    requires vs != [] && m < |vs|
    requires forall i :: 0 <= i < m ==> vs[i] == ""
    requires m < |vs| - 1 ==> vs[m] != ""
    ensures m == LeadingEmpties(vs)
  {
  }

  /** What the loop as written keeps for a key whose values, in order, are `vs`:
      the key is present exactly when it has values; its entry holds them without
      their leading run of empty strings (the last value always stays), and it is a
      plain string exactly when one value is kept. */
  predicate KeptAsWritten(params: map<string, ParamValue>, key: string, vs: seq<string>)
  {
    (key in params <==> vs != [])
    && (key in params ==>
          Listed(params[key]) == vs[LeadingEmpties(vs)..]
          && (params[key].Single? <==> |Listed(params[key])| == 1))
  }

  /** The loop as the source writes it. A stored value is extended only while it is
      truthy, so only a lone empty string is ever replaced: the key's leading empty
      values are lost, while an empty value after a non-empty one is kept. */
  function GetUrlParamsAsWritten(entries: seq<(string, string)>): (params: map<string, ParamValue>)
    ensures forall k :: KeptAsWritten(params, k, ValuesOf(entries, k))
  {
    if |entries| == 0 then map[]
    else
      var init := entries[..|entries| - 1];
      var e := entries[|entries| - 1];
      var p0 := GetUrlParamsAsWritten(init);
      assert forall k :: KeptAsWritten(AddAsWritten(p0, e.0, e.1), k, ValuesOf(entries, k)) by {
        forall k ensures KeptAsWritten(AddAsWritten(p0, e.0, e.1), k, ValuesOf(entries, k)) {
          assert ValuesOf(entries, k) == ValuesOf(init, k) + (if e.0 == k then [e.1] else []);
          AddAsWrittenKeeps(p0, e, k, ValuesOf(init, k));
        }
      }
      AddAsWritten(p0, e.0, e.1)
  }

  /** One step of the loop as written keeps `KeptAsWritten` for every key. */
  lemma AddAsWrittenKeeps(p0: map<string, ParamValue>, e: (string, string), k: string, vs0: seq<string>)
    requires KeptAsWritten(p0, k, vs0)
    ensures KeptAsWritten(AddAsWritten(p0, e.0, e.1), k, vs0 + (if e.0 == k then [e.1] else []))
  {
    var p := AddAsWritten(p0, e.0, e.1);
    if k != e.0 {
      assert vs0 + [] == vs0;
      assert k in p <==> k in p0;
      assert k in p ==> p[k] == p0[k];
    } else {
      var vs := vs0 + [e.1];
      if k in p0 && Truthy(p0[k]) {
        var n0 := LeadingEmpties(vs0);
        assert vs0[n0] != "" || n0 < |vs0| - 1 by {
          if p0[k].Single? { assert Listed(p0[k])[0] == vs0[n0]; }
        }
        LeadingEmptiesUnique(vs, n0);
        assert Listed(p[k]) == vs0[n0..] + [e.1] == vs[n0..];
      } else if k in p0 {
        var n0 := LeadingEmpties(vs0);
        assert Listed(p0[k]) == [""] == vs0[n0..];
        assert n0 == |vs0| - 1;
        LeadingEmptiesUnique(vs, |vs0|);
        assert Listed(p[k]) == vs[|vs0|..];
      } else {
        assert vs0 == [];
        LeadingEmptiesUnique(vs, 0);
      }
    }
  }

  /** A query whose first value for a key is empty loses that value: the second
      occurrence replaces it instead of joining it. */
  lemma AsWrittenDropsEmptyFirstValue()
    ensures GetUrlParamsAsWritten([("q", ""), ("q", "x")]) == map["q" := Single("x")]
    ensures ValuesOf([("q", ""), ("q", "x")], "q") == ["", "x"]
  {
    var entries := [("q", ""), ("q", "x")];
    assert entries[..1] == [("q", "")];
    assert entries[..1][..0] == [];
    var p1 := GetUrlParamsAsWritten(entries[..1]);
    assert GetUrlParamsAsWritten(entries[..1][..0]) == map[];
    assert p1 == AddAsWritten(map[], "q", "");
    assert p1 == map["q" := Single("")];
    assert !Truthy(p1["q"]);
    assert GetUrlParamsAsWritten(entries) == AddAsWritten(p1, "q", "x");
  }

  /** One step with the existence test the comment beside it describes. */
  function Add(params: map<string, ParamValue>, key: string, value: string): map<string, ParamValue>
  {
    if key in params then params[key := Multi(Listed(params[key]) + [value])]
    else params[key := Single(value)]
  }

  /** The query entries grouped by key: the keys are exactly the keys that occur,
      each entry holds that key's values in order of appearance, and it is a plain
      string exactly when the key occurs once. */
  function GetUrlParams(entries: seq<(string, string)>): (params: map<string, ParamValue>)
    ensures forall k :: k in params <==> ValuesOf(entries, k) != []
    ensures forall k :: k in params ==> Listed(params[k]) == ValuesOf(entries, k)
    ensures forall k :: k in params ==> (params[k].Single? <==> |ValuesOf(entries, k)| == 1)
  {
    if |entries| == 0 then map[]
    else
      var e := entries[|entries| - 1];
      Add(GetUrlParams(entries[..|entries| - 1]), e.0, e.1)
  }

  /** When no value is empty, the source's loop and the corrected one agree. */
  lemma {:induction false} AsWrittenAgreesWithoutEmptyValues(entries: seq<(string, string)>)
    requires forall i :: 0 <= i < |entries| ==> entries[i].1 != ""
    ensures GetUrlParamsAsWritten(entries) == GetUrlParams(entries)
  {
    if |entries| > 0 {
      var init := entries[..|entries| - 1];
      assert forall i :: 0 <= i < |init| ==> init[i] == entries[i];
      AsWrittenAgreesWithoutEmptyValues(init);
      NoEmptyEntry(init);
    }
  }

  /** Without empty values every stored entry is truthy. */
  lemma {:induction false} NoEmptyEntry(entries: seq<(string, string)>)
    requires forall i :: 0 <= i < |entries| ==> entries[i].1 != ""
    ensures forall k :: k in GetUrlParams(entries) ==> Truthy(GetUrlParams(entries)[k])
  {
    if |entries| > 0 {
      var init := entries[..|entries| - 1];
      assert forall i :: 0 <= i < |init| ==> init[i] == entries[i];
      NoEmptyEntry(init);
    }
  }
}
