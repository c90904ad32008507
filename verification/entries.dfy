/** Ordered (key, value) entries, as both scripts' grouping loops read them: the
    ticked facet inputs as (name, value) and the query string as (key, value). */
module Entries {

  /** Reference definition: the values paired with `key`, in order of appearance. */
  function ValuesOf(entries: seq<(string, string)>, key: string): seq<string>
  {
    if |entries| == 0 then []
    else
      var e := entries[|entries| - 1];
      ValuesOf(entries[..|entries| - 1], key) + (if e.0 == key then [e.1] else [])
  }

  /** A key has values exactly when some entry carries that key. */
  lemma {:induction false} ValuesOfNonEmpty(entries: seq<(string, string)>, key: string)
    ensures ValuesOf(entries, key) != [] <==> exists i :: 0 <= i < |entries| && entries[i].0 == key
  {
    if |entries| > 0 {
      var n := |entries| - 1;
      var init := entries[..n];
      ValuesOfNonEmpty(init, key);
      if entries[n].0 != key {
        if i :| 0 <= i < |entries| && entries[i].0 == key {
          assert i < n && init[i] == entries[i];
        }
        if i :| 0 <= i < |init| && init[i].0 == key {
          assert entries[i] == init[i];
        }
      }
    }
  }
}
