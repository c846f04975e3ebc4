/**
 * combineMappings: merges partial mappings, earliest first. A key takes the
 * value of the first mapping that holds it; later mappings never overwrite.
 */
module MappingCombiner {

  /** The specification: fold left, each mapping adding only the keys not yet present. */
  function Combined<K, V>(mappings: seq<map<K, V>>): map<K, V>
  {
    if mappings == [] then map[]
    else
      var earlier := Combined(mappings[..|mappings| - 1]);
      earlier + (mappings[|mappings| - 1] - earlier.Keys)
  }

  /** The union of the key sets of all mappings. */
  function KeysOf<K, V>(mappings: seq<map<K, V>>): set<K>
  {
    if mappings == [] then {} else KeysOf(mappings[..|mappings| - 1]) + mappings[|mappings| - 1].Keys
  }

  /** Mapping number i is the earliest that holds key. */
  predicate EarliestHolder<K, V>(mappings: seq<map<K, V>>, key: K, i: int)
  {
    0 <= i < |mappings| && key in mappings[i] && forall j :: 0 <= j < i ==> key !in mappings[j]
  }

  /** The key set of the result is the union of the inputs' key sets. */
  lemma {:induction false} CombinedKeys<K, V>(mappings: seq<map<K, V>>)
    ensures Combined(mappings).Keys == KeysOf(mappings)
  {
    if mappings != [] {
      CombinedKeys(mappings[..|mappings| - 1]);
    }
  }

  /** Each key maps to the value of the earliest input that holds it. */
  lemma {:induction false} CombinedTakesEarliest<K, V>(mappings: seq<map<K, V>>, key: K, i: int)
    requires EarliestHolder(mappings, key, i)
    ensures key in Combined(mappings) && Combined(mappings)[key] == mappings[i][key]
  {
    var n := |mappings| - 1;
    var prefix := mappings[..n];
    CombinedKeys(prefix);
    if i < n {
      assert EarliestHolder(prefix, key, i);
      CombinedTakesEarliest(prefix, key, i);
    } else {
      assert key !in KeysOf(prefix) by {
        KeysOfMembers(prefix, key);
      }
    }
  }

  lemma {:induction false} KeysOfMembers<K, V>(mappings: seq<map<K, V>>, key: K)
    ensures key in KeysOf(mappings) <==> exists j :: 0 <= j < |mappings| && key in mappings[j]
  {
    if mappings != [] {
      var n := |mappings| - 1;
      KeysOfMembers(mappings[..n], key);
      if key in KeysOf(mappings[..n]) {
        var j :| 0 <= j < n && key in mappings[..n][j];
        assert key in mappings[j];
      }
      if exists j :: 0 <= j < |mappings| && key in mappings[j] {
        var j :| 0 <= j < |mappings| && key in mappings[j];
        if j < n {
          assert key in mappings[..n][j];
        }
      }
    }
  }

  /** Appending a mapping never changes a key already present. */
  lemma LaterNeverOverwrites<K, V>(mappings: seq<map<K, V>>, later: map<K, V>, key: K)
    requires key in Combined(mappings)
    ensures key in Combined(mappings + [later])
    ensures Combined(mappings + [later])[key] == Combined(mappings)[key]
  {
    assert (mappings + [later])[..|mappings|] == mappings;
  }

  /** Combining pairwise, as the lineage mapper does stage after stage, is the same
      as combining all stages at once. */
  lemma CombineStep<K, V>(mappings: seq<map<K, V>>, next: map<K, V>)
    ensures Combined([Combined(mappings), next]) == Combined(mappings + [next])
  {
    var c := Combined(mappings);
    assert [c, next][..1] == [c];
    assert [c][..0] == [];
    assert Combined([c]) == c;
    assert (mappings + [next])[..|mappings|] == mappings;
  }

  /** combineMappings (the varargs loop). */
  method CombineMappings<K, V>(mappings: seq<map<K, V>>) returns (result: map<K, V>)
    ensures result == Combined(mappings)
  {
    result := map[];
    for i := 0 to |mappings|
      invariant result == Combined(mappings[..i])
    {
      var mapping := mappings[i];
      ghost var base := result;
      var todo := mapping.Keys;
      while todo != {}
        invariant todo <= mapping.Keys
        invariant result.Keys == base.Keys + (mapping.Keys - todo)
        invariant forall k :: k in base ==> result[k] == base[k]
        invariant forall k :: k in result && k !in base ==> result[k] == mapping[k]
        decreases todo
      {
        var key :| key in todo;
        if key !in result {
          result := result[key := mapping[key]];
        }
        todo := todo - {key};
      }
      assert mappings[..i + 1][..i] == mappings[..i];
      assert result == base + (mapping - base.Keys);
    }
    assert mappings[..|mappings|] == mappings;
  }
}
