/**
 * generateIntersectionsOfMappings: cross-tabulates the ancestor-to-upstream
 * mapping against the ancestor-to-fork mapping. Rows are upstream types,
 * columns fork types, and a cell is the List<Integer> the source stores: one
 * count, or, on a diagonal cell other than IDENTICAL, [raw, purged] where
 * purged counts the methods both lineages mapped identically. The NOT_FOUND
 * row is then replaced by the deleted-method row and an ADDED row records the
 * newly added methods.
 */
module Aggregation {
  import opened MappingModel
  import opened LineageMapper

  type LineageMap = map<string, MethodMapping>
  type Universe = map<string, MethodModel>
  type Buckets = map<MappingType, set<string>>
  type Row = map<MappingType, seq<int>>
  type Table = map<MappingType, Row>

  // Bucketing a set of keys by their type under a mapping.

  /** The keys of a set that a mapping classifies as t (NOT_FOUND when unmapped). */
  function ClassOf(mapping: LineageMap, keys: set<string>, t: MappingType): set<string>
  {
    set k | k in keys && TypeIn(mapping, k) == t
  }

  function TypesOf(mapping: LineageMap, keys: set<string>): set<MappingType>
  {
    set k | k in keys :: TypeIn(mapping, k)
  }

  /** The buckets filterMethodMapping builds: one non-empty bucket per type that occurs. */
  function BucketsOf(mapping: LineageMap, keys: set<string>): Buckets
  {
    map t | t in TypesOf(mapping, keys) :: ClassOf(mapping, keys, t)
  }

  function Bucket(buckets: Buckets, t: MappingType): set<string>
  {
    if t in buckets then buckets[t] else {}
  }

  /** Every key is in exactly the bucket of its type, buckets hold nothing else
      and none is empty. */
  lemma BucketsPartition(mapping: LineageMap, keys: set<string>)
    ensures forall k :: k in keys ==>
      (TypeIn(mapping, k) in BucketsOf(mapping, keys) && k in BucketsOf(mapping, keys)[TypeIn(mapping, k)])
    ensures forall t, k :: t in BucketsOf(mapping, keys) && k in BucketsOf(mapping, keys)[t] ==>
      k in keys && TypeIn(mapping, k) == t
    ensures forall t :: t in BucketsOf(mapping, keys) ==> BucketsOf(mapping, keys)[t] != {}
  {
    forall t | t in BucketsOf(mapping, keys) ensures BucketsOf(mapping, keys)[t] != {} {
      var k :| k in keys && TypeIn(mapping, k) == t;
      assert k in ClassOf(mapping, keys, t);
    }
  }

  /** Looking up any type, present or not, gives its class. */
  lemma BucketIsClass(mapping: LineageMap, keys: set<string>, t: MappingType)
    ensures Bucket(BucketsOf(mapping, keys), t) == ClassOf(mapping, keys, t)
  {
    if t !in TypesOf(mapping, keys) {
      forall k | k in keys ensures TypeIn(mapping, k) != t {
        assert TypeIn(mapping, k) in TypesOf(mapping, keys);
      }
    }
  }

  /** Sum of the class sizes over a sequence of types. */
  function ClassSizes(mapping: LineageMap, keys: set<string>, ts: seq<MappingType>): int
  {
    if ts == [] then 0 else |ClassOf(mapping, keys, ts[0])| + ClassSizes(mapping, keys, ts[1..])
  }

  lemma {:induction false} ClassSizesCount(mapping: LineageMap, keys: set<string>, ts: seq<MappingType>)
    requires forall i, j :: 0 <= i < j < |ts| ==> ts[i] != ts[j]
    ensures ClassSizes(mapping, keys, ts) == |set k | k in keys && TypeIn(mapping, k) in ts|
  {
    if ts == [] {
      assert (set k | k in keys && TypeIn(mapping, k) in ts) == {};
    } else {
      ClassSizesCount(mapping, keys, ts[1..]);
      ClassesSplit(mapping, keys, ts);
    }
  }

  /** The keys whose type is among ts: those of the first type, and apart from them those of the rest. */
  lemma ClassesSplit(mapping: LineageMap, keys: set<string>, ts: seq<MappingType>)
    requires ts != [] && forall i, j :: 0 <= i < j < |ts| ==> ts[i] != ts[j]
    ensures var all := set k | k in keys && TypeIn(mapping, k) in ts;
      var tail := set k | k in keys && TypeIn(mapping, k) in ts[1..];
      all == ClassOf(mapping, keys, ts[0]) + tail && ClassOf(mapping, keys, ts[0]) !! tail
  {
    assert ts[0] !in ts[1..] by {
      forall j | 0 <= j < |ts| - 1 ensures ts[1..][j] != ts[0] { assert ts[1..][j] == ts[j + 1]; }
    }
    assert forall t :: t in ts <==> t == ts[0] || t in ts[1..] by {
      assert ts == [ts[0]] + ts[1..];
    }
  }

  /** The bucket sizes add up to the number of keys bucketed. */
  lemma ClassSizesTotal(mapping: LineageMap, keys: set<string>)
    ensures ClassSizes(mapping, keys, AllTypes) == |keys|
  {
    ClassSizesCount(mapping, keys, AllTypes);
    assert (set k | k in keys && TypeIn(mapping, k) in AllTypes) == keys;
  }

  lemma ClassOfAdd(mapping: LineageMap, done: set<string>, key: string, t: MappingType)
    ensures ClassOf(mapping, done + {key}, t) ==
      if TypeIn(mapping, key) == t then ClassOf(mapping, done, t) + {key} else ClassOf(mapping, done, t)
  {
  }

  lemma TypesOfAdd(mapping: LineageMap, done: set<string>, key: string)
    ensures TypesOf(mapping, done + {key}) == TypesOf(mapping, done) + {TypeIn(mapping, key)}
  {
  }

  /** categorizeMappingTypes: the keys of a mapping, bucketed by their type. */
  method CategorizeMappingTypes(mapping: LineageMap) returns (result: Buckets)
    ensures result == BucketsOf(mapping, mapping.Keys)
  {
    result := FilterMethodMapping(mapping, mapping.Keys);
  }

  /** filterMethodMapping: the given keys, bucketed by their type under the
      mapping, NOT_FOUND for the ones it does not map. */
  method FilterMethodMapping(mapping: LineageMap, methodsToFilter: set<string>) returns (result: Buckets)
    ensures result == BucketsOf(mapping, methodsToFilter)
  {
    result := map[];
    var todo := methodsToFilter;
    while todo != {}
      invariant todo <= methodsToFilter
      invariant result.Keys == TypesOf(mapping, methodsToFilter - todo)
      invariant forall t :: t in result ==> result[t] == ClassOf(mapping, methodsToFilter - todo, t)
      decreases todo
    {
      var key :| key in todo;
      var mappingType := NotFound;
      if key in mapping {
        mappingType := mapping[key].kind;
      }
      ghost var done := methodsToFilter - todo;
      TypesOfAdd(mapping, done, key);
      if mappingType !in result {
        result := result[mappingType := {}];
        assert ClassOf(mapping, done, mappingType) == {};
      }
      result := result[mappingType := result[mappingType] + {key}];
      todo := todo - {key};
      assert methodsToFilter - todo == done + {key};
      forall t | t in result ensures result[t] == ClassOf(mapping, done + {key}, t) {
        ClassOfAdd(mapping, done, key, t);
      }
    }
    assert methodsToFilter - todo == methodsToFilter;
  }

  // Purging and the main rows.

  /** The methods of upstream type t that the fork also classifies as t and for
      which both lineages produced the very same mapping. */
  function PurgedSet(up: LineageMap, fork: LineageMap, t: MappingType): set<string>
  {
    set k | k in up && up[k].kind == t && TypeIn(fork, k) == t && k in fork && up[k] == fork[k]
  }

  /** purgedMutualMethods for upstream type t: none for IDENTICAL. */
  function PurgedCount(up: LineageMap, fork: LineageMap, t: MappingType): nat
  {
    if t == Identical then 0 else |PurgedSet(up, fork, t)|
  }

  /** The cell of row t, column t1, given the column's bucket. */
  function MainCell(t: MappingType, t1: MappingType, bucket: set<string>, purged: int): seq<int>
  {
    if t1 != Identical && t1 == t then [|bucket| - purged, purged] else [|bucket|]
  }

  /** The row the main loop stores for upstream type t. */
  function MainRow(up: LineageMap, fork: LineageMap, t: MappingType): Row
  {
    var forkBuckets := BucketsOf(fork, ClassOf(up, up.Keys, t));
    map t1 | t1 in forkBuckets :: MainCell(t, t1, forkBuckets[t1], PurgedCount(up, fork, t))
  }

  /** The keys of a set that both lineages map to the very same mapping. */
  function SameInBoth(up: LineageMap, fork: LineageMap, keys: set<string>): set<string>
  {
    set k | k in keys && k in up && k in fork && up[k] == fork[k]
  }

  lemma SameInBothAdd(up: LineageMap, fork: LineageMap, done: set<string>, key: string)
    ensures SameInBoth(up, fork, done + {key}) ==
      if key in up && key in fork && up[key] == fork[key] then SameInBoth(up, fork, done) + {key}
      else SameInBoth(up, fork, done)
  {
  }

  /** One iteration of the purge loop keeps its count. */
  lemma PurgedStep(up: LineageMap, fork: LineageMap, diagonal: set<string>, todo: set<string>, key: string)
    requires key in todo && todo <= diagonal
    ensures todo - {key} <= diagonal
    ensures |SameInBoth(up, fork, diagonal - (todo - {key}))| ==
      |SameInBoth(up, fork, diagonal - todo)| + (if key in up && key in fork && up[key] == fork[key] then 1 else 0)
  {
    var done := diagonal - todo;
    assert diagonal - (todo - {key}) == done + {key};
    SameInBothAdd(up, fork, done, key);
  }

  /** The purged set is the same-mapping part of the diagonal cell's bucket. */
  lemma PurgedSetOfDiagonal(up: LineageMap, fork: LineageMap, t: MappingType)
    ensures PurgedSet(up, fork, t) == SameInBoth(up, fork, ClassOf(fork, ClassOf(up, up.Keys, t), t))
  {
  }

  /** Lines 155-166: count the diagonal methods whose two mappings are equal. */
  method CountPurged(up: LineageMap, fork: LineageMap, t: MappingType, forkBuckets: Buckets) returns (purged: nat)
    requires forkBuckets == BucketsOf(fork, ClassOf(up, up.Keys, t))
    ensures purged == PurgedCount(up, fork, t)
  {
    purged := 0;
    BucketIsClass(fork, ClassOf(up, up.Keys, t), t);
    PurgedSetOfDiagonal(up, fork, t);
    if t != Identical && t in forkBuckets {
      var diagonal := forkBuckets[t];
      var todo := diagonal;
      while todo != {}
        invariant todo <= diagonal
        invariant purged == |SameInBoth(up, fork, diagonal - todo)|
        decreases todo
      {
        var mutualOldMethod :| mutualOldMethod in todo;
        PurgedStep(up, fork, diagonal, todo, mutualOldMethod);
        if mutualOldMethod in up && mutualOldMethod in fork && up[mutualOldMethod] == fork[mutualOldMethod] {
          purged := purged + 1;
        }
        todo := todo - {mutualOldMethod};
      }
      assert diagonal - todo == diagonal;
    }
  }

  /** Lines 171-187: one cell per fork bucket. */
  method BuildRow(t: MappingType, forkBuckets: Buckets, purged: int) returns (row: Row)
    ensures row == map t1 | t1 in forkBuckets :: MainCell(t, t1, forkBuckets[t1], purged)
  {
    row := map[];
    var todo := forkBuckets.Keys;
    while todo != {}
      invariant todo <= forkBuckets.Keys
      invariant row.Keys == forkBuckets.Keys - todo
      invariant forall t1 :: t1 in row ==> row[t1] == MainCell(t, t1, forkBuckets[t1], purged)
      decreases todo
    {
      var type1 :| type1 in todo;
      var intersectionCount := |forkBuckets[type1]|;
      if type1 != Identical && type1 == t {
        row := row[type1 := [intersectionCount - purged, purged]];
      } else {
        row := row[type1 := [intersectionCount]];
      }
      todo := todo - {type1};
    }
  }

  // The deleted row.

  /** Ancestor methods the upstream mapping does not cover. */
  function Deleted(ancestor: Universe, up: LineageMap): set<string>
  {
    ancestor.Keys - up.Keys
  }

  /** The NOT_FOUND row: deleted methods counted by their fork type. */
  function DeletedRow(ancestor: Universe, up: LineageMap, fork: LineageMap): Row
  {
    map ft | ft in TypesOf(fork, Deleted(ancestor, up)) :: [|ClassOf(fork, Deleted(ancestor, up), ft)|]
  }

  /** A row holding, for each fork type that occurs among the keys, the single count of them. */
  predicate CountsByForkType(row: Row, fork: LineageMap, keys: set<string>)
  {
    && row.Keys == TypesOf(fork, keys)
    && forall ft :: ft in row ==> row[ft] == [|ClassOf(fork, keys, ft)|]
  }

  lemma CountsByForkTypeStep(row: Row, fork: LineageMap, keys: set<string>, key: string)
    requires CountsByForkType(row, fork, keys) && key !in keys
    ensures var ft := TypeIn(fork, key);
      CountsByForkType(row[ft := [(if ft in row then row[ft][0] else 0) + 1]], fork, keys + {key})
  {
    var ft := TypeIn(fork, key);
    TypesOfAdd(fork, keys, key);
    if ft !in row {
      assert ClassOf(fork, keys, ft) == {};
    }
    forall t ensures ClassOf(fork, keys + {key}, t) ==
      if ft == t then ClassOf(fork, keys, t) + {key} else ClassOf(fork, keys, t) {
      ClassOfAdd(fork, keys, key, t);
    }
  }

  lemma CountsByForkTypeDetermined(row: Row, fork: LineageMap, keys: set<string>)
    requires CountsByForkType(row, fork, keys)
    ensures row == map ft | ft in TypesOf(fork, keys) :: [|ClassOf(fork, keys, ft)|]
  {
  }

  /** Lines 199-204: the count of a type goes up by one, starting from 0. */
  method IncrementCount(row: Row, t: MappingType) returns (updated: Row)
    requires t in row ==> |row[t]| >= 1
    ensures updated == row[t := [(if t in row then row[t][0] else 0) + 1]]
  {
    updated := row;
    if t !in updated {
      updated := updated[t := [0]];
    }
    var count := updated[t][0] + 1;
    updated := updated[t := [count]];
  }

  /** Lines 192-214. */
  method CountDeleted(ancestor: Universe, up: LineageMap, fork: LineageMap) returns (notFoundMethods: Row)
    ensures notFoundMethods == DeletedRow(ancestor, up, fork)
  {
    notFoundMethods := map[];
    var todo := ancestor.Keys;
    ghost var gone: set<string> := {};
    while todo != {}
      invariant todo <= ancestor.Keys
      invariant gone == (ancestor.Keys - todo) - up.Keys
      invariant CountsByForkType(notFoundMethods, fork, gone)
      decreases todo
    {
      var methodModel :| methodModel in todo;
      DeletedStep(ancestor.Keys, up.Keys, fork, todo, gone, notFoundMethods, methodModel);
      todo := todo - {methodModel};
      if methodModel !in up {
        var modifiedType := NotFound;
        if methodModel in fork {
          modifiedType := fork[methodModel].kind;
        }
        notFoundMethods := IncrementCount(notFoundMethods, modifiedType);
        gone := gone + {methodModel};
      }
    }
    assert gone == Deleted(ancestor, up);
    CountsByForkTypeDetermined(notFoundMethods, fork, gone);
  }

  /** One iteration of the deleted-method loop keeps its invariant. */
  lemma DeletedStep(all: set<string>, mapped: set<string>, fork: LineageMap, todo: set<string>,
                    gone: set<string>, row: Row, key: string)
    requires key in todo && todo <= all
    requires gone == (all - todo) - mapped && CountsByForkType(row, fork, gone)
    ensures key in mapped ==> gone == (all - (todo - {key})) - mapped
    ensures key !in mapped ==>
      var ft := TypeIn(fork, key);
      && (ft in row ==> |row[ft]| >= 1)
      && gone + {key} == (all - (todo - {key})) - mapped
      && CountsByForkType(row[ft := [(if ft in row then row[ft][0] else 0) + 1]], fork, gone + {key})
  {
    if key !in mapped {
      CountsByForkTypeStep(row, fork, gone, key);
    }
  }

  // The added row.

  /** Methods of a target universe that no mapping names as its destination. */
  function NewMethods(target: Universe, mapping: LineageMap): set<string>
  {
    RemoveEntities(target.Keys, DestinationNames(mapping.Values))
  }

  function MutualNew(newMethods: Universe, modified: Universe, up: LineageMap, fork: LineageMap): set<string>
  {
    NewMethods(newMethods, up) * NewMethods(modified, fork)
  }

  /** The keys present in both universes with the same source text (readFromFile). */
  function SameText(newMethods: Universe, modified: Universe, keys: set<string>): set<string>
  {
    set k | k in keys && k in newMethods && k in modified && newMethods[k].text == modified[k].text
  }

  function IdenticalMutualNew(newMethods: Universe, modified: Universe, up: LineageMap, fork: LineageMap): set<string>
  {
    SameText(newMethods, modified, MutualNew(newMethods, modified, up, fork))
  }

  lemma SameTextAdd(newMethods: Universe, modified: Universe, keys: set<string>, key: string)
    ensures SameText(newMethods, modified, keys + {key}) ==
      if key in newMethods && key in modified && newMethods[key].text == modified[key].text
      then SameText(newMethods, modified, keys) + {key} else SameText(newMethods, modified, keys)
  {
  }

  /** The ADDED row: ADDED holds [mutual - identical, identical], NOT_FOUND the
      upstream new methods and OTHER the fork new methods. */
  function AddedRow(newMethods: Universe, modified: Universe, up: LineageMap, fork: LineageMap): Row
  {
    var mutual := |MutualNew(newMethods, modified, up, fork)|;
    var identical := |IdenticalMutualNew(newMethods, modified, up, fork)|;
    map[Added := [mutual - identical, identical],
        NotFound := [|NewMethods(newMethods, up)|],
        Other := [|NewMethods(modified, fork)|]]
  }

  /** Lines 218-221: the new methods of one target universe. */
  method NewMethodsOf(target: Universe, mapping: LineageMap) returns (result: set<string>)
    ensures result == NewMethods(target, mapping)
  {
    var destinations := GetStringListOfDestinationMethods(mapping.Values);
    DestinationNamesMembers(mapping.Values);
    assert destinations == DestinationNames(mapping.Values);
    result := RemoveEntities(target.Keys, destinations);
  }

  lemma SubsetSize<T>(small: set<T>, large: set<T>)
    requires small <= large
    ensures |small| <= |large|
  {
    assert large == small + (large - small);
  }

  lemma MutualNewStep(newInUp: set<string>, todo: set<string>, seen: set<string>, newInFork: set<string>,
                       newMethods: Universe, modified: Universe, key: string)
    requires key in todo && todo <= newInUp && seen == newInUp - todo
    ensures todo - {key} <= newInUp && seen + {key} == newInUp - (todo - {key})
    ensures |(seen + {key}) * newInFork| == |seen * newInFork| + (if key in newInFork then 1 else 0)
    ensures |SameText(newMethods, modified, (seen + {key}) * newInFork)| ==
      |SameText(newMethods, modified, seen * newInFork)| +
      (if key in newInFork && key in newMethods && key in modified && newMethods[key].text == modified[key].text then 1 else 0)
  {
    if key in newInFork {
      assert (seen + {key}) * newInFork == seen * newInFork + {key};
      SameTextAdd(newMethods, modified, seen * newInFork, key);
    } else {
      assert (seen + {key}) * newInFork == seen * newInFork;
    }
  }

  /** Lines 222-233: the mutual new methods, and those among them with the same text. */
  method CountMutualNew(newInUp: set<string>, newInFork: set<string>, newMethods: Universe, modified: Universe)
    returns (mutualNewMethods: nat, identicalMutualNewMethods: nat)
    ensures mutualNewMethods == |newInUp * newInFork|
    ensures identicalMutualNewMethods == |SameText(newMethods, modified, newInUp * newInFork)|
    ensures identicalMutualNewMethods <= mutualNewMethods
  {
    mutualNewMethods := 0;
    identicalMutualNewMethods := 0;
    var todo := newInUp;
    ghost var seen: set<string> := {};
    while todo != {}
      invariant todo <= newInUp
      invariant seen == newInUp - todo
      invariant mutualNewMethods == |seen * newInFork|
      invariant identicalMutualNewMethods == |SameText(newMethods, modified, seen * newInFork)|
      decreases todo
    {
      var newProjectNewMethod :| newProjectNewMethod in todo;
      MutualNewStep(newInUp, todo, seen, newInFork, newMethods, modified, newProjectNewMethod);
      if newProjectNewMethod in newInFork {
        mutualNewMethods := mutualNewMethods + 1;
        if newProjectNewMethod in newMethods && newProjectNewMethod in modified {
          if newMethods[newProjectNewMethod].text == modified[newProjectNewMethod].text {
            identicalMutualNewMethods := identicalMutualNewMethods + 1;
          }
        }
      }
      todo := todo - {newProjectNewMethod};
      seen := seen + {newProjectNewMethod};
    }
    SubsetSize(SameText(newMethods, modified, newInUp * newInFork), newInUp * newInFork);
  }

  /** Lines 217-237. */
  method CountNewMethods(newMethods: Universe, modified: Universe, up: LineageMap, fork: LineageMap) returns (row: Row)
    ensures row == AddedRow(newMethods, modified, up, fork)
  {
    var newInUp := NewMethodsOf(newMethods, up);
    var newInFork := NewMethodsOf(modified, fork);
    var mutualNewMethods, identicalMutualNewMethods := CountMutualNew(newInUp, newInFork, newMethods, modified);
    row := map[];
    row := row[Added := [mutualNewMethods - identicalMutualNewMethods, identicalMutualNewMethods]];
    row := row[NotFound := [|newInUp|]];
    row := row[Other := [|newInFork|]];
    AddedRowOf(newMethods, modified, up, fork, newInUp, newInFork);
  }

  /** The added row in terms of the two sets of new methods. */
  lemma AddedRowOf(newMethods: Universe, modified: Universe, up: LineageMap, fork: LineageMap,
                   newInUp: set<string>, newInFork: set<string>)
    requires newInUp == NewMethods(newMethods, up) && newInFork == NewMethods(modified, fork)
    ensures var mutual := |newInUp * newInFork|;
      var identical := |SameText(newMethods, modified, newInUp * newInFork)|;
      AddedRow(newMethods, modified, up, fork) ==
        map[][Added := [mutual - identical, identical]][NotFound := [|newInUp|]][Other := [|newInFork|]]
  {
  }

  // The whole table.

  /** The rows the main loop builds, one per upstream type that occurs. */
  function MainRows(up: LineageMap, fork: LineageMap): Table
  {
    map t | t in TypesOf(up, up.Keys) :: MainRow(up, fork, t)
  }

  /** What generateIntersectionsOfMappings returns. */
  function IntersectionTable(ancestor: Universe, newMethods: Universe, modified: Universe, up: LineageMap, fork: LineageMap): Table
  {
    MainRows(up, fork)[NotFound := DeletedRow(ancestor, up, fork)][Added := AddedRow(newMethods, modified, up, fork)]
  }

  /** Lines 146-189: the main loop over the upstream buckets. */
  method BuildMainRows(up: LineageMap, fork: LineageMap) returns (table: Table)
    ensures table == MainRows(up, fork)
  {
    var upStats := CategorizeMappingTypes(up);
    table := map[];
    var todo := upStats.Keys;
    while todo != {}
      invariant todo <= upStats.Keys
      invariant table.Keys == upStats.Keys - todo
      invariant forall t :: t in table ==> table[t] == MainRow(up, fork, t)
      decreases todo
    {
      var t :| t in todo;
      var thisTypeMethods := upStats[t];
      var forkBuckets := FilterMethodMapping(fork, thisTypeMethods);
      var purged := CountPurged(up, fork, t, forkBuckets);
      var row := BuildRow(t, forkBuckets, purged);
      table := table[t := row];
      todo := todo - {t};
    }
  }

  /** generateIntersectionsOfMappings. */
  method GenerateIntersectionsOfMappings(ancestor: Universe, newMethods: Universe, modified: Universe,
                                         up: LineageMap, fork: LineageMap) returns (table: Table)
    ensures table == IntersectionTable(ancestor, newMethods, modified, up, fork)
  {
    table := BuildMainRows(up, fork);
    var deleted := CountDeleted(ancestor, up, fork);
    table := table[NotFound := deleted];
    var added := CountNewMethods(newMethods, modified, up, fork);
    table := table[Added := added];
  }
}
