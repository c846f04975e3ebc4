/**
 * What the cross-tabulation promises: the buckets partition the keys, each
 * main row conserves the number of upstream methods of its type, purging
 * moves exactly the mutually identical mappings out of a diagonal cell, the
 * NOT_FOUND row counts the deleted methods and the ADDED row the new ones.
 */
module AggregationProperties {
  import opened MappingModel
  import opened LineageMapper
  import opened Aggregation

  /** The count part of a cell as writeToOutput reads it, 0 for a missing cell. */
  function Raw(row: Row, t: MappingType): int
  {
    if t in row && |row[t]| >= 1 then row[t][0] else 0
  }

  /** The purged part of a cell, 0 when the cell has none. */
  function Purged(row: Row, t: MappingType): int
  {
    if t in row && |row[t]| >= 2 then row[t][1] else 0
  }

  /** Raw plus purged, summed over a sequence of column types. */
  function RowTotal(row: Row, ts: seq<MappingType>): int
  {
    if ts == [] then 0 else Raw(row, ts[0]) + Purged(row, ts[0]) + RowTotal(row, ts[1..])
  }

  /** Bucket sizes summed over a sequence of types. */
  function BucketSizes(buckets: Buckets, ts: seq<MappingType>): int
  {
    if ts == [] then 0 else |Bucket(buckets, ts[0])| + BucketSizes(buckets, ts[1..])
  }

  lemma {:induction false} BucketSizesAreClassSizes(mapping: LineageMap, keys: set<string>, ts: seq<MappingType>)
    ensures BucketSizes(BucketsOf(mapping, keys), ts) == ClassSizes(mapping, keys, ts)
  {
    if ts != [] {
      BucketIsClass(mapping, keys, ts[0]);
      BucketSizesAreClassSizes(mapping, keys, ts[1..]);
    }
  }

  /** filterMethodMapping (and categorizeMappingTypes, which buckets a mapping's
      own keys) puts every key in one bucket: the sizes add up to the keys. */
  lemma BucketSizesTotal(mapping: LineageMap, keys: set<string>)
    ensures BucketSizes(BucketsOf(mapping, keys), AllTypes) == |keys|
  {
    BucketSizesAreClassSizes(mapping, keys, AllTypes);
    ClassSizesTotal(mapping, keys);
  }

  /** Where each row of the table comes from. */
  lemma TableRows(ancestor: Universe, newMethods: Universe, modified: Universe, up: LineageMap, fork: LineageMap)
    ensures var table := IntersectionTable(ancestor, newMethods, modified, up, fork);
      && table.Keys == TypesOf(up, up.Keys) + {NotFound, Added}
      && table[NotFound] == DeletedRow(ancestor, up, fork)
      && table[Added] == AddedRow(newMethods, modified, up, fork)
      && forall t :: t in table && t != NotFound && t != Added ==> table[t] == MainRow(up, fork, t)
  {
  }

  /** The bucket of upstream type t and fork type t1. */
  function CrossClass(up: LineageMap, fork: LineageMap, t: MappingType, t1: MappingType): set<string>
  {
    ClassOf(fork, ClassOf(up, up.Keys, t), t1)
  }

  /** The purged methods are exactly the diagonal ones both lineages mapped alike. */
  lemma PurgedSetMembers(up: LineageMap, fork: LineageMap, t: MappingType)
    ensures forall k :: k in PurgedSet(up, fork, t) <==>
      (k in CrossClass(up, fork, t, t) && k in fork && up[k] == fork[k])
    ensures PurgedSet(up, fork, t) <= CrossClass(up, fork, t, t)
  {
  }

  /** The purge rule: a diagonal cell other than IDENTICAL is [size - purged,
      purged] with both parts non-negative; every other cell is one count. */
  lemma MainCells(up: LineageMap, fork: LineageMap, t: MappingType, t1: MappingType)
    ensures var row := MainRow(up, fork, t);
      && (t1 in row <==> CrossClass(up, fork, t, t1) != {})
      && (t1 in row && t1 == t && t != Identical ==>
            row[t1] == [|CrossClass(up, fork, t, t)| - |PurgedSet(up, fork, t)|, |PurgedSet(up, fork, t)|]
            && 0 <= |PurgedSet(up, fork, t)| <= |CrossClass(up, fork, t, t)|)
      && (t1 in row && (t1 != t || t == Identical) ==> row[t1] == [|CrossClass(up, fork, t, t1)|])
  {
    MainRowCell(up, fork, t, t1);
    PurgedWithinDiagonal(up, fork, t);
  }

  /** Row t holds column t1 exactly when that bucket is not empty, and the cell is built from it. */
  lemma MainRowCell(up: LineageMap, fork: LineageMap, t: MappingType, t1: MappingType)
    ensures var row := MainRow(up, fork, t);
      && (t1 in row <==> CrossClass(up, fork, t, t1) != {})
      && (t1 in row ==> row[t1] == MainCell(t, t1, CrossClass(up, fork, t, t1), PurgedCount(up, fork, t)))
  {
    var keys := ClassOf(up, up.Keys, t);
    BucketIsClass(fork, keys, t1);
    BucketsPartition(fork, keys);
  }

  lemma PurgedWithinDiagonal(up: LineageMap, fork: LineageMap, t: MappingType)
    ensures |PurgedSet(up, fork, t)| <= |CrossClass(up, fork, t, t)|
  {
    PurgedSetMembers(up, fork, t);
    SubsetSize(PurgedSet(up, fork, t), CrossClass(up, fork, t, t));
  }

  /** Each cell of a main row, raw plus purged, is the size of its bucket. */
  lemma MainCellTotal(up: LineageMap, fork: LineageMap, t: MappingType, t1: MappingType)
    ensures Raw(MainRow(up, fork, t), t1) + Purged(MainRow(up, fork, t), t1) == |CrossClass(up, fork, t, t1)|
  {
    MainCells(up, fork, t, t1);
  }

  lemma {:induction false} MainRowTotal(up: LineageMap, fork: LineageMap, t: MappingType, ts: seq<MappingType>)
    ensures RowTotal(MainRow(up, fork, t), ts) == ClassSizes(fork, ClassOf(up, up.Keys, t), ts)
  {
    if ts != [] {
      MainCellTotal(up, fork, t, ts[0]);
      MainRowTotal(up, fork, t, ts[1..]);
    }
  }

  /**
   * Row conservation: for every upstream type the main loop builds a row for
   * (all but NOT_FOUND and ADDED, whose rows are replaced afterwards), raw plus
   * purged over the row is the number of upstream keys of that type.
   */
  lemma RowConservation(ancestor: Universe, newMethods: Universe, modified: Universe,
                        up: LineageMap, fork: LineageMap, t: MappingType)
    requires t in TypesOf(up, up.Keys) && t != NotFound && t != Added
    ensures var table := IntersectionTable(ancestor, newMethods, modified, up, fork);
      t in table && RowTotal(table[t], AllTypes) == |ClassOf(up, up.Keys, t)|
  {
    TableRows(ancestor, newMethods, modified, up, fork);
    MainRowTotal(up, fork, t, AllTypes);
    ClassSizesTotal(fork, ClassOf(up, up.Keys, t));
  }

  lemma {:induction false} DeletedRowCells(ancestor: Universe, up: LineageMap, fork: LineageMap, ts: seq<MappingType>)
    ensures RowTotal(DeletedRow(ancestor, up, fork), ts) == ClassSizes(fork, Deleted(ancestor, up), ts)
  {
    if ts != [] {
      BucketIsClass(fork, Deleted(ancestor, up), ts[0]);
      DeletedRowCells(ancestor, up, fork, ts[1..]);
    }
  }

  /** The deleted-method row on its own. */
  lemma DeletedRowFacts(ancestor: Universe, up: LineageMap, fork: LineageMap, ft: MappingType)
    ensures var row := DeletedRow(ancestor, up, fork);
      && Raw(row, ft) == |ClassOf(fork, Deleted(ancestor, up), ft)|
      && Purged(row, ft) == 0
      && RowTotal(row, AllTypes) == |Deleted(ancestor, up)|
  {
    BucketIsClass(fork, Deleted(ancestor, up), ft);
    DeletedRowCells(ancestor, up, fork, AllTypes);
    ClassSizesTotal(fork, Deleted(ancestor, up));
  }

  /**
   * The NOT_FOUND row is the deleted-method row, whatever the main loop had put
   * there: each ancestor key the upstream mapping lacks is counted under its
   * fork type (NOT_FOUND when the fork lacks it too), and the counts add up to
   * the number of such keys.
   */
  lemma DeletedRowCounts(ancestor: Universe, newMethods: Universe, modified: Universe,
                         up: LineageMap, fork: LineageMap, ft: MappingType)
    ensures var table := IntersectionTable(ancestor, newMethods, modified, up, fork);
      && NotFound in table
      && Raw(table[NotFound], ft) == |ClassOf(fork, Deleted(ancestor, up), ft)|
      && Purged(table[NotFound], ft) == 0
      && RowTotal(table[NotFound], AllTypes) == |ancestor.Keys - up.Keys|
  {
    TableRows(ancestor, newMethods, modified, up, fork);
    var row := IntersectionTable(ancestor, newMethods, modified, up, fork)[NotFound];
    assert row == DeletedRow(ancestor, up, fork);
    DeletedRowFacts(ancestor, up, fork, ft);
  }

  /**
   * The ADDED row: new methods per side are the target keys no destination's
   * printed name matches; the ADDED cell is [mutual - identical, identical]
   * with identical <= mutual <= both sides; NOT_FOUND and OTHER hold the two
   * sides' counts, mutual ones included.
   */
  lemma AddedRowCounts(ancestor: Universe, newMethods: Universe, modified: Universe, up: LineageMap, fork: LineageMap)
    ensures var table := IntersectionTable(ancestor, newMethods, modified, up, fork);
      var mutual := |MutualNew(newMethods, modified, up, fork)|;
      var identical := |IdenticalMutualNew(newMethods, modified, up, fork)|;
      && Added in table
      && table[Added] == map[Added := [mutual - identical, identical],
                             NotFound := [|NewMethods(newMethods, up)|],
                             Other := [|NewMethods(modified, fork)|]]
      && 0 <= identical <= mutual
      && mutual <= |NewMethods(newMethods, up)| && mutual <= |NewMethods(modified, fork)|
  {
    TableRows(ancestor, newMethods, modified, up, fork);
    NewCountsOrdered(newMethods, modified, up, fork);
  }

  /** identical <= mutual <= the new methods of either side. */
  lemma NewCountsOrdered(newMethods: Universe, modified: Universe, up: LineageMap, fork: LineageMap)
    ensures |IdenticalMutualNew(newMethods, modified, up, fork)| <= |MutualNew(newMethods, modified, up, fork)|
    ensures |MutualNew(newMethods, modified, up, fork)| <= |NewMethods(newMethods, up)|
    ensures |MutualNew(newMethods, modified, up, fork)| <= |NewMethods(modified, fork)|
  {
    var mutualSet := MutualNew(newMethods, modified, up, fork);
    SubsetSize(IdenticalMutualNew(newMethods, modified, up, fork), mutualSet);
    SubsetSize(mutualSet, NewMethods(newMethods, up));
    SubsetSize(mutualSet, NewMethods(modified, fork));
  }

  /** A name is mutually added iff both target universes hold it and neither
      lineage maps any ancestor method to a destination printed that way. */
  lemma MutualNewMembers(newMethods: Universe, modified: Universe, up: LineageMap, fork: LineageMap, k: string)
    ensures k in MutualNew(newMethods, modified, up, fork) <==>
      && k in newMethods && k in modified
      && (forall a :: a in up ==> up[a].destination.display != k)
      && (forall a :: a in fork ==> fork[a].destination.display != k)
  {
    DestinationNamesMembers(up.Values);
    DestinationNamesMembers(fork.Values);
    if exists m :: m in up.Values && m.destination.display == k {
      var m :| m in up.Values && m.destination.display == k;
      var a :| a in up && up[a] == m;
    }
    if exists m :: m in fork.Values && m.destination.display == k {
      var m :| m in fork.Values && m.destination.display == k;
      var a :| a in fork && fork[a] == m;
    }
  }

  /** The identical mutual new methods are the mutual ones whose texts agree. */
  lemma IdenticalMutualNewMembers(newMethods: Universe, modified: Universe, up: LineageMap, fork: LineageMap, k: string)
    ensures k in IdenticalMutualNew(newMethods, modified, up, fork) <==>
      k in MutualNew(newMethods, modified, up, fork) && newMethods[k].text == modified[k].text
  {
  }

  /** No cell of a main row holds a negative number. */
  lemma MainCellsNonNegative(up: LineageMap, fork: LineageMap, t: MappingType, t1: MappingType, i: int)
    requires t1 in MainRow(up, fork, t) && 0 <= i < |MainRow(up, fork, t)[t1]|
    ensures MainRow(up, fork, t)[t1][i] >= 0
  {
    MainCells(up, fork, t, t1);
  }

  lemma DeletedCellsNonNegative(ancestor: Universe, up: LineageMap, fork: LineageMap, t1: MappingType, i: int)
    requires t1 in DeletedRow(ancestor, up, fork) && 0 <= i < |DeletedRow(ancestor, up, fork)[t1]|
    ensures DeletedRow(ancestor, up, fork)[t1][i] >= 0
  {
  }

  lemma AddedCellsNonNegative(newMethods: Universe, modified: Universe, up: LineageMap, fork: LineageMap,
                              t1: MappingType, i: int)
    requires t1 in AddedRow(newMethods, modified, up, fork) && 0 <= i < |AddedRow(newMethods, modified, up, fork)[t1]|
    ensures AddedRow(newMethods, modified, up, fork)[t1][i] >= 0
  {
    NewCountsOrdered(newMethods, modified, up, fork);
  }

  /** No cell of the table holds a negative number. */
  lemma CellsNonNegative(ancestor: Universe, newMethods: Universe, modified: Universe,
                         up: LineageMap, fork: LineageMap, t: MappingType, t1: MappingType, i: int)
    requires var table := IntersectionTable(ancestor, newMethods, modified, up, fork);
      t in table && t1 in table[t] && 0 <= i < |table[t][t1]|
    ensures IntersectionTable(ancestor, newMethods, modified, up, fork)[t][t1][i] >= 0
  {
    TableRows(ancestor, newMethods, modified, up, fork);
    if t == Added {
      AddedCellsNonNegative(newMethods, modified, up, fork, t1, i);
    } else if t != NotFound {
      MainCellsNonNegative(up, fork, t, t1, i);
    } else {
      DeletedCellsNonNegative(ancestor, up, fork, t1, i);
    }
  }
}
