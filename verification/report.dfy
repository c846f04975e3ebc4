/**
 * writeToOutput: the CSV lines a subsystem's cross-tabulation is written as.
 * A header of three method counts, one line per reported upstream type with
 * one cell per reported fork type and a total, then the added-method line.
 * Lines are kept as lists of cells; how CSVUtils joins and quotes them is
 * not part of this model.
 */
module Report {
  import opened Wrappers
  import opened JavaStrings
  import opened MappingModel
  import opened Aggregation
  import opened AggregationProperties

  /** The reported types, rows and columns alike (ADDED is not among them). */
  const ReportTypes: seq<MappingType> := [Identical, Refactored, ArgumentsChange, BodyChangeOnly, NotFound]

  /** stats.getOrDefault(type, new HashMap()). */
  function RowOf(stats: Table, t: MappingType): Row
  {
    if t in stats then stats[t] else map[]
  }

  /** A cell: the count alone when nothing was purged, otherwise count(purged). */
  function CellText(count: int, purged: int): string
  {
    if purged == 0 then IntToString(count) else IntToString(count) + "(" + IntToString(purged) + ")"
  }

  /** The cells of one line, one per column. */
  function RowCells(row: Row, columns: seq<MappingType>): seq<string>
  {
    if columns == [] then [] else [CellText(Raw(row, columns[0]), Purged(row, columns[0]))] + RowCells(row, columns[1..])
  }

  /** Cell i renders column i. */
  lemma {:induction false} RowCellsAt(row: Row, columns: seq<MappingType>)
    ensures |RowCells(row, columns)| == |columns|
    ensures forall i :: 0 <= i < |columns| ==>
      RowCells(row, columns)[i] == CellText(Raw(row, columns[i]), Purged(row, columns[i]))
  {
    if columns != [] {
      RowCellsAt(row, columns[1..]);
      var r := RowCells(row, columns);
      assert r == [CellText(Raw(row, columns[0]), Purged(row, columns[0]))] + RowCells(row, columns[1..]);
      forall i | 0 <= i < |columns|
        ensures r[i] == CellText(Raw(row, columns[i]), Purged(row, columns[i]))
      {
        if i > 0 {
          assert r[i] == RowCells(row, columns[1..])[i - 1];
          assert columns[i] == columns[1..][i - 1];
        }
      }
    }
  }

  /** The line total: the count parts only, purged methods left out. */
  function RawSum(row: Row, columns: seq<MappingType>): int
  {
    if columns == [] then 0 else Raw(row, columns[0]) + RawSum(row, columns[1..])
  }

  /** The purged parts summed over the columns. */
  function PurgedSum(row: Row, columns: seq<MappingType>): int
  {
    if columns == [] then 0 else Purged(row, columns[0]) + PurgedSum(row, columns[1..])
  }

  /** The line of upstream type t: its cells and then its total. */
  function RowLine(stats: Table, t: MappingType): (r: seq<string>)
  {
    RowCells(RowOf(stats, t), ReportTypes) + [IntToString(RawSum(RowOf(stats, t), ReportTypes))]
  }

  /** The header: the method counts of the ancestor, upstream and fork snapshots. */
  function HeaderLine(oldCount: int, newCount: int, modifiedCount: int): seq<string>
  {
    [IntToString(oldCount), IntToString(newCount), IntToString(modifiedCount)]
  }

  /**
   * The added-method line: upstream new, fork new and mutual new methods with
   * the identical ones in parentheses, always shown. None where the Java code
   * throws: no ADDED row, or a cell missing or too short.
   */
  function AddedLine(stats: Table): Option<seq<string>>
  {
    if Added !in stats then None
    else
      var added := stats[Added];
      if Added in added && |added[Added]| >= 2
         && NotFound in added && |added[NotFound]| >= 1
         && Other in added && |added[Other]| >= 1
      then
        Some([IntToString(added[NotFound][0]), IntToString(added[Other][0]),
              IntToString(added[Added][0]) + "(" + IntToString(added[Added][1]) + ")"])
      else None
  }

  /** The whole output, or None when writing stops at the added-method line. */
  function ReportLines(oldCount: int, newCount: int, modifiedCount: int, stats: Table): Option<seq<seq<string>>>
  {
    match AddedLine(stats)
    case None => None
    case Some(last) =>
      Some([HeaderLine(oldCount, newCount, modifiedCount)] + RowLines(stats, ReportTypes) + [last])
  }

  /** One line per row type, in the given order. */
  function RowLines(stats: Table, types: seq<MappingType>): seq<seq<string>>
  {
    if types == [] then [] else RowLines(stats, types[..|types| - 1]) + [RowLine(stats, types[|types| - 1])]
  }

  /** Appending keeps every earlier element in place. */
  lemma SnocAt<T>(xs: seq<T>, x: T)
    ensures |xs + [x]| == |xs| + 1 && (xs + [x])[|xs|] == x
    ensures forall k :: 0 <= k < |xs| ==> (xs + [x])[k] == xs[k]
  {
  }

  /** Line k is the line of the k-th row type. */
  lemma {:induction false} RowLinesAt(stats: Table, types: seq<MappingType>)
    ensures |RowLines(stats, types)| == |types|
    ensures forall k :: 0 <= k < |types| ==> RowLines(stats, types)[k] == RowLine(stats, types[k])
  {
    if types != [] {
      var n := |types| - 1;
      RowLinesAt(stats, types[..n]);
      var earlier := RowLines(stats, types[..n]);
      SnocAt(earlier, RowLine(stats, types[n]));
      forall k | 0 <= k < n
        ensures RowLines(stats, types)[k] == RowLine(stats, types[k])
      {
        assert types[..n][k] == types[k];
      }
    }
  }

  /** Lines 107-125: one line, the total accumulated over the columns. */
  method RenderRow(stats: Table, t: MappingType) returns (catStats: seq<string>)
    ensures catStats == RowLine(stats, t)
  {
    var thisTypeStats := RowOf(stats, t);
    var total := 0;
    catStats := [];
    for i := 0 to |ReportTypes|
      invariant catStats == RowCells(thisTypeStats, ReportTypes[..i])
      invariant total == RawSum(thisTypeStats, ReportTypes[..i])
    {
      var type1 := ReportTypes[i];
      var intersectionCount := 0;
      var purgedCount := 0;
      if type1 in thisTypeStats && |thisTypeStats[type1]| >= 1 {
        intersectionCount := thisTypeStats[type1][0];
        if |thisTypeStats[type1]| >= 2 {
          purgedCount := thisTypeStats[type1][1];
        }
      }
      SumsSnoc(thisTypeStats, ReportTypes[..i], type1);
      assert ReportTypes[..i + 1] == ReportTypes[..i] + [type1];
      catStats := catStats + [CellText(intersectionCount, purgedCount)];
      total := total + intersectionCount;
    }
    assert ReportTypes[..|ReportTypes|] == ReportTypes;
    catStats := catStats + [IntToString(total)];
  }

  /** Extending the columns by one extends the cells and the sums by that column. */
  lemma {:induction false} SumsSnoc(row: Row, columns: seq<MappingType>, c: MappingType)
    ensures RowCells(row, columns + [c]) == RowCells(row, columns) + [CellText(Raw(row, c), Purged(row, c))]
    ensures RawSum(row, columns + [c]) == RawSum(row, columns) + Raw(row, c)
  {
    if columns != [] {
      assert (columns + [c])[1..] == columns[1..] + [c];
      SumsSnoc(row, columns[1..], c);
    } else {
      assert ([] + [c])[1..] == [];
    }
  }

  /** Lines 87-131: writeToOutput, the file I/O left out. */
  method WriteToOutput(oldCount: int, newCount: int, modifiedCount: int, stats: Table)
    returns (lines: Option<seq<seq<string>>>)
    ensures lines == ReportLines(oldCount, newCount, modifiedCount, stats)
  {
    var written := [HeaderLine(oldCount, newCount, modifiedCount)];
    for i := 0 to |ReportTypes|
      invariant written == [HeaderLine(oldCount, newCount, modifiedCount)] + RowLines(stats, ReportTypes[..i])
    {
      var catStats := RenderRow(stats, ReportTypes[i]);
      assert ReportTypes[..i + 1][..i] == ReportTypes[..i];
      written := written + [catStats];
    }
    assert ReportTypes[..|ReportTypes|] == ReportTypes;
    var last := AddedLine(stats);
    if last.None? {
      return None;
    }
    lines := Some(written + [last.value]);
  }

  // Reading the cells back.

  /** The first position of c in s, |s| when there is none. */
  function FirstIndex(s: string, c: char): (i: nat)
    ensures i <= |s| && c !in s[..i]
    ensures i < |s| ==> s[i] == c
  {
    if s == [] then 0 else if s[0] == c then 0 else 1 + FirstIndex(s[1..], c)
  }

  /** Reads a cell "count" or "count(purged)" back into its two numbers. */
  function ParseCell(s: string): (nat, nat)
  {
    var i := FirstIndex(s, '(');
    if i == |s| then (ParseNat(s), 0)
    else if i + 1 <= |s| - 1 then (ParseNat(s[..i]), ParseNat(s[i + 1..|s| - 1]))
    else (ParseNat(s[..i]), 0)
  }

  lemma FirstIndexOfDigits(s: string, rest: string)
    requires forall k :: 0 <= k < |s| ==> IsDigit(s[k])
    ensures FirstIndex(s + rest, '(') == |s| + FirstIndex(rest, '(')
    decreases |s|
  {
    if s != [] {
      assert (s + rest)[0] == s[0] && IsDigit(s[0]);
      assert (s + rest)[1..] == s[1..] + rest;
      FirstIndexOfDigits(s[1..], rest);
    } else {
      assert s + rest == rest;
    }
  }

  /** A cell without purged methods reads back to its count. */
  lemma PlainCellRoundTrip(count: nat)
    ensures ParseCell(CellText(count, 0)) == (count, 0)
  {
    var a := NatToString(count);
    assert CellText(count, 0) == a;
    NatToStringDigits(count);
    FirstIndexOfDigits(a, "");
    assert a + "" == a;
    ParseNatToString(count);
  }

  /** Splitting a cell "a(b)" at its parenthesis. */
  lemma ParseBracketed(a: string, b: string)
    requires forall k :: 0 <= k < |a| ==> IsDigit(a[k])
    ensures ParseCell(a + "(" + b + ")") == (ParseNat(a), ParseNat(b))
  {
    var s := a + "(" + b + ")";
    FirstIndexOfDigits(a, "(" + b + ")");
    assert s == a + ("(" + b + ")");
    assert FirstIndex(s, '(') == |a|;
    assert s[..|a|] == a;
    assert s[|a| + 1..|s| - 1] == b;
  }

  /** A cell with purged methods reads back to both numbers. */
  lemma PurgedCellRoundTrip(count: nat, purged: nat)
    requires purged != 0
    ensures ParseCell(CellText(count, purged)) == (count, purged)
  {
    assert CellText(count, purged) == NatToString(count) + "(" + NatToString(purged) + ")";
    NatToStringDigits(count);
    ParseBracketed(NatToString(count), NatToString(purged));
    ParseNatToString(count);
    ParseNatToString(purged);
  }

  /** Cells of non-negative counts read back to the counts they render. */
  lemma CellTextRoundTrip(count: nat, purged: nat)
    ensures ParseCell(CellText(count, purged)) == (count, purged)
  {
    if purged == 0 {
      PlainCellRoundTrip(count);
    } else {
      PurgedCellRoundTrip(count, purged);
    }
  }

  /** The added-method line reads back to the three counts of the ADDED row. */
  lemma AddedLineReadsBack(stats: Table)
    requires Added in stats && Added in stats[Added] && NotFound in stats[Added] && Other in stats[Added]
    requires |stats[Added][Added]| >= 2 && |stats[Added][NotFound]| >= 1 && |stats[Added][Other]| >= 1
    requires stats[Added][NotFound][0] >= 0 && stats[Added][Other][0] >= 0
    requires stats[Added][Added][0] >= 0 && stats[Added][Added][1] >= 0
    ensures AddedLine(stats).Some? && |AddedLine(stats).value| == 3
    ensures ParseNat(AddedLine(stats).value[0]) == stats[Added][NotFound][0]
    ensures ParseNat(AddedLine(stats).value[1]) == stats[Added][Other][0]
    ensures ParseCell(AddedLine(stats).value[2]) == (stats[Added][Added][0], stats[Added][Added][1])
  {
    var added := stats[Added];
    var line := AddedLine(stats).value;
    ParseNatToString(added[NotFound][0]);
    ParseNatToString(added[Other][0]);
    NatToStringDigits(added[Added][0]);
    ParseBracketed(NatToString(added[Added][0]), NatToString(added[Added][1]));
    ParseNatToString(added[Added][0]);
    ParseNatToString(added[Added][1]);
  }

  // What the report says about a generated table.

  /** The count and purged parts together are the row total of the cross-tabulation. */
  lemma {:induction false} SplitTotal(row: Row, columns: seq<MappingType>)
    ensures RawSum(row, columns) + PurgedSum(row, columns) == RowTotal(row, columns)
  {
    if columns != [] {
      SplitTotal(row, columns[1..]);
    }
  }

  /** The count part of a main-row cell: its bucket less the purged methods on the diagonal. */
  lemma MainRaw(up: LineageMap, fork: LineageMap, t: MappingType, t1: MappingType)
    ensures Raw(MainRow(up, fork, t), t1) == |CrossClass(up, fork, t, t1)| - (if t1 == t then PurgedCount(up, fork, t) else 0)
  {
    MainCells(up, fork, t, t1);
  }

  lemma {:induction false} MainRawSum(up: LineageMap, fork: LineageMap, t: MappingType, columns: seq<MappingType>)
    requires forall i, j :: 0 <= i < j < |columns| ==> columns[i] != columns[j]
    ensures RawSum(MainRow(up, fork, t), columns)
      == ClassSizes(fork, ClassOf(up, up.Keys, t), columns) - (if t in columns then PurgedCount(up, fork, t) else 0)
  {
    if columns != [] {
      MainRaw(up, fork, t, columns[0]);
      MainRawSum(up, fork, t, columns[1..]);
      assert t in columns <==> t == columns[0] || t in columns[1..];
      assert columns[0] !in columns[1..];
    }
  }

  /**
   * The total written for a main row: the upstream methods of that type whose
   * fork type is reported, less the methods purged from the diagonal.
   */
  lemma ReportedTotal(ancestor: Universe, newMethods: Universe, modified: Universe,
                      up: LineageMap, fork: LineageMap, t: MappingType)
    requires t in TypesOf(up, up.Keys) && t in ReportTypes && t != NotFound
    ensures var stats := IntersectionTable(ancestor, newMethods, modified, up, fork);
      |RowLine(stats, t)| == |ReportTypes| + 1 && RowLine(stats, t)[|ReportTypes|]
        == IntToString(ClassSizes(fork, ClassOf(up, up.Keys, t), ReportTypes) - PurgedCount(up, fork, t))
  {
    var stats := IntersectionTable(ancestor, newMethods, modified, up, fork);
    MainRowOfTable(ancestor, newMethods, modified, up, fork, t);
    MainTotalCell(stats, up, fork, t);
  }

  lemma MainTotalCell(stats: Table, up: LineageMap, fork: LineageMap, t: MappingType)
    requires t in ReportTypes && RowOf(stats, t) == MainRow(up, fork, t)
    ensures |RowLine(stats, t)| == |ReportTypes| + 1
    ensures RowLine(stats, t)[|ReportTypes|]
      == IntToString(ClassSizes(fork, ClassOf(up, up.Keys, t), ReportTypes) - PurgedCount(up, fork, t))
  {
    TotalCell(stats, t);
    MainReportedSum(up, fork, t);
  }

  lemma MainReportedSum(up: LineageMap, fork: LineageMap, t: MappingType)
    requires t in ReportTypes
    ensures RawSum(MainRow(up, fork, t), ReportTypes) == ClassSizes(fork, ClassOf(up, up.Keys, t), ReportTypes) - PurgedCount(up, fork, t)
  {
    ReportTypesDistinct();
    MainRawSum(up, fork, t, ReportTypes);
  }

  lemma MainRowOfTable(ancestor: Universe, newMethods: Universe, modified: Universe,
                       up: LineageMap, fork: LineageMap, t: MappingType)
    requires t in TypesOf(up, up.Keys) && t != NotFound && t != Added
    ensures RowOf(IntersectionTable(ancestor, newMethods, modified, up, fork), t) == MainRow(up, fork, t)
  {
    TableRows(ancestor, newMethods, modified, up, fork);
  }

  lemma ReportTypesDistinct()
    ensures forall i, j :: 0 <= i < j < |ReportTypes| ==> ReportTypes[i] != ReportTypes[j]
  {
  }

  /** The last cell of a line is its total. */
  lemma TotalCell(stats: Table, t: MappingType)
    ensures |RowLine(stats, t)| == |ReportTypes| + 1
    ensures RowLine(stats, t)[|ReportTypes|] == IntToString(RawSum(RowOf(stats, t), ReportTypes))
  {
    RowCellsAt(RowOf(stats, t), ReportTypes);
  }

  /** Every written cell of a table without negative counts reads back to the cell. */
  lemma RowLineReadsBack(stats: Table, t: MappingType, i: int)
    requires 0 <= i < |ReportTypes|
    requires Raw(RowOf(stats, t), ReportTypes[i]) >= 0 && Purged(RowOf(stats, t), ReportTypes[i]) >= 0
    ensures |RowLine(stats, t)| == |ReportTypes| + 1
    ensures ParseCell(RowLine(stats, t)[i]) == (Raw(RowOf(stats, t), ReportTypes[i]), Purged(RowOf(stats, t), ReportTypes[i]))
  {
    RowCellsAt(RowOf(stats, t), ReportTypes);
    CellTextRoundTrip(Raw(RowOf(stats, t), ReportTypes[i]), Purged(RowOf(stats, t), ReportTypes[i]));
  }

  /**
   * A table built by generateIntersectionsOfMappings is always written in
   * full: seven lines, the last giving the upstream, fork and mutual new
   * method counts and the identical mutual ones.
   */
  lemma GeneratedTableIsWritten(ancestor: Universe, newMethods: Universe, modified: Universe,
                                up: LineageMap, fork: LineageMap, oldCount: int, newCount: int, modifiedCount: int)
    ensures var lines := ReportLines(oldCount, newCount, modifiedCount,
                                     IntersectionTable(ancestor, newMethods, modified, up, fork));
      var mutual := |MutualNew(newMethods, modified, up, fork)|;
      var identical := |IdenticalMutualNew(newMethods, modified, up, fork)|;
      && lines.Some? && |lines.value| == 7
      && lines.value[0] == HeaderLine(oldCount, newCount, modifiedCount)
      && (forall k :: 0 <= k < |ReportTypes| ==>
            lines.value[k + 1] == RowLine(IntersectionTable(ancestor, newMethods, modified, up, fork), ReportTypes[k]))
      && lines.value[6] == [IntToString(|NewMethods(newMethods, up)|), IntToString(|NewMethods(modified, fork)|),
                            IntToString(mutual - identical) + "(" + IntToString(identical) + ")"]
  {
    var stats := IntersectionTable(ancestor, newMethods, modified, up, fork);
    var mutual := |MutualNew(newMethods, modified, up, fork)|;
    var identical := |IdenticalMutualNew(newMethods, modified, up, fork)|;
    var last := [IntToString(|NewMethods(newMethods, up)|), IntToString(|NewMethods(modified, fork)|),
                 IntToString(mutual - identical) + "(" + IntToString(identical) + ")"];
    AddedLineOfTable(ancestor, newMethods, modified, up, fork);
    ReportLinesShape(oldCount, newCount, modifiedCount, stats, last);
  }

  /** The added-method line of a generated table always exists. */
  lemma AddedLineOfTable(ancestor: Universe, newMethods: Universe, modified: Universe,
                         up: LineageMap, fork: LineageMap)
    ensures var mutual := |MutualNew(newMethods, modified, up, fork)|;
      var identical := |IdenticalMutualNew(newMethods, modified, up, fork)|;
      AddedLine(IntersectionTable(ancestor, newMethods, modified, up, fork))
        == Some([IntToString(|NewMethods(newMethods, up)|), IntToString(|NewMethods(modified, fork)|),
                 IntToString(mutual - identical) + "(" + IntToString(identical) + ")"])
  {
    AddedRowCounts(ancestor, newMethods, modified, up, fork);
  }

  /** When the added-method line exists the output is the header, the five type lines and that line. */
  lemma ReportLinesShape(oldCount: int, newCount: int, modifiedCount: int, stats: Table, last: seq<string>)
    requires AddedLine(stats) == Some(last)
    ensures var lines := ReportLines(oldCount, newCount, modifiedCount, stats);
      && lines.Some? && |lines.value| == 7
      && lines.value[0] == HeaderLine(oldCount, newCount, modifiedCount)
      && (forall k :: 0 <= k < |ReportTypes| ==> lines.value[k + 1] == RowLine(stats, ReportTypes[k]))
      && lines.value[6] == last
  {
    RowLinesAt(stats, ReportTypes);
    var lines := [HeaderLine(oldCount, newCount, modifiedCount)] + RowLines(stats, ReportTypes) + [last];
    forall k | 0 <= k < |ReportTypes|
      ensures lines[k + 1] == RowLine(stats, ReportTypes[k])
    {
      assert lines[k + 1] == RowLines(stats, ReportTypes)[k];
    }
  }
}
