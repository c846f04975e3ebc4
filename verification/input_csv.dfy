/**
 * The input CSV files of CommitBasedAutomation: which lines a valid file may
 * hold, and the repositories a file contributes to the set of paired
 * repositories. A file is given as its lines; opening and scanning it is
 * not part of this model.
 */
module InputCsv {
  import opened JavaStrings

  const VersionLinePrefix: string := "versions:"

  /** What a line of an input file is, after trimming. */
  datatype LineKind =
    | Skipped                          // blank, or a comment starting with '!', '#' or '/'
    | VersionLine                      // starts with "versions:", in any case
    | DataLine(cells: seq<string>)     // at least three comma-separated cells
    | Malformed

  predicate IsComment(line: string)
  {
    line == "" || StartsWith(line, "!") || StartsWith(line, "#") || StartsWith(line, "/")
  }

  predicate IsVersionLine(line: string)
  {
    StartsWith(ToLower(line), VersionLinePrefix)
  }

  predicate HasThreeCells(line: string)
  {
    |Split(line, ',')| >= 3
  }

  /** The rules a line of a valid file meets one of, once trimmed: blank or a
      comment, a version line, or a line of at least three cells. */
  predicate Recognised(raw: string)
  {
    IsComment(Trim(raw)) || IsVersionLine(Trim(raw)) || HasThreeCells(Trim(raw))
  }

  /** The classification both readers apply, in the order they test. */
  function Classify(raw: string): LineKind
  {
    var line := Trim(raw);
    if IsComment(line) then Skipped
    else if IsVersionLine(line) then VersionLine
    else if HasThreeCells(line) then DataLine(Split(line, ','))
    else Malformed
  }

  /** Validation and reading agree: a line is accepted exactly when it is not malformed. */
  lemma ClassifyAgreesWithRecognised(raw: string)
    ensures Classify(raw) != Malformed <==> Recognised(raw)
  {
  }

  /** Lines 229-250: isValidInputCsvFile, stopping at the first line no rule accepts. */
  method IsValidInputCsvFile(lines: seq<string>) returns (valid: bool)
    ensures valid <==> forall i :: 0 <= i < |lines| ==> Recognised(lines[i])
  {
    for i := 0 to |lines|
      invariant forall j :: 0 <= j < i ==> Recognised(lines[j])
    {
      var line := Trim(lines[i]);
      if IsComment(line) {
        continue;
      }
      if IsVersionLine(line) {
        continue;
      }
      if HasThreeCells(line) {
        continue;
      }
      return false;
    }
    return true;
  }

  // Repositories.

  /** A repository to analyse: its name and the URL of its CyanogenMod repository. */
  datatype Repository = Repository(name: string, cmRepositoryUrl: string)

  /** Repository.equals: the name alone decides. */
  predicate SameRepository(a: Repository, b: Repository)
  {
    a.name == b.name
  }

  /** The UTF-16 code units of one character: itself below U+10000, a surrogate pair above. */
  function CodeUnits(c: char): (units: seq<int>)
    ensures 1 <= |units| <= 2
    ensures forall k :: 0 <= k < |units| ==> 0 <= units[k] < 0x1_0000
    ensures c as int < 0x1_0000 ==> units == [c as int]
  {
    var v := c as int;
    if v < 0x1_0000 then [v]
    else [0xD800 + (v - 0x1_0000) / 0x400, 0xDC00 + (v - 0x1_0000) % 0x400]
  }

  /** The UTF-16 encoding of a string, the sequence of chars a Java String holds. */
  function Utf16(s: string): (units: seq<int>)
    ensures |s| <= |units|
    ensures forall k :: 0 <= k < |units| ==> 0 <= units[k] < 0x1_0000
  {
    if s == [] then [] else Utf16(s[..|s| - 1]) + CodeUnits(s[|s| - 1])
  }

  /** u[0]*31^(n-1) + ... + u[n-1] over code units, in 32-bit two's complement. */
  function UnitsHash(units: seq<int>): (h: int)
    ensures -0x8000_0000 <= h < 0x8000_0000
  {
    if units == [] then 0
    else
      var unsigned := ((UnitsHash(units[..|units| - 1]) * 31 + units[|units| - 1]) % 0x1_0000_0000);
      if unsigned >= 0x8000_0000 then unsigned - 0x1_0000_0000 else unsigned
  }

  /** String.hashCode: the hash of the UTF-16 code units, always an int. */
  function StringHash(s: string): (h: int)
    ensures -0x8000_0000 <= h < 0x8000_0000
  {
    UnitsHash(Utf16(s))
  }

  /** Outside the Basic Multilingual Plane a character counts as its two surrogates. */
  lemma SupplementaryCharHash()
    ensures StringHash("\U{1F600}") == 31 * 0xD83D + 0xDE00
  {
    var s := "\U{1F600}";
    assert s[..0] == [];
    assert Utf16(s) == [0xD83D, 0xDE00];
    assert Utf16(s)[..1] == [0xD83D];
    assert [0xD83D][..0] == [];
  }

  /** Repository.hashCode: the hash of the name. */
  function RepositoryHash(r: Repository): int
  {
    StringHash(r.name)
  }

  /** Equal repositories hash alike, as HashSet requires. */
  lemma EqualRepositoriesHashAlike(a: Repository, b: Repository)
    requires SameRepository(a, b)
    ensures RepositoryHash(a) == RepositoryHash(b)
  {
  }

  /** No two repositories of a set share a name. */
  predicate UniqueNames(repositories: set<Repository>)
  {
    forall a, b :: a in repositories && b in repositories && SameRepository(a, b) ==> a == b
  }

  function Names(repositories: set<Repository>): set<string>
  {
    set r | r in repositories :: r.name
  }

  /** HashSet.add under name equality: an element with the same name stays, the newcomer is dropped. */
  function AddRepository(repositories: set<Repository>, r: Repository): set<Repository>
  {
    if exists x :: x in repositories && SameRepository(x, r) then repositories else repositories + {r}
  }

  /** Adding repository after repository, in order. */
  function AddAll(repositories: set<Repository>, rs: seq<Repository>): set<Repository>
  {
    if rs == [] then repositories else AddRepository(AddAll(repositories, rs[..|rs| - 1]), rs[|rs| - 1])
  }

  /** The repository a classified line names: the first and third cells of a
      data line (read only when there are at least three), none otherwise. */
  function RepositoryOf(kind: LineKind): seq<Repository>
  {
    match kind
    case DataLine(cells) => if |cells| >= 3 then [Repository(cells[0], cells[2])] else []
    case _ => []
  }

  /** The classification of every line of a file. */
  function Kinds(lines: seq<string>): (r: seq<LineKind>)
    ensures |r| == |lines|
  {
    if lines == [] then [] else Kinds(lines[..|lines| - 1]) + [Classify(lines[|lines| - 1])]
  }

  lemma {:induction false} KindsAt(lines: seq<string>, i: int)
    requires 0 <= i < |lines|
    ensures Kinds(lines)[i] == Classify(lines[i])
  {
    var n := |lines| - 1;
    if i < n {
      KindsAt(lines[..n], i);
    }
  }

  /** The repositories the data lines name, in file order. */
  function DataRepositories(kinds: seq<LineKind>): seq<Repository>
  {
    if kinds == [] then [] else DataRepositories(kinds[..|kinds| - 1]) + RepositoryOf(kinds[|kinds| - 1])
  }

  /** The repositories the data lines of a file name, in file order. */
  function FileRepositories(lines: seq<string>): seq<Repository>
  {
    DataRepositories(Kinds(lines))
  }

  lemma KindsSnoc(lines: seq<string>, i: int)
    requires 0 <= i < |lines|
    ensures Kinds(lines[..i + 1]) == Kinds(lines[..i]) + [Classify(lines[i])]
    ensures FileRepositories(lines[..i + 1]) == FileRepositories(lines[..i]) + RepositoryOf(Classify(lines[i]))
  {
    assert lines[..i + 1][..i] == lines[..i];
    var k := Kinds(lines[..i + 1]);
    assert k[..|k| - 1] == Kinds(lines[..i]);
  }

  /** The set of paired repositories of CommitBasedAutomation.run. */
  class RepositorySet {
    var elements: set<Repository>

    ghost predicate Valid()
      reads this
    {
      UniqueNames(elements)
    }

    constructor ()
      ensures Valid() && elements == {}
    {
      elements := {};
    }

    /** Set.size(). */
    function Size(): nat
      reads this
    {
      |elements|
    }

    /** Set.add: true when r was added, false when a repository of that name was already there. */
    method Add(r: Repository) returns (added: bool)
      requires Valid()
      modifies this
      ensures Valid()
      ensures added <==> r.name !in Names(old(elements))
      ensures elements == AddRepository(old(elements), r)
    {
      if exists x :: x in elements && SameRepository(x, r) {
        added := false;
      } else {
        elements := elements + {r};
        added := true;
      }
    }
  }

  /** Lines 207-227: readInputCsvFile adds the repository of every data line. */
  method ReadInputCsvFile(lines: seq<string>, pairedRepositories: RepositorySet)
    requires pairedRepositories.Valid()
    modifies pairedRepositories
    ensures pairedRepositories.Valid()
    ensures pairedRepositories.elements == AddAll(old(pairedRepositories.elements), FileRepositories(lines))
  {
    for i := 0 to |lines|
      invariant pairedRepositories.Valid()
      invariant pairedRepositories.elements == AddAll(old(pairedRepositories.elements), FileRepositories(lines[..i]))
    {
      KindsSnoc(lines, i);
      var kind := Classify(lines[i]);
      AddAllStep(old(pairedRepositories.elements), FileRepositories(lines[..i]), RepositoryOf(kind));
      if kind.DataLine? {
        var cells := kind.cells;
        if |cells| >= 3 {
          var repository := Repository(cells[0], cells[2]);
          var _ := pairedRepositories.Add(repository);
        }
      }
    }
    assert lines[..|lines|] == lines;
  }

  /** Lines 67-72: the repositories of one project's input files, invalid files skipped. */
  method CollectPairedRepositories(files: seq<seq<string>>) returns (pairedRepositories: RepositorySet)
    ensures pairedRepositories.Valid()
    ensures pairedRepositories.elements == AddAll({}, ValidFilesRepositories(files))
  {
    pairedRepositories := new RepositorySet();
    for i := 0 to |files|
      invariant pairedRepositories.Valid()
      invariant pairedRepositories.elements == AddAll({}, ValidFilesRepositories(files[..i]))
    {
      ValidFilesSnoc(files, i);
      var valid := IsValidInputCsvFile(files[i]);
      if valid {
        ReadInputCsvFile(files[i], pairedRepositories);
        AddAllAppend({}, ValidFilesRepositories(files[..i]), FileRepositories(files[i]));
      } else {
        assert ValidFilesRepositories(files[..i]) + [] == ValidFilesRepositories(files[..i]);
      }
    }
    assert files[..|files|] == files;
  }

  /** A file in which every line is recognised. */
  predicate ValidFile(lines: seq<string>)
  {
    forall i :: 0 <= i < |lines| ==> Recognised(lines[i])
  }

  /** The data-line repositories of the valid files, file after file. */
  function ValidFilesRepositories(files: seq<seq<string>>): seq<Repository>
  {
    if files == [] then []
    else
      ValidFilesRepositories(files[..|files| - 1]) +
      (if ValidFile(files[|files| - 1]) then FileRepositories(files[|files| - 1]) else [])
  }

  lemma ValidFilesSnoc(files: seq<seq<string>>, i: int)
    requires 0 <= i < |files|
    ensures ValidFilesRepositories(files[..i + 1]) ==
      ValidFilesRepositories(files[..i]) + (if ValidFile(files[i]) then FileRepositories(files[i]) else [])
  {
    assert files[..i + 1][..i] == files[..i];
  }

  // What reading promises.

  lemma {:induction false} AddAllAppend(repositories: set<Repository>, rs: seq<Repository>, more: seq<Repository>)
    ensures AddAll(repositories, rs + more) == AddAll(AddAll(repositories, rs), more)
    decreases |more|
  {
    if more != [] {
      assert (rs + more)[..|rs + more| - 1] == rs + more[..|more| - 1];
      AddAllAppend(repositories, rs, more[..|more| - 1]);
    } else {
      assert rs + more == rs;
    }
  }

  lemma AddAllStep(repositories: set<Repository>, rs: seq<Repository>, more: seq<Repository>)
    requires |more| <= 1
    ensures AddAll(repositories, rs + more) ==
      if more == [] then AddAll(repositories, rs) else AddRepository(AddAll(repositories, rs), more[0])
  {
    if more == [] {
      assert rs + more == rs;
    } else {
      assert (rs + more)[..|rs|] == rs;
    }
  }

  /** However many lines are read, no two collected repositories share a name. */
  lemma {:induction false} AddAllKeepsNamesUnique(repositories: set<Repository>, rs: seq<Repository>)
    requires UniqueNames(repositories)
    ensures UniqueNames(AddAll(repositories, rs))
  {
    if rs != [] {
      AddAllKeepsNamesUnique(repositories, rs[..|rs| - 1]);
    }
  }

  /** The collected names are the names already present and those of the added repositories. */
  lemma {:induction false} AddAllNames(repositories: set<Repository>, rs: seq<Repository>)
    ensures Names(AddAll(repositories, rs)) == Names(repositories) + set i | 0 <= i < |rs| :: rs[i].name
  {
    if rs != [] {
      var n := |rs| - 1;
      AddAllNames(repositories, rs[..n]);
      var before := AddAll(repositories, rs[..n]);
      if exists x :: x in before && SameRepository(x, rs[n]) {
        var x :| x in before && SameRepository(x, rs[n]);
        assert rs[n].name in Names(before);
        assert Names(AddAll(repositories, rs)) == Names(before);
      } else {
        assert Names(AddAll(repositories, rs)) == Names(before) + {rs[n].name};
      }
      assert (set i | 0 <= i < |rs| :: rs[i].name) == (set i | 0 <= i < n :: rs[..n][i].name) + {rs[n].name} by {
        forall i | 0 <= i < n ensures rs[..n][i] == rs[i] { }
      }
    }
  }

  /**
   * The first repository of a name wins: for a name not yet present, the
   * collected repository of that name is the first one in the sequence; the
   * repositories already present stay.
   */
  lemma {:induction false} FirstRepositoryWins(repositories: set<Repository>, rs: seq<Repository>, i: int)
    requires 0 <= i < |rs| && rs[i].name !in Names(repositories)
    requires forall j :: 0 <= j < i ==> rs[j].name != rs[i].name
    ensures rs[i] in AddAll(repositories, rs)
  {
    var n := |rs| - 1;
    if i < n {
      assert rs[..n][i] == rs[i];
      FirstRepositoryWins(repositories, rs[..n], i);
    } else {
      AddAllNames(repositories, rs[..n]);
      var before := AddAll(repositories, rs[..n]);
      forall x | x in before
        ensures !SameRepository(x, rs[n])
      {
        assert x.name in Names(before);
      }
    }
  }

  lemma {:induction false} AddAllKeepsExisting(repositories: set<Repository>, rs: seq<Repository>)
    ensures repositories <= AddAll(repositories, rs)
  {
    if rs != [] {
      AddAllKeepsExisting(repositories, rs[..|rs| - 1]);
    }
  }

  /** The repositories of a file are exactly those its data lines name. */
  lemma DataRepositoriesFromLines(kinds: seq<LineKind>, r: Repository)
    ensures r in DataRepositories(kinds) <==> exists i :: 0 <= i < |kinds| && r in RepositoryOf(kinds[i])
  {
    if r in DataRepositories(kinds) {
      var i := DataRepositoryLine(kinds, r);
    }
    forall i | 0 <= i < |kinds| && r in RepositoryOf(kinds[i])
      ensures r in DataRepositories(kinds)
    {
      LineRepositoryIncluded(kinds, i, r);
    }
  }

  /** A repository of the file comes from one of its lines. */
  lemma {:induction false} DataRepositoryLine(kinds: seq<LineKind>, r: Repository) returns (i: nat)
    requires r in DataRepositories(kinds)
    ensures i < |kinds| && r in RepositoryOf(kinds[i])
  {
    var n := |kinds| - 1;
    if r in RepositoryOf(kinds[n]) {
      i := n;
    } else {
      i := DataRepositoryLine(kinds[..n], r);
      assert kinds[..n][i] == kinds[i];
    }
  }

  /** The repository a line names is a repository of the file. */
  lemma {:induction false} LineRepositoryIncluded(kinds: seq<LineKind>, i: nat, r: Repository)
    requires i < |kinds| && r in RepositoryOf(kinds[i])
    ensures r in DataRepositories(kinds)
  {
    var n := |kinds| - 1;
    if i < n {
      assert kinds[..n][i] == kinds[i];
      LineRepositoryIncluded(kinds[..n], i, r);
    }
  }

  /** Line raw, once trimmed, is a data line naming r. */
  predicate DataLineOf(raw: string, r: Repository)
  {
    && !IsComment(Trim(raw)) && !IsVersionLine(Trim(raw)) && HasThreeCells(Trim(raw))
    && r == Repository(Split(Trim(raw), ',')[0], Split(Trim(raw), ',')[2])
  }

  /**
   * A repository comes from a file exactly when some line of it, trimmed, is
   * neither a comment nor a version line and splits into at least three
   * cells, the first being the name and the third the URL.
   */
  lemma FileRepositoriesFromLines(lines: seq<string>, r: Repository)
    ensures r in FileRepositories(lines) <==> exists i :: 0 <= i < |lines| && DataLineOf(lines[i], r)
  {
    DataRepositoriesFromLines(Kinds(lines), r);
    forall i | 0 <= i < |lines|
      ensures r in RepositoryOf(Kinds(lines)[i]) <==> DataLineOf(lines[i], r)
    {
      KindsAt(lines, i);
    }
  }

  lemma {:induction false} AddAllFrom(repositories: set<Repository>, rs: seq<Repository>, r: Repository)
    requires r in AddAll(repositories, rs)
    ensures r in repositories || r in rs
  {
    if rs != [] {
      var n := |rs| - 1;
      if r != rs[n] {
        AddAllFrom(repositories, rs[..n], r);
      }
    }
  }

  /** Blank, comment, version and malformed lines add nothing. */
  lemma OnlyDataLinesAdd(lines: seq<string>, line: string)
    requires IsComment(Trim(line)) || IsVersionLine(Trim(line)) || !HasThreeCells(Trim(line))
    ensures FileRepositories(lines + [line]) == FileRepositories(lines)
  {
    KindsSnoc(lines + [line], |lines|);
    assert (lines + [line])[..|lines|] == lines;
    assert (lines + [line])[..|lines| + 1] == lines + [line];
  }
}
