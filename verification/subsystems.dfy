/**
 * getSubsystemsInRepository: the Android subsystems of a repository worth
 * analysing at a merge commit. A subsystem is a directory holding an
 * AndroidManifest.xml in all three snapshots (the common ancestor, the AOSP
 * parent and the CyanogenMod parent) with a src folder in all three, whose
 * path does not look like a test or an example. Walking the checked-out
 * trees is not part of this model: each snapshot is given as its paths
 * relative to the repository root.
 */
module Subsystems {
  import opened JavaStrings
  import opened Wrappers

  /** An Android subsystem of a repository. */
  datatype Subsystem = Subsystem(repository: string, name: string, relativePath: string, gitRepoPath: string)

  /** What getAndroidManifestFiles collects from one snapshot. */
  datatype Snapshot = Snapshot(manifests: set<string>, allFiles: set<string>)

  /** The position of the last c in s, -1 when there is none. */
  function LastIndexOf(s: string, c: char): (i: int)
    ensures -1 <= i < |s|
  {
    if s == [] then -1 else if s[|s| - 1] == c then |s| - 1 else LastIndexOf(s[..|s| - 1], c)
  }

  /** LastIndexOf finds c, and no c follows it; -1 means c does not occur. */
  lemma {:induction false} LastIndexOfFacts(s: string, c: char)
    ensures LastIndexOf(s, c) >= 0 ==> s[LastIndexOf(s, c)] == c
    ensures forall j :: LastIndexOf(s, c) < j < |s| ==> s[j] != c
  {
    if s != [] && s[|s| - 1] != c {
      var n := |s| - 1;
      LastIndexOfFacts(s[..n], c);
      forall j | LastIndexOf(s, c) < j < |s|
        ensures s[j] != c
      {
        if j < n {
          assert s[j] == s[..n][j];
        }
      }
    }
  }

  /** Nothing after the last c is a c. */
  lemma AfterLastIndexOf(s: string, c: char)
    ensures c !in s[LastIndexOf(s, c) + 1..]
  {
    LastIndexOfFacts(s, c);
    NoneAfter(s, c, LastIndexOf(s, c));
  }

  /** A suffix past every occurrence of c holds no c. */
  lemma NoneAfter(s: string, c: char, i: int)
    requires -1 <= i < |s|
    requires forall j :: i < j < |s| ==> s[j] != c
    ensures c !in s[i + 1..]
  {
    var t := s[i + 1..];
    forall k | 0 <= k < |t|
      ensures t[k] != c
    {
      assert t[k] == s[i + 1 + k];
    }
  }

  /** Cutting a path right after a '/' (or at its start) leaves a prefix ending in '/'. */
  lemma CutAfter(dir: string, i: int)
    requires -1 <= i < |dir| && (i >= 0 ==> dir[i] == '/')
    ensures var prefix := dir[..i + 1];
      dir == prefix + dir[i + 1..] && (prefix == "" || prefix[|prefix| - 1] == '/')
  {
  }

  /** The manifest's directory relative to the repository root, "" for the root itself. */
  function ParentDir(manifest: string): string
  {
    var i := LastIndexOf(manifest, '/');
    if i < 0 then "" else manifest[..i]
  }

  /** The directory's own name (File.getName), "src" for the repository root. */
  function SubsystemName(dir: string): string
  {
    if dir == "" then "src" else dir[LastIndexOf(dir, '/') + 1..]
  }

  /** Directories that look like tests or examples. */
  predicate Excluded(dir: string)
  {
    Contains(dir, "/test") || Contains(dir, "Test") || Contains(ToLower(dir), "example")
  }

  /** Lines 285-300: a manifest of the ancestor that names a subsystem to analyse. */
  predicate Selected(manifest: string, aospOld: Snapshot, aospNew: Snapshot, cm: Snapshot)
  {
    && manifest in aospOld.manifests && manifest in aospNew.manifests && manifest in cm.manifests
    && !Excluded(ParentDir(manifest))
    && ParentDir(manifest) + "/src" in aospOld.allFiles
    && ParentDir(manifest) + "/src" in aospNew.allFiles
    && ParentDir(manifest) + "/src" in cm.allFiles
  }

  function SubsystemOf(repoName: string, gitRepoPath: string, manifest: string): Subsystem
  {
    Subsystem(repoName, SubsystemName(ParentDir(manifest)), ParentDir(manifest) + "/src", gitRepoPath)
  }

  /** The manifests among some that are selected. */
  function SelectedAmong(manifests: set<string>, aospOld: Snapshot, aospNew: Snapshot, cm: Snapshot): set<string>
  {
    set m | m in manifests && Selected(m, aospOld, aospNew, cm)
  }

  function SelectedManifests(aospOld: Snapshot, aospNew: Snapshot, cm: Snapshot): set<string>
  {
    SelectedAmong(aospOld.manifests, aospOld, aospNew, cm)
  }

  /** The subsystems the selected manifests name. */
  function SelectedSubsystems(repoName: string, gitRepoPath: string, manifests: set<string>): set<Subsystem>
  {
    set m | m in manifests :: SubsystemOf(repoName, gitRepoPath, m)
  }

  lemma SelectedSubsystemsAdd(repoName: string, gitRepoPath: string, manifests: set<string>, m: string)
    ensures SelectedSubsystems(repoName, gitRepoPath, manifests + {m})
      == SelectedSubsystems(repoName, gitRepoPath, manifests) + {SubsystemOf(repoName, gitRepoPath, m)}
  {
  }

  lemma SelectedManifestsAdd(done: set<string>, m: string, aospOld: Snapshot, aospNew: Snapshot, cm: Snapshot)
    ensures SelectedAmong(done + {m}, aospOld, aospNew, cm) ==
      SelectedAmong(done, aospOld, aospNew, cm) + (if Selected(m, aospOld, aospNew, cm) then {m} else {})
    ensures SelectedAmong(done, aospOld, aospNew, cm) <= done
  {
  }

  function Elements<T>(s: seq<T>): set<T>
  {
    set x | x in s
  }

  lemma ElementsSnoc<T>(s: seq<T>, x: T)
    ensures Elements(s + [x]) == Elements(s) + {x}
  {
  }

  /** One iteration of the selection loop keeps its invariant. */
  lemma SelectionStep(repoName: string, gitRepoPath: string, done: set<string>, picked: set<string>,
                      result: seq<Subsystem>, m: string, aospOld: Snapshot, aospNew: Snapshot, cm: Snapshot)
    requires picked == SelectedAmong(done, aospOld, aospNew, cm) && m !in done
    requires Elements(result) == SelectedSubsystems(repoName, gitRepoPath, picked) && |result| == |picked|
    ensures var picked' := if Selected(m, aospOld, aospNew, cm) then picked + {m} else picked;
      var result' := if Selected(m, aospOld, aospNew, cm) then result + [SubsystemOf(repoName, gitRepoPath, m)] else result;
      && picked' == SelectedAmong(done + {m}, aospOld, aospNew, cm)
      && Elements(result') == SelectedSubsystems(repoName, gitRepoPath, picked')
      && |result'| == |picked'|
  {
    SelectedManifestsAdd(done, m, aospOld, aospNew, cm);
    if Selected(m, aospOld, aospNew, cm) {
      SelectedSubsystemsAdd(repoName, gitRepoPath, picked, m);
      ElementsSnoc(result, SubsystemOf(repoName, gitRepoPath, m));
      assert m !in picked;
    }
  }

  /** Lines 285-302: the subsystem one manifest of the ancestor names, if it is selected. */
  method ConsiderManifest(repoName: string, gitRepoPath: string, aospOldManifest: string,
                          aospOld: Snapshot, aospNew: Snapshot, cm: Snapshot)
    returns (subsystem: Option<Subsystem>)
    requires aospOldManifest in aospOld.manifests
    ensures subsystem.Some? <==> Selected(aospOldManifest, aospOld, aospNew, cm)
    ensures subsystem.Some? ==> subsystem.value == SubsystemOf(repoName, gitRepoPath, aospOldManifest)
  {
    subsystem := None;
    if aospOldManifest in aospNew.manifests && aospOldManifest in cm.manifests {
      var dir := ParentDir(aospOldManifest);
      var subsystemName := SubsystemName(dir);
      var subsystemRelativePath := dir;
      if Excluded(subsystemRelativePath) {
        return;
      }
      subsystemRelativePath := subsystemRelativePath + "/src";
      if subsystemRelativePath !in aospOld.allFiles || subsystemRelativePath !in aospNew.allFiles
         || subsystemRelativePath !in cm.allFiles {
        return;
      }
      subsystem := Some(Subsystem(repoName, subsystemName, subsystemRelativePath, gitRepoPath));
    }
  }

  /** Lines 265-306: one subsystem per selected manifest, in the ancestor's iteration order. */
  method GetSubsystemsInRepository(repoName: string, gitRepoPath: string, aospOld: Snapshot, aospNew: Snapshot, cm: Snapshot)
    returns (result: seq<Subsystem>)
    ensures forall s :: s in result <==> s in SelectedSubsystems(repoName, gitRepoPath, SelectedManifests(aospOld, aospNew, cm))
    ensures |result| == |SelectedManifests(aospOld, aospNew, cm)|
  {
    result := [];
    var todo := aospOld.manifests;
    ghost var done: set<string> := {};
    ghost var picked: set<string> := {};
    while todo != {}
      invariant todo <= aospOld.manifests && done == aospOld.manifests - todo
      invariant picked == SelectedAmong(done, aospOld, aospNew, cm)
      invariant Elements(result) == SelectedSubsystems(repoName, gitRepoPath, picked)
      invariant |result| == |picked|
      decreases todo
    {
      var aospOldManifest :| aospOldManifest in todo;
      SelectionStep(repoName, gitRepoPath, done, picked, result, aospOldManifest, aospOld, aospNew, cm);
      var subsystem := ConsiderManifest(repoName, gitRepoPath, aospOldManifest, aospOld, aospNew, cm);
      if subsystem.Some? {
        result := result + [subsystem.value];
        picked := picked + {aospOldManifest};
      }
      todo := todo - {aospOldManifest};
      done := done + {aospOldManifest};
    }
    assert done == aospOld.manifests;
    assert picked == SelectedManifests(aospOld, aospNew, cm);
  }

  // What the selection promises.

  /**
   * Every returned subsystem comes from a manifest present in all three
   * snapshots; its relative path is that manifest's directory followed by
   * "/src", present in all three snapshots, and the directory mentions
   * neither "/test" nor "Test" nor, in any case, "example".
   */
  lemma SelectedSubsystemQualifies(repoName: string, gitRepoPath: string, aospOld: Snapshot, aospNew: Snapshot, cm: Snapshot, s: Subsystem)
    requires s in SelectedSubsystems(repoName, gitRepoPath, SelectedManifests(aospOld, aospNew, cm))
    ensures exists m, dir ::
      && m in aospOld.manifests && m in aospNew.manifests && m in cm.manifests
      && dir == ParentDir(m) && s.relativePath == dir + "/src"
      && s.relativePath in aospOld.allFiles && s.relativePath in aospNew.allFiles && s.relativePath in cm.allFiles
      && !Contains(dir, "/test") && !Contains(dir, "Test") && !Contains(ToLower(dir), "example")
      && s.repository == repoName && s.gitRepoPath == gitRepoPath && s.name == SubsystemName(dir)
  {
    var m :| m in SelectedManifests(aospOld, aospNew, cm) && s == SubsystemOf(repoName, gitRepoPath, m);
    var dir := ParentDir(m);
    assert s.relativePath == dir + "/src";
  }

  /** A manifest at the repository root names the subsystem "src" at "/src". */
  lemma RootManifest(manifest: string)
    requires '/' !in manifest || LastIndexOf(manifest, '/') == 0
    ensures ParentDir(manifest) == "" && SubsystemName(ParentDir(manifest)) == "src"
  {
    LastIndexOfFacts(manifest, '/');
    if '/' !in manifest {
      assert manifest[0..] == manifest;
    }
  }

  /** A path is what comes up to its last '/', ending in '/' or empty, and a '/'-free rest. */
  lemma LastComponentSplit(dir: string)
    ensures var i := LastIndexOf(dir, '/');
      && '/' !in dir[i + 1..] && dir == dir[..i + 1] + dir[i + 1..]
      && (dir[..i + 1] == "" || dir[..i + 1][|dir[..i + 1]| - 1] == '/')
  {
    LastIndexOfFacts(dir, '/');
    NoneAfter(dir, '/', LastIndexOf(dir, '/'));
    CutAfter(dir, LastIndexOf(dir, '/'));
  }

  /**
   * Any other subsystem is named after the last component of its directory:
   * a name without '/', ending the directory, right after a '/' or at its start.
   */
  lemma SubsystemNameIsLastComponent(dir: string)
    requires dir != ""
    ensures var name := SubsystemName(dir);
      && '/' !in name
      && exists prefix :: dir == prefix + name && (prefix == "" || prefix[|prefix| - 1] == '/')
  {
    LastComponentSplit(dir);
    var i := LastIndexOf(dir, '/');
    assert SubsystemName(dir) == dir[i + 1..];
    var prefix := dir[..i + 1];
    assert dir == prefix + SubsystemName(dir);
  }

  /** The manifest's directory is the path up to its last '/', which the file name after it does not contain. */
  lemma ParentDirSplitsPath(manifest: string)
    requires '/' in manifest
    ensures exists file :: manifest == ParentDir(manifest) + "/" + file && '/' !in file
  {
    var i := LastIndexOf(manifest, '/');
    LastIndexOfFacts(manifest, '/');
    AfterLastIndexOf(manifest, '/');
    var file := manifest[i + 1..];
    assert manifest == manifest[..i] + "/" + file;
  }
}
