/**
 * findUpstreamMergeCommits and populateMergeCommit: the walk down the
 * CyanogenMod first-parent history that collects the merges of AOSP
 * releases, and the name each analysis of a subsystem at such a merge is
 * filed under. The git commands are not part of this model: what
 * `git log -1 --format=%P <hash>` prints for a commit is the function
 * parentsOf, what `git merge-base a b` prints is the function mergeBase,
 * and what `git log -1 --format=%H` prints for the checked-out head is a
 * string parameter.
 */
module MergeCommits {
  import opened JavaStrings
  import opened Wrappers

  /** AospMergeCommit without its release tag; a null field of the record is None. */
  datatype AospMergeCommit = AospMergeCommit(
    commitHash: string,
    cmParentCommitHash: Option<string>,
    aospParentCommitHash: Option<string>,
    commonAncestorCommit: Option<string>)

  /** At most this many commits of the first-parent history are looked at. */
  const MaxCommits: nat := 200

  /** What trim() leaves does not end in a space. */
  lemma TrimmedEndsClean(s: string)
    ensures Trim(s) == [] || Trim(s)[|Trim(s)| - 1] != ' '
  {
    TrimEnds(s);
  }

  /** A parent list with a space in it, not ending in one, has at least two space-separated parts. */
  lemma ParentListSplits(parents: string)
    requires ' ' in parents && parents[|parents| - 1] != ' '
    ensures Split(parents, ' ') == Pieces(parents, ' ') && |Split(parents, ' ')| >= 2
  {
    SplitKeepsAllPieces(parents, ' ');
    LeadingPieces(parents, ' ');
  }

  /** The record for a trimmed parent list. */
  function ParseParentList(mergeCommitHash: string, parentCommits: string,
                           mergeBase: (string, string) -> string): Option<AospMergeCommit>
    requires parentCommits == [] || parentCommits[|parentCommits| - 1] != ' '
  {
    if parentCommits == "" then None
    else if ' ' in parentCommits then
      ParentListSplits(parentCommits);
      var cmParentCommit := Split(parentCommits, ' ')[0];
      var aospParentCommit := Split(parentCommits, ' ')[1];
      var commonAncestorCommit := Trim(mergeBase(cmParentCommit, aospParentCommit));
      Some(AospMergeCommit(mergeCommitHash, Some(cmParentCommit), Some(aospParentCommit), Some(commonAncestorCommit)))
    else
      Some(AospMergeCommit(mergeCommitHash, Some(parentCommits), None, None))
  }

  /**
   * populateMergeCommit: None for a commit without parents; for a merge the
   * first two parents and their merge base; otherwise the whole parent list
   * as the CyanogenMod parent. (The source trims the trimmed list once more
   * before comparing it with "", which changes nothing: TrimIdempotent.)
   */
  function PopulateMergeCommit(mergeCommitHash: string, parentOutput: string,
                               mergeBase: (string, string) -> string): Option<AospMergeCommit>
  {
    TrimmedEndsClean(parentOutput);
    ParseParentList(mergeCommitHash, Trim(parentOutput), mergeBase)
  }

  /**
   * The record of a merge read off the parent list p: the CM parent and the
   * AOSP parent are the first two space-free words of p, separated by one
   * space and followed by the end of p or another space, and the ancestor
   * is their merge base, trimmed.
   */
  predicate IsMergeOf(mc: AospMergeCommit, p: string, mergeBase: (string, string) -> string)
  {
    && mc.cmParentCommitHash.Some? && mc.aospParentCommitHash.Some?
    && var cm := mc.cmParentCommitHash.value;
    var aosp := mc.aospParentCommitHash.value;
    var n := |cm| + 1 + |aosp|;
    && ' ' !in cm && ' ' !in aosp
    && n <= |p| && p[..n] == cm + " " + aosp && (n == |p| || p[n] == ' ')
    && mc.commonAncestorCommit == Some(Trim(mergeBase(cm, aosp)))
  }

  /** The meaning of a parsed parent list, as ParentParsing states it for the git output. */
  lemma ParentListMeaning(hash: string, p: string, mergeBase: (string, string) -> string)
    requires p == [] || p[|p| - 1] != ' '
    ensures var r := ParseParentList(hash, p, mergeBase);
      && (r.None? <==> p == "")
      && (r.Some? ==> r.value.commitHash == hash && r.value.cmParentCommitHash.Some?)
      && (p != "" && ' ' !in p ==> r == Some(AospMergeCommit(hash, Some(p), None, None)))
      && (' ' in p ==> r.Some? && IsMergeOf(r.value, p, mergeBase))
  {
    if ' ' in p {
      ParentListSplits(p);
      LeadingPieces(p, ' ');
      PiecesHaveNoSeparator(p, ' ');
      var parts := Pieces(p, ' ');
      var rest :| p == parts[0] + [' '] + parts[1] + rest && (rest == [] || rest[0] == ' ');
      var n := |parts[0]| + 1 + |parts[1]|;
      assert p[..n] == parts[0] + " " + parts[1];
      if n < |p| {
        assert p[n] == rest[0];
      }
    }
  }

  /**
   * What the parent list means: no record for an empty list; for a list
   * with a space, the CM parent and the AOSP parent are the first two
   * space-free words, separated by one space and followed by nothing or by
   * another space, and the ancestor is the trimmed merge base of the two;
   * for a list without a space, that whole list is the CM parent and
   * nothing else is set. Every record names the commit asked about and has
   * a CM parent.
   */
  lemma ParentParsing(hash: string, parentOutput: string, mergeBase: (string, string) -> string)
    ensures var p := Trim(parentOutput);
      var r := PopulateMergeCommit(hash, parentOutput, mergeBase);
      && (r.None? <==> p == "")
      && (r.Some? ==> r.value.commitHash == hash && r.value.cmParentCommitHash.Some?)
      && (p != "" && ' ' !in p ==> r == Some(AospMergeCommit(hash, Some(p), None, None)))
      && (' ' in p ==> r.Some? && IsMergeOf(r.value, p, mergeBase))
  {
    TrimmedEndsClean(parentOutput);
    ParentListMeaning(hash, Trim(parentOutput), mergeBase);
  }

  /** A record that names an AOSP merge: both the AOSP parent and the ancestor are known. */
  predicate IsUpstreamMerge(mc: AospMergeCommit)
  {
    mc.aospParentCommitHash.Some? && mc.commonAncestorCommit.Some?
  }

  /**
   * The records of the commits the walk visits, newest first: starting at
   * current, at most steps of them, each commit's CM parent being the next;
   * the walk ends at a commit without a record or without a CM parent.
   */
  function Chain(current: string, steps: nat, lookup: string -> Option<AospMergeCommit>): seq<AospMergeCommit>
    decreases steps
  {
    if steps == 0 then []
    else
      match lookup(current)
      case None => []
      case Some(mc) =>
        if mc.cmParentCommitHash.None? then []
        else [mc] + Chain(mc.cmParentCommitHash.value, steps - 1, lookup)
  }

  /** The records that name AOSP merges, in their original order. */
  function UpstreamMerges(records: seq<AospMergeCommit>): seq<AospMergeCommit>
  {
    if records == [] then []
    else (if IsUpstreamMerge(records[0]) then [records[0]] else []) + UpstreamMerges(records[1..])
  }

  /**
   * The loop of findUpstreamMergeCommits as one recursion: the AOSP merges
   * met on the walk from current, newest first.
   */
  function Walk(current: string, steps: nat, lookup: string -> Option<AospMergeCommit>): seq<AospMergeCommit>
    decreases steps
  {
    if steps == 0 then []
    else
      match lookup(current)
      case None => []
      case Some(mc) =>
        if mc.cmParentCommitHash.None? then []
        else
          (if IsUpstreamMerge(mc) then [mc] else [])
          + Walk(mc.cmParentCommitHash.value, steps - 1, lookup)
  }

  /** Collections.reverse. */
  function Reverse<T>(s: seq<T>): (r: seq<T>)
    ensures |r| == |s|
    ensures forall i :: 0 <= i < |s| ==> r[i] == s[|s| - 1 - i]
  {
    if s == [] then [] else Reverse(s[1..]) + [s[0]]
  }

  /** The git lookup the walk performs for each commit it visits. */
  function Lookup(parentsOf: string -> string, mergeBase: (string, string) -> string): string -> Option<AospMergeCommit>
  {
    hash => PopulateMergeCommit(hash, parentsOf(hash), mergeBase)
  }

  /** One step of the walk, as the loop takes it. */
  lemma WalkStep(current: string, steps: nat, lookup: string -> Option<AospMergeCommit>)
    requires steps > 0
    ensures var r := lookup(current);
      && (r.None? || r.value.cmParentCommitHash.None? ==> Walk(current, steps, lookup) == [])
      && (r.Some? && r.value.cmParentCommitHash.Some? ==>
            Walk(current, steps, lookup)
            == (if IsUpstreamMerge(r.value) then [r.value] else []) + Walk(r.value.cmParentCommitHash.value, steps - 1, lookup))
  {
  }

  /**
   * The loop of findUpstreamMergeCommits from the head commit, populating
   * each visited commit with populateMergeCommit; the collected list is
   * reversed at the end.
   */
  method CollectUpstreamMerges(head: string, populateMergeCommit: string -> Option<AospMergeCommit>)
    returns (mergeCommits: seq<AospMergeCommit>)
    ensures mergeCommits == Reverse(Walk(head, MaxCommits, populateMergeCommit))
  {
    var limit := MaxCommits;
    ghost var walk := Walk(head, limit, populateMergeCommit);
    var collected: seq<AospMergeCommit> := [];
    var currentCommit := head;
    assert [] + walk == walk;
    for i := 0 to limit
      invariant collected + Walk(currentCommit, limit - i, populateMergeCommit) == walk
    {
      var mergeCommit := populateMergeCommit(currentCommit);
      WalkStep(currentCommit, limit - i, populateMergeCommit);
      if mergeCommit.Some? && mergeCommit.value.cmParentCommitHash.Some? {
        ghost var rest := Walk(mergeCommit.value.cmParentCommitHash.value, limit - i - 1, populateMergeCommit);
        if mergeCommit.value.aospParentCommitHash.Some? && mergeCommit.value.commonAncestorCommit.Some? {
          assert collected + ([mergeCommit.value] + rest) == (collected + [mergeCommit.value]) + rest;
          collected := collected + [mergeCommit.value];
        } else {
          assert [] + rest == rest;
        }
        currentCommit := mergeCommit.value.cmParentCommitHash.value;
      } else {
        assert collected + [] == collected;
        break;
      }
    }
    assert collected + [] == collected;
    mergeCommits := Reverse(collected);
  }

  /** findUpstreamMergeCommits, given what git prints for the head and for each commit. */
  method FindUpstreamMergeCommits(headOutput: string, parentsOf: string -> string,
                                  mergeBase: (string, string) -> string)
    returns (mergeCommits: seq<AospMergeCommit>)
    ensures mergeCommits == Reverse(Walk(Trim(headOutput), MaxCommits, Lookup(parentsOf, mergeBase)))
  {
    var currentCommit := Trim(headOutput);
    mergeCommits := CollectUpstreamMerges(currentCommit, Lookup(parentsOf, mergeBase));
  }

  // What the walk promises.

  /** The walk is the chain of visited commits with the non-merges dropped. */
  lemma {:induction false} WalkKeepsMergesOfChain(current: string, steps: nat, lookup: string -> Option<AospMergeCommit>)
    ensures Walk(current, steps, lookup) == UpstreamMerges(Chain(current, steps, lookup))
    decreases steps
  {
    if steps > 0 {
      match lookup(current)
      case None =>
      case Some(mc) =>
        if mc.cmParentCommitHash.Some? {
          var tail := Chain(mc.cmParentCommitHash.value, steps - 1, lookup);
          WalkKeepsMergesOfChain(mc.cmParentCommitHash.value, steps - 1, lookup);
          assert ([mc] + tail)[1..] == tail;
        }
    }
  }

  /**
   * The chain starts at current, visits at most steps commits, holds for
   * each commit the record the lookup gives for the previous one's CM
   * parent, and ends early only where the next lookup gives no record or
   * one without a CM parent.
   */
  lemma {:induction false} ChainFollowsParents(current: string, steps: nat, lookup: string -> Option<AospMergeCommit>)
    ensures var c := Chain(current, steps, lookup);
      && |c| <= steps
      && (c != [] ==> lookup(current) == Some(c[0]))
      && (forall i :: 0 <= i < |c| ==> c[i].cmParentCommitHash.Some?)
      && (forall i :: 0 <= i < |c| - 1 ==> lookup(c[i].cmParentCommitHash.value) == Some(c[i + 1]))
      && (|c| < steps ==>
            var next := if c == [] then current else c[|c| - 1].cmParentCommitHash.value;
            lookup(next).None? || lookup(next).value.cmParentCommitHash.None?)
    decreases steps
  {
    if steps > 0 {
      match lookup(current)
      case None =>
      case Some(mc) =>
        if mc.cmParentCommitHash.Some? {
          var tail := Chain(mc.cmParentCommitHash.value, steps - 1, lookup);
          ChainFollowsParents(mc.cmParentCommitHash.value, steps - 1, lookup);
          var c := [mc] + tail;
          assert forall i :: 1 <= i < |c| ==> c[i] == tail[i - 1];
          if tail != [] {
            assert c[|c| - 1] == tail[|tail| - 1];
          }
        }
    }
  }

  /** No more commits are visited than steps allow. */
  lemma {:induction false} ChainLength(current: string, steps: nat, lookup: string -> Option<AospMergeCommit>)
    ensures |Chain(current, steps, lookup)| <= steps
    decreases steps
  {
    if steps > 0 && lookup(current).Some? && lookup(current).value.cmParentCommitHash.Some? {
      ChainLength(lookup(current).value.cmParentCommitHash.value, steps - 1, lookup);
    }
  }

  /**
   * With the git lookup, the chain is the first-parent history from the
   * head: it starts at the head, each record is the one populateMergeCommit
   * gives for its own hash, and each next commit is the CM parent of the
   * one before.
   */
  lemma FirstParentHistory(headOutput: string, parentsOf: string -> string, mergeBase: (string, string) -> string)
    ensures var lookup := Lookup(parentsOf, mergeBase);
      var c := Chain(Trim(headOutput), MaxCommits, lookup);
      && |c| <= MaxCommits
      && (c != [] ==> c[0].commitHash == Trim(headOutput))
      && (forall i :: 0 <= i < |c| ==> PopulateMergeCommit(c[i].commitHash, parentsOf(c[i].commitHash), mergeBase) == Some(c[i]))
      && (forall i :: 0 <= i < |c| - 1 ==> c[i + 1].commitHash == c[i].cmParentCommitHash.value)
  {
    var lookup := Lookup(parentsOf, mergeBase);
    var c := Chain(Trim(headOutput), MaxCommits, lookup);
    ChainFollowsParents(Trim(headOutput), MaxCommits, lookup);
    if c != [] {
      ParentParsing(Trim(headOutput), parentsOf(Trim(headOutput)), mergeBase);
    }
    forall i | 0 <= i < |c| - 1
      ensures c[i + 1].commitHash == c[i].cmParentCommitHash.value
    {
      var h := c[i].cmParentCommitHash.value;
      ParentParsing(h, parentsOf(h), mergeBase);
      assert lookup(h) == Some(c[i + 1]);
    }
    forall i | 0 <= i < |c|
      ensures PopulateMergeCommit(c[i].commitHash, parentsOf(c[i].commitHash), mergeBase) == Some(c[i])
    {
      if i > 0 {
        var h := c[i - 1].cmParentCommitHash.value;
        assert lookup(h) == Some(c[i]);
      }
    }
  }

  /** Exactly the records naming AOSP merges are kept. */
  lemma {:induction false} UpstreamMergesFacts(records: seq<AospMergeCommit>)
    ensures var u := UpstreamMerges(records);
      && |u| <= |records|
      && (forall x :: x in u <==> x in records && IsUpstreamMerge(x))
  {
    if records != [] {
      UpstreamMergesFacts(records[1..]);
      assert records == [records[0]] + records[1..];
    }
  }

  /** Kept records keep their relative order: an earlier kept one comes from an earlier position. */
  lemma {:induction false} UpstreamMergesInOrder(records: seq<AospMergeCommit>, i: nat, j: nat)
    requires i < j < |UpstreamMerges(records)|
    ensures exists a, b ::
      && 0 <= a < b < |records|
      && records[a] == UpstreamMerges(records)[i]
      && records[b] == UpstreamMerges(records)[j]
  {
    var u := UpstreamMerges(records);
    var tail := records[1..];
    var rest := UpstreamMerges(tail);
    if !IsUpstreamMerge(records[0]) {
      assert u == rest;
      UpstreamMergesInOrder(tail, i, j);
      var a, b :| 0 <= a < b < |tail| && tail[a] == rest[i] && tail[b] == rest[j];
      assert tail[a] == records[a + 1] && tail[b] == records[b + 1];
    } else {
      assert u == [records[0]] + rest;
      assert u[j] == rest[j - 1];
      if i == 0 {
        UpstreamMergesFacts(tail);
        assert rest[j - 1] in tail;
        var b :| 0 <= b < |tail| && tail[b] == rest[j - 1];
        assert tail[b] == records[b + 1];
      } else {
        assert u[i] == rest[i - 1];
        UpstreamMergesInOrder(tail, i - 1, j - 1);
        var a, b :| 0 <= a < b < |tail| && tail[a] == rest[i - 1] && tail[b] == rest[j - 1];
        assert tail[a] == records[a + 1] && tail[b] == records[b + 1];
      }
    }
  }

  /**
   * The returned list is oldest first: of two returned merges, the later
   * one in the list was visited earlier on the chain, nearer the head.
   */
  lemma OldestFirst(head: string, steps: nat, lookup: string -> Option<AospMergeCommit>, i: nat, j: nat)
    requires i < j < |Reverse(Walk(head, steps, lookup))|
    ensures var chain := Chain(head, steps, lookup);
      var result := Reverse(Walk(head, steps, lookup));
      exists a, b :: 0 <= b < a < |chain| && chain[a] == result[i] && chain[b] == result[j]
  {
    var chain := Chain(head, steps, lookup);
    var w := Walk(head, steps, lookup);
    var result := Reverse(w);
    WalkKeepsMergesOfChain(head, steps, lookup);
    UpstreamMergesInOrder(chain, |w| - 1 - j, |w| - 1 - i);
    var a, b :| 0 <= a < b < |chain| && chain[a] == w[|w| - 1 - j] && chain[b] == w[|w| - 1 - i];
    assert chain[b] == result[i] && chain[a] == result[j];
  }

  /** At most steps records are returned, each an AOSP merge visited on the chain. */
  lemma OnlyUpstreamMergesReturned(head: string, steps: nat, lookup: string -> Option<AospMergeCommit>)
    ensures var chain := Chain(head, steps, lookup);
      var result := Reverse(Walk(head, steps, lookup));
      && |result| <= steps
      && forall k :: 0 <= k < |result| ==> result[k] in chain && IsUpstreamMerge(result[k])
  {
    var chain := Chain(head, steps, lookup);
    var w := Walk(head, steps, lookup);
    WalkKeepsMergesOfChain(head, steps, lookup);
    ChainLength(head, steps, lookup);
    UpstreamMergesFacts(chain);
    var result := Reverse(w);
    forall k | 0 <= k < |result|
      ensures result[k] in chain && IsUpstreamMerge(result[k])
    {
      var x := w[|w| - 1 - k];
      assert result[k] == x;
      assert x in w;
    }
  }

  // The analysis name (processCommit and processSubsystem).

  /** "nc" when the AOSP merge replays without conflicts, "c" otherwise. */
  function MergeStatus(canAutomaticallyMerge: bool): string
  {
    if canAutomaticallyMerge then "nc" else "c"
  }

  /** The name "repository-subsystem-hash-status"; None for a missing merge commit ("Invalid merge commit"). */
  function AnalysisName(repositoryName: string, subsystemName: string, mergeCommit: Option<AospMergeCommit>,
                        mergeStatus: string): Option<string>
  {
    match mergeCommit
    case None => None
    case Some(mc) => Some(repositoryName + "-" + subsystemName + "-" + mc.commitHash + "-" + mergeStatus)
  }

  /** The status can be read off the name's last two characters. */
  lemma StatusReadsBack(repositoryName: string, subsystemName: string, mc: AospMergeCommit, canAutomaticallyMerge: bool)
    ensures var name := AnalysisName(repositoryName, subsystemName, Some(mc), MergeStatus(canAutomaticallyMerge)).value;
      |name| >= 2 && (name[|name| - 2..] == "nc" <==> canAutomaticallyMerge)
  {
    var name := AnalysisName(repositoryName, subsystemName, Some(mc), MergeStatus(canAutomaticallyMerge)).value;
    var front := repositoryName + "-" + subsystemName + "-" + mc.commitHash;
    if canAutomaticallyMerge {
      assert name == front + "-nc";
    } else {
      assert name == front + "-c";
      assert name[|name| - 2] == '-';
    }
  }

  /** A name splits into its fixed front, the hash, and the status after a dash. */
  lemma NameSplits(prefix: string, hash: string, status: string)
    ensures var name := prefix + hash + "-" + status;
      && |name| == |prefix| + |hash| + 1 + |status|
      && name[|prefix|..|prefix| + |hash|] == hash
  {
    var name := prefix + hash + "-" + status;
    assert name == prefix + (hash + ("-" + status));
  }

  /**
   * Within one repository and subsystem, two merge commits share an
   * analysis name only if they have the same hash and the same status.
   */
  lemma AnalysisNamesDistinct(repositoryName: string, subsystemName: string,
                              mc1: AospMergeCommit, merged1: bool, mc2: AospMergeCommit, merged2: bool)
    requires AnalysisName(repositoryName, subsystemName, Some(mc1), MergeStatus(merged1))
      == AnalysisName(repositoryName, subsystemName, Some(mc2), MergeStatus(merged2))
    ensures mc1.commitHash == mc2.commitHash && merged1 == merged2
  {
    var prefix := repositoryName + "-" + subsystemName + "-";
    var status := MergeStatus(merged1);
    StatusReadsBack(repositoryName, subsystemName, mc1, merged1);
    StatusReadsBack(repositoryName, subsystemName, mc2, merged2);
    assert merged1 == merged2;
    var name := prefix + mc1.commitHash + "-" + status;
    assert name == prefix + mc2.commitHash + "-" + status;
    NameSplits(prefix, mc1.commitHash, status);
    NameSplits(prefix, mc2.commitHash, status);
  }
}
