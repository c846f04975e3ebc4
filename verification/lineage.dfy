/**
 * discoverMappingForProject: maps the methods of an old snapshot to those of
 * a new one by running four detectors in a fixed order (identical,
 * refactoring, argument change, body change) and merging their results
 * first-match-wins. The detectors themselves are outside the model: they are
 * the four functions of a Detectors value, applied to exactly the arguments
 * the source passes them.
 */
module LineageMapper {
  import opened MappingModel
  import opened MappingCombiner

  /** A detector result, keyed by the old method. */
  type ModelMapping = map<MethodModel, MethodMapping>

  /**
   * The four detectors, as functions of their inputs. The refactoring detector
   * also fills the map of refactored class files that the argument-change
   * detector then reads; here it returns it. The old and new
   * class-by-qualified-name indexes they are also given are fixed for one
   * project and taken as part of the functions.
   */
  datatype Detectors = Detectors(
    identical: (set<MethodModel>, set<MethodModel>) -> ModelMapping,
    refactoring: (set<MethodModel>, set<MethodModel>, set<MethodModel>, set<MethodModel>) -> (ModelMapping, map<string, string>),
    argumentChange: (set<MethodModel>, set<MethodModel>, set<MethodModel>, set<MethodModel>, map<string, string>) -> ModelMapping,
    bodyChange: (set<MethodModel>, set<MethodModel>) -> ModelMapping)

  /** The destinations of a collection of mappings. */
  function Destinations(mappings: set<MethodMapping>): set<MethodModel>
  {
    set m | m in mappings :: m.destination
  }

  /** The printed names (toString) of the destinations of a collection of mappings. */
  function DestinationNames(mappings: set<MethodMapping>): set<string>
  {
    set d | d in Destinations(mappings) :: d.display
  }

  /** removeEntities and filterUnmatchedMethods: a copy of the first collection without the second. */
  function RemoveEntities<T>(main: set<T>, removed: set<T>): set<T>
  {
    main - removed
  }

  /** getListOfDestinationMethods. */
  method GetListOfDestinationMethods(mappings: set<MethodMapping>) returns (result: set<MethodModel>)
    ensures forall d :: d in result <==> exists m :: m in mappings && m.destination == d
  {
    result := {};
    var todo := mappings;
    while todo != {}
      invariant todo <= mappings
      invariant forall d :: d in result <==> exists m :: m in mappings - todo && m.destination == d
      decreases todo
    {
      var m :| m in todo;
      result := result + {m.destination};
      todo := todo - {m};
    }
  }

  /** getStringListOfDestinationMethods: the destinations first, then their names. */
  method GetStringListOfDestinationMethods(mappings: set<MethodMapping>) returns (result: set<string>)
    ensures forall s :: s in result <==> exists m :: m in mappings && m.destination.display == s
  {
    var methods := GetListOfDestinationMethods(mappings);
    result := {};
    var todo := methods;
    while todo != {}
      invariant todo <= methods
      invariant forall s :: s in result <==> exists d :: d in methods - todo && d.display == s
      decreases todo
    {
      var d :| d in todo;
      result := result + {d.display};
      todo := todo - {d};
    }
  }

  lemma DestinationsMembers(mappings: set<MethodMapping>)
    ensures forall d :: d in Destinations(mappings) <==> exists m :: m in mappings && m.destination == d
  {
  }

  lemma DestinationNamesMembers(mappings: set<MethodMapping>)
    ensures forall s :: s in DestinationNames(mappings) <==> exists m :: m in mappings && m.destination.display == s
  {
    forall s | s in DestinationNames(mappings)
      ensures exists m :: m in mappings && m.destination.display == s
    {
      var d :| d in Destinations(mappings) && d.display == s;
      var m :| m in mappings && m.destination == d;
    }
  }

  // The stages, as the source chains them.

  function IdenticalStage(d: Detectors, olds: set<MethodModel>, news: set<MethodModel>): ModelMapping
  {
    d.identical(olds, news)
  }

  function RefactoringStage(d: Detectors, olds: set<MethodModel>, news: set<MethodModel>): (ModelMapping, map<string, string>)
  {
    var mapped := IdenticalStage(d, olds, news);
    d.refactoring(olds, news, mapped.Keys, Destinations(mapped.Values))
  }

  function AfterRefactoring(d: Detectors, olds: set<MethodModel>, news: set<MethodModel>): ModelMapping
  {
    Combined([IdenticalStage(d, olds, news), RefactoringStage(d, olds, news).0])
  }

  function ArgumentStage(d: Detectors, olds: set<MethodModel>, news: set<MethodModel>): ModelMapping
  {
    var mapped := AfterRefactoring(d, olds, news);
    d.argumentChange(olds, news, mapped.Keys, Destinations(mapped.Values), RefactoringStage(d, olds, news).1)
  }

  function AfterArguments(d: Detectors, olds: set<MethodModel>, news: set<MethodModel>): ModelMapping
  {
    Combined([AfterRefactoring(d, olds, news), ArgumentStage(d, olds, news)])
  }

  /** The old methods the body-change detector is given. */
  function BodyStageSources(d: Detectors, olds: set<MethodModel>, news: set<MethodModel>): set<MethodModel>
  {
    RemoveEntities(olds, AfterArguments(d, olds, news).Keys)
  }

  /** The new methods the body-change detector is given. */
  function BodyStageCandidates(d: Detectors, olds: set<MethodModel>, news: set<MethodModel>): set<MethodModel>
  {
    RemoveEntities(news, Destinations(AfterArguments(d, olds, news).Values))
  }

  function BodyStage(d: Detectors, olds: set<MethodModel>, news: set<MethodModel>): ModelMapping
  {
    d.bodyChange(BodyStageSources(d, olds, news), BodyStageCandidates(d, olds, news))
  }

  /** The merged mapping of one lineage, before it is keyed by signature. */
  function LineageMapping(d: Detectors, olds: set<MethodModel>, news: set<MethodModel>): ModelMapping
  {
    Combined([AfterArguments(d, olds, news), BodyStage(d, olds, news)])
  }

  /** The four stages in the order they run. */
  function Stages(d: Detectors, olds: set<MethodModel>, news: set<MethodModel>): seq<ModelMapping>
  {
    [IdenticalStage(d, olds, news), RefactoringStage(d, olds, news).0, ArgumentStage(d, olds, news), BodyStage(d, olds, news)]
  }

  /** Chaining the stages pairwise is one first-match fold over the four of them. */
  lemma LineageIsFold(d: Detectors, olds: set<MethodModel>, news: set<MethodModel>)
    ensures LineageMapping(d, olds, news) == Combined(Stages(d, olds, news))
  {
    var s := Stages(d, olds, news);
    CombineStep([s[0]], s[1]);
    assert [s[0]][..0] == [];
    assert Combined([s[0]]) == s[0];
    assert [s[0]] + [s[1]] == s[..2];
    CombineStep(s[..2], s[2]);
    assert s[..2] + [s[2]] == s[..3];
    CombineStep(s[..3], s[3]);
    assert s[..3] + [s[3]] == s;
  }

  /** Every key of the lineage mapping comes from the earliest stage that maps it,
      and the keys are those of the four stages together. */
  lemma LineagePriority(d: Detectors, olds: set<MethodModel>, news: set<MethodModel>, m: MethodModel, i: int)
    requires EarliestHolder(Stages(d, olds, news), m, i)
    ensures m in LineageMapping(d, olds, news)
    ensures LineageMapping(d, olds, news)[m] == Stages(d, olds, news)[i][m]
  {
    LineageIsFold(d, olds, news);
    CombinedTakesEarliest(Stages(d, olds, news), m, i);
  }

  /** What the identical detector found is never replaced. */
  lemma IdenticalEntriesSurvive(d: Detectors, olds: set<MethodModel>, news: set<MethodModel>, m: MethodModel)
    requires m in IdenticalStage(d, olds, news)
    ensures m in LineageMapping(d, olds, news)
    ensures LineageMapping(d, olds, news)[m] == IdenticalStage(d, olds, news)[m]
  {
    assert EarliestHolder(Stages(d, olds, news), m, 0);
    LineagePriority(d, olds, news, m, 0);
  }

  lemma LineageKeys(d: Detectors, olds: set<MethodModel>, news: set<MethodModel>)
    ensures forall m :: m in LineageMapping(d, olds, news) <==>
      (m in IdenticalStage(d, olds, news) || m in RefactoringStage(d, olds, news).0
       || m in ArgumentStage(d, olds, news) || m in BodyStage(d, olds, news))
  {
    var s := Stages(d, olds, news);
    LineageIsFold(d, olds, news);
    CombinedKeys(s);
    forall m ensures m in KeysOf(s) <==> (m in s[0] || m in s[1] || m in s[2] || m in s[3]) {
      KeysOfMembers(s, m);
    }
  }

  /** The body-change detector sees only old methods no stage has mapped and new
      methods no stage has claimed as a destination. */
  lemma BodyStageInputsUnclaimed(d: Detectors, olds: set<MethodModel>, news: set<MethodModel>)
    ensures forall m :: m in BodyStageSources(d, olds, news) <==>
      (m in olds && m !in AfterArguments(d, olds, news))
    ensures forall m :: m in BodyStageCandidates(d, olds, news) <==>
      (m in news && forall k :: k in AfterArguments(d, olds, news) ==> AfterArguments(d, olds, news)[k].destination != m)
  {
    var mapped := AfterArguments(d, olds, news);
    forall m | m in news && m !in BodyStageCandidates(d, olds, news)
      ensures exists k :: k in mapped && mapped[k].destination == m
    {
      var x :| x in mapped.Values && x.destination == m;
      var k :| k in mapped && mapped[k] == x;
    }
  }

  /** No two old methods share a destination. */
  predicate DistinctDestinations(mapping: ModelMapping)
  {
    forall a, b :: a in mapping && b in mapping && a != b ==> mapping[a].destination != mapping[b].destination
  }

  /** A detector result honours the destinations already claimed when its own
      destinations are distinct and none of them is claimed. */
  predicate HonoursClaims(stage: ModelMapping, claimed: set<MethodModel>)
  {
    DistinctDestinations(stage) && forall k :: k in stage ==> stage[k].destination !in claimed
  }

  lemma {:induction false} PairCombined<K, V>(first: map<K, V>, second: map<K, V>)
    ensures Combined([first, second]) == first + (second - first.Keys)
  {
    assert [first, second][..1] == [first];
    assert [first][..0] == [];
    assert Combined([first]) == first;
  }

  lemma CombineKeepsDistinct(first: ModelMapping, second: ModelMapping)
    requires DistinctDestinations(first)
    requires HonoursClaims(second, Destinations(first.Values))
    ensures DistinctDestinations(Combined([first, second]))
  {
    PairCombined(first, second);
    var c := Combined([first, second]);
    forall a, b | a in c && b in c && a != b
      ensures c[a].destination != c[b].destination
    {
      if a in first && b !in first {
        assert first[a] in first.Values;
      } else if b in first && a !in first {
        assert first[b] in first.Values;
      }
    }
  }

  /**
   * No two old methods share a destination in a lineage only because the
   * detectors respect the claimed destinations they are given: the merge
   * itself does not enforce it. Under that assumption it holds of the merged
   * mapping.
   */
  lemma NoSharedDestination(d: Detectors, olds: set<MethodModel>, news: set<MethodModel>)
    requires HonoursClaims(IdenticalStage(d, olds, news), {})
    requires HonoursClaims(RefactoringStage(d, olds, news).0, Destinations(IdenticalStage(d, olds, news).Values))
    requires HonoursClaims(ArgumentStage(d, olds, news), Destinations(AfterRefactoring(d, olds, news).Values))
    requires DistinctDestinations(BodyStage(d, olds, news))
    requires forall k :: k in BodyStage(d, olds, news) ==> BodyStage(d, olds, news)[k].destination in BodyStageCandidates(d, olds, news)
    ensures DistinctDestinations(LineageMapping(d, olds, news))
  {
    CombineKeepsDistinct(IdenticalStage(d, olds, news), RefactoringStage(d, olds, news).0);
    CombineKeepsDistinct(AfterRefactoring(d, olds, news), ArgumentStage(d, olds, news));
    CombineKeepsDistinct(AfterArguments(d, olds, news), BodyStage(d, olds, news));
  }

  function Signatures(methods: set<MethodModel>): set<string>
  {
    set m | m in methods :: m.umlSignature
  }

  /** Lines 397-400: re-key the merged mapping by signature. Where two old
      methods share a signature, whichever the iteration reaches last wins. */
  method KeyBySignature(mapping: ModelMapping) returns (result: map<string, MethodMapping>)
    ensures result.Keys == Signatures(mapping.Keys)
    ensures forall s :: s in result ==> exists m :: m in mapping && m.umlSignature == s && result[s] == mapping[m]
  {
    result := map[];
    var todo := mapping.Keys;
    while todo != {}
      invariant todo <= mapping.Keys
      invariant result.Keys == Signatures(mapping.Keys - todo)
      invariant forall s :: s in result ==> exists m :: m in mapping && m.umlSignature == s && result[s] == mapping[m]
      decreases todo
    {
      var m :| m in todo;
      result := result[m.umlSignature := mapping[m]];
      todo := todo - {m};
    }
  }

  /** With one old method per signature, re-keying loses nothing. */
  lemma KeyBySignatureUnique(mapping: ModelMapping, result: map<string, MethodMapping>, m: MethodModel)
    requires forall a, b :: a in mapping && b in mapping && a.umlSignature == b.umlSignature ==> a == b
    requires result.Keys == Signatures(mapping.Keys)
    requires forall s :: s in result ==> exists m :: m in mapping && m.umlSignature == s && result[s] == mapping[m]
    requires m in mapping
    ensures m.umlSignature in result && result[m.umlSignature] == mapping[m]
  {
  }

  /** discoverMappingForProject, from the method universes of the two snapshots. */
  method DiscoverMappingForProject(d: Detectors, oldMethods: map<string, MethodModel>, newMethods: map<string, MethodModel>)
    returns (result: map<string, MethodMapping>)
    ensures var lineage := LineageMapping(d, oldMethods.Values, newMethods.Values);
      && result.Keys == Signatures(lineage.Keys)
      && forall s :: s in result ==> exists m :: m in lineage && m.umlSignature == s && result[s] == lineage[m]
  {
    var olds, news := oldMethods.Values, newMethods.Values;
    var mapping := d.identical(olds, news);
    var claimed := GetListOfDestinationMethods(mapping.Values);
    assert claimed == Destinations(mapping.Values);
    var refactoring := d.refactoring(olds, news, mapping.Keys, claimed);
    var refactoredClassFiles := refactoring.1;
    mapping := CombineMappings([mapping, refactoring.0]);
    assert mapping == AfterRefactoring(d, olds, news);
    claimed := GetListOfDestinationMethods(mapping.Values);
    assert claimed == Destinations(mapping.Values);
    var argumentChange := d.argumentChange(olds, news, mapping.Keys, claimed, refactoredClassFiles);
    mapping := CombineMappings([mapping, argumentChange]);
    assert mapping == AfterArguments(d, olds, news);
    claimed := GetListOfDestinationMethods(mapping.Values);
    assert claimed == Destinations(mapping.Values);
    var bodyChange := d.bodyChange(RemoveEntities(olds, mapping.Keys), RemoveEntities(news, claimed));
    mapping := CombineMappings([mapping, bodyChange]);
    result := KeyBySignature(mapping);
  }
}
