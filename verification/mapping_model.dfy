/**
 * The entities the evolution analysis works on: the classification a
 * detector gives an ancestor method, the method itself as the analysis
 * observes it, and one mapping from an ancestor method to a method of a
 * later snapshot.
 */
module MappingModel {

  /** MethodMapping.Type. Added and Other only label the added-method row. */
  datatype MappingType =
    | Identical
    | Refactored
    | ArgumentsChange
    | BodyChangeOnly
    | NotFound
    | Added
    | Other

  /** Every value of the enumeration, each once. */
  const AllTypes: seq<MappingType> :=
    [Identical, Refactored, ArgumentsChange, BodyChangeOnly, NotFound, Added, Other]

  lemma AllTypesComplete(t: MappingType)
    ensures t in AllTypes
  {
  }

  /**
   * A method of one snapshot, through the three things the analysis asks of
   * it: getUMLFormSignature() (the key of the lineage mappings), toString()
   * (what destinations are compared by when looking for added methods) and
   * readFromFile() (its source text). They are independent here: nothing
   * makes the signature and the printed name coincide.
   */
  datatype MethodModel = MethodModel(umlSignature: string, display: string, text: string)

  /** One detector's verdict for one ancestor method. Equality is structural. */
  datatype MethodMapping = MethodMapping(source: MethodModel, destination: MethodModel, kind: MappingType)

  /** The classification of a key under a lineage mapping, NOT_FOUND when absent. */
  function TypeIn(mapping: map<string, MethodMapping>, key: string): MappingType
  {
    if key in mapping then mapping[key].kind else NotFound
  }
}
