/**
 * Vocabulary interpretation: a verbatim value for one of four Darwin Core terms is looked up in
 * that term's vocabulary, and the concept found is written, with its lineage, to the matching
 * field of the interpreted record.
 */
module VocabularyInterpreter {

  import opened Wrappers
  import opened AvroRecords

  /** The Darwin Core terms: the four backed by a vocabulary, and every other term by name. */
  datatype Term = LifeStage | EstablishmentMeans | DegreeOfEstablishment | Pathway | OtherTerm(name: string)

  /** A vocabulary concept. */
  datatype Concept = Concept(name: string)

  /** The result of a vocabulary lookup: the concept and its parents, nearest parent first. */
  datatype LookupConcept = LookupConcept(concept: Concept, parents: seq<string>)

  /** A vocabulary, as a lookup from a verbatim value to the concept it matches, if any. */
  datatype VocabularyLookup = VocabularyLookup(lookup: string -> Option<LookupConcept>)

  /** The vocabulary factory: for a term, its vocabulary, or None when the factory has none. */
  datatype FileVocabularyFactory = FileVocabularyFactory(getVocabularyLookup: Term -> Option<VocabularyLookup>)

  /** The exception setLookupConcept throws for a term without a setter. */
  datatype VocabularyError = IllegalArgument(term: Term)

  /** The four setters of BasicRecord that take a vocabulary concept. */
  datatype Setter = SetLifeStage | SetEstablishmentMeans | SetDegreeOfEstablishment | SetPathway
  {
    /** The record with this setter's field set to v, and no other field changed. */
    function Accept(br: BasicRecord, v: VocabularyConcept): (r: BasicRecord)
      ensures Field(r, this) == Some(v)
      ensures OnlyFieldChanged(br, r, this)
    {
      match this
      case SetLifeStage => br.(lifeStage := Some(v))
      case SetEstablishmentMeans => br.(establishmentMeans := Some(v))
      case SetDegreeOfEstablishment => br.(degreeOfEstablishment := Some(v))
      case SetPathway => br.(pathway := Some(v))
    }
  }

  /** The field a setter writes, read back from a record. */
  function Field(br: BasicRecord, s: Setter): Option<VocabularyConcept>
  {
    match s
    case SetLifeStage => br.lifeStage
    case SetEstablishmentMeans => br.establishmentMeans
    case SetDegreeOfEstablishment => br.degreeOfEstablishment
    case SetPathway => br.pathway
  }

  /** The setter table: each vocabulary term to the setter of its field. */
  const VocabularyFnMap: map<Term, Setter> := map[
    LifeStage := SetLifeStage,
    EstablishmentMeans := SetEstablishmentMeans,
    DegreeOfEstablishment := SetDegreeOfEstablishment,
    Pathway := SetPathway]

  /** after equals before except, possibly, in the field s writes. */
  ghost predicate OnlyFieldChanged(before: BasicRecord, after: BasicRecord, s: Setter)
  {
    && after.id == before.id
    && after.otherFields == before.otherFields
    && forall s' :: s' != s ==> Field(after, s') == Field(before, s')
  }

  /** The setter table holds exactly the four vocabulary terms, each mapped to its own field. */
  lemma VocabularyFnMapTerms(t: Term)
    ensures t in VocabularyFnMap <==> !t.OtherTerm?
    ensures t == LifeStage ==> VocabularyFnMap[t] == SetLifeStage
    ensures t == EstablishmentMeans ==> VocabularyFnMap[t] == SetEstablishmentMeans
    ensures t == DegreeOfEstablishment ==> VocabularyFnMap[t] == SetDegreeOfEstablishment
    ensures t == Pathway ==> VocabularyFnMap[t] == SetPathway
  {
  }

  /** s in reverse order. */
  function Reversed<T>(s: seq<T>): (r: seq<T>)
    ensures |r| == |s|
    ensures forall i :: 0 <= i < |s| ==> r[i] == s[|s| - 1 - i]
  {
    if |s| == 0 then [] else Reversed(s[1..]) + [s[0]]
  }

  /** Reversing twice gives back the original sequence. */
  lemma {:induction false} ReversedTwice<T>(s: seq<T>)
    ensures Reversed(Reversed(s)) == s
  {
    var r := Reversed(Reversed(s));
    assert forall i :: 0 <= i < |s| ==> r[i] == s[i];
  }

  /** The lineage: the parents from the top of the hierarchy down, then the concept itself. */
  function Lineage(c: LookupConcept): (lineage: seq<string>)
    ensures |lineage| == |c.parents| + 1
    ensures lineage[|c.parents|] == c.concept.name
    ensures forall i :: 0 <= i < |c.parents| ==> lineage[i] == c.parents[|c.parents| - 1 - i]
  {
    Reversed(c.parents) + [c.concept.name]
  }

  /** The parents can be read back from the lineage: drop the last entry and reverse. */
  lemma {:induction false} LineageRecoversParents(c: LookupConcept)
    ensures Reversed(Lineage(c)[..|c.parents|]) == c.parents
  {
    assert Lineage(c)[..|c.parents|] == Reversed(c.parents);
    ReversedTwice(c.parents);
  }

  /**
   * setLookupConcept: writes the concept, with its lineage, to the field of the given term,
   * and fails with IllegalArgument, leaving the record alone, for a term with no setter.
   */
  function SetLookupConcept(br: BasicRecord, term: Term, c: LookupConcept): (r: Result<BasicRecord, VocabularyError>)
    ensures r.Success? <==> term in VocabularyFnMap
    ensures r.Failure? ==> r.error == IllegalArgument(term)
    ensures r.Success? ==>
      && Field(r.value, VocabularyFnMap[term]) == Some(VocabularyConcept(c.concept.name, Lineage(c)))
      && OnlyFieldChanged(br, r.value, VocabularyFnMap[term])
  {
    if term in VocabularyFnMap then
      var parents := Reversed(c.parents) + [c.concept.name];
      var concept := VocabularyConcept(c.concept.name, parents);
      Success(VocabularyFnMap[term].Accept(br, concept))
    else
      Failure(IllegalArgument(term))
  }

  /**
   * The concept interpretVocabulary finds for a term: None when there is no factory, the
   * factory has no vocabulary for the term, the record has no value for it, or the value
   * matches no concept.
   */
  function FoundConcept(factory: Option<FileVocabularyFactory>, term: Term,
                        extract: (ExtendedRecord, Term) -> Option<string>,
                        er: ExtendedRecord): (found: Option<LookupConcept>)
    ensures found.Some? <==>
      && factory.Some?
      && factory.value.getVocabularyLookup(term).Some?
      && extract(er, term).Some?
      && factory.value.getVocabularyLookup(term).value.lookup(extract(er, term).value).Some?
    ensures found.Some? ==>
      found == factory.value.getVocabularyLookup(term).value.lookup(extract(er, term).value)
  {
    match factory
    case None => None
    case Some(f) =>
      match f.getVocabularyLookup(term)
      case None => None
      case Some(vocabulary) =>
        match extract(er, term)
        case None => None
        case Some(v) => vocabulary.lookup(v)
  }

  /**
   * interpretVocabulary(factory, term) applied to (er, br): the record is unchanged unless a
   * concept is found, in which case it is the result of setLookupConcept for that concept.
   * extract stands for extractNullAwareOptValue.
   */
  function InterpretVocabulary(factory: Option<FileVocabularyFactory>, term: Term,
                               extract: (ExtendedRecord, Term) -> Option<string>,
                               er: ExtendedRecord, br: BasicRecord): (r: Result<BasicRecord, VocabularyError>)
    ensures FoundConcept(factory, term, extract, er).None? ==> r == Success(br)
    ensures term in VocabularyFnMap ==> r.Success? && OnlyFieldChanged(br, r.value, VocabularyFnMap[term])
    ensures term !in VocabularyFnMap ==> (r.Failure? <==> FoundConcept(factory, term, extract, er).Some?)
    ensures FoundConcept(factory, term, extract, er).Some? ==>
      r == SetLookupConcept(br, term, FoundConcept(factory, term, extract, er).value)
  {
    match FoundConcept(factory, term, extract, er)
    case None => Success(br)
    case Some(c) => SetLookupConcept(br, term, c)
  }

  /** The value of a field after an interpretation that found the given concept, if any. */
  function Written(found: Option<LookupConcept>, current: Option<VocabularyConcept>): Option<VocabularyConcept>
  {
    match found
    case None => current
    case Some(c) => Some(VocabularyConcept(c.concept.name, Lineage(c)))
  }

  /** interpretLifeStage(factory) applied to (er, br): writes lifeStage only, and never fails. */
  function InterpretLifeStage(factory: Option<FileVocabularyFactory>,
                              extract: (ExtendedRecord, Term) -> Option<string>,
                              er: ExtendedRecord, br: BasicRecord): (r: BasicRecord)
    ensures OnlyFieldChanged(br, r, SetLifeStage)
    ensures r.lifeStage == Written(FoundConcept(factory, LifeStage, extract, er), br.lifeStage)
  {
    InterpretVocabulary(factory, LifeStage, extract, er, br).value
  }

  /** interpretEstablishmentMeans(factory) applied to (er, br): writes establishmentMeans only. */
  function InterpretEstablishmentMeans(factory: Option<FileVocabularyFactory>,
                                       extract: (ExtendedRecord, Term) -> Option<string>,
                                       er: ExtendedRecord, br: BasicRecord): (r: BasicRecord)
    ensures OnlyFieldChanged(br, r, SetEstablishmentMeans)
    ensures r.establishmentMeans ==
      Written(FoundConcept(factory, EstablishmentMeans, extract, er), br.establishmentMeans)
  {
    InterpretVocabulary(factory, EstablishmentMeans, extract, er, br).value
  }

  /** interpretDegreeOfEstablishment(factory) applied to (er, br): writes degreeOfEstablishment only. */
  function InterpretDegreeOfEstablishment(factory: Option<FileVocabularyFactory>,
                                          extract: (ExtendedRecord, Term) -> Option<string>,
                                          er: ExtendedRecord, br: BasicRecord): (r: BasicRecord)
    ensures OnlyFieldChanged(br, r, SetDegreeOfEstablishment)
    ensures r.degreeOfEstablishment ==
      Written(FoundConcept(factory, DegreeOfEstablishment, extract, er), br.degreeOfEstablishment)
  {
    InterpretVocabulary(factory, DegreeOfEstablishment, extract, er, br).value
  }

  /** interpretPathway(factory) applied to (er, br): writes pathway only. */
  function InterpretPathway(factory: Option<FileVocabularyFactory>,
                            extract: (ExtendedRecord, Term) -> Option<string>,
                            er: ExtendedRecord, br: BasicRecord): (r: BasicRecord)
    ensures OnlyFieldChanged(br, r, SetPathway)
    ensures r.pathway == Written(FoundConcept(factory, Pathway, extract, er), br.pathway)
  {
    InterpretVocabulary(factory, Pathway, extract, er, br).value
  }

  /** Interpreting the same term a second time changes nothing more. */
  lemma InterpretTwice(factory: Option<FileVocabularyFactory>, term: Term,
                       extract: (ExtendedRecord, Term) -> Option<string>,
                       er: ExtendedRecord, br: BasicRecord)
    requires term in VocabularyFnMap
    ensures var once := InterpretVocabulary(factory, term, extract, er, br).value;
      InterpretVocabulary(factory, term, extract, er, once) == Success(once)
  {
  }

  /** Interpretations of two different vocabulary terms can run in either order. */
  lemma InterpretationsCommute(factory: Option<FileVocabularyFactory>, t1: Term, t2: Term,
                               extract: (ExtendedRecord, Term) -> Option<string>,
                               er: ExtendedRecord, br: BasicRecord)
    requires t1 in VocabularyFnMap && t2 in VocabularyFnMap && t1 != t2
    ensures var a := InterpretVocabulary(factory, t1, extract, er, br).value;
            var b := InterpretVocabulary(factory, t2, extract, er, br).value;
      InterpretVocabulary(factory, t2, extract, er, a) == InterpretVocabulary(factory, t1, extract, er, b)
  {
  }
}
