/**
 * The record types the two components exchange: the verbatim ExtendedRecord read from an archive,
 * the interpreted BasicRecord and the VocabularyConcept stored in it.
 */
module AvroRecords {

  import opened Wrappers

  /** A verbatim record. Only its identifier is modelled; its terms are read through an abstract extractor. */
  datatype ExtendedRecord = ExtendedRecord(id: string)

  /** A vocabulary value as stored in an interpreted record: the concept's name and its lineage. */
  datatype VocabularyConcept = VocabularyConcept(concept: string, lineage: seq<string>)

  /**
   * The interpreted basic record: the four vocabulary-backed fields (null in Java is None here),
   * the identifier, and the record's remaining fields by name.
   */
  datatype BasicRecord = BasicRecord(
    id: string,
    lifeStage: Option<VocabularyConcept>,
    establishmentMeans: Option<VocabularyConcept>,
    degreeOfEstablishment: Option<VocabularyConcept>,
    pathway: Option<VocabularyConcept>,
    otherFields: map<string, string>)
}
