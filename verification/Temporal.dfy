/** The shared point-in-time boundary. Instants are whole microseconds. */
module Temporal {
  import opened LookThrough

  datatype KnowledgeMode = HistoricalReconstruction | LiveSystemReplay

  datatype Boundary = Boundary(asOf: int, mode: KnowledgeMode)
  {
    /** None when the record belongs to the boundary. */
    function ExclusionReason(availableAt: int, recordedAt: int): Option<Exclusion>
      requires availableAt <= recordedAt
    {
      if availableAt > asOf then Some(SourceNotAvailable)
      else if mode == LiveSystemReplay && recordedAt > asOf then Some(RecordNotIngested)
      else None
    }

    predicate Includes(availableAt: int, recordedAt: int)
      requires availableAt <= recordedAt
    {
      ExclusionReason(availableAt, recordedAt).None?
    }
  }

  datatype Exclusion = SourceNotAvailable | RecordNotIngested

  /** Live replay also asks when a record was ingested; a record that is not available yet is excluded as that. */
  lemma ExclusionIs(b: Boundary, availableAt: int, recordedAt: int)
    requires availableAt <= recordedAt
    ensures b.ExclusionReason(availableAt, recordedAt) == Some(SourceNotAvailable) <==> b.asOf < availableAt
    ensures b.ExclusionReason(availableAt, recordedAt) == Some(RecordNotIngested) <==>
      b.mode == LiveSystemReplay && availableAt <= b.asOf < recordedAt
    ensures b.Includes(availableAt, recordedAt) <==>
      availableAt <= b.asOf && (b.mode == LiveSystemReplay ==> recordedAt <= b.asOf)
  {
  }
}
