/** Results and the error kinds the typing pipeline can end in. */
module Outcomes {

  /** Why an operation failed; every Python exception of the core maps to one of these. */
  datatype Error =
    | InvalidPatternConfig(field: string)  // a pattern field was empty or whitespace-only
    | DecomposeError                       // an allele name does not fit the grammar or its locus is unknown
    | ScoreError                           // an MD token that is neither `^...`, alphabetic nor a digit string
    | PoolSizeError                        // a process pool was asked for fewer than one worker
    | NoScorableCandidates                 // stage one produced no score table
    | NoScorableGenes                      // stage two produced no score table
    | NoAllelesToType                      // no reference name survived the population filter
    | ReadGroupError                       // more than one read group, or a missing or empty SM
    | NoReadGroup                          // no read group at all: `next` raises StopIteration, which is not handled
    | MissingField(field: string)          // a record lacks QUAL, QNAME, CIGAR or MD (TypeError)

  datatype Result<+T> = Ok(value: T) | Err(error: Error) {
    predicate IsFailure() { Err? }
    function PropagateFailure<U>(): Result<U>
      requires Err?
    {
      Err(error)
    }
    function Extract(): T
      requires Ok?
    {
      value
    }
  }

  datatype Option<+T> = None | Some(value: T)
}
