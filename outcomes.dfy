/** Success or failure of one stage of the pipeline. The source signals every failure by an
    `EmptyStackException` that the window catches; the model keeps only the fact that it failed. */
module Outcomes {
  datatype Result<T> = Ok(value: T) | Failure
}
