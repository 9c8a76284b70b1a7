/** Optional values and stage results shared by the scorebook model. */
module Common {

  /** An optional value: `None` stands for "nothing found". */
  datatype Option<+T> = None | Some(value: T)

  /** The outcome of a stage of the script: a value, or the uncaught
      Python exception (named by `error`) that would end the run. */
  datatype Result<+T> = Ok(value: T) | Err(error: string)
}
