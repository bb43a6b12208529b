/** What several modules share: a value that may be missing, a call that may fail, the name of a
    dataset and the smaller of two numbers. */
module Wrappers {

  datatype Option<+T> = None | Some(value: T)

  datatype Result<+T> = Ok(value: T) | Failed

  datatype DatasetRef = DatasetRef(app: string, name: string)

  function Min(a: nat, b: nat): nat { if a <= b then a else b }
}
