/** Option, Result and the fates of file-system effects, shared by every module of the model. */
module Wrappers {

  datatype Option<+T> = None | Some(value: T)

  datatype Result<+T, +E> = Ok(value: T) | Err(error: E)

  /** What the file system does to one effect: it may fail or the machine may stop, before or after. */
  datatype Fate = Proceed | FailBefore | FailAfter | CrashBefore | CrashAfter
}
