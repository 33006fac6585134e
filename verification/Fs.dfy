/** Results of operations, and small definitions that several components share. */
module Fs {
  datatype FsError = BadFs | NotSupported | NotFound | NoSpace | Exists | IsDir

  datatype Result<+T> = Ok(value: T) | Err(error: FsError)

  datatype Option<+T> = None | Some(value: T)

  function Max(a: nat, b: nat): nat {
    if a < b then b else a
  }

  ghost function Elements(s: seq<nat>): set<nat> {
    set x | x in s
  }
}
