/** How bintail ends when something goes wrong.
    The program never returns an error to a caller: `usage`, `badfile` and
    `ioerror` print a diagnostic and exit with status 1. Here each of them is
    a `Died` outcome carrying the kind of failure and the path it names. */
module Outcomes {

  /** The fatal reports of the program. The message text is not modelled. */
  datatype Failure =
    | BadFile(path: string)  // `badfile`: a path could not be opened
    | IoError(path: string)  // `ioerror`: a fatal I/O error; the path is "" for `fsize`/`ltell`

  /** The answer of a call that may fail without ending the process (`fstat`). */
  datatype Option<+T> = None | Some(value: T)

  /** The result of a step that may end the process. */
  datatype Outcome<+T> = Ok(value: T) | Died(failure: Failure)

  function Min(a: int, b: int): int { if a <= b then a else b }

  function Max(a: int, b: int): int { if a <= b then b else a }
}
