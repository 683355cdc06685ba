/**
 * The preprocessor's error taxonomy and its `Result` alias.
 */
module Errors {

  datatype Error =
    | InvalidMath(reason: string, element: string, line: nat)  // latex compile failure, from its log
    | InvalidReference(message: string)                         // unresolved or unknown inline reference
    | InvalidBibliography(message: string)                      // bib2xhtml reported errors
    | InvalidDvisvgm(message: string)                           // dvisvgm failed
    | BinaryNotFound(binary: string)                            // an external tool is not on the PATH
    | UnevenNumberDollar                                        // odd number of `$` on a line
    | Io(message: string)                                       // a filesystem operation failed

  datatype Result<+T> = Ok(value: T) | Err(error: Error)
}
