/** Option and Result, and the Python exceptions that the modelled code raises
    or lets propagate. */
module Wrappers {

  datatype Option<+T> = None | Some(value: T) {
    function GetOr(default: T): T {
      match this
      case Some(v) => v
      case None => default
    }
  }

  datatype Result<+T, +E> = Success(value: T) | Failure(error: E)

  /** The exceptions that escape the modelled code. Each names the Python
      exception class it stands for. */
  datatype Error =
    | KeyError(key: string)                   // a topic-map node lacks "Dir" or "File"
    | FileNotFoundError(message: string)      // no default converter, or no asciidoctor
    | YamlError(message: string)              // the attributes document does not parse
    | TypeError(message: string)              // a non-string attribute key
    | AttributeError(message: string)         // the attributes document is not a mapping
    | ValueError(message: string)             // with_suffix on a path with an empty name
    | CalledProcessError(cmd: seq<string>)    // asciidoctor exited with a non-zero status
}
