/**
 * What the environment code gets back from an external process and the exceptions it throws.
 * `Process::CODE_TIMEOUT` is a distinguished exit code, kept apart from every numeric code.
 */
module Process {

  datatype ExitCode = Code(n: int) | Timeout

  /** `isSuccessful()`, `getExitCode()` and `getErrorOutput()` of a finished process. */
  datatype ProcessResult = ProcessResult(successful: bool, exit: ExitCode, errorOutput: string)

  /** The exceptions thrown by the modelled code, each with its message. `Error` stands for PHP
      errors (an uninitialised typed property, a type error), which `catch (Exception)` does not
      catch. */
  datatype Failure =
    | EnvironmentException(msg: string)
    | ProcessException(msg: string)
    | InvalidArgumentException(msg: string)
    | FileNotFoundException(msg: string)
    | FileException(msg: string)
    | LogicException(msg: string)
    | Exception(msg: string)
    | Error(msg: string)

  /** Caught by `catch (Exception $e)`. */
  predicate IsException(f: Failure) {
    !f.Error?
  }

  /** A file that a path property may name: no path, a path that cannot be read, or the text. */
  datatype FileSource = NoPath | Unreadable | Text(content: string)
}
