/**
 * The shared helper of src/lib.rs: `open_file`, which treats "-" as standard
 * input and reports a file it cannot open as "{filename}: {error}".
 *
 * File contents are handed to the model as values: an input is either a name
 * the operating system refused to open (with its error text) or the text read
 * from it.
 */
module Files {
  import Wrappers

  /** One input named on a command line, as `open_file` finds it. The name "-"
      (standard input) always opens. */
  datatype Input = Unopenable(name: string, ioError: string) | Opened(name: string, content: string)

  /** The error `open_file` returns for a file it cannot open. */
  function OpenError(name: string, ioError: string): (msg: string)
    ensures |msg| == |name| + 2 + |ioError|
    ensures msg[..|name|] == name && msg[|name| + 2..] == ioError
  {
    name + ": " + ioError
  }

  /** `open_file`: "-" reads standard input and always opens; any other name is
      opened as a file, and the system's refusal keeps the name. `fs` is what
      the file system gives for each name: the text read or the error. */
  function OpenFile(name: string, stdin: string, fs: string -> Wrappers.Result<string, string>): (r: Input)
    ensures r.name == name
    ensures name == "-" ==> r.Opened? && r.content == stdin
    ensures r.Unopenable? <==> name != "-" && fs(name).Err?
    ensures r.Unopenable? ==> r.ioError == fs(name).error
    ensures r.Opened? && name != "-" ==> r.content == fs(name).value
  {
    if name == "-" then Opened(name, stdin)
    else
      match fs(name)
      case Ok(content) => Opened(name, content)
      case Err(e) => Unopenable(name, e)
  }
}
