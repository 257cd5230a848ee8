/**
 * The environment the file-system resolver source runs in, made explicit: the files it
 * can read, the directories it can list, the JSON parser and the process working directory.
 */
module Host {
  import opened PosixPath

  /** JavaScript's `null`/`undefined` versus a value. */
  datatype Option<+T> = None | Some(value: T)

  /** The two fields of a compiled build artifact that the resolver inspects. */
  datatype Artifact = Artifact(sourcePath: string, contractName: string)

  /** The exceptions the host can raise. */
  datatype Failure =
    | ReadFailed(path: string)   // fs.readFileSync threw (missing file, permissions, ...)
    | ListFailed(dir: string)    // fs.readdirSync threw
    | ParseFailed(path: string)  // JSON.parse threw on the text read from `path`

  /** A call either returns a value or lets an exception escape. */
  datatype Outcome<+T> = Returned(value: T) | Threw(failure: Failure)

  /**
   * `files` maps each readable path, spelt as handed to the read call, to its text; a path
   * that is not a key cannot be read, whatever the reason. `listings` maps each listable
   * directory to its entries in the order the host gives them. `parseJson` is `JSON.parse`
   * restricted to artifact records: `None` when the text is not valid JSON.
   */
  datatype Env = Env(
    cwd: AbsolutePath,
    files: map<string, string>,
    listings: map<string, seq<string>>,
    parseJson: string -> Option<Artifact>)
}
