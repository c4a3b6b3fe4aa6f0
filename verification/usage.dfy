/**
  The `usage` helper of clixon/args.py: what it writes to standard output and
  the status it exits with. Output is modelled as the list of printed lines;
  the process exit as a status value carried by the caller's outcome.
 */
module Usage {

  /** The value bound to `err`: either a string (the default is the empty
      string), or the exception object that getopt raised, whose string form
      is its message. */
  datatype UsageErr = Text(s: string) | Raised(msg: string)

  /** What `usage()` is called with when no argument is given. */
  const NoErr: UsageErr := Text("")

  /** `usage` always ends the process with status 0, even after a parse error. */
  const UsageExitStatus: int := 0

  /** Python's `err != ""`: a string compares by content, while an exception
      object never equals a string. */
  predicate ShowsError(e: UsageErr)
  {
    match e
    case Text(s) => s != ""
    case Raised(_) => true
  }

  /** The text an f-string substitutes for `err`. */
  function Rendered(e: UsageErr): string
  {
    match e
    case Text(s) => s
    case Raised(m) => m
  }

  /** The fixed help block; `name` is the program name (`sys.argv[0]`). */
  function HelpLines(name: string): seq<string>
  {
    [ name + " -f<module1,module2> -s<path> -d -p<pidfile>"
    , "  -m       Modules path"
    , "  -f       Comma separate list of modules to exclude"
    , "  -d       Enable verbose debug logging"
    , "  -s       Clixon socket path"
    , "  -p       Pidfile for Python server"
    , "  -F       Run in foreground"
    , "  -h       This!"
    ]
  }

  /** The lines `usage(err)` prints before it exits: the help block, preceded
      by the error line and a blank line when `err` is shown. */
  function UsageLines(name: string, e: UsageErr): seq<string>
  {
    (if ShowsError(e) then [name + ": " + Rendered(e), ""] else []) + HelpLines(name)
  }

  /** A string `err` produces the error line exactly when it is non-empty. */
  lemma ErrorLineIffNonEmpty(name: string, s: string)
    ensures |UsageLines(name, Text(s))| > |HelpLines(name)| <==> s != ""
    ensures s != "" ==> UsageLines(name, Text(s))[..2] == [name + ": " + s, ""]
    ensures s == "" ==> UsageLines(name, Text(s)) == HelpLines(name)
    ensures UsageLines(name, Text(s))[|UsageLines(name, Text(s))| - |HelpLines(name)|..] == HelpLines(name)
  {
  }

  /** The getopt exception always produces the error line, carrying its message. */
  lemma RaisedErrorAlwaysShown(name: string, msg: string)
    ensures UsageLines(name, Raised(msg)) == [name + ": " + msg, ""] + HelpLines(name)
  {
  }
}
