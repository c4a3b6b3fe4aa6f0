/**
  The command-line option fold of `parse_args` in clixon/args.py.

  getopt has already split the argument vector into `(opt, arg)` pairs for the
  option string "ds:f:p:m:Fz" (or raised an error). The fold starts from five
  defaults and lets each pair update one field. Its side effects are explicit
  values: `-d` sets a debug flag, `-z` appends the pidfile in effect at that
  point to a list of kill targets, and a call to `usage` ends the fold with
  the printed lines and exit status 0.
 */
module Args {
  import opened Usage

  /** One `(opt, arg)` pair from getopt; `arg` is "" for options without a value. */
  datatype Opt = Opt(flag: string, arg: string)

  /** What getopt produced: the option pairs, or the error it raised. The
      positional arguments it also returns are never read by `parse_args`. */
  datatype Getopt = Parsed(opts: seq<Opt>) | GetoptError(msg: string)

  /** The 5-tuple `parse_args` returns. */
  datatype Settings = Settings(
    sockpath: string,
    modulepath: string,
    modulefilter: string,
    pidfile: string,
    foreground: bool)

  /** The settings together with the effects the fold has performed so far:
      whether the logger was switched to debug level, and the pidfiles that
      `kill` was called on, oldest first. */
  datatype State = State(settings: Settings, debug: bool, kills: seq<string>)

  /** How the fold ends: it returns its state, or `usage(err)` ends the
      process with `status`, after the loop itself printed the lines `echoed`.
      `st` in `Exited` is the state at that moment, so its effects are the
      ones already performed. */
  datatype Outcome =
    | Returned(st: State)
    | Exited(st: State, status: int, echoed: seq<string>, err: UsageErr)

  const OptString: string := "ds:f:p:m:Fz"

  /** The option names getopt can report for `OptString`. */
  const Flags: set<string> := {"-d", "-s", "-f", "-p", "-m", "-F", "-z"}

  const DefaultSockPath: string := "/usr/local/var/controller.sock"
  const DefaultPidfile: string := "/tmp/clixon_pyserver.pid"
  const DefaultModulePath: string := "./modules/"
  const DefaultModuleFilter: string := ""

  const Defaults: Settings :=
    Settings(DefaultSockPath, DefaultModulePath, DefaultModuleFilter, DefaultPidfile, false)

  /** Before the first option: defaults, no debug, nothing killed. */
  const Start: State := State(Defaults, false, [])

  /** The four string-valued settings, each set by one option. */
  datatype Field = SockPath | ModulePath | ModuleFilter | Pidfile

  function FlagOf(f: Field): string
  {
    match f
    case SockPath => "-s"
    case ModulePath => "-m"
    case ModuleFilter => "-f"
    case Pidfile => "-p"
  }

  function Get(s: Settings, f: Field): string
  {
    match f
    case SockPath => s.sockpath
    case ModulePath => s.modulepath
    case ModuleFilter => s.modulefilter
    case Pidfile => s.pidfile
  }

  /** Every flag getopt can report is an option letter of `OptString`. */
  lemma FlagsMatchOptString()
    ensures |Flags| == 7
    ensures forall fl | fl in Flags :: |fl| == 2 && fl[0] == '-' && fl[1] in OptString && fl[1] != ':'
    ensures forall c | c in OptString && c != ':' :: ['-', c] in Flags
  {
  }

  predicate Recognised(o: Opt)
  {
    o.flag in Flags
  }

  predicate AllRecognised(opts: seq<Opt>)
  {
    forall i | 0 <= i < |opts| :: Recognised(opts[i])
  }

  /** One iteration of the loop over the option pairs. */
  function Step(st: State, o: Opt): (r: Outcome)
    ensures r.Returned? <==> Recognised(o)
    ensures r.Exited? ==> r.st == st && r.status == UsageExitStatus
    ensures r.Exited? ==> r.echoed == [o.flag] && r.err == NoErr
    ensures forall f: Field :: Get(r.st.settings, f) == if o.flag == FlagOf(f) then o.arg else Get(st.settings, f)
    ensures r.st.settings.foreground <==> st.settings.foreground || o.flag == "-F"
    ensures r.st.debug <==> st.debug || o.flag == "-d"
    ensures r.st.kills == st.kills + if o.flag == "-z" then [st.settings.pidfile] else []
  {
    var s := st.settings;
    if o.flag == "-d" then Returned(st.(debug := true))
    else if o.flag == "-s" then Returned(st.(settings := s.(sockpath := o.arg)))
    else if o.flag == "-f" then Returned(st.(settings := s.(modulefilter := o.arg)))
    else if o.flag == "-p" then Returned(st.(settings := s.(pidfile := o.arg)))
    else if o.flag == "-m" then Returned(st.(settings := s.(modulepath := o.arg)))
    else if o.flag == "-F" then Returned(st.(settings := s.(foreground := true)))
    else if o.flag == "-z" then Returned(st.(kills := st.kills + [s.pidfile]))
    else Exited(st, UsageExitStatus, [o.flag], NoErr)
  }

  /** The fold over the option pairs, stated from the last pair backwards:
      the outcome after `opts` is one step past the outcome after all but
      the last pair, unless that outcome already ended the process. */
  function Run(opts: seq<Opt>): (r: Outcome)
    ensures r.Returned? <==> AllRecognised(opts)
    ensures r.Exited? ==> r.status == UsageExitStatus
    decreases |opts|
  {
    if |opts| == 0 then Returned(Start)
    else
      var prev := Run(opts[..|opts| - 1]);
      if prev.Exited? then prev else Step(prev.st, opts[|opts| - 1])
  }

  /** Once `usage` has ended the process, later pairs change nothing. */
  lemma {:induction false} ExitIsFinal(opts: seq<Opt>, n: nat)
    requires n <= |opts|
    requires Run(opts[..n]).Exited?
    ensures Run(opts) == Run(opts[..n])
    decreases |opts|
  {
    if n < |opts| {
      var init := opts[..|opts| - 1];
      assert init[..n] == opts[..n];
      ExitIsFinal(init, n);
    } else {
      assert opts[..n] == opts;
    }
  }

  /** `parse_args`: a getopt error goes to `usage(err=e)`, otherwise the fold runs. */
  function Parse(g: Getopt): (r: Outcome)
    ensures g == Parsed([]) ==>
      r == Returned(State(
        Settings("/usr/local/var/controller.sock", "./modules/", "", "/tmp/clixon_pyserver.pid", false),
        false, []))
    ensures g.GetoptError? ==>
      r.Exited? && r.st == Start && r.status == 0 && r.echoed == [] && ShowsError(r.err) && Rendered(r.err) == g.msg
    ensures g.Parsed? ==> (r.Returned? <==> AllRecognised(g.opts))
    ensures r.Exited? ==> r.status == 0
  {
    match g
    case GetoptError(msg) => Exited(Start, UsageExitStatus, [], Raised(msg))
    case Parsed(opts) => Run(opts)
  }

  /** `parse_args` as the source writes it: a loop over the pairs that
      leaves early when `usage` is reached. */
  method ParseArgs(g: Getopt) returns (r: Outcome)
    ensures r == Parse(g)
  {
    if g.GetoptError? {
      return Exited(Start, UsageExitStatus, [], Raised(g.msg));
    }
    var opts := g.opts;
    var st := Start;
    for i := 0 to |opts|
      invariant Run(opts[..i]) == Returned(st)
    {
      assert opts[..i + 1][..i] == opts[..i];
      var next := Step(st, opts[i]);
      if next.Exited? {
        ExitIsFinal(opts, i + 1);
        return next;
      }
      st := next.st;
    }
    assert opts[..|opts|] == opts;
    r := Returned(st);
  }

  /** Everything written to standard output before the process exits:
      the loop's own lines, then what `usage` prints. */
  function Output(name: string, r: Outcome): seq<string>
    requires r.Exited?
  {
    r.echoed + UsageLines(name, r.err)
  }

  /** A getopt error (which is how `-h` and unknown letters arrive) prints
      the program name and the error message, then the help text, and
      exits 0. */
  lemma GetoptErrorOutput(name: string, msg: string)
    ensures Parse(GetoptError(msg)).status == 0
    ensures Output(name, Parse(GetoptError(msg))) == [name + ": " + msg, ""] + HelpLines(name)
  {
  }

  /** The loop's own `else` branch prints the option name, then the help
      text with no error line, because `usage()` is called without `err`. */
  lemma UnknownOptionOutput(name: string, st: State, o: Opt)
    requires !Recognised(o)
    ensures Output(name, Step(st, o)) == [o.flag] + HelpLines(name)
  {
  }
}
