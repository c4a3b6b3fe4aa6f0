/**
  Properties of the `parse_args` fold, each stated against a reference
  definition that does not mention the fold: the last occurrence of an
  option, whether an option occurs, the positions of an option, and the
  option list with its `-d` pairs removed.
 */
module ArgsProperties {
  import opened Usage
  import opened Args

  predicate Occurs(opts: seq<Opt>, flag: string)
  {
    exists i | 0 <= i < |opts| :: opts[i].flag == flag
  }

  /** What a search for an option finds: it never occurs, or the argument
      of its last occurrence. */
  datatype Lookup = Absent | LastSeen(arg: string)

  /** The value a setting ends with: the last argument seen, else `default`. */
  function OrDefault(l: Lookup, default: string): string
  {
    if l.LastSeen? then l.arg else default
  }

  /** The argument of the last pair with this flag, if there is one. */
  function LastArg(opts: seq<Opt>, flag: string): (r: Lookup)
    ensures r.Absent? <==> !Occurs(opts, flag)
    decreases |opts|
  {
    if |opts| == 0 then Absent
    else if opts[|opts| - 1].flag == flag then LastSeen(opts[|opts| - 1].arg)
    else LastArg(opts[..|opts| - 1], flag)
  }

  /** `LastArg` is the argument at the last index carrying the flag. */
  lemma {:induction false} LastArgIsLastOccurrence(opts: seq<Opt>, flag: string, i: nat)
    requires i < |opts| && opts[i].flag == flag
    requires forall j | i < j < |opts| :: opts[j].flag != flag
    ensures LastArg(opts, flag) == LastSeen(opts[i].arg)
    decreases |opts|
  {
    if i < |opts| - 1 {
      LastArgIsLastOccurrence(opts[..|opts| - 1], flag, i);
    }
  }

  /** The indices of the pairs carrying `flag`, in increasing order. */
  function Positions(opts: seq<Opt>, flag: string): (ps: seq<nat>)
    ensures forall k | 0 <= k < |ps| :: ps[k] < |opts| && opts[ps[k]].flag == flag
    ensures forall k, l | 0 <= k < l < |ps| :: ps[k] < ps[l]
    ensures forall i | 0 <= i < |opts| && opts[i].flag == flag :: i in ps
    decreases |opts|
  {
    if |opts| == 0 then []
    else Positions(opts[..|opts| - 1], flag) + if opts[|opts| - 1].flag == flag then [|opts| - 1] else []
  }

  /** The pidfile setting in effect just before pair `i` is processed. */
  function PidfileBefore(opts: seq<Opt>, i: nat): string
    requires i <= |opts|
  {
    OrDefault(LastArg(opts[..i], "-p"), DefaultPidfile)
  }

  /** The option pairs with every `-d` pair removed, order kept. */
  function WithoutDebug(opts: seq<Opt>): (r: seq<Opt>)
    ensures forall k | 0 <= k < |r| :: r[k].flag != "-d" && r[k] in opts
    ensures |r| + |Positions(opts, "-d")| == |opts|
    decreases |opts|
  {
    if |opts| == 0 then []
    else WithoutDebug(opts[..|opts| - 1]) + if opts[|opts| - 1].flag == "-d" then [] else [opts[|opts| - 1]]
  }

  /** `WithoutDebug` keeps every pair that is not `-d`. */
  lemma {:induction false} WithoutDebugKeepsOthers(opts: seq<Opt>, i: nat)
    requires i < |opts| && opts[i].flag != "-d"
    ensures opts[i] in WithoutDebug(opts)
    decreases |opts|
  {
    if i < |opts| - 1 {
      WithoutDebugKeepsOthers(opts[..|opts| - 1], i);
    }
  }

  /** Appending one pair to the input takes one more step of the fold. */
  lemma RunSnoc(opts: seq<Opt>, o: Opt)
    ensures Run(opts + [o]) ==
      if Run(opts).Exited? then Run(opts) else Step(Run(opts).st, o)
  {
    assert (opts + [o])[..|opts|] == opts;
  }

  /** Last occurrence wins: each of `-s`, `-m`, `-f`, `-p` leaves the argument
      of its last occurrence, or the default when it never occurs. */
  lemma {:induction false} LastWins(opts: seq<Opt>, f: Field)
    requires AllRecognised(opts)
    ensures Get(Run(opts).st.settings, f) == OrDefault(LastArg(opts, FlagOf(f)), Get(Defaults, f))
    decreases |opts|
  {
    if |opts| > 0 {
      LastWins(opts[..|opts| - 1], f);
    }
  }

  /** Last-wins in index form: the argument is stored verbatim from the last
      pair that carries the option. */
  lemma {:induction false} LastOccurrenceStored(opts: seq<Opt>, f: Field, i: nat)
    requires AllRecognised(opts)
    requires i < |opts| && opts[i].flag == FlagOf(f)
    requires forall j | i < j < |opts| :: opts[j].flag != FlagOf(f)
    ensures Get(Run(opts).st.settings, f) == opts[i].arg
  {
    LastWins(opts, f);
    LastArgIsLastOccurrence(opts, FlagOf(f), i);
  }

  /** An option that never occurs leaves its default in place. */
  lemma {:induction false} AbsentKeepsDefault(opts: seq<Opt>, f: Field)
    requires AllRecognised(opts)
    requires forall j | 0 <= j < |opts| :: opts[j].flag != FlagOf(f)
    ensures Get(Run(opts).st.settings, f) == Get(Defaults, f)
  {
    LastWins(opts, f);
  }

  /** The foreground flag is set exactly when some `-F` occurs. */
  lemma {:induction false} ForegroundIffOccurs(opts: seq<Opt>)
    requires AllRecognised(opts)
    ensures Run(opts).st.settings.foreground <==> Occurs(opts, "-F")
    decreases |opts|
  {
    if |opts| > 0 {
      var init := opts[..|opts| - 1];
      ForegroundIffOccurs(init);
      OccursSnoc(init, opts[|opts| - 1], "-F");
      assert init + [opts[|opts| - 1]] == opts;
    }
  }

  /** The logger is switched to debug level exactly when some `-d` occurs. */
  lemma {:induction false} DebugIffOccurs(opts: seq<Opt>)
    requires AllRecognised(opts)
    ensures Run(opts).st.debug <==> Occurs(opts, "-d")
    decreases |opts|
  {
    if |opts| > 0 {
      var init := opts[..|opts| - 1];
      DebugIffOccurs(init);
      OccursSnoc(init, opts[|opts| - 1], "-d");
      assert init + [opts[|opts| - 1]] == opts;
    }
  }

  lemma OccursSnoc(opts: seq<Opt>, o: Opt, flag: string)
    ensures Occurs(opts + [o], flag) <==> Occurs(opts, flag) || o.flag == flag
  {
    var all := opts + [o];
    if Occurs(all, flag) && o.flag != flag {
      var i :| 0 <= i < |all| && all[i].flag == flag;
      assert opts[i].flag == flag;
    }
    if Occurs(opts, flag) {
      var i :| 0 <= i < |opts| && opts[i].flag == flag;
      assert all[i].flag == flag;
    }
    if o.flag == flag {
      assert all[|opts|].flag == flag;
    }
  }

  /** `kills` holds one entry per `-z` of `opts`, in order, each the
      pidfile in effect at that `-z`. */
  predicate KillsAtPositions(kills: seq<string>, opts: seq<Opt>)
  {
    var ps := Positions(opts, "-z");
    && |kills| == |ps|
    && forall k | 0 <= k < |ps| :: kills[k] == PidfileBefore(opts, ps[k])
  }

  /** One kill target per `-z`, in order; each is the pidfile in effect at
      that `-z`'s position, so a later `-p` does not alter it. */
  lemma {:induction false} KillTargets(opts: seq<Opt>)
    requires AllRecognised(opts)
    ensures KillsAtPositions(Run(opts).st.kills, opts)
    decreases |opts|
  {
    if |opts| > 0 {
      var init := opts[..|opts| - 1];
      var st := Run(init).st;
      KillTargets(init);
      KillStep(opts);
      LastWins(init, Pidfile);
      assert st.settings.pidfile == PidfileBefore(opts, |opts| - 1);
      TargetsSnoc(opts, st.kills, st.settings.pidfile);
    }
  }

  /** Kill targets matching the `-z` positions of all but the last pair
      extend to all pairs when the last pair contributes the pidfile in
      effect before it. */
  lemma TargetsSnoc(opts: seq<Opt>, kills: seq<string>, pid: string)
    requires |opts| > 0
    requires KillsAtPositions(kills, opts[..|opts| - 1])
    requires pid == PidfileBefore(opts, |opts| - 1)
    ensures KillsAtPositions(kills + (if opts[|opts| - 1].flag == "-z" then [pid] else []), opts)
  {
    var ps := Positions(opts[..|opts| - 1], "-z");
    forall k | 0 <= k < |kills|
      ensures kills[k] == PidfileBefore(opts, ps[k])
    {
      PidfileBeforePrefix(opts, ps[k]);
    }
  }

  /** The last pair adds a kill target exactly when it is `-z`. */
  lemma KillStep(opts: seq<Opt>)
    requires |opts| > 0 && AllRecognised(opts)
    ensures var init, last := opts[..|opts| - 1], opts[|opts| - 1];
      && Run(opts).st.kills == Run(init).st.kills
           + (if last.flag == "-z" then [Run(init).st.settings.pidfile] else [])
      && Positions(opts, "-z") == Positions(init, "-z") + (if last.flag == "-z" then [|opts| - 1] else [])
  {
    assert AllRecognised(opts[..|opts| - 1]);
  }

  /** Before a position inside all but the last pair, the last pair is not yet seen. */
  lemma PidfileBeforePrefix(opts: seq<Opt>, i: nat)
    requires i < |opts|
    ensures PidfileBefore(opts, i) == PidfileBefore(opts[..|opts| - 1], i)
  {
    assert opts[..|opts| - 1][..i] == opts[..i];
  }

  /** Options appended after a prefix never alter the kills the prefix
      caused: the kill list only grows at its end, and kills performed
      before a usage exit stay performed. */
  lemma {:induction false} KillsOnlyGrow(opts: seq<Opt>, more: seq<Opt>)
    ensures Run(opts).st.kills <= Run(opts + more).st.kills
    decreases |more|
  {
    if |more| > 0 {
      var init := more[..|more| - 1];
      assert (opts + init) + [more[|more| - 1]] == opts + more;
      assert forall i | 0 <= i < |opts + init| :: (opts + init)[i] == (opts + more)[i];
      KillsOnlyGrow(opts, init);
      RunSnoc(opts + init, more[|more| - 1]);
    } else {
      assert opts + more == opts;
    }
  }

  /** `-d` influences nothing but the debug flag: dropping every `-d` pair
      gives the same outcome, settings, kills and output included. */
  lemma {:induction false} DebugIrrelevant(opts: seq<Opt>)
    ensures Run(WithoutDebug(opts)) == Run(opts).(st := Run(opts).st.(debug := false))
    decreases |opts|
  {
    if |opts| > 0 {
      var init, last := opts[..|opts| - 1], opts[|opts| - 1];
      DebugIrrelevant(init);
      var r := Run(init);
      if last.flag == "-d" {
        assert WithoutDebug(opts) == WithoutDebug(init);
      } else {
        assert WithoutDebug(opts) == WithoutDebug(init) + [last];
        RunSnoc(WithoutDebug(init), last);
        if r.Returned? {
          StepIgnoresDebug(r.st, last);
        }
      }
    }
  }

  /** A step other than `-d` does not look at the debug flag. */
  lemma StepIgnoresDebug(st: State, o: Opt)
    requires o.flag != "-d"
    ensures Step(st.(debug := false), o) == Step(st, o).(st := Step(st, o).st.(debug := false))
  {
  }

  /** The first unrecognised pair ends the process: its name is printed,
      then the help text, with exit status 0, and the effects of the pairs
      before it stay performed. */
  lemma {:induction false} FirstUnknownExits(opts: seq<Opt>, i: nat)
    requires i < |opts| && !Recognised(opts[i])
    requires AllRecognised(opts[..i])
    ensures Run(opts) == Exited(Run(opts[..i]).st, 0, [opts[i].flag], NoErr)
    decreases |opts|
  {
    if i < |opts| - 1 {
      var init := opts[..|opts| - 1];
      assert init[..i] == opts[..i];
      FirstUnknownExits(init, i);
    } else {
      assert opts[..|opts| - 1] == opts[..i];
    }
  }

  /** Example: the `-f` comma list is stored as one unsplit string. */
  lemma FilterListUnsplit()
    ensures Parse(Parsed([Opt("-f", "a,b")])).st.settings.modulefilter == "a,b"
  {
  }

  /** Example: each `-z` kills the pidfile current at its position. */
  lemma KillOrderExample()
    ensures Parse(Parsed([Opt("-z", ""), Opt("-p", "/run/p"), Opt("-z", "")])).st.kills
      == ["/tmp/clixon_pyserver.pid", "/run/p"]
  {
    var z, p := Opt("-z", ""), Opt("-p", "/run/p");
    RunSnoc([], z);
    RunSnoc([z], p);
    RunSnoc([z, p], z);
    assert [z] + [p] == [z, p];
    assert [z, p] + [z] == [z, p, z];
  }

  /** Whenever `parse_args` ends in `usage`, what it prints is the getopt
      error line and a blank line, or else the first unrecognised option
      name, followed by the help text; the exit status is 0. */
  lemma ExitOutput(name: string, g: Getopt, i: nat)
    requires g.Parsed? ==> i < |g.opts| && !Recognised(g.opts[i]) && AllRecognised(g.opts[..i])
    ensures Parse(g).Exited? && Parse(g).status == 0
    ensures Output(name, Parse(g)) ==
      (if g.GetoptError? then [name + ": " + g.msg, ""] else [g.opts[i].flag]) + HelpLines(name)
  {
    if g.Parsed? {
      FirstUnknownExits(g.opts, i);
    }
  }
}
