/**
 Whole runs of the option parser, its caller's own moves of the index included,
 against a parse of the arguments that keeps no state.
 */
module GetoptRuns {
  import opened Getopt

  /** How many further arguments the caller demands and takes after an option with an argument. */
  datatype Caller = Caller(demands: map<char, nat>, takes: map<char, nat>) {
    function Demands(c: char): nat {
      if c in demands then demands[c] else 0
    }

    function Takes(c: char): (n: nat)
    {
      if c in takes && takes[c] <= Demands(c) then takes[c] else 0
    }
  }

  const PLAIN: Caller := Caller(map[], map[])

  // ----- The stateless parse -----

  /** The options, the number of arguments gone past, and whether it was the arguments
      that ran out. */
  datatype Parse = Parse(events: seq<Event>, used: nat, exhausted: bool)

  function Before(e: Event, p: Parse): Parse {
    Parse([e] + p.events, p.used, p.exhausted)
  }

  function Past(n: nat, p: Parse): Parse {
    Parse(p.events, n + p.used, p.exhausted)
  }

  /** The arguments from an option position on. */
  function ParseArgs(args: seq<string>, ostr: string, caller: Caller): (p: Parse)
    ensures p.used <= |args|
    decreases |args|, 1, 0
  {
    if args == [] then Parse([], 0, true)
    else if args[0] == "" || args[0][0] != '-' then Parse([], 0, false)
    else if args[0] == "-" then ParseCluster("-", args, ostr, caller)
    else if args[0][1] == '-' then Parse([], 1, false)
    else ParseCluster(args[0][1..], args, ostr, caller)
  }

  /** The letters of the first argument still to be parsed, then the other arguments. */
  function ParseCluster(letters: string, args: seq<string>, ostr: string, caller: Caller): (p: Parse)
    requires args != []
    ensures p.used <= |args|
    decreases |args|, 0, |letters|
  {
    if letters == "" then Past(1, ParseArgs(args[1..], ostr, caller))
    else
      var c := letters[0];
      if !IsOption(ostr, c) then
        if c == '-' then Parse([], 0, false)
        else Before(IllegalOption(c), ParseCluster(letters[1..], args, ostr, caller))
      else if !TakesArgument(ostr, c) then
        Before(Flag(c), ParseCluster(letters[1..], args, ostr, caller))
      else if |letters| > 1 then
        Past(1, ParseFurther(c, letters[1..], args[1..], ostr, caller))
      else if |args| == 1 then
        Parse([MissingArgument(c)], 1, false)
      else
        Past(2, ParseFurther(c, args[1], args[2..], ostr, caller))
  }

  /** The caller's share, after an option and its argument. */
  function ParseFurther(c: char, argument: string, args: seq<string>, ostr: string, caller: Caller): (p: Parse)
    ensures p.used <= |args|
    decreases |args|, 2, 0
  {
    if |args| < caller.Demands(c) then Parse([WithArgument(c, argument, []), TooFewArguments(c)], 0, false)
    else
      var n := caller.Takes(c);
      Before(WithArgument(c, argument, args[..n]), Past(n, ParseArgs(args[n..], ostr, caller)))
  }

  // ----- The run of calls -----

  /** What is left of the current argument. */
  function Left(s: State, argv: seq<string>): nat {
    if !s.optreset && s.place != "" then |s.place|
    else if s.optind < |argv| then |argv[s.optind]|
    else 0
  }

  function ArgumentsLeft(s: State, argv: seq<string>): nat {
    if s.optind < |argv| then |argv| - s.optind else 0
  }

  /** The index is within the arguments, and the scanning pointer, if it is in use, is
      inside the argument the index is at. */
  predicate Sane(s: State, argv: seq<string>) {
    s.optind <= |argv| && (s.place == "" || s.optind < |argv|)
  }

  predicate Fresh(s: State) {
    s.optreset || s.place == ""
  }

  /** Every call that returns an option goes past an argument, or past a letter, and
      never moves the index beyond the arguments. */
  lemma StepProgress(s: State, argv: seq<string>, ostr: string)
    requires Sane(s, argv)
    ensures var (t, a) := Step(s, argv, ostr);
            && Sane(t, argv) && s.optind <= t.optind && !t.optreset
            && (a.Got? && a.event.WithArgument? ==> t.place == "")
            && (a.Got? ==>
                  || ArgumentsLeft(t, argv) < ArgumentsLeft(s, argv)
                  || (ArgumentsLeft(t, argv) == ArgumentsLeft(s, argv) && Left(t, argv) < Left(s, argv)))
  {
  }

  /** The calls of one loop, with the caller's moves of the index in between. */
  function Run(s: State, argv: seq<string>, ostr: string, caller: Caller): (r: (seq<Event>, State))
    requires Sane(s, argv)
    ensures Sane(r.1, argv)
    decreases ArgumentsLeft(s, argv), Left(s, argv)
  {
    StepProgress(s, argv, ostr);
    var (t, a) := Step(s, argv, ostr);
    if a.Done? then ([], t)
    else if !a.event.WithArgument? then
      var (events, u) := Run(t, argv, ostr, caller);
      ([a.event] + events, u)
    else if t.optind + caller.Demands(a.event.letter) > |argv| then
      ([a.event, TooFewArguments(a.event.letter)], t)
    else
      var n := caller.Takes(a.event.letter);
      var (events, u) := Run(t.(optind := t.optind + n), argv, ostr, caller);
      ([a.event.(further := argv[t.optind..t.optind + n])] + events, u)
  }

  lemma FreshStep(s: State, argv: seq<string>, ostr: string, caller: Caller)
    requires Sane(s, argv) && Fresh(s)
    ensures var args := argv[s.optind..];
            if AtOption(argv, s.optind) && !(|args[0]| > 1 && args[0][1] == '-') then
              var u := s.(optreset := false, place := if |args[0]| > 1 then args[0][1..] else args[0]);
              && Step(s, argv, ostr) == Step(u, argv, ostr) && !Fresh(u) && Sane(u, argv)
              && Left(u, argv) <= Left(s, argv)
              && ParseArgs(args, ostr, caller) == ParseCluster(u.place, args, ostr, caller)
            else
              var (t, a) := Step(s, argv, ostr);
              && a.Done? && ParseArgs(args, ostr, caller).events == []
              && t.optind == s.optind + ParseArgs(args, ostr, caller).used
  {
    hide ParseCluster, Scan;
  }

  lemma ClusterStep(s: State, argv: seq<string>, ostr: string, caller: Caller)
    requires Sane(s, argv) && !Fresh(s)
    ensures s.optind <= Step(s, argv, ostr).0.optind <= |argv|
    ensures var args := argv[s.optind..];
            var (t, a) := Step(s, argv, ostr);
            ParseCluster(s.place, args, ostr, caller) ==
            if a.Done? then Parse([], t.optind - s.optind, false)
            else if a.event.WithArgument? then
              Past(t.optind - s.optind, ParseFurther(a.event.letter, a.event.argument, argv[t.optind..], ostr, caller))
            else if a.event.MissingArgument? then Parse([a.event], t.optind - s.optind, false)
            else if t.place == "" then Before(a.event, Past(1, ParseArgs(argv[t.optind..], ostr, caller)))
            else Before(a.event, ParseCluster(t.place, args, ostr, caller))
    ensures var (t, a) := Step(s, argv, ostr);
            a.Got? ==>
              && (a.event.MissingArgument? ==> t.place == "" && t.optind == |argv|)
              && (a.event.Flag? || a.event.IllegalOption? ==> t.optind == s.optind + if t.place == "" then 1 else 0)
              && !a.event.TooFewArguments?
              && (a.event.WithArgument? ==> a.event.further == [])
  {
    hide ParseArgs, ParseFurther;
    var args := argv[s.optind..];
    assert args[1..] == argv[s.optind + 1..];
    if s.optind + 2 <= |argv| {
      assert args[2..] == argv[s.optind + 2..] && args[1] == argv[s.optind + 1];
    }
  }

  /** Repeated calls, with the caller's moves of the index, yield exactly the options of
      the stateless parse, and leave the index exactly where that parse stops. */
  lemma {:induction false} RunIsParse(s: State, argv: seq<string>, ostr: string, caller: Caller)
    requires Sane(s, argv) && Fresh(s)
    ensures var (events, t) := Run(s, argv, ostr, caller);
            var p := ParseArgs(argv[s.optind..], ostr, caller);
            events == p.events && t.optind == s.optind + p.used
    decreases ArgumentsLeft(s, argv), Left(s, argv), 1
  {
    hide Step, ParseArgs, ParseCluster;
    FreshStep(s, argv, ostr, caller);
    if AtOption(argv, s.optind) && !(|argv[s.optind]| > 1 && argv[s.optind][1] == '-') {
      var arg := argv[s.optind];
      ClusterRunIsParse(s.(optreset := false, place := if |arg| > 1 then arg[1..] else arg), argv, ostr, caller);
    }
  }

  /** The same from any point inside a cluster of letters. */
  lemma {:induction false} ClusterRunIsParse(s: State, argv: seq<string>, ostr: string, caller: Caller)
    requires Sane(s, argv) && !Fresh(s)
    ensures var (events, t) := Run(s, argv, ostr, caller);
            var p := ParseCluster(s.place, argv[s.optind..], ostr, caller);
            events == p.events && t.optind == s.optind + p.used
    decreases ArgumentsLeft(s, argv), Left(s, argv), 0
  {
    hide Step, ParseArgs, ParseCluster, ParseFurther, AtOption;
    StepProgress(s, argv, ostr);
    ClusterStep(s, argv, ostr, caller);
    var (t, a) := Step(s, argv, ostr);
    if a.Done? {
    } else if a.event.WithArgument? {
      FurtherRunIsParse(a.event, t, argv, ostr, caller);
    } else if Fresh(t) {
      RunIsParse(t, argv, ostr, caller);
      if a.event.MissingArgument? {
        assert argv[t.optind..] == [];
        NoArguments(ostr, caller);
      }
    } else {
      ClusterRunIsParse(t, argv, ostr, caller);
    }
  }

  /** The same after an option with an argument, from the caller's own move on. */
  lemma {:induction false} FurtherRunIsParse(e: Event, t: State, argv: seq<string>, ostr: string, caller: Caller)
    requires e.WithArgument? && e.further == [] && Sane(t, argv) && t.place == ""
    ensures var c, n := e.letter, caller.Takes(e.letter);
            var p := ParseFurther(c, e.argument, argv[t.optind..], ostr, caller);
            if t.optind + caller.Demands(c) > |argv| then p == Parse([e, TooFewArguments(c)], 0, false)
            else
              var (events, u) := Run(t.(optind := t.optind + n), argv, ostr, caller);
              p.events == [e.(further := argv[t.optind..t.optind + n])] + events && u.optind == t.optind + p.used
    decreases ArgumentsLeft(t, argv), Left(t, argv), 2
  {
    hide Step, ParseArgs, ParseFurther, Run;
    FurtherStep(e.letter, e.argument, argv, t.optind, ostr, caller);
    if t.optind + caller.Demands(e.letter) <= |argv| {
      RunIsParse(t.(optind := t.optind + caller.Takes(e.letter)), argv, ostr, caller);
    }
  }

  lemma FurtherStep(c: char, argument: string, argv: seq<string>, i: nat, ostr: string, caller: Caller)
    requires i <= |argv|
    ensures ParseFurther(c, argument, argv[i..], ostr, caller) ==
            if i + caller.Demands(c) > |argv| then Parse([WithArgument(c, argument, []), TooFewArguments(c)], 0, false)
            else
              var n := caller.Takes(c);
              Before(WithArgument(c, argument, argv[i..i + n]), Past(n, ParseArgs(argv[i + n..], ostr, caller)))
  {
    hide ParseArgs;
    if i + caller.Demands(c) <= |argv| {
      var n := caller.Takes(c);
      assert argv[i..][n..] == argv[i + n..] && argv[i..][..n] == argv[i..i + n];
    }
  }

  lemma NoArguments(ostr: string, caller: Caller)
    ensures ParseArgs([], ostr, caller) == Parse([], 0, true)
  {
  }
}
