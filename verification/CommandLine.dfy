/** The option loop of the demo's main function. */
module CommandLine {
  import opened Words
  import opened Getopt
  import opened GetoptRuns
  import opened GetoptLaws

  const OPTIONS: string := "c:k:p:v:1rhzi:s:l:m:t:"

  /** -s and -i read one and two further arguments; -v and -l only insist that there is
      at least one more. */
  const MAIN: Caller := Caller(map['v' := 1, 'l' := 1, 's' := 1, 'i' := 2], map['s' := 1, 'i' := 2])

  /** The caller that demands no more than it reads. */
  const LAX: Caller := Caller(map['s' := 1, 'i' := 2], map['s' := 1, 'i' := 2])

  /** An unsigned long, taken as 64 bits wide. */
  type Word = n: nat | n <= 0xFFFF_FFFF_FFFF_FFFF

  function Complement(n: Word): Word {
    0xFFFF_FFFF_FFFF_FFFF - n
  }

  /** The conversions the loop calls, and the largest packet size. */
  datatype Library = Library(
    atoi: string -> int,
    strtoul: string -> Word,
    parseTargetVersion: string -> nat,
    maxPacketSize: int)

  datatype Settings = Settings(
    certFile: Option<string>,
    keyFile: Option<string>,
    logFile: Option<string>,
    serverPort: int,
    proposedVersion: nat,
    justOnce: bool,
    doHrr: bool,
    forceZeroShare: bool,
    handshakeTiming: bool,
    resetSeed: Option<(Word, Word)>,
    cnxId: Option<(int, Word, Word)>,
    mtuMax: int,
    serverName: Option<string>)

  const DEFAULTS: Settings :=
    Settings(None, None, None, 4443, 0xFF000009, false, false, false, false, None, None, 0, None)

  /** The settings after one option, or none when the program prints its usage and exits. */
  function Apply(s: Settings, e: Event, lib: Library): Option<Settings> {
    match e
    case TooFewArguments(_) => None
    case IllegalOption(_) => Some(s)
    case MissingArgument(_) => Some(s)
    case Flag(c) =>
      if c == '1' then Some(s.(justOnce := true))
      else if c == 'r' then Some(s.(doHrr := true))
      else if c == 'z' then Some(s.(forceZeroShare := true))
      else if c == 'h' then None
      else Some(s)
    case WithArgument(c, argument, further) =>
      if c == 'c' then Some(s.(certFile := Some(argument)))
      else if c == 'k' then Some(s.(keyFile := Some(argument)))
      else if c == 'p' then
        if lib.atoi(argument) <= 0 then None else Some(s.(serverPort := lib.atoi(argument)))
      else if c == 'v' then
        if lib.parseTargetVersion(argument) == 0 then None
        else Some(s.(proposedVersion := lib.parseTargetVersion(argument)))
      else if c == 's' then
        if |further| < 1 then None
        else Some(s.(resetSeed := Some((lib.strtoul(further[0]), lib.strtoul(further[0])))))
      else if c == 'i' then
        if |further| < 2 then None
        else Some(s.(cnxId := Some((lib.atoi(argument), Complement(lib.strtoul(further[0])), lib.strtoul(further[1])))))
      else if c == 'l' then Some(s.(logFile := Some(argument)))
      else if c == 'm' then
        if lib.atoi(argument) <= 0 || lib.atoi(argument) > lib.maxPacketSize then None
        else Some(s.(mtuMax := lib.atoi(argument)))
      else if c == 't' then Some(s.(handshakeTiming := true))
      else Some(s)
  }

  function ApplyAll(s: Settings, events: seq<Event>, lib: Library): Option<Settings>
    decreases |events|
  {
    if events == [] then Some(s)
    else
      var t := Apply(s, events[0], lib);
      if t.None? then None else ApplyAll(t.value, events[1..], lib)
  }

  /** After the options: an operand is the server's name, a second one its port. */
  function Operands(s: Settings, args: seq<string>, lib: Library): Option<Settings> {
    if args == [] then Some(s)
    else
      var named := s.(serverName := Some(args[0]));
      if |args| == 1 then Some(named)
      else if lib.atoi(args[1]) <= 0 then None
      else Some(named.(serverPort := lib.atoi(args[1])))
  }

  function Interpret(s: Settings, events: seq<Event>, operands: seq<string>, lib: Library): Option<Settings> {
    var t := ApplyAll(s, events, lib);
    if t.None? then None else Operands(t.value, operands, lib)
  }

  /** What arguments mean on top of some settings, without any parser state. */
  function MeaningFrom(s: Settings, args: seq<string>, lib: Library): Option<Settings> {
    var p := ParseArgs(args, OPTIONS, MAIN);
    Interpret(s, p.events, args[p.used..], lib)
  }

  /** What a command line means. */
  function Meaning(argv: seq<string>, lib: Library): Option<Settings>
    requires argv != []
  {
    MeaningFrom(DEFAULTS, argv[1..], lib)
  }

  // ----- The loop -----

  lemma OptionLetters(c: char)
    ensures TakesArgument(OPTIONS, c) ==> c in "ckpvislmt"
    ensures IsOption(OPTIONS, c) && !TakesArgument(OPTIONS, c) ==> c in "1rhz"
  {
    var i := IndexOf(OPTIONS, c);
    assert |OPTIONS| == 22;
    assert i < 22 ==> OPTIONS[i] == c;
  }

  lemma LetterAt(c: char, k: nat)
    requires k < |OPTIONS| && OPTIONS[k] == c && c !in OPTIONS[..k]
    ensures IndexOf(OPTIONS, c) == k && (c != ':' ==> IsOption(OPTIONS, c))
    ensures TakesArgument(OPTIONS, c) <==> c != ':' && k + 1 < |OPTIONS| && OPTIONS[k + 1] == ':'
  {
    hide IndexOf;
  }

  lemma LettersWithArgument()
    ensures forall c :: c in "ckpvislmt" ==> TakesArgument(OPTIONS, c)
  {
    hide IndexOf, IsOption, TakesArgument;
    LetterAt('c', 0);
    LetterAt('k', 2);
    LetterAt('p', 4);
    LetterAt('v', 6);
    LaterLettersWithArgument();
  }

  lemma LaterLettersWithArgument()
    ensures forall c :: c in "islmt" ==> TakesArgument(OPTIONS, c)
  {
    hide IndexOf, IsOption, TakesArgument;
    LetterAt('i', 12);
    LetterAt('s', 14);
    LetterAt('l', 16);
    LetterAt('m', 18);
    LetterAt('t', 20);
  }

  lemma LettersWithout()
    ensures forall c :: c in "1rhz" ==> IsOption(OPTIONS, c) && !TakesArgument(OPTIONS, c)
  {
    hide IndexOf, IsOption, TakesArgument;
    LetterAt('1', 8);
    LetterAt('r', 9);
    LetterAt('h', 10);
    LetterAt('z', 11);
  }

  /** What is still to come from a state of the parser. */
  function Remaining(s: Settings, st: State, argv: seq<string>, lib: Library): Option<Settings>
    requires Sane(st, argv)
  {
    var (events, t) := Run(st, argv, OPTIONS, MAIN);
    var u := ApplyAll(s, events, lib);
    if u.None? then None else Operands(u.value, argv[t.optind..], lib)
  }

  lemma RemainingStep(s: Settings, st: State, argv: seq<string>, lib: Library)
    requires Sane(st, argv)
    ensures Sane(Step(st, argv, OPTIONS).0, argv)
    ensures var (t, a) := Step(st, argv, OPTIONS);
            && (a.Done? ==> Remaining(s, st, argv, lib) == Operands(s, argv[t.optind..], lib))
            && (a.Got? && !a.event.WithArgument? ==>
                  var u := Apply(s, a.event, lib);
                  Remaining(s, st, argv, lib) == if u.None? then None else Remaining(u.value, t, argv, lib))
            && (a.Got? && a.event.WithArgument? ==>
                  && t.place == ""
                  && if t.optind + MAIN.Demands(a.event.letter) > |argv| then Remaining(s, st, argv, lib) == None
                     else
                       var n := MAIN.Takes(a.event.letter);
                       var u := Apply(s, a.event.(further := argv[t.optind..t.optind + n]), lib);
                       Remaining(s, st, argv, lib)
                       == if u.None? then None else Remaining(u.value, t.(optind := t.optind + n), argv, lib))
  {
    hide Step, Apply, Operands;
    StepProgress(st, argv, OPTIONS);
    var (t, a) := Step(st, argv, OPTIONS);
    if a.Got? && a.event.WithArgument? {
      TooFewIsUsage(s, a.event, a.event.letter, lib);
    }
  }

  lemma TooFewIsUsage(s: Settings, e: Event, c: char, lib: Library)
    ensures ApplyAll(s, [e, TooFewArguments(c)], lib) == None
  {
    assert [e, TooFewArguments(c)][1..] == [TooFewArguments(c)];
  }

  /** An answer as the loop sees it through the returned code and the globals. */
  ghost predicate Seen(e: Event, code: char, optarg: Option<string>) {
    && code == Code(e, OPTIONS)
    && (e.Flag? ==> e.letter in "1rhz")
    && (e.WithArgument? ==> e.letter in "ckpvislmt" && optarg == Some(e.argument) && e.further == [])
    && !e.TooFewArguments?
  }

  lemma AnswerIsSeen(st: State, argv: seq<string>)
    ensures var (t, a) := Step(st, argv, OPTIONS);
            a.Got? ==> Seen(a.event, Code(a.event, OPTIONS), t.optarg)
  {
    hide IsOption, TakesArgument;
    var (t, a) := Step(st, argv, OPTIONS);
    if a.Got? {
      OptionLetters(a.event.letter);
    }
  }

  /** The body of the loop: acts on one code, possibly moving the index itself. */
  method Handle(g: Globals, argv: seq<string>, code: char, ghost e: Event, s: Settings, lib: Library)
    returns (r: Option<Settings>)
    requires g.optind <= |argv| && Seen(e, code, g.optarg)
    modifies g`optind
    ensures !e.WithArgument? ==> r == Apply(s, e, lib) && g.optind == old(g.optind)
    ensures e.WithArgument? && old(g.optind) + MAIN.Demands(e.letter) > |argv| ==> r == None
    ensures e.WithArgument? && old(g.optind) + MAIN.Demands(e.letter) <= |argv| ==>
              var n := MAIN.Takes(e.letter);
              && r == Apply(s, e.(further := argv[old(g.optind)..old(g.optind) + n]), lib)
              && (r.Some? ==> g.optind == old(g.optind) + n)
  {
    var optarg := if g.optarg.Some? then g.optarg.value else "";
    if code == 'c' {
      r := Some(s.(certFile := Some(optarg)));
    } else if code == 'k' {
      r := Some(s.(keyFile := Some(optarg)));
    } else if code == 'p' {
      var port := lib.atoi(optarg);
      if port <= 0 {
        return None;
      }
      r := Some(s.(serverPort := port));
    } else if code == 'v' {
      if g.optind + 1 > |argv| {
        return None;
      }
      var version := lib.parseTargetVersion(optarg);
      if version <= 0 {
        return None;
      }
      r := Some(s.(proposedVersion := version));
    } else if code == '1' {
      r := Some(s.(justOnce := true));
    } else if code == 'r' {
      r := Some(s.(doHrr := true));
    } else if code == 's' {
      if g.optind + 1 > |argv| {
        return None;
      }
      var high := lib.strtoul(argv[g.optind]);
      var low := lib.strtoul(argv[g.optind]);
      g.optind := g.optind + 1;
      r := Some(s.(resetSeed := Some((low, high))));
    } else if code == 'i' {
      if g.optind + 2 > |argv| {
        return None;
      }
      var mask := Complement(lib.strtoul(argv[g.optind]));
      g.optind := g.optind + 1;
      var value := lib.strtoul(argv[g.optind]);
      g.optind := g.optind + 1;
      r := Some(s.(cnxId := Some((lib.atoi(optarg), mask, value))));
    } else if code == 'l' {
      if g.optind + 1 > |argv| {
        return None;
      }
      r := Some(s.(logFile := Some(optarg)));
    } else if code == 'm' {
      var mtuMax := lib.atoi(optarg);
      if mtuMax <= 0 || mtuMax > lib.maxPacketSize {
        return None;
      }
      r := Some(s.(mtuMax := mtuMax));
    } else if code == 'z' {
      r := Some(s.(forceZeroShare := true));
    } else if code == 'h' {
      r := None;
    } else if code == 't' {
      r := Some(s.(handshakeTiming := true));
    } else {
      r := Some(s);
    }
  }

  /** The loop and the operands after it: terminates, never moves the index beyond the
      arguments, and gives the command line its meaning. No result stands for the
      usage message and exit. */
  method ParseCommandLine(argv: seq<string>, g: Globals, lib: Library) returns (r: Option<Settings>)
    requires argv != [] && g.Value() == State("", 1, false, '\0', None)
    modifies g
    ensures r == Meaning(argv, lib)
    ensures r.Some? ==> g.optind <= |argv|
  {
    hide Step, Run, Apply, Remaining, ParseArgs, Seen;
    RemainingIsMeaning(argv, lib);
    var s := DEFAULTS;
    while true
      invariant Sane(g.Value(), argv)
      invariant Remaining(s, g.Value(), argv, lib) == Meaning(argv, lib)
      decreases ArgumentsLeft(g.Value(), argv), Left(g.Value(), argv)
    {
      RemainingStep(s, g.Value(), argv, lib);
      StepProgress(g.Value(), argv, OPTIONS);
      AnswerIsSeen(g.Value(), argv);
      var code, answer := g.Getopt(argv, OPTIONS);
      if code.None? {
        break;
      }
      r := Handle(g, argv, code.value, answer.event, s, lib);
      if r.None? {
        return;
      }
      s := r.value;
    }
    if g.optind < |argv| {
      s := s.(serverName := Some(argv[g.optind]));
      g.optind := g.optind + 1;
    }
    if g.optind < |argv| {
      var port := lib.atoi(argv[g.optind]);
      g.optind := g.optind + 1;
      if port <= 0 {
        return None;
      }
      s := s.(serverPort := port);
    }
    r := Some(s);
  }

  lemma RemainingIsMeaning(argv: seq<string>, lib: Library)
    requires argv != []
    ensures Remaining(DEFAULTS, State("", 1, false, '\0', None), argv, lib) == Meaning(argv, lib)
  {
    hide Run, ParseArgs, ApplyAll, Operands;
    RunIsParse(State("", 1, false, '\0', None), argv, OPTIONS, MAIN);
    var p := ParseArgs(argv[1..], OPTIONS, MAIN);
    assert argv[1..][p.used..] == argv[1 + p.used..];
  }

  // ----- Command lines put together -----

  lemma MeaningOf(program: string, args: seq<string>, lib: Library)
    ensures Meaning([program] + args, lib) == MeaningFrom(DEFAULTS, args, lib)
  {
    hide MeaningFrom;
    assert ([program] + args)[1..] == args;
  }

  /** Command lines that parse alike mean the same: so clustering flags and attaching
      arguments change nothing about the settings. */
  lemma AlikeMeansSame(program: string, x: seq<string>, y: seq<string>, lib: Library)
    requires Alike(x, y, OPTIONS, MAIN)
    ensures Meaning([program] + x, lib) == Meaning([program] + y, lib)
  {
    hide ParseArgs, Interpret, Meaning;
    MeaningOf(program, x, lib);
    MeaningOf(program, y, lib);
  }

  lemma {:induction false} ApplyMore(s: Settings, first: seq<Event>, more: seq<Event>, lib: Library)
    ensures var t := ApplyAll(s, first, lib);
            ApplyAll(s, first + more, lib) == if t.None? then None else ApplyAll(t.value, more, lib)
    decreases |first|
  {
    hide Apply;
    if first == [] {
      assert first + more == more;
    } else {
      assert (first + more)[1..] == first[1..] + more;
      var t := Apply(s, first[0], lib);
      if t.Some? {
        ApplyMore(t.value, first[1..], more, lib);
      }
    }
  }

  /** Nothing but options, each with its arguments. */
  predicate Options(args: seq<string>) {
    ParseArgs(args, OPTIONS, LAX).exhausted
  }

  function Reported(args: seq<string>): seq<Event> {
    ParseArgs(args, OPTIONS, LAX).events
  }

  lemma EnoughForMain(rest: seq<string>)
    requires rest != []
    ensures Enough(LAX, MAIN, |rest|)
  {
  }

  lemma OptionsThen(args: seq<string>, rest: seq<string>)
    requires Options(args) && rest != []
    ensures ParseArgs(args + rest, OPTIONS, MAIN)
         == Parse(Reported(args) + ParseArgs(rest, OPTIONS, MAIN).events, |args| + ParseArgs(rest, OPTIONS, MAIN).used,
                  ParseArgs(rest, OPTIONS, MAIN).exhausted)
  {
    hide ParseArgs, Enough;
    EnoughForMain(rest);
    Continues(args, rest, OPTIONS, LAX, MAIN);
  }

  /** Options set what they set, and then whatever follows has its own meaning. */
  lemma OptionsMean(s: Settings, args: seq<string>, rest: seq<string>, lib: Library)
    requires Options(args) && rest != []
    ensures var t := ApplyAll(s, Reported(args), lib);
            MeaningFrom(s, args + rest, lib) == if t.None? then None else MeaningFrom(t.value, rest, lib)
  {
    hide ParseArgs, ApplyAll, Options, Operands;
    OptionsThen(args, rest);
    var p := ParseArgs(rest, OPTIONS, MAIN);
    ApplyMore(s, Reported(args), p.events, lib);
    assert (args + rest)[|args| + p.used..] == rest[p.used..];
  }

  // ----- An argument taken twice -----

  /** Letters of argument k are obeyed, and the index stays at it. */
  predicate TakenTwice(args: seq<string>, k: nat)
    requires k < |args|
  {
    var p := ParseArgs(args, OPTIONS, MAIN);
    p.used == k && p.events != Reported(args[..k])
  }

  /** Of any command line, exactly the dashed arguments that follow nothing but options are
      taken twice. */
  lemma TakenTwiceExactly(args: seq<string>, k: nat)
    requires k < |args|
    ensures TakenTwice(args, k) <==> Options(args[..k]) && Dashed(OPTIONS, args[k])
  {
    hide ParseArgs, Dashed;
    LeftAfterReporting(args, k, OPTIONS, LAX, MAIN);
  }

  /** Letters without arguments set what they set, unless they ask for help. */
  lemma {:induction false} PlainHelp(s: Settings, u: string, lib: Library)
    requires Plain(OPTIONS, u)
    ensures ApplyAll(s, PlainEvents(OPTIONS, u), lib).None? <==> 'h' in u
    decreases |u|
  {
    hide IsOption, TakesArgument;
    LettersWithArgument();
    LettersWithout();
    if u != "" {
      var e := PlainEvents(OPTIONS, u)[0];
      assert PlainEvents(OPTIONS, u)[1..] == PlainEvents(OPTIONS, u[1..]);
      assert u == [u[0]] + u[1..];
      if u[0] != 'h' {
        PlainHelp(Apply(s, e, lib).value, u[1..], lib);
      }
    }
  }

  /** A dashed argument after any options is obeyed up to the dash and then taken for the
      name of the server, with the port next to it; unless a letter asks for help. */
  lemma DashedClusterNamesServer(s: Settings, args: seq<string>, u: string, v: string, rest: seq<string>, lib: Library)
    requires Options(args) && ApplyAll(s, Reported(args), lib).Some?
    requires u != "" && Plain(OPTIONS, u)
    ensures var operands := ["-" + u + "-" + v] + rest;
            var t := ApplyAll(s, Reported(args) + PlainEvents(OPTIONS, u), lib);
            && (t.None? <==> 'h' in u)
            && MeaningFrom(s, args + operands, lib) == if t.None? then None else Operands(t.value, operands, lib)
  {
    hide ParseArgs, ApplyAll, Options, Operands, IsOption, TakesArgument, PlainEvents;
    var operands := ["-" + u + "-" + v] + rest;
    OptionLetters('-');
    DashEndsInsideCluster(u, v, rest, OPTIONS, MAIN);
    OptionsThen(args, operands);
    assert (args + operands)[|args|..] == operands;
    ApplyMore(s, Reported(args), PlainEvents(OPTIONS, u), lib);
    PlainHelp(ApplyAll(s, Reported(args), lib).value, u, lib);
  }

  /** "-1-x 4443": one connection only, to the server "-1-x" at the given port. */
  lemma ServerNamedByFlags(program: string, port: string, lib: Library)
    ensures Meaning([program, "-1-x", port], lib)
         == if lib.atoi(port) <= 0 then None
            else Some(DEFAULTS.(justOnce := true, serverName := Some("-1-x"), serverPort := lib.atoi(port)))
  {
    hide IsOption, TakesArgument;
    var operands := ["-" + "1" + "-" + "x"] + [port];
    assert "-" + "1" + "-" + "x" == "-1-x";
    assert [program, "-1-x", port] == [program] + ([] + operands);
    MeaningOf(program, [] + operands, lib);
    OnlyOnce();
    DashedClusterNamesServer(DEFAULTS, [], "1", "x", [port], lib);
    assert ApplyAll(DEFAULTS, [Flag('1')], lib) == Some(DEFAULTS.(justOnce := true));
  }

  lemma OnlyOnce()
    ensures Plain(OPTIONS, "1") && PlainEvents(OPTIONS, "1") == [Flag('1')]
  {
    hide IsOption, TakesArgument;
    LettersWithArgument();
    LettersWithout();
    assert "1"[1..] == "";
  }

  // ----- What every option sets -----

  lemma ArgumentParse(c: char, a: string, rest: seq<string>)
    requires c in "ckpmt" || (c in "vl" && rest != [])
    ensures ParseArgs(["-" + [c], a] + rest, OPTIONS, MAIN)
         == Before(WithArgument(c, a, []), Past(2, ParseArgs(rest, OPTIONS, MAIN)))
  {
    hide ParseArgs, IsOption, TakesArgument;
    LettersWithArgument();
    LettersWithout();
    SeparateArgument(c, a, rest, OPTIONS, MAIN);
    assert rest[0..] == rest && rest[..0] == [];
  }

  /** An option with its argument acts, and the rest means what it means after that. */
  lemma ArgumentMeans(s: Settings, c: char, a: string, rest: seq<string>, lib: Library)
    requires c in "ckpmt" || (c in "vl" && rest != [])
    ensures var t := Apply(s, WithArgument(c, a, []), lib);
            MeaningFrom(s, ["-" + [c], a] + rest, lib) == if t.None? then None else MeaningFrom(t.value, rest, lib)
  {
    hide ParseArgs, Apply, MeaningFrom;
    ArgumentParse(c, a, rest);
    FirstOption(s, ["-" + [c], a], WithArgument(c, a, []), rest, lib);
  }

  /** -c names the certificate, -k the key, and -l, unless it is last, the log file. */
  lemma FilesAreSet(s: Settings, a: string, rest: seq<string>, lib: Library)
    ensures MeaningFrom(s, ["-c", a] + rest, lib) == MeaningFrom(s.(certFile := Some(a)), rest, lib)
    ensures MeaningFrom(s, ["-k", a] + rest, lib) == MeaningFrom(s.(keyFile := Some(a)), rest, lib)
    ensures rest != [] ==>
              MeaningFrom(s, ["-l", a] + rest, lib) == MeaningFrom(s.(logFile := Some(a)), rest, lib)
  {
    hide MeaningFrom;
    assert "-" + ['c'] == "-c" && "-" + ['k'] == "-k" && "-" + ['l'] == "-l";
    ArgumentMeans(s, 'c', a, rest, lib);
    ArgumentMeans(s, 'k', a, rest, lib);
    if rest != [] {
      ArgumentMeans(s, 'l', a, rest, lib);
    }
  }

  /** -p sets the port and -m the largest packet, if they are in range; -t, whatever its
      argument, asks for the timing of the handshake. */
  lemma NumbersAreSet(s: Settings, a: string, rest: seq<string>, lib: Library)
    ensures MeaningFrom(s, ["-p", a] + rest, lib)
         == if lib.atoi(a) <= 0 then None else MeaningFrom(s.(serverPort := lib.atoi(a)), rest, lib)
    ensures MeaningFrom(s, ["-m", a] + rest, lib)
         == if 0 < lib.atoi(a) <= lib.maxPacketSize then MeaningFrom(s.(mtuMax := lib.atoi(a)), rest, lib) else None
    ensures MeaningFrom(s, ["-t", a] + rest, lib) == MeaningFrom(s.(handshakeTiming := true), rest, lib)
  {
    hide MeaningFrom;
    assert "-" + ['p'] == "-p" && "-" + ['m'] == "-m" && "-" + ['t'] == "-t";
    ArgumentMeans(s, 'p', a, rest, lib);
    ArgumentMeans(s, 'm', a, rest, lib);
    ArgumentMeans(s, 't', a, rest, lib);
  }

  /** -v sets the version, if it is one, unless it is last. */
  lemma VersionIsSet(s: Settings, a: string, rest: seq<string>, lib: Library)
    requires rest != []
    ensures MeaningFrom(s, ["-v", a] + rest, lib)
         == if lib.parseTargetVersion(a) == 0 then None
            else MeaningFrom(s.(proposedVersion := lib.parseTargetVersion(a)), rest, lib)
  {
    hide MeaningFrom;
    assert "-" + ['v'] == "-v";
    ArgumentMeans(s, 'v', a, rest, lib);
  }

  /** -i takes two more arguments: a mask, which is kept complemented, and a value. */
  lemma ConnectionIdIsSet(s: Settings, a: string, mask: string, value: string, rest: seq<string>, lib: Library)
    ensures var id := (lib.atoi(a), 0xFFFF_FFFF_FFFF_FFFF - lib.strtoul(mask), lib.strtoul(value));
            MeaningFrom(s, ["-i", a, mask, value] + rest, lib) == MeaningFrom(s.(cnxId := Some(id)), rest, lib)
    ensures MeaningFrom(s, ["-i", a, mask], lib) == None && MeaningFrom(s, ["-i", a], lib) == None
  {
    hide MeaningFrom, ParseArgs;
    ConnectionIdParse(a, [mask, value] + rest);
    ConnectionIdParse(a, [mask]);
    ConnectionIdParse(a, []);
    assert ["-i", a, mask, value] + rest == ["-i", a] + ([mask, value] + rest);
    assert ["-i", a, mask] == ["-i", a] + [mask] && ["-i", a] == ["-i", a] + [];
    assert ([mask, value] + rest)[2..] == rest && ([mask, value] + rest)[..2] == [mask, value];
    FirstOption(s, ["-i", a, mask, value], WithArgument('i', a, [mask, value]), rest, lib);
    TooFewMeans(s, ["-i", a, mask], WithArgument('i', a, []), 'i', lib);
    TooFewMeans(s, ["-i", a], WithArgument('i', a, []), 'i', lib);
  }

  lemma TooFewMeans(s: Settings, args: seq<string>, e: Event, c: char, lib: Library)
    requires ParseArgs(args, OPTIONS, MAIN).events == [e, TooFewArguments(c)]
    ensures MeaningFrom(s, args, lib) == None
  {
    hide ParseArgs, ApplyAll;
    TooFewIsUsage(s, e, c, lib);
  }

  lemma ConnectionIdParse(a: string, rest: seq<string>)
    ensures ParseArgs(["-i", a] + rest, OPTIONS, MAIN)
         == if |rest| < 2 then Parse([WithArgument('i', a, []), TooFewArguments('i')], 2, false)
            else Before(WithArgument('i', a, rest[..2]), Past(4, ParseArgs(rest[2..], OPTIONS, MAIN)))
  {
    hide ParseArgs, IsOption, TakesArgument;
    LettersWithArgument();
    LettersWithout();
    assert "-" + ['i'] == "-i";
    SeparateArgument('i', a, rest, OPTIONS, MAIN);
  }

  /** A letter without argument, on its own. */
  lemma LetterMeans(s: Settings, c: char, rest: seq<string>, lib: Library)
    requires !TakesArgument(OPTIONS, c) && c != '-'
    ensures var t := Apply(s, if IsOption(OPTIONS, c) then Flag(c) else IllegalOption(c), lib);
            MeaningFrom(s, ["-" + [c]] + rest, lib) == if t.None? then None else MeaningFrom(t.value, rest, lib)
  {
    hide ParseArgs, Apply, MeaningFrom, IsOption, TakesArgument;
    SingleParse(c, rest, OPTIONS, MAIN);
    FirstOption(s, ["-" + [c]], if IsOption(OPTIONS, c) then Flag(c) else IllegalOption(c), rest, lib);
  }

  /** -1, -r and -z each set their flag, and -h asks for the usage message. */
  lemma FlagsAreSet(s: Settings, rest: seq<string>, lib: Library)
    ensures MeaningFrom(s, ["-1"] + rest, lib) == MeaningFrom(s.(justOnce := true), rest, lib)
    ensures MeaningFrom(s, ["-r"] + rest, lib) == MeaningFrom(s.(doHrr := true), rest, lib)
    ensures MeaningFrom(s, ["-z"] + rest, lib) == MeaningFrom(s.(forceZeroShare := true), rest, lib)
    ensures MeaningFrom(s, ["-h"] + rest, lib) == None
  {
    hide MeaningFrom, IsOption, TakesArgument;
    LettersWithArgument();
    LettersWithout();
    assert "-" + ['1'] == "-1" && "-" + ['r'] == "-r" && "-" + ['z'] == "-z" && "-" + ['h'] == "-h";
    LetterMeans(s, '1', rest, lib);
    LetterMeans(s, 'r', rest, lib);
    LetterMeans(s, 'z', rest, lib);
    LetterMeans(s, 'h', rest, lib);
  }

  /** A letter that is no option is passed over. */
  lemma UnknownIsIgnored(s: Settings, c: char, rest: seq<string>, lib: Library)
    requires c !in "ckpv1rhzislmt" && c != '-'
    ensures MeaningFrom(s, ["-" + [c]] + rest, lib) == MeaningFrom(s, rest, lib)
  {
    hide MeaningFrom, IsOption, TakesArgument;
    OptionLetters(c);
    TakesIsOption(OPTIONS, c);
    LetterMeans(s, c, rest, lib);
  }

  /** Operands: the server's name and its port, which must be positive. Others are ignored. */
  lemma OperandsAreSet(s: Settings, name: string, rest: seq<string>, lib: Library)
    requires name == "" || name[0] != '-'
    ensures var named := s.(serverName := Some(name));
            MeaningFrom(s, [name] + rest, lib)
            == if rest == [] then Some(named)
               else if lib.atoi(rest[0]) <= 0 then None
               else Some(named.(serverPort := lib.atoi(rest[0])))
  {
    OptionsEnd([name] + rest, OPTIONS, MAIN);
  }

  /** Two dashes end the options: what follows are operands, whatever it looks like. */
  lemma OperandsAfterDashes(s: Settings, rest: seq<string>, lib: Library)
    ensures MeaningFrom(s, ["--"] + rest, lib)
         == if rest == [] then Some(s)
            else if |rest| == 1 then Some(s.(serverName := Some(rest[0])))
            else if lib.atoi(rest[1]) <= 0 then None
            else Some(s.(serverName := Some(rest[0]), serverPort := lib.atoi(rest[1])))
  {
    OptionsEnd(["--"] + rest, OPTIONS, MAIN);
    assert (["--"] + rest)[1..] == rest;
  }

  /** No arguments at all: a server on port 4443. */
  lemma NothingSet(program: string, lib: Library)
    ensures Meaning([program], lib)
         == Some(Settings(None, None, None, 4443, 0xFF00_0009, false, false, false, false, None, None, 0, None))
  {
    NothingMore(DEFAULTS, lib);
    assert [program][1..] == [];
  }

  // ----- Options with arguments they do not use -----

  predicate SetsSeed(e: Event) {
    e.WithArgument? && e.letter == 's'
  }

  function Seeded(s: Option<Settings>, seed: Option<(Word, Word)>): Option<Settings> {
    if s.None? then None else Some(s.value.(resetSeed := seed))
  }

  /** An option acts on settings that differ in the seed alone as on one. */
  ghost predicate ActsBesideSeed(s: Settings, e: Event, seed: Option<(Word, Word)>, lib: Library) {
    Apply(s.(resetSeed := seed), e, lib)
    == if SetsSeed(e) then Apply(s, e, lib) else Seeded(Apply(s, e, lib), seed)
  }

  lemma ActsBesideSeedEarly(s: Settings, e: Event, seed: Option<(Word, Word)>, lib: Library)
    requires e.WithArgument? && e.letter in "ckpvl"
    ensures ActsBesideSeed(s, e, seed, lib)
  {
  }

  lemma ActsBesideSeedLate(s: Settings, e: Event, seed: Option<(Word, Word)>, lib: Library)
    requires e.WithArgument? && e.letter !in "ckpvl"
    ensures ActsBesideSeed(s, e, seed, lib)
  {
  }

  lemma SeedOfOne(s: Settings, e: Event, seed: Option<(Word, Word)>, lib: Library)
    ensures ActsBesideSeed(s, e, seed, lib)
  {
    if e.WithArgument? {
      hide Apply, ActsBesideSeed;
      if e.letter in "ckpvl" {
        ActsBesideSeedEarly(s, e, seed, lib);
      } else {
        ActsBesideSeedLate(s, e, seed, lib);
      }
    }
  }

  ghost predicate SetsSeedLater(events: seq<Event>) {
    exists i :: 0 <= i < |events| && SetsSeed(events[i])
  }

  /** A seed given earlier survives unless one is given again, and changes nothing else. */
  lemma {:induction false} SeedSurvives(s: Settings, events: seq<Event>, seed: Option<(Word, Word)>, lib: Library)
    ensures ApplyAll(s.(resetSeed := seed), events, lib)
         == if SetsSeedLater(events) && ApplyAll(s, events, lib).Some? then ApplyAll(s, events, lib)
            else Seeded(ApplyAll(s, events, lib), seed)
    decreases |events|
  {
    hide Apply, SetsSeed;
    if events != [] {
      SeedOfOne(s, events[0], seed, lib);
      var t := Apply(s, events[0], lib);
      if t.Some? && !SetsSeed(events[0]) {
        SeedSurvives(t.value, events[1..], seed, lib);
        if SetsSeedLater(events) {
          var i :| 0 <= i < |events| && SetsSeed(events[i]);
          assert SetsSeed(events[1..][i - 1]);
        }
        if i :| 0 <= i < |events[1..]| && SetsSeed(events[1..][i]) {
          assert SetsSeed(events[i + 1]);
        }
      }
    }
  }

  lemma SeedOfMeaning(s: Settings, args: seq<string>, seed: Option<(Word, Word)>, lib: Library)
    ensures MeaningFrom(s.(resetSeed := seed), args, lib)
         == if SetsSeedLater(ParseArgs(args, OPTIONS, MAIN).events) then MeaningFrom(s, args, lib)
            else Seeded(MeaningFrom(s, args, lib), seed)
  {
    hide ParseArgs, ApplyAll, SetsSeedLater;
    SeedSurvives(s, ParseArgs(args, OPTIONS, MAIN).events, seed, lib);
  }

  /** "-s a b": the seed is b twice. So it is the seed of a and b that the usage message
      promises exactly if these are the same number, unless the rest of the command line
      is in error or gives another seed anyway. */
  lemma SeedIsOneNumberTwice(s: Settings, a: string, b: string, rest: seq<string>, lib: Library)
    ensures var actual := MeaningFrom(s, ["-s", a, b] + rest, lib);
            var promised := MeaningFrom(s.(resetSeed := Some((lib.strtoul(a), lib.strtoul(b)))), rest, lib);
            && actual == MeaningFrom(s.(resetSeed := Some((lib.strtoul(b), lib.strtoul(b)))), rest, lib)
            && (actual == promised <==>
                  || lib.strtoul(a) == lib.strtoul(b)
                  || promised.None?
                  || SetsSeedLater(ParseArgs(rest, OPTIONS, MAIN).events))
  {
    hide ParseArgs, SetsSeedLater, MeaningFrom;
    SeedParse(a, b, rest);
    FirstOption(s, ["-s", a, b], WithArgument('s', a, [b]), rest, lib);
    SeedOfMeaning(s, rest, Some((lib.strtoul(a), lib.strtoul(b))), lib);
    SeedOfMeaning(s, rest, Some((lib.strtoul(b), lib.strtoul(b))), lib);
  }

  lemma ApplyFirst(s: Settings, e: Event, more: seq<Event>, lib: Library)
    ensures var t := Apply(s, e, lib);
            ApplyAll(s, [e] + more, lib) == if t.None? then None else ApplyAll(t.value, more, lib)
  {
    hide Apply;
    assert ([e] + more)[1..] == more;
  }

  lemma FirstOption(s: Settings, args: seq<string>, e: Event, rest: seq<string>, lib: Library)
    requires ParseArgs(args + rest, OPTIONS, MAIN) == Before(e, Past(|args|, ParseArgs(rest, OPTIONS, MAIN)))
    ensures var t := Apply(s, e, lib);
            MeaningFrom(s, args + rest, lib) == if t.None? then None else MeaningFrom(t.value, rest, lib)
  {
    hide ParseArgs, Apply, ApplyAll, Operands;
    var p := ParseArgs(rest, OPTIONS, MAIN);
    ApplyFirst(s, e, p.events, lib);
    assert (args + rest)[|args| + p.used..] == rest[p.used..];
  }

  lemma SeedParse(a: string, b: string, rest: seq<string>)
    ensures ParseArgs(["-s", a, b] + rest, OPTIONS, MAIN)
         == Before(WithArgument('s', a, [b]), Past(3, ParseArgs(rest, OPTIONS, MAIN)))
  {
    hide ParseArgs, IsOption, TakesArgument;
    LettersWithArgument();
    LettersWithout();
    assert "-" + ['s'] == "-s";
    assert ["-s", a, b] + rest == ["-" + ['s'], a] + ([b] + rest);
    SeparateArgument('s', a, [b] + rest, OPTIONS, MAIN);
    assert ([b] + rest)[1..] == rest && ([b] + rest)[..1] == [b];
  }

  lemma LastWordsParse(c: char, a: string, rest: seq<string>)
    requires c == 'v' || c == 'l'
    ensures ParseArgs(["-" + [c], a] + rest, OPTIONS, MAIN)
         == if rest == [] then Parse([WithArgument(c, a, []), TooFewArguments(c)], 2, false)
            else Before(WithArgument(c, a, []), Past(2, ParseArgs(rest, OPTIONS, MAIN)))
  {
    hide ParseArgs, IsOption, TakesArgument;
    LettersWithArgument();
    LettersWithout();
    SeparateArgument(c, a, rest, OPTIONS, MAIN);
    assert rest[0..] == rest && rest[..0] == [];
  }

  lemma NothingMore(s: Settings, lib: Library)
    ensures MeaningFrom(s, [], lib) == Some(s)
  {
  }

  /** "-v V" demands an argument that it does not use: at the end of the command line it
      ends in the usage message, and only there it does not mean what it is documented
      to mean. The same goes for "-l F". */
  lemma LastWordsAreRefused(s: Settings, c: char, a: string, rest: seq<string>, lib: Library)
    requires c == 'v' || c == 'l'
    ensures var t := Apply(s, WithArgument(c, a, []), lib);
            var promised := if t.None? then None else MeaningFrom(t.value, rest, lib);
            var actual := MeaningFrom(s, ["-" + [c], a] + rest, lib);
            && (rest == [] ==> actual == None)
            && (actual == promised <==> rest != [] || t.None?)
  {
    hide ParseArgs, Apply;
    LastWordsParse(c, a, rest);
    var t := Apply(s, WithArgument(c, a, []), lib);
    if rest == [] {
      TooFewIsUsage(s, WithArgument(c, a, []), c, lib);
      if t.Some? {
        NothingMore(t.value, lib);
      }
    }
    if rest != [] {
      FirstOption(s, ["-" + [c], a], WithArgument(c, a, []), rest, lib);
    }
  }
}
