/**
 The resumable option parser: one call returns one option and remembers, in a hidden
 scanning pointer and the index of the current argument, where to go on.
 */
module Getopt {
  import opened Words

  /** What one call reports. An option with an argument carries the further arguments
      its caller takes for itself by moving the index. */
  datatype Event =
    | Flag(letter: char)
    | WithArgument(letter: char, argument: string, further: seq<string>)
    | IllegalOption(letter: char)
    | MissingArgument(letter: char)
    | TooFewArguments(letter: char)

  datatype Answer = Done | Got(event: Event)

  /** The static scanning pointer, as the text it points to, and the global variables. */
  datatype State = State(place: string, optind: nat, optreset: bool, optopt: char, optarg: Option<string>)

  // ----- The option string -----

  function IndexOf(s: string, c: char): (i: nat)
    ensures i <= |s| && (i < |s| ==> s[i] == c) && c !in s[..i]
  {
    if s == "" || s[0] == c then 0 else 1 + IndexOf(s[1..], c)
  }

  predicate IsOption(ostr: string, c: char) {
    c != ':' && IndexOf(ostr, c) < |ostr|
  }

  predicate TakesArgument(ostr: string, c: char) {
    IsOption(ostr, c) && IndexOf(ostr, c) + 1 < |ostr| && ostr[IndexOf(ostr, c) + 1] == ':'
  }

  // ----- One call -----

  /** Goes on with the letter the scanning pointer is at. */
  function Scan(s: State, argv: seq<string>, ostr: string): (State, Answer)
    requires s.place != ""
  {
    var c := s.place[0];
    var rest := s.place[1..];
    var t := s.(optopt := c, place := rest);
    var next := if rest == "" then s.optind + 1 else s.optind;
    if !IsOption(ostr, c) then
      if c == '-' then (t, Done) else (t.(optind := next), Got(IllegalOption(c)))
    else if !TakesArgument(ostr, c) then
      (t.(optind := next, optarg := None), Got(Flag(c)))
    else if rest != "" then
      (t.(place := "", optind := s.optind + 1, optarg := Some(rest)), Got(WithArgument(c, rest, [])))
    else if |argv| <= s.optind + 1 then
      (t.(optind := s.optind + 1), Got(MissingArgument(c)))
    else
      (t.(optind := s.optind + 2, optarg := Some(argv[s.optind + 1])), Got(WithArgument(c, argv[s.optind + 1], [])))
  }

  predicate AtOption(argv: seq<string>, i: nat) {
    i < |argv| && argv[i] != "" && argv[i][0] == '-'
  }

  function Step(s: State, argv: seq<string>, ostr: string): (State, Answer) {
    if !s.optreset && s.place != "" then Scan(s, argv, ostr)
    else if !AtOption(argv, s.optind) then (s.(optreset := false, place := ""), Done)
    else
      var arg := argv[s.optind];
      if |arg| > 1 && arg[1] == '-' then (s.(optreset := false, place := "", optind := s.optind + 1), Done)
      else Scan(s.(optreset := false, place := if |arg| > 1 then arg[1..] else arg), argv, ostr)
  }

  lemma AnswerIsScanned(s: State, argv: seq<string>, ostr: string)
    ensures var (t, a) := Step(s, argv, ostr);
            a.Got? ==>
              && t.optopt == a.event.letter && !a.event.TooFewArguments?
              && (a.event.Flag? ==> t.optarg == None)
              && (a.event.WithArgument? ==> t.optarg == Some(a.event.argument))
  {
    hide IsOption, TakesArgument;
  }

  /** The code a call returns: the letter, or the mark of an error. */
  function Code(e: Event, ostr: string): char {
    match e
    case Flag(c) => c
    case WithArgument(c, _, _) => c
    case IllegalOption(_) => '?'
    case MissingArgument(_) => if ostr != "" && ostr[0] == ':' then ':' else '?'
    case TooFewArguments(_) => '?'
  }

  // ----- The globals -----

  class Globals {
    var place: string
    var optind: nat
    var optreset: bool
    var optopt: char
    var optarg: Option<string>

    function Value(): State
      reads this
    {
      State(place, optind, optreset, optopt, optarg)
    }

    constructor ()
      ensures Value() == State("", 1, false, '\0', None)
    {
      place, optind, optreset, optopt, optarg := "", 1, false, '\0', None;
    }

    /** Checks the letter the scanning pointer is at and picks up its argument. */
    method ScanLetter(argv: seq<string>, ostr: string) returns (code: Option<char>, ghost answer: Answer)
      requires place != ""
      modifies this
      ensures (Value(), answer) == Scan(old(Value()), argv, ostr)
      ensures code == if answer.Done? then None else Some(Code(answer.event, ostr))
    {
      answer := Scan(Value(), argv, ostr).1;
      optopt := place[0];
      place := place[1..];
      var oli := IndexOf(ostr, optopt);
      if optopt == ':' || oli == |ostr| {
        if optopt == '-' {
          return None, Done;
        }
        if place == "" {
          optind := optind + 1;
        }
        return Some('?'), answer;
      }
      if oli + 1 == |ostr| || ostr[oli + 1] != ':' {
        optarg := None;
        if place == "" {
          optind := optind + 1;
        }
      } else {
        if place != "" {
          optarg := Some(place);
        } else {
          optind := optind + 1;
          if |argv| <= optind {
            place := "";
            if ostr != "" && ostr[0] == ':' {
              return Some(':'), answer;
            }
            return Some('?'), answer;
          }
          optarg := Some(argv[optind]);
        }
        place := "";
        optind := optind + 1;
      }
      code := Some(optopt);
    }

    /** Returns the code of one option, or none for the end of the options. */
    method Getopt(argv: seq<string>, ostr: string) returns (code: Option<char>, ghost answer: Answer)
      modifies this
      ensures (Value(), answer) == Step(old(Value()), argv, ostr)
      ensures code == if answer.Done? then None else Some(Code(answer.event, ostr))
      ensures answer.Got? ==> optopt == answer.event.letter && !answer.event.TooFewArguments?
      ensures answer.Got? && answer.event.Flag? ==> code == Some(optopt) && optarg == None
      ensures answer.Got? && answer.event.WithArgument? ==>
                code == Some(optopt) && optarg == Some(answer.event.argument)
      ensures answer.Got? && answer.event.IllegalOption? ==> code == Some('?')
      ensures answer.Got? && answer.event.MissingArgument? ==>
                code == Some(if ostr != "" && ostr[0] == ':' then ':' else '?')
    {
      hide Scan;
      AnswerIsScanned(Value(), argv, ostr);
      if optreset || place == "" {
        optreset := false;
        if optind >= |argv| || argv[optind] == "" || argv[optind][0] != '-' {
          place := "";
          return None, Done;
        }
        place := argv[optind];
        if |place| > 1 {
          place := place[1..];
          if place[0] == '-' {
            optind := optind + 1;
            place := "";
            return None, Done;
          }
        }
      }
      code, answer := ScanLetter(argv, ostr);
    }
  }
}
