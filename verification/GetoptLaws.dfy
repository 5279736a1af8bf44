/** Laws of the command line: what clustering and attaching may and may not change. */
module GetoptLaws {
  import opened Getopt
  import opened GetoptRuns

  function BeforeAll(es: seq<Event>, p: Parse): Parse {
    Parse(es + p.events, p.used, p.exhausted)
  }

  /** No letter takes an argument or is a dash. */
  predicate Plain(ostr: string, letters: string) {
    forall i :: 0 <= i < |letters| ==> !TakesArgument(ostr, letters[i]) && letters[i] != '-'
  }

  function PlainEvents(ostr: string, letters: string): seq<Event> {
    if letters == "" then []
    else
      var e := if IsOption(ostr, letters[0]) then Flag(letters[0]) else IllegalOption(letters[0]);
      [e] + PlainEvents(ostr, letters[1..])
  }

  /** Each letter as an argument of its own. */
  function Singles(letters: string): (args: seq<string>)
    ensures |args| == |letters|
  {
    if letters == "" then [] else ["-" + [letters[0]]] + Singles(letters[1..])
  }

  lemma {:induction false} PlainPrefix(u: string, tail: string, args: seq<string>, ostr: string, caller: Caller)
    requires args != [] && Plain(ostr, u)
    ensures ParseCluster(u + tail, args, ostr, caller)
         == BeforeAll(PlainEvents(ostr, u), ParseCluster(tail, args, ostr, caller))
  {
    hide ParseArgs, ParseFurther;
    if u == "" {
      assert u + tail == tail;
    } else {
      assert (u + tail)[1..] == u[1..] + tail;
      PlainPrefix(u[1..], tail, args, ostr, caller);
    }
  }

  lemma {:induction false} ClusterIgnoresItsArgument(letters: string, a: string, b: string, rest: seq<string>,
                                                     ostr: string, caller: Caller)
    ensures ParseCluster(letters, [a] + rest, ostr, caller) == ParseCluster(letters, [b] + rest, ostr, caller)
    decreases |letters|
  {
    hide ParseArgs, ParseFurther;
    assert ([a] + rest)[1..] == rest == ([b] + rest)[1..];
    if rest != [] {
      assert ([a] + rest)[2..] == rest[1..] == ([b] + rest)[2..];
    }
    if letters != "" {
      ClusterIgnoresItsArgument(letters[1..], a, b, rest, ostr, caller);
    }
  }

  lemma OpensCluster(letters: string, rest: seq<string>, ostr: string, caller: Caller)
    requires letters != "" && letters[0] != '-'
    ensures ParseArgs(["-" + letters] + rest, ostr, caller)
         == ParseCluster(letters, ["-" + letters] + rest, ostr, caller)
  {
    hide ParseCluster;
    var args := ["-" + letters] + rest;
    assert args[0][1..] == letters && args[0][1] == letters[0];
  }

  lemma SingleParse(c: char, more: seq<string>, ostr: string, caller: Caller)
    requires !TakesArgument(ostr, c) && c != '-'
    ensures ParseArgs(["-" + [c]] + more, ostr, caller)
         == Before(if IsOption(ostr, c) then Flag(c) else IllegalOption(c), Past(1, ParseArgs(more, ostr, caller)))
  {
    hide ParseArgs, ParseFurther;
    OpensCluster([c], more, ostr, caller);
    assert (["-" + [c]] + more)[1..] == more;
    assert [c][1..] == "";
  }

  lemma {:induction false} SinglesParse(u: string, rest: seq<string>, ostr: string, caller: Caller)
    requires Plain(ostr, u)
    ensures ParseArgs(Singles(u) + rest, ostr, caller)
         == BeforeAll(PlainEvents(ostr, u), Past(|u|, ParseArgs(rest, ostr, caller)))
  {
    hide ParseArgs, IsOption, TakesArgument, Before, BeforeAll, Past;
    if u == "" {
      NothingBefore(ParseArgs(rest, ostr, caller));
      assert Singles(u) + rest == rest;
    } else {
      var more := Singles(u[1..]) + rest;
      assert Singles(u) + rest == ["-" + [u[0]]] + more;
      SingleParse(u[0], more, ostr, caller);
      SinglesParse(u[1..], rest, ostr, caller);
      BeforeThenAll(PlainEvents(ostr, u)[0], PlainEvents(ostr, u[1..]), |u| - 1, ParseArgs(rest, ostr, caller));
    }
  }

  lemma NothingBefore(p: Parse)
    ensures BeforeAll([], Past(0, p)) == p
  {
    assert [] + p.events == p.events;
  }

  lemma BeforeThenAll(e: Event, es: seq<Event>, n: nat, p: Parse)
    ensures Before(e, Past(1, BeforeAll(es, Past(n, p)))) == BeforeAll([e] + es, Past(n + 1, p))
  {
    assert [e] + (es + p.events) == [e] + es + p.events;
  }

  /** Letters without arguments may be given apart or in front of other letters, with or
      without an argument of their own: the options are the same, and the index ends
      up further on by the arguments added. */
  lemma ClusteringIsTransparent(u: string, tail: string, rest: seq<string>, ostr: string, caller: Caller)
    requires Plain(ostr, u) && tail != "" && tail[0] != '-'
    ensures var together := ParseArgs(["-" + u + tail] + rest, ostr, caller);
            var apart := ParseArgs(Singles(u) + ["-" + tail] + rest, ostr, caller);
            apart == Past(|u|, together)
  {
    hide ParseArgs, ParseCluster, ParseFurther;
    var first := "-" + (u + tail);
    assert "-" + u + tail == first;
    OpensCluster(u + tail, rest, ostr, caller);
    PlainPrefix(u, tail, [first] + rest, ostr, caller);
    OpensCluster(tail, rest, ostr, caller);
    ClusterIgnoresItsArgument(tail, first, "-" + tail, rest, ostr, caller);
    assert Singles(u) + ["-" + tail] + rest == Singles(u) + (["-" + tail] + rest);
    SinglesParse(u, ["-" + tail] + rest, ostr, caller);
  }

  lemma SeparateArgument(c: char, argument: string, rest: seq<string>, ostr: string, caller: Caller)
    requires TakesArgument(ostr, c) && c != '-'
    ensures ParseArgs(["-" + [c], argument] + rest, ostr, caller)
         == Past(2, ParseFurther(c, argument, rest, ostr, caller))
  {
    hide ParseArgs, ParseFurther;
    var args := ["-" + [c], argument] + rest;
    assert args == ["-" + [c]] + ([argument] + rest);
    OpensCluster([c], [argument] + rest, ostr, caller);
    assert args[2..] == rest;
  }

  /** A non-empty argument may be attached to its letter or follow it. */
  lemma AttachingIsTransparent(c: char, argument: string, rest: seq<string>, ostr: string, caller: Caller)
    requires TakesArgument(ostr, c) && c != '-' && argument != ""
    ensures var attached := ParseArgs(["-" + [c] + argument] + rest, ostr, caller);
            var apart := ParseArgs(["-" + [c], argument] + rest, ostr, caller);
            apart == Past(1, attached)
  {
    hide ParseArgs, ParseFurther;
    var letters := [c] + argument;
    assert "-" + [c] + argument == "-" + letters && letters[1..] == argument;
    OpensCluster(letters, rest, ostr, caller);
    assert (["-" + letters] + rest)[1..] == rest;
    SeparateArgument(c, argument, rest, ostr, caller);
  }

  /** A dash inside a cluster that is not itself an option ends the options at once, and
      the index is left at the cluster: its first letters have been reported, yet it
      is still there to be taken for an operand. */
  lemma DashEndsInsideCluster(u: string, v: string, rest: seq<string>, ostr: string, caller: Caller)
    requires u != "" && Plain(ostr, u) && !IsOption(ostr, '-')
    ensures ParseArgs(["-" + u + "-" + v] + rest, ostr, caller) == Parse(PlainEvents(ostr, u), 0, false)
  {
    hide ParseArgs, ParseFurther;
    var letters := u + ("-" + v);
    assert "-" + u + "-" + v == "-" + letters;
    OpensCluster(letters, rest, ostr, caller);
    PlainPrefix(u, "-" + v, ["-" + letters] + rest, ostr, caller);
    assert PlainEvents(ostr, u) + [] == PlainEvents(ostr, u);
  }

  /** A dash that is not itself an option stands at position i, after letters that take no argument. */
  predicate DashAt(ostr: string, letters: string, i: nat) {
    i < |letters| && letters[i] == '-' && !IsOption(ostr, '-') && Plain(ostr, letters[..i])
  }

  ghost predicate DashInside(ostr: string, letters: string) {
    exists i: nat :: DashAt(ostr, letters, i)
  }

  /** A cluster ends the run with the index still at it exactly when it has such a dash. */
  lemma {:induction false} ClusterStays(letters: string, args: seq<string>, ostr: string, caller: Caller)
    requires args != []
    ensures ParseCluster(letters, args, ostr, caller).used == 0 <==> DashInside(ostr, letters)
    decreases |letters|
  {
    hide ParseArgs, ParseFurther;
    if letters != "" {
      ClusterStays(letters[1..], args, ostr, caller);
      DashFurtherOn(ostr, letters);
    }
  }

  lemma DashFurtherOn(ostr: string, letters: string)
    requires letters != ""
    ensures DashInside(ostr, letters) <==>
            || (letters[0] == '-' && !IsOption(ostr, '-'))
            || (letters[0] != '-' && !TakesArgument(ostr, letters[0]) && DashInside(ostr, letters[1..]))
  {
    hide IsOption, TakesArgument;
    var rest := letters[1..];
    if i: nat :| DashAt(ostr, letters, i) {
      if i > 0 {
        assert letters[..i][0] == letters[0];
        assert rest[..i - 1] == letters[..i][1..];
        assert DashAt(ostr, rest, i - 1);
      }
    }
    if letters[0] == '-' && !IsOption(ostr, '-') {
      assert DashAt(ostr, letters, 0);
    }
    if letters[0] != '-' && !TakesArgument(ostr, letters[0]) && DashInside(ostr, rest) {
      var i: nat :| DashAt(ostr, rest, i);
      assert letters[..i + 1] == [letters[0]] + rest[..i];
      assert DashAt(ostr, letters, i + 1);
    }
  }

  /** The argument is a dash, some letters that take no argument, and a dash that is not
      itself an option, whatever follows. */
  predicate DashedAfter(ostr: string, arg: string, u: string, v: string) {
    u != "" && arg == "-" + u + "-" + v && Plain(ostr, u) && !IsOption(ostr, '-')
  }

  ghost predicate Dashed(ostr: string, arg: string) {
    exists u, v :: DashedAfter(ostr, arg, u, v)
  }

  lemma DashedIsInside(ostr: string, arg: string)
    ensures Dashed(ostr, arg) <==> |arg| > 1 && arg[0] == '-' && arg[1] != '-' && DashInside(ostr, arg[1..])
  {
    hide IsOption, TakesArgument;
    if u, v :| DashedAfter(ostr, arg, u, v) {
      assert arg[1..] == u + "-" + v;
      assert arg[1..][..|u|] == u && arg[1] == u[0];
      assert DashAt(ostr, arg[1..], |u|);
    }
    if |arg| > 1 && arg[0] == '-' && arg[1] != '-' && DashInside(ostr, arg[1..]) {
      var i: nat :| DashAt(ostr, arg[1..], i);
      var u, v := arg[1..][..i], arg[1..][i + 1..];
      assert arg == "-" + u + "-" + v;
      assert DashedAfter(ostr, arg, u, v);
    }
  }

  /** The first argument is obeyed as options, and yet the index stays at it, exactly when
      it is dashed: this is the only way to take an argument twice. */
  lemma ObeyedYetLeft(args: seq<string>, ostr: string, caller: Caller)
    ensures var p := ParseArgs(args, ostr, caller);
            p.used == 0 && p.events != [] <==> args != [] && Dashed(ostr, args[0])
  {
    hide ParseFurther, IsOption, TakesArgument, DashInside, Dashed;
    if args != [] {
      DashedIsInside(ostr, args[0]);
      if args[0] == "-" {
        assert ParseCluster("-"[1..], args, ostr, caller).used > 0;
      } else if args[0] != "" && args[0][0] == '-' && args[0][1] != '-' {
        ClusterStays(args[0][1..], args, ostr, caller);
        ClusterReports(args[0][1..], args, ostr, caller);
      }
    }
  }

  lemma ClusterReports(letters: string, args: seq<string>, ostr: string, caller: Caller)
    requires args != [] && letters != "" && letters[0] != '-'
    ensures ParseCluster(letters, args, ostr, caller).events != []
  {
    hide ParseArgs;
  }

  // ----- Command lines put together -----

  /** One parse going on where another ran out of arguments. */
  function Then(p: Parse, q: Parse): Parse {
    BeforeAll(p.events, Past(p.used, q))
  }

  /** After a beginning parsed for the lax caller, `more` arguments meet the strict one's demands. */
  ghost predicate Enough(lax: Caller, strict: Caller, more: nat) {
    forall c :: strict.Takes(c) == lax.Takes(c) && strict.Demands(c) <= lax.Demands(c) + more
  }

  /** A command line whose parse runs out of arguments can be continued: parsing goes on
      as if it started afresh, even for a caller that demands more arguments than the
      beginning has, as long as these follow. So the laws above hold after any
      such beginning. */
  lemma {:induction false} Continues(args: seq<string>, rest: seq<string>, ostr: string, lax: Caller, strict: Caller)
    requires ParseArgs(args, ostr, lax).exhausted && Enough(lax, strict, |rest|)
    ensures ParseArgs(args, ostr, lax).used == |args|
    ensures ParseArgs(args + rest, ostr, strict)
         == Then(ParseArgs(args, ostr, lax), ParseArgs(rest, ostr, strict))
    decreases |args|, 1, 0
  {
    hide ParseCluster, ParseFurther, Enough;
    if args == [] {
      assert args + rest == rest;
    } else if args[0] == "-" {
      ClusterContinues("-", args, rest, ostr, lax, strict);
    } else {
      ClusterContinues(args[0][1..], args, rest, ostr, lax, strict);
    }
  }

  lemma {:induction false} ClusterContinues(letters: string, args: seq<string>, rest: seq<string>,
                                            ostr: string, lax: Caller, strict: Caller)
    requires args != [] && ParseCluster(letters, args, ostr, lax).exhausted && Enough(lax, strict, |rest|)
    ensures ParseCluster(letters, args, ostr, lax).used == |args|
    ensures ParseCluster(letters, args + rest, ostr, strict)
         == Then(ParseCluster(letters, args, ostr, lax), ParseArgs(rest, ostr, strict))
    decreases |args|, 0, |letters|
  {
    hide ParseArgs, ParseFurther, Enough;
    assert (args + rest)[1..] == args[1..] + rest;
    if letters == "" {
      Continues(args[1..], rest, ostr, lax, strict);
    } else if !TakesArgument(ostr, letters[0]) {
      ClusterContinues(letters[1..], args, rest, ostr, lax, strict);
    } else if |letters| > 1 {
      FurtherContinues(letters[0], letters[1..], args[1..], rest, ostr, lax, strict);
    } else {
      assert (args + rest)[2..] == args[2..] + rest;
      FurtherContinues(letters[0], args[1], args[2..], rest, ostr, lax, strict);
    }
  }

  lemma {:induction false} FurtherContinues(c: char, argument: string, args: seq<string>, rest: seq<string>,
                                            ostr: string, lax: Caller, strict: Caller)
    requires ParseFurther(c, argument, args, ostr, lax).exhausted && Enough(lax, strict, |rest|)
    ensures ParseFurther(c, argument, args, ostr, lax).used == |args|
    ensures ParseFurther(c, argument, args + rest, ostr, strict)
         == Then(ParseFurther(c, argument, args, ostr, lax), ParseArgs(rest, ostr, strict))
    decreases |args|, 2, 0
  {
    hide ParseArgs, ParseCluster;
    var n := strict.Takes(c);
    assert n == lax.Takes(c) && strict.Demands(c) <= lax.Demands(c) + |rest|;
    assert (args + rest)[n..] == args[n..] + rest && (args + rest)[..n] == args[..n];
    Continues(args[n..], rest, ostr, lax, strict);
  }

  /** The lax caller demands no more than it takes, the strict one at most one argument more. */
  ghost predicate OneStricter(lax: Caller, strict: Caller) {
    forall c :: lax.Demands(c) == lax.Takes(c) == strict.Takes(c) <= strict.Demands(c) <= lax.Takes(c) + 1
  }

  /** An index left at an argument either reports what the arguments before it report, or
      the arguments before it are complete and it is dashed. */
  ghost predicate EndsCleanlyOrDashed(p: Parse, before: Parse, args: seq<string>, ostr: string) {
    p.used < |args| ==> p.events == before.events || (before.exhausted && Dashed(ostr, args[p.used]))
  }

  lemma {:induction false} ArgsEnd(args: seq<string>, ostr: string, lax: Caller, strict: Caller)
    requires OneStricter(lax, strict)
    ensures var p := ParseArgs(args, ostr, strict);
            EndsCleanlyOrDashed(p, ParseArgs(args[..p.used], ostr, lax), args, ostr)
    decreases |args|, 1, 0
  {
    hide ParseCluster, ParseFurther, Dashed, OneStricter;
    var p := ParseArgs(args, ostr, strict);
    if p.used == 0 {
      ObeyedYetLeft(args, ostr, strict);
    } else if args[0] == "-" {
      ClusterEnds("-", args, ostr, lax, strict);
    } else if args[0][1] != '-' {
      ClusterEnds(args[0][1..], args, ostr, lax, strict);
    }
  }

  lemma {:induction false} ClusterEnds(letters: string, args: seq<string>, ostr: string, lax: Caller, strict: Caller)
    requires args != [] && OneStricter(lax, strict) && ParseCluster(letters, args, ostr, strict).used > 0
    ensures var p := ParseCluster(letters, args, ostr, strict);
            EndsCleanlyOrDashed(p, ParseCluster(letters, args[..p.used], ostr, lax), args, ostr)
    decreases |args|, 0, |letters|
  {
    hide ParseArgs, ParseFurther, Dashed, OneStricter;
    var p := ParseCluster(letters, args, ostr, strict);
    var before := args[..p.used];
    if p.used < |args| {
      assert before[1..] == args[1..][..p.used - 1];
      if letters == "" {
        ArgsEnd(args[1..], ostr, lax, strict);
      } else if !TakesArgument(ostr, letters[0]) {
        ClusterEnds(letters[1..], args, ostr, lax, strict);
      } else if |letters| > 1 {
        FurtherEnds(letters[0], letters[1..], args[1..], ostr, lax, strict);
      } else {
        assert before[2..] == args[2..][..p.used - 2];
        FurtherEnds(letters[0], args[1], args[2..], ostr, lax, strict);
      }
    }
  }

  lemma {:induction false} FurtherEnds(c: char, argument: string, args: seq<string>,
                                       ostr: string, lax: Caller, strict: Caller)
    requires OneStricter(lax, strict)
    ensures var p := ParseFurther(c, argument, args, ostr, strict);
            EndsCleanlyOrDashed(p, ParseFurther(c, argument, args[..p.used], ostr, lax), args, ostr)
    decreases |args|, 2, 0
  {
    hide ParseArgs, ParseCluster, Dashed;
    var p := ParseFurther(c, argument, args, ostr, strict);
    var n := strict.Takes(c);
    assert lax.Demands(c) == lax.Takes(c) == n && strict.Demands(c) <= n + 1;
    if |args| >= strict.Demands(c) {
      ArgsEnd(args[n..], ostr, lax, strict);
      assert args[..p.used][n..] == args[n..][..p.used - n] && args[..p.used][..n] == args[..n];
    }
  }

  /** Of a whole command line: the index ends at argument k with letters of it reported
      exactly if the arguments before it are complete and it is dashed. */
  lemma LeftAfterReporting(args: seq<string>, k: nat, ostr: string, lax: Caller, strict: Caller)
    requires OneStricter(lax, strict) && k < |args|
    ensures var p, before := ParseArgs(args, ostr, strict), ParseArgs(args[..k], ostr, lax);
            p.used == k && p.events != before.events <==> before.exhausted && Dashed(ostr, args[k])
  {
    hide ParseArgs, Dashed;
    ArgsEnd(args, ostr, lax, strict);
    if ParseArgs(args[..k], ostr, lax).exhausted {
      assert args[..k] + args[k..] == args;
      ObeyedYetLeftAfter(args[..k], args[k..], ostr, lax, strict);
    }
  }

  /** After any such beginning an argument is obeyed and yet left, exactly when it is dashed. */
  lemma ObeyedYetLeftAfter(pre: seq<string>, args: seq<string>, ostr: string, lax: Caller, strict: Caller)
    requires ParseArgs(pre, ostr, lax).exhausted && Enough(lax, strict, |args|)
    ensures var p := ParseArgs(pre + args, ostr, strict);
            p.used == |pre| && p.events != ParseArgs(pre, ostr, lax).events
            <==> args != [] && Dashed(ostr, args[0])
  {
    hide ParseArgs, Dashed, Enough;
    Continues(pre, args, ostr, lax, strict);
    ObeyedYetLeft(args, ostr, strict);
  }

  // ----- Command lines written down and parsed -----

  /** An option as it is written, each argument apart. */
  function Written(e: Event): seq<string> {
    match e
    case Flag(c) => ["-" + [c]]
    case IllegalOption(c) => ["-" + [c]]
    case WithArgument(c, argument, further) => ["-" + [c], argument] + further
    case MissingArgument(c) => ["-" + [c]]
    case TooFewArguments(_) => []
  }

  function AllWritten(es: seq<Event>): seq<string> {
    if es == [] then [] else Written(es[0]) + AllWritten(es[1..])
  }

  /** An option with everything it and its caller ask for, or a letter that is none. */
  predicate Complete(ostr: string, caller: Caller, e: Event) {
    match e
    case Flag(c) => c != '-' && IsOption(ostr, c) && !TakesArgument(ostr, c)
    case IllegalOption(c) => c != '-' && !IsOption(ostr, c)
    case WithArgument(c, _, further) => c != '-' && TakesArgument(ostr, c) && |further| == caller.Takes(c)
    case _ => false
  }

  lemma WrittenParses(e: Event, rest: seq<string>, ostr: string, caller: Caller)
    requires Complete(ostr, caller, e) && caller.Demands(e.letter) == caller.Takes(e.letter)
    ensures ParseArgs(Written(e) + rest, ostr, caller) == Before(e, Past(|Written(e)|, ParseArgs(rest, ostr, caller)))
  {
    hide ParseArgs, ParseCluster, IsOption, TakesArgument;
    match e
    case Flag(c) => SingleParse(c, rest, ostr, caller);
    case IllegalOption(c) =>
      TakesIsOption(ostr, c);
      SingleParse(c, rest, ostr, caller);
    case WithArgument(c, argument, further) =>
      assert Written(e) + rest == ["-" + [c], argument] + (further + rest);
      SeparateArgument(c, argument, further + rest, ostr, caller);
      assert (further + rest)[..|further|] == further && (further + rest)[|further|..] == rest;
  }

  lemma TakesIsOption(ostr: string, c: char)
    ensures TakesArgument(ostr, c) ==> IsOption(ostr, c)
  {
  }

  /** Any options written down one after the other are parsed to just these options. */
  lemma {:induction false} AllWrittenParses(es: seq<Event>, ostr: string, caller: Caller)
    requires forall e :: e in es ==> Complete(ostr, caller, e) && caller.Demands(e.letter) == caller.Takes(e.letter)
    ensures ParseArgs(AllWritten(es), ostr, caller) == Parse(es, |AllWritten(es)|, true)
  {
    hide ParseArgs, Complete, Written;
    if es == [] {
      NoArguments(ostr, caller);
    } else {
      AllWrittenParses(es[1..], ostr, caller);
      WrittenParses(es[0], AllWritten(es[1..]), ostr, caller);
      assert [es[0]] + es[1..] == es;
    }
  }

  /** Where the options end: at the end of the arguments, at one that does not start with a
      dash, at a lone dash, which is left, or at one that starts with two, which is not. */
  lemma OptionsEnd(rest: seq<string>, ostr: string, caller: Caller)
    ensures rest == [] ==> ParseArgs(rest, ostr, caller) == Parse([], 0, true)
    ensures rest != [] && (rest[0] == "" || rest[0][0] != '-') ==> ParseArgs(rest, ostr, caller) == Parse([], 0, false)
    ensures rest != [] && rest[0] == "-" && !IsOption(ostr, '-') ==>
              ParseArgs(rest, ostr, caller) == Parse([], 0, false)
    ensures rest != [] && |rest[0]| > 1 && rest[0][..2] == "--" ==> ParseArgs(rest, ostr, caller) == Parse([], 1, false)
  {
    hide IsOption, TakesArgument;
    if rest != [] && |rest[0]| > 1 && rest[0][..2] == "--" {
      assert rest[0][0] == rest[0][..2][0] && rest[0][1] == rest[0][..2][1];
    }
  }

  /** A whole command line: options as written, then operands, after two dashes or not. */
  lemma WholeLine(es: seq<Event>, rest: seq<string>, ostr: string, lax: Caller, strict: Caller)
    requires forall e :: e in es ==> Complete(ostr, lax, e) && lax.Demands(e.letter) == lax.Takes(e.letter)
    requires Enough(lax, strict, |rest|)
    ensures var args := AllWritten(es) + rest;
            var p := ParseArgs(args, ostr, strict);
            && (rest == [] || rest[0] == "" || rest[0][0] != '-' ==> p.events == es && args[p.used..] == rest)
            && (rest != [] && rest[0] == "-" && !IsOption(ostr, '-') ==> p.events == es && args[p.used..] == rest)
            && (rest != [] && |rest[0]| > 1 && rest[0][..2] == "--" ==> p.events == es && args[p.used..] == rest[1..])
  {
    hide ParseArgs, Complete, AllWritten, IsOption, Enough;
    AllWrittenParses(es, ostr, lax);
    Continues(AllWritten(es), rest, ostr, lax, strict);
    OptionsEnd(rest, ostr, strict);
    assert es + [] == es;
  }

  /** A letter that takes an argument, at the end of the arguments. */
  lemma LastLetterLacksArgument(c: char, ostr: string, caller: Caller)
    requires TakesArgument(ostr, c) && c != '-'
    ensures ParseArgs(["-" + [c]], ostr, caller) == Parse([MissingArgument(c)], 1, false)
  {
    hide ParseArgs, ParseFurther;
    OpensCluster([c], [], ostr, caller);
    assert ["-" + [c]] + [] == ["-" + [c]];
  }

  /** The same options, and the same operands left. */
  predicate Alike(x: seq<string>, y: seq<string>, ostr: string, caller: Caller) {
    var p, q := ParseArgs(x, ostr, caller), ParseArgs(y, ostr, caller);
    p.events == q.events && x[p.used..] == y[q.used..]
  }

  lemma ContinuedOperands(pre: seq<string>, x: seq<string>, ostr: string, caller: Caller)
    requires ParseArgs(pre, ostr, caller).exhausted
    ensures var p, q := ParseArgs(pre + x, ostr, caller), ParseArgs(x, ostr, caller);
            && p.events == ParseArgs(pre, ostr, caller).events + q.events
            && (pre + x)[p.used..] == x[q.used..]
  {
    hide ParseArgs;
    Continues(pre, x, ostr, caller, caller);
  }

  /** Arguments that parse alike may replace each other after any such beginning. */
  lemma AlikeAfter(pre: seq<string>, x: seq<string>, y: seq<string>, ostr: string, caller: Caller)
    requires ParseArgs(pre, ostr, caller).exhausted && Alike(x, y, ostr, caller)
    ensures Alike(pre + x, pre + y, ostr, caller)
  {
    hide ParseArgs;
    ContinuedOperands(pre, x, ostr, caller);
    ContinuedOperands(pre, y, ostr, caller);
  }

  /** "-1rz" and "-1 -r -z". */
  lemma FlagsClusterFreely(w: string, rest: seq<string>, ostr: string, caller: Caller)
    requires w != "" && Plain(ostr, w)
    ensures Alike(["-" + w] + rest, Singles(w) + rest, ostr, caller)
  {
    hide ParseArgs, ParseFurther, Plain, PlainEvents;
    var args := ["-" + w] + rest;
    assert Plain(ostr, w) ==> w[0] != '-' by {
      PlainStart(ostr, w);
    }
    OpensCluster(w, rest, ostr, caller);
    assert w + "" == w && args[1..] == rest;
    PlainPrefix(w, "", args, ostr, caller);
    SinglesParse(w, rest, ostr, caller);
    var n := ParseArgs(rest, ostr, caller).used;
    assert args[1 + n..] == rest[n..] == (Singles(w) + rest)[|w| + n..];
  }

  lemma PlainStart(ostr: string, w: string)
    requires w != "" && Plain(ostr, w)
    ensures w[0] != '-'
  {
  }

  /** "-p4443" and "-p 4443". */
  lemma ArgumentsAttachFreely(c: char, argument: string, rest: seq<string>, ostr: string, caller: Caller)
    requires TakesArgument(ostr, c) && c != '-' && argument != ""
    ensures Alike(["-" + [c] + argument] + rest, ["-" + [c], argument] + rest, ostr, caller)
  {
    hide ParseArgs, TakesArgument;
    AttachingIsTransparent(c, argument, rest, ostr, caller);
    AttachedIsPast(c, argument, rest, ostr, caller);
    var n := ParseArgs(["-" + [c] + argument] + rest, ostr, caller).used;
    assert (["-" + [c] + argument] + rest)[n..] == rest[n - 1..] == (["-" + [c], argument] + rest)[n + 1..];
  }

  lemma AttachedIsPast(c: char, argument: string, rest: seq<string>, ostr: string, caller: Caller)
    requires TakesArgument(ostr, c) && c != '-' && argument != ""
    ensures ParseArgs(["-" + [c] + argument] + rest, ostr, caller).used >= 1
  {
    hide ParseArgs, ParseFurther;
    assert "-" + [c] + argument == "-" + ([c] + argument);
    OpensCluster([c] + argument, rest, ostr, caller);
  }
}
