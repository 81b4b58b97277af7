/** The command line of the interval evaluator: help, the default number of
    evaluations, or a number of evaluations given as the fourth argument. */
module EvaluatorMain {
  import opened Options
  import opened BoxCodec

  /** The range of a 32-bit `int`. */
  const IntMin: int := -0x8000_0000
  const IntMax: int := 0x7FFF_FFFF

  /** `std::stoi(s)`: optional leading white space, an optional sign and at
      least one digit, the rest ignored; None where it throws
      `std::invalid_argument` (no digits) or `std::out_of_range`. */
  function Stoi(s: string): Option<int> {
    match ScanInt(s)
    case None => None
    case Some((v, _)) => if IntMin <= v <= IntMax then Some(v) else None
  }

  /** Every printed `int` converts back to itself. */
  lemma StoiOfString(n: int)
    requires IntMin <= n <= IntMax
    ensures Stoi(IntToString(n)) == Some(n)
  {
    ScanIntOfString(n, "");
    assert IntToString(n) + "" == IntToString(n);
  }

  /** What `main` goes on to do. */
  datatype Action =
    | Help
    | Evaluate(videoName: string, trackerName: string, nEval: int)
    | BadNumber
    | Usage

  const DefaultEvaluations: int := 10

  /** `main(argc, argv)`, with `args` holding `argv[0 .. argc - 1]`. */
  function Dispatch(args: seq<string>): Action {
    if |args| == 2 && (args[1] == "-h" || args[1] == "--help") then Help
    else if |args| == 3 then Evaluate(args[1], args[2], DefaultEvaluations)
    else if |args| == 5 then
      match Stoi(args[4])
      case None => BadNumber
      case Some(v) => Evaluate(args[1], args[2], v)
    else Usage
  }

  /** Help is shown for exactly one argument that is `-h` or `--help`. */
  lemma DispatchHelp(args: seq<string>)
    ensures Dispatch(args) == Help <==> |args| == 2 && (args[1] == "-h" || args[1] == "--help")
  {
  }

  /** An evaluation runs exactly for two or four arguments (when the fourth
      converts): on the video and tracker named first, with 10 evaluations
      unless a fourth argument gives the number. */
  lemma DispatchEvaluate(args: seq<string>)
    ensures Dispatch(args).Evaluate? <==> |args| == 3 || (|args| == 5 && Stoi(args[4]).Some?)
    ensures Dispatch(args).Evaluate? ==>
      && Dispatch(args).videoName == args[1] && Dispatch(args).trackerName == args[2]
      && Dispatch(args).nEval == if |args| == 3 then 10 else Stoi(args[4]).value
  {
  }

  /** The usage message is printed exactly when the arguments are neither
      a lone help flag nor three or five words. */
  lemma DispatchUsage(args: seq<string>)
    ensures Dispatch(args) == Usage
        <==> |args| !in {3, 5} && !(|args| == 2 && (args[1] == "-h" || args[1] == "--help"))
  {
  }

  /** The third argument is never looked at. */
  lemma DispatchIgnoresThird(args: seq<string>, other: string)
    requires |args| == 5
    ensures Dispatch(args[3 := other]) == Dispatch(args)
  {
    assert args[3 := other][4] == args[4];
  }

  /** A number of evaluations given in the canonical decimal form is the
      one used. */
  lemma DispatchReadsCount(video: string, tracker: string, third: string, n: int)
    requires IntMin <= n <= IntMax
    ensures Dispatch(["detectionEvaluator", video, tracker, third, IntToString(n)]) == Evaluate(video, tracker, n)
  {
    StoiOfString(n);
  }
}
