/** Command-line parsing for the two process modes. The worker and
    orchestrator modes take `--orchestrator`, `--app=<u32>` and the pipe
    handles `--tx=<handle>` / `--rx=<handle>`; the interface mode takes
    `--auto-open=<u32>`. Handles are the integers the process would turn
    into pipe ends (`i32` file descriptors on Linux). */
module Arguments {
  import opened Common
  import Decimal

  datatype CliArguments = CliArguments(isOrchestrator: bool, isApp: u32, rx: Option<i32>, tx: Option<i32>)

  /** Either the parsed arguments, or the process exits with a code after
      printing a message. */
  datatype CliOutcome = Parsed(args: CliArguments) | Exit(code: int, message: string)

  const OrchestratorFlag: string := "--orchestrator"
  const AppPrefix: string := "--app="
  const TxPrefix: string := "--tx="
  const RxPrefix: string := "--rx="
  const AutoOpenPrefix: string := "--auto-open="

  predicate HasPrefix(s: string, prefix: string) {
    |prefix| <= |s| && s[..|prefix|] == prefix
  }

  /** A pipe handle as the Linux build reads it. */
  function ParseHandle(value: string): Option<i32> {
    Decimal.ParseI32(value)
  }

  /** One argument applied to the arguments read so far; the first
      invalid value ends the process. */
  function Apply(acc: CliArguments, arg: string): (r: CliOutcome)
    ensures r.Exit? ==> r.code == 1
  {
    if arg == OrchestratorFlag then Parsed(acc.(isOrchestrator := true))
    else if HasPrefix(arg, AppPrefix) then
      var value := arg[|AppPrefix|..];
      match Decimal.ParseU32(value)
      case Some(v) => Parsed(acc.(isApp := v))
      case None => Exit(1, "Invalid value for --app: " + value)
    else if HasPrefix(arg, TxPrefix) then
      var value := arg[|TxPrefix|..];
      match ParseHandle(value)
      case Some(h) => Parsed(acc.(tx := Some(h)))
      case None => Exit(1, "Invalid value for --tx: " + value)
    else if HasPrefix(arg, RxPrefix) then
      var value := arg[|RxPrefix|..];
      match ParseHandle(value)
      case Some(h) => Parsed(acc.(rx := Some(h)))
      case None => Exit(1, "Invalid value for --rx: " + value)
    else Parsed(acc)
  }

  /** The arguments in order, from the defaults. */
  function Scan(args: seq<string>): CliOutcome {
    if |args| == 0 then Parsed(CliArguments(false, 0, None, None))
    else
      match Scan(args[..|args| - 1])
      case Exit(code, message) => Exit(code, message)
      case Parsed(acc) => Apply(acc, args[|args| - 1])
  }

  /** `parse_cli_arguments`: skips the program name, reads every argument,
      and insists that the two pipe handles come together. */
  function ParseCliArguments(argv: seq<string>): CliOutcome {
    var scanned := Scan(if |argv| == 0 then [] else argv[1..]);
    match scanned
    case Exit(_, _) => scanned
    case Parsed(a) =>
      if a.tx.Some? != a.rx.Some? then Exit(1, "Invalid arguments, tx and rx must be provided.")
      else scanned
  }

  // ---------------------------------------------------------------------
  // The same, stated argument by argument

  /** An argument whose value, if it carries one, is acceptable. */
  predicate ValidArg(arg: string) {
    && (HasPrefix(arg, AppPrefix) ==> Decimal.ParseU32(arg[|AppPrefix|..]).Some?)
    && (HasPrefix(arg, TxPrefix) ==> ParseHandle(arg[|TxPrefix|..]).Some?)
    && (HasPrefix(arg, RxPrefix) ==> ParseHandle(arg[|RxPrefix|..]).Some?)
  }

  /** The text after `prefix` in the last argument that has it. */
  function LastValue(args: seq<string>, prefix: string): (r: Option<string>)
    ensures r.Some? <==> exists i :: 0 <= i < |args| && HasPrefix(args[i], prefix)
  {
    if |args| == 0 then None
    else if HasPrefix(args[|args| - 1], prefix) then Some(args[|args| - 1][|prefix|..])
    else
      var r := LastValue(args[..|args| - 1], prefix);
      assert forall i :: 0 <= i < |args| - 1 ==> args[..|args| - 1][i] == args[i];
      r
  }

  function HandleOf(value: Option<string>): Option<i32> {
    if value.None? then None else ParseHandle(value.value)
  }

  /** The prefixes are told apart by their third character. */
  lemma PrefixesExclusive(arg: string)
    ensures HasPrefix(arg, AppPrefix) ==> !HasPrefix(arg, TxPrefix) && !HasPrefix(arg, RxPrefix) && arg != OrchestratorFlag
    ensures HasPrefix(arg, TxPrefix) ==> !HasPrefix(arg, RxPrefix) && arg != OrchestratorFlag
    ensures HasPrefix(arg, RxPrefix) ==> arg != OrchestratorFlag
  {
    if HasPrefix(arg, AppPrefix) { assert arg[2] == AppPrefix[2]; }
    if HasPrefix(arg, TxPrefix) { assert arg[2] == TxPrefix[2]; }
    if HasPrefix(arg, RxPrefix) { assert arg[2] == RxPrefix[2]; }
  }

  /** One argument fails exactly when its value is invalid, and otherwise
      sets only what it names. */
  lemma ApplyMeaning(acc: CliArguments, arg: string)
    ensures Apply(acc, arg).Exit? <==> !ValidArg(arg)
    ensures Apply(acc, arg).Parsed? ==>
      var a := Apply(acc, arg).args;
      && (a.isOrchestrator <==> acc.isOrchestrator || arg == OrchestratorFlag)
      && a.isApp == (if HasPrefix(arg, AppPrefix) then Decimal.ParseU32(arg[|AppPrefix|..]).GetOr(0) else acc.isApp)
      && a.tx == (if HasPrefix(arg, TxPrefix) then ParseHandle(arg[|TxPrefix|..]) else acc.tx)
      && a.rx == (if HasPrefix(arg, RxPrefix) then ParseHandle(arg[|RxPrefix|..]) else acc.rx)
  {
    PrefixesExclusive(arg);
  }

  /** Reading the arguments fails exactly when one has an invalid value. */
  lemma {:induction false} ScanFails(args: seq<string>)
    ensures Scan(args).Exit? <==> exists i :: 0 <= i < |args| && !ValidArg(args[i])
    ensures Scan(args).Exit? ==> Scan(args).code == 1
  {
    if |args| > 0 {
      var front, last := args[..|args| - 1], args[|args| - 1];
      ScanFails(front);
      assert forall i :: 0 <= i < |front| ==> front[i] == args[i];
      if Scan(front).Exit? {
        var i :| 0 <= i < |front| && !ValidArg(front[i]);
        assert !ValidArg(args[i]);
      } else {
        ApplyMeaning(Scan(front).args, last);
      }
    }
  }

  /** When reading succeeds, each setting comes from the last argument that
      gives it, and `--orchestrator` anywhere sets the flag. */
  lemma {:induction false} ScanSettings(args: seq<string>)
    ensures Scan(args).Parsed? ==>
      var a := Scan(args).args;
      && (a.isOrchestrator <==> OrchestratorFlag in args)
      && a.isApp == (match LastValue(args, AppPrefix) case None => 0 case Some(v) => Decimal.ParseU32(v).GetOr(0))
      && a.tx == HandleOf(LastValue(args, TxPrefix))
      && a.rx == HandleOf(LastValue(args, RxPrefix))
  {
    if |args| > 0 {
      var front, last := args[..|args| - 1], args[|args| - 1];
      ScanSettings(front);
      assert args == front + [last];
      if Scan(front).Parsed? {
        ApplyMeaning(Scan(front).args, last);
      }
    }
  }

  /** The command line parses exactly when every value is valid and the
      handles come together; then both handles are present or neither is. */
  lemma ParseCliArgumentsMeaning(argv: seq<string>)
    ensures var args := if |argv| == 0 then [] else argv[1..];
      ParseCliArguments(argv).Parsed? <==>
        (forall i :: 0 <= i < |args| ==> ValidArg(args[i])) &&
        (LastValue(args, TxPrefix).Some? <==> LastValue(args, RxPrefix).Some?)
    ensures ParseCliArguments(argv).Parsed? ==>
      ParseCliArguments(argv).args.tx.Some? == ParseCliArguments(argv).args.rx.Some?
    ensures ParseCliArguments(argv).Exit? ==> ParseCliArguments(argv).code == 1
  {
    var args := if |argv| == 0 then [] else argv[1..];
    ScanFails(args);
    ScanSettings(args);
    if Scan(args).Parsed? {
      forall v | v in [LastValue(args, TxPrefix), LastValue(args, RxPrefix)] && v.Some?
        ensures ParseHandle(v.value).Some?
      {
        var p := if v == LastValue(args, TxPrefix) then TxPrefix else RxPrefix;
        LastValueValid(args, p);
      }
    }
  }

  /** The last value of a prefix comes from an argument that has it. */
  lemma {:induction false} LastValueValid(args: seq<string>, prefix: string)
    requires prefix == TxPrefix || prefix == RxPrefix
    requires forall i :: 0 <= i < |args| ==> ValidArg(args[i])
    ensures LastValue(args, prefix).Some? ==> ParseHandle(LastValue(args, prefix).value).Some?
  {
    if |args| > 0 && !HasPrefix(args[|args| - 1], prefix) {
      LastValueValid(args[..|args| - 1], prefix);
    }
  }

  /** The argument a worker process is started with. */
  function AppArgument(appId: u32): string {
    AppPrefix + Decimal.NatToString(appId)
  }

  /** The app argument alone reads back as that app id and nothing else. */
  lemma AppArgumentRoundTrip(program: string, appId: u32)
    ensures ParseCliArguments([program, AppArgument(appId)]) == Parsed(CliArguments(false, appId, None, None))
  {
    var arg := AppArgument(appId);
    assert arg[..|AppPrefix|] == AppPrefix;
    assert arg[|AppPrefix|..] == Decimal.NatToString(appId);
    assert arg != OrchestratorFlag by {
      assert arg[2] == 'a';
    }
    Decimal.U32RoundTrip(appId);
    assert [program, arg][1..] == [arg];
    assert [arg][..0] == [];
    assert Scan([arg]) == Apply(CliArguments(false, 0, None, None), arg);
  }

  /** The command line of a worker process: the program, its app argument,
      then the two pipe handles appended by the spawning side, `--tx=` (the
      end the worker writes to) before `--rx=` (the end it reads from). */
  function WorkerCommandLine(program: string, appId: u32, tx: i32, rx: i32): seq<string> {
    [program, AppArgument(appId), TxPrefix + Decimal.IntToString(tx), RxPrefix + Decimal.IntToString(rx)]
  }

  /** A worker's command line reads back as worker mode for its app, with
      both handles present and each in its own field, as the worker's
      start-up requires. */
  lemma WorkerCommandLineRoundTrip(program: string, appId: u32, tx: i32, rx: i32)
    ensures ParseCliArguments(WorkerCommandLine(program, appId, tx, rx)) ==
      Parsed(CliArguments(false, appId, Some(rx), Some(tx)))
  {
    var a, t, r := AppArgument(appId), TxPrefix + Decimal.IntToString(tx), RxPrefix + Decimal.IntToString(rx);
    var argv := WorkerCommandLine(program, appId, tx, rx);
    assert a[..|AppPrefix|] == AppPrefix && a[|AppPrefix|..] == Decimal.NatToString(appId);
    assert t[..|TxPrefix|] == TxPrefix && t[|TxPrefix|..] == Decimal.IntToString(tx);
    assert r[..|RxPrefix|] == RxPrefix && r[|RxPrefix|..] == Decimal.IntToString(rx);
    Decimal.U32RoundTrip(appId);
    Decimal.I32RoundTrip(tx);
    Decimal.I32RoundTrip(rx);
    PrefixesExclusive(a);
    PrefixesExclusive(t);
    PrefixesExclusive(r);
    var d := CliArguments(false, 0, None, None);
    ApplyMeaning(d, a);
    var d1 := d.(isApp := appId);
    ApplyMeaning(d1, t);
    var d2 := d1.(tx := Some(tx));
    ApplyMeaning(d2, r);
    assert argv[1..] == [a, t, r];
    assert [a, t, r][..2] == [a, t] && [a, t][..1] == [a] && [a][..0] == [];
    assert Scan([a]) == Parsed(d1);
    assert Scan([a, t]) == Parsed(d2);
    assert Scan([a, t, r]) == Parsed(d2.(rx := Some(rx)));
  }

  // ---------------------------------------------------------------------
  // Interface mode

  /** The value of the last valid `--auto-open=`; invalid ones are skipped. */
  function LastAutoOpen(args: seq<string>): Option<u32> {
    if |args| == 0 then None
    else
      var last := args[|args| - 1];
      if HasPrefix(last, AutoOpenPrefix) && Decimal.ParseU32(last[|AutoOpenPrefix|..]).Some?
      then Decimal.ParseU32(last[|AutoOpenPrefix|..])
      else LastAutoOpen(args[..|args| - 1])
  }

  /** `parse_gui_arguments`: the app to open at start, 0 for none. */
  method ParseGuiArguments(argv: seq<string>) returns (autoOpen: u32)
    ensures autoOpen == LastAutoOpen(if |argv| == 0 then [] else argv[1..]).GetOr(0)
  {
    var args := if |argv| == 0 then [] else argv[1..];
    autoOpen := 0;
    var i := 0;
    while i < |args|
      invariant 0 <= i <= |args|
      invariant autoOpen == LastAutoOpen(args[..i]).GetOr(0)
    {
      var arg := args[i];
      assert args[..i + 1][..i] == args[..i];
      if HasPrefix(arg, AutoOpenPrefix) {
        var value := Decimal.ParseU32(arg[|AutoOpenPrefix|..]);
        if value.Some? {
          autoOpen := value.value;
        }
      }
      i := i + 1;
    }
    assert args[..i] == args;
  }

  /** A later valid value overrides an earlier one; an invalid value
      changes nothing. */
  lemma AutoOpenLastWins(args: seq<string>, v: u32, bad: string)
    requires Decimal.ParseU32(bad).None?
    ensures LastAutoOpen(args + [AutoOpenPrefix + Decimal.NatToString(v)]) == Some(v)
    ensures LastAutoOpen(args + [AutoOpenPrefix + bad]) == LastAutoOpen(args)
  {
    var good := AutoOpenPrefix + Decimal.NatToString(v);
    assert good[|AutoOpenPrefix|..] == Decimal.NatToString(v);
    Decimal.U32RoundTrip(v);
    var worse := AutoOpenPrefix + bad;
    assert worse[|AutoOpenPrefix|..] == bad;
    assert (args + [worse])[..|args|] == args;
  }
}
