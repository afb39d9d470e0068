/**
 * The command dispatcher of the console program. `main` walks the
 * command-line tokens, taking a command name followed by exactly as many
 * arguments as that command declares. The `interactive` command reads one
 * command per line instead.
 *
 * What a command does is abstract here. A command table gives each name its
 * parameter count. A `fails` function says which invocations throw and with
 * what message; it is indexed by the token or line position, because a
 * command's outcome depends on the state left by the commands before it.
 * The global `time_commands` flag, switched by `report_time` and
 * `do_not_report_time`, is the one command effect the dispatcher observes.
 */
module ConsoleDispatch {
  import opened Wrappers
  import Text

  /**
   * An entry of the command table. `setsTimeFlag` is the value the command's
   * function assigns to `time_commands`, for the commands that assign it.
   */
  datatype Command = Command(name: string, parameterCount: nat, setsTimeFlag: Option<bool>)

  /** One completed command: its name, its arguments, and whether its running time is printed. */
  datatype Invocation = Invocation(name: string, args: seq<string>, timed: bool)

  /** Why a run of `main` stopped early; `main` prints `Exception : ` followed by `Message`. */
  datatype Failure =
    | UnknownCommand(token: string)
    | NotEnoughParameters(name: string)
    | CommandThrew(name: string, message: string)

  function Message(f: Failure): string
  {
    match f
    case UnknownCommand(token) => "Unknown command " + token
    case NotEnoughParameters(name) => "Not enough parameters to command " + name
    case CommandThrew(_, message) => message
  }

  /** The commands `main` completed, and the failure that stopped it, if any. */
  datatype RunTrace = RunTrace(invocations: seq<Invocation>, failure: Option<Failure>)

  /** The first command of the table with the given name. */
  function Lookup(cmds: seq<Command>, name: string): (r: Option<nat>)
    ensures r.Some? ==> r.value < |cmds| && cmds[r.value].name == name
  {
    if cmds == [] then None
    else if cmds[0].name == name then Some(0)
    else match Lookup(cmds[1..], name)
      case None => None
      case Some(k) => Some(k + 1)
  }

  /** `Lookup` finds the first command with the name, and fails only when no command has it. */
  lemma {:induction false} LookupFirst(cmds: seq<Command>, name: string)
    ensures Lookup(cmds, name).Some? ==> forall i :: 0 <= i < Lookup(cmds, name).value ==> cmds[i].name != name
    ensures Lookup(cmds, name).None? <==> forall i :: 0 <= i < |cmds| ==> cmds[i].name != name
  {
    if cmds != [] && cmds[0].name != name {
      LookupFirst(cmds[1..], name);
      assert forall i :: 1 <= i < |cmds| ==> cmds[i] == cmds[1..][i - 1];
    }
  }

  /** The linear search both `main` and `interactive` perform; `-1` when no command matches. */
  method FindCommand(cmds: seq<Command>, name: string) returns (c: int)
    ensures c == -1 <==> Lookup(cmds, name).None?
    ensures c != -1 ==> c == Lookup(cmds, name).value
  {
    LookupFirst(cmds, name);
    c := -1;
    var i := 0;
    while i < |cmds|
      invariant 0 <= i <= |cmds|
      invariant forall j :: 0 <= j < i ==> cmds[j].name != name
    {
      if cmds[i].name == name {
        c := i;
        return;
      }
      i := i + 1;
    }
  }

  /** What the console's table says a command named `name` does to `time_commands`. */
  function SwitchFor(name: string): Option<bool>
  {
    if name == "report_time" then Some(true)
    else if name == "do_not_report_time" then Some(false)
    else None
  }

  /** Only `report_time` and `do_not_report_time` touch the flag, switching it on and off. */
  predicate ConsoleSwitches(cmds: seq<Command>)
  {
    forall j :: 0 <= j < |cmds| ==> cmds[j].setsTimeFlag == SwitchFor(cmds[j].name)
  }

  /** The `time_commands` flag after the command completed. */
  function TimeFlagAfter(c: Command, timeCommands: bool): bool
  {
    if c.setsTimeFlag.Some? then c.setsTimeFlag.value else timeCommands
  }

  /**
   * What `main` does at token `pos`, which does not depend on the flag: the
   * token names no command, too few tokens follow it, the command throws, or
   * the command completes and the next one starts at `next`.
   */
  datatype Decision =
    | Halt(failure: Failure)
    | Invoke(command: Command, args: seq<string>, next: nat)

  function Decide(cmds: seq<Command>, argv: seq<string>, pos: nat, fails: (nat, string, seq<string>) -> Option<string>): (d: Decision)
    requires pos < |argv|
    ensures d.Invoke? ==> pos < d.next <= |argv|
    ensures d.Invoke? ==>
      && Lookup(cmds, argv[pos]).Some?
      && d.command == cmds[Lookup(cmds, argv[pos]).value]
      && d.args == argv[pos + 1..d.next]
      && |d.args| == d.command.parameterCount
  {
    match Lookup(cmds, argv[pos])
    case None => Halt(UnknownCommand(argv[pos]))
    case Some(c) =>
      var count := cmds[c].parameterCount;
      if pos + 1 + count > |argv| then Halt(NotEnoughParameters(cmds[c].name))
      else
        var args := argv[pos + 1..pos + 1 + count];
        match fails(pos, cmds[c].name, args)
        case Some(message) => Halt(CommandThrew(cmds[c].name, message))
        case None => Invoke(cmds[c], args, pos + 1 + count)
  }

  /** Every decision that completes a command moves forward, and not past the end. */
  predicate Chained(ds: seq<Decision>)
  {
    forall p :: 0 <= p < |ds| && ds[p].Invoke? ==> p < ds[p].next <= |ds|
  }

  /** A completed command was read from the tokens: its name at `p`, its arguments up to `next`. */
  predicate ReadsTokens(ds: seq<Decision>, argv: seq<string>)
  {
    && |ds| == |argv|
    && Chained(ds)
    && forall p :: 0 <= p < |ds| && ds[p].Invoke? ==>
         ds[p].command.name == argv[p] && ds[p].args == argv[p + 1..ds[p].next]
  }

  /** The name is in the table and the arguments are as many as its first entry declares. */
  predicate Declared(cmds: seq<Command>, name: string, args: seq<string>)
  {
    Lookup(cmds, name).Some? && |args| == cmds[Lookup(cmds, name).value].parameterCount
  }

  predicate KnownInvocations(ds: seq<Decision>, cmds: seq<Command>)
  {
    forall p :: 0 <= p < |ds| && ds[p].Invoke? ==> Declared(cmds, ds[p].command.name, ds[p].args)
  }

  /** The decision at every token position. */
  function Decisions(cmds: seq<Command>, argv: seq<string>, fails: (nat, string, seq<string>) -> Option<string>): (ds: seq<Decision>)
    ensures |ds| == |argv| && Chained(ds)
  {
    seq(|argv|, pos requires 0 <= pos < |argv| => Decide(cmds, argv, pos, fails))
  }

  /** `main` reads each completed command from the tokens, and only declared commands complete. */
  lemma DecisionsReadTokens(cmds: seq<Command>, argv: seq<string>, fails: (nat, string, seq<string>) -> Option<string>)
    ensures ReadsTokens(Decisions(cmds, argv, fails), argv)
    ensures KnownInvocations(Decisions(cmds, argv, fails), cmds)
  {
  }

  /**
   * What `main` does from token `pos` on, with the flag as it stands. A
   * running time is printed only when the flag was set both before and
   * after the command, so the switching commands themselves are never timed.
   */
  function RunFrom(ds: seq<Decision>, pos: nat, timeCommands: bool): RunTrace
    requires Chained(ds) && pos <= |ds|
    decreases |ds| - pos
  {
    if pos == |ds| then RunTrace([], None)
    else match ds[pos]
      case Halt(failure) => RunTrace([], Some(failure))
      case Invoke(c, args, next) =>
        var after := TimeFlagAfter(c, timeCommands);
        var rest := RunFrom(ds, next, after);
        RunTrace([Invocation(c.name, args, timeCommands && after)] + rest.invocations, rest.failure)
  }

  /** The whole command line: the tokens after the program name, with the flag initially off. */
  function RunAll(cmds: seq<Command>, argv: seq<string>, fails: (nat, string, seq<string>) -> Option<string>): RunTrace
    requires |argv| >= 1
  {
    RunFrom(Decisions(cmds, argv, fails), 1, false)
  }

  /** The body of `main`'s loop up to running the command: find it, cut out its arguments. */
  method TakeStep(cmds: seq<Command>, argv: seq<string>, pos: nat, fails: (nat, string, seq<string>) -> Option<string>) returns (d: Decision)
    requires pos < |argv|
    ensures d == Decide(cmds, argv, pos, fails)
  {
    var c := FindCommand(cmds, argv[pos]);
    if c == -1 {
      return Halt(UnknownCommand(argv[pos]));
    }
    var count := cmds[c].parameterCount;
    if pos + 1 + count > |argv| {
      return Halt(NotEnoughParameters(cmds[c].name));
    }
    var args := argv[pos + 1..pos + 1 + count];
    var outcome := fails(pos, cmds[c].name, args);
    if outcome.Some? {
      return Halt(CommandThrew(cmds[c].name, outcome.value));
    }
    d := Invoke(cmds[c], args, pos + 1 + count);
  }

  /** `main`: the loop over `arg_pos`, stopping at the first exception. */
  method RunCommandLine(cmds: seq<Command>, argv: seq<string>, fails: (nat, string, seq<string>) -> Option<string>) returns (trace: RunTrace)
    requires |argv| >= 1
    ensures trace == RunAll(cmds, argv, fails)
  {
    ghost var ds := Decisions(cmds, argv, fails);
    var argPos := 1;
    var timeCommands := false;
    var done: seq<Invocation> := [];
    while argPos < |argv|
      invariant 1 <= argPos <= |argv|
      invariant RunFrom(ds, 1, false).invocations == done + RunFrom(ds, argPos, timeCommands).invocations
      invariant RunFrom(ds, 1, false).failure == RunFrom(ds, argPos, timeCommands).failure
      decreases |argv| - argPos
    {
      var d := TakeStep(cmds, argv, argPos, fails);
      assert d == ds[argPos];
      if d.Halt? {
        return RunTrace(done, Some(d.failure));
      }
      var after := TimeFlagAfter(d.command, timeCommands);
      var invocation := Invocation(d.command.name, d.args, timeCommands && after);
      ghost var rest := RunFrom(ds, d.next, after).invocations;
      Regroup(done, invocation, rest);
      done := done + [invocation];
      argPos, timeCommands := d.next, after;
    }
    trace := RunTrace(done, None);
  }

  lemma Regroup<T>(done: seq<T>, x: T, rest: seq<T>)
    ensures (done + [x]) + rest == done + ([x] + rest)
  {
  }

  /** The tokens an invocation was made of: its name followed by its arguments. */
  function Tokens(invocations: seq<Invocation>): seq<string>
  {
    if invocations == [] then [] else [invocations[0].name] + invocations[0].args + Tokens(invocations[1..])
  }

  /** A run that reads its commands from `argv` and stops without an exception reads the tokens from `pos` on, each once. */
  lemma {:induction false} RunConsumesTokens(ds: seq<Decision>, argv: seq<string>, pos: nat, timeCommands: bool)
    requires ReadsTokens(ds, argv) && pos <= |ds|
    ensures var t := RunFrom(ds, pos, timeCommands);
      t.failure.None? ==> Tokens(t.invocations) == argv[pos..]
    decreases |ds| - pos
  {
    if pos < |ds| && ds[pos].Invoke? {
      var d := ds[pos];
      var after := TimeFlagAfter(d.command, timeCommands);
      RunConsumesTokens(ds, argv, d.next, after);
      var t := RunFrom(ds, pos, timeCommands);
      var rest := RunFrom(ds, d.next, after);
      assert t.invocations == [Invocation(d.command.name, d.args, timeCommands && after)] + rest.invocations;
      assert t.invocations[1..] == rest.invocations;
      if t.failure.None? {
        assert argv[pos..] == [argv[pos]] + argv[pos + 1..d.next] + argv[d.next..];
      }
    }
  }

  /**
   * A command line that runs without an exception is read completely: the
   * names and arguments of the completed commands, in order, are the tokens
   * after the program name.
   */
  lemma CommandLineConsumesTokens(cmds: seq<Command>, argv: seq<string>, fails: (nat, string, seq<string>) -> Option<string>)
    requires |argv| >= 1
    ensures RunAll(cmds, argv, fails).failure.None? ==> Tokens(RunAll(cmds, argv, fails).invocations) == argv[1..]
  {
    DecisionsReadTokens(cmds, argv, fails);
    RunConsumesTokens(Decisions(cmds, argv, fails), argv, 1, false);
  }

  /** Every command a run completes came from a decision, so it has what all decisions have. */
  lemma {:induction false} RunArgumentCounts(ds: seq<Decision>, cmds: seq<Command>, pos: nat, timeCommands: bool, k: nat)
    requires Chained(ds) && KnownInvocations(ds, cmds) && pos <= |ds|
    requires k < |RunFrom(ds, pos, timeCommands).invocations|
    ensures var inv := RunFrom(ds, pos, timeCommands).invocations[k];
      Declared(cmds, inv.name, inv.args)
    decreases k
  {
    var d := ds[pos];
    var after := TimeFlagAfter(d.command, timeCommands);
    var t := RunFrom(ds, pos, timeCommands);
    var rest := RunFrom(ds, d.next, after);
    assert t.invocations == [Invocation(d.command.name, d.args, timeCommands && after)] + rest.invocations;
    if k > 0 {
      assert t.invocations[k] == rest.invocations[k - 1];
      RunArgumentCounts(ds, cmds, d.next, after, k - 1);
    }
  }

  /** Every command `main` completed is in the table and got exactly the number of arguments it declares. */
  lemma CommandLineArgumentCounts(cmds: seq<Command>, argv: seq<string>, fails: (nat, string, seq<string>) -> Option<string>, k: nat)
    requires |argv| >= 1
    requires k < |RunAll(cmds, argv, fails).invocations|
    ensures Declared(cmds, RunAll(cmds, argv, fails).invocations[k].name, RunAll(cmds, argv, fails).invocations[k].args)
  {
    DecisionsReadTokens(cmds, argv, fails);
    RunArgumentCounts(Decisions(cmds, argv, fails), cmds, 1, false, k);
  }

  /** A known command without parameters that does not throw completes in one token. */
  lemma NoParameterStep(cmds: seq<Command>, argv: seq<string>, pos: nat, fails: (nat, string, seq<string>) -> Option<string>)
    requires pos < |argv|
    requires Lookup(cmds, argv[pos]).Some? && cmds[Lookup(cmds, argv[pos]).value].parameterCount == 0
    requires fails(pos, argv[pos], []).None?
    ensures Decide(cmds, argv, pos, fails) == Invoke(cmds[Lookup(cmds, argv[pos]).value], [], pos + 1)
  {
    assert argv[pos + 1..pos + 1] == [];
  }

  /**
   * `report_time X do_not_report_time`: the running time of `X` is printed,
   * and neither switching command prints its own.
   */
  lemma ReportTimeBrackets(cmds: seq<Command>, prog: string, x: string, fails: (nat, string, seq<string>) -> Option<string>)
    requires ConsoleSwitches(cmds)
    requires Lookup(cmds, "report_time").Some? && cmds[Lookup(cmds, "report_time").value].parameterCount == 0
    requires Lookup(cmds, "do_not_report_time").Some? && cmds[Lookup(cmds, "do_not_report_time").value].parameterCount == 0
    requires Lookup(cmds, x).Some? && cmds[Lookup(cmds, x).value].parameterCount == 0
    requires x != "report_time" && x != "do_not_report_time"
    requires fails(1, "report_time", []).None? && fails(2, x, []).None? && fails(3, "do_not_report_time", []).None?
    ensures var t := RunAll(cmds, [prog, "report_time", x, "do_not_report_time"], fails);
      t.failure.None? && |t.invocations| == 3
      && !t.invocations[0].timed && t.invocations[1].timed && !t.invocations[2].timed
      && t.invocations[1].name == x
  {
    var argv := [prog, "report_time", x, "do_not_report_time"];
    var ds := Decisions(cmds, argv, fails);
    assert argv[1] == "report_time" && argv[2] == x && argv[3] == "do_not_report_time";
    NoParameterStep(cmds, argv, 1, fails);
    NoParameterStep(cmds, argv, 2, fails);
    NoParameterStep(cmds, argv, 3, fails);
    var on := cmds[Lookup(cmds, "report_time").value];
    var cx := cmds[Lookup(cmds, x).value];
    var off := cmds[Lookup(cmds, "do_not_report_time").value];
    assert on.setsTimeFlag == Some(true) && off.setsTimeFlag == Some(false) && cx.setsTimeFlag == None;
    assert ds[1] == Invoke(on, [], 2) && ds[2] == Invoke(cx, [], 3) && ds[3] == Invoke(off, [], 4);
    var i1 := Invocation("report_time", [], false);
    var i2 := Invocation(x, [], true);
    var i3 := Invocation("do_not_report_time", [], false);
    assert RunFrom(ds, 4, false) == RunTrace([], None);
    assert RunFrom(ds, 3, true) == RunTrace([i3], None);
    assert RunFrom(ds, 2, true) == RunTrace([i2, i3], None);
    assert RunFrom(ds, 1, false) == RunTrace([i1, i2, i3], None);
  }

  /** Whitespace for `istringstream >>` in the C locale. */
  predicate IsCSpace(c: char)
  {
    c == ' ' || c == '\t' || c == '\n' || c == '\U{000B}' || c == '\U{000C}' || c == '\r'
  }

  predicate IsWord(w: string)
  {
    |w| >= 1 && forall j :: 0 <= j < |w| ==> !IsCSpace(w[j])
  }

  /** The longest prefix without whitespace. */
  function WordPrefix(s: string): (w: string)
    ensures |w| <= |s| && w == s[..|w|]
    ensures forall j :: 0 <= j < |w| ==> !IsCSpace(w[j])
    ensures |w| < |s| ==> IsCSpace(s[|w|])
  {
    if s == [] || IsCSpace(s[0]) then [] else [s[0]] + WordPrefix(s[1..])
  }

  /** The words `line_in >> x` extracts from a line, in order. */
  function Words(line: string): (r: seq<string>)
    ensures forall k :: 0 <= k < |r| ==> IsWord(r[k])
    decreases |line|
  {
    if line == [] then []
    else if IsCSpace(line[0]) then Words(line[1..])
    else
      var w := WordPrefix(line);
      [w] + Words(line[|w|..])
  }

  /** Words joined by single spaces. */
  function JoinWords(ws: seq<string>): string
  {
    if ws == [] then [] else if |ws| == 1 then ws[0] else ws[0] + " " + JoinWords(ws[1..])
  }

  lemma {:induction false} WordPrefixOfWord(w: string, rest: string)
    requires IsWord(w)
    requires rest == [] || IsCSpace(rest[0])
    ensures WordPrefix(w + rest) == w
  {
    if |w| > 1 {
      assert (w + rest)[1..] == w[1..] + rest;
      WordPrefixOfWord(w[1..], rest);
    } else {
      assert (w + rest)[1..] == rest;
    }
  }

  /** Splitting words joined by spaces gives back the words. */
  lemma {:induction false} WordsOfJoin(ws: seq<string>)
    requires forall k :: 0 <= k < |ws| ==> IsWord(ws[k])
    ensures Words(JoinWords(ws)) == ws
  {
    if |ws| == 1 {
      WordPrefixOfWord(ws[0], []);
      assert ws[0] + [] == ws[0];
      assert ws[0][|ws[0]|..] == [];
    } else if |ws| > 1 {
      var tail := JoinWords(ws[1..]);
      var line := ws[0] + " " + tail;
      WordPrefixOfWord(ws[0], " " + tail);
      assert line == ws[0] + (" " + tail);
      assert line[|ws[0]|..] == " " + tail;
      assert (" " + tail)[1..] == tail;
      WordsOfJoin(ws[1..]);
      assert ws == [ws[0]] + ws[1..];
    }
  }

  /** What the interactive loop prints for one line it processed. */
  datatype LineOutcome = Ran(invocation: Invocation) | Threw(message: string)

  /** The interactive session: one outcome per line, up to the first `exit`, and the flag afterwards. */
  datatype Session = Session(outcomes: seq<LineOutcome>, timeCommands: bool)

  function WrongCountMessage(name: string, expected: int, got: int): string
  {
    "Wrong number of parameters to command " + name + ". expected:" + Text.IntToString(expected)
      + ", got:" + Text.IntToString(got)
  }

  /** The first word of a line, or the empty string when the line has none. */
  function CommandWord(words: seq<string>): string
  {
    if words == [] then "" else words[0]
  }

  function Arguments(words: seq<string>): seq<string>
  {
    if words == [] then [] else words[1..]
  }

  /** True when the line's first word is `exit`. */
  predicate IsExit(words: seq<string>)
  {
    CommandWord(words) == "exit"
  }

  /**
   * What the interactive loop does with a line, which does not depend on the
   * flag: stop at `exit`; reject an unknown command or a wrong argument count
   * before running anything; or run the command, which may throw. Every
   * exception is caught and printed for that line alone.
   */
  datatype LineDecision = ExitLine | Rejected(message: string) | Accepted(command: Command, args: seq<string>)

  function DecideLine(cmds: seq<Command>, words: seq<string>, i: nat, fails: (nat, string, seq<string>) -> Option<string>): (d: LineDecision)
    ensures d.ExitLine? <==> IsExit(words)
    ensures d.Accepted? ==>
      && Lookup(cmds, CommandWord(words)).Some?
      && d.command == cmds[Lookup(cmds, CommandWord(words)).value]
      && d.args == Arguments(words)
      && |d.args| == d.command.parameterCount
  {
    if IsExit(words) then ExitLine
    else
      var command := CommandWord(words);
      var args := Arguments(words);
      match Lookup(cmds, command)
      case None => Rejected("Unknown command " + command)
      case Some(c) =>
        if |args| != cmds[c].parameterCount then
          Rejected(WrongCountMessage(cmds[c].name, cmds[c].parameterCount, |args|))
        else match fails(i, cmds[c].name, args)
          case Some(message) => Rejected(message)
          case None => Accepted(cmds[c], args)
  }

  /** The outcome of a line that is not `exit`, and the flag after it. */
  function LineOutcomeOf(d: LineDecision, timeCommands: bool): (LineOutcome, bool)
    requires !d.ExitLine?
  {
    match d
    case Rejected(message) => (Threw(message), timeCommands)
    case Accepted(c, args) =>
      var after := TimeFlagAfter(c, timeCommands);
      (Ran(Invocation(c.name, args, timeCommands && after)), after)
  }

  /** The interactive loop from line `i` on. */
  function SessionFrom(ds: seq<LineDecision>, i: nat, timeCommands: bool): Session
    requires i <= |ds|
    decreases |ds| - i
  {
    if i == |ds| || ds[i].ExitLine? then Session([], timeCommands)
    else
      var step := LineOutcomeOf(ds[i], timeCommands);
      var rest := SessionFrom(ds, i + 1, step.1);
      Session([step.0] + rest.outcomes, rest.timeCommands)
  }

  /** The decision for every input line. */
  function LineDecisions(cmds: seq<Command>, lines: seq<string>, fails: (nat, string, seq<string>) -> Option<string>): (ds: seq<LineDecision>)
    ensures |ds| == |lines|
  {
    seq(|lines|, j requires 0 <= j < |lines| => DecideLine(cmds, Words(lines[j]), j, fails))
  }

  /** The `interactive` command run on the given input lines. */
  function RunSession(cmds: seq<Command>, lines: seq<string>, timeCommands: bool, fails: (nat, string, seq<string>) -> Option<string>): Session
  {
    SessionFrom(LineDecisions(cmds, lines, fails), 0, timeCommands)
  }

  /** The `interactive` command: reads lines until `exit` or the end of input. */
  method Interactive(cmds: seq<Command>, lines: seq<string>, timeCommands0: bool, fails: (nat, string, seq<string>) -> Option<string>) returns (session: Session)
    ensures session == RunSession(cmds, lines, timeCommands0, fails)
  {
    ghost var ds := LineDecisions(cmds, lines, fails);
    var i := 0;
    var timeCommands := timeCommands0;
    var outcomes: seq<LineOutcome> := [];
    while i < |lines|
      invariant 0 <= i <= |lines|
      invariant SessionFrom(ds, 0, timeCommands0).outcomes == outcomes + SessionFrom(ds, i, timeCommands).outcomes
      invariant SessionFrom(ds, 0, timeCommands0).timeCommands == SessionFrom(ds, i, timeCommands).timeCommands
    {
      var words := Words(lines[i]);
      assert ds[i] == DecideLine(cmds, words, i, fails);
      if CommandWord(words) == "exit" {
        break;
      }
      var step := ProcessLine(cmds, words, i, timeCommands, fails);
      ghost var rest := SessionFrom(ds, i + 1, step.1).outcomes;
      Regroup(outcomes, step.0, rest);
      outcomes := outcomes + [step.0];
      timeCommands := step.1;
      i := i + 1;
    }
    session := Session(outcomes, timeCommands);
  }

  /** The body of the interactive loop for a line split into words, inside its `try`. */
  method ProcessLine(cmds: seq<Command>, words: seq<string>, i: nat, timeCommands: bool, fails: (nat, string, seq<string>) -> Option<string>)
    returns (r: (LineOutcome, bool))
    requires !IsExit(words)
    ensures r == LineOutcomeOf(DecideLine(cmds, words, i, fails), timeCommands)
  {
    var command := if words == [] then "" else words[0];
    var args := if words == [] then [] else words[1..];
    var c := FindCommand(cmds, command);
    if c == -1 {
      return (Threw("Unknown command " + command), timeCommands);
    }
    if |args| != cmds[c].parameterCount {
      return (Threw(WrongCountMessage(cmds[c].name, cmds[c].parameterCount, |args|)), timeCommands);
    }
    var thrown := fails(i, cmds[c].name, args);
    if thrown.Some? {
      return (Threw(thrown.value), timeCommands);
    }
    var after := TimeFlagAfter(cmds[c], timeCommands);
    r := (Ran(Invocation(cmds[c].name, args, timeCommands && after)), after);
  }

  /** Index of the first `exit` line at or after `i`, or the number of lines. */
  function FirstExit(ds: seq<LineDecision>, i: nat): (e: nat)
    requires i <= |ds|
    ensures i <= e <= |ds|
    ensures forall j :: i <= j < e ==> !ds[j].ExitLine?
    ensures e < |ds| ==> ds[e].ExitLine?
    decreases |ds| - i
  {
    if i == |ds| || ds[i].ExitLine? then i else FirstExit(ds, i + 1)
  }

  /** Exactly the lines before the first `exit` get an outcome, one each. */
  lemma {:induction false} SessionCoversLines(ds: seq<LineDecision>, i: nat, timeCommands: bool)
    requires i <= |ds|
    ensures |SessionFrom(ds, i, timeCommands).outcomes| == FirstExit(ds, i) - i
    decreases |ds| - i
  {
    if i < |ds| && !ds[i].ExitLine? {
      SessionCoversLines(ds, i + 1, LineOutcomeOf(ds[i], timeCommands).1);
    }
  }

  /**
   * An exception does not end the session: it produces one outcome for every
   * line up to the first line whose first word is `exit`, and stops there.
   */
  lemma InteractiveCoversLines(cmds: seq<Command>, lines: seq<string>, timeCommands: bool, fails: (nat, string, seq<string>) -> Option<string>)
    ensures var n := |RunSession(cmds, lines, timeCommands, fails).outcomes|;
      && n <= |lines|
      && (forall j :: 0 <= j < n ==> !IsExit(Words(lines[j])))
      && (n < |lines| ==> IsExit(Words(lines[n])))
  {
    var ds := LineDecisions(cmds, lines, fails);
    SessionCoversLines(ds, 0, timeCommands);
    forall j | 0 <= j < FirstExit(ds, 0)
      ensures !IsExit(Words(lines[j]))
    {
      assert !ds[j].ExitLine?;
    }
    if FirstExit(ds, 0) < |lines| {
      assert ds[FirstExit(ds, 0)].ExitLine?;
    }
  }

  /** The `time_commands` flag in force when line `i + k` is read. */
  function FlagAt(ds: seq<LineDecision>, i: nat, timeCommands: bool, k: nat): bool
    requires i + k <= |ds|
    decreases k
  {
    if k == 0 || ds[i].ExitLine? then timeCommands
    else FlagAt(ds, i + 1, LineOutcomeOf(ds[i], timeCommands).1, k - 1)
  }

  /** Outcome `k` of the session is the outcome of line `i + k`, read with the flag then in force. */
  lemma {:induction false} SessionOutcomeAt(ds: seq<LineDecision>, i: nat, timeCommands: bool, k: nat)
    requires i <= |ds|
    requires k < |SessionFrom(ds, i, timeCommands).outcomes|
    ensures i + k < |ds| && !ds[i + k].ExitLine?
    ensures SessionFrom(ds, i, timeCommands).outcomes[k] == LineOutcomeOf(ds[i + k], FlagAt(ds, i, timeCommands, k)).0
    decreases k
  {
    var step := LineOutcomeOf(ds[i], timeCommands);
    var rest := SessionFrom(ds, i + 1, step.1).outcomes;
    assert SessionFrom(ds, i, timeCommands).outcomes == [step.0] + rest;
    if k > 0 {
      SessionOutcomeAt(ds, i + 1, step.1, k - 1);
      assert i + 1 + (k - 1) == i + k;
    }
  }

  /**
   * A line that completed a command named a command of the table as its first
   * word and passed it the remaining words, exactly as many as it declares.
   */
  lemma InteractiveRanLines(cmds: seq<Command>, lines: seq<string>, timeCommands: bool, fails: (nat, string, seq<string>) -> Option<string>, k: nat)
    requires forall j :: 0 <= j < |cmds| ==> cmds[j].name != ""
    requires k < |RunSession(cmds, lines, timeCommands, fails).outcomes|
    requires RunSession(cmds, lines, timeCommands, fails).outcomes[k].Ran?
    ensures k < |lines|
    ensures RanLine(cmds, Words(lines[k]), RunSession(cmds, lines, timeCommands, fails).outcomes[k])
  {
    var ds := LineDecisions(cmds, lines, fails);
    SessionOutcomeAt(ds, 0, timeCommands, k);
    var words := Words(lines[k]);
    assert ds[k] == DecideLine(cmds, words, k, fails);
    var c := Lookup(cmds, CommandWord(words)).value;
    assert cmds[c].name == CommandWord(words);
  }

  /** The line named a known command followed by exactly its declared number of words, and `o` ran it. */
  predicate RanLine(cmds: seq<Command>, words: seq<string>, o: LineOutcome)
    requires o.Ran?
  {
    && words != []
    && o.invocation.name == words[0]
    && o.invocation.args == words[1..]
    && Declared(cmds, words[0], words[1..])
  }
}
