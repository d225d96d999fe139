/** Command-tree dispatch (src/command.ts): subcommand lookup, the recursive
    run with its setup / run / cleanup hooks, and the resolution-only walk.
    Hooks are recorded as events of a trace; what a hook does is given by its
    `HookOutcome`. */
module Commands {
  import opened Js
  import opened Types
  import opened Utils
  import opened Parser
  import opened Args

  /** Every argument table in the tree is a proper object (distinct keys). */
  ghost predicate WellFormed(c: Command)
    decreases c
  {
    c.args.Valid() &&
    forall k :: 0 <= k < |c.subCommands| ==> WellFormed(c.subCommands[k].cmd)
  }

  // ---------------------------------------------------------------------------
  // getSubCommand (src/command.ts:22-41)

  function KeyFrom(subs: seq<SubEntry>, name: string, k: nat): (r: int)
    requires k <= |subs|
    ensures r == -1 || k <= r < |subs|
    decreases |subs| - k
  {
    if k == |subs| then -1
    else if subs[k].name == name then k
    else KeyFrom(subs, name, k + 1)
  }

  /** `KeyFrom` finds the first entry from `k` on under the key `name`. */
  lemma {:induction false} KeyFromSpec(subs: seq<SubEntry>, name: string, k: nat)
    requires k <= |subs|
    ensures var r := KeyFrom(subs, name, k);
            (r == -1 <==> forall m :: k <= m < |subs| ==> subs[m].name != name) &&
            (r >= 0 ==> subs[r].name == name && forall p :: k <= p < r ==> subs[p].name != name)
    decreases |subs| - k
  {
    if k < |subs| && subs[k].name != name {
      KeyFromSpec(subs, name, k + 1);
    }
  }

  function AliasFrom(subs: seq<SubEntry>, name: string, k: nat): (r: int)
    requires k <= |subs|
    ensures r == -1 || k <= r < |subs|
    decreases |subs| - k
  {
    if k == |subs| then -1
    else if name in MetaAliases(subs[k].cmd) then k
    else AliasFrom(subs, name, k + 1)
  }

  /** `AliasFrom` finds the first entry from `k` on whose `meta.aliases`
      lists `name`. */
  lemma {:induction false} AliasFromSpec(subs: seq<SubEntry>, name: string, k: nat)
    requires k <= |subs|
    ensures var r := AliasFrom(subs, name, k);
            (r == -1 <==> forall m :: k <= m < |subs| ==> name !in MetaAliases(subs[m].cmd)) &&
            (r >= 0 ==> name in MetaAliases(subs[r].cmd) && forall p :: k <= p < r ==> name !in MetaAliases(subs[p].cmd))
    decreases |subs| - k
  {
    if k < |subs| && name !in MetaAliases(subs[k].cmd) {
      AliasFromSpec(subs, name, k + 1);
    }
  }

  /** The position of the subcommand for `name`: the entry under that key,
      else the first entry (in declaration order) whose `meta.aliases` lists
      `name`, else -1. */
  function SubIndexFor(subs: seq<SubEntry>, name: string): (r: int)
    ensures -1 <= r < |subs|
  {
    var exact := KeyFrom(subs, name, 0);
    if exact >= 0 then exact else AliasFrom(subs, name, 0)
  }

  lemma SubIndexForSpec(subs: seq<SubEntry>, name: string)
    ensures var r := SubIndexFor(subs, name);
            (HasKey(subs, name) ==> 0 <= r && subs[r].name == name && forall m :: 0 <= m < r ==> subs[m].name != name) &&
            (!HasKey(subs, name) && r >= 0 ==>
               name in MetaAliases(subs[r].cmd) && forall m :: 0 <= m < r ==> name !in MetaAliases(subs[m].cmd)) &&
            (r == -1 <==> !HasKey(subs, name) && forall k :: 0 <= k < |subs| ==> name !in MetaAliases(subs[k].cmd))
  {
    KeyFromSpec(subs, name, 0);
    AliasFromSpec(subs, name, 0);
  }

  /** `getSubCommand(subCommands, name)`: the command at `SubIndexFor`, or
      `undefined`. */
  function SubCommandFor(subs: seq<SubEntry>, name: string): Option<Command> {
    var k := SubIndexFor(subs, name);
    if k >= 0 then Some(subs[k].cmd) else None
  }

  /** What `getSubCommand` returns: the command under the key `name`, else
      that of the first entry whose `meta.aliases` lists it, else `undefined`. */
  lemma SubCommandForSpec(subs: seq<SubEntry>, name: string)
    ensures var r := SubCommandFor(subs, name);
            (HasKey(subs, name) ==>
               exists k :: 0 <= k < |subs| && subs[k].name == name && r == Some(subs[k].cmd) &&
                           forall m :: 0 <= m < k ==> subs[m].name != name) &&
            (!HasKey(subs, name) && r.Some? ==>
               exists k :: 0 <= k < |subs| && name in MetaAliases(subs[k].cmd) && r.value == subs[k].cmd &&
                           forall m :: 0 <= m < k ==> name !in MetaAliases(subs[m].cmd)) &&
            (r.None? <==> !HasKey(subs, name) && forall k :: 0 <= k < |subs| ==> name !in MetaAliases(subs[k].cmd))
  {
    SubIndexForSpec(subs, name);
  }

  /** `getSubCommand` with the loops of the source. */
  method FindSubCommand(subs: seq<SubEntry>, name: string) returns (r: Option<Command>)
    ensures r == SubCommandFor(subs, name)
  {
    for k := 0 to |subs|
      invariant KeyFrom(subs, name, k) == KeyFrom(subs, name, 0)
    {
      if subs[k].name == name {
        return Some(subs[k].cmd);
      }
    }
    for k := 0 to |subs|
      invariant AliasFrom(subs, name, k) == AliasFrom(subs, name, 0)
    {
      var aliases := MetaAliases(subs[k].cmd);
      if name in aliases {
        return Some(subs[k].cmd);
      }
    }
    return None;
  }

  // ---------------------------------------------------------------------------
  // The subcommand candidate (src/command.ts:67-71, 109-110)

  function FirstNonDashFrom(rawArgs: seq<string>, i: nat): (r: int)
    requires i <= |rawArgs|
    ensures r == -1 || i <= r < |rawArgs|
    decreases |rawArgs| - i
  {
    if i == |rawArgs| then -1
    else if !StartsWithDash(rawArgs[i]) then i
    else FirstNonDashFrom(rawArgs, i + 1)
  }

  /** `rawArgs.findIndex((arg) => !arg.startsWith("-"))`: the index of the
      first token without a leading dash, or -1. */
  function FirstNonDash(rawArgs: seq<string>): (r: int)
    ensures -1 <= r < |rawArgs|
  {
    FirstNonDashFrom(rawArgs, 0)
  }

  lemma {:induction false} FirstNonDashFromSpec(rawArgs: seq<string>, i: nat)
    requires i <= |rawArgs|
    ensures var r := FirstNonDashFrom(rawArgs, i);
            (r == -1 <==> forall m :: i <= m < |rawArgs| ==> StartsWithDash(rawArgs[m])) &&
            (r >= 0 ==> !StartsWithDash(rawArgs[r]) && forall m :: i <= m < r ==> StartsWithDash(rawArgs[m]))
    decreases |rawArgs| - i
  {
    if i < |rawArgs| && StartsWithDash(rawArgs[i]) {
      FirstNonDashFromSpec(rawArgs, i + 1);
    }
  }

  /** The candidate is the first token without a leading dash; -1 exactly
      when every token starts with one. */
  lemma FirstNonDashSpec(rawArgs: seq<string>)
    ensures var r := FirstNonDash(rawArgs);
            (r == -1 <==> forall m :: 0 <= m < |rawArgs| ==> StartsWithDash(rawArgs[m])) &&
            (r >= 0 ==> !StartsWithDash(rawArgs[r]) && forall m :: 0 <= m < r ==> StartsWithDash(rawArgs[m]))
  {
    FirstNonDashFromSpec(rawArgs, 0);
  }

  // ---------------------------------------------------------------------------
  // runCommand (src/command.ts:43-100)

  datatype Phase = Setup | Run | Cleanup

  /** The context a hook receives. */
  datatype Context = Context(rawArgs: seq<string>, args: Argv, data: Val)

  /** One hook invocation. */
  datatype Event = Event(phase: Phase, tag: string, ctx: Context)

  /** What a run throws: a `CLIError` of the framework or a hook's value. */
  datatype Thrown = Raised(error: CliError) | HookThrew(value: Val)

  datatype Outcome = Done(result: Val) | Threw(thrown: Thrown)

  /** The hooks invoked, in order, and how the run ended. */
  datatype Exec = Exec(trace: seq<Event>, outcome: Outcome)

  predicate HookThrows(h: Option<Hook>) {
    h.Some? && h.value.outcome.Throws?
  }

  /** The event of an optional hook, if the command defines it. */
  function HookEvents(phase: Phase, h: Option<Hook>, ctx: Context): (r: seq<Event>)
    ensures |r| <= 1
    ensures h.Some? ==> r == [Event(phase, h.value.tag, ctx)]
    ensures h.None? ==> r == []
  {
    if h.Some? then [Event(phase, h.value.tag, ctx)] else []
  }

  function UnknownCommand(name: string): CliError {
    Fail("Unknown command `" + name + "`", "E_UNKNOWN_COMMAND")
  }

  function NoCommand(): CliError {
    Fail("No command specified.", "E_NO_COMMAND")
  }

  /** The `run` hook after whatever the dispatch recorded in `before`. */
  function RunHook(cmd: Command, ctx: Context, before: seq<Event>): Exec {
    match cmd.run
    case None => Exec(before, Done(Undef))
    case Some(h) =>
      Exec(before + [Event(Run, h.tag, ctx)],
           if h.outcome.Throws? then Threw(HookThrew(h.outcome.thrown)) else Done(h.outcome.value))
  }

  /** The subcommand's own run: on the tokens after the candidate, without
      `data`. */
  function RunSub(sub: Command, tail: seq<string>, rt: Runtime): Exec
    requires WellFormed(sub)
    decreases |tail|, 3
  {
    Execute(sub, tail, Undef, rt)
  }

  /** After the subcommand has run: its exception propagates past `run`;
      otherwise `run` follows its events. */
  function AfterChild(cmd: Command, ctx: Context, child: Exec): Exec {
    if child.outcome.Threw? then child else RunHook(cmd, ctx, child.trace)
  }

  /** Where the `try` block goes before `run`: the command declares no
      subcommands; there is no candidate token (none without a leading
      dash, or an empty one); the candidate names no subcommand; or it
      names the `k`-th, which runs on the tokens after the candidate. */
  datatype Route = NoSubCommands | NoCandidate | UnknownName(name: string) | ToChild(k: nat, tail: seq<string>)

  function RouteOf(subs: seq<SubEntry>, rawArgs: seq<string>): (r: Route)
    ensures r.ToChild? ==> r.k < |subs| && |r.tail| < |rawArgs|
  {
    if |subs| == 0 then NoSubCommands
    else
      var idx := FirstNonDash(rawArgs);
      if idx < 0 || rawArgs[idx] == "" then NoCandidate
      else
        var k := SubIndexFor(subs, rawArgs[idx]);
        if k < 0 then UnknownName(rawArgs[idx]) else ToChild(k, rawArgs[idx + 1..])
  }

  /** The body of the `try`: subcommand dispatch, then `run`. */
  function Dispatch(cmd: Command, ctx: Context, rt: Runtime): Exec
    requires WellFormed(cmd)
    decreases |ctx.rawArgs|, 0
  {
    match RouteOf(cmd.subCommands, ctx.rawArgs)
    case NoSubCommands => RunHook(cmd, ctx, [])
    case NoCandidate => if cmd.run.None? then Exec([], Threw(Raised(NoCommand()))) else RunHook(cmd, ctx, [])
    case UnknownName(name) => Exec([], Threw(Raised(UnknownCommand(name))))
    case ToChild(k, tail) => AfterChild(cmd, ctx, RunSub(cmd.subCommands[k].cmd, tail, rt))
  }

  /** `runCommand(cmd, { rawArgs, data })`: a parse error is thrown before
      any hook runs. */
  function Execute(cmd: Command, rawArgs: seq<string>, data: Val, rt: Runtime): Exec
    requires WellFormed(cmd)
    decreases |rawArgs|, 2
  {
    match ParseArgsSpec(rawArgs, cmd.args, rt)
    case Err(e) => Exec([], Threw(Raised(e)))
    case Ok(parsed) => Lifecycle(cmd, Context(rawArgs, parsed, data), rt)
  }

  /** What follows a successful parse: `setup` outside the `try`, the
      dispatch and `run` inside it, `cleanup` in the `finally`. A throwing
      `cleanup` replaces the outcome of the `try`. */
  function Lifecycle(cmd: Command, ctx: Context, rt: Runtime): Exec
    requires WellFormed(cmd)
    decreases |ctx.rawArgs|, 1
  {
    var setup := HookEvents(Setup, cmd.setup, ctx);
    if HookThrows(cmd.setup) then Exec(setup, Threw(HookThrew(cmd.setup.value.outcome.thrown)))
    else
      var body := Dispatch(cmd, ctx, rt);
      var outcome := if HookThrows(cmd.cleanup) then Threw(HookThrew(cmd.cleanup.value.outcome.thrown)) else body.outcome;
      Exec(setup + body.trace + HookEvents(Cleanup, cmd.cleanup, ctx), outcome)
  }

  /** `runCommand` with the statements of the source: `setup` outside the
      `try`, the dispatch and `run` inside it, and `cleanup` in the
      `finally`, with the trace growing as hooks are awaited. */
  method RunCommand(cmd: Command, rawArgs: seq<string>, data: Val, rt: Runtime) returns (e: Exec)
    requires WellFormed(cmd)
    ensures e == Execute(cmd, rawArgs, data, rt)
    decreases |rawArgs|, 3
  {
    var parsed := ParseArgs(rawArgs, cmd.args, rt);
    if parsed.Err? {
      return Exec([], Threw(Raised(parsed.error)));
    }
    e := RunLifecycle(cmd, Context(rawArgs, parsed.value, data), rt);
  }

  method RunLifecycle(cmd: Command, ctx: Context, rt: Runtime) returns (e: Exec)
    requires WellFormed(cmd)
    ensures e == Lifecycle(cmd, ctx, rt)
    decreases |ctx.rawArgs|, 2
  {
    var trace: seq<Event> := [];
    if cmd.setup.Some? {
      trace := trace + [Event(Setup, cmd.setup.value.tag, ctx)];
      if cmd.setup.value.outcome.Throws? {
        return Exec(trace, Threw(HookThrew(cmd.setup.value.outcome.thrown)));
      }
    }
    assert trace == HookEvents(Setup, cmd.setup, ctx);
    var body := DispatchAndRun(cmd, ctx, rt);
    trace := trace + body.trace;
    var outcome := body.outcome;
    if cmd.cleanup.Some? {
      trace := trace + [Event(Cleanup, cmd.cleanup.value.tag, ctx)];
      if cmd.cleanup.value.outcome.Throws? {
        outcome := Threw(HookThrew(cmd.cleanup.value.outcome.thrown));
      }
    }
    assert trace == HookEvents(Setup, cmd.setup, ctx) + body.trace + HookEvents(Cleanup, cmd.cleanup, ctx);
    return Exec(trace, outcome);
  }

  /** The `try` block of `runCommand`: the subcommand dispatch, then the
      `run` step. */
  method DispatchAndRun(cmd: Command, ctx: Context, rt: Runtime) returns (body: Exec)
    requires WellFormed(cmd)
    ensures body == Dispatch(cmd, ctx, rt)
    decreases |ctx.rawArgs|, 1
  {
    var subs := cmd.subCommands;
    if |subs| > 0 {
      var idx := FirstNonDash(ctx.rawArgs);
      if idx >= 0 && ctx.rawArgs[idx] != "" {
        body := DispatchCandidate(cmd, ctx, idx, rt);
        return;
      } else if cmd.run.None? {
        return Exec([], Threw(Raised(NoCommand())));
      }
    }
    body := RunStep(cmd, ctx, []);
  }

  /** The dispatch once the candidate token `ctx.rawArgs[idx]` is found:
      look it up, run the subcommand on the tokens after it, then `run`. */
  method DispatchCandidate(cmd: Command, ctx: Context, idx: int, rt: Runtime) returns (body: Exec)
    requires WellFormed(cmd) && |cmd.subCommands| > 0
    requires idx == FirstNonDash(ctx.rawArgs) && idx >= 0 && ctx.rawArgs[idx] != ""
    ensures body == Dispatch(cmd, ctx, rt)
    decreases |ctx.rawArgs|, 0
  {
    var name := ctx.rawArgs[idx];
    var sub := FindSubCommand(cmd.subCommands, name);
    if sub.None? {
      return Exec([], Threw(Raised(UnknownCommand(name))));
    }
    var k := SubIndexFor(cmd.subCommands, name);
    assert sub.value == cmd.subCommands[k].cmd;
    assert RouteOf(cmd.subCommands, ctx.rawArgs) == ToChild(k, ctx.rawArgs[idx + 1..]);
    var child := RunSubCommand(sub.value, ctx.rawArgs[idx + 1..], rt);
    assert Dispatch(cmd, ctx, rt) == AfterChild(cmd, ctx, child);
    if child.outcome.Threw? {
      return child;
    }
    body := RunStep(cmd, ctx, child.trace);
  }

  /** `runCommand(subCommand, { rawArgs: subCommandArgs })`. */
  method RunSubCommand(sub: Command, tail: seq<string>, rt: Runtime) returns (e: Exec)
    requires WellFormed(sub)
    ensures e == RunSub(sub, tail, rt)
    decreases |tail|, 4
  {
    e := RunCommand(sub, tail, Undef, rt);
  }

  /** The `run` step of the `try` block: a mutable `result`, and the
      exception pending when `run` throws. */
  method RunStep(cmd: Command, ctx: Context, before: seq<Event>) returns (body: Exec)
    ensures body == RunHook(cmd, ctx, before)
  {
    var trace := before;
    var result := Undef;
    if cmd.run.Some? {
      trace := trace + [Event(Run, cmd.run.value.tag, ctx)];
      if cmd.run.value.outcome.Throws? {
        return Exec(trace, Threw(HookThrew(cmd.run.value.outcome.thrown)));
      }
      result := cmd.run.value.outcome.value;
    }
    return Exec(trace, Done(result));
  }

  // ---------------------------------------------------------------------------
  // resolveSubCommand (src/command.ts:102-122)

  /** The name the walk looks up: the candidate token, or `undefined`
      (`None`) when every token starts with a dash. */
  function LookupName(rawArgs: seq<string>): Option<string> {
    var idx := FirstNonDash(rawArgs);
    if idx >= 0 then Some(rawArgs[idx]) else None
  }

  /** `getSubCommand(subCommands, name)` for a name that may be `undefined`.
      An `undefined` name reads the own key "undefined" (a property name is
      converted to a string), but it is never among a command's string
      `meta.aliases`, so the alias scan cannot match it. */
  function LookupIndex(subs: seq<SubEntry>, name: Option<string>): (r: int)
    ensures -1 <= r < |subs|
  {
    match name
    case Some(n) => SubIndexFor(subs, n)
    case None => KeyFrom(subs, "undefined", 0)
  }

  /** The tokens after the candidate (`slice(-1 + 1)` keeps them all). */
  function AfterCandidate(rawArgs: seq<string>): (r: seq<string>)
    ensures |r| <= |rawArgs| && r == rawArgs[|rawArgs| - |r|..]
  {
    rawArgs[FirstNonDash(rawArgs) + 1..]
  }

  /** Whether the walk descends from `c` on `rawArgs`. */
  predicate Descends(c: Command, rawArgs: seq<string>) {
    |c.subCommands| > 0 && LookupIndex(c.subCommands, LookupName(rawArgs)) >= 0
  }

  /** `c` is one of the subcommands `p` declares. */
  ghost predicate ChildOf(c: Command, p: Command) {
    c in Children(p)
  }

  /** The commands `p` declares as subcommands, in declaration order. */
  function Children(p: Command): seq<Command> {
    seq(|p.subCommands|, k requires 0 <= k < |p.subCommands| => p.subCommands[k].cmd)
  }

  /** `resolveSubCommand(cmd, rawArgs, parent)`: `[leaf, parent]`. When the
      walk does not descend it returns the command and the parent it was
      given; after at least one step the returned parent is a command that
      declares the returned leaf among its subcommands. */
  function ResolveSubCommand(cmd: Command, rawArgs: seq<string>, parent: Option<Command>): (r: (Command, Option<Command>))
    ensures !Descends(cmd, rawArgs) ==> r == (cmd, parent)
    ensures Descends(cmd, rawArgs) ==> r.1.Some? && ChildOf(r.0, r.1.value)
    decreases cmd
  {
    if Descends(cmd, rawArgs) then
      var k := LookupIndex(cmd.subCommands, LookupName(rawArgs));
      var entry := cmd.subCommands[k];
      assert entry in cmd.subCommands;
      assert Children(cmd)[k] == entry.cmd;
      ResolveSubCommand(entry.cmd, AfterCandidate(rawArgs), Some(cmd))
    else (cmd, parent)
  }

  /** The tokens left to the leaf of the walk. */
  function LeafTokens(cmd: Command, rawArgs: seq<string>): seq<string>
    decreases cmd
  {
    if Descends(cmd, rawArgs) then
      var entry := cmd.subCommands[LookupIndex(cmd.subCommands, LookupName(rawArgs))];
      assert entry in cmd.subCommands;
      LeafTokens(entry.cmd, AfterCandidate(rawArgs))
    else rawArgs
  }
}
