/** Properties of command dispatch (command.dfy). */
module CommandProps {
  import opened Js
  import opened Types
  import opened Utils
  import opened Parser
  import opened Args
  import opened Commands

  /** `s` is a suffix of `t`. */
  ghost predicate IsSuffix<T>(s: seq<T>, t: seq<T>) {
    |s| <= |t| && t[|t| - |s|..] == s
  }

  lemma SuffixTrans<T>(a: seq<T>, b: seq<T>, c: seq<T>)
    requires IsSuffix(a, b) && IsSuffix(b, c)
    ensures IsSuffix(a, c)
  {
    assert c[|c| - |a|..] == c[|c| - |b|..][|b| - |a|..];
  }

  /** An event of a run on `rawArgs` whose own context is `own`: it sees a
      suffix of the tokens, and it is either one of this command's hooks
      (same length, same context) or a descendant's (shorter, no `data`). */
  ghost predicate EventWithin(e: Event, rawArgs: seq<string>, own: Context) {
    IsSuffix(e.ctx.rawArgs, rawArgs) &&
    (|e.ctx.rawArgs| == |rawArgs| ==> e.ctx == own) &&
    (|e.ctx.rawArgs| < |rawArgs| ==> e.ctx.data == Undef)
  }

  /** A failed parse throws its `CLIError` before any hook runs; otherwise
      the run is the lifecycle of the command on the parsed context. */
  lemma ExecuteParsed(cmd: Command, rawArgs: seq<string>, data: Val, rt: Runtime)
    requires WellFormed(cmd)
    ensures var p := ParseArgsSpec(rawArgs, cmd.args, rt);
            Execute(cmd, rawArgs, data, rt) ==
            if p.Err? then Exec([], Threw(Raised(p.error))) else Lifecycle(cmd, Context(rawArgs, p.value, data), rt)
  {
  }

  /** The candidate token names a subcommand. */
  predicate ChildCase(cmd: Command, rawArgs: seq<string>) {
    var idx := FirstNonDash(rawArgs);
    |cmd.subCommands| > 0 && idx >= 0 && rawArgs[idx] != "" && SubIndexFor(cmd.subCommands, rawArgs[idx]) >= 0
  }

  function ChildFor(cmd: Command, rawArgs: seq<string>): Command
    requires ChildCase(cmd, rawArgs)
  {
    cmd.subCommands[SubIndexFor(cmd.subCommands, rawArgs[FirstNonDash(rawArgs)])].cmd
  }

  /** The tokens after the candidate. */
  function TailAfter(rawArgs: seq<string>): (r: seq<string>)
    requires FirstNonDash(rawArgs) >= 0
    ensures |r| < |rawArgs| && IsSuffix(r, rawArgs)
  {
    rawArgs[FirstNonDash(rawArgs) + 1..]
  }

  /** The route is the subcommand case exactly when the candidate names a
      subcommand; it then carries that subcommand and the tokens after the
      candidate. */
  lemma RouteChild(cmd: Command, rawArgs: seq<string>)
    ensures ChildCase(cmd, rawArgs) <==> RouteOf(cmd.subCommands, rawArgs).ToChild?
    ensures ChildCase(cmd, rawArgs) ==>
              RouteOf(cmd.subCommands, rawArgs) == ToChild(SubIndexFor(cmd.subCommands, rawArgs[FirstNonDash(rawArgs)]), TailAfter(rawArgs))
  {
  }

  lemma DispatchChild(cmd: Command, ctx: Context, rt: Runtime)
    requires WellFormed(cmd) && ChildCase(cmd, ctx.rawArgs)
    ensures WellFormed(ChildFor(cmd, ctx.rawArgs))
    ensures Dispatch(cmd, ctx, rt) == AfterChild(cmd, ctx, RunSub(ChildFor(cmd, ctx.rawArgs), TailAfter(ctx.rawArgs), rt))
  {
    RouteChild(cmd, ctx.rawArgs);
  }

  lemma DispatchNoChild(cmd: Command, ctx: Context, rt: Runtime)
    requires WellFormed(cmd) && !ChildCase(cmd, ctx.rawArgs)
    ensures var idx := FirstNonDash(ctx.rawArgs);
            Dispatch(cmd, ctx, rt) ==
            if |cmd.subCommands| > 0 && idx >= 0 && ctx.rawArgs[idx] != "" then
              Exec([], Threw(Raised(UnknownCommand(ctx.rawArgs[idx]))))
            else if |cmd.subCommands| > 0 && cmd.run.None? then Exec([], Threw(Raised(NoCommand())))
            else RunHook(cmd, ctx, [])
  {
    RouteChild(cmd, ctx.rawArgs);
  }

  lemma RunHookTrace(cmd: Command, ctx: Context, before: seq<Event>)
    ensures RunHook(cmd, ctx, before).trace == before + HookEvents(Run, cmd.run, ctx)
  {
    if cmd.run.None? {
      assert before + [] == before;
    }
  }

  /** A failed parse throws its `CLIError` before any hook runs. */
  lemma ParseErrorRunsNoHook(cmd: Command, rawArgs: seq<string>, data: Val, rt: Runtime)
    requires WellFormed(cmd) && ParseArgsSpec(rawArgs, cmd.args, rt).Err?
    ensures Execute(cmd, rawArgs, data, rt) == Exec([], Threw(Raised(ParseArgsSpec(rawArgs, cmd.args, rt).error)))
  {
    ExecuteParsed(cmd, rawArgs, data, rt);
  }

  /** Every event of `trace` lies within a run on `rawArgs` whose own
      context is `own`. */
  ghost predicate AllWithin(trace: seq<Event>, rawArgs: seq<string>, own: Context) {
    forall e :: e in trace ==> EventWithin(e, rawArgs, own)
  }

  lemma AllWithinConcat(a: seq<Event>, b: seq<Event>, rawArgs: seq<string>, own: Context)
    requires AllWithin(a, rawArgs, own) && AllWithin(b, rawArgs, own)
    ensures AllWithin(a + b, rawArgs, own)
  {
  }

  /** A command's own hook receives its own context. */
  lemma OwnHookWithin(phase: Phase, h: Option<Hook>, ctx: Context)
    ensures AllWithin(HookEvents(phase, h, ctx), ctx.rawArgs, ctx)
  {
    assert IsSuffix(ctx.rawArgs, ctx.rawArgs);
  }

  /** Every hook of a run sees a suffix of its tokens. This command's hooks
      receive its own context; hooks of subcommands see strictly fewer tokens
      and no `data`. */
  lemma {:induction false} TraceContexts(cmd: Command, rawArgs: seq<string>, data: Val, rt: Runtime)
    requires WellFormed(cmd)
    ensures var x := Execute(cmd, rawArgs, data, rt);
            |x.trace| > 0 ==>
              ParseArgsSpec(rawArgs, cmd.args, rt).Ok? &&
              AllWithin(x.trace, rawArgs, Context(rawArgs, ParseArgsSpec(rawArgs, cmd.args, rt).value, data))
    decreases |rawArgs|, 2
  {
    ExecuteParsed(cmd, rawArgs, data, rt);
    var parsed := ParseArgsSpec(rawArgs, cmd.args, rt);
    if parsed.Ok? {
      LifecycleContexts(cmd, Context(rawArgs, parsed.value, data), rt);
    }
  }

  /** `TraceContexts` on a parsed context. */
  lemma {:induction false} LifecycleContexts(cmd: Command, ctx: Context, rt: Runtime)
    requires WellFormed(cmd)
    ensures AllWithin(Lifecycle(cmd, ctx, rt).trace, ctx.rawArgs, ctx)
    decreases |ctx.rawArgs|, 1
  {
    var setup := HookEvents(Setup, cmd.setup, ctx);
    OwnHookWithin(Setup, cmd.setup, ctx);
    if HookThrows(cmd.setup) {
      assert Lifecycle(cmd, ctx, rt).trace == setup;
    } else {
      var d := Dispatch(cmd, ctx, rt).trace;
      var cleanup := HookEvents(Cleanup, cmd.cleanup, ctx);
      LifecycleAfterSetup(cmd, ctx, rt);
      DispatchContexts(cmd, ctx, rt);
      OwnHookWithin(Cleanup, cmd.cleanup, ctx);
      AllWithinConcat(setup, d, ctx.rawArgs, ctx);
      AllWithinConcat(setup + d, cleanup, ctx.rawArgs, ctx);
    }
  }

  /** The events of a dispatch: this command's `run` on its own context,
      and the subcommand's events on a shorter suffix without `data`. */
  lemma {:induction false} DispatchContexts(cmd: Command, ctx: Context, rt: Runtime)
    requires WellFormed(cmd)
    ensures AllWithin(Dispatch(cmd, ctx, rt).trace, ctx.rawArgs, ctx)
    decreases |ctx.rawArgs|, 0
  {
    var rawArgs := ctx.rawArgs;
    var run := HookEvents(Run, cmd.run, ctx);
    OwnHookWithin(Run, cmd.run, ctx);
    if ChildCase(cmd, rawArgs) {
      var sub := ChildFor(cmd, rawArgs);
      var tail := TailAfter(rawArgs);
      DispatchChild(cmd, ctx, rt);
      TraceContexts(sub, tail, Undef, rt);
      var child := Execute(sub, tail, Undef, rt);
      if |child.trace| > 0 {
        ChildEventsWithin(child.trace, tail, Context(tail, ParseArgsSpec(tail, sub.args, rt).value, Undef), ctx);
      } else {
        assert AllWithin(child.trace, rawArgs, ctx);
      }
      if child.outcome.Done? {
        RunHookTrace(cmd, ctx, child.trace);
        AllWithinConcat(child.trace, run, rawArgs, ctx);
      }
    } else {
      DispatchNoChild(cmd, ctx, rt);
      RunHookTrace(cmd, ctx, []);
      assert AllWithin([], rawArgs, ctx);
      AllWithinConcat([], run, rawArgs, ctx);
    }
  }

  /** Events within a subcommand's run on `tail` are within this command's
      run on the longer `ctx.rawArgs`. */
  lemma ChildEventsWithin(trace: seq<Event>, tail: seq<string>, childCtx: Context, ctx: Context)
    requires IsSuffix(tail, ctx.rawArgs) && |tail| < |ctx.rawArgs| && childCtx.data == Undef
    requires AllWithin(trace, tail, childCtx)
    ensures AllWithin(trace, ctx.rawArgs, ctx)
  {
    forall e | e in trace
      ensures EventWithin(e, ctx.rawArgs, ctx)
    {
      SuffixTrans(e.ctx.rawArgs, tail, ctx.rawArgs);
    }
  }

  /** The dispatch records the subcommand's hooks, then possibly this
      command's `run`: `inner` and `run` are the two parts. */
  lemma DispatchOrder(cmd: Command, ctx: Context, rt: Runtime) returns (inner: seq<Event>, run: seq<Event>)
    requires WellFormed(cmd)
    ensures Dispatch(cmd, ctx, rt).trace == inner + run
    ensures forall e :: e in inner ==> |e.ctx.rawArgs| < |ctx.rawArgs|
    ensures run == [] || run == HookEvents(Run, cmd.run, ctx)
  {
    if ChildCase(cmd, ctx.rawArgs) {
      inner, run := DispatchOrderChild(cmd, ctx, rt);
    } else {
      DispatchNoChild(cmd, ctx, rt);
      var d := Dispatch(cmd, ctx, rt);
      RunHookTrace(cmd, ctx, []);
      inner := [];
      run := if d.trace == [] then [] else HookEvents(Run, cmd.run, ctx);
      assert d.trace == inner + run;
    }
  }

  lemma DispatchOrderChild(cmd: Command, ctx: Context, rt: Runtime) returns (inner: seq<Event>, run: seq<Event>)
    requires WellFormed(cmd) && ChildCase(cmd, ctx.rawArgs)
    ensures Dispatch(cmd, ctx, rt).trace == inner + run
    ensures forall e :: e in inner ==> |e.ctx.rawArgs| < |ctx.rawArgs|
    ensures run == [] || run == HookEvents(Run, cmd.run, ctx)
  {
    var sub := ChildFor(cmd, ctx.rawArgs);
    var tail := TailAfter(ctx.rawArgs);
    DispatchChild(cmd, ctx, rt);
    TraceContexts(sub, tail, Undef, rt);
    var child := Execute(sub, tail, Undef, rt);
    inner := child.trace;
    if child.outcome.Threw? {
      run := [];
      assert Dispatch(cmd, ctx, rt).trace == inner + run;
    } else {
      RunHookTrace(cmd, ctx, child.trace);
      run := HookEvents(Run, cmd.run, ctx);
    }
  }

  /** Hook order: this command's `setup`, then everything its subcommand
      does, then its own `run`, then its own `cleanup`; a throwing `cleanup`
      decides the outcome. */
  lemma HookOrder(cmd: Command, rawArgs: seq<string>, data: Val, rt: Runtime)
    requires WellFormed(cmd) && ParseArgsSpec(rawArgs, cmd.args, rt).Ok? && !HookThrows(cmd.setup)
    ensures var ctx := Context(rawArgs, ParseArgsSpec(rawArgs, cmd.args, rt).value, data);
            var x := Execute(cmd, rawArgs, data, rt);
            exists inner: seq<Event>, run: seq<Event> ::
              x.trace == HookEvents(Setup, cmd.setup, ctx) + inner + run + HookEvents(Cleanup, cmd.cleanup, ctx) &&
              (forall e :: e in inner ==> |e.ctx.rawArgs| < |rawArgs|) &&
              (run == [] || run == HookEvents(Run, cmd.run, ctx))
    ensures HookThrows(cmd.cleanup) ==>
              Execute(cmd, rawArgs, data, rt).outcome == Threw(HookThrew(cmd.cleanup.value.outcome.thrown))
  {
    ExecuteParsed(cmd, rawArgs, data, rt);
    var ctx := Context(rawArgs, ParseArgsSpec(rawArgs, cmd.args, rt).value, data);
    var inner, run := LifecycleOrder(cmd, ctx, rt);
    assert Execute(cmd, rawArgs, data, rt).trace ==
           HookEvents(Setup, cmd.setup, ctx) + inner + run + HookEvents(Cleanup, cmd.cleanup, ctx);
  }

  /** `HookOrder` on a parsed context, with the two middle parts named. */
  lemma LifecycleOrder(cmd: Command, ctx: Context, rt: Runtime) returns (inner: seq<Event>, run: seq<Event>)
    requires WellFormed(cmd) && !HookThrows(cmd.setup)
    ensures Lifecycle(cmd, ctx, rt).trace ==
            HookEvents(Setup, cmd.setup, ctx) + inner + run + HookEvents(Cleanup, cmd.cleanup, ctx)
    ensures forall e :: e in inner ==> |e.ctx.rawArgs| < |ctx.rawArgs|
    ensures run == [] || run == HookEvents(Run, cmd.run, ctx)
    ensures HookThrows(cmd.cleanup) ==>
              Lifecycle(cmd, ctx, rt).outcome == Threw(HookThrew(cmd.cleanup.value.outcome.thrown))
  {
    LifecycleAfterSetup(cmd, ctx, rt);
    inner, run := DispatchOrder(cmd, ctx, rt);
    Regroup(Lifecycle(cmd, ctx, rt).trace, HookEvents(Setup, cmd.setup, ctx), Dispatch(cmd, ctx, rt).trace,
            HookEvents(Cleanup, cmd.cleanup, ctx), inner, run);
  }

  lemma Regroup(t: seq<Event>, setup: seq<Event>, d: seq<Event>, cleanup: seq<Event>, inner: seq<Event>, run: seq<Event>)
    requires t == setup + d + cleanup && d == inner + run
    ensures t == setup + inner + run + cleanup
  {
    assert setup + (inner + run) == setup + inner + run;
  }

  /** Once `setup` has returned: the dispatch's events between `setup` and
      `cleanup`, and the dispatch's outcome unless `cleanup` throws. */
  lemma LifecycleAfterSetup(cmd: Command, ctx: Context, rt: Runtime)
    requires WellFormed(cmd) && !HookThrows(cmd.setup)
    ensures Lifecycle(cmd, ctx, rt).trace ==
            HookEvents(Setup, cmd.setup, ctx) + Dispatch(cmd, ctx, rt).trace + HookEvents(Cleanup, cmd.cleanup, ctx)
    ensures Lifecycle(cmd, ctx, rt).outcome ==
            if HookThrows(cmd.cleanup) then Threw(HookThrew(cmd.cleanup.value.outcome.thrown))
            else Dispatch(cmd, ctx, rt).outcome
  {
  }

  /** The number of `cleanup` events of the command run on `n` tokens. */
  function OwnCleanups(trace: seq<Event>, n: nat): nat {
    if |trace| == 0 then 0
    else OwnCleanups(trace[..|trace| - 1], n) +
         (if trace[|trace| - 1].phase == Cleanup && |trace[|trace| - 1].ctx.rawArgs| == n then 1 else 0)
  }

  lemma {:induction false} NoOwnCleanups(trace: seq<Event>, n: nat)
    requires forall e :: e in trace ==> |e.ctx.rawArgs| < n || e.phase != Cleanup
    ensures OwnCleanups(trace, n) == 0
    decreases |trace|
  {
    if |trace| > 0 {
      assert forall e :: e in trace[..|trace| - 1] ==> e in trace;
      NoOwnCleanups(trace[..|trace| - 1], n);
    }
  }

  /** Once the arguments parse, `cleanup` runs exactly once when `setup`
      succeeded, whatever the dispatch or `run` did, and it is the last hook;
      a throwing `setup` skips it. */
  lemma CleanupRunsOnce(cmd: Command, rawArgs: seq<string>, data: Val, rt: Runtime)
    requires WellFormed(cmd) && ParseArgsSpec(rawArgs, cmd.args, rt).Ok?
    ensures var x := Execute(cmd, rawArgs, data, rt);
            OwnCleanups(x.trace, |rawArgs|) == (if cmd.cleanup.Some? && !HookThrows(cmd.setup) then 1 else 0)
    ensures var x := Execute(cmd, rawArgs, data, rt);
            cmd.cleanup.Some? && !HookThrows(cmd.setup) ==>
              x.trace[|x.trace| - 1] ==
              Event(Cleanup, cmd.cleanup.value.tag, Context(rawArgs, ParseArgsSpec(rawArgs, cmd.args, rt).value, data))
  {
    ExecuteParsed(cmd, rawArgs, data, rt);
    LifecycleCleanupOnce(cmd, Context(rawArgs, ParseArgsSpec(rawArgs, cmd.args, rt).value, data), rt);
  }

  /** `CleanupRunsOnce` on a parsed context. */
  lemma LifecycleCleanupOnce(cmd: Command, ctx: Context, rt: Runtime)
    requires WellFormed(cmd)
    ensures var x := Lifecycle(cmd, ctx, rt);
            OwnCleanups(x.trace, |ctx.rawArgs|) == (if cmd.cleanup.Some? && !HookThrows(cmd.setup) then 1 else 0)
    ensures var x := Lifecycle(cmd, ctx, rt);
            cmd.cleanup.Some? && !HookThrows(cmd.setup) ==> x.trace[|x.trace| - 1] == Event(Cleanup, cmd.cleanup.value.tag, ctx)
  {
    var n := |ctx.rawArgs|;
    var x := Lifecycle(cmd, ctx, rt);
    var setup := HookEvents(Setup, cmd.setup, ctx);
    var cleanup := HookEvents(Cleanup, cmd.cleanup, ctx);
    if HookThrows(cmd.setup) {
      assert x.trace == setup;
      NoOwnCleanups(setup, n);
    } else {
      var inner, run := LifecycleOrder(cmd, ctx, rt);
      NoCleanupsBefore(setup, inner, run, n);
      CleanupLast(x.trace, setup + inner + run, cleanup, n);
    }
  }

  /** `setup`, then events of shorter runs, then `run`: no own `cleanup`. */
  lemma NoCleanupsBefore(setup: seq<Event>, inner: seq<Event>, run: seq<Event>, n: nat)
    requires forall e :: e in setup ==> e.phase == Setup
    requires forall e :: e in inner ==> |e.ctx.rawArgs| < n
    requires forall e :: e in run ==> e.phase == Run
    ensures OwnCleanups(setup + inner + run, n) == 0
  {
    var before := setup + inner + run;
    assert forall e :: e in before ==> e in setup || e in inner || e in run;
    NoOwnCleanups(before, n);
  }

  /** A trace that ends with at most one own `cleanup` event and has none
      before it counts exactly that many, and ends with it. */
  lemma CleanupLast(t: seq<Event>, before: seq<Event>, cleanup: seq<Event>, n: nat)
    requires t == before + cleanup && OwnCleanups(before, n) == 0 && |cleanup| <= 1
    requires forall e :: e in cleanup ==> e.phase == Cleanup && |e.ctx.rawArgs| == n
    ensures OwnCleanups(t, n) == |cleanup|
    ensures |cleanup| == 1 ==> t[|t| - 1] == cleanup[0]
  {
    if |cleanup| == 0 {
      assert t == before;
    } else {
      assert t[..|t| - 1] == before;
    }
  }

  /** A throwing `setup` is the only hook that runs, and its value is thrown. */
  lemma SetupFailureStopsRun(cmd: Command, rawArgs: seq<string>, data: Val, rt: Runtime)
    requires WellFormed(cmd) && ParseArgsSpec(rawArgs, cmd.args, rt).Ok? && HookThrows(cmd.setup)
    ensures Execute(cmd, rawArgs, data, rt) ==
            Exec([Event(Setup, cmd.setup.value.tag, Context(rawArgs, ParseArgsSpec(rawArgs, cmd.args, rt).value, data))],
                 Threw(HookThrew(cmd.setup.value.outcome.thrown)))
  {
    ExecuteParsed(cmd, rawArgs, data, rt);
  }

  /** A run that completes returns this command's own `run` value, or
      `undefined` when it has none; what a subcommand returned is dropped. */
  lemma ResultIsOwnRun(cmd: Command, rawArgs: seq<string>, data: Val, rt: Runtime)
    requires WellFormed(cmd)
    ensures var x := Execute(cmd, rawArgs, data, rt);
            x.outcome.Done? ==>
              !HookThrows(cmd.setup) && !HookThrows(cmd.cleanup) &&
              (cmd.run.Some? ==> cmd.run.value.outcome.Returns? && x.outcome.result == cmd.run.value.outcome.value) &&
              (cmd.run.None? ==> x.outcome.result == Undef)
  {
    ExecuteParsed(cmd, rawArgs, data, rt);
    var parsed := ParseArgsSpec(rawArgs, cmd.args, rt);
    if parsed.Ok? {
      LifecycleResult(cmd, Context(rawArgs, parsed.value, data), rt);
    }
  }

  /** A completed outcome is this command's own `run` value, or `undefined`
      when it has no `run`. */
  predicate OwnResult(cmd: Command, o: Outcome) {
    o.Done? ==>
      (cmd.run.Some? ==> cmd.run.value.outcome.Returns? && o.result == cmd.run.value.outcome.value) &&
      (cmd.run.None? ==> o.result == Undef)
  }

  /** `ResultIsOwnRun` on a parsed context. */
  lemma LifecycleResult(cmd: Command, ctx: Context, rt: Runtime)
    requires WellFormed(cmd)
    ensures var o := Lifecycle(cmd, ctx, rt).outcome;
            o.Done? ==> !HookThrows(cmd.setup) && !HookThrows(cmd.cleanup) && OwnResult(cmd, o)
  {
    if !HookThrows(cmd.setup) {
      LifecycleAfterSetup(cmd, ctx, rt);
      DispatchResult(cmd, ctx, rt);
    }
  }

  lemma DispatchResult(cmd: Command, ctx: Context, rt: Runtime)
    requires WellFormed(cmd)
    ensures OwnResult(cmd, Dispatch(cmd, ctx, rt).outcome)
  {
    if ChildCase(cmd, ctx.rawArgs) {
      DispatchChild(cmd, ctx, rt);
      var child := Execute(ChildFor(cmd, ctx.rawArgs), TailAfter(ctx.rawArgs), Undef, rt);
      RunHookResult(cmd, ctx, child.trace);
    } else {
      DispatchNoChild(cmd, ctx, rt);
      RunHookResult(cmd, ctx, []);
    }
  }

  lemma RunHookResult(cmd: Command, ctx: Context, before: seq<Event>)
    ensures OwnResult(cmd, RunHook(cmd, ctx, before).outcome)
  {
  }

  /** A candidate token that names no subcommand throws E_UNKNOWN_COMMAND;
      no subcommand and no `run` hook runs. */
  lemma UnknownCommandThrows(cmd: Command, rawArgs: seq<string>, data: Val, rt: Runtime)
    requires WellFormed(cmd) && ParseArgsSpec(rawArgs, cmd.args, rt).Ok?
    requires !HookThrows(cmd.setup) && !HookThrows(cmd.cleanup) && |cmd.subCommands| > 0
    requires FirstNonDash(rawArgs) >= 0 && rawArgs[FirstNonDash(rawArgs)] != ""
    requires SubCommandFor(cmd.subCommands, rawArgs[FirstNonDash(rawArgs)]).None?
    ensures var ctx := Context(rawArgs, ParseArgsSpec(rawArgs, cmd.args, rt).value, data);
            Execute(cmd, rawArgs, data, rt) ==
            Exec(HookEvents(Setup, cmd.setup, ctx) + HookEvents(Cleanup, cmd.cleanup, ctx),
                 Threw(Raised(Fail("Unknown command `" + rawArgs[FirstNonDash(rawArgs)] + "`", "E_UNKNOWN_COMMAND"))))
  {
    ExecuteParsed(cmd, rawArgs, data, rt);
    var ctx := Context(rawArgs, ParseArgsSpec(rawArgs, cmd.args, rt).value, data);
    DispatchNoChild(cmd, ctx, rt);
    assert HookEvents(Setup, cmd.setup, ctx) + [] == HookEvents(Setup, cmd.setup, ctx);
  }

  /** A command with subcommands, no candidate token (none without a dash, or
      an empty one) and no `run` hook throws E_NO_COMMAND. */
  lemma NoCommandThrows(cmd: Command, rawArgs: seq<string>, data: Val, rt: Runtime)
    requires WellFormed(cmd) && ParseArgsSpec(rawArgs, cmd.args, rt).Ok?
    requires !HookThrows(cmd.setup) && !HookThrows(cmd.cleanup) && |cmd.subCommands| > 0 && cmd.run.None?
    requires FirstNonDash(rawArgs) == -1 || rawArgs[FirstNonDash(rawArgs)] == ""
    ensures Execute(cmd, rawArgs, data, rt).outcome == Threw(Raised(Fail("No command specified.", "E_NO_COMMAND")))
  {
    ExecuteParsed(cmd, rawArgs, data, rt);
    var ctx := Context(rawArgs, ParseArgsSpec(rawArgs, cmd.args, rt).value, data);
    DispatchNoChild(cmd, ctx, rt);
  }

  /** The subcommand named by the candidate token runs on exactly the tokens
      after it, without `data`, between this command's `setup` and `run`; if
      it throws, this command's `run` is skipped and the exception passes
      through a quiet `cleanup`. */
  lemma SubcommandRunsOnTail(cmd: Command, rawArgs: seq<string>, data: Val, rt: Runtime)
    requires WellFormed(cmd) && ParseArgsSpec(rawArgs, cmd.args, rt).Ok? && !HookThrows(cmd.setup)
    requires ChildCase(cmd, rawArgs)
    ensures WellFormed(ChildFor(cmd, rawArgs))
    ensures var ctx := Context(rawArgs, ParseArgsSpec(rawArgs, cmd.args, rt).value, data);
            var child := Execute(ChildFor(cmd, rawArgs), TailAfter(rawArgs), Undef, rt);
            var x := Execute(cmd, rawArgs, data, rt);
            (child.outcome.Threw? ==>
               x.trace == HookEvents(Setup, cmd.setup, ctx) + child.trace + HookEvents(Cleanup, cmd.cleanup, ctx) &&
               (!HookThrows(cmd.cleanup) ==> x.outcome == child.outcome)) &&
            (child.outcome.Done? ==>
               x.trace == HookEvents(Setup, cmd.setup, ctx) + child.trace + HookEvents(Run, cmd.run, ctx) +
                          HookEvents(Cleanup, cmd.cleanup, ctx))
  {
    ExecuteParsed(cmd, rawArgs, data, rt);
    LifecycleChild(cmd, Context(rawArgs, ParseArgsSpec(rawArgs, cmd.args, rt).value, data), rt);
  }

  /** `SubcommandRunsOnTail` on a parsed context. */
  lemma LifecycleChild(cmd: Command, ctx: Context, rt: Runtime)
    requires WellFormed(cmd) && !HookThrows(cmd.setup) && ChildCase(cmd, ctx.rawArgs)
    ensures WellFormed(ChildFor(cmd, ctx.rawArgs))
    ensures var child := Execute(ChildFor(cmd, ctx.rawArgs), TailAfter(ctx.rawArgs), Undef, rt);
            var x := Lifecycle(cmd, ctx, rt);
            (child.outcome.Threw? ==>
               x.trace == HookEvents(Setup, cmd.setup, ctx) + child.trace + HookEvents(Cleanup, cmd.cleanup, ctx) &&
               (!HookThrows(cmd.cleanup) ==> x.outcome == child.outcome)) &&
            (child.outcome.Done? ==>
               x.trace == HookEvents(Setup, cmd.setup, ctx) + child.trace + HookEvents(Run, cmd.run, ctx) +
                          HookEvents(Cleanup, cmd.cleanup, ctx))
  {
    LifecycleAfterSetup(cmd, ctx, rt);
    DispatchChild(cmd, ctx, rt);
    var child := Execute(ChildFor(cmd, ctx.rawArgs), TailAfter(ctx.rawArgs), Undef, rt);
    var d := Dispatch(cmd, ctx, rt);
    if child.outcome.Done? {
      RunHookTrace(cmd, ctx, child.trace);
      Regroup(Lifecycle(cmd, ctx, rt).trace, HookEvents(Setup, cmd.setup, ctx), d.trace,
              HookEvents(Cleanup, cmd.cleanup, ctx), child.trace, HookEvents(Run, cmd.run, ctx));
    } else {
      assert d == child;
    }
  }

  // ---------------------------------------------------------------------------
  // resolveSubCommand

  /** The walk goes as deep as it can: the tokens left to the leaf are a
      suffix of the input, the leaf does not descend on them, and resolving
      again from the leaf on them returns the leaf itself. */
  lemma {:induction false} ResolvedLeafStops(cmd: Command, rawArgs: seq<string>, parent: Option<Command>)
    ensures var leaf := ResolveSubCommand(cmd, rawArgs, parent).0;
            var s := LeafTokens(cmd, rawArgs);
            IsSuffix(s, rawArgs) && !Descends(leaf, s) && forall q :: ResolveSubCommand(leaf, s, q) == (leaf, q)
    decreases cmd
  {
    if Descends(cmd, rawArgs) {
      var k := LookupIndex(cmd.subCommands, LookupName(rawArgs));
      var entry := cmd.subCommands[k];
      assert entry in cmd.subCommands;
      var tail := AfterCandidate(rawArgs);
      ResolvedLeafStops(entry.cmd, tail, Some(cmd));
      assert ResolveSubCommand(cmd, rawArgs, parent) == ResolveSubCommand(entry.cmd, tail, Some(cmd));
      assert LeafTokens(cmd, rawArgs) == LeafTokens(entry.cmd, tail);
      SuffixTrans(LeafTokens(entry.cmd, tail), tail, rawArgs);
    } else {
      assert rawArgs[|rawArgs| - |rawArgs|..] == rawArgs;
    }
  }

  /** Without a candidate token the walk reads only the own key
      "undefined": it descends exactly when some entry has that key, and it
      then takes that entry; the `meta.aliases` lists are not consulted. */
  lemma NoCandidateReadsUndefinedKey(cmd: Command, rawArgs: seq<string>)
    requires forall i :: 0 <= i < |rawArgs| ==> StartsWithDash(rawArgs[i])
    ensures Descends(cmd, rawArgs) <==> HasKey(cmd.subCommands, "undefined")
    ensures Descends(cmd, rawArgs) ==>
              var k := LookupIndex(cmd.subCommands, None);
              0 <= k && cmd.subCommands[k].name == "undefined"
  {
    FirstNonDashSpec(rawArgs);
    KeyFromSpec(cmd.subCommands, "undefined", 0);
  }

  /** A subcommand that lists "undefined" among its `meta.aliases` is not
      entered when every token starts with a dash. */
  lemma UndefinedAliasNotEntered()
    ensures var build := Command(Some(Meta(None, None, None, false, ["undefined"])), EmptyDict(), [], false, Absent, None, None, None);
            var root := Command(None, EmptyDict(), [SubEntry("build", build)], true, Absent, None, None, None);
            ResolveSubCommand(root, ["--x"], None) == (root, None)
  {
    var build := Command(Some(Meta(None, None, None, false, ["undefined"])), EmptyDict(), [], false, Absent, None, None, None);
    var root := Command(None, EmptyDict(), [SubEntry("build", build)], true, Absent, None, None, None);
    assert StartsWithDash("--x");
    assert FirstNonDash(["--x"]) == -1;
    assert KeyFrom(root.subCommands, "undefined", 0) == -1;
  }

  /** The walk of test/main.test.ts:160-184: `foo bar` resolves to `foo`. */
  lemma ResolvesNamedSubcommand()
    ensures var bar := ArgDef(Positional, None, None, Absent, Undef, None, None, None);
            var foo := Command(None, Dict(["bar"], map["bar" := bar]), [], false, Absent, None, None, None);
            var root := Command(None, EmptyDict(), [SubEntry("foo", foo)], true, Absent, None, None, None);
            ResolveSubCommand(root, ["foo", "bar"], None) == (foo, Some(root))
  {
    var bar := ArgDef(Positional, None, None, Absent, Undef, None, None, None);
    var foo := Command(None, Dict(["bar"], map["bar" := bar]), [], false, Absent, None, None, None);
    var root := Command(None, EmptyDict(), [SubEntry("foo", foo)], true, Absent, None, None, None);
    assert FirstNonDash(["foo", "bar"]) == 0;
    assert KeyFrom(root.subCommands, "foo", 0) == 0;
  }
}
